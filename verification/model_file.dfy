/** The vocabulary files. `save_model` (src/authorclustering/feature.py) and `_write_file`
    (src/feature.py) write one `"<token> <count>"` line per dictionary entry; `Feature.load`
    of src/exp_cluster.py reads such files back into sets of keys, and `Feature.load` of
    test/exp_cluster.py into dictionaries from key to count. */
module ModelFile {
  import opened Wrappers
  import opened PyStr
  import opened Seqs
  import opened Tally

  // ---------------------------------------------------------------------------
  // Writing

  /** `str.format('{} {}\n', word, num)`. */
  function SaveLine(token: string, count: nat): string {
    token + " " + NatToString(count) + "\n"
  }

  /** The lines written for `model.items()`, in the dictionary's order. */
  function SaveLines(keys: seq<string>, count: map<string, nat>): (lines: seq<string>)
    requires forall i :: 0 <= i < |keys| ==> keys[i] in count
    ensures |lines| == |keys|
    ensures forall i :: 0 <= i < |keys| ==> lines[i] == SaveLine(keys[i], count[keys[i]])
  {
    seq(|keys|, i requires 0 <= i < |keys| => SaveLine(keys[i], count[keys[i]]))
  }

  /** `save_model(model, path)` and `_write_file(model, path)`: the file's lines. */
  function SaveModel(c: Counts<string>): (lines: seq<string>)
    requires WellFormed(c)
    ensures |lines| == |c.keys|
  {
    SaveLines(c.keys, c.count)
  }

  // ---------------------------------------------------------------------------
  // Line formats

  /** How a file's lines are read: `Columns(w)` splits on whitespace, asserts exactly `w`
      fields and keys on the first `w - 1` joined by single spaces; `CharGram` keys on
      the first four characters and reads the count from the sixth on. */
  datatype LineFormat = Columns(width: nat) | CharGram

  predicate ValidFormat(format: LineFormat) {
    format.Columns? ==> format.width >= 2
  }

  /** The key a line of the given format contributes, as src/exp_cluster.py reads it. */
  function SetKey(format: LineFormat, line: string): (r: Result<string>)
    requires ValidFormat(format)
    ensures r.Failure? <==> format.Columns? && |Fields(line)| != format.width
    ensures r.Failure? ==> r.error == AssertionFailed
    ensures r.Success? && format.Columns? ==> r.value == Join(" ", Fields(line)[..format.width - 1])
    ensures format.CharGram? ==> r == Success(PySlice(line, 0, 4))
  {
    match format
    case Columns(width) =>
      var elements := Fields(line);
      if |elements| != width then Failure(AssertionFailed) else Success(Join(" ", elements[..width - 1]))
    case CharGram =>
      Success(PySlice(line, 0, 4))
  }

  /** The key and the count a line of the given format contributes, as
      test/exp_cluster.py reads it: the field-count assertion first, then `int()`. */
  function Entry(format: LineFormat, line: string): (r: Result<(string, int)>)
    requires ValidFormat(format)
    ensures r.Success? ==> SetKey(format, line) == Success(r.value.0)
    ensures SetKey(format, line).Failure? ==> r == Failure(AssertionFailed)
  {
    match format
    case Columns(width) =>
      var elements := Fields(line);
      if |elements| != width then Failure(AssertionFailed)
      else
        var count :- PyInt(elements[width - 1]);
        Success((Join(" ", elements[..width - 1]), count))
    case CharGram =>
      var count :- PyInt(PySlice(line, 5, |line|));
      Success((PySlice(line, 0, 4), count))
  }

  // ---------------------------------------------------------------------------
  // Reading into sets (src/exp_cluster.py)

  /** The key of every line, in file order; the first bad line raises. */
  function KeysOf(format: LineFormat, lines: seq<string>): (r: Result<seq<string>>)
    requires ValidFormat(format)
    ensures r.Success? <==> forall i :: 0 <= i < |lines| ==> SetKey(format, lines[i]).Success?
    ensures r.Failure? ==> r.error == AssertionFailed
    ensures r.Success? ==> |r.value| == |lines|
    ensures r.Success? ==> forall i :: 0 <= i < |lines| ==> SetKey(format, lines[i]) == Success(r.value[i])
    decreases |lines|
  {
    if |lines| == 0 then Success([])
    else
      var init := lines[..|lines| - 1];
      var keys :- KeysOf(format, init);
      var key :- SetKey(format, lines[|lines| - 1]);
      Success(keys + [key])
  }

  /** One more line read for its key. */
  lemma KeysOfSnoc(format: LineFormat, lines: seq<string>, keys: seq<string>, key: string)
    requires ValidFormat(format) && |lines| > 0
    requires KeysOf(format, lines[..|lines| - 1]) == Success(keys)
    requires SetKey(format, lines[|lines| - 1]) == Success(key)
    ensures KeysOf(format, lines) == Success(keys + [key])
  {
  }

  /** One `with open(...)` block of src/exp_cluster.py's `load`: the set filled with the
      file's keys, in first-insertion order. It fails exactly when some line has the
      wrong number of fields; otherwise it holds each line's key once and nothing else. */
  function LoadSet(format: LineFormat, lines: seq<string>): (r: Result<seq<string>>)
    requires ValidFormat(format)
    ensures r.Success? <==> forall i :: 0 <= i < |lines| ==> SetKey(format, lines[i]).Success?
    ensures r.Failure? ==> r.error == AssertionFailed
    ensures r.Success? ==> NoDuplicates(r.value)
    ensures r.Success? ==> forall i :: 0 <= i < |lines| ==> SetKey(format, lines[i]).value in r.value
    ensures r.Success? ==> forall x :: x in r.value ==> exists i :: 0 <= i < |lines| && SetKey(format, lines[i]) == Success(x)
  {
    var keys :- KeysOf(format, lines);
    var r := Distinct(keys);
    assert forall x :: x in r ==> exists i :: 0 <= i < |lines| && SetKey(format, lines[i]) == Success(x) by {
      forall x | x in r
        ensures exists i :: 0 <= i < |lines| && SetKey(format, lines[i]) == Success(x)
      {
        var i :| 0 <= i < |keys| && keys[i] == x;
        assert SetKey(format, lines[i]) == Success(x);
      }
    }
    Success(r)
  }

  /** The files `load` is given: `None` for a path left at its default. */
  datatype SrcFiles = SrcFiles(
    words: Option<seq<string>>, wordBigrams: Option<seq<string>>, charGrams: Option<seq<string>>,
    tags: Option<seq<string>>, tagBigrams: Option<seq<string>>, tagTrigrams: Option<seq<string>>,
    tagFourgrams: Option<seq<string>>)

  /** The seven reference sets of src/exp_cluster.py's `Feature`, in iteration order. */
  datatype SrcSets = SrcSets(
    words: seq<string>, wordBigrams: seq<string>, charGrams: seq<string>,
    tags: seq<string>, tagBigrams: seq<string>, tagTrigrams: seq<string>,
    tagFourgrams: seq<string>)

  function LoadOptional(format: LineFormat, file: Option<seq<string>>): (r: Result<seq<string>>)
    requires ValidFormat(format)
    ensures file.None? ==> r == Success([])
    ensures file.Some? ==> r == LoadSet(format, file.value)
  {
    match file
    case None => Success([])
    case Some(lines) => LoadSet(format, lines)
  }

  predicate Loads(format: LineFormat, file: Option<seq<string>>)
    requires ValidFormat(format)
  {
    file.Some? ==> forall i :: 0 <= i < |file.value| ==> SetKey(format, file.value[i]).Success?
  }

  /** `Feature.load(...)` of src/exp_cluster.py on a fresh `Feature`: word and POS files
      have two fields per line, bigram files three, trigram files four and four-gram
      files five; char-gram files are never checked. */
  function SrcLoad(files: SrcFiles): (r: Result<SrcSets>)
    ensures r.Success? <==>
      && Loads(Columns(2), files.words) && Loads(Columns(3), files.wordBigrams)
      && Loads(Columns(2), files.tags) && Loads(Columns(3), files.tagBigrams)
      && Loads(Columns(4), files.tagTrigrams) && Loads(Columns(5), files.tagFourgrams)
    ensures r.Success? ==>
      && r.value.words == LoadOptional(Columns(2), files.words).value
      && r.value.wordBigrams == LoadOptional(Columns(3), files.wordBigrams).value
      && r.value.charGrams == LoadOptional(CharGram, files.charGrams).value
      && r.value.tags == LoadOptional(Columns(2), files.tags).value
      && r.value.tagBigrams == LoadOptional(Columns(3), files.tagBigrams).value
      && r.value.tagTrigrams == LoadOptional(Columns(4), files.tagTrigrams).value
      && r.value.tagFourgrams == LoadOptional(Columns(5), files.tagFourgrams).value
  {
    var words :- LoadOptional(Columns(2), files.words);
    var wordBigrams :- LoadOptional(Columns(3), files.wordBigrams);
    var charGrams := LoadOptional(CharGram, files.charGrams).value;
    var tags :- LoadOptional(Columns(2), files.tags);
    var tagBigrams :- LoadOptional(Columns(3), files.tagBigrams);
    var tagTrigrams :- LoadOptional(Columns(4), files.tagTrigrams);
    var tagFourgrams :- LoadOptional(Columns(5), files.tagFourgrams);
    Success(SrcSets(words, wordBigrams, charGrams, tags, tagBigrams, tagTrigrams, tagFourgrams))
  }

  // ---------------------------------------------------------------------------
  // Reading into dictionaries (test/exp_cluster.py)

  /** A Python dict from key to count; `keys` is its insertion order. */
  datatype Dict = Dict(keys: seq<string>, values: map<string, int>)

  predicate DictWellFormed(d: Dict) {
    && NoDuplicates(d.keys)
    && (forall i :: 0 <= i < |d.keys| ==> d.keys[i] in d.values)
    && (forall k :: k in d.values ==> k in d.keys)
  }

  /** `d[key] = value`: a new key goes last, an existing key keeps its place. */
  function Put(d: Dict, key: string, value: int): (r: Dict)
    requires DictWellFormed(d)
    ensures DictWellFormed(r)
    ensures r.values == d.values[key := value]
    ensures key in d.values ==> r.keys == d.keys
    ensures key !in d.values ==> r.keys == d.keys + [key]
  {
    if key in d.values then Dict(d.keys, d.values[key := value])
    else Dict(d.keys + [key], d.values[key := value])
  }

  /** One `with open(...)` block of test/exp_cluster.py's `load`: it succeeds exactly
      when every line parses. */
  function LoadDict(format: LineFormat, lines: seq<string>): (r: Result<Dict>)
    requires ValidFormat(format)
    ensures r.Success? <==> Parses(format, lines)
    ensures r.Failure? ==> r.error == AssertionFailed || r.error == ValueError
    ensures r.Success? ==> DictWellFormed(r.value)
    decreases |lines|
  {
    if |lines| == 0 then Success(Dict([], map[]))
    else
      var init := lines[..|lines| - 1];
      EntriesSnoc(format, lines);
      var d :- LoadDict(format, init);
      var e :- Entry(format, lines[|lines| - 1]);
      Success(Put(d, e.0, e.1))
  }

  /** One more line read into the dict. */
  lemma LoadDictSnoc(format: LineFormat, lines: seq<string>, d: Dict, e: (string, int))
    requires ValidFormat(format) && |lines| > 0
    requires LoadDict(format, lines[..|lines| - 1]) == Success(d)
    requires Entry(format, lines[|lines| - 1]) == Success(e)
    ensures LoadDict(format, lines) == Success(Put(d, e.0, e.1))
  {
  }

  /** Every line parses. */
  predicate Parses(format: LineFormat, lines: seq<string>)
    requires ValidFormat(format)
  {
    forall i :: 0 <= i < |lines| ==> Entry(format, lines[i]).Success?
  }

  /** Every line parses exactly when all but the last do and the last does too. */
  lemma EntriesSnoc(format: LineFormat, lines: seq<string>)
    requires ValidFormat(format) && |lines| > 0
    ensures Parses(format, lines) <==>
      Parses(format, lines[..|lines| - 1]) && Entry(format, lines[|lines| - 1]).Success?
  {
    var init := lines[..|lines| - 1];
    if Parses(format, init) && Entry(format, lines[|lines| - 1]).Success? {
      forall i | 0 <= i < |lines|
        ensures Entry(format, lines[i]).Success?
      {
        if i < |lines| - 1 {
          assert init[i] == lines[i];
        }
      }
    }
  }

  /** The (key, count) pairs of lines that all parse. */
  function Pairs(format: LineFormat, lines: seq<string>): (r: seq<(string, int)>)
    requires ValidFormat(format)
    requires Parses(format, lines)
    ensures |r| == |lines|
    ensures forall i :: 0 <= i < |lines| ==> r[i] == Entry(format, lines[i]).value
  {
    seq(|lines|, i requires 0 <= i < |lines| => Entry(format, lines[i]).value)
  }

  /** Storing the pairs one after the other into an empty dict. */
  function Store(ps: seq<(string, int)>): (r: Dict)
    ensures DictWellFormed(r)
    decreases |ps|
  {
    if |ps| == 0 then Dict([], map[])
    else Put(Store(ps[..|ps| - 1]), ps[|ps| - 1].0, ps[|ps| - 1].1)
  }

  lemma {:induction false} LoadDictIsStore(format: LineFormat, lines: seq<string>)
    requires ValidFormat(format)
    requires Parses(format, lines)
    ensures LoadDict(format, lines) == Success(Store(Pairs(format, lines)))
    decreases |lines|
  {
    if |lines| > 0 {
      var init := lines[..|lines| - 1];
      LoadDictIsStore(format, init);
      assert Pairs(format, lines)[..|lines| - 1] == Pairs(format, init);
    }
  }

  /** Pair `i` is the last one with its key. */
  predicate LastPair(ps: seq<(string, int)>, i: nat)
    requires i < |ps|
  {
    forall j :: i < j < |ps| ==> ps[j].0 != ps[i].0
  }

  lemma {:induction false} StoreKeys(ps: seq<(string, int)>)
    ensures forall k :: k in Store(ps).values ==> exists i :: 0 <= i < |ps| && ps[i].0 == k
    decreases |ps|
  {
    if |ps| > 0 {
      var init := ps[..|ps| - 1];
      StoreKeys(init);
      assert Store(ps).values == Store(init).values[ps[|ps| - 1].0 := ps[|ps| - 1].1];
      forall k | k in Store(ps).values
        ensures exists i :: 0 <= i < |ps| && ps[i].0 == k
      {
        if k != ps[|ps| - 1].0 {
          var i :| 0 <= i < |init| && init[i].0 == k;
          assert ps[i].0 == k;
        }
      }
    }
  }

  lemma {:induction false} StoreLastWins(ps: seq<(string, int)>, i: nat)
    requires i < |ps| && LastPair(ps, i)
    ensures ps[i].0 in Store(ps).values && Store(ps).values[ps[i].0] == ps[i].1
    decreases |ps|
  {
    var init := ps[..|ps| - 1];
    if i < |ps| - 1 {
      assert ps[|ps| - 1].0 != ps[i].0;
      assert LastPair(init, i) by {
        forall j | i < j < |init| ensures init[j].0 != init[i].0 {
          assert init[j] == ps[j];
        }
      }
      StoreLastWins(init, i);
    }
  }

  /** Line `i` carries the last occurrence of its key. */
  predicate LastEntry(format: LineFormat, lines: seq<string>, i: nat)
    requires ValidFormat(format) && i < |lines|
    requires Parses(format, lines)
  {
    forall j :: i < j < |lines| ==> Entry(format, lines[j]).value.0 != Entry(format, lines[i]).value.0
  }

  /** The dictionary holds exactly the keys of the lines, and each key maps to the
      count of the last line that carries it. */
  lemma LoadDictContents(format: LineFormat, lines: seq<string>)
    requires ValidFormat(format)
    requires Parses(format, lines)
    ensures forall k :: k in LoadDict(format, lines).value.values <==> exists i :: 0 <= i < |lines| && Entry(format, lines[i]).value.0 == k
    ensures forall i :: 0 <= i < |lines| && LastEntry(format, lines, i) ==>
      LoadDict(format, lines).value.values[Entry(format, lines[i]).value.0] == Entry(format, lines[i]).value.1
  {
    var ps := Pairs(format, lines);
    LoadDictIsStore(format, lines);
    StoreKeys(ps);
    forall i | 0 <= i < |lines| && LastEntry(format, lines, i)
      ensures ps[i].0 in Store(ps).values && Store(ps).values[ps[i].0] == ps[i].1
    {
      StoreLastWins(ps, i);
    }
    forall k, i | 0 <= i < |lines| && Entry(format, lines[i]).value.0 == k
      ensures k in Store(ps).values
    {
      var last := LastIndexOf(ps, i);
      StoreLastWins(ps, last);
    }
  }

  /** The last pair sharing the key of pair `i`. */
  function LastIndexOf(ps: seq<(string, int)>, i: nat): (r: nat)
    requires i < |ps|
    ensures i <= r < |ps| && ps[r].0 == ps[i].0 && LastPair(ps, r)
    decreases |ps| - i
  {
    if exists j :: i < j < |ps| && ps[j].0 == ps[i].0 then
      var j :| i < j < |ps| && ps[j].0 == ps[i].0;
      LastIndexOf(ps, j)
    else i
  }

  datatype TestFiles = TestFiles(words: seq<string>, charGrams: seq<string>, tags: seq<string>, tagBigrams: seq<string>)

  datatype TestDicts = TestDicts(words: Dict, charGrams: Dict, tags: Dict, tagBigrams: Dict)

  /** `Feature.load(...)` of test/exp_cluster.py: all four files are read, in order. */
  function TestLoad(files: TestFiles): (r: Result<TestDicts>)
    ensures r.Success? <==>
      && LoadDict(Columns(2), files.words).Success? && LoadDict(CharGram, files.charGrams).Success?
      && LoadDict(Columns(2), files.tags).Success? && LoadDict(Columns(3), files.tagBigrams).Success?
    ensures r.Success? ==>
      && r.value.words == LoadDict(Columns(2), files.words).value
      && r.value.charGrams == LoadDict(CharGram, files.charGrams).value
      && r.value.tags == LoadDict(Columns(2), files.tags).value
      && r.value.tagBigrams == LoadDict(Columns(3), files.tagBigrams).value
  {
    var words :- LoadDict(Columns(2), files.words);
    var charGrams :- LoadDict(CharGram, files.charGrams);
    var tags :- LoadDict(Columns(2), files.tags);
    var tagBigrams :- LoadDict(Columns(3), files.tagBigrams);
    Success(TestDicts(words, charGrams, tags, tagBigrams))
  }

  // ---------------------------------------------------------------------------
  // Round trips

  /** A key of `width` whitespace-free fields joined by single spaces, as the model
      builder produces for words (1), tag bigrams (2) and so on. */
  predicate CanonicalKey(key: string, width: nat) {
    |Fields(key)| == width && Join(" ", Fields(key)) == key
  }

  /** A key with no line break: reading a file back splits its lines at `'\n'` and
      at `'\r'`. */
  predicate NoLineBreak(key: string) {
    '\n' !in key && '\r' !in key
  }

  /** A key the format can read back. */
  predicate Readable(format: LineFormat, key: string) {
    match format
    case Columns(width) => width >= 2 && CanonicalKey(key, width - 1)
    case CharGram => |key| == 4 && NoLineBreak(key)
  }

  /** Reading a written line gives back its key and count. */
  lemma EntryOfSaveLine(format: LineFormat, key: string, count: nat)
    requires ValidFormat(format) && Readable(format, key)
    ensures Entry(format, SaveLine(key, count)) == Success((key, count))
    ensures SetKey(format, SaveLine(key, count)) == Success(key)
  {
    var line := SaveLine(key, count);
    var digits := NatToString(count);
    match format
    case Columns(width) =>
      var ws := Fields(key);
      var all := ws + [digits];
      assert all[..|all| - 1] == ws;
      assert Join(" ", all) == key + " " + digits;
      assert line == Join(" ", all) + "\n";
      assert !IsSpace(digits[0]);
      assert forall k :: 0 <= k < |all| ==> IsField(all[k]) by {
        forall k | 0 <= k < |all|
          ensures IsField(all[k])
        {
          if k == |ws| {
            assert forall m :: 0 <= m < |digits| ==> IsDigit(digits[m]);
          }
        }
      }
      FieldsOfJoin(all, "\n");
      PyIntOfNatLine(count, "");
      assert digits + "" == digits;
    case CharGram =>
      assert PySlice(line, 0, 4) == key;
      assert PySlice(line, 5, |line|) == digits + "\n";
      PyIntOfNatLine(count, "\n");
  }

  /** A saved model read back by src/exp_cluster.py's `load` gives its keys, in order. */
  lemma {:induction false} KeysOfSaved(format: LineFormat, keys: seq<string>, count: map<string, nat>)
    requires ValidFormat(format)
    requires forall i :: 0 <= i < |keys| ==> keys[i] in count && Readable(format, keys[i])
    ensures KeysOf(format, SaveLines(keys, count)) == Success(keys)
    decreases |keys|
  {
    var lines := SaveLines(keys, count);
    if |keys| > 0 {
      var n := |keys|;
      var init := keys[..n - 1];
      var last := keys[n - 1];
      KeysOfSaved(format, init, count);
      assert lines[..n - 1] == SaveLines(init, count);
      assert lines[n - 1] == SaveLine(last, count[last]);
      EntryOfSaveLine(format, last, count[last]);
      KeysOfSnoc(format, lines, init, last);
      SplitLast(keys);
    }
  }

  /** A saved model read back by test/exp_cluster.py's `load` gives its keys, in order,
      each with its count. */
  lemma {:induction false} LoadDictOfSaved(format: LineFormat, keys: seq<string>, count: map<string, nat>)
    requires ValidFormat(format)
    requires forall i :: 0 <= i < |keys| ==> keys[i] in count && Readable(format, keys[i])
    requires NoDuplicates(keys)
    ensures LoadDict(format, SaveLines(keys, count)).Success?
    ensures LoadDict(format, SaveLines(keys, count)).value.keys == keys
    ensures forall i :: 0 <= i < |keys| ==> LoadDict(format, SaveLines(keys, count)).value.values[keys[i]] == count[keys[i]]
    decreases |keys|
  {
    var lines := SaveLines(keys, count);
    if |keys| > 0 {
      var n := |keys|;
      var init := keys[..n - 1];
      var last := keys[n - 1];
      LoadDictOfSaved(format, init, count);
      var prev := SaveLines(init, count);
      assert lines[..n - 1] == prev;
      assert lines[n - 1] == SaveLine(last, count[last]);
      EntryOfSaveLine(format, last, count[last]);
      var d := LoadDict(format, prev).value;
      LoadDictSnoc(format, lines, d, (last, count[last]));
      assert last !in init;
      PutSaved(init, last, count, d);
      SplitLast(keys);
    }
  }

  /** Storing the last saved pair after the others extends the dict by that key. */
  lemma PutSaved(init: seq<string>, last: string, count: map<string, nat>, d: Dict)
    requires last !in init && last in count
    requires forall i :: 0 <= i < |init| ==> init[i] in count
    requires DictWellFormed(d) && d.keys == init
    requires forall i :: 0 <= i < |init| ==> d.values[init[i]] == count[init[i]]
    ensures Put(d, last, count[last]).keys == init + [last]
    ensures forall i :: 0 <= i < |init| + 1 ==> Put(d, last, count[last]).values[(init + [last])[i]] == count[(init + [last])[i]]
  {
    var r := Put(d, last, count[last]);
    forall i | 0 <= i < |init| + 1
      ensures r.values[(init + [last])[i]] == count[(init + [last])[i]]
    {
      if i < |init| {
        assert (init + [last])[i] == init[i];
      }
    }
  }

  /** Saving `c` and reading the file back with `format` recovers it: the loader of
      src/exp_cluster.py gets the keys in order, the loader of test/exp_cluster.py gets
      the keys in order, each with its count. */
  predicate ReadsBack(format: LineFormat, c: Counts<string>)
    requires ValidFormat(format) && WellFormed(c)
  {
    && LoadSet(format, SaveModel(c)) == Success(c.keys)
    && LoadDict(format, SaveModel(c)).Success?
    && LoadDict(format, SaveModel(c)).value.keys == c.keys
    && forall k :: k in c.count ==>
      k in LoadDict(format, SaveModel(c)).value.values && LoadDict(format, SaveModel(c)).value.values[k] == c.count[k]
  }

  /** Every model whose keys the format can hold is read back whole by both loaders. */
  lemma SaveThenLoad(c: Counts<string>, format: LineFormat)
    requires WellFormed(c) && ValidFormat(format)
    requires forall i :: 0 <= i < |c.keys| ==> Readable(format, c.keys[i])
    ensures ReadsBack(format, c)
  {
    KeysOfSaved(format, c.keys, c.count);
    DistinctOfNoDuplicates(c.keys);
    LoadDictOfSaved(format, c.keys, c.count);
  }
}
