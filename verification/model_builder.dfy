/** `Feature.build_model` of src/authorclustering/feature.py and `WordFrequency` of
    src/feature.py: corpus lines are cut into batches for the tagger, the tagger's words
    and tags and the per-line character n-grams are counted, and each count is saved
    as a vocabulary file. The tagger is a parameter. */
module ModelBuilder {
  import opened Wrappers
  import opened PyStr
  import opened Seqs
  import opened Tally
  import opened NGram
  import opened ModelFile

  // ---------------------------------------------------------------------------
  // Batching the corpus for the tagger

  /** A batch is flushed before a line that would bring it to this many characters. */
  const BatchLimit: nat := 90000

  /** The reading loop's state: the batches flushed so far and the current one, each
      as the lines it holds (`texts` is the concatenation of `current`). */
  datatype Batching = Batching(flushed: seq<seq<string>>, current: seq<string>)

  /** One iteration: flush first when `len(texts) + len(line) >= 90000`, then append. */
  function BatchStep(b: Batching, line: string): Batching {
    if |Concat(b.current)| + |line| >= BatchLimit then Batching(b.flushed + [b.current], [line])
    else Batching(b.flushed, b.current + [line])
  }

  function BatchLoop(lines: seq<string>): Batching
    decreases |lines|
  {
    if |lines| == 0 then Batching([], [])
    else BatchStep(BatchLoop(lines[..|lines| - 1]), lines[|lines| - 1])
  }

  /** The batches as groups of lines, the last one appended after the loop. */
  function BatchGroups(lines: seq<string>): (r: seq<seq<string>>)
    ensures |r| > 0
  {
    BatchLoop(lines).flushed + [BatchLoop(lines).current]
  }

  /** The `chunks` handed to the tagger, one string per batch. */
  function Batches(lines: seq<string>): (r: seq<string>)
    ensures |r| == |BatchGroups(lines)| > 0
    ensures forall k :: 0 <= k < |r| ==> r[k] == Concat(BatchGroups(lines)[k])
  {
    var g := BatchGroups(lines);
    seq(|g|, k requires 0 <= k < |g| => Concat(g[k]))
  }

  /** Batch `k` was flushed because the first line of batch `k + 1` would have
      brought it to the limit. */
  predicate Full(g: seq<seq<string>>, k: nat)
    requires k + 1 < |g|
  {
    |g[k + 1]| >= 1 && |Concat(g[k])| + |g[k + 1][0]| >= BatchLimit
  }

  /** Reading one more line either opens a batch of its own or extends the last one. */
  lemma BatchGroupsStep(init: seq<string>, line: string)
    ensures var g0 := BatchGroups(init);
      |Concat(g0[|g0| - 1])| + |line| >= BatchLimit ==> BatchGroups(init + [line]) == g0 + [[line]]
    ensures var g0 := BatchGroups(init);
      |Concat(g0[|g0| - 1])| + |line| < BatchLimit ==> BatchGroups(init + [line]) == g0[..|g0| - 1] + [g0[|g0| - 1] + [line]]
  {
    assert (init + [line])[..|init|] == init;
  }

  /** The batches regroup the lines, in order. */
  lemma {:induction false} BatchGroupsFlatten(lines: seq<string>)
    ensures Flatten(BatchGroups(lines)) == lines
    decreases |lines|
  {
    var g := BatchGroups(lines);
    if |lines| == 0 {
      assert g == [[]];
      assert Flatten(g) == Flatten(g[..0]) + [];
    } else {
      var init := lines[..|lines| - 1];
      var line := lines[|lines| - 1];
      var g0 := BatchGroups(init);
      var last := g0[|g0| - 1];
      BatchGroupsFlatten(init);
      BatchGroupsStep(init, line);
      assert lines == init + [line];
      if |Concat(last)| + |line| >= BatchLimit {
        FlattenSplice(g0, [[line]]);
        assert Flatten([[line]]) == Flatten([[line]][..0]) + [line];
      } else {
        var front := g0[..|g0| - 1];
        assert g0 == front + [last];
        FlattenSplice(front, [last + [line]]);
        FlattenSplice(front, [last]);
        assert Flatten([last + [line]]) == Flatten([last + [line]][..0]) + (last + [line]);
        assert Flatten([last]) == Flatten([last][..0]) + last;
      }
    }
  }

  /** A batch of two or more lines stays under the limit, and only the first batch can
      be empty. */
  lemma {:induction false} BatchGroupsSizes(lines: seq<string>)
    ensures forall k :: 0 <= k < |BatchGroups(lines)| && |BatchGroups(lines)[k]| >= 2 ==>
      |Concat(BatchGroups(lines)[k])| < BatchLimit
    ensures forall k :: 0 < k < |BatchGroups(lines)| ==> |BatchGroups(lines)[k]| >= 1
    decreases |lines|
  {
    var g := BatchGroups(lines);
    if |lines| == 0 {
      assert g == [[]];
    } else {
      var init := lines[..|lines| - 1];
      var line := lines[|lines| - 1];
      var g0 := BatchGroups(init);
      var last := g0[|g0| - 1];
      BatchGroupsSizes(init);
      BatchGroupsStep(init, line);
      SplitLast(lines);
      if |Concat(last)| + |line| >= BatchLimit {
        assert g == g0 + [[line]];
        forall k | 0 <= k < |g|
          ensures |g[k]| >= 2 ==> |Concat(g[k])| < BatchLimit
          ensures k > 0 ==> |g[k]| >= 1
        {
          if k < |g0| {
            assert g[k] == g0[k];
          }
        }
      } else {
        ConcatSnoc(last, line);
        assert g == g0[..|g0| - 1] + [last + [line]];
        forall k | 0 <= k < |g|
          ensures |g[k]| >= 2 ==> |Concat(g[k])| < BatchLimit
          ensures k > 0 ==> |g[k]| >= 1
        {
          if k < |g0| - 1 {
            assert g[k] == g0[k];
          } else {
            assert g[k] == last + [line];
          }
        }
      }
    }
  }

  /** Every batch but the last was flushed because of the line that opens the next. */
  lemma {:induction false} BatchGroupsFull(lines: seq<string>)
    ensures forall k :: 0 <= k < |BatchGroups(lines)| - 1 ==> Full(BatchGroups(lines), k)
    decreases |lines|
  {
    var g := BatchGroups(lines);
    if |lines| == 0 {
      assert g == [[]];
    } else {
      var init := lines[..|lines| - 1];
      var line := lines[|lines| - 1];
      var g0 := BatchGroups(init);
      var last := g0[|g0| - 1];
      BatchGroupsFull(init);
      BatchGroupsSizes(init);
      BatchGroupsStep(init, line);
      assert lines == init + [line];
      forall k | 0 <= k < |g| - 1
        ensures Full(g, k)
      {
        assert g[k] == g0[k];
        if k + 1 < |g0| - 1 || |Concat(last)| + |line| >= BatchLimit {
          if k + 1 < |g0| {
            assert Full(g0, k);
            assert g[k + 1][0] == g0[k + 1][0];
          }
        } else {
          assert Full(g0, k);
          assert g[k + 1] == g0[k + 1] + [line];
        }
      }
    }
  }

  /** Concatenating the batches gives back the corpus text exactly. */
  lemma BatchesCoverCorpus(lines: seq<string>)
    ensures Concat(Batches(lines)) == Concat(lines)
    ensures forall k :: 0 <= k < |Batches(lines)| && |BatchGroups(lines)[k]| >= 2 ==> |Batches(lines)[k]| < BatchLimit
  {
    BatchGroupsFlatten(lines);
    BatchGroupsSizes(lines);
    ConcatFlatten(BatchGroups(lines));
  }

  /** `''.join` of the joined groups is `''.join` of the flattened groups. */
  lemma {:induction false} ConcatFlatten(g: seq<seq<string>>)
    ensures Concat(seq(|g|, k requires 0 <= k < |g| => Concat(g[k]))) == Concat(Flatten(g))
    decreases |g|
  {
    if |g| > 0 {
      var init := g[..|g| - 1];
      var texts := seq(|g|, k requires 0 <= k < |g| => Concat(g[k]));
      ConcatFlatten(init);
      assert texts[..|g| - 1] == seq(|init|, k requires 0 <= k < |init| => Concat(init[k]));
      ConcatSplice(Flatten(init), g[|g| - 1]);
    }
  }

  /** A line that alone reaches the limit is preceded by a flushed empty batch when it
      comes first. */
  lemma LongFirstLine(line: string)
    requires |line| >= BatchLimit
    ensures Batches([line]) == ["", line]
  {
    assert [line][..0] == [];
    assert BatchLoop([line]) == Batching([[]], [line]);
    assert BatchGroups([line]) == [[], [line]];
    assert Concat([line]) == Concat([line][..0]) + line;
    assert Batches([line])[0] == "" && Batches([line])[1] == line;
  }

  // ---------------------------------------------------------------------------
  // Tokens derived from the corpus

  /** The tagger's answer for one batch: its words and their part-of-speech tags. It
      always answers; a failed tagging request is not modelled here, unlike
      `CoreNLP.Server`. */
  type Tagger = string -> (seq<string>, seq<string>)

  /** `words.extend(w)` over the batches, in batch order. */
  function TaggedWords(batches: seq<string>, parse: Tagger): (r: seq<string>) {
    Flatten(seq(|batches|, k requires 0 <= k < |batches| => parse(batches[k]).0))
  }

  /** `postags.extend(p)` over the batches, in batch order. */
  function TaggedTags(batches: seq<string>, parse: Tagger): (r: seq<string>) {
    Flatten(seq(|batches|, k requires 0 <= k < |batches| => parse(batches[k]).1))
  }

  /** With a tagger that returns one tag per word, the words and tags line up. */
  lemma TaggedAligned(batches: seq<string>, parse: Tagger)
    requires forall k :: 0 <= k < |batches| ==> |parse(batches[k]).0| == |parse(batches[k]).1|
    ensures |TaggedWords(batches, parse)| == |TaggedTags(batches, parse)|
  {
    FlattenLength(
      seq(|batches|, k requires 0 <= k < |batches| => parse(batches[k]).0),
      seq(|batches|, k requires 0 <= k < |batches| => parse(batches[k]).1));
  }

  /** `chars.extend(self._make_ngram(sentence, num_gram))` for every line read: the
      `L - n` windows of each line separately. */
  function CharGrams(sentences: seq<string>, n: nat): (r: seq<string>)
    ensures forall g :: g in r ==> |g| == n
    ensures forall g :: g in r ==> exists k: nat, i: nat :: k < |sentences| && i + n < |sentences[k]| && g == Window(sentences[k], i, n)
  {
    var perLine := seq(|sentences|, k requires 0 <= k < |sentences| => ExclusiveWindows(sentences[k], n));
    FlattenElements(perLine);
    assert forall g :: g in Flatten(perLine) ==> exists k: nat, i: nat :: k < |sentences| && i + n < |sentences[k]| && g == Window(sentences[k], i, n) by {
      forall g | g in Flatten(perLine)
        ensures exists k: nat, i: nat :: k < |sentences| && i + n < |sentences[k]| && g == Window(sentences[k], i, n)
      {
        var k :| 0 <= k < |perLine| && g in perLine[k];
        var i :| 0 <= i < |perLine[k]| && perLine[k][i] == g;
      }
    }
    Flatten(perLine)
  }

  /** Every window of a line's text is a char gram of a corpus line that holds it. */
  lemma CharGramsOfEveryLine(sentences: seq<string>, n: nat, k: nat, i: nat)
    requires k < |sentences| && i + n < |sentences[k]|
    ensures Window(sentences[k], i, n) in CharGrams(sentences, n)
  {
    var perLine := seq(|sentences|, k requires 0 <= k < |sentences| => ExclusiveWindows(sentences[k], n));
    FlattenElements(perLine);
    assert perLine[k][i] == Window(sentences[k], i, n);
  }

  /** On a line read with its line end, the `L - n` rule yields exactly the windows of
      the line's text: the one window that would reach the line end is the one left
      out, so no char gram holds the newline of its own line. */
  lemma LineGrams(body: string, n: nat)
    ensures ExclusiveWindows(body + "\n", n) == InclusiveWindows(body, n)
  {
    var line := body + "\n";
    var ex := ExclusiveWindows(line, n);
    var inc := InclusiveWindows(body, n);
    assert |ex| == |inc|;
    forall i | 0 <= i < |ex|
      ensures ex[i] == inc[i]
    {
      assert line[i..i + n] == body[i..i + n];
    }
  }

  /** `str.format('{} {}', pair[0], pair[1])` for each pair of `_make_ngram(postags, 2)`:
      adjacent tags joined by one space, the final pair left out. */
  function TagBigrams(tags: seq<string>): (r: seq<string>)
    ensures |r| == ExclusiveCount(|tags|, 2)
    ensures forall i :: 0 <= i < |r| ==> r[i] == tags[i] + " " + tags[i + 1]
  {
    var pairs := ExclusiveWindows(tags, 2);
    seq(|pairs|, i requires 0 <= i < |pairs| => pairs[i][0] + " " + pairs[i][1])
  }

  /** The builder's tag bigrams are all keys that the vectorizer of src/exp_cluster.py
      forms from the same tags. */
  lemma TagBigramsAreJoinedWindows(tags: seq<string>)
    ensures forall i :: 0 <= i < |TagBigrams(tags)| ==> TagBigrams(tags)[i] in JoinedWindowSet(tags, 2)
  {
    var r := TagBigrams(tags);
    forall i | 0 <= i < |r|
      ensures r[i] in JoinedWindowSet(tags, 2)
    {
      var w := Window(tags, i, 2);
      assert w == [tags[i], tags[i + 1]];
      JoinPair(tags[i], tags[i + 1]);
      assert i < InclusiveCount(|tags|, 2);
    }
  }

  /** For tags without whitespace every tag bigram is a two-field key, as a bigram
      vocabulary file holds them. */
  lemma TagBigramsCanonical(tags: seq<string>)
    requires forall t :: t in tags ==> IsField(t)
    ensures forall b :: b in TagBigrams(tags) ==> Readable(Columns(3), b)
  {
    var r := TagBigrams(tags);
    forall b | b in r
      ensures Readable(Columns(3), b)
    {
      var i :| 0 <= i < |r| && r[i] == b;
      var w := [tags[i], tags[i + 1]];
      JoinPair(tags[i], tags[i + 1]);
      FieldsOfJoin(w, "");
      assert Join(" ", w) + "" == Join(" ", w);
    }
  }

  // ---------------------------------------------------------------------------
  // The four models

  /** The four counters of `build_model`. */
  datatype Models = Models(words: Counts<string>, chars: Counts<string>, tags: Counts<string>, tagBigrams: Counts<string>)

  /** The four vocabulary files, as their lines. */
  datatype ModelFiles = ModelFiles(words: seq<string>, chars: seq<string>, tags: seq<string>, tagBigrams: seq<string>)

  /** The counting half of `build_model`: batch, tag, derive n-grams, count. */
  function BuildCounts(lines: seq<string>, parse: Tagger, numGram: nat): (m: Models)
    ensures WellFormed(m.words) && WellFormed(m.chars) && WellFormed(m.tags) && WellFormed(m.tagBigrams)
  {
    var batches := Batches(lines);
    var words := TaggedWords(batches, parse);
    var tags := TaggedTags(batches, parse);
    Models(CountTokens(words), CountTokens(CharGrams(lines, numGram)), CountTokens(tags), CountTokens(TagBigrams(tags)))
  }

  /** A model file that both loaders read back as the count of `xs`: the keys are the
      distinct tokens of `xs` in first-occurrence order, each with its number of
      occurrences. */
  predicate ReadsAs(format: LineFormat, file: seq<string>, xs: seq<string>)
    requires ValidFormat(format)
  {
    && LoadSet(format, file) == Success(Distinct(xs))
    && LoadDict(format, file).Success?
    && LoadDict(format, file).value.keys == Distinct(xs)
    && forall i :: 0 <= i < |xs| ==>
      xs[i] in LoadDict(format, file).value.values && LoadDict(format, file).value.values[xs[i]] == multiset(xs)[xs[i]]
  }

  /** Lines as iterating over a text file yields them: a line break, if any, only as
      the last character. */
  predicate LineBreakLast(lines: seq<string>) {
    forall k, j :: 0 <= k < |lines| && 0 <= j < |lines[k]| - 1 ==> lines[k][j] != '\n' && lines[k][j] != '\r'
  }

  /** The whitespace-free tokens of `xs`. */
  predicate AllFields(xs: seq<string>) {
    forall x :: x in xs ==> IsField(x)
  }

  /** `build_model(...)`: the lines of the four files it writes. Reading a file back
      gives the count of the tokens it was built from: the 4-gram file for corpus
      lines read from a text file, the word, tag and tag-bigram files whenever the
      tagger's words (or tags) hold no whitespace. */
  function BuildModel(lines: seq<string>, parse: Tagger, numGram: nat): (files: ModelFiles)
    ensures numGram == 4 && LineBreakLast(lines) ==> ReadsAs(CharGram, files.chars, CharGrams(lines, 4))
    ensures AllFields(TaggedWords(Batches(lines), parse)) ==>
      ReadsAs(Columns(2), files.words, TaggedWords(Batches(lines), parse))
    ensures AllFields(TaggedTags(Batches(lines), parse)) ==>
      && ReadsAs(Columns(2), files.tags, TaggedTags(Batches(lines), parse))
      && ReadsAs(Columns(3), files.tagBigrams, TagBigrams(TaggedTags(Batches(lines), parse)))
  {
    var m := BuildCounts(lines, parse, numGram);
    var batches := Batches(lines);
    assert numGram == 4 && LineBreakLast(lines) ==> ReadsAs(CharGram, SaveModel(m.chars), CharGrams(lines, 4)) by {
      if numGram == 4 && LineBreakLast(lines) {
        CharModelReadBack(lines, parse);
        CountsReadAs(CharGram, CharGrams(lines, 4));
      }
    }
    assert AllFields(TaggedWords(batches, parse)) ==> ReadsAs(Columns(2), SaveModel(m.words), TaggedWords(batches, parse)) by {
      if AllFields(TaggedWords(batches, parse)) {
        WordModelReadBack(lines, parse, numGram);
        CountsReadAs(Columns(2), TaggedWords(batches, parse));
      }
    }
    assert AllFields(TaggedTags(batches, parse)) ==>
      && ReadsAs(Columns(2), SaveModel(m.tags), TaggedTags(batches, parse))
      && ReadsAs(Columns(3), SaveModel(m.tagBigrams), TagBigrams(TaggedTags(batches, parse))) by {
      if AllFields(TaggedTags(batches, parse)) {
        TagModelsReadBack(lines, parse, numGram);
        CountsReadAs(Columns(2), TaggedTags(batches, parse));
        CountsReadAs(Columns(3), TagBigrams(TaggedTags(batches, parse)));
      }
    }
    ModelFiles(SaveModel(m.words), SaveModel(m.chars), SaveModel(m.tags), SaveModel(m.tagBigrams))
  }

  /** A count that reads back is read back as the count of its tokens. */
  lemma CountsReadAs(format: LineFormat, xs: seq<string>)
    requires ValidFormat(format) && ReadsBack(format, CountTokens(xs))
    ensures ReadsAs(format, SaveModel(CountTokens(xs)), xs)
  {
    DistinctIsKeys(xs);
  }

  /** Each counter accounts for every token it was given: the words and tags the tagger
      returned, every `L - n` window of every line, and one bigram per adjacent pair
      but the last. */
  lemma BuildCountsTotals(lines: seq<string>, parse: Tagger, numGram: nat)
    ensures Total(BuildCounts(lines, parse, numGram).words.keys, BuildCounts(lines, parse, numGram).words.count)
      == |TaggedWords(Batches(lines), parse)|
    ensures Total(BuildCounts(lines, parse, numGram).chars.keys, BuildCounts(lines, parse, numGram).chars.count)
      == |CharGrams(lines, numGram)|
    ensures Total(BuildCounts(lines, parse, numGram).tagBigrams.keys, BuildCounts(lines, parse, numGram).tagBigrams.count)
      == ExclusiveCount(|TaggedTags(Batches(lines), parse)|, 2)
  {
    var batches := Batches(lines);
    CountTotal(TaggedWords(batches, parse));
    CountTotal(CharGrams(lines, numGram));
    CountTotal(TagBigrams(TaggedTags(batches, parse)));
  }

  /** With four-character grams of lines read from a text file, the char-gram file is
      read back whole by both loaders. */
  lemma CharModelReadBack(lines: seq<string>, parse: Tagger)
    requires LineBreakLast(lines)
    ensures ReadsBack(CharGram, BuildCounts(lines, parse, 4).chars)
  {
    var grams := CharGrams(lines, 4);
    assert BuildCounts(lines, parse, 4).chars == CountTokens(grams);
    CharGramsReadable(lines);
    CountsReadBack(CharGram, grams);
  }

  /** A gram never reaches a line's last character, so it holds no line break. */
  lemma CharGramsReadable(lines: seq<string>)
    requires LineBreakLast(lines)
    ensures forall g :: g in CharGrams(lines, 4) ==> Readable(CharGram, g)
  {
    forall g | g in CharGrams(lines, 4)
      ensures Readable(CharGram, g)
    {
      var k: nat, i: nat :| k < |lines| && i + 4 < |lines[k]| && g == Window(lines[k], i, 4);
      forall m | 0 <= m < |g|
        ensures g[m] != '\n' && g[m] != '\r'
      {
        assert g[m] == lines[k][i + m];
      }
    }
  }

  /** Counting tokens the format can hold and saving the counts gives a file both
      loaders read back whole. */
  lemma CountsReadBack(format: LineFormat, xs: seq<string>)
    requires ValidFormat(format) && forall x :: x in xs ==> Readable(format, x)
    ensures ReadsBack(format, CountTokens(xs))
  {
    KeysAreTokens(xs);
    SaveThenLoad(CountTokens(xs), format);
  }

  lemma KeysAreTokens(xs: seq<string>)
    ensures forall i :: 0 <= i < |CountTokens(xs).keys| ==> CountTokens(xs).keys[i] in xs
  {
    var c := CountTokens(xs);
    forall i | 0 <= i < |c.keys|
      ensures c.keys[i] in xs
    {
      assert c.keys[i] in c.count;
    }
  }

  /** When the tagger's words hold no whitespace, the word file is read back whole. */
  lemma WordModelReadBack(lines: seq<string>, parse: Tagger, numGram: nat)
    requires AllFields(TaggedWords(Batches(lines), parse))
    ensures ReadsBack(Columns(2), BuildCounts(lines, parse, numGram).words)
  {
    var words := TaggedWords(Batches(lines), parse);
    assert BuildCounts(lines, parse, numGram).words == CountTokens(words);
    SingleFieldsReadable(words);
    CountsReadBack(Columns(2), words);
  }

  /** When the tagger's tags hold no whitespace, the tag file and the tag-bigram file
      are read back whole. */
  lemma TagModelsReadBack(lines: seq<string>, parse: Tagger, numGram: nat)
    requires AllFields(TaggedTags(Batches(lines), parse))
    ensures ReadsBack(Columns(2), BuildCounts(lines, parse, numGram).tags)
    ensures ReadsBack(Columns(3), BuildCounts(lines, parse, numGram).tagBigrams)
  {
    var tags := TaggedTags(Batches(lines), parse);
    var bigrams := TagBigrams(tags);
    assert BuildCounts(lines, parse, numGram).tags == CountTokens(tags);
    assert BuildCounts(lines, parse, numGram).tagBigrams == CountTokens(bigrams);
    SingleFieldsReadable(tags);
    CountsReadBack(Columns(2), tags);
    TagBigramsCanonical(tags);
    CountsReadBack(Columns(3), bigrams);
  }

  /** Whitespace-free tokens are one-field keys. */
  lemma SingleFieldsReadable(xs: seq<string>)
    requires AllFields(xs)
    ensures forall x :: x in xs ==> Readable(Columns(2), x)
  {
    forall x | x in xs
      ensures Readable(Columns(2), x)
    {
      FieldsOfJoin([x], "");
      assert Join(" ", [x]) + "" == x;
    }
  }

  // ---------------------------------------------------------------------------
  // WordFrequency of src/feature.py

  /** What the tagger service answered for `_tokenize_es`: the number of sentences in
      its response, or the exception the request raised. */
  type Annotation = Result<nat>

  /** `_tokenize_es(texts)`: the annotation request and the lookup of its first sentence
      can raise; otherwise the token list is always empty. */
  function TokenizeEs(response: Annotation): (r: Result<seq<string>>)
    ensures r.Success? <==> response.Success? && response.value > 0
    ensures r.Success? ==> r.value == []
    ensures response.Success? && response.value == 0 ==> r == Failure(IndexError)
  {
    var sentences :- response;
    if sentences == 0 then Failure(IndexError) else Success([])
  }

  /** `WordFrequency(lang).build_model(...)`: the lines of the output file. Only the
      Spanish path calls the tagger, and no path produces a token. */
  function WordFrequencyModel(lang: string, response: Annotation): (r: Result<seq<string>>)
    ensures lang != "es" ==> r == Success([])
    ensures r.Failure? ==> lang == "es" && r == TokenizeEs(response)
    ensures r.Success? ==> r.value == []
  {
    var tokens :- if lang == "es" then TokenizeEs(response) else Success([]);
    EmptyModel(tokens);
    Success(SaveModel(CountTokens(tokens)))
  }

  lemma EmptyModel(tokens: seq<string>)
    requires tokens == []
    ensures SaveModel(CountTokens(tokens)) == []
  {
  }
}
