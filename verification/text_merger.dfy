/** `TextMerger` of src/synthetic_text_creator.py: a list of `{author, text}` records, the
    case-insensitive lookup by author, and `generateText`, which concatenates every text
    once in a random order while recording where each one starts and ends. The random
    draws of `random.randint` and the tagging server are parameters. */
module TextMerger {
  import opened Wrappers
  import opened PyStr
  import opened Seqs
  import opened Tally
  import opened CoreNLP
  import opened MultiAuthorText

  datatype Record = Record(author: string, text: string)

  /** `addText`: one record is appended and the earlier ones are left alone. */
  function AddText(texts: seq<Record>, author: string, text: string): (r: seq<Record>)
    ensures |r| == |texts| + 1
    ensures r[..|texts|] == texts && r[|texts|] == Record(author, text)
  {
    texts + [Record(author, text)]
  }

  /** `x['author'].lower() == author.lower()`. */
  predicate SameAuthor(x: Record, author: string) {
    Lower(x.author) == Lower(author)
  }

  /** `textsByAuthor`: the records of the author, compared without case, in the order they
      were added. */
  function TextsByAuthor(texts: seq<Record>, author: string): (r: seq<Record>)
    ensures |r| <= |texts|
    ensures forall x :: x in r <==> x in texts && SameAuthor(x, author)
    decreases |texts|
  {
    if |texts| == 0 then []
    else
      var init := texts[..|texts| - 1];
      var x := texts[|texts| - 1];
      assert texts == init + [x];
      TextsByAuthor(init, author) + (if SameAuthor(x, author) then [x] else [])
  }

  /** A record added later comes after the earlier ones in the lookup, if it matches. */
  lemma TextsByAuthorAfterAdd(texts: seq<Record>, a: string, text: string, author: string)
    ensures TextsByAuthor(AddText(texts, a, text), author) ==
      TextsByAuthor(texts, author) + (if SameAuthor(Record(a, text), author) then [Record(a, text)] else [])
  {
    assert AddText(texts, a, text)[..|texts|] == texts;
  }

  lemma LowerTwice(s: string)
    ensures Lower(Lower(s)) == Lower(s)
  {
  }

  /** Asking for an author or for the author in lower case finds the same records. */
  lemma {:induction false} TextsByAuthorIgnoresCase(texts: seq<Record>, author: string)
    ensures TextsByAuthor(texts, author) == TextsByAuthor(texts, Lower(author))
    decreases |texts|
  {
    LowerTwice(author);
    if |texts| > 0 {
      TextsByAuthorIgnoresCase(texts[..|texts| - 1], author);
    }
  }

  // ---------------------------------------------------------------------------
  // `generateText`

  /** One metadata line: the first and last character positions of a text within the
      merged text, and its author. */
  datatype MetaEntry = MetaEntry(start: nat, end: int, author: string)

  /** `'%d,,, %d,,, %s\n' % (start, end, author)`. */
  function MetaLine(e: MetaEntry): string {
    IntToString(e.start) + ",,, " + IntToString(e.end) + ",,, " + e.author + "\n"
  }

  /** The `metaFile` string: the metadata lines one after the other. */
  function MetaFile(entries: seq<MetaEntry>): (r: string)
    ensures |entries| == 0 ==> r == ""
  {
    Concat(seq(|entries|, k requires 0 <= k < |entries| => MetaLine(entries[k])))
  }

  /** Whether every entry is a position in a list of `n`, as `randint(0, len(texts) - 1)`
      draws them. */
  predicate InRange(xs: seq<nat>, n: nat) {
    forall k :: 0 <= k < |xs| ==> xs[k] < n
  }

  lemma InRangeInit(xs: seq<nat>, n: nat)
    requires |xs| > 0 && InRange(xs, n)
    ensures InRange(xs[..|xs| - 1], n) && xs[|xs| - 1] < n
  {
    assert forall k :: 0 <= k < |xs| - 1 ==> xs[..|xs| - 1][k] == xs[k];
  }

  /** The texts picked, in the order given. */
  function TextsOf(texts: seq<Record>, order: seq<nat>): (r: seq<string>)
    requires InRange(order, |texts|)
    ensures |r| == |order|
    ensures forall k :: 0 <= k < |order| ==> r[k] == texts[order[k]].text
  {
    seq(|order|, k requires 0 <= k < |order| => texts[order[k]].text)
  }

  /** The metadata entry of the `k`-th text picked: it starts where the merged text so far
      ends and ends at its own last character. */
  function Entry(texts: seq<Record>, order: seq<nat>, k: nat): (e: MetaEntry)
    requires InRange(order, |texts|) && k < |order|
  {
    var start := |Concat(TextsOf(texts, order[..k]))|;
    MetaEntry(start, start + |texts[order[k]].text| - 1, texts[order[k]].author)
  }

  datatype Merged = Merged(textFile: string, meta: seq<MetaEntry>, text: Text)

  /** Whether the server splits every text of the order into sentences. */
  predicate AllSplit(texts: seq<Record>, server: Server, order: seq<nat>)
    requires InRange(order, |texts|)
  {
    forall k :: 0 <= k < |order| ==> SplitSentences(server, texts[order[k]].text).Success?
  }

  lemma AllSplitSnoc(texts: seq<Record>, server: Server, order: seq<nat>)
    requires |order| > 0 && InRange(order, |texts|)
    ensures InRange(order[..|order| - 1], |texts|)
    ensures AllSplit(texts, server, order) <==>
      AllSplit(texts, server, order[..|order| - 1]) && SplitSentences(server, texts[order[|order| - 1]].text).Success?
  {
    InRangeInit(order, |texts|);
    assert forall k :: 0 <= k < |order| - 1 ==> order[..|order| - 1][k] == order[k];
  }

  /** Whether a merge holds the texts of the order concatenated, and one metadata entry per
      text giving its start, end and author. */
  predicate Tracks(texts: seq<Record>, order: seq<nat>, m: Merged)
    requires InRange(order, |texts|)
  {
    && m.textFile == Concat(TextsOf(texts, order))
    && |m.meta| == |order|
    && forall k :: 0 <= k < |order| ==> m.meta[k] == Entry(texts, order, k)
  }

  /** One step of the loop on a text not used yet: its metadata line, its text, and its
      sentences under its author. */
  function Use(m: Merged, rec: Record, server: Server): (r: Result<Merged>)
    ensures r.Success? <==> SplitSentences(server, rec.text).Success?
    ensures r.Success? ==> r.value.textFile == m.textFile + rec.text
    ensures r.Success? ==> r.value.meta == m.meta + [MetaEntry(|m.textFile|, |m.textFile| + |rec.text| - 1, rec.author)]
    ensures r.Success? && Valid(m.text) ==> Valid(r.value.text)
  {
    var e := MetaEntry(|m.textFile|, |m.textFile| + |rec.text| - 1, rec.author);
    var ss :- SplitSentences(server, rec.text);
    Success(Merged(m.textFile + rec.text, m.meta + [e], AddSentences(m.text, rec.author, ss)))
  }

  /** The merge of the texts in a given order, each used as it comes: it succeeds exactly
      when the server splits every text, and then holds the texts concatenated in that
      order with one metadata entry per text. */
  function Merge(texts: seq<Record>, server: Server, order: seq<nat>): (r: Result<Merged>)
    requires InRange(order, |texts|)
    ensures r.Success? <==> AllSplit(texts, server, order)
    ensures r.Success? ==> Tracks(texts, order, r.value) && Valid(r.value.text)
    decreases |order|
  {
    if |order| == 0 then
      EmptyValid();
      Success(Merged("", [], Empty))
    else
      InRangeInit(order, |texts|);
      var prev := Merge(texts, server, order[..|order| - 1]);
      var r := if prev.Failure? then Failure(prev.error) else Use(prev.value, texts[order[|order| - 1]], server);
      MergeInduct(texts, server, order, prev, r);
      r
  }

  /** The inductive step of `Merge`: its contract for the order without its last text
      gives it for the whole order. */
  lemma MergeInduct(texts: seq<Record>, server: Server, order: seq<nat>, prev: Result<Merged>, r: Result<Merged>)
    requires |order| > 0 && InRange(order, |texts|) && InRange(order[..|order| - 1], |texts|)
    requires prev.Success? <==> AllSplit(texts, server, order[..|order| - 1])
    requires prev.Success? ==> Tracks(texts, order[..|order| - 1], prev.value) && Valid(prev.value.text)
    requires r == if prev.Failure? then Failure(prev.error) else Use(prev.value, texts[order[|order| - 1]], server)
    ensures r.Success? <==> AllSplit(texts, server, order)
    ensures r.Success? ==> Tracks(texts, order, r.value) && Valid(r.value.text)
  {
    AllSplitSnoc(texts, server, order);
    if r.Success? {
      MergeStep(texts, order, prev.value, r.value);
    }
  }

  /** The step keeps the text and metadata in line with the order. */
  lemma MergeStep(texts: seq<Record>, order: seq<nat>, prev: Merged, next: Merged)
    requires |order| > 0 && InRange(order, |texts|)
    requires InRange(order[..|order| - 1], |texts|) && Tracks(texts, order[..|order| - 1], prev)
    requires var rec := texts[order[|order| - 1]];
      next.textFile == prev.textFile + rec.text
      && next.meta == prev.meta + [MetaEntry(|prev.textFile|, |prev.textFile| + |rec.text| - 1, rec.author)]
    ensures Tracks(texts, order, next)
  {
    var n := |order| - 1;
    var ts := TextsOf(texts, order);
    assert TextsOf(texts, order[..n]) == ts[..n];
    assert ts == ts[..n] + [ts[n]];
    ConcatSnoc(ts[..n], ts[n]);
    forall k | 0 <= k < |order|
      ensures next.meta[k] == Entry(texts, order, k)
    {
      EntryPrefix(texts, order, k);
    }
  }

  /** Entries before the last text do not depend on it. */
  lemma EntryPrefix(texts: seq<Record>, order: seq<nat>, k: nat)
    requires |order| > 0 && InRange(order, |texts|) && k < |order|
    ensures InRange(order[..|order| - 1], |texts|)
    ensures k < |order| - 1 ==> Entry(texts, order, k) == Entry(texts, order[..|order| - 1], k)
    ensures k == |order| - 1 ==> Entry(texts, order, k).start == |Concat(TextsOf(texts, order[..|order| - 1]))|
  {
    InRangeInit(order, |texts|);
    var n := |order| - 1;
    if k < n {
      assert order[..n][..k] == order[..k];
    }
  }

  /** Consecutive metadata entries are adjacent: each text starts right after the last
      character of the one before. */
  lemma EntriesContiguous(texts: seq<Record>, order: seq<nat>, k: nat)
    requires InRange(order, |texts|)
    requires k + 1 < |order|
    ensures Entry(texts, order, k + 1).start == Entry(texts, order, k).end + 1
  {
    var ts := TextsOf(texts, order[..k + 1]);
    assert ts == TextsOf(texts, order[..k]) + [texts[order[k]].text];
    ConcatSnoc(TextsOf(texts, order[..k]), texts[order[k]].text);
  }

  /** The loop's state: which texts are done, and the merge so far. */
  datatype State = State(done: seq<bool>, merged: Merged)

  /** One pass of the `while` loop on a draw: a text already done is skipped, any other
      is used and marked done. */
  function Pick(texts: seq<Record>, server: Server, st: State, d: nat): (r: Result<State>)
    requires |st.done| == |texts| && d < |texts|
    ensures r.Success? ==> |r.value.done| == |texts|
    ensures st.done[d] ==> r == Success(st)
    ensures !st.done[d] ==> (r.Success? <==> SplitSentences(server, texts[d].text).Success?)
    ensures r.Success? ==> r.value.done == st.done[d := true]
  {
    if st.done[d] then Success(st)
    else
      var m :- Use(st.merged, texts[d], server);
      Success(State(st.done[d := true], m))
  }

  /** The loop run over the draws in turn, from nothing done. */
  function Draw(texts: seq<Record>, server: Server, draws: seq<nat>): (r: Result<State>)
    requires InRange(draws, |texts|)
    ensures r.Success? ==> |r.value.done| == |texts|
    decreases |draws|
  {
    if |draws| == 0 then Success(State(seq(|texts|, i => false), Merged("", [], Empty)))
    else
      InRangeInit(draws, |texts|);
      var st :- Draw(texts, server, draws[..|draws| - 1]);
      Pick(texts, server, st, draws[|draws| - 1])
  }

  /** Distinct positions in range stay in range. */
  lemma DistinctInRange(draws: seq<nat>, n: nat)
    requires InRange(draws, n)
    ensures InRange(Distinct(draws), n)
  {
    var d := Distinct(draws);
    forall k | 0 <= k < |d|
      ensures d[k] < n
    {
      assert d[k] in draws;
    }
  }

  lemma DistinctSnoc(draws: seq<nat>)
    requires |draws| > 0
    ensures var init := draws[..|draws| - 1];
      var t := draws[|draws| - 1];
      Distinct(draws) == if t in init then Distinct(init) else Distinct(init) + [t]
  {
    var init := draws[..|draws| - 1];
    var t := draws[|draws| - 1];
    assert t in Distinct(init) <==> t in init;
  }

  /** Merging one more text: the merge so far, then that text used. */
  lemma MergeSnoc(texts: seq<Record>, server: Server, o: seq<nat>, t: nat)
    requires InRange(o, |texts|) && t < |texts|
    ensures InRange(o + [t], |texts|)
    ensures Merge(texts, server, o).Failure? ==> Merge(texts, server, o + [t]).Failure?
    ensures Merge(texts, server, o).Success? ==>
      Merge(texts, server, o + [t]) == Use(Merge(texts, server, o).value, texts[t], server)
  {
    assert (o + [t])[..|o|] == o;
    assert (o + [t])[|o|] == t;
  }

  /** Skipping texts already done is using each text once, at its first draw: the loop
      over the draws is the merge in the order of first draws, and a text is done
      exactly when it was drawn. */
  lemma {:induction false} DrawIsMerge(texts: seq<Record>, server: Server, draws: seq<nat>)
    requires InRange(draws, |texts|)
    ensures InRange(Distinct(draws), |texts|)
    ensures Draw(texts, server, draws).Success? <==> Merge(texts, server, Distinct(draws)).Success?
    ensures Draw(texts, server, draws).Success? ==>
      && Draw(texts, server, draws).value.merged == Merge(texts, server, Distinct(draws)).value
      && forall i :: 0 <= i < |texts| ==> (Draw(texts, server, draws).value.done[i] <==> i in draws)
    decreases |draws|
  {
    var n := |texts|;
    DistinctInRange(draws, n);
    if |draws| > 0 {
      var init := draws[..|draws| - 1];
      var t := draws[|draws| - 1];
      InRangeInit(draws, n);
      DistinctSnoc(draws);
      DrawIsMerge(texts, server, init);
      DistinctInRange(init, n);
      if t !in init {
        MergeSnoc(texts, server, Distinct(init), t);
      }
      var r := Draw(texts, server, draws);
      if r.Success? {
        DoneAfterDraw(draws, Draw(texts, server, init).value.done, r.value.done, n);
      }
    }
  }

  /** The done flags after one more draw. */
  lemma DoneAfterDraw(draws: seq<nat>, before: seq<bool>, after: seq<bool>, n: nat)
    requires |draws| > 0 && |before| == n && draws[|draws| - 1] < n
    requires forall i :: 0 <= i < n ==> (before[i] <==> i in draws[..|draws| - 1])
    requires after == before[draws[|draws| - 1] := true]
    ensures forall i :: 0 <= i < n ==> (after[i] <==> i in draws)
  {
    var init := draws[..|draws| - 1];
    assert draws == init + [draws[|draws| - 1]];
  }

  /** Every position drawn, each once, in the order of first draws. */
  lemma EachTextOnce(texts: seq<Record>, draws: seq<nat>)
    requires InRange(draws, |texts|)
    requires forall i :: 0 <= i < |texts| ==> i in draws
    ensures NoDuplicates(Distinct(draws)) && InRange(Distinct(draws), |texts|)
    ensures forall i :: 0 <= i < |texts| ==> i in Distinct(draws)
  {
    DistinctInRange(draws, |texts|);
    forall i | 0 <= i < |texts|
      ensures i in Distinct(draws)
    {
      assert i in draws;
      var k :| 0 <= k < |draws| && draws[k] == i;
    }
  }

  /** With every text drawn, the server splits the texts of the order of first draws
      exactly when it splits every text. */
  lemma AllSplitEvery(texts: seq<Record>, server: Server, draws: seq<nat>)
    requires InRange(draws, |texts|)
    requires forall i :: 0 <= i < |texts| ==> i in draws
    ensures InRange(Distinct(draws), |texts|)
    ensures AllSplit(texts, server, Distinct(draws)) <==>
      forall i :: 0 <= i < |texts| ==> SplitSentences(server, texts[i].text).Success?
  {
    EachTextOnce(texts, draws);
    var o := Distinct(draws);
    if AllSplit(texts, server, o) {
      forall i | 0 <= i < |texts|
        ensures SplitSentences(server, texts[i].text).Success?
      {
        assert i in o;
        var k :| 0 <= k < |o| && o[k] == i;
        assert SplitSentences(server, texts[o[k]].text).Success?;
      }
    } else {
      var k :| 0 <= k < |o| && !SplitSentences(server, texts[o[k]].text).Success?;
      assert !SplitSentences(server, texts[o[k]].text).Success?;
    }
  }

  /** `generateText(lower, upper)`: anything but `lower == upper == 0` is not implemented;
      otherwise the texts are used in the order they are first drawn, until every text is
      done, and the call fails exactly when the server fails on one of the texts. The
      result is `(textFile, metaFile, text)`. */
  function GenerateText(texts: seq<Record>, lower: int, upper: int, draws: seq<nat>, server: Server): (r: Result<(string, string, Text)>)
    requires InRange(draws, |texts|)
    requires forall i :: 0 <= i < |texts| ==> i in draws
    ensures lower != 0 || upper != 0 ==> r == Failure(NotImplemented)
    ensures lower == 0 && upper == 0 ==>
      (r.Success? <==> forall i :: 0 <= i < |texts| ==> SplitSentences(server, texts[i].text).Success?)
    ensures r.Success? ==> Valid(r.value.2)
  {
    if lower != 0 || upper != 0 then Failure(NotImplemented)
    else
      DrawIsMerge(texts, server, draws);
      AllSplitEvery(texts, server, draws);
      var st :- Draw(texts, server, draws);
      var m := st.merged;
      Success((m.textFile, MetaFile(m.meta), m.text))
  }

  /** The merged text is the texts concatenated in the order of first draws, and the
      metadata lists each one's start, end and author. */
  lemma GenerateTextContents(texts: seq<Record>, draws: seq<nat>, server: Server)
    requires InRange(draws, |texts|)
    requires forall i :: 0 <= i < |texts| ==> i in draws
    requires GenerateText(texts, 0, 0, draws, server).Success?
    ensures InRange(Distinct(draws), |texts|)
    ensures var m := Merge(texts, server, Distinct(draws));
      && m.Success? && Tracks(texts, Distinct(draws), m.value)
      && GenerateText(texts, 0, 0, draws, server).value == (m.value.textFile, MetaFile(m.value.meta), m.value.text)
  {
    DrawIsMerge(texts, server, draws);
  }

  /** With no texts the loop never runs: empty text, empty metadata, empty `Text`. */
  lemma NoTexts(server: Server)
    ensures GenerateText([], 0, 0, [], server) == Success(("", "", Empty))
  {
  }
}
