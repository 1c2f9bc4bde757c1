/** The multi-author `Text` registry of src/authorclustering/multi_author_text.py and
    src/multi_author_text.py. The two copies share `_get_authorid`, `add_sentences`,
    `add_sentence`, `getText` and the author lookups, which are modelled once; only the
    src/authorclustering copy has `fixed_length_chunk` and `getTextTokenizedByWord`.
    A `Text` is a value, and each mutating method returns the updated value. */
module MultiAuthorText {
  import opened Wrappers
  import opened PyStr
  import opened Seqs
  import opened CoreNLP

  /** `Sentences`, `AuthorIds` and `Authors`; `Paragraphs` and `Language` are never used. */
  datatype Text = Text(sentences: seq<string>, authorIds: seq<nat>, authors: seq<string>)

  /** The freshly constructed `Text()`. */
  const Empty := Text([], [], [])

  /** What the methods maintain: one author id per sentence, each naming a registered
      author, and every author registered once. */
  predicate Valid(t: Text) {
    && |t.sentences| == |t.authorIds|
    && NoDuplicates(t.authors)
    && (forall i :: 0 <= i < |t.authorIds| ==> t.authorIds[i] < |t.authors|)
  }

  lemma EmptyValid()
    ensures Valid(Empty)
  {
  }

  /** `_get_authorid`: the index of a known author, or the next index for a new author,
      who is appended. */
  function AuthorId(t: Text, author: string): (r: (Text, nat))
    ensures r.0.sentences == t.sentences && r.0.authorIds == t.authorIds
    ensures r.1 < |r.0.authors| && r.0.authors[r.1] == author
    ensures author in t.authors ==> r.0 == t
    ensures author !in t.authors ==> r.0.authors == t.authors + [author]
    ensures NoDuplicates(t.authors) ==> NoDuplicates(r.0.authors)
  {
    if author in t.authors then (t, FirstIndex(t.authors, author))
    else (t.(authors := t.authors + [author]), |t.authors|)
  }

  /** Asking twice for the same author changes nothing the second time. */
  lemma AuthorIdIdempotent(t: Text, author: string)
    ensures AuthorId(AuthorId(t, author).0, author) == AuthorId(t, author)
  {
    if author !in t.authors {
      FirstIndexOfNew(t.authors, author);
    }
  }

  /** The loop of `add_sentences`: each sentence is appended with the same author id. */
  function AppendAll(t: Text, id: nat, ss: seq<string>): (r: Text)
    ensures r.authors == t.authors
    ensures r.sentences == t.sentences + ss
    ensures |r.authorIds| == |t.authorIds| + |ss|
    ensures r.authorIds[..|t.authorIds|] == t.authorIds
    ensures forall i :: |t.authorIds| <= i < |r.authorIds| ==> r.authorIds[i] == id
    decreases |ss|
  {
    if |ss| == 0 then t
    else
      var r := AppendAll(t, id, ss[..|ss| - 1]);
      assert ss == ss[..|ss| - 1] + [ss[|ss| - 1]];
      r.(sentences := r.sentences + [ss[|ss| - 1]], authorIds := r.authorIds + [id])
  }

  /** `add_sentences(author, sentences)`: the author is registered, even when there are
      no sentences, and each sentence is appended under the author's id. */
  function AddSentences(t: Text, author: string, sentences: seq<string>): (r: Text)
    ensures r.sentences == t.sentences + sentences
    ensures |r.authorIds| == |t.authorIds| + |sentences|
    ensures r.authorIds[..|t.authorIds|] == t.authorIds
    ensures author in r.authors
    ensures |t.authors| <= |r.authors| <= |t.authors| + 1
    ensures r.authors[..|t.authors|] == t.authors
    ensures Valid(t) ==> Valid(r)
  {
    var (t1, id) := AuthorId(t, author);
    AppendAll(t1, id, sentences)
  }

  /** `add_sentence(author, sentence)`, which is `add_sentences(author, [sentence])`. */
  function AddSentence(t: Text, author: string, sentence: string): (r: Text)
    ensures r.sentences == t.sentences + [sentence]
    ensures Valid(t) ==> Valid(r) && AuthorForSentenceIndex(r, |t.sentences|) == Success(author)
  {
    var r := AddSentences(t, author, [sentence]);
    if Valid(t) then AddSentencesLookup(t, author, [sentence]); r else r
  }

  /** `getAuthorIndexForSentence`: `AuthorIds[i]`, negative indices counting from the end. */
  function AuthorIndexForSentence(t: Text, i: int): (r: Result<nat>)
    ensures Valid(t) ==> (r.Success? <==> -|t.sentences| <= i < |t.sentences|)
    ensures Valid(t) && r.Success? ==> r.value < |t.authors|
  {
    PyIndex(t.authorIds, i)
  }

  /** `getAuthorForAuthorIndex`: `Authors[i]`. */
  function AuthorForAuthorIndex(t: Text, i: int): (r: Result<string>)
    ensures r.Success? <==> -|t.authors| <= i < |t.authors|
  {
    PyIndex(t.authors, i)
  }

  /** `getAuthorForSentenceIndex`: `Authors[AuthorIds[i]]`. */
  function AuthorForSentenceIndex(t: Text, i: int): (r: Result<string>)
    ensures Valid(t) ==> (r.Success? <==> -|t.sentences| <= i < |t.sentences|)
    ensures r.Success? ==> r.value in t.authors
  {
    var id :- AuthorIndexForSentence(t, i);
    AuthorForAuthorIndex(t, id)
  }

  /** After `add_sentences(author, ss)` every new sentence is attributed to `author` and
      every earlier sentence keeps its author. */
  lemma AddSentencesLookup(t: Text, author: string, ss: seq<string>)
    requires Valid(t)
    ensures forall i :: |t.sentences| <= i < |t.sentences| + |ss| ==>
      AuthorForSentenceIndex(AddSentences(t, author, ss), i) == Success(author)
    ensures forall i :: 0 <= i < |t.sentences| ==>
      AuthorForSentenceIndex(AddSentences(t, author, ss), i) == AuthorForSentenceIndex(t, i)
  {
    var (t1, id) := AuthorId(t, author);
    var r := AddSentences(t, author, ss);
    assert r == AppendAll(t1, id, ss);
    forall i | |t.sentences| <= i < |t.sentences| + |ss|
      ensures AuthorForSentenceIndex(r, i) == Success(author)
    {
      assert r.authorIds[i] == id;
    }
    forall i | 0 <= i < |t.sentences|
      ensures AuthorForSentenceIndex(r, i) == AuthorForSentenceIndex(t, i)
    {
      assert r.authorIds[i] == r.authorIds[..|t.authorIds|][i] == t.authorIds[i];
      assert r.authors[t.authorIds[i]] == r.authors[..|t.authors|][t.authorIds[i]];
    }
  }

  /** `getText`: the sentences joined by single spaces. */
  function GetText(t: Text): string {
    Join(" ", t.sentences)
  }

  /** Adding sentences to a text adds their joined text after one space. */
  lemma GetTextAfterAdd(t: Text, author: string, ss: seq<string>)
    ensures GetText(AddSentences(t, author, ss)) ==
      if |t.sentences| == 0 then Join(" ", ss)
      else if |ss| == 0 then GetText(t)
      else GetText(t) + " " + Join(" ", ss)
  {
    var r := AddSentences(t, author, ss);
    if |t.sentences| == 0 {
      assert r.sentences == ss;
    } else if |ss| == 0 {
      assert r.sentences == t.sentences;
    } else {
      JoinSplice(" ", t.sentences, ss);
    }
  }

  /** `getTextTokenizedByWord`: the words the tagger finds in the joined text. */
  function TokenizedByWord(t: Text, server: Server): (r: Result<seq<string>>)
    ensures |t.sentences| == 0 ==> r == Success([])
    ensures r.Success? <==> Parse(server, GetText(t)).Success?
    ensures r.Success? ==> r.value == Parse(server, GetText(t)).value.0
    ensures r.Success? ==> forall k :: 0 <= k < |r.value| ==> NoSpace(r.value[k])
  {
    var p :- Parse(server, GetText(t));
    Success(p.0)
  }

  // ---------------------------------------------------------------------------
  // `fixed_length_chunk`

  /** `fixed_length_chunk` as written: a non-positive size raises; on an empty text the
      loop does not run and two empty lists come back; on any other text the first
      iteration calls `len` with two arguments, a TypeError. */
  function FixedLengthChunk(t: Text, size: int): (r: Result<(seq<nat>, seq<string>)>)
    ensures size <= 0 ==> r == Failure(InvalidChunkSize)
    ensures r.Success? <==> size > 0 && |t.sentences| == 0
    ensures r.Success? ==> r.value == ([], [])
  {
    if size <= 0 then Failure(InvalidChunkSize)
    else if |t.sentences| == 0 then Success(([], []))
    else Failure(TypeError)
  }

  /** `range(a, b)`. */
  function Range(a: nat, b: nat): (r: seq<nat>)
    requires a <= b
    ensures |r| == b - a
    ensures forall k :: 0 <= k < |r| ==> r[k] == a + k
  {
    seq(b - a, k requires 0 <= k < b - a => a + k)
  }

  /** A chunk's sentence ids and the sentences they name. */
  predicate Matches(sentences: seq<string>, ids: seq<nat>, chunk: seq<string>) {
    && |ids| == |chunk|
    && (forall j :: 0 <= j < |ids| ==> ids[j] < |sentences| && chunk[j] == sentences[ids[j]])
  }

  /** The chunks from sentence `start` on, each `size` sentences long except possibly the
      last, cut at `min(len(Sentences), i + chunk_size)`. */
  function ChunksFrom(sentences: seq<string>, size: nat, start: nat): (r: seq<(seq<nat>, seq<string>)>)
    requires size > 0
    ensures forall k :: 0 <= k < |r| ==> Matches(sentences, r[k].0, r[k].1)
    decreases |sentences| - start
  {
    if start >= |sentences| then []
    else
      var end := if start + size < |sentences| then start + size else |sentences|;
      var c := (Range(start, end), sentences[start..end]);
      assert Matches(sentences, c.0, c.1);
      [c] + ChunksFrom(sentences, size, start + size)
  }

  function IdLists(cs: seq<(seq<nat>, seq<string>)>): (r: seq<seq<nat>>)
    ensures |r| == |cs|
    ensures forall k :: 0 <= k < |cs| ==> r[k] == cs[k].0
  {
    seq(|cs|, k requires 0 <= k < |cs| => cs[k].0)
  }

  function SentenceLists(cs: seq<(seq<nat>, seq<string>)>): (r: seq<seq<string>>)
    ensures |r| == |cs|
    ensures forall k :: 0 <= k < |cs| ==> r[k] == cs[k].1
  {
    seq(|cs|, k requires 0 <= k < |cs| => cs[k].1)
  }

  /** `fixed_length_chunk` as its docstring describes it: the sentence ids of each chunk
      and the chunk's sentences, as two parallel lists of lists. */
  function IntendedChunk(t: Text, size: int): (r: Result<(seq<seq<nat>>, seq<seq<string>>)>)
    ensures size <= 0 ==> r == Failure(InvalidChunkSize)
    ensures r.Success? <==> size > 0
    ensures r.Success? ==> |r.value.0| == |r.value.1|
    ensures r.Success? ==> forall k :: 0 <= k < |r.value.0| ==> Matches(t.sentences, r.value.0[k], r.value.1[k])
  {
    if size <= 0 then Failure(InvalidChunkSize)
    else
      var cs := ChunksFrom(t.sentences, size, 0);
      Success((IdLists(cs), SentenceLists(cs)))
  }

  lemma ChunksFromStep(sentences: seq<string>, size: nat, start: nat)
    requires size > 0 && start < |sentences|
    ensures var end := if start + size < |sentences| then start + size else |sentences|;
      ChunksFrom(sentences, size, start) ==
        [(Range(start, end), sentences[start..end])] + ChunksFrom(sentences, size, start + size)
  {
  }

  lemma RangeSplice(a: nat, b: nat, c: nat)
    requires a <= b <= c
    ensures Range(a, b) + Range(b, c) == Range(a, c)
  {
  }

  /** Every sentence id from `start` on appears once, in order, across the chunks. */
  lemma {:induction false} ChunksFromCover(sentences: seq<string>, size: nat, start: nat)
    requires size > 0 && start <= |sentences|
    ensures Flatten(IdLists(ChunksFrom(sentences, size, start))) == Range(start, |sentences|)
    decreases |sentences| - start
  {
    var n := |sentences|;
    if start < n {
      ChunksFromStep(sentences, size, start);
      var end := if start + size < n then start + size else n;
      var rest := ChunksFrom(sentences, size, start + size);
      var cs := ChunksFrom(sentences, size, start);
      assert IdLists(cs) == [Range(start, end)] + IdLists(rest);
      FlattenCons(Range(start, end), IdLists(rest));
      if start + size < n {
        ChunksFromCover(sentences, size, start + size);
      } else {
        assert rest == [];
        assert Flatten(IdLists(rest)) == Range(n, n);
      }
      RangeSplice(start, end, n);
    } else {
      assert Flatten(IdLists(ChunksFrom(sentences, size, start))) == [];
    }
  }

  /** Every chunk but the last holds `size` sentences; the last holds 1 to `size`. */
  lemma {:induction false} ChunksFromSizes(sentences: seq<string>, size: nat, start: nat)
    requires size > 0
    ensures var cs := ChunksFrom(sentences, size, start);
      forall k :: 0 <= k < |cs| - 1 ==> |cs[k].0| == size
    ensures var cs := ChunksFrom(sentences, size, start);
      |cs| > 0 ==> 1 <= |cs[|cs| - 1].0| <= size
    decreases |sentences| - start
  {
    var n := |sentences|;
    if start < n {
      ChunksFromStep(sentences, size, start);
      ChunksFromSizes(sentences, size, start + size);
      var cs := ChunksFrom(sentences, size, start);
      var rest := ChunksFrom(sentences, size, start + size);
      if start + size >= n {
        assert rest == [];
      }
      forall k | 0 <= k < |cs| - 1
        ensures |cs[k].0| == size
      {
        if k > 0 {
          assert cs[k] == rest[k - 1];
        }
      }
    }
  }

  /** The intended chunking partitions the sentence ids `0 .. len(Sentences) - 1` in order
      into runs of `size`, the last run possibly shorter. */
  lemma IntendedChunkPartition(t: Text, size: int)
    requires size > 0
    ensures IntendedChunk(t, size).Success?
    ensures Flatten(IntendedChunk(t, size).value.0) == Range(0, |t.sentences|)
    ensures var ids := IntendedChunk(t, size).value.0;
      (forall k :: 0 <= k < |ids| - 1 ==> |ids[k]| == size)
      && (|ids| > 0 ==> 1 <= |ids[|ids| - 1]| <= size)
  {
    ChunksFromCover(t.sentences, size, 0);
    ChunksFromSizes(t.sentences, size, 0);
  }

  /** The docstring's own example: five sentences in chunks of three. As written the
      call raises; the intended chunking gives the documented result. */
  lemma DocstringExample()
    ensures var t := Text(["sen1", "sen2", "sen3", "sen4", "sen5"], [0, 0, 0, 0, 0], ["a"]);
      && FixedLengthChunk(t, 3) == Failure(TypeError)
      && IntendedChunk(t, 3) == Success(([[0, 1, 2], [3, 4]], [["sen1", "sen2", "sen3"], ["sen4", "sen5"]]))
  {
    var s: seq<string> := ["sen1", "sen2", "sen3", "sen4", "sen5"];
    ChunksFromStep(s, 3, 0);
    ChunksFromStep(s, 3, 3);
    assert Range(0, 3) == [0, 1, 2];
    assert Range(3, 5) == [3, 4];
    var cs := ChunksFrom(s, 3, 0);
    assert cs == [([0, 1, 2], s[0..3]), ([3, 4], s[3..5])];
    assert IdLists(cs) == [[0, 1, 2], [3, 4]];
    assert s[0..3] == ["sen1", "sen2", "sen3"] && s[3..5] == ["sen4", "sen5"];
    assert SentenceLists(cs) == [["sen1", "sen2", "sen3"], ["sen4", "sen5"]];
  }
}
