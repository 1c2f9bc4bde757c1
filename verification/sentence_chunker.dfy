/** `Chunker` of src/chunk.py: sentences with their authors, cut into contiguous chunks
    of a fixed number of sentences. */
module SentenceChunker {
  import opened Wrappers
  import opened PyStr
  import opened Seqs

  /** The two parallel lists `sentences` and `authors`. */
  datatype Chunker = Chunker(sentences: seq<string>, authors: seq<string>)

  /** One chunk, the dictionary `{'author': [...], 'text': ...}`. */
  datatype Chunk = Chunk(authors: seq<string>, text: string)

  /** Every sentence has exactly one author. */
  predicate Valid(c: Chunker) {
    |c.sentences| == |c.authors|
  }

  /** `add_sentence(author, sentence)`: appends to both lists and changes nothing else. */
  function AddSentence(c: Chunker, author: string, sentence: string): (r: Chunker)
    ensures Valid(c) ==> Valid(r)
    ensures |r.sentences| == |c.sentences| + 1 && |r.authors| == |c.authors| + 1
    ensures r.sentences[..|c.sentences|] == c.sentences && r.sentences[|c.sentences|] == sentence
    ensures r.authors[..|c.authors|] == c.authors && r.authors[|c.authors|] == author
  {
    Chunker(c.sentences + [sentence], c.authors + [author])
  }

  /** `clear_all()`: afterwards the chunker yields no chunks for any valid size. */
  function ClearAll(c: Chunker): (r: Chunker)
    ensures Valid(r)
    ensures forall size: int :: size > 0 ==> FixedLengthChunk(r, size) == Success([])
  {
    Chunker([], [])
  }

  /** The authors of `(author, sentence)` pairs, in order. */
  function PairAuthors(pairs: seq<(string, string)>): (r: seq<string>)
    ensures |r| == |pairs|
  {
    seq(|pairs|, i requires 0 <= i < |pairs| => pairs[i].0)
  }

  /** The sentences of `(author, sentence)` pairs, in order. */
  function PairSentences(pairs: seq<(string, string)>): (r: seq<string>)
    ensures |r| == |pairs|
  {
    seq(|pairs|, i requires 0 <= i < |pairs| => pairs[i].1)
  }

  /** `add_sentence` called once per `(author, sentence)` pair: the chunker ends with
      the pairs' sentences and authors appended in order, one author per sentence. */
  function AddAll(c: Chunker, pairs: seq<(string, string)>): (r: Chunker)
    ensures Valid(c) ==> Valid(r)
    ensures r.sentences == c.sentences + PairSentences(pairs)
    ensures r.authors == c.authors + PairAuthors(pairs)
    decreases |pairs|
  {
    if |pairs| == 0 then c
    else
      var init := pairs[..|pairs| - 1];
      var last := pairs[|pairs| - 1];
      assert PairSentences(pairs) == PairSentences(init) + [last.1];
      assert PairAuthors(pairs) == PairAuthors(init) + [last.0];
      AddSentence(AddAll(c, init), last.0, last.1)
  }

  // ---------------------------------------------------------------------------
  // Fixed-length chunking

  /** The chunks that `for i in range(start, len(sentences), size)` produces. */
  function ChunksFrom(c: Chunker, size: nat, start: nat): (r: seq<Chunk>)
    requires size > 0
    decreases |c.sentences| - start
  {
    if start >= |c.sentences| then []
    else
      var chunk := Chunk(PySlice(c.authors, start, start + size), Join(" ", PySlice(c.sentences, start, start + size)));
      [chunk] + ChunksFrom(c, size, start + size)
  }

  /** `fixed_length_chunk(chunk_size)`: an exception for a non-positive size, otherwise
      the fewest chunks of `size` sentences that cover every sentence. */
  function FixedLengthChunk(c: Chunker, size: int): (r: Result<seq<Chunk>>)
    ensures r.Failure? <==> size <= 0
    ensures r.Failure? ==> r.error == InvalidChunkSize
    ensures r.Success? ==> |r.value| * size >= |c.sentences| && (|r.value| - 1) * size < |c.sentences|
  {
    if size <= 0 then Failure(InvalidChunkSize)
    else
      ChunkCount(c, size, 0);
      Success(ChunksFrom(c, size, 0))
  }

  lemma {:induction false} ChunkCount(c: Chunker, size: nat, start: nat)
    requires size > 0 && start <= |c.sentences|
    ensures |ChunksFrom(c, size, start)| * size >= |c.sentences| - start
    ensures (|ChunksFrom(c, size, start)| - 1) * size < |c.sentences| - start
    decreases |c.sentences| - start
  {
    var n := |c.sentences|;
    var m := |ChunksFrom(c, size, start)|;
    if start < n {
      var rest := ChunksFrom(c, size, start + size);
      assert m == |rest| + 1;
      if start + size < n {
        ChunkCount(c, size, start + size);
        CountStep(|rest|, size, n - start, m);
      } else {
        assert rest == [];
        CountStep(0, size, n - start, m);
      }
    } else {
      assert ChunksFrom(c, size, start) == [];
      CountStep(-1, size, 0, m);
    }
  }

  /** One more chunk of `size` sentences covers `size` more sentences. */
  lemma CountStep(k: int, size: int, d: int, m: int)
    requires m == k + 1
    requires k * size >= d - size && (k - 1) * size < d - size
    ensures m * size >= d && (m - 1) * size < d
  {
    assert m * size == k * size + size;
    assert (m - 1) * size == (k - 1) * size + size;
  }

  function Texts(chunks: seq<Chunk>): (r: seq<string>)
    ensures |r| == |chunks|
    ensures forall k :: 0 <= k < |chunks| ==> r[k] == chunks[k].text
  {
    seq(|chunks|, k requires 0 <= k < |chunks| => chunks[k].text)
  }

  function AuthorLists(chunks: seq<Chunk>): (r: seq<seq<string>>)
    ensures |r| == |chunks|
    ensures forall k :: 0 <= k < |chunks| ==> r[k] == chunks[k].authors
  {
    seq(|chunks|, k requires 0 <= k < |chunks| => chunks[k].authors)
  }

  lemma TextsCons(x: Chunk, rest: seq<Chunk>)
    ensures Texts([x] + rest) == [x.text] + Texts(rest)
    ensures AuthorLists([x] + rest) == [x.authors] + AuthorLists(rest)
  {
  }

  lemma TextsSnoc(init: seq<Chunk>, x: Chunk)
    ensures Texts(init + [x]) == Texts(init) + [x.text]
    ensures AuthorLists(init + [x]) == AuthorLists(init) + [x.authors]
  {
  }

  /** Where the chunk starting at `start` ends. */
  function ChunkEnd(c: Chunker, size: nat, start: nat): (e: nat)
    requires start < |c.sentences|
    ensures start < e <= |c.sentences| || size == 0
  {
    if start + size < |c.sentences| then start + size else |c.sentences|
  }

  /** The first chunk from `start` and the chunks after it. */
  lemma ChunksFromStep(c: Chunker, size: nat, start: nat)
    requires size > 0 && start < |c.sentences|
    ensures Texts(ChunksFrom(c, size, start)) ==
      [Join(" ", c.sentences[start..ChunkEnd(c, size, start)])] + Texts(ChunksFrom(c, size, start + size))
    ensures Valid(c) ==>
      (AuthorLists(ChunksFrom(c, size, start)) ==
       [c.authors[start..ChunkEnd(c, size, start)]] + AuthorLists(ChunksFrom(c, size, start + size)))
  {
    var end := ChunkEnd(c, size, start);
    var first := Chunk(PySlice(c.authors, start, start + size), Join(" ", c.sentences[start..end]));
    assert ChunksFrom(c, size, start) == [first] + ChunksFrom(c, size, start + size);
    TextsCons(first, ChunksFrom(c, size, start + size));
  }

  lemma {:induction false} FlattenChunkAuthors(c: Chunker, size: nat, start: nat)
    requires Valid(c) && size > 0 && start <= |c.authors|
    ensures Flatten(AuthorLists(ChunksFrom(c, size, start))) == c.authors[start..]
    decreases |c.sentences| - start
  {
    var n := |c.authors|;
    if start < n {
      var end := ChunkEnd(c, size, start);
      var rest := AuthorLists(ChunksFrom(c, size, start + size));
      ChunksFromStep(c, size, start);
      FlattenCons(c.authors[start..end], rest);
      if start + size < n {
        FlattenChunkAuthors(c, size, start + size);
      } else {
        assert rest == [] && c.authors[end..] == [];
      }
      SliceJoin(c.authors, start, end);
    }
  }

  lemma {:induction false} JoinChunkTexts(c: Chunker, size: nat, start: nat)
    requires size > 0 && start < |c.sentences|
    ensures Join(" ", Texts(ChunksFrom(c, size, start))) == Join(" ", c.sentences[start..])
    decreases |c.sentences| - start
  {
    var s := c.sentences;
    var n := |s|;
    var end := ChunkEnd(c, size, start);
    var text := Join(" ", s[start..end]);
    var rest := Texts(ChunksFrom(c, size, start + size));
    ChunksFromStep(c, size, start);
    assert Join(" ", [text]) == text;
    if start + size < n {
      JoinChunkTexts(c, size, start + size);
      assert |ChunksFrom(c, size, start + size)| > 0;
      JoinSplice(" ", [text], rest);
      JoinSlices(" ", s, start, end);
    } else {
      assert rest == [];
      assert [text] + rest == [text];
      assert s[start..end] == s[start..];
    }
  }


  lemma {:induction false} ChunkSizes(c: Chunker, size: nat, start: nat)
    requires Valid(c) && size > 0
    ensures forall k :: 0 <= k < |ChunksFrom(c, size, start)| - 1 ==> |ChunksFrom(c, size, start)[k].authors| == size
    ensures forall k :: 0 <= k < |ChunksFrom(c, size, start)| ==> 1 <= |ChunksFrom(c, size, start)[k].authors| <= size
    decreases |c.sentences| - start
  {
    var n := |c.sentences|;
    if start < n {
      ChunkSizes(c, size, start + size);
      var chunks := ChunksFrom(c, size, start);
      var rest := ChunksFrom(c, size, start + size);
      var end := if start + size < n then start + size else n;
      assert forall k :: 0 <= k < |rest| ==> 1 <= |rest[k].authors| <= size;
      assert chunks == [chunks[0]] + rest;
      assert chunks[0].authors == c.authors[start..end];
      if rest != [] {
        assert start + size < n;
      }
      forall k | 0 <= k < |chunks|
        ensures 1 <= |chunks[k].authors| <= size
        ensures k < |chunks| - 1 ==> |chunks[k].authors| == size
      {
        if k > 0 {
          assert chunks[k] == rest[k - 1];
          assert 1 <= |rest[k - 1].authors| <= size;
        } else {
          assert |chunks[0].authors| == end - start;
        }
      }
    }
  }

  /** The chunks partition the chunker: their author lists concatenate to `authors`,
      their texts joined by single spaces give the whole text, every chunk but the last
      holds exactly `size` authors and the last between 1 and `size`. */
  lemma FixedLengthChunkPartition(c: Chunker, size: int, chunks: seq<Chunk>)
    requires Valid(c) && FixedLengthChunk(c, size) == Success(chunks)
    ensures Flatten(AuthorLists(chunks)) == c.authors
    ensures Join(" ", Texts(chunks)) == Join(" ", c.sentences)
    ensures forall k :: 0 <= k < |chunks| - 1 ==> |chunks[k].authors| == size
    ensures |chunks| > 0 ==> 1 <= |chunks[|chunks| - 1].authors| <= size
  {
    FlattenChunkAuthors(c, size, 0);
    assert c.authors[0..] == c.authors;
    if |c.sentences| > 0 {
      JoinChunkTexts(c, size, 0);
      assert c.sentences[0..] == c.sentences;
    }
    ChunkSizes(c, size, 0);
  }

  /** Adding sentences one at a time to an empty chunker and chunking recovers the
      authors in the order they were added. */
  lemma AddAllThenChunk(pairs: seq<(string, string)>, size: int)
    requires size > 0
    ensures Valid(AddAll(Chunker([], []), pairs))
    ensures Flatten(AuthorLists(FixedLengthChunk(AddAll(Chunker([], []), pairs), size).value)) == PairAuthors(pairs)
  {
    var c := AddAll(Chunker([], []), pairs);
    assert c.authors == PairAuthors(pairs);
    FixedLengthChunkPartition(c, size, FixedLengthChunk(c, size).value);
  }
}
