/** The flush-on-multiple chunkers `Chunk.generate` (src/exp_cluster.py) and
    `Chunk.simple_concat` (test/exp_cluster.py). Both walk the sentences with a 1-based
    position `i`; at every `i % size == 0` they emit the accumulated chunk and discard the
    current sentence, otherwise they accumulate it, and after the loop they emit whatever
    has accumulated. `generate` adds a special branch for `size == 1`. */
module FlushChunk {
  import opened Wrappers
  import opened PyStr
  import opened Seqs
  import opened Arith
  import SentenceChunker

  type Chunk = SentenceChunker.Chunk

  /** One entry of `Chunk.sentences`: `{'author': author, 'text': sentence}`. */
  datatype Sentence = Sentence(author: string, text: string)

  /** `append_sentences(author, sentences)`: every sentence, tagged with the author, appended in order. */
  function AppendSentences(ss: seq<Sentence>, author: string, sentences: seq<string>): (r: seq<Sentence>)
    ensures |r| == |ss| + |sentences|
    ensures r[..|ss|] == ss
    ensures forall j :: 0 <= j < |sentences| ==> r[|ss| + j] == Sentence(author, sentences[j])
  {
    ss + seq(|sentences|, j requires 0 <= j < |sentences| => Sentence(author, sentences[j]))
  }

  /** The loop variables `chunks`, `authors` and `texts`. */
  datatype Acc = Acc(chunks: seq<Chunk>, authors: seq<string>, text: string)

  const Start: Acc := Acc([], [], "")

  /** One iteration of `simple_concat` at 1-based position `i`. */
  function SimpleConcatStep(acc: Acc, i: nat, s: Sentence, size: nat): Acc
    requires size > 0
  {
    if i % size == 0 then Acc(acc.chunks + [SentenceChunker.Chunk(acc.authors, acc.text)], [], "")
    else Acc(acc.chunks, acc.authors + [s.author], acc.text + s.text + " ")
  }

  /** One iteration of `generate` at 1-based position `i`. */
  function GenerateStep(acc: Acc, i: nat, s: Sentence, size: nat): Acc
    requires size > 0
  {
    if size == 1 then Acc(acc.chunks + [SentenceChunker.Chunk([s.author], s.text)], [s.author], s.text)
    else if i % size == 0 then Acc(acc.chunks + [SentenceChunker.Chunk(acc.authors, acc.text)], [], "")
    else Acc(acc.chunks, acc.authors + [s.author], acc.text + s.text + " ")
  }

  /** The state of `simple_concat`'s loop after the first `k` sentences. */
  function SimpleConcatLoop(ss: seq<Sentence>, size: nat, k: nat): Acc
    requires size > 0 && k <= |ss|
  {
    if k == 0 then Start else SimpleConcatStep(SimpleConcatLoop(ss, size, k - 1), k, ss[k - 1], size)
  }

  /** The state of `generate`'s loop after the first `k` sentences. */
  function GenerateLoop(ss: seq<Sentence>, size: nat, k: nat): Acc
    requires size > 0 && k <= |ss|
  {
    if k == 0 then Start else GenerateStep(GenerateLoop(ss, size, k - 1), k, ss[k - 1], size)
  }

  function Finish(acc: Acc): seq<Chunk> {
    acc.chunks + [SentenceChunker.Chunk(acc.authors, acc.text)]
  }

  /** `simple_concat(size)`. */
  function SimpleConcat(ss: seq<Sentence>, size: int): (r: Result<seq<Chunk>>)
    ensures r.Failure? <==> size <= 0
    ensures r.Failure? ==> r.error == InvalidChunkSize
    ensures r.Success? ==> |r.value| == |ss| / size + 1
  {
    if size <= 0 then Failure(InvalidChunkSize)
    else
      SimpleConcatShape(ss, size, |ss|);
      Success(Finish(SimpleConcatLoop(ss, size, |ss|)))
  }

  /** `generate(size)`. */
  function Generate(ss: seq<Sentence>, size: int): (r: Result<seq<Chunk>>)
    ensures r.Failure? <==> size <= 0
    ensures r.Failure? ==> r.error == InvalidChunkSize
    ensures r.Success? && size > 1 ==> r == SimpleConcat(ss, size)
    ensures r.Success? && size == 1 ==> |r.value| == |ss| + 1
  {
    if size <= 0 then Failure(InvalidChunkSize)
    else
      GenerateMatches(ss, size);
      Success(Finish(GenerateLoop(ss, size, |ss|)))
  }

  lemma GenerateMatches(ss: seq<Sentence>, size: nat)
    requires size > 0
    ensures size > 1 ==> GenerateLoop(ss, size, |ss|) == SimpleConcatLoop(ss, size, |ss|)
    ensures size == 1 ==> |GenerateLoop(ss, size, |ss|).chunks| == |ss|
  {
    if size > 1 {
      LoopsAgree(ss, size, |ss|);
    } else {
      GenerateSizeOne(ss, |ss|);
    }
  }

  // ---------------------------------------------------------------------------
  // What the loops keep

  function AuthorsOf(xs: seq<Sentence>): (r: seq<string>)
    ensures |r| == |xs|
    ensures forall j :: 0 <= j < |xs| ==> r[j] == xs[j].author
  {
    seq(|xs|, j requires 0 <= j < |xs| => xs[j].author)
  }

  /** The sentences' texts, each followed by one space. */
  function SpacedText(xs: seq<Sentence>): string
    decreases |xs|
  {
    if |xs| == 0 then "" else SpacedText(xs[..|xs| - 1]) + xs[|xs| - 1].text + " "
  }

  lemma SpacedTextSnoc(xs: seq<Sentence>, x: Sentence)
    ensures SpacedText(xs + [x]) == SpacedText(xs) + x.text + " "
  {
    assert (xs + [x])[..|xs|] == xs;
  }

  /** The 0-based positions among the first `k` whose 1-based position is not a
      multiple of `size`, in increasing order. */
  function KeptPositions(size: nat, k: nat): (r: seq<nat>)
    requires size > 0
    ensures forall t :: 0 <= t < |r| ==> r[t] < k
    ensures forall j :: j in r <==> 0 <= j < k && (j + 1) % size != 0
    ensures forall t, u :: 0 <= t < u < |r| ==> r[t] < r[u]
  {
    if k == 0 then []
    else if k % size == 0 then KeptPositions(size, k - 1)
    else KeptPositions(size, k - 1) + [k - 1]
  }

  /** The sentences at the given positions, in order. */
  function Pick(ss: seq<Sentence>, ps: seq<nat>): (r: seq<Sentence>)
    requires forall t :: 0 <= t < |ps| ==> ps[t] < |ss|
    ensures |r| == |ps|
    ensures forall t :: 0 <= t < |ps| ==> r[t] == ss[ps[t]]
  {
    seq(|ps|, t requires 0 <= t < |ps| => ss[ps[t]])
  }

  /** The sentences a flush-on-multiple loop keeps among the first `k`. */
  function Kept(ss: seq<Sentence>, size: nat, k: nat): seq<Sentence>
    requires size > 0 && k <= |ss|
  {
    Pick(ss, KeptPositions(size, k))
  }

  lemma KeptStep(ss: seq<Sentence>, size: nat, k: nat)
    requires size > 0 && 0 < k <= |ss|
    ensures k % size == 0 ==> Kept(ss, size, k) == Kept(ss, size, k - 1)
    ensures k % size != 0 ==> Kept(ss, size, k) == Kept(ss, size, k - 1) + [ss[k - 1]]
  {
  }

  /** The loop invariant on authors: the chunks emitted so far followed by the open chunk
      hold exactly the authors of the kept sentences, in order. */
  lemma {:induction false} SimpleConcatKeepsAuthors(ss: seq<Sentence>, size: nat, k: nat)
    requires size > 0 && k <= |ss|
    ensures Flatten(SentenceChunker.AuthorLists(SimpleConcatLoop(ss, size, k).chunks)) + SimpleConcatLoop(ss, size, k).authors
      == AuthorsOf(Kept(ss, size, k))
    decreases k
  {
    if k > 0 {
      SimpleConcatKeepsAuthors(ss, size, k - 1);
      KeptStep(ss, size, k);
      var acc := SimpleConcatLoop(ss, size, k - 1);
      var kept := Kept(ss, size, k - 1);
      var chunk := SentenceChunker.Chunk(acc.authors, acc.text);
      SentenceChunker.TextsSnoc(acc.chunks, chunk);
      var lists := SentenceChunker.AuthorLists(acc.chunks);
      if k % size == 0 {
        FlattenSnoc(lists, acc.authors);
      } else {
        assert AuthorsOf(kept + [ss[k - 1]]) == AuthorsOf(kept) + [ss[k - 1].author];
      }
    }
  }

  /** The loop invariant on text: the emitted texts followed by the open text are the kept
      sentences' texts, each followed by one space. */
  lemma {:induction false} SimpleConcatKeepsText(ss: seq<Sentence>, size: nat, k: nat)
    requires size > 0 && k <= |ss|
    ensures Concat(SentenceChunker.Texts(SimpleConcatLoop(ss, size, k).chunks)) + SimpleConcatLoop(ss, size, k).text
      == SpacedText(Kept(ss, size, k))
    decreases k
  {
    if k > 0 {
      SimpleConcatKeepsText(ss, size, k - 1);
      KeptStep(ss, size, k);
      var acc := SimpleConcatLoop(ss, size, k - 1);
      var kept := Kept(ss, size, k - 1);
      var chunk := SentenceChunker.Chunk(acc.authors, acc.text);
      SentenceChunker.TextsSnoc(acc.chunks, chunk);
      var texts := SentenceChunker.Texts(acc.chunks);
      var s := ss[k - 1];
      if k % size == 0 {
        assert SimpleConcatLoop(ss, size, k) == Acc(acc.chunks + [chunk], [], "");
        ConcatSnoc(texts, acc.text);
        assert Concat(texts + [acc.text]) + "" == Concat(texts) + acc.text;
      } else {
        assert SimpleConcatLoop(ss, size, k) == Acc(acc.chunks, acc.authors + [s.author], acc.text + s.text + " ");
        SpacedTextSnoc(kept, s);
        AppendAssoc(Concat(texts), acc.text, s.text, " ");
      }
    }
  }

  lemma AppendAssoc(a: string, b: string, c: string, d: string)
    ensures a + (b + c + d) == a + b + c + d
  {
  }

  /** The loop invariant on sizes: every emitted chunk has `size - 1` authors, the open
      chunk has `k % size`, and `k / size` chunks have been emitted. */
  lemma {:induction false} SimpleConcatShape(ss: seq<Sentence>, size: nat, k: nat)
    requires size > 0 && k <= |ss|
    ensures |SimpleConcatLoop(ss, size, k).chunks| == k / size
    ensures |SimpleConcatLoop(ss, size, k).authors| == k % size
    ensures forall j :: 0 <= j < |SimpleConcatLoop(ss, size, k).chunks| ==> |SimpleConcatLoop(ss, size, k).chunks[j].authors| == size - 1
    decreases k
  {
    if k > 0 {
      SimpleConcatShape(ss, size, k - 1);
      DivModStep(k, size);
    }
  }

  /** For every size but 1 the two chunkers run the same loop. */
  lemma {:induction false} LoopsAgree(ss: seq<Sentence>, size: nat, k: nat)
    requires size > 1 && k <= |ss|
    ensures GenerateLoop(ss, size, k) == SimpleConcatLoop(ss, size, k)
    decreases k
  {
    if k > 0 {
      LoopsAgree(ss, size, k - 1);
    }
  }

  /** With `size == 1`, `generate` emits each sentence alone and keeps the last one open. */
  lemma {:induction false} GenerateSizeOne(ss: seq<Sentence>, k: nat)
    requires k <= |ss|
    ensures |GenerateLoop(ss, 1, k).chunks| == k
    ensures forall j :: 0 <= j < k ==> GenerateLoop(ss, 1, k).chunks[j] == SentenceChunker.Chunk([ss[j].author], ss[j].text)
    ensures k == 0 ==> GenerateLoop(ss, 1, k).authors == [] && GenerateLoop(ss, 1, k).text == ""
    ensures k > 0 ==> GenerateLoop(ss, 1, k).authors == [ss[k - 1].author] && GenerateLoop(ss, 1, k).text == ss[k - 1].text
    decreases k
  {
    if k > 0 {
      GenerateSizeOne(ss, k - 1);
    }
  }

  /** With `size == 1`, `simple_concat` discards every sentence: all its state stays empty. */
  lemma {:induction false} SimpleConcatSizeOneLoop(ss: seq<Sentence>, k: nat)
    requires k <= |ss|
    ensures |SimpleConcatLoop(ss, 1, k).chunks| == k
    ensures forall j :: 0 <= j < k ==> SimpleConcatLoop(ss, 1, k).chunks[j] == SentenceChunker.Chunk([], "")
    ensures SimpleConcatLoop(ss, 1, k).authors == [] && SimpleConcatLoop(ss, 1, k).text == ""
    decreases k
  {
    if k > 0 {
      SimpleConcatSizeOneLoop(ss, k - 1);
    }
  }

  // ---------------------------------------------------------------------------
  // The results

  /** For `size > 0`, `simple_concat` returns `n / size + 1` chunks; all but the last
      hold `size - 1` authors and the last holds the `n % size` leftovers; together they
      hold exactly the sentences whose 1-based position is not a multiple of `size`. */
  lemma SimpleConcatResult(ss: seq<Sentence>, size: int, chunks: seq<Chunk>)
    requires SimpleConcat(ss, size) == Success(chunks)
    ensures |chunks| == |ss| / size + 1
    ensures forall j :: 0 <= j < |chunks| - 1 ==> |chunks[j].authors| == size - 1
    ensures |chunks[|chunks| - 1].authors| == |ss| % size
    ensures Flatten(SentenceChunker.AuthorLists(chunks)) == AuthorsOf(Kept(ss, size, |ss|))
    ensures Concat(SentenceChunker.Texts(chunks)) == SpacedText(Kept(ss, size, |ss|))
  {
    var acc := SimpleConcatLoop(ss, size, |ss|);
    SimpleConcatShape(ss, size, |ss|);
    SimpleConcatKeepsAuthors(ss, size, |ss|);
    SimpleConcatKeepsText(ss, size, |ss|);
    var last := SentenceChunker.Chunk(acc.authors, acc.text);
    SentenceChunker.TextsSnoc(acc.chunks, last);
    var lists := SentenceChunker.AuthorLists(acc.chunks);
    var texts := SentenceChunker.Texts(acc.chunks);
    assert (lists + [acc.authors])[..|lists|] == lists;
    assert (texts + [acc.text])[..|texts|] == texts;
  }

  /** With `size == 1`, `simple_concat` returns `n + 1` chunks, all without authors or text. */
  lemma SimpleConcatSizeOne(ss: seq<Sentence>)
    ensures SimpleConcat(ss, 1).Success?
    ensures |SimpleConcat(ss, 1).value| == |ss| + 1
    ensures forall j :: 0 <= j < |ss| + 1 ==> SimpleConcat(ss, 1).value[j] == SentenceChunker.Chunk([], "")
  {
    SimpleConcatSizeOneLoop(ss, |ss|);
  }

  /** With `size == 1`, `generate` returns chunk `j` as sentence `j` alone, with no
      trailing space, followed by a repeat of the last sentence (an empty chunk when
      there are no sentences). */
  lemma GenerateSizeOneResult(ss: seq<Sentence>)
    ensures Generate(ss, 1).Success?
    ensures |Generate(ss, 1).value| == |ss| + 1
    ensures forall j :: 0 <= j < |ss| ==> Generate(ss, 1).value[j] == SentenceChunker.Chunk([ss[j].author], ss[j].text)
    ensures |ss| == 0 ==> Generate(ss, 1).value[0] == SentenceChunker.Chunk([], "")
    ensures |ss| > 0 ==> Generate(ss, 1).value[|ss|] == SentenceChunker.Chunk([ss[|ss| - 1].author], ss[|ss| - 1].text)
  {
    GenerateSizeOne(ss, |ss|);
  }

  /** The sentence at a 1-based position divisible by `size` is lost: with two sentences
      and `size == 2`, the second author appears in no chunk. */
  lemma GenerateDropsSentence()
    ensures Generate([Sentence("a", "x"), Sentence("b", "y")], 2)
      == Success([SentenceChunker.Chunk(["a"], "x "), SentenceChunker.Chunk([], "")])
  {
    var ss := [Sentence("a", "x"), Sentence("b", "y")];
    assert 1 % 2 == 1 && 2 % 2 == 0;
    assert GenerateLoop(ss, 2, 1) == Acc([], ["a"], "x ");
    assert GenerateLoop(ss, 2, 2) == Acc([SentenceChunker.Chunk(["a"], "x ")], [], "");
    assert Generate(ss, 2) == Success(Finish(GenerateLoop(ss, 2, 2)));
    assert Finish(GenerateLoop(ss, 2, 2)) == [SentenceChunker.Chunk(["a"], "x "), SentenceChunker.Chunk([], "")];
  }
}
