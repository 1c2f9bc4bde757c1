/** Presence vectors: `Feature._parallel_vectorize`, `Feature.vectorize` and the row
    check of `Feature.remove_features`, in src/exp_cluster.py and test/exp_cluster.py.
    Each reference vocabulary that is given contributes one block of booleans, one per
    reference entry in the vocabulary's iteration order, telling whether the entry
    occurs in the chunk; the blocks are concatenated in a fixed order. */
module Vectorizer {
  import opened Wrappers
  import opened PyStr
  import opened Seqs
  import opened NGram
  import opened ModelFile
  import opened ModelBuilder

  // ---------------------------------------------------------------------------
  // Blocks

  /** `[x in local for x in ref]`. */
  function Presence(ref: seq<string>, local: set<string>): (r: seq<bool>)
    ensures |r| == |ref|
    ensures forall i :: 0 <= i < |ref| ==> (r[i] <==> ref[i] in local)
  {
    seq(|ref|, i requires 0 <= i < |ref| => ref[i] in local)
  }

  /** The number of entries a reference vocabulary contributes: none when it is `None`. */
  function Size(ref: Option<seq<string>>): nat {
    if ref.None? then 0 else |ref.value|
  }

  /** `if ref is not None: vector.extend([x in local for x in ref])`. */
  function Block(ref: Option<seq<string>>, local: set<string>): (r: seq<bool>)
    ensures |r| == Size(ref)
  {
    if ref.None? then [] else Presence(ref.value, local)
  }

  /** The total width of the blocks. */
  function Width(refs: seq<Option<seq<string>>>): nat
    decreases |refs|
  {
    if |refs| == 0 then 0 else Width(refs[..|refs| - 1]) + Size(refs[|refs| - 1])
  }

  /** The vector: the blocks in order, each reference looked up in its local set. */
  function Assemble(refs: seq<Option<seq<string>>>, locals: seq<set<string>>): (v: seq<bool>)
    requires |refs| == |locals|
    ensures |v| == Width(refs)
    decreases |refs|
  {
    if |refs| == 0 then []
    else Assemble(refs[..|refs| - 1], locals[..|locals| - 1]) + Block(refs[|refs| - 1], locals[|locals| - 1])
  }

  /** Entry `i` of block `k` sits after the blocks before it, and it is true exactly when
      the block's `i`-th reference entry is in the block's local set. */
  lemma {:induction false} AssembleEntry(refs: seq<Option<seq<string>>>, locals: seq<set<string>>, k: nat, i: nat)
    requires |refs| == |locals| && k < |refs| && refs[k].Some? && i < |refs[k].value|
    ensures Width(refs[..k]) + i < |Assemble(refs, locals)|
    ensures Assemble(refs, locals)[Width(refs[..k]) + i] <==> refs[k].value[i] in locals[k]
    decreases |refs|
  {
    var n := |refs|;
    var init := refs[..n - 1];
    var linit := locals[..n - 1];
    var a := Assemble(init, linit);
    var b := Block(refs[n - 1], locals[n - 1]);
    assert Assemble(refs, locals) == a + b;
    var w := Width(refs[..k]);
    if k == n - 1 {
      assert w == |a|;
      assert (a + b)[w + i] == b[i];
    } else {
      AssembleEntry(init, linit, k, i);
      PrefixOfPrefix(refs, k, n - 1);
      assert w + i < |a|;
      assert init[k] == refs[k] && linit[k] == locals[k];
      assert (a + b)[w + i] == a[w + i];
    }
  }

  lemma {:induction false} WidthPrefix(refs: seq<Option<seq<string>>>, k: nat)
    requires k < |refs|
    ensures Width(refs[..k]) + Size(refs[k]) <= Width(refs)
    decreases |refs|
  {
    var init := refs[..|refs| - 1];
    if k < |refs| - 1 {
      WidthPrefix(init, k);
      assert init[..k] == refs[..k];
    } else {
      assert refs[..k] == init;
    }
  }

  // ---------------------------------------------------------------------------
  // src/exp_cluster.py

  /** The seven optional reference vocabularies of src/exp_cluster.py's
      `_parallel_vectorize`, each in its set's iteration order. */
  datatype SrcRefs = SrcRefs(
    words: Option<seq<string>>, charGrams: Option<seq<string>>, tags: Option<seq<string>>,
    tagBigrams: Option<seq<string>>, wordBigrams: Option<seq<string>>,
    tagTrigrams: Option<seq<string>>, tagFourgrams: Option<seq<string>>)

  /** The blocks in vector order: words, char 4-grams, tags, tag bigrams, word bigrams,
      tag trigrams, "tag four-grams". */
  function SrcBlocks(refs: SrcRefs): (r: seq<Option<seq<string>>>)
    ensures |r| == 7
  {
    [refs.words, refs.charGrams, refs.tags, refs.tagBigrams, refs.wordBigrams, refs.tagTrigrams, refs.tagFourgrams]
  }

  /** What each block looks its references up in: the chunk's words, the set of its four-character
      windows, its tags, and the space-joined windows of tags and words. The last block
      is built from the words, although its reference is the tag four-grams. */
  function SrcLocals(chunk: string, words: seq<string>, tags: seq<string>): (r: seq<set<string>>)
    ensures |r| == 7
  {
    seq(7, k requires 0 <= k < 7 => SrcLocal(chunk, words, tags, k))
  }

  /** The local set block `k` looks its references up in. */
  function SrcLocal(chunk: string, words: seq<string>, tags: seq<string>, k: nat): set<string>
    requires k < 7
  {
    match k
    case 0 => Elements(words)
    case 1 => WindowSet(chunk, 4)
    case 2 => Elements(tags)
    case 3 => JoinedWindowSet(tags, 2)
    case 4 => JoinedWindowSet(words, 2)
    case 5 => JoinedWindowSet(tags, 3)
    case 6 => JoinedWindowSet(words, 4)
  }

  /** `_parallel_vectorize(chunk, words, postags, ...)` of src/exp_cluster.py. Its length
      is the total size of the vocabularies that are given. */
  function SrcVector(chunk: string, words: seq<string>, tags: seq<string>, refs: SrcRefs): (v: seq<bool>)
    ensures |v| == Size(refs.words) + Size(refs.charGrams) + Size(refs.tags) + Size(refs.tagBigrams)
      + Size(refs.wordBigrams) + Size(refs.tagTrigrams) + Size(refs.tagFourgrams)
  {
    SrcWidth(refs);
    Assemble(SrcBlocks(refs), SrcLocals(chunk, words, tags))
  }

  lemma WidthStep(refs: seq<Option<seq<string>>>, k: nat)
    requires k < |refs|
    ensures Width(refs[..k + 1]) == Width(refs[..k]) + Size(refs[k])
  {
    assert refs[..k + 1][..k] == refs[..k];
  }

  lemma SrcWidth(refs: SrcRefs)
    ensures Width(SrcBlocks(refs)) == Size(refs.words) + Size(refs.charGrams) + Size(refs.tags)
      + Size(refs.tagBigrams) + Size(refs.wordBigrams) + Size(refs.tagTrigrams) + Size(refs.tagFourgrams)
  {
    var b := SrcBlocks(refs);
    assert b[..0] == [] && b[..7] == b;
    WidthStep(b, 0);
    WidthStep(b, 1);
    WidthStep(b, 2);
    WidthStep(b, 3);
    WidthStep(b, 4);
    WidthStep(b, 5);
    WidthStep(b, 6);
  }

  lemma TestWidth(refs: TestRefs)
    ensures Width(TestBlocks(refs)) == Size(refs.words) + Size(refs.charGrams) + Size(refs.tags) + Size(refs.tagBigrams)
    ensures Width(TestBlocks(refs)[..3]) == Size(refs.words) + Size(refs.charGrams) + Size(refs.tags)
  {
    var b := TestBlocks(refs);
    assert b[..0] == [] && b[..4] == b;
    WidthStep(b, 0);
    WidthStep(b, 1);
    WidthStep(b, 2);
    WidthStep(b, 3);
  }

  /** The offset of block `k` in a src/exp_cluster.py vector. */
  function SrcOffset(refs: SrcRefs, k: nat): nat
    requires k < 7
  {
    Width(SrcBlocks(refs)[..k])
  }

  /** Entry `i` of block `k` is true exactly when the block's `i`-th reference entry is in
      the block's local set. */
  lemma SrcVectorEntry(chunk: string, words: seq<string>, tags: seq<string>, refs: SrcRefs, k: nat, i: nat)
    requires k < 7 && SrcBlocks(refs)[k].Some? && i < |SrcBlocks(refs)[k].value|
    ensures SrcOffset(refs, k) + i < |SrcVector(chunk, words, tags, refs)|
    ensures SrcVector(chunk, words, tags, refs)[SrcOffset(refs, k) + i]
      <==> SrcBlocks(refs)[k].value[i] in SrcLocals(chunk, words, tags)[k]
  {
    SrcBlockEntry(refs, SrcLocals(chunk, words, tags), k, i);
  }

  lemma SrcBlockEntry(refs: SrcRefs, locals: seq<set<string>>, k: nat, i: nat)
    requires |locals| == 7 && k < 7 && SrcBlocks(refs)[k].Some? && i < |SrcBlocks(refs)[k].value|
    ensures SrcOffset(refs, k) + i < |Assemble(SrcBlocks(refs), locals)|
    ensures Assemble(SrcBlocks(refs), locals)[SrcOffset(refs, k) + i] <==> SrcBlocks(refs)[k].value[i] in locals[k]
  {
    AssembleEntry(SrcBlocks(refs), locals, k, i);
  }

  /** In the word block, an entry is true exactly when the chunk holds that word. */
  lemma SrcWordEntry(chunk: string, words: seq<string>, tags: seq<string>, refs: SrcRefs, i: nat)
    requires refs.words.Some? && i < |refs.words.value|
    ensures i < |SrcVector(chunk, words, tags, refs)|
    ensures SrcVector(chunk, words, tags, refs)[i] <==> refs.words.value[i] in words
  {
    var locals := SrcLocals(chunk, words, tags);
    assert locals[0] == Elements(words);
    SrcVectorEntry(chunk, words, tags, refs, 0, i);
    assert SrcBlocks(refs)[..0] == [];
  }

  /** In the char-gram block, an entry is true exactly when it is a four-character
      window of the chunk (`WindowSet` holds every window and nothing else). */
  lemma SrcCharEntry(chunk: string, words: seq<string>, tags: seq<string>, refs: SrcRefs, i: nat)
    requires refs.charGrams.Some? && i < |refs.charGrams.value|
    ensures SrcOffset(refs, 1) == Size(refs.words)
    ensures SrcOffset(refs, 1) + i < |SrcVector(chunk, words, tags, refs)|
    ensures SrcVector(chunk, words, tags, refs)[SrcOffset(refs, 1) + i] <==> refs.charGrams.value[i] in WindowSet(chunk, 4)
  {
    var locals := SrcLocals(chunk, words, tags);
    assert locals[1] == WindowSet(chunk, 4);
    SrcVectorEntry(chunk, words, tags, refs, 1, i);
    assert SrcBlocks(refs)[..0] == [];
    WidthStep(SrcBlocks(refs), 0);
  }

  /** The last block tests the "tag four-gram" reference against four-word windows of
      the words. */
  lemma SrcFourgramEntry(chunk: string, words: seq<string>, tags: seq<string>, refs: SrcRefs, i: nat)
    requires refs.tagFourgrams.Some? && i < |refs.tagFourgrams.value|
    ensures SrcOffset(refs, 6) + i < |SrcVector(chunk, words, tags, refs)|
    ensures SrcVector(chunk, words, tags, refs)[SrcOffset(refs, 6) + i]
      <==> refs.tagFourgrams.value[i] in JoinedWindowSet(words, 4)
  {
    var locals := SrcLocals(chunk, words, tags);
    assert locals[6] == JoinedWindowSet(words, 4);
    SrcVectorEntry(chunk, words, tags, refs, 6, i);
  }

  /** The flag selection of `vectorize(chunks, features)`: a vocabulary is passed exactly
      when its letter occurs in `features`; the four-gram vocabulary never is. */
  function SrcSelect(features: string, sets: SrcSets): (refs: SrcRefs)
    ensures refs.words.Some? <==> 'w' in features
    ensures refs.wordBigrams.Some? <==> 'W' in features
    ensures refs.charGrams.Some? <==> 'c' in features
    ensures refs.tags.Some? <==> 'p' in features
    ensures refs.tagBigrams.Some? <==> 'P' in features
    ensures refs.tagTrigrams.Some? <==> 'T' in features
    ensures refs.tagFourgrams.None?
    ensures refs.words.Some? ==> refs.words.value == sets.words
    ensures refs.wordBigrams.Some? ==> refs.wordBigrams.value == sets.wordBigrams
    ensures refs.charGrams.Some? ==> refs.charGrams.value == sets.charGrams
    ensures refs.tags.Some? ==> refs.tags.value == sets.tags
    ensures refs.tagBigrams.Some? ==> refs.tagBigrams.value == sets.tagBigrams
    ensures refs.tagTrigrams.Some? ==> refs.tagTrigrams.value == sets.tagTrigrams
  {
    SrcRefs(
      if 'w' in features then Some(sets.words) else None,
      if 'c' in features then Some(sets.charGrams) else None,
      if 'p' in features then Some(sets.tags) else None,
      if 'P' in features then Some(sets.tagBigrams) else None,
      if 'W' in features then Some(sets.wordBigrams) else None,
      if 'T' in features then Some(sets.tagTrigrams) else None,
      None)
  }

  /** `vectorize(chunks, features)` of src/exp_cluster.py: one vector per chunk, in chunk
      order, each chunk tagged by the tagger. */
  function SrcVectorize(chunks: seq<string>, parse: Tagger, features: string, sets: SrcSets): (vs: seq<seq<bool>>)
    ensures |vs| == |chunks|
    ensures forall k :: 0 <= k < |chunks| ==>
      vs[k] == SrcVector(chunks[k], parse(chunks[k]).0, parse(chunks[k]).1, SrcSelect(features, sets))
  {
    var refs := SrcSelect(features, sets);
    seq(|chunks|, k requires 0 <= k < |chunks| => SrcVector(chunks[k], parse(chunks[k]).0, parse(chunks[k]).1, refs))
  }

  // ---------------------------------------------------------------------------
  // remove_features

  /** The checks `remove_features` makes before variance filtering: `vectors[0]` must
      exist and every row must have its length. The result is the common width. */
  function RowCheck(vectors: seq<seq<bool>>): (r: Result<nat>)
    ensures r.Success? <==> |vectors| > 0 && forall k :: 0 <= k < |vectors| ==> |vectors[k]| == |vectors[0]|
    ensures |vectors| == 0 ==> r == Failure(IndexError)
    ensures |vectors| > 0 && r.Failure? ==> r.error == AssertionFailed
    ensures r.Success? ==> r.value == |vectors[0]|
  {
    if |vectors| == 0 then Failure(IndexError)
    else if forall k :: 0 <= k < |vectors| ==> |vectors[k]| == |vectors[0]| then Success(|vectors[0]|)
    else Failure(AssertionFailed)
  }

  /** Vectors built by `vectorize` always pass the row check when there is a chunk: every
      row has the width of the selected vocabularies. */
  lemma SrcVectorizeRowsAgree(chunks: seq<string>, parse: Tagger, features: string, sets: SrcSets)
    ensures |chunks| > 0 ==> RowCheck(SrcVectorize(chunks, parse, features, sets)).Success?
    ensures |chunks| > 0 ==> (RowCheck(SrcVectorize(chunks, parse, features, sets)).value ==
      (if 'w' in features then |sets.words| else 0) + (if 'c' in features then |sets.charGrams| else 0)
      + (if 'p' in features then |sets.tags| else 0) + (if 'P' in features then |sets.tagBigrams| else 0)
      + (if 'W' in features then |sets.wordBigrams| else 0) + (if 'T' in features then |sets.tagTrigrams| else 0))
    ensures |chunks| == 0 ==> RowCheck(SrcVectorize(chunks, parse, features, sets)) == Failure(IndexError)
  {
  }

  // ---------------------------------------------------------------------------
  // test/exp_cluster.py

  /** The four optional reference dictionaries of test/exp_cluster.py's
      `_parallel_vectorize`, each as its keys in insertion order. */
  datatype TestRefs = TestRefs(
    words: Option<seq<string>>, charGrams: Option<seq<string>>, tags: Option<seq<string>>,
    tagBigrams: Option<seq<string>>)

  function TestBlocks(refs: TestRefs): (r: seq<Option<seq<string>>>)
    ensures |r| == 4
  {
    [refs.words, refs.charGrams, refs.tags, refs.tagBigrams]
  }

  /** The local sets of test/exp_cluster.py: its `_make_ngram` keeps only the windows
      before the last one. The tag-bigram set is only reached when there is no window
      at all, so it is empty. */
  function TestLocals(chunk: string, words: seq<string>, tags: seq<string>): (r: seq<set<string>>)
    ensures |r| == 4
  {
    [Elements(words), ExclusiveWindowSet(chunk, 4), Elements(tags), {}]
  }

  /** `_parallel_vectorize(chunk, words, postags, ...)` of test/exp_cluster.py. The tag
      lists are Python lists, so once `_make_ngram(postags, 2)` has a window to add to
      its set (more than two tags) it raises `TypeError`. */
  function TestVector(chunk: string, words: seq<string>, tags: seq<string>, refs: TestRefs): (r: Result<seq<bool>>)
    ensures r.Failure? <==> refs.tagBigrams.Some? && |tags| > 2
    ensures r.Failure? ==> r.error == TypeError
    ensures r.Success? ==> |r.value| == Size(refs.words) + Size(refs.charGrams) + Size(refs.tags) + Size(refs.tagBigrams)
    ensures r.Success? && refs.tagBigrams.Some? ==>
      forall i :: |r.value| - |refs.tagBigrams.value| <= i < |r.value| ==> !r.value[i]
  {
    if refs.tagBigrams.Some? && |tags| > 2 then Failure(TypeError)
    else
      var blocks := TestBlocks(refs);
      TestWidth(refs);
      var v := Assemble(blocks, TestLocals(chunk, words, tags));
      assert blocks[..3] == [refs.words, refs.charGrams, refs.tags];
      Success(v)
  }

  /** Entry `i` of block `k` of a test/exp_cluster.py vector is true exactly when the
      block's `i`-th reference entry is in the block's local set. */
  lemma TestVectorEntry(chunk: string, words: seq<string>, tags: seq<string>, refs: TestRefs, k: nat, i: nat)
    requires TestVector(chunk, words, tags, refs).Success?
    requires k < 4 && TestBlocks(refs)[k].Some? && i < |TestBlocks(refs)[k].value|
    ensures Width(TestBlocks(refs)[..k]) + i < |TestVector(chunk, words, tags, refs).value|
    ensures TestVector(chunk, words, tags, refs).value[Width(TestBlocks(refs)[..k]) + i]
      <==> TestBlocks(refs)[k].value[i] in TestLocals(chunk, words, tags)[k]
  {
    AssembleEntry(TestBlocks(refs), TestLocals(chunk, words, tags), k, i);
  }

  /** `vectorize(chunks)` of test/exp_cluster.py: only the word and char-gram
      dictionaries are passed, so it never fails and every row has the width of those
      two. */
  function TestVectorize(chunks: seq<string>, parse: Tagger, dicts: TestDicts): (vs: seq<seq<bool>>)
    ensures |vs| == |chunks|
    ensures forall k :: 0 <= k < |chunks| ==> |vs[k]| == |dicts.words.keys| + |dicts.charGrams.keys|
    ensures forall k :: 0 <= k < |chunks| ==>
      Success(vs[k]) == TestVector(chunks[k], parse(chunks[k]).0, parse(chunks[k]).1, TestRefs(Some(dicts.words.keys), Some(dicts.charGrams.keys), None, None))
  {
    var refs := TestRefs(Some(dicts.words.keys), Some(dicts.charGrams.keys), None, None);
    seq(|chunks|, k requires 0 <= k < |chunks| => TestVector(chunks[k], parse(chunks[k]).0, parse(chunks[k]).1, refs).value)
  }
}
