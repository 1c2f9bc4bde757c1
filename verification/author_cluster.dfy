/** `AuthorCluster` of src/authorclustering/authorcluster.py: the word-presence feature
    vector, the vocabulary of most common words that grows with every `cluster` call, and
    the grouping of chunk sentence ids by cluster label. The tagger, the word ranking of
    `nltk.FreqDist.most_common` and `KMeans.fit_predict` are parameters. */
module AuthorCluster {
  import opened Wrappers
  import opened Seqs
  import opened CoreNLP
  import opened MultiAuthorText
  import Vectorizer

  /** `most_common(500)`: at most this many words are added per call. */
  const MostCommonLimit: nat := 500

  /** `generateFeatureVector(chunk)`: one boolean per vocabulary word, whether the word
      is `in` the chunk. A chunk is the list of its sentences, so `in` asks whether the
      word equals one of them. */
  function FeatureVector(vocabulary: seq<string>, chunk: seq<string>): (v: seq<bool>)
    ensures |v| == |vocabulary|
    ensures forall i :: 0 <= i < |v| ==> (v[i] <==> vocabulary[i] in chunk)
  {
    seq(|vocabulary|, i requires 0 <= i < |vocabulary| => vocabulary[i] in chunk)
  }

  /** The feature vector is the presence block of the vocabulary over the chunk's set of
      sentences, as the stylometric vectorizer builds for each reference vocabulary. */
  lemma FeatureVectorIsPresence(vocabulary: seq<string>, chunk: seq<string>)
    ensures FeatureVector(vocabulary, chunk) == Vectorizer.Presence(vocabulary, Elements(chunk))
  {
  }

  /** The `for wordfreqpair in fdist.most_common(500)` loop: the ranked words, cut at 500,
      are appended to the vocabulary. */
  function Accumulate(vocabulary: seq<string>, ranked: seq<string>): (r: seq<string>)
    ensures |vocabulary| <= |r| <= |vocabulary| + MostCommonLimit
    ensures r[..|vocabulary|] == vocabulary
    ensures |ranked| <= MostCommonLimit ==> r[|vocabulary|..] == ranked
  {
    var n := if |ranked| < MostCommonLimit then |ranked| else MostCommonLimit;
    vocabulary + ranked[..n]
  }

  // ---------------------------------------------------------------------------
  // Grouping chunk ids by label

  /** `ret[label]` for a list of `n` slots: negative labels count from the end. */
  function Slot(lbl: int, n: nat): (r: Result<nat>)
    ensures r.Success? <==> -(n as int) <= lbl < n
    ensures r.Success? ==> r.value < n
    ensures 0 <= lbl < n ==> r == Success(lbl)
  {
    if 0 <= lbl < n then Success(lbl)
    else if -(n as int) <= lbl < 0 then Success(n + lbl)
    else Failure(IndexError)
  }

  /** Every label names a slot and has a chunk: the grouping loop raises otherwise. */
  predicate Fits(labels: seq<int>, n: nat, chunks: nat) {
    |labels| <= chunks && forall i :: 0 <= i < |labels| ==> -(n as int) <= labels[i] < n
  }

  lemma FitsInit(labels: seq<int>, n: nat, chunks: nat)
    requires |labels| > 0
    ensures Fits(labels, n, chunks) <==>
      Fits(labels[..|labels| - 1], n, chunks) && -(n as int) <= labels[|labels| - 1] < n && |labels| <= chunks
  {
    var init := labels[..|labels| - 1];
    assert forall i :: 0 <= i < |init| ==> init[i] == labels[i];
  }

  /** The number of slots of `[[]] * numClusters`. */
  function SlotCount(numClusters: int): nat {
    if numClusters > 0 then numClusters else 0
  }

  /** The one list every slot of `[[]] * numClusters` refers to, after the loop's
      `ret[label] += chunkIds[i]`. */
  function Shared(n: nat, labels: seq<int>, chunkIds: seq<seq<nat>>): (r: Result<seq<nat>>)
    ensures r.Success? <==> Fits(labels, n, |chunkIds|)
    ensures r.Success? ==> r.value == Flatten(chunkIds[..|labels|])
    decreases |labels|
  {
    if |labels| == 0 then Success([])
    else
      var k := |labels| - 1;
      FitsInit(labels, n, |chunkIds|);
      var prev :- Shared(n, labels[..k], chunkIds);
      var slot :- Slot(labels[k], n);
      var ids :- PyIndex(chunkIds, k);
      assert chunkIds[..k + 1] == chunkIds[..k] + [ids];
      FlattenSnoc(chunkIds[..k], ids);
      Success(prev + ids)
  }

  /** The grouping in `cluster` as written: `[[]] * numClusters` repeats one list, so
      every slot ends up holding every chunk's ids, whatever the labels. */
  function GroupAliased(numClusters: int, labels: seq<int>, chunkIds: seq<seq<nat>>): (r: Result<seq<seq<nat>>>)
    ensures r.Success? <==> Fits(labels, SlotCount(numClusters), |chunkIds|)
    ensures r.Success? ==> |r.value| == SlotCount(numClusters)
    ensures r.Success? ==> forall j :: 0 <= j < |r.value| ==> r.value[j] == Flatten(chunkIds[..|labels|])
  {
    var n := SlotCount(numClusters);
    var shared :- Shared(n, labels, chunkIds);
    Success(seq(n, j => shared))
  }

  /** The grouping the docstring describes, with one list per slot. */
  function Groups(n: nat, labels: seq<int>, chunkIds: seq<seq<nat>>): (r: Result<seq<seq<nat>>>)
    ensures r.Success? <==> Fits(labels, n, |chunkIds|)
    ensures r.Success? ==> |r.value| == n
    decreases |labels|
  {
    if |labels| == 0 then Success(NoIds(n))
    else
      var k := |labels| - 1;
      FitsInit(labels, n, |chunkIds|);
      var prev :- Groups(n, labels[..k], chunkIds);
      var slot :- Slot(labels[k], n);
      var ids :- PyIndex(chunkIds, k);
      Success(prev[slot := prev[slot] + ids])
  }

  function GroupByLabel(numClusters: int, labels: seq<int>, chunkIds: seq<seq<nat>>): (r: Result<seq<seq<nat>>>)
    ensures r.Success? <==> Fits(labels, SlotCount(numClusters), |chunkIds|)
    ensures r.Success? ==> |r.value| == SlotCount(numClusters)
  {
    Groups(SlotCount(numClusters), labels, chunkIds)
  }

  /** The id lists of the chunks whose label names slot `j`, in chunk order. */
  function Picked(n: nat, labels: seq<int>, chunkIds: seq<seq<nat>>, j: nat): (r: seq<seq<nat>>)
    requires Fits(labels, n, |chunkIds|)
    decreases |labels|
  {
    if |labels| == 0 then []
    else
      var k := |labels| - 1;
      FitsInit(labels, n, |chunkIds|);
      var prev := Picked(n, labels[..k], chunkIds, j);
      if Slot(labels[k], n) == Success(j) then prev + [chunkIds[k]] else prev
  }

  /** Slot `j` holds exactly the ids of the chunks labelled `j`, in chunk order. */
  lemma {:induction false} GroupsPick(n: nat, labels: seq<int>, chunkIds: seq<seq<nat>>, j: nat)
    requires Fits(labels, n, |chunkIds|) && j < n
    ensures Groups(n, labels, chunkIds).Success?
    ensures Groups(n, labels, chunkIds).value[j] == Flatten(Picked(n, labels, chunkIds, j))
    decreases |labels|
  {
    if |labels| > 0 {
      var k := |labels| - 1;
      FitsInit(labels, n, |chunkIds|);
      GroupsPick(n, labels[..k], chunkIds, j);
      var prev := Groups(n, labels[..k], chunkIds).value;
      var slot := Slot(labels[k], n).value;
      var g := Groups(n, labels, chunkIds).value;
      assert g == prev[slot := prev[slot] + chunkIds[k]];
      var p := Picked(n, labels[..k], chunkIds, j);
      if slot == j {
        FlattenSnoc(p, chunkIds[k]);
      }
    }
  }

  /** Flattening after appending `x` to one slot gains exactly the elements of `x`. */
  lemma {:induction false} FlattenUpdate(g: seq<seq<nat>>, s: nat, x: seq<nat>)
    requires s < |g|
    ensures multiset(Flatten(g[s := g[s] + x])) == multiset(Flatten(g)) + multiset(x)
    decreases |g|
  {
    var k := |g| - 1;
    var g' := g[s := g[s] + x];
    assert g == g[..k] + [g[k]];
    assert g' == g'[..k] + [g'[k]];
    FlattenSnoc(g[..k], g[k]);
    FlattenSnoc(g'[..k], g'[k]);
    if s < k {
      assert g'[..k] == g[..k][s := g[s] + x];
      FlattenUpdate(g[..k], s, x);
    } else {
      assert g'[..k] == g[..k];
    }
  }

  /** Every chunk's ids land in one slot or another, and nothing else does. */
  lemma {:induction false} GroupsPartition(n: nat, labels: seq<int>, chunkIds: seq<seq<nat>>)
    requires Fits(labels, n, |chunkIds|)
    ensures Groups(n, labels, chunkIds).Success?
    ensures multiset(Flatten(Groups(n, labels, chunkIds).value)) == multiset(Flatten(chunkIds[..|labels|]))
    decreases |labels|
  {
    var g := Groups(n, labels, chunkIds).value;
    if |labels| == 0 {
      EmptySlots(n);
    } else {
      var k := |labels| - 1;
      FitsInit(labels, n, |chunkIds|);
      GroupsPartition(n, labels[..k], chunkIds);
      var prev := Groups(n, labels[..k], chunkIds).value;
      var slot := Slot(labels[k], n).value;
      assert g == prev[slot := prev[slot] + chunkIds[k]];
      FlattenUpdate(prev, slot, chunkIds[k]);
      assert chunkIds[..k + 1] == chunkIds[..k] + [chunkIds[k]];
      FlattenSnoc(chunkIds[..k], chunkIds[k]);
    }
  }

  /** `n` empty slots. */
  function NoIds(n: nat): (r: seq<seq<nat>>)
    ensures |r| == n
  {
    seq(n, j => [])
  }

  lemma {:induction false} EmptySlots(n: nat)
    ensures Flatten(NoIds(n)) == []
    decreases n
  {
    if n > 0 {
      assert NoIds(n)[..n - 1] == NoIds(n - 1);
      EmptySlots(n - 1);
    }
  }

  /** With a single cluster the aliasing is invisible: both groupings agree. */
  lemma OneClusterAgrees(labels: seq<int>, chunkIds: seq<seq<nat>>)
    requires Fits(labels, 1, |chunkIds|)
    ensures GroupAliased(1, labels, chunkIds) == GroupByLabel(1, labels, chunkIds)
  {
    GroupsPick(1, labels, chunkIds, 0);
    PickedAll(labels, chunkIds);
    var a := GroupAliased(1, labels, chunkIds).value;
    var b := GroupByLabel(1, labels, chunkIds).value;
    assert a[0] == b[0];
    assert a == b;
  }

  lemma {:induction false} PickedAll(labels: seq<int>, chunkIds: seq<seq<nat>>)
    requires Fits(labels, 1, |chunkIds|)
    ensures Picked(1, labels, chunkIds, 0) == chunkIds[..|labels|]
    decreases |labels|
  {
    if |labels| > 0 {
      var k := |labels| - 1;
      FitsInit(labels, 1, |chunkIds|);
      PickedAll(labels[..k], chunkIds);
      assert chunkIds[..k + 1] == chunkIds[..k] + [chunkIds[k]];
    }
  }

  /** Appending one more label puts the next chunk's ids into that label's slot. */
  lemma GroupsSnoc(n: nat, labels: seq<int>, chunkIds: seq<seq<nat>>, slot: nat)
    requires |labels| > 0 && Fits(labels, n, |chunkIds|)
    requires Slot(labels[|labels| - 1], n) == Success(slot)
    ensures Groups(n, labels[..|labels| - 1], chunkIds).Success?
    ensures var prev := Groups(n, labels[..|labels| - 1], chunkIds).value;
      Groups(n, labels, chunkIds) == Success(prev[slot := prev[slot] + chunkIds[|labels| - 1]])
  {
    FitsInit(labels, n, |chunkIds|);
  }

  lemma FlattenPair(a: seq<nat>, b: seq<nat>)
    ensures Flatten([a, b]) == a + b
  {
    assert [a, b][..1] == [a];
    assert [a][..0] == [];
    assert Flatten([a]) == Flatten([]) + a;
    assert Flatten([a, b]) == Flatten([a]) + b;
  }

  /** Two chunks labelled 0 and 1: as written both slots hold both chunks' ids. */
  lemma AliasedSlotsShareIds()
    ensures GroupAliased(2, [0, 1], [[0], [1]]) == Success([[0, 1], [0, 1]])
  {
    var ids: seq<seq<nat>> := [[0], [1]];
    var labels: seq<int> := [0, 1];
    assert Fits(labels, 2, 2);
    assert ids[..2] == ids;
    FlattenPair([0], [1]);
    var a := GroupAliased(2, labels, ids).value;
    assert |a| == 2 && a[0] == [0, 1] && a[1] == [0, 1];
    assert a == [[0, 1], [0, 1]];
  }

  /** The same two chunks grouped by label: each slot holds its own chunk's ids. */
  lemma GroupedSlotsSeparate()
    ensures GroupByLabel(2, [0, 1], [[0], [1]]) == Success([[0], [1]])
  {
    var ids: seq<seq<nat>> := [[0], [1]];
    var labels: seq<int> := [0, 1];
    assert Fits(labels, 2, 2);
    assert labels[..1] == [0];
    assert [0][..0] == [];
    GroupsSnoc(2, labels, ids, 1);
    assert Fits([0], 2, 2);
    GroupsSnoc(2, [0], ids, 0);
    var g0 := NoIds(2);
    assert Groups(2, [], ids) == Success(g0);
    assert g0[0] == [] && g0[1] == [];
    var g1 := g0[0 := [0]];
    assert Groups(2, [0], ids) == Success(g0[0 := g0[0] + ids[0]]);
    assert g0[0] + ids[0] == [0];
    assert Groups(2, [0], ids) == Success(g1);
    assert g1[1] + ids[1] == [1];
    var g2 := g1[1 := [1]];
    assert Groups(2, labels, ids) == Success(g2);
    assert g2 == [[0], [1]];
  }

  // ---------------------------------------------------------------------------
  // `cluster`

  /** `KMeans(...).fit_predict(vectors)`: one label per vector, or the exception the
      clusterer raises (scikit-learn raises `ValueError` for no samples, for fewer
      samples than clusters and for fewer than one cluster). */
  type Labeller = seq<seq<bool>> -> Result<seq<int>>

  /** `cluster` as written, with `fixed_length_chunk` as the code has it: that call
      succeeds only on a text without sentences, returning two empty lists, so the
      clusterer is asked to label no vectors and the grouping loop indexes an empty id
      list. */
  function ClusterAsWritten(vocabulary: seq<string>, t: Text, chunkSize: int, numClusters: int,
                            server: Server, rank: seq<string> -> seq<string>,
                            kmeans: Labeller): (r: (seq<string>, Result<seq<seq<nat>>>))
    ensures |vocabulary| <= |r.0| <= |vocabulary| + MostCommonLimit
    ensures r.0[..|vocabulary|] == vocabulary
    ensures chunkSize <= 0 ==> r.1.Failure?
    ensures r.1.Success? ==> |t.sentences| == 0 && kmeans([]) == Success([])
  {
    var words := TokenizedByWord(t, server);
    if words.Failure? then (vocabulary, Failure(words.error))
    else
      var vocab := Accumulate(vocabulary, rank(words.value));
      var chunking := FixedLengthChunk(t, chunkSize);
      if chunking.Failure? then (vocab, Failure(chunking.error))
      else
        var labels := kmeans([]);
        if labels.Failure? then (vocab, Failure(labels.error))
        else
          (vocab, GroupAliased(numClusters, labels.value, []))
  }

  /** With no chunk ids the grouping loop succeeds only when there is no label, and
      then both groupings give empty slots; otherwise both raise the same error at the
      first label. */
  lemma {:induction false} NoChunkGroups(n: nat, labels: seq<int>)
    ensures Groups(n, labels, []) == (if |labels| == 0 then Success(NoIds(n)) else Failure(GroupFailure(n, labels[0])))
    ensures Shared(n, labels, []) == (if |labels| == 0 then Success([]) else Failure(GroupFailure(n, labels[0])))
    decreases |labels|
  {
    if |labels| > 0 {
      var k := |labels| - 1;
      NoChunkGroups(n, labels[..k]);
      if k > 0 {
        assert labels[..k][0] == labels[0];
      }
    }
  }

  /** The error the grouping loop raises at its first label when there are no ids. */
  function GroupFailure(n: nat, lbl: int): Error {
    if Slot(lbl, n).Failure? then Slot(lbl, n).error else IndexError
  }

  /** As written, `cluster` raises `TypeError` on every text with a sentence once the
      tokenizer answers and the size is positive. */
  lemma ClusterAsWrittenFails(vocabulary: seq<string>, t: Text, chunkSize: int, numClusters: int,
                              server: Server, rank: seq<string> -> seq<string>,
                              kmeans: Labeller)
    requires |t.sentences| > 0 && chunkSize > 0 && TokenizedByWord(t, server).Success?
    ensures ClusterAsWritten(vocabulary, t, chunkSize, numClusters, server, rank, kmeans).1 == Failure(TypeError)
  {
  }

  /** On a text without sentences the written and the corrected `cluster` behave
      identically, whatever the clusterer does with no vectors. */
  lemma ClusterAsWrittenAgreesOnEmptyText(vocabulary: seq<string>, t: Text, chunkSize: int, numClusters: int,
                                          server: Server, rank: seq<string> -> seq<string>,
                                          kmeans: Labeller)
    requires |t.sentences| == 0
    ensures ClusterAsWritten(vocabulary, t, chunkSize, numClusters, server, rank, kmeans)
         == Cluster(vocabulary, t, chunkSize, numClusters, server, rank, kmeans)
  {
    if chunkSize > 0 && TokenizedByWord(t, server).Success? {
      var vocab := Accumulate(vocabulary, rank(TokenizedByWord(t, server).value));
      var (ids, chunks) := IntendedChunk(t, chunkSize).value;
      IntendedChunkPartition(t, chunkSize);
      assert |ids| == 0;
      var vectors := seq(|chunks|, i requires 0 <= i < |chunks| => FeatureVector(vocab, chunks[i]));
      assert vectors == [];
      if kmeans([]).Success? {
        NoChunkGroups(SlotCount(numClusters), kmeans([]).value);
      }
    }
  }

  /** One `cluster` call: the ranked words of the text extend the vocabulary (and stay
      there even when a later step raises), the text is cut into chunks, each chunk
      becomes a feature vector, and the chunks' sentence ids are grouped by label. */
  function Cluster(vocabulary: seq<string>, t: Text, chunkSize: int, numClusters: int,
                   server: Server, rank: seq<string> -> seq<string>,
                   kmeans: Labeller): (r: (seq<string>, Result<seq<seq<nat>>>))
    ensures |vocabulary| <= |r.0| <= |vocabulary| + MostCommonLimit
    ensures r.0[..|vocabulary|] == vocabulary
    ensures chunkSize <= 0 ==> r.1.Failure?
    ensures r.1.Success? ==> |r.1.value| == SlotCount(numClusters)
  {
    var words := TokenizedByWord(t, server);
    if words.Failure? then (vocabulary, Failure(words.error))
    else
      var vocab := Accumulate(vocabulary, rank(words.value));
      var chunking := IntendedChunk(t, chunkSize);
      if chunking.Failure? then (vocab, Failure(chunking.error))
      else
        var (ids, chunks) := chunking.value;
        var vectors := seq(|chunks|, i requires 0 <= i < |chunks| => FeatureVector(vocab, chunks[i]));
        var labels := kmeans(vectors);
        if labels.Failure? then (vocab, Failure(labels.error))
        else (vocab, GroupByLabel(numClusters, labels.value, ids))
  }

  /** When the clusterer gives one label per chunk, a successful `cluster` puts every
      sentence id of the text into exactly one cluster. */
  lemma ClusterPartition(vocabulary: seq<string>, t: Text, chunkSize: int, numClusters: int,
                         server: Server, rank: seq<string> -> seq<string>,
                         kmeans: Labeller)
    requires forall vs :: kmeans(vs).Success? ==> |kmeans(vs).value| == |vs|
    requires Cluster(vocabulary, t, chunkSize, numClusters, server, rank, kmeans).1.Success?
    ensures multiset(Flatten(Cluster(vocabulary, t, chunkSize, numClusters, server, rank, kmeans).1.value))
         == multiset(Range(0, |t.sentences|))
  {
    var words := TokenizedByWord(t, server);
    var vocab := Accumulate(vocabulary, rank(words.value));
    var (ids, chunks) := IntendedChunk(t, chunkSize).value;
    var vectors := seq(|chunks|, i requires 0 <= i < |chunks| => FeatureVector(vocab, chunks[i]));
    var labels := kmeans(vectors).value;
    var n := SlotCount(numClusters);
    GroupsPartition(n, labels, ids);
    assert ids[..|labels|] == ids;
    IntendedChunkPartition(t, chunkSize);
  }
}
