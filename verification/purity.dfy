/** Cluster purity: `Evaluation.purity` of src/exp_cluster.py and test/exp_cluster.py
    (the same computation; only the report text differs) and
    `ClusterEvaluator.evaluatePurity` of src/authorclustering/clusterEvaluator.py.
    Purity is computed with exact rationals instead of floating point. */
/** The `clusters` dict of `Evaluation.purity`: the chunk majorities grouped by label. */
module Grouping {
  import opened Seqs

  /** `clusters[key]`: the majorities of the chunks labelled `key`, in chunk order. */
  function Members(labels: seq<int>, majors: seq<string>, key: int): (r: seq<string>)
    requires |labels| <= |majors|
    ensures |r| <= |labels|
    ensures |r| > 0 <==> key in labels
    decreases |labels|
  {
    if |labels| == 0 then []
    else
      var n := |labels| - 1;
      assert labels == labels[..n] + [labels[n]];
      Members(labels[..n], majors, key) + (if labels[n] == key then [majors[n]] else [])
  }

  /** A cluster has one member per occurrence of its label. */
  lemma {:induction false} MembersCount(labels: seq<int>, majors: seq<string>, key: int)
    requires |labels| <= |majors|
    ensures |Members(labels, majors, key)| == multiset(labels)[key]
    decreases |labels|
  {
    if |labels| > 0 {
      var n := |labels| - 1;
      MembersCount(labels[..n], majors, key);
      assert labels == labels[..n] + [labels[n]];
    }
  }

  /** Every chunk's majority lands in the cluster of its label, and a cluster holds only
      majorities of chunks carrying its label. */
  lemma {:induction false} MembersSpec(labels: seq<int>, majors: seq<string>, key: int)
    requires |labels| <= |majors|
    ensures forall i :: 0 <= i < |labels| && labels[i] == key ==> majors[i] in Members(labels, majors, key)
    ensures forall x :: x in Members(labels, majors, key) ==> exists i :: 0 <= i < |labels| && labels[i] == key && majors[i] == x
    decreases |labels|
  {
    if |labels| > 0 {
      var n := |labels| - 1;
      var init := labels[..n];
      MembersSpec(init, majors, key);
      var r := Members(labels, majors, key);
      assert r == Members(init, majors, key) + (if labels[n] == key then [majors[n]] else []);
      forall i | 0 <= i < |labels| && labels[i] == key
        ensures majors[i] in r
      {
        if i < n {
          assert init[i] == labels[i];
        }
      }
      forall x | x in r
        ensures exists i :: 0 <= i < |labels| && labels[i] == key && majors[i] == x
      {
        if x in Members(init, majors, key) {
          var i :| 0 <= i < |init| && init[i] == key && majors[i] == x;
          assert labels[i] == key;
        } else {
          assert labels[n] == key && majors[n] == x;
        }
      }
    }
  }
}

module Purity {
  import opened Wrappers
  import opened Seqs
  import opened Tally
  import opened SentenceChunker
  import opened Arith
  import opened Grouping

  // ---------------------------------------------------------------------------
  // Evaluation.purity

  /** `Counter(chunk['author']).most_common(1)[0][0]` for every chunk: a chunk without
      authors has no most common author and the lookup `[0]` raises `IndexError`. */
  function ChunkMajorities(chunks: seq<Chunk>): (r: Result<seq<string>>)
    ensures r.Success? <==> forall k :: 0 <= k < |chunks| ==> |chunks[k].authors| > 0
    ensures r.Failure? ==> r.error == IndexError
    ensures r.Success? ==> |r.value| == |chunks|
    ensures r.Success? ==> forall k :: 0 <= k < |chunks| ==> IsFirstMajority(chunks[k].authors, r.value[k])
  {
    if forall k :: 0 <= k < |chunks| ==> |chunks[k].authors| > 0 then
      Success(seq(|chunks|, k requires 0 <= k < |chunks| => Majority(chunks[k].authors).0))
    else Failure(IndexError)
  }

  /** Cluster sizes, keyed by label. */
  function SizeMap(labels: seq<int>, majors: seq<string>): (m: map<int, nat>)
    requires |labels| <= |majors|
  {
    map k | k in labels :: |Members(labels, majors, k)|
  }

  /** `Counter(members).most_common(1)[0][1]`: how often the majority author occurs. */
  function MajorityCount(members: seq<string>): (c: nat)
    requires |members| > 0
    ensures 1 <= c <= |members|
    ensures c == |members| <==> AllSame(members)
  {
    MajorityCountBounds(members);
    Majority(members).1
  }

  /** The majority count of each cluster, keyed by label. */
  function MajorityMap(labels: seq<int>, majors: seq<string>): (m: map<int, nat>)
    requires |labels| <= |majors|
    ensures forall k :: k in labels ==> k in m && 1 <= m[k] <= |Members(labels, majors, k)|
  {
    map k | k in labels :: MajorityCount(Members(labels, majors, k))
  }

  /** `sum_majority`: the majority counts added over the clusters, in first-label order. */
  function SumMajority(labels: seq<int>, majors: seq<string>): nat
    requires |labels| <= |majors|
  {
    Total(Distinct(labels), MajorityMap(labels, majors))
  }

  /** The cluster sizes add up to the number of labels: the clusters partition them. */
  lemma ClusterSizesTotal(labels: seq<int>, majors: seq<string>)
    requires |labels| <= |majors|
    ensures Total(Distinct(labels), SizeMap(labels, majors)) == |labels|
  {
    var c := CountTokens(labels);
    DistinctIsKeys(labels);
    forall i | 0 <= i < |c.keys|
      ensures SizeMap(labels, majors)[c.keys[i]] == c.count[c.keys[i]]
    {
      MembersCount(labels, majors, c.keys[i]);
    }
    TotalFrame(c.keys, SizeMap(labels, majors), c.count);
    CountTotal(labels);
  }

  /** `Evaluation.purity(labels, chunks)`: the overall purity, the summed cluster majority
      counts over the number of labels. It raises `IndexError` for a chunk without
      authors or for more labels than chunks, and divides by zero without labels. */
  function EvaluationPurity(labels: seq<int>, chunks: seq<Chunk>): (r: Result<real>)
    ensures r.Success? <==> ChunkMajorities(chunks).Success? && 0 < |labels| <= |chunks|
    ensures r.Failure? ==> (r.error == IndexError) == (ChunkMajorities(chunks).Failure? || |labels| > |chunks|)
    ensures r.Failure? ==> r.error == IndexError || r.error == ZeroDivision
    ensures r.Success? ==> r.value == SumMajority(labels, ChunkMajorities(chunks).value) as real / |labels| as real
  {
    var majors := ChunkMajorities(chunks);
    if majors.Failure? then Failure(majors.error)
    else if |labels| > |majors.value| then Failure(IndexError)
    else OverallPurity(labels, majors.value)
  }

  /** `total_purity = (1 / len(labels)) * sum_majority`, once every label has a chunk;
      over the rationals this is the share `sum_majority / len(labels)`. */
  function OverallPurity(labels: seq<int>, majors: seq<string>): (r: Result<real>)
    requires |labels| <= |majors|
    ensures r.Failure? <==> |labels| == 0
    ensures r.Failure? ==> r.error == ZeroDivision
  {
    if |labels| == 0 then Failure(ZeroDivision)
    else Success(SumMajority(labels, majors) as real / |labels| as real)
  }

  /** Cluster by cluster, the majority count is at least one and at most the size. */
  lemma MajorityWithinSize(labels: seq<int>, majors: seq<string>,
                           keys: seq<int>, maj: map<int, nat>, sizes: map<int, nat>)
    requires |labels| <= |majors|
    requires keys == Distinct(labels) && maj == MajorityMap(labels, majors) && sizes == SizeMap(labels, majors)
    ensures forall i :: 0 <= i < |keys| ==> keys[i] in maj && keys[i] in sizes && 1 <= maj[keys[i]] <= sizes[keys[i]]
  {
    assert forall i :: 0 <= i < |keys| ==> keys[i] in labels;
  }

  lemma KeysOfMajorityMap(labels: seq<int>, majors: seq<string>)
    requires |labels| <= |majors|
    ensures forall i :: 0 <= i < |Distinct(labels)| ==> Distinct(labels)[i] in MajorityMap(labels, majors)
  {
    var keys := Distinct(labels);
    assert forall i :: 0 <= i < |keys| ==> keys[i] in labels;
  }

  /** The majority counts add up to at most the number of labels. */
  lemma MajorityTotalBelow(labels: seq<int>, majors: seq<string>)
    requires |labels| <= |majors|
    ensures Total(Distinct(labels), MajorityMap(labels, majors)) <= |labels|
  {
    var keys := Distinct(labels);
    MajorityWithinSize(labels, majors, keys, MajorityMap(labels, majors), SizeMap(labels, majors));
    ClusterSizesTotal(labels, majors);
    TotalMono(keys, MajorityMap(labels, majors), SizeMap(labels, majors));
  }

  /** With clusters of one author each, the majority counts add up to the number of labels. */
  lemma MajorityTotalOfPure(labels: seq<int>, majors: seq<string>)
    requires |labels| <= |majors|
    requires forall k :: k in labels ==> AllSame(Members(labels, majors, k))
    ensures Total(Distinct(labels), MajorityMap(labels, majors)) == |labels|
  {
    var keys := Distinct(labels);
    var sizes := SizeMap(labels, majors);
    var maj := MajorityMap(labels, majors);
    MajorityWithinSize(labels, majors, keys, maj, sizes);
    ClusterSizesTotal(labels, majors);
    forall i | 0 <= i < |keys|
      ensures maj[keys[i]] == sizes[keys[i]]
    {
      MajorityCountBounds(Members(labels, majors, keys[i]));
    }
    TotalFrame(keys, maj, sizes);
  }

  /** When the majority counts add up to the number of labels, every cluster has one author. */
  lemma PureOfMajorityTotal(labels: seq<int>, majors: seq<string>, k: int)
    requires |labels| <= |majors|
    requires Total(Distinct(labels), MajorityMap(labels, majors)) == |labels|
    requires k in labels
    ensures AllSame(Members(labels, majors, k))
  {
    var keys := Distinct(labels);
    var sizes := SizeMap(labels, majors);
    var maj := MajorityMap(labels, majors);
    MajorityWithinSize(labels, majors, keys, maj, sizes);
    ClusterSizesTotal(labels, majors);
    TotalMono(keys, maj, sizes);
    var i := FirstIndex(keys, labels[FirstIndex(labels, k)]);
    assert maj[keys[i]] == sizes[keys[i]];
  }

  /** With at least one label, the majority counts add up to at least one. */
  lemma MajorityTotalPositive(labels: seq<int>, majors: seq<string>)
    requires 0 < |labels| <= |majors|
    ensures 1 <= Total(Distinct(labels), MajorityMap(labels, majors))
  {
    var keys := Distinct(labels);
    var maj := MajorityMap(labels, majors);
    KeysOfMajorityMap(labels, majors);
    var i := FirstIndex(keys, labels[0]);
    TotalAtLeast(keys, maj, i);
  }

  /** The summed majority counts lie between 1 and the number of labels, and reach it
      exactly when every cluster holds a single author. */
  lemma SumMajorityBounds(labels: seq<int>, majors: seq<string>)
    requires 0 < |labels| <= |majors|
    ensures 1 <= SumMajority(labels, majors) <= |labels|
    ensures SumMajority(labels, majors) == |labels| <==> forall k :: k in labels ==> AllSame(Members(labels, majors, k))
  {
    MajorityTotalBelow(labels, majors);
    MajorityTotalPositive(labels, majors);
    if forall k :: k in labels ==> AllSame(Members(labels, majors, k)) {
      MajorityTotalOfPure(labels, majors);
    } else if SumMajority(labels, majors) == |labels| {
      var k :| k in labels && !AllSame(Members(labels, majors, k));
      PureOfMajorityTotal(labels, majors, k);
    }
  }

  /** Overall purity lies in (0, 1], and it is 1 exactly when every cluster's chunk
      majorities name a single author. */
  lemma EvaluationPurityRange(labels: seq<int>, chunks: seq<Chunk>, p: real)
    requires EvaluationPurity(labels, chunks) == Success(p)
    ensures 0.0 < p <= 1.0
    ensures p == 1.0 <==> forall k :: k in labels ==> AllSame(Members(labels, ChunkMajorities(chunks).value, k))
  {
    var majors := ChunkMajorities(chunks).value;
    var n := |labels|;
    var s := SumMajority(labels, majors);
    SumMajorityBounds(labels, majors);
    ShareRange(s, n);
  }

  /** One line of the per-cluster report: the cluster's majority author and its purity
      `sub_purity / len(clusters[key])`. */
  function ClusterFigure(members: seq<string>): (r: (string, real))
    requires |members| > 0
    ensures IsFirstMajority(members, r.0)
    ensures 0.0 < r.1 <= 1.0
    ensures r.1 == 1.0 <==> AllSame(members)
    ensures r.1 == multiset(members)[r.0] as real / |members| as real
  {
    var (author, count) := Majority(members);
    MajorityCountBounds(members);
    ShareRange(count, |members|);
    (author, count as real / |members| as real)
  }

  /** The per-cluster figures of the report, one per label in first-label order. */
  function ClusterReport(labels: seq<int>, majors: seq<string>): (r: seq<(int, string, real)>)
    requires |labels| <= |majors|
    ensures |r| == |Distinct(labels)|
    ensures forall i :: 0 <= i < |r| ==> r[i].0 == Distinct(labels)[i]
    ensures forall i :: 0 <= i < |r| ==> IsFirstMajority(Members(labels, majors, r[i].0), r[i].1)
    ensures forall i :: 0 <= i < |r| ==> 0.0 < r[i].2 <= 1.0
    ensures forall i :: 0 <= i < |r| ==>
      && |Members(labels, majors, r[i].0)| > 0
      && r[i].2 == multiset(Members(labels, majors, r[i].0))[r[i].1] as real / |Members(labels, majors, r[i].0)| as real
  {
    var keys := Distinct(labels);
    seq(|keys|, i requires 0 <= i < |keys| =>
      assert keys[i] in labels;
      var f := ClusterFigure(Members(labels, majors, keys[i]));
      (keys[i], f.0, f.1))
  }

  // ---------------------------------------------------------------------------
  // ClusterEvaluator.evaluatePurity

  /** `text.getAuthorIndexForSentence(sent)` for every sentence index of a cluster:
      `AuthorIds[sent]`, with Python's negative indexing and `IndexError`. */
  function AuthorIndices(cluster: seq<int>, authorIds: seq<nat>): (r: Result<seq<nat>>)
    ensures r.Success? <==> forall j :: 0 <= j < |cluster| ==> -|authorIds| <= cluster[j] < |authorIds|
    ensures r.Failure? ==> r.error == IndexError
    ensures r.Success? ==> |r.value| == |cluster|
    ensures r.Success? ==> forall j :: 0 <= j < |cluster| ==> PyIndex(authorIds, cluster[j]) == Success(r.value[j])
    decreases |cluster|
  {
    if |cluster| == 0 then Success([])
    else
      var init :- AuthorIndices(cluster[..|cluster| - 1], authorIds);
      var last :- PyIndex(authorIds, cluster[|cluster| - 1]);
      Success(init + [last])
  }

  /** The first loop of `evaluatePurity`: the author indices of every cluster. */
  function ClusterAuthorIndices(clusters: seq<seq<int>>, authorIds: seq<nat>): (r: Result<seq<seq<nat>>>)
    ensures r.Success? <==> forall k :: 0 <= k < |clusters| ==> AuthorIndices(clusters[k], authorIds).Success?
    ensures r.Failure? ==> r.error == IndexError
    ensures r.Success? ==> |r.value| == |clusters|
    ensures r.Success? ==> forall k :: 0 <= k < |clusters| ==> AuthorIndices(clusters[k], authorIds) == Success(r.value[k])
    decreases |clusters|
  {
    if |clusters| == 0 then Success([])
    else
      var init :- ClusterAuthorIndices(clusters[..|clusters| - 1], authorIds);
      var last :- AuthorIndices(clusters[|clusters| - 1], authorIds);
      Success(init + [last])
  }

  /** One iteration of the second loop: `max` over the class counts (the first maximum),
      and its count over `sum(class_counts.values())`. `max` of an empty dict raises
      `ValueError`. */
  function ClassPurity(xs: seq<nat>): (r: Result<(nat, real)>)
    ensures r.Failure? <==> |xs| == 0
    ensures r.Failure? ==> r.error == ValueError
    ensures r.Success? ==> IsFirstMajority(xs, r.value.0)
  {
    if |xs| == 0 then Failure(ValueError)
    else
      var c := CountTokens(xs);
      var (author, count) := Majority(xs);
      Success((author, count as real / Total(c.keys, c.count) as real))
  }

  /** A cluster's purity is the share of its majority author, in (0, 1], and it is 1
      exactly when the cluster has a single author. */
  lemma ClassPurityRange(xs: seq<nat>)
    requires |xs| > 0
    ensures ClassPurity(xs).value.1 == multiset(xs)[ClassPurity(xs).value.0] as real / |xs| as real
    ensures 0.0 < ClassPurity(xs).value.1 <= 1.0
    ensures ClassPurity(xs).value.1 == 1.0 <==> AllSame(xs)
  {
    var c := CountTokens(xs);
    CountTotal(xs);
    MajorityCountBounds(xs);
    var m := Majority(xs);
    assert ClassPurity(xs).value == (m.0, m.1 as real / |xs| as real);
    ShareRange(m.1, |xs|);
  }

  /** `evaluatePurity(clusters, text)`: the majority author index and the purity of every
      cluster, in cluster order. Any out-of-range sentence index raises `IndexError`
      first; otherwise an empty cluster raises `ValueError`. */
  function EvaluatePurity(clusters: seq<seq<int>>, authorIds: seq<nat>): (r: Result<(seq<nat>, seq<real>)>)
    ensures r.Success? <==> ClusterAuthorIndices(clusters, authorIds).Success? && forall k :: 0 <= k < |clusters| ==> |clusters[k]| > 0
    ensures ClusterAuthorIndices(clusters, authorIds).Failure? ==> r == Failure(IndexError)
    ensures ClusterAuthorIndices(clusters, authorIds).Success? && r.Failure? ==> r.error == ValueError
    ensures r.Success? ==> |r.value.0| == |clusters| && |r.value.1| == |clusters|
    ensures r.Success? ==> forall k :: 0 <= k < |clusters| ==>
      ClassPurity(ClusterAuthorIndices(clusters, authorIds).value[k]) == Success((r.value.0[k], r.value.1[k]))
  {
    var indices :- ClusterAuthorIndices(clusters, authorIds);
    ClassPurities(indices)
  }

  /** The second loop of `evaluatePurity`, over the author indices of every cluster. */
  function ClassPurities(indices: seq<seq<nat>>): (r: Result<(seq<nat>, seq<real>)>)
    ensures r.Success? <==> forall k :: 0 <= k < |indices| ==> |indices[k]| > 0
    ensures r.Failure? ==> r.error == ValueError
    ensures r.Success? ==> |r.value.0| == |indices| && |r.value.1| == |indices|
    ensures r.Success? ==> forall k :: 0 <= k < |indices| ==> ClassPurity(indices[k]) == Success((r.value.0[k], r.value.1[k]))
  {
    if forall k :: 0 <= k < |indices| ==> |indices[k]| > 0 then
      Success((seq(|indices|, k requires 0 <= k < |indices| => ClassPurity(indices[k]).value.0),
               seq(|indices|, k requires 0 <= k < |indices| => ClassPurity(indices[k]).value.1)))
    else Failure(ValueError)
  }

  /** Every purity `evaluatePurity` reports lies in (0, 1] and is 1 exactly for a
      single-author cluster. */
  lemma EvaluatePurityRange(clusters: seq<seq<int>>, authorIds: seq<nat>, k: nat)
    requires EvaluatePurity(clusters, authorIds).Success? && k < |clusters|
    ensures 0.0 < EvaluatePurity(clusters, authorIds).value.1[k] <= 1.0
    ensures EvaluatePurity(clusters, authorIds).value.1[k] == 1.0 <==> AllSame(ClusterAuthorIndices(clusters, authorIds).value[k])
  {
    var xs := ClusterAuthorIndices(clusters, authorIds).value[k];
    ClassPurityRange(xs);
  }
}
