/** Token counting with an insertion-ordered dictionary, and the majority vote the
    pipeline takes over such counts. The same counting loop appears as
    `Feature.count_tokens` (src/authorclustering/feature.py), `WordFrequency._count_words`
    (src/feature.py), the class tally in `ClusterEvaluator.evaluatePurity`, and inside
    `collections.Counter`; the same first-maximum choice is what both `max(d, key=...)`
    and `Counter.most_common(1)` return. */
module Tally {
  import opened Seqs

  /** A Python dict from token to count: `keys` is its iteration (insertion) order. */
  datatype Counts<T> = Counts(keys: seq<T>, count: map<T, nat>)

  predicate WellFormed<T(==)>(c: Counts<T>) {
    && NoDuplicates(c.keys)
    && (forall i :: 0 <= i < |c.keys| ==> c.keys[i] in c.count)
    && (forall k :: k in c.count ==> k in c.keys)
  }

  /** `model[token] = model.get(token, 0) + 1`. */
  function Bump<T(==)>(c: Counts<T>, t: T): Counts<T> {
    if t in c.count then Counts(c.keys, c.count[t := c.count[t] + 1])
    else Counts(c.keys + [t], c.count[t := 1])
  }

  /** The counting loop over `xs`: each distinct token maps to its number of
      occurrences, and the keys are ordered by first occurrence. */
  function CountTokens<T(==)>(xs: seq<T>): (c: Counts<T>)
    ensures Counted(xs, c)
    decreases |xs|
  {
    if |xs| == 0 then Counts([], map[])
    else
      var c := CountTokens(xs[..|xs| - 1]);
      CountedStep(xs, c);
      Bump(c, xs[|xs| - 1])
  }

  /** What the counting loop maintains: `c` counts exactly the tokens of `xs`, with its
      keys in first-occurrence order. */
  predicate Counted<T(==)>(xs: seq<T>, c: Counts<T>) {
    && WellFormed(c)
    && Covers(xs, c)
    && (forall k :: k in c.count ==> c.count[k] == multiset(xs)[k])
    && FirstSeenOrder(xs, c.keys)
  }

  /** The keys of `c` are exactly the tokens of `xs`. */
  predicate Covers<T(==)>(xs: seq<T>, c: Counts<T>) {
    && (forall k :: k in c.count ==> k in xs)
    && (forall i :: 0 <= i < |xs| ==> xs[i] in c.count)
  }

  /** `keys` are tokens of `xs`, listed in the order they first occur there. */
  predicate FirstSeenOrder<T(==)>(xs: seq<T>, keys: seq<T>)
    requires forall i :: 0 <= i < |keys| ==> keys[i] in xs
  {
    forall i, j :: 0 <= i < j < |keys| ==> FirstIndex(xs, keys[i]) < FirstIndex(xs, keys[j])
  }

  /** One iteration of the counting loop keeps `Counted`. */
  lemma CountedStep<T>(xs: seq<T>, c: Counts<T>)
    requires |xs| > 0 && Counted(xs[..|xs| - 1], c)
    ensures Counted(xs, Bump(c, xs[|xs| - 1]))
  {
    var b := Bump(c, xs[|xs| - 1]);
    BumpWellFormed(c, xs[|xs| - 1]);
    BumpMembers(xs, c);
    BumpCounts(xs, c);
    BumpOrder(xs, c, b);
  }

  lemma BumpWellFormed<T>(c: Counts<T>, t: T)
    requires WellFormed(c)
    ensures WellFormed(Bump(c, t))
  {
    if t !in c.count {
      assert t !in c.keys;
    }
  }

  lemma BumpMembers<T>(xs: seq<T>, c: Counts<T>)
    requires |xs| > 0 && Counted(xs[..|xs| - 1], c)
    ensures forall k :: k in Bump(c, xs[|xs| - 1]).count ==> k in xs
    ensures forall i :: 0 <= i < |xs| ==> xs[i] in Bump(c, xs[|xs| - 1]).count
  {
    var init := xs[..|xs| - 1];
    forall k | k in Bump(c, xs[|xs| - 1]).count
      ensures k in xs
    {
      if k in c.count {
        assert k in init;
      }
    }
  }

  lemma BumpCounts<T>(xs: seq<T>, c: Counts<T>)
    requires |xs| > 0 && Counted(xs[..|xs| - 1], c)
    ensures forall k :: k in Bump(c, xs[|xs| - 1]).count ==> Bump(c, xs[|xs| - 1]).count[k] == multiset(xs)[k]
  {
    var init := xs[..|xs| - 1];
    var t := xs[|xs| - 1];
    SplitLast(xs);
    assert multiset(xs) == multiset(init) + multiset{t};
    if t !in c.count {
      assert multiset(init)[t] == 0;
    }
  }

  lemma BumpOrder<T>(xs: seq<T>, c: Counts<T>, b: Counts<T>)
    requires |xs| > 0 && b == Bump(c, xs[|xs| - 1])
    requires WellFormed(c) && Covers(xs[..|xs| - 1], c) && FirstSeenOrder(xs[..|xs| - 1], c.keys)
    requires WellFormed(b) && Covers(xs, b)
    ensures FirstSeenOrder(xs, b.keys)
  {
    KeysIn(c.keys, c.count, xs[..|xs| - 1]);
    FirstIndicesKept(xs, c.keys);
    if xs[|xs| - 1] !in c.count {
      assert xs[|xs| - 1] !in xs[..|xs| - 1];
      FirstIndexOfLast(xs);
      BumpOrderNew(xs, c.keys, b.keys);
    }
  }

  lemma KeysIn<T>(keys: seq<T>, count: map<T, nat>, ys: seq<T>)
    requires forall i :: 0 <= i < |keys| ==> keys[i] in count
    requires forall k :: k in count ==> k in ys
    ensures forall i :: 0 <= i < |keys| ==> keys[i] in ys
  {
  }

  /** Appending a token moves no earlier first occurrence, so the order of keys
      already present is kept. */
  lemma FirstIndicesKept<T>(xs: seq<T>, keys: seq<T>)
    requires |xs| > 0
    requires forall i :: 0 <= i < |keys| ==> keys[i] in xs[..|xs| - 1]
    requires FirstSeenOrder(xs[..|xs| - 1], keys)
    ensures forall i :: 0 <= i < |keys| ==> keys[i] in xs && FirstIndex(xs, keys[i]) < |xs| - 1
    ensures FirstSeenOrder(xs, keys)
  {
    forall i | 0 <= i < |keys|
      ensures FirstIndex(xs, keys[i]) == FirstIndex(xs[..|xs| - 1], keys[i]) < |xs| - 1
    {
      FirstIndexOfPrefix(xs, keys[i]);
    }
  }

  /** A token seen for the first time goes after every key already present. */
  lemma BumpOrderNew<T>(xs: seq<T>, keys: seq<T>, ks: seq<T>)
    requires |xs| > 0 && FirstIndex(xs, xs[|xs| - 1]) == |xs| - 1
    requires ks == keys + [xs[|xs| - 1]]
    requires forall i :: 0 <= i < |keys| ==> keys[i] in xs && FirstIndex(xs, keys[i]) < |xs| - 1
    requires FirstSeenOrder(xs, keys)
    ensures forall i :: 0 <= i < |ks| ==> ks[i] in xs
    ensures FirstSeenOrder(xs, ks)
  {
    forall i | 0 <= i < |ks|
      ensures ks[i] in xs
    {
      if i < |keys| {
        assert ks[i] == keys[i];
      }
    }
    forall i, j | 0 <= i < j < |ks|
      ensures FirstIndex(xs, ks[i]) < FirstIndex(xs, ks[j])
    {
      assert ks[i] == keys[i];
      if j < |keys| {
        assert ks[j] == keys[j];
      }
    }
  }

  /** The elements of `xs` in first-occurrence order, each once: the iteration order of
      a Python set or dict filled from `xs`. */
  function Distinct<T(==)>(xs: seq<T>): (r: seq<T>)
    ensures NoDuplicates(r)
    ensures forall i :: 0 <= i < |xs| ==> xs[i] in r
    ensures forall x :: x in r ==> x in xs
    decreases |xs|
  {
    if |xs| == 0 then []
    else
      var init := xs[..|xs| - 1];
      var t := xs[|xs| - 1];
      var d := Distinct(init);
      SplitLast(xs);
      if t in d then d else d + [t]
  }

  /** The distinct elements are exactly the keys of the counting dict, in the same order. */
  lemma {:induction false} DistinctIsKeys<T>(xs: seq<T>)
    ensures Distinct(xs) == CountTokens(xs).keys
    decreases |xs|
  {
    if |xs| > 0 {
      var init := xs[..|xs| - 1];
      var t := xs[|xs| - 1];
      DistinctIsKeys(init);
      var c := CountTokens(init);
      assert CountTokens(xs) == Bump(c, t);
      assert t in c.count <==> t in c.keys;
    }
  }

  /** Filling a set from elements that are already distinct keeps them in order. */
  lemma {:induction false} DistinctOfNoDuplicates<T>(xs: seq<T>)
    requires NoDuplicates(xs)
    ensures Distinct(xs) == xs
    decreases |xs|
  {
    if |xs| > 0 {
      var init := xs[..|xs| - 1];
      var t := xs[|xs| - 1];
      DistinctOfNoDuplicates(init);
      assert t !in init;
      SplitLast(xs);
    }
  }

  /** `sum(model.values())`. */
  function Total<T>(keys: seq<T>, count: map<T, nat>): nat
    requires forall i :: 0 <= i < |keys| ==> keys[i] in count
    decreases |keys|
  {
    if |keys| == 0 then 0 else Total(keys[..|keys| - 1], count) + count[keys[|keys| - 1]]
  }

  lemma {:induction false} TotalFrame<T>(keys: seq<T>, m: map<T, nat>, m': map<T, nat>)
    requires forall i :: 0 <= i < |keys| ==> keys[i] in m && keys[i] in m' && m[keys[i]] == m'[keys[i]]
    ensures Total(keys, m) == Total(keys, m')
    decreases |keys|
  {
    if |keys| > 0 {
      TotalFrame(keys[..|keys| - 1], m, m');
    }
  }

  lemma {:induction false} TotalBump<T>(keys: seq<T>, m: map<T, nat>, t: T)
    requires NoDuplicates(keys) && t in keys && t in m
    requires forall i :: 0 <= i < |keys| ==> keys[i] in m
    ensures Total(keys, m[t := m[t] + 1]) == Total(keys, m) + 1
    decreases |keys|
  {
    var m' := m[t := m[t] + 1];
    var init := keys[..|keys| - 1];
    if keys[|keys| - 1] == t {
      TotalFrame(init, m, m');
    } else {
      assert t in init;
      TotalBump(init, m, t);
    }
  }

  lemma TotalSnoc<T>(keys: seq<T>, t: T, m: map<T, nat>)
    requires forall i :: 0 <= i < |keys| ==> keys[i] in m
    requires t in m
    ensures Total(keys + [t], m) == Total(keys, m) + m[t]
  {
    assert (keys + [t])[..|keys|] == keys;
  }

  lemma BumpTotal<T>(c: Counts<T>, t: T)
    requires WellFormed(c)
    ensures Total(Bump(c, t).keys, Bump(c, t).count) == Total(c.keys, c.count) + 1
  {
    if t in c.count {
      TotalBump(c.keys, c.count, t);
    } else {
      var m := c.count[t := 1];
      TotalFrame(c.keys, c.count, m);
      TotalSnoc(c.keys, t, m);
    }
  }

  /** The counts add up to the number of tokens counted. */
  lemma {:induction false} CountTotal<T>(xs: seq<T>)
    ensures Total(CountTokens(xs).keys, CountTokens(xs).count) == |xs|
    decreases |xs|
  {
    if |xs| > 0 {
      var init := xs[..|xs| - 1];
      CountTotal(init);
      BumpTotal(CountTokens(init), xs[|xs| - 1]);
    }
  }

  /** Sums over the same keys are monotone, and equal only when every term is. */
  lemma {:induction false} TotalMono<T>(keys: seq<T>, m: map<T, nat>, m': map<T, nat>)
    requires forall i :: 0 <= i < |keys| ==> keys[i] in m && keys[i] in m' && m[keys[i]] <= m'[keys[i]]
    ensures Total(keys, m) <= Total(keys, m')
    ensures Total(keys, m) == Total(keys, m') ==> forall i :: 0 <= i < |keys| ==> m[keys[i]] == m'[keys[i]]
    decreases |keys|
  {
    if |keys| > 0 {
      var init := keys[..|keys| - 1];
      TotalMono(init, m, m');
      if Total(keys, m) == Total(keys, m') {
        forall i | 0 <= i < |keys|
          ensures m[keys[i]] == m'[keys[i]]
        {
          if i < |keys| - 1 {
            assert init[i] == keys[i];
          }
        }
      }
    }
  }

  /** Every term is at most the sum. */
  lemma {:induction false} TotalAtLeast<T>(keys: seq<T>, m: map<T, nat>, i: nat)
    requires forall j :: 0 <= j < |keys| ==> keys[j] in m
    requires i < |keys|
    ensures m[keys[i]] <= Total(keys, m)
    decreases |keys|
  {
    if i < |keys| - 1 {
      TotalAtLeast(keys[..|keys| - 1], m, i);
    }
  }

  // ---------------------------------------------------------------------------
  // First maximum

  /** The position `max` returns when scanning `keys` in order with `key=score`:
      a maximum, with every earlier key strictly smaller. */
  function FirstMax<T>(keys: seq<T>, score: map<T, nat>): (i: nat)
    requires |keys| > 0
    requires forall j :: 0 <= j < |keys| ==> keys[j] in score
    ensures i < |keys|
    ensures forall j :: 0 <= j < |keys| ==> score[keys[j]] <= score[keys[i]]
    ensures forall j :: 0 <= j < i ==> score[keys[j]] < score[keys[i]]
    decreases |keys|
  {
    if |keys| == 1 then 0
    else
      var k := FirstMax(keys[..|keys| - 1], score);
      if score[keys[|keys| - 1]] > score[keys[k]] then |keys| - 1 else k
  }

  /** `a` is a most frequent element of `xs`, and among the most frequent it occurs first. */
  predicate IsFirstMajority<T(==)>(xs: seq<T>, a: T) {
    && a in xs
    && (forall y :: y in xs ==> multiset(xs)[y] <= multiset(xs)[a])
    && (forall y :: y in xs && multiset(xs)[y] == multiset(xs)[a] ==> FirstIndex(xs, a) <= FirstIndex(xs, y))
  }

  /** `Counter(xs).most_common(1)[0]`, equally `max(counts, key=counts.get)` with its
      count: the most frequent element, ties going to the one seen first. */
  function Majority<T(==)>(xs: seq<T>): (r: (T, nat))
    requires |xs| > 0
    ensures IsFirstMajority(xs, r.0)
    ensures r.1 == multiset(xs)[r.0]
  {
    var c := CountTokens(xs);
    assert xs[0] in c.count;
    var i := FirstMax(c.keys, c.count);
    MajorityOfCounts(xs, c, i);
    (c.keys[i], c.count[c.keys[i]])
  }

  lemma MajorityOfCounts<T>(xs: seq<T>, c: Counts<T>, i: nat)
    requires c == CountTokens(xs) && |c.keys| > 0
    requires i == FirstMax(c.keys, c.count)
    ensures IsFirstMajority(xs, c.keys[i])
  {
    var a := c.keys[i];
    forall y | y in xs
      ensures multiset(xs)[y] <= multiset(xs)[a]
      ensures multiset(xs)[y] == multiset(xs)[a] ==> FirstIndex(xs, a) <= FirstIndex(xs, y)
    {
      assert y in c.count;
      var j :| 0 <= j < |c.keys| && c.keys[j] == y;
      if multiset(xs)[y] == multiset(xs)[a] && j != i {
        assert i < j;
      }
    }
  }

  /** The first-majority condition picks out exactly one element: the one `Majority` returns. */
  lemma MajorityIsUnique<T>(xs: seq<T>, a: T)
    requires |xs| > 0
    ensures Majority(xs).0 == a <==> IsFirstMajority(xs, a)
  {
    var r := Majority(xs).0;
    if IsFirstMajority(xs, a) {
      assert multiset(xs)[a] == multiset(xs)[r];
      assert FirstIndex(xs, a) == FirstIndex(xs, r);
    }
  }

  lemma {:induction false} OccurrenceBound<T>(xs: seq<T>, x: T)
    ensures multiset(xs)[x] <= |xs|
    ensures (exists i :: 0 <= i < |xs| && xs[i] != x) ==> multiset(xs)[x] < |xs|
    decreases |xs|
  {
    if |xs| > 0 {
      var init := xs[..|xs| - 1];
      OccurrenceBound(init, x);
      assert xs == init + [xs[|xs| - 1]];
      assert multiset(xs) == multiset(init) + multiset{xs[|xs| - 1]};
      if exists i :: 0 <= i < |xs| && xs[i] != x {
        var i :| 0 <= i < |xs| && xs[i] != x;
        if i < |xs| - 1 {
          assert init[i] != x;
        }
      }
    }
  }

  lemma {:induction false} AllSameOccurrence<T>(xs: seq<T>, x: T)
    requires forall i :: 0 <= i < |xs| ==> xs[i] == x
    ensures multiset(xs)[x] == |xs|
    decreases |xs|
  {
    if |xs| > 0 {
      var init := xs[..|xs| - 1];
      AllSameOccurrence(init, x);
      assert xs == init + [xs[|xs| - 1]];
      assert multiset(xs) == multiset(init) + multiset{xs[|xs| - 1]};
    }
  }

  /** The majority count is between 1 and the length, and reaches the length exactly
      when all elements are equal. */
  lemma MajorityCountBounds<T>(xs: seq<T>)
    requires |xs| > 0
    ensures 1 <= Majority(xs).1 <= |xs|
    ensures Majority(xs).1 == |xs| <==> AllSame(xs)
  {
    var (a, n) := Majority(xs);
    OccurrenceBound(xs, a);
    if AllSame(xs) {
      AllSameOccurrence(xs, xs[0]);
      assert xs[0] in xs;
    } else {
      var i, j :| 0 <= i < |xs| && 0 <= j < |xs| && xs[i] != xs[j];
      assert xs[i] != a || xs[j] != a;
    }
  }
}
