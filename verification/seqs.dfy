/** Sequence vocabulary shared by the pipeline: Python list indexing, first
    occurrence, flattening, duplicate-freedom. */
module Seqs {
  import opened Wrappers

  predicate NoDuplicates<T(==)>(xs: seq<T>) {
    forall i, j :: 0 <= i < j < |xs| ==> xs[i] != xs[j]
  }

  predicate AllSame<T(==)>(xs: seq<T>) {
    forall i, j :: 0 <= i < |xs| && 0 <= j < |xs| ==> xs[i] == xs[j]
  }

  /** A non-empty sequence is its prefix followed by its last element. */
  lemma SplitLast<T>(xs: seq<T>)
    requires |xs| > 0
    ensures xs == xs[..|xs| - 1] + [xs[|xs| - 1]]
  {
  }

  /** `xs.index(x)`: the position of the first occurrence. */
  function FirstIndex<T(==)>(xs: seq<T>, x: T): (i: nat)
    requires x in xs
    ensures i < |xs| && xs[i] == x
    ensures forall j :: 0 <= j < i ==> xs[j] != x
  {
    if xs[0] == x then 0 else 1 + FirstIndex(xs[1..], x)
  }

  /** A prefix of a prefix is a prefix. */
  lemma PrefixOfPrefix<T>(xs: seq<T>, k: nat, n: nat)
    requires k <= n <= |xs|
    ensures xs[..n][..k] == xs[..k]
  {
  }

  lemma FirstIndexOfAppend<T>(xs: seq<T>, t: T, x: T)
    requires x in xs
    ensures FirstIndex(xs + [t], x) == FirstIndex(xs, x)
  {
    var i := FirstIndex(xs, x);
    assert (xs + [t])[i] == x;
  }

  lemma FirstIndexOfNew<T>(xs: seq<T>, t: T)
    requires t !in xs
    ensures FirstIndex(xs + [t], t) == |xs|
  {
    assert (xs + [t])[|xs|] == t;
  }

  /** Extending a sequence moves no first occurrence within the old part. */
  lemma FirstIndexOfPrefix<T>(xs: seq<T>, x: T)
    requires |xs| > 0 && x in xs[..|xs| - 1]
    ensures FirstIndex(xs, x) == FirstIndex(xs[..|xs| - 1], x) < |xs| - 1
  {
    SplitLast(xs);
    FirstIndexOfAppend(xs[..|xs| - 1], xs[|xs| - 1], x);
  }

  /** A last element seen nowhere before has its first occurrence at the end. */
  lemma FirstIndexOfLast<T>(xs: seq<T>)
    requires |xs| > 0 && xs[|xs| - 1] !in xs[..|xs| - 1]
    ensures FirstIndex(xs, xs[|xs| - 1]) == |xs| - 1
  {
    SplitLast(xs);
    FirstIndexOfNew(xs[..|xs| - 1], xs[|xs| - 1]);
  }

  lemma FirstIndexOfNoDuplicates<T>(xs: seq<T>, i: nat)
    requires NoDuplicates(xs) && i < |xs|
    ensures FirstIndex(xs, xs[i]) == i
  {
  }

  /** The concatenation of a list of lists, as `sum(xss, [])` or repeated `+=`. */
  function Flatten<T>(xss: seq<seq<T>>): seq<T>
    decreases |xss|
  {
    if |xss| == 0 then [] else Flatten(xss[..|xss| - 1]) + xss[|xss| - 1]
  }

  lemma {:induction false} FlattenSplice<T>(a: seq<seq<T>>, b: seq<seq<T>>)
    ensures Flatten(a + b) == Flatten(a) + Flatten(b)
    decreases |b|
  {
    if |b| == 0 {
      assert a + b == a;
    } else {
      FlattenSplice(a, b[..|b| - 1]);
      assert (a + b)[..|a + b| - 1] == a + b[..|b| - 1];
    }
  }

  lemma FlattenSnoc<T>(xss: seq<seq<T>>, x: seq<T>)
    ensures Flatten(xss + [x]) == Flatten(xss) + x
  {
    assert (xss + [x])[..|xss|] == xss;
  }

  /** Flattening a list that starts with `x` starts with `x`. */
  lemma FlattenCons<T>(x: seq<T>, rest: seq<seq<T>>)
    ensures Flatten([x] + rest) == x + Flatten(rest)
  {
    FlattenSplice([x], rest);
    assert [x][..0] == [];
  }

  /** Element `j` of list `i` sits after the elements of the lists before `i`. */
  lemma FlattenAt<T>(xss: seq<seq<T>>, i: nat, j: nat)
    requires i < |xss| && j < |xss[i]|
    ensures |Flatten(xss[..i])| + j < |Flatten(xss)|
    ensures Flatten(xss)[|Flatten(xss[..i])| + j] == xss[i][j]
  {
    var head := xss[..i];
    assert xss[..i + 1] == head + [xss[i]];
    FlattenSnoc(head, xss[i]);
    assert xss == xss[..i + 1] + xss[i + 1..];
    FlattenSplice(xss[..i + 1], xss[i + 1..]);
  }

  /** Two adjacent slices make up the longer slice. */
  lemma SliceJoin<T>(xs: seq<T>, i: nat, j: nat)
    requires i <= j <= |xs|
    ensures xs[i..j] + xs[j..] == xs[i..]
  {
  }

  /** An element of the flattened list is an element of one of the lists, and back. */
  lemma {:induction false} FlattenElements<T>(xss: seq<seq<T>>)
    ensures forall x :: x in Flatten(xss) ==> exists k :: 0 <= k < |xss| && x in xss[k]
    ensures forall x, k :: 0 <= k < |xss| && x in xss[k] ==> x in Flatten(xss)
    decreases |xss|
  {
    if |xss| > 0 {
      var init := xss[..|xss| - 1];
      FlattenElements(init);
      assert Flatten(xss) == Flatten(init) + xss[|xss| - 1];
      forall x | x in Flatten(xss)
        ensures exists k :: 0 <= k < |xss| && x in xss[k]
      {
        if x in Flatten(init) {
          assert exists k :: 0 <= k < |init| && x in init[k];
          var k :| 0 <= k < |init| && x in init[k];
          assert xss[k] == init[k];
        } else {
          assert x in xss[|xss| - 1];
        }
      }
      forall x, k | 0 <= k < |xss| && x in xss[k]
        ensures x in Flatten(xss)
      {
        if k < |xss| - 1 {
          assert init[k] == xss[k];
        }
      }
    }
  }

  lemma {:induction false} FlattenLength<T>(xss: seq<seq<T>>, ys: seq<seq<T>>)
    requires |xss| == |ys| && forall k :: 0 <= k < |xss| ==> |xss[k]| == |ys[k]|
    ensures |Flatten(xss)| == |Flatten(ys)|
    decreases |xss|
  {
    if |xss| > 0 {
      FlattenLength(xss[..|xss| - 1], ys[..|ys| - 1]);
    }
  }

  /** `xs[i]` for a Python list: negative indices count from the end. */
  function PyIndex<T>(xs: seq<T>, i: int): (r: Result<T>)
    ensures r.Success? <==> -|xs| <= i < |xs|
    ensures 0 <= i < |xs| ==> r == Success(xs[i])
  {
    if 0 <= i < |xs| then Success(xs[i])
    else if -|xs| <= i < 0 then Success(xs[|xs| + i])
    else Failure(IndexError)
  }

  function Elements<T>(xs: seq<T>): set<T> {
    set x | x in xs
  }

  lemma {:induction false} ElementsCard<T>(xs: seq<T>)
    ensures |Elements(xs)| <= |xs|
    ensures NoDuplicates(xs) ==> |Elements(xs)| == |xs|
    decreases |xs|
  {
    if |xs| > 0 {
      var init := xs[..|xs| - 1];
      ElementsCard(init);
      assert Elements(xs) == Elements(init) + {xs[|xs| - 1]};
      if NoDuplicates(xs) {
        assert xs[|xs| - 1] !in Elements(init);
      }
    }
  }
}
