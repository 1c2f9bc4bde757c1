/** Sliding windows of width `n`. Two windowing rules coexist in the code base:
    `range(len(s) - n + 1)` (every window, src/exp_cluster.py) and `range(len(s) - n)`
    (the last window is skipped, test/exp_cluster.py and
    src/authorclustering/feature.py). */
module NGram {
  import opened PyStr
  import opened Seqs

  /** Number of windows produced by `range(L - n + 1)`. */
  function InclusiveCount(len: nat, n: nat): nat {
    if len >= n then len - n + 1 else 0
  }

  /** Number of windows produced by `range(L - n)`. */
  function ExclusiveCount(len: nat, n: nat): nat {
    if len > n then len - n else 0
  }

  /** `s[i:i+n]`. */
  function Window<T>(s: seq<T>, i: nat, n: nat): seq<T>
    requires i + n <= |s|
  {
    s[i..i + n]
  }

  /** `[s[i:i+n] for i in range(L - n + 1)]`. */
  function InclusiveWindows<T>(s: seq<T>, n: nat): (r: seq<seq<T>>)
    ensures |r| == InclusiveCount(|s|, n)
    ensures forall i :: 0 <= i < |r| ==> i + n <= |s| && r[i] == Window(s, i, n) && |r[i]| == n
  {
    seq(InclusiveCount(|s|, n), i requires 0 <= i < InclusiveCount(|s|, n) => Window(s, i, n))
  }

  /** `[s[i:i+n] for i in range(L - n)]`. */
  function ExclusiveWindows<T>(s: seq<T>, n: nat): (r: seq<seq<T>>)
    ensures |r| == ExclusiveCount(|s|, n)
    ensures forall i :: 0 <= i < |r| ==> i + n < |s| && r[i] == Window(s, i, n) && |r[i]| == n
  {
    seq(ExclusiveCount(|s|, n), i requires 0 <= i < ExclusiveCount(|s|, n) => Window(s, i, n))
  }

  /** The `L - n` rule produces the `L - n + 1` windows except the last one, the suffix
      of width `n`; for shorter inputs both produce nothing. */
  lemma ExclusiveDropsLastWindow<T>(s: seq<T>, n: nat)
    ensures |s| >= n ==> InclusiveWindows(s, n) == ExclusiveWindows(s, n) + [s[|s| - n..]]
    ensures |s| < n ==> InclusiveWindows(s, n) == ExclusiveWindows(s, n) == []
  {
    if |s| >= n {
      var inc := InclusiveWindows(s, n);
      var ex := ExclusiveWindows(s, n);
      assert inc[|s| - n] == s[|s| - n..];
      assert inc == ex + [s[|s| - n..]];
    }
  }

  lemma WindowsAreSlices<T>(s: seq<T>, n: nat, ws: seq<seq<T>>)
    requires forall i :: 0 <= i < |ws| ==> i + n <= |s| && ws[i] == Window(s, i, n)
    ensures forall g :: g in Elements(ws) ==> exists i :: 0 <= i < |ws| && i + n <= |s| && g == Window(s, i, n)
    ensures forall i :: 0 <= i < |ws| ==> ws[i] in Elements(ws)
  {
    forall g | g in Elements(ws)
      ensures exists i :: 0 <= i < |ws| && i + n <= |s| && g == Window(s, i, n)
    {
      assert g in ws;
      var i :| 0 <= i < |ws| && ws[i] == g;
      assert g == Window(s, i, n);
    }
    forall i | 0 <= i < |ws|
      ensures ws[i] in Elements(ws)
    {
      assert ws[i] in ws;
    }
  }

  /** `Feature._make_ngram` of src/exp_cluster.py: the set of all windows. */
  function WindowSet<T(==)>(s: seq<T>, n: nat): (r: set<seq<T>>)
    ensures forall g :: g in r ==> |g| == n
    ensures forall g :: g in r ==> exists i :: 0 <= i < InclusiveCount(|s|, n) && i + n <= |s| && g == Window(s, i, n)
    ensures forall i :: 0 <= i < InclusiveCount(|s|, n) ==> Window(s, i, n) in r
    ensures |r| <= InclusiveCount(|s|, n)
  {
    var ws := InclusiveWindows(s, n);
    ElementsCard(ws);
    WindowsAreSlices(s, n, ws);
    Elements(ws)
  }

  /** The set version of the `L - n` rule (test/exp_cluster.py on a string). */
  function ExclusiveWindowSet<T(==)>(s: seq<T>, n: nat): (r: set<seq<T>>)
    ensures forall g :: g in r ==> |g| == n
    ensures forall g :: g in r ==> exists i :: 0 <= i < ExclusiveCount(|s|, n) && i + n <= |s| && g == Window(s, i, n)
    ensures forall i :: 0 <= i < ExclusiveCount(|s|, n) ==> Window(s, i, n) in r
    ensures |r| <= ExclusiveCount(|s|, n)
  {
    var ws := ExclusiveWindows(s, n);
    ElementsCard(ws);
    WindowsAreSlices(s, n, ws);
    Elements(ws)
  }

  /** The two set versions differ at most in the final window. */
  lemma WindowSetsDiffer<T>(s: seq<T>, n: nat)
    ensures |s| >= n ==> WindowSet(s, n) == ExclusiveWindowSet(s, n) + {s[|s| - n..]}
    ensures |s| < n ==> WindowSet(s, n) == ExclusiveWindowSet(s, n) == {}
  {
    ExclusiveDropsLastWindow(s, n);
    if |s| >= n {
      var ex := ExclusiveWindows(s, n);
      assert Elements(ex + [s[|s| - n..]]) == Elements(ex) + {s[|s| - n..]};
    }
  }

  /** The windows of `tokens` joined by single spaces: the n-gram keys of the vectorizer,
      `str.format('{} {}', pair[0], pair[1])` and its three- and four-token forms. */
  function JoinedWindowSet(tokens: seq<string>, n: nat): (r: set<string>)
    ensures forall i :: 0 <= i < InclusiveCount(|tokens|, n) ==> Join(" ", Window(tokens, i, n)) in r
  {
    var ws := WindowSet(tokens, n);
    var r := set w | w in ws :: Join(" ", w);
    JoinedWindowsPresent(tokens, n, ws, r);
    r
  }

  lemma JoinedWindowsPresent(tokens: seq<string>, n: nat, ws: set<seq<string>>, r: set<string>)
    requires ws == WindowSet(tokens, n)
    requires r == set w | w in ws :: Join(" ", w)
    ensures forall i :: 0 <= i < InclusiveCount(|tokens|, n) ==> Join(" ", Window(tokens, i, n)) in r
  {
    forall i | 0 <= i < InclusiveCount(|tokens|, n)
      ensures Join(" ", Window(tokens, i, n)) in r
    {
      assert Window(tokens, i, n) in ws;
    }
  }

  /** Every joined key comes from some window. */
  lemma JoinedWindowSource(tokens: seq<string>, n: nat, g: string)
    requires g in JoinedWindowSet(tokens, n)
    ensures exists i :: 0 <= i < InclusiveCount(|tokens|, n) && i + n <= |tokens| && g == Join(" ", Window(tokens, i, n))
  {
    var ws := WindowSet(tokens, n);
    var w :| w in ws && g == Join(" ", w);
    var i :| 0 <= i < InclusiveCount(|tokens|, n) && i + n <= |tokens| && w == Window(tokens, i, n);
  }

  lemma JoinPair(a: string, b: string)
    ensures Join(" ", [a, b]) == a + " " + b
  {
    assert [a, b][..1] == [a];
  }
}
