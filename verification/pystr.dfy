/** The few Python string operations the pipeline relies on, with Python's semantics:
    `str.isspace`, `' '.join`, `''.join`, `str.split()` without arguments, `str.strip()`,
    slicing with clamped and negative bounds, `str(n)` of a natural number, `int(s)`,
    `re.sub(r'\s', '', s)` and lower-casing. */
module PyStr {
  import opened Wrappers

  /** The characters for which Python's `str.isspace()` holds; `str.split()`,
      `str.strip()` and the regular-expression class `\s` all use this set. */
  predicate IsSpace(c: char) {
    || ('\t' <= c <= '\r')                // tab, line feed, vertical tab, form feed, carriage return
    || ('\U{1C}' <= c <= '\U{1F}')        // file, group, record and unit separators
    || c == ' '
    || c == '\U{85}' || c == '\U{A0}' || c == '\U{1680}'
    || ('\U{2000}' <= c <= '\U{200A}')
    || c == '\U{2028}' || c == '\U{2029}' || c == '\U{202F}' || c == '\U{205F}' || c == '\U{3000}'
  }

  predicate NoSpace(s: string) {
    forall i :: 0 <= i < |s| ==> !IsSpace(s[i])
  }

  predicate IsBlank(s: string) {
    forall i :: 0 <= i < |s| ==> IsSpace(s[i])
  }

  predicate IsDigit(c: char) {
    '0' <= c <= '9'
  }

  predicate AllDigits(s: string) {
    forall i :: 0 <= i < |s| ==> IsDigit(s[i])
  }

  // ---------------------------------------------------------------------------
  // Joining

  /** `sep.join(xs)`. */
  function Join(sep: string, xs: seq<string>): string
    decreases |xs|
  {
    if |xs| == 0 then ""
    else if |xs| == 1 then xs[0]
    else Join(sep, xs[..|xs| - 1]) + sep + xs[|xs| - 1]
  }

  /** `''.join(xs)`. */
  function Concat(xs: seq<string>): string
    decreases |xs|
  {
    if |xs| == 0 then "" else Concat(xs[..|xs| - 1]) + xs[|xs| - 1]
  }

  lemma {:induction false} JoinCons(sep: string, xs: seq<string>)
    requires |xs| >= 2
    ensures Join(sep, xs) == xs[0] + sep + Join(sep, xs[1..])
    decreases |xs|
  {
    if |xs| > 2 {
      JoinCons(sep, xs[..|xs| - 1]);
      assert xs[..|xs| - 1][1..] == xs[1..][..|xs[1..]| - 1];
    } else {
      assert xs[1..] == [xs[1]];
    }
  }

  /** Joining two non-empty runs equals joining each and gluing them with one separator. */
  lemma {:induction false} JoinSplice(sep: string, a: seq<string>, b: seq<string>)
    requires |a| > 0 && |b| > 0
    ensures Join(sep, a + b) == Join(sep, a) + sep + Join(sep, b)
    decreases |b|
  {
    if |b| == 1 {
      assert (a + b)[..|a + b| - 1] == a;
    } else {
      var b' := b[..|b| - 1];
      JoinSplice(sep, a, b');
      assert (a + b)[..|a + b| - 1] == a + b';
    }
  }

  /** Joining a list cut at `j` into two non-empty parts. */
  lemma JoinSlices(sep: string, xs: seq<string>, i: nat, j: nat)
    requires i < j < |xs|
    ensures Join(sep, xs[i..]) == Join(sep, xs[i..j]) + sep + Join(sep, xs[j..])
  {
    JoinSplice(sep, xs[i..j], xs[j..]);
    assert xs[i..j] + xs[j..] == xs[i..];
  }

  lemma ConcatSnoc(xs: seq<string>, x: string)
    ensures Concat(xs + [x]) == Concat(xs) + x
  {
    assert (xs + [x])[..|xs|] == xs;
  }

  lemma {:induction false} ConcatSplice(a: seq<string>, b: seq<string>)
    ensures Concat(a + b) == Concat(a) + Concat(b)
    decreases |b|
  {
    if |b| == 0 {
      assert a + b == a;
    } else {
      var b' := b[..|b| - 1];
      ConcatSplice(a, b');
      assert (a + b)[..|a + b| - 1] == a + b';
    }
  }

  lemma {:induction false} ConcatLength(xs: seq<string>, width: nat)
    requires forall i :: 0 <= i < |xs| ==> |xs[i]| == width
    ensures |Concat(xs)| == |xs| * width
    decreases |xs|
  {
    if |xs| > 0 {
      ConcatLength(xs[..|xs| - 1], width);
    }
  }

  // ---------------------------------------------------------------------------
  // str.split() with no argument

  /** The end of the run of non-space characters starting at `i`. */
  function RunEnd(s: string, i: nat): (j: nat)
    requires i <= |s|
    ensures i <= j <= |s|
    ensures forall m :: i <= m < j ==> !IsSpace(s[m])
    ensures j < |s| ==> IsSpace(s[j])
    decreases |s| - i
  {
    if i == |s| || IsSpace(s[i]) then i else RunEnd(s, i + 1)
  }

  /** `s.split()`: the maximal runs of non-space characters, in order. */
  function Fields(s: string): (r: seq<string>)
    ensures forall k :: 0 <= k < |r| ==> |r[k]| > 0 && NoSpace(r[k])
    decreases |s|
  {
    if |s| == 0 then []
    else if IsSpace(s[0]) then Fields(s[1..])
    else
      var j := RunEnd(s, 0);
      [s[..j]] + Fields(s[j..])
  }

  lemma {:induction false} RunEndOfWord(w: string, rest: string, i: nat)
    requires i <= |w| && NoSpace(w)
    requires rest == [] || IsSpace(rest[0])
    ensures RunEnd(w + rest, i) == |w|
    decreases |w| - i
  {
    if i < |w| {
      RunEndOfWord(w, rest, i + 1);
    }
  }

  lemma FieldsWordThen(w: string, rest: string)
    requires |w| > 0 && NoSpace(w)
    requires rest == [] || IsSpace(rest[0])
    ensures Fields(w + rest) == [w] + Fields(rest)
  {
    RunEndOfWord(w, rest, 0);
    assert (w + rest)[..|w|] == w;
    assert (w + rest)[|w|..] == rest;
  }

  /** A field followed by one space splits off as the first field. */
  lemma FieldThenSpace(w: string, x: string)
    requires IsField(w)
    ensures Fields(w + " " + x) == [w] + Fields(x)
  {
    FieldsWordThen(w, " " + x);
    assert w + " " + x == w + (" " + x);
    assert (" " + x)[1..] == x;
  }

  lemma {:induction false} FieldsOfBlank(t: string)
    requires IsBlank(t)
    ensures Fields(t) == []
    decreases |t|
  {
    if |t| > 0 {
      FieldsOfBlank(t[1..]);
    }
  }

  predicate IsField(w: string) {
    |w| > 0 && NoSpace(w)
  }

  /** Splitting a space-joined line of non-empty, space-free fields, followed by any
      trailing whitespace (the line end), gives the fields back. */
  lemma {:induction false} FieldsOfJoin(ws: seq<string>, tail: string)
    requires |ws| > 0 && forall k :: 0 <= k < |ws| ==> IsField(ws[k])
    requires IsBlank(tail)
    ensures Fields(Join(" ", ws) + tail) == ws
    decreases |ws|
  {
    if |ws| == 1 {
      FieldsWordThen(ws[0], tail);
      FieldsOfBlank(tail);
    } else {
      JoinCons(" ", ws);
      var rest := Join(" ", ws[1..]) + tail;
      assert Join(" ", ws) + tail == ws[0] + " " + rest;
      FieldThenSpace(ws[0], rest);
      FieldsOfJoin(ws[1..], tail);
      assert ws == [ws[0]] + ws[1..];
    }
  }

  // ---------------------------------------------------------------------------
  // str.strip()

  function StripLeft(s: string): (r: string)
    ensures |r| <= |s|
    decreases |s|
  {
    if |s| > 0 && IsSpace(s[0]) then StripLeft(s[1..]) else s
  }

  function StripRight(s: string): (r: string)
    ensures |r| <= |s|
    decreases |s|
  {
    if |s| > 0 && IsSpace(s[|s| - 1]) then StripRight(s[..|s| - 1]) else s
  }

  /** `s.strip()`. */
  function Strip(s: string): string {
    StripRight(StripLeft(s))
  }

  lemma {:induction false} StripLeftBlank(s: string)
    ensures StripLeft(s) == [] <==> IsBlank(s)
    decreases |s|
  {
    if |s| > 0 && IsSpace(s[0]) {
      StripLeftBlank(s[1..]);
    }
  }

  lemma {:induction false} StripRightEmpty(s: string)
    ensures StripRight(s) == [] <==> IsBlank(s)
    decreases |s|
  {
    if |s| > 0 && IsSpace(s[|s| - 1]) {
      StripRightEmpty(s[..|s| - 1]);
      if IsBlank(s[..|s| - 1]) {
        forall i | 0 <= i < |s|
          ensures IsSpace(s[i])
        {
          if i < |s| - 1 {
            assert s[i] == s[..|s| - 1][i];
          }
        }
      }
    }
  }

  /** `s.strip() == ''` exactly when every character of `s` is whitespace. */
  lemma StripEmptyIffBlank(s: string)
    ensures Strip(s) == [] <==> IsBlank(s)
  {
    StripLeftBlank(s);
    StripRightEmpty(StripLeft(s));
    if IsBlank(s) {
      assert StripLeft(s) == [];
    } else {
      assert StripLeft(s) != [];
      StripLeftNotBlank(s);
    }
  }

  lemma {:induction false} StripLeftNotBlank(s: string)
    requires !IsBlank(s)
    ensures |StripLeft(s)| > 0 && !IsSpace(StripLeft(s)[0])
    decreases |s|
  {
    if |s| > 0 && IsSpace(s[0]) {
      assert !IsBlank(s[1..]);
      StripLeftNotBlank(s[1..]);
    }
  }

  lemma {:induction false} StripRightOfTail(d: string, tail: string)
    requires |d| > 0 && !IsSpace(d[|d| - 1]) && IsBlank(tail)
    ensures StripRight(d + tail) == d
    decreases |tail|
  {
    if |tail| == 0 {
      assert d + tail == d;
    } else {
      assert (d + tail)[..|d + tail| - 1] == d + tail[..|tail| - 1];
      StripRightOfTail(d, tail[..|tail| - 1]);
    }
  }

  // ---------------------------------------------------------------------------
  // Slicing

  /** Python's normalisation of a slice bound against a length. */
  function Clamp(i: int, n: nat): (r: nat)
    ensures r <= n
  {
    if i < 0 then (if i + n < 0 then 0 else i + n)
    else if i > n then n
    else i
  }

  /** `s[i:j]` with Python's rules for negative and out-of-range bounds. */
  function PySlice<T>(s: seq<T>, i: int, j: int): (r: seq<T>)
    ensures 0 <= i <= j <= |s| ==> r == s[i..j]
    ensures |r| <= |s|
  {
    var a := Clamp(i, |s|);
    var b := Clamp(j, |s|);
    if a <= b then s[a..b] else []
  }

  // ---------------------------------------------------------------------------
  // Numbers as text

  function DigitChar(d: nat): (c: char)
    requires d < 10
    ensures IsDigit(c)
  {
    ('0' as int + d) as char
  }

  function DigitValue(c: char): (d: nat)
    requires IsDigit(c)
    ensures d < 10
  {
    c as int - '0' as int
  }

  /** `str(n)` for a natural number. */
  function NatToString(n: nat): (s: string)
    ensures |s| > 0 && AllDigits(s)
    decreases n
  {
    if n < 10 then [DigitChar(n)] else NatToString(n / 10) + [DigitChar(n % 10)]
  }

  function DigitsValue(s: string): nat
    requires AllDigits(s)
    decreases |s|
  {
    if |s| == 0 then 0 else DigitsValue(s[..|s| - 1]) * 10 + DigitValue(s[|s| - 1])
  }

  /** `int(s)` for the decimal forms the model files contain: surrounding whitespace,
      an optional sign, and at least one ASCII digit. Every other string is a
      ValueError here, including the underscore-separated and non-ASCII digit forms
      that Python's `int` also accepts. */
  function PyInt(s: string): Result<int> {
    var t := Strip(s);
    if |t| > 1 && (t[0] == '-' || t[0] == '+') && AllDigits(t[1..]) then
      var magnitude: int := DigitsValue(t[1..]);
      Success(if t[0] == '-' then -magnitude else magnitude)
    else if |t| > 0 && AllDigits(t) then
      Success(DigitsValue(t))
    else
      Failure(ValueError)
  }

  lemma {:induction false} DigitsOfNat(n: nat)
    ensures DigitsValue(NatToString(n)) == n
    decreases n
  {
    if n >= 10 {
      DigitsOfNat(n / 10);
      var s := NatToString(n);
      assert s[..|s| - 1] == NatToString(n / 10);
    }
  }

  /** `int(str(n) + tail)` is `n` whenever the tail is whitespace, such as the line end. */
  lemma PyIntOfNatLine(n: nat, tail: string)
    requires IsBlank(tail)
    ensures PyInt(NatToString(n) + tail) == Success(n)
  {
    var d := NatToString(n);
    assert !IsSpace(d[0]);
    assert StripLeft(d + tail) == d + tail;
    StripRightOfTail(d, tail);
    DigitsOfNat(n);
  }

  /** `'%d' % i` for any integer. */
  function IntToString(i: int): (s: string)
    ensures |s| > 0
  {
    if i < 0 then "-" + NatToString(-i) else NatToString(i)
  }

  // ---------------------------------------------------------------------------
  // Whitespace removal and case

  /** `re.sub(r'\s', '', s)`. */
  function RemoveSpaces(s: string): (r: string)
    ensures NoSpace(r)
    ensures |r| <= |s|
    ensures NoSpace(s) ==> r == s
    decreases |s|
  {
    if |s| == 0 then ""
    else
      var init := RemoveSpaces(s[..|s| - 1]);
      if IsSpace(s[|s| - 1]) then init else init + [s[|s| - 1]]
  }

  function LowerChar(c: char): char {
    if 'A' <= c <= 'Z' then (c as int + 32) as char else c
  }

  /** `s.lower()` restricted to the ASCII letters. */
  function Lower(s: string): (r: string)
    ensures |r| == |s|
  {
    seq(|s|, i requires 0 <= i < |s| => LowerChar(s[i]))
  }
}
