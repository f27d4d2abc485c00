/** Python/JavaScript string operations the model relies on: strip, split,
    join, decimal rendering and parsing, zero padding and code-point
    (lexicographic) comparison. */
module Text {

  /** The characters Python's `str.isspace()` accepts; `str.strip()` with no
      argument removes exactly these from both ends. */
  predicate IsSpace(c: char) {
    || c == ' ' || c == '\t' || c == '\n' || c == '\r' || c == '\U{000B}' || c == '\U{000C}'
    || ('\U{001C}' <= c <= '\U{001F}') || c == '\U{0085}' || c == '\U{00A0}' || c == '\U{1680}'
    || ('\U{2000}' <= c <= '\U{200A}') || c == '\U{2028}' || c == '\U{2029}' || c == '\U{202F}'
    || c == '\U{205F}' || c == '\U{3000}'
  }

  predicate AllSpace(s: string) {
    forall i :: 0 <= i < |s| ==> IsSpace(s[i])
  }

  /** True when `s` neither starts nor ends with whitespace. */
  predicate Trimmed(s: string) {
    s == [] || (!IsSpace(s[0]) && !IsSpace(s[|s| - 1]))
  }

  /** `s.lstrip()`: the longest suffix of `s` not starting with whitespace. */
  function StripLeft(s: string): (r: string)
    ensures |r| <= |s| && r == s[|s| - |r|..]
    ensures AllSpace(s[..|s| - |r|])
    ensures r == [] || !IsSpace(r[0])
  {
    if s != [] && IsSpace(s[0]) then StripLeft(s[1..]) else s
  }

  /** `s.rstrip()`: the longest prefix of `s` not ending with whitespace. */
  function StripRight(s: string): (r: string)
    ensures |r| <= |s| && r == s[..|r|]
    ensures AllSpace(s[|r|..])
    ensures r == [] || !IsSpace(r[|r| - 1])
  {
    if s != [] && IsSpace(s[|s| - 1]) then StripRight(s[..|s| - 1]) else s
  }

  /** `s.strip()`: `s` without its leading and trailing whitespace. */
  function Strip(s: string): (r: string)
    ensures Trimmed(r) && |r| <= |s|
  {
    StripRight(StripLeft(s))
  }

  lemma {:induction false} StripLeftPadded(a: string, x: string)
    requires AllSpace(a)
    requires x == [] || !IsSpace(x[0])
    ensures StripLeft(a + x) == x
  {
    if a != [] {
      assert (a + x)[1..] == a[1..] + x;
      StripLeftPadded(a[1..], x);
    }
  }

  lemma {:induction false} StripRightPadded(x: string, b: string)
    requires AllSpace(b)
    requires x == [] || !IsSpace(x[|x| - 1])
    ensures StripRight(x + b) == x
  {
    if b != [] {
      assert (x + b)[..|x + b| - 1] == x + b[..|b| - 1];
      StripRightPadded(x, b[..|b| - 1]);
    }
  }

  /** Whitespace around a trimmed string is exactly what `strip` removes. */
  lemma StripPadded(a: string, x: string, b: string)
    requires AllSpace(a) && AllSpace(b) && Trimmed(x)
    ensures Strip(a + x + b) == x
  {
    assert a + x + b == a + (x + b);
    if x == [] {
      StripLeftPadded(a + b, []);
      assert a + b + [] == a + b;
      assert forall i :: 0 <= i < |a + b| ==> IsSpace((a + b)[i]);
      StripLeftPadded(a + b, []);
    } else {
      StripLeftPadded(a, x + b);
      StripRightPadded(x, b);
    }
  }

  /** Stripping twice is the same as stripping once. */
  lemma StripIdempotent(s: string)
    ensures Strip(Strip(s)) == Strip(s)
  {
    var x := Strip(s);
    assert [] + x + [] == x;
    StripPadded([], x, []);
  }

  /** A string equals its own strip exactly when it is trimmed. */
  lemma StripFixedIffTrimmed(s: string)
    ensures Strip(s) == s <==> Trimmed(s)
  {
    if Trimmed(s) {
      assert [] + s + [] == s;
      StripPadded([], s, []);
    }
  }

  /** Every string is its strip surrounded by whitespace. */
  lemma StripDecomposes(s: string) returns (a: string, b: string)
    ensures AllSpace(a) && AllSpace(b) && s == a + Strip(s) + b
  {
    var l := StripLeft(s);
    var r := StripRight(l);
    a, b := s[..|s| - |l|], l[|r|..];
    Reassemble(s, a, l, r, b);
  }

  lemma Reassemble(s: string, a: string, l: string, r: string, b: string)
    requires |a| <= |s| && a == s[..|a|] && l == s[|a|..]
    requires |r| <= |l| && r == l[..|r|] && b == l[|r|..]
    ensures s == a + r + b
  {
    assert s == a + l;
    assert l == r + b;
  }

  // ---------------------------------------------------------------- split and join

  /** Index of the first `c` in `s`, or `|s|` when there is none. */
  function IndexOf(s: string, c: char): (i: nat)
    ensures i <= |s|
    ensures i < |s| ==> s[i] == c
    ensures c !in s[..i]
  {
    if s == [] then 0 else if s[0] == c then 0 else 1 + IndexOf(s[1..], c)
  }

  /** Python's `s.split(sep)` with a one-character separator: the pieces
      between separators, including empty ones. */
  function Split(s: string, sep: char): (parts: seq<string>)
    ensures |parts| >= 1
    ensures forall i :: 0 <= i < |parts| ==> sep !in parts[i]
    decreases |s|
  {
    var i := IndexOf(s, sep);
    if i == |s| then [s] else [s[..i]] + Split(s[i + 1..], sep)
  }

  /** Python's `sep.join(parts)`. */
  function Join(parts: seq<string>, sep: string): string
  {
    if |parts| == 0 then "" else if |parts| == 1 then parts[0]
    else parts[0] + sep + Join(parts[1..], sep)
  }

  /** Joining the pieces of a split with the separator gives back the string. */
  lemma {:induction false} JoinSplit(s: string, sep: char)
    ensures Join(Split(s, sep), [sep]) == s
    decreases |s|
  {
    var i := IndexOf(s, sep);
    if i < |s| {
      var rest := s[i + 1..];
      JoinSplit(rest, sep);
      assert Split(s, sep) == [s[..i]] + Split(rest, sep);
      assert s == s[..i] + [sep] + rest;
    }
  }

  lemma {:induction false} IndexOfPrefix(p: string, sep: char, rest: string)
    requires sep !in p
    ensures IndexOf(p + [sep] + rest, sep) == |p|
  {
    if p != [] {
      assert (p + [sep] + rest)[1..] == p[1..] + [sep] + rest;
      IndexOfPrefix(p[1..], sep, rest);
    }
  }

  lemma {:induction false} IndexOfAbsent(s: string, c: char)
    requires c !in s
    ensures IndexOf(s, c) == |s|
  {
    if s != [] {
      IndexOfAbsent(s[1..], c);
    }
  }

  /** Splitting a join of separator-free pieces gives back the pieces. */
  lemma {:induction false} SplitJoin(parts: seq<string>, sep: char)
    requires |parts| >= 1
    requires forall i :: 0 <= i < |parts| ==> sep !in parts[i]
    ensures Split(Join(parts, [sep]), sep) == parts
  {
    if |parts| == 1 {
      IndexOfAbsent(parts[0], sep);
    } else {
      var rest := Join(parts[1..], [sep]);
      IndexOfPrefix(parts[0], sep, rest);
      var s := parts[0] + [sep] + rest;
      assert s[..|parts[0]|] == parts[0];
      assert s[|parts[0]| + 1..] == rest;
      SplitJoin(parts[1..], sep);
    }
  }

  // ---------------------------------------------------------------- decimal numbers

  predicate IsDigit(c: char) {
    '0' <= c <= '9'
  }

  predicate AllDigits(s: string) {
    forall i :: 0 <= i < |s| ==> IsDigit(s[i])
  }

  function DigitChar(d: nat): (c: char)
    requires d < 10
    ensures IsDigit(c)
  {
    ('0' as int + d) as char
  }

  function DigitValue(c: char): (d: nat)
    requires IsDigit(c)
    ensures d < 10
  {
    c as int - '0' as int
  }

  function Pow10(n: nat): (p: nat)
    ensures p >= 1
  {
    if n == 0 then 1 else 10 * Pow10(n - 1)
  }

  lemma LeadingDigitBound(d: nat, rest: nat, p: nat)
    requires d <= 9 && rest < p
    ensures d * p + rest < 10 * p
  {
    assert d * p + rest < (d + 1) * p;
    assert (d + 1) * p <= 10 * p;
  }

  /** The number a string of decimal digits denotes, most significant first. */
  function DigitsValue(s: string): (v: nat)
    requires AllDigits(s)
    ensures v < Pow10(|s|)
  {
    if s == [] then 0
    else
      var rest := DigitsValue(s[1..]);
      var d := DigitValue(s[0]);
      LeadingDigitBound(d, rest, Pow10(|s| - 1));
      d * Pow10(|s| - 1) + rest
  }

  /** Decimal rendering of a natural number, without leading zeros. */
  function NatToString(n: nat): (s: string)
    ensures |s| >= 1 && AllDigits(s)
  {
    if n < 10 then [DigitChar(n)] else NatToString(n / 10) + [DigitChar(n % 10)]
  }

  /** Python `f'{i}'` and JavaScript `${i}` of an integer: a minus sign for
      negative values, no padding. */
  function IntToString(i: int): string {
    if i < 0 then "-" + NatToString(-i) else NatToString(i)
  }

  function Zeros(n: nat): (s: string)
    ensures |s| == n && AllDigits(s)
    ensures forall i :: 0 <= i < n ==> s[i] == '0'
  {
    if n == 0 then "" else "0" + Zeros(n - 1)
  }

  /** Zero-padding to at least `width` digits: `f'{n:02d}'`,
      `String(n).padStart(2, '0')`, strftime's `%m`. */
  function PadZeros(n: nat, width: nat): (s: string)
    ensures AllDigits(s)
  {
    var d := NatToString(n);
    if |d| >= width then d else Zeros(width - |d|) + d
  }

  /** Parsing a non-empty run of decimal digits. */
  function ParseNat(s: string): (r: int)
    ensures r >= -1
    ensures r >= 0 <==> (|s| >= 1 && AllDigits(s))
  {
    if |s| >= 1 && AllDigits(s) then DigitsValue(s) else -1
  }

  lemma ShiftDigit(d: int, p: int, r: int, x: int)
    ensures d * (10 * p) + r * 10 + x == (d * p + r) * 10 + x
  {
  }

  lemma {:induction false} DigitsValueSnoc(s: string, c: char)
    requires AllDigits(s) && IsDigit(c)
    ensures AllDigits(s + [c])
    ensures DigitsValue(s + [c]) == DigitsValue(s) * 10 + DigitValue(c)
  {
    var t := s + [c];
    assert AllDigits(t) by {
      forall i | 0 <= i < |t| ensures IsDigit(t[i]) {
        if i < |s| { assert t[i] == s[i]; }
      }
    }
    if s != [] {
      assert t[1..] == s[1..] + [c];
      assert t[0] == s[0];
      DigitsValueSnoc(s[1..], c);
      var d := DigitValue(s[0]);
      var p := Pow10(|s| - 1);
      assert Pow10(|s|) == 10 * p;
      assert DigitsValue(t) == d * Pow10(|s|) + DigitsValue(t[1..]);
      assert DigitsValue(s) == d * p + DigitsValue(s[1..]);
      ShiftDigit(d, p, DigitsValue(s[1..]), DigitValue(c));
    }
  }

  lemma {:induction false} DigitsValueZeros(z: string, s: string)
    requires AllDigits(s)
    requires forall i :: 0 <= i < |z| ==> z[i] == '0'
    ensures AllDigits(z + s) && DigitsValue(z + s) == DigitsValue(s)
  {
    var t := z + s;
    assert AllDigits(t) by {
      forall i | 0 <= i < |t| ensures IsDigit(t[i]) {
        if i < |z| { assert t[i] == z[i]; } else { assert t[i] == s[i - |z|]; }
      }
    }
    if z != [] {
      assert t[1..] == z[1..] + s;
      assert t[0] == '0' && DigitValue(t[0]) == 0;
      DigitsValueZeros(z[1..], s);
      assert DigitsValue(t) == DigitValue(t[0]) * Pow10(|t| - 1) + DigitsValue(t[1..]);
    } else {
      assert t == s;
    }
  }

  /** Rendering then reading a natural number gives it back. */
  lemma {:induction false} NatToStringValue(n: nat)
    ensures DigitsValue(NatToString(n)) == n
  {
    if n >= 10 {
      NatToStringValue(n / 10);
      DigitsValueSnoc(NatToString(n / 10), DigitChar(n % 10));
    }
  }

  /** A number below 10^w needs at most w digits. */
  lemma {:induction false} NatToStringLength(n: nat, w: nat)
    requires 1 <= w && n < Pow10(w)
    ensures |NatToString(n)| <= w
  {
    if n >= 10 {
      assert Pow10(1) == 10;
      assert w >= 2;
      assert n / 10 < Pow10(w - 1);
      NatToStringLength(n / 10, w - 1);
    }
  }

  /** A number of at least `10^(w-1)` needs at least `w` digits. */
  lemma {:induction false} NatToStringLong(n: nat, w: nat)
    requires 1 <= w && Pow10(w - 1) <= n
    ensures |NatToString(n)| >= w
  {
    if w >= 2 {
      assert Pow10(w - 1) == 10 * Pow10(w - 2);
      assert Pow10(w - 2) <= n / 10;
      NatToStringLong(n / 10, w - 1);
    }
  }

  /** A number with at least `w` digits prints the same padded or not. */
  lemma WideIsUnpadded(i: int, w: nat)
    requires 1 <= w && Pow10(w - 1) <= i
    ensures IntToString(i) == PadZeros(i, w)
  {
    NatToStringLong(i, w);
  }

  lemma NatToStringInjective(a: nat, b: nat)
    requires NatToString(a) == NatToString(b)
    ensures a == b
  {
    NatToStringValue(a);
    NatToStringValue(b);
  }

  /** A printed integer starts with a minus sign exactly when it is negative. */
  lemma IntToStringSign(i: int)
    ensures |IntToString(i)| >= 1 && (IntToString(i)[0] == '-' <==> i < 0)
  {
    if i >= 0 {
      assert IsDigit(NatToString(i)[0]);
    }
  }

  /** Distinct integers print differently. */
  lemma IntToStringInjective(a: int, b: int)
    requires IntToString(a) == IntToString(b)
    ensures a == b
  {
    IntToStringSign(a);
    IntToStringSign(b);
    if a < 0 {
      assert NatToString(-a) == IntToString(a)[1..] && NatToString(-b) == IntToString(b)[1..];
      NatToStringInjective(-a, -b);
    } else {
      NatToStringInjective(a, b);
    }
  }

  /** Padding keeps the value and, for a number that fits, gives exactly
      `width` characters. */
  lemma PadZerosValue(n: nat, width: nat)
    ensures DigitsValue(PadZeros(n, width)) == n
    ensures 1 <= width && n < Pow10(width) ==> |PadZeros(n, width)| == width
  {
    var d := NatToString(n);
    NatToStringValue(n);
    if |d| < width {
      DigitsValueZeros(Zeros(width - |d|), d);
    }
    if 1 <= width && n < Pow10(width) {
      NatToStringLength(n, width);
    }
  }

  lemma PadZerosParse(n: nat, width: nat)
    ensures ParseNat(PadZeros(n, width)) == n
  {
    PadZerosValue(n, width);
  }

  // ---------------------------------------------------------------- comparison

  /** Python's `a < b` on strings (and JavaScript's): code-point
      lexicographic order, a proper prefix sorting first. */
  predicate LexLess(a: string, b: string)
    decreases |a|
  {
    if a == [] then b != []
    else if b == [] then false
    else if a[0] != b[0] then a[0] < b[0]
    else LexLess(a[1..], b[1..])
  }

  lemma {:induction false} LexLessIrreflexive(a: string)
    ensures !LexLess(a, a)
  {
    if a != [] {
      LexLessIrreflexive(a[1..]);
    }
  }

  lemma {:induction false} LexLessTransitive(a: string, b: string, c: string)
    requires LexLess(a, b) && LexLess(b, c)
    ensures LexLess(a, c)
    decreases |a|
  {
    if a != [] && b != [] && c != [] && a[0] == b[0] && b[0] == c[0] {
      LexLessTransitive(a[1..], b[1..], c[1..]);
    }
  }

  /** Two different strings are ordered one way or the other. */
  lemma {:induction false} LexLessTotal(a: string, b: string)
    requires a != b
    ensures LexLess(a, b) || LexLess(b, a)
    decreases |a|
  {
    if a != [] && b != [] && a[0] == b[0] {
      assert a == [a[0]] + a[1..] && b == [b[0]] + b[1..];
      LexLessTotal(a[1..], b[1..]);
    }
  }

  lemma {:induction false} LexLessAsymmetric(a: string, b: string)
    requires LexLess(a, b)
    ensures !LexLess(b, a)
  {
    if LexLess(b, a) {
      LexLessTransitive(a, b, a);
      LexLessIrreflexive(a);
    }
  }

  /** Comparing concatenations whose first parts have equal lengths compares
      the first parts, then the second. */
  lemma {:induction false} LexLessConcat(a1: string, a2: string, b1: string, b2: string)
    requires |a1| == |b1|
    ensures LexLess(a1 + a2, b1 + b2) <==> LexLess(a1, b1) || (a1 == b1 && LexLess(a2, b2))
    decreases |a1|
  {
    if a1 == [] {
      assert a1 + a2 == a2 && b1 + b2 == b2;
    } else {
      assert (a1 + a2)[1..] == a1[1..] + a2 && (b1 + b2)[1..] == b1[1..] + b2;
      LexLessConcat(a1[1..], a2, b1[1..], b2);
      if a1[0] == b1[0] {
        assert a1 == b1 <==> a1[1..] == b1[1..] by {
          assert a1 == [a1[0]] + a1[1..] && b1 == [b1[0]] + b1[1..];
        }
      }
    }
  }

  /** A leading digit outweighs everything after it. */
  lemma LeadingDigitDominates(ds: nat, dt: nat, p: nat, rs: nat, rt: nat)
    requires ds < dt && rs < p
    ensures ds * p + rs < dt * p + rt
  {
    assert ds * p + rs < (ds + 1) * p;
    assert (ds + 1) * p <= dt * p;
  }

  /** Numbers written as a leading digit and a remainder below `p` compare
      by the leading digit first, then by the remainder. */
  lemma LeadingDigitOrder(ds: nat, dt: nat, p: nat, rs: nat, rt: nat)
    requires rs < p && rt < p
    ensures ds * p + rs < dt * p + rt <==> ds < dt || (ds == dt && rs < rt)
  {
    if ds < dt {
      LeadingDigitDominates(ds, dt, p, rs, rt);
    } else if dt < ds {
      LeadingDigitDominates(dt, ds, p, rt, rs);
    }
  }

  /** On equal-length digit strings lexicographic order is numeric order. */
  lemma {:induction false} DigitsOrder(s: string, t: string)
    requires AllDigits(s) && AllDigits(t) && |s| == |t|
    ensures LexLess(s, t) <==> DigitsValue(s) < DigitsValue(t)
  {
    if s != [] {
      DigitsOrder(s[1..], t[1..]);
      var p := Pow10(|s| - 1);
      var ds, dt := DigitValue(s[0]), DigitValue(t[0]);
      var rs, rt := DigitsValue(s[1..]), DigitsValue(t[1..]);
      LeadingDigitOrder(ds, dt, p, rs, rt);
      assert ds < dt <==> s[0] < t[0];
      assert ds == dt <==> s[0] == t[0];
    }
  }

  /** Digit strings of one length are equal exactly when their values are. */
  lemma DigitsInjective(s: string, t: string)
    requires AllDigits(s) && AllDigits(t) && |s| == |t|
    requires DigitsValue(s) == DigitsValue(t)
    ensures s == t
  {
    if s != t {
      LexLessTotal(s, t);
      if LexLess(s, t) {
        DigitsOrder(s, t);
      } else {
        DigitsOrder(t, s);
      }
    }
  }

  /** A string of `w` digits is the `w`-digit padding of its value. */
  lemma PadZerosOfDigits(s: string)
    requires 1 <= |s| && AllDigits(s)
    ensures PadZeros(DigitsValue(s), |s|) == s
  {
    PadZerosValue(DigitsValue(s), |s|);
    DigitsInjective(PadZeros(DigitsValue(s), |s|), s);
  }

  /** Zero-padded numbers of one fixed width compare as their values do. */
  lemma PadZerosOrder(n: nat, m: nat, width: nat)
    requires 1 <= width && n < Pow10(width) && m < Pow10(width)
    ensures LexLess(PadZeros(n, width), PadZeros(m, width)) <==> n < m
  {
    PadZerosValue(n, width);
    PadZerosValue(m, width);
    DigitsOrder(PadZeros(n, width), PadZeros(m, width));
  }

  /** Each element is strictly below every later one. */
  predicate StrictlyAscending(ss: seq<string>) {
    forall i, j :: 0 <= i < j < |ss| ==> LexLess(ss[i], ss[j])
  }

  /** A label after every label of an ascending list extends it. */
  lemma AscendingSnoc(ss: seq<string>, x: string)
    requires StrictlyAscending(ss)
    requires forall i :: 0 <= i < |ss| ==> LexLess(ss[i], x)
    ensures StrictlyAscending(ss + [x])
  {
  }
}
