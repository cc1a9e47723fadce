/** Go strings: the built-in order, decimal printing, and fields joined by a separator. */
module GoText {

  // ---------- order ----------

  /** Go's `a < b` on strings: lexicographic. `a >= b` is written `!Less(a, b)`. */
  predicate Less(a: string, b: string) {
    b != [] && (a == [] || a[0] < b[0] || (a[0] == b[0] && Less(a[1..], b[1..])))
  }

  /** The order told by the first place where two strings differ. */
  lemma {:induction false} LessIff(a: string, b: string)
    ensures Less(a, b) <==>
              exists k: nat :: k <= |a| && k < |b| && a[..k] == b[..k] && (k == |a| || a[k] < b[k])
  {
    if a != [] && b != [] && a[0] == b[0] {
      var u, v := a[1..], b[1..];
      LessIff(u, v);
      if k: nat :| k <= |u| && k < |v| && u[..k] == v[..k] && (k == |u| || u[k] < v[k]) {
        assert a[..k + 1] == [a[0]] + u[..k] == [b[0]] + v[..k] == b[..k + 1];
      }
      if k: nat :| k <= |a| && k < |b| && a[..k] == b[..k] && (k == |a| || a[k] < b[k]) {
        assert k > 0 && u[..k - 1] == a[..k][1..] == b[..k][1..] == v[..k - 1];
      }
    } else if Less(a, b) {
      assert a[..0] == b[..0];
    } else if a != [] && b != [] {
      assert forall k: nat | 0 < k <= |a| && k < |b| :: a[..k][0] != b[..k][0];
    }
  }

  lemma {:induction false} LessTotal(a: string, b: string)
    ensures Less(a, b) || a == b || Less(b, a)
    ensures !(Less(a, b) && Less(b, a))
    ensures !Less(a, a)
  {
    if a != [] {
      LessTotal(a[1..], a[1..]);
    }
    if a != [] && b != [] && a[0] == b[0] {
      LessTotal(a[1..], b[1..]);
      assert a == [a[0]] + a[1..] && b == [b[0]] + b[1..];
    }
  }

  lemma {:induction false} LessTransitive(a: string, b: string, c: string)
    requires !Less(b, a) && !Less(c, b)
    ensures !Less(c, a)
    ensures Less(a, b) || Less(b, c) ==> Less(a, c)
  {
    if a != [] && b != [] && c != [] && a[0] == b[0] == c[0] {
      LessTransitive(a[1..], b[1..], c[1..]);
    }
  }

  /** Two strings decide `<` inside their common length, or the shorter one is the smaller. */
  lemma {:induction false} LessByPrefix(a: string, b: string)
    requires |a| < |b|
    ensures Less(a, b) <==> !Less(b[..|a|], a)
    ensures Less(b, a) <==> Less(b[..|a|], a)
  {
    if a != [] {
      assert b[..|a|][1..] == b[1..][..|a| - 1];
      if a[0] == b[0] {
        LessByPrefix(a[1..], b[1..]);
      }
    }
  }

  // ---------- decimal numbers ----------

  function Digit(d: nat): (c: char)
    requires d < 10
    ensures IsDigit(c) && DigitValue(c) == d
  {
    ('0' as int + d) as char
  }

  predicate IsDigit(c: char) { '0' <= c <= '9' }

  function DigitValue(c: char): int { c as int - '0' as int }

  /** `%d` of a non-negative number. */
  function PrintNat(n: nat): string {
    if n < 10 then [Digit(n)] else PrintNat(n / 10) + [Digit(n % 10)]
  }

  /** `%d`. */
  function PrintInt(n: int): string {
    if n < 0 then "-" + PrintNat(-n) else PrintNat(n)
  }

  predicate IsDecimal(s: string) {
    s != [] && forall i :: 0 <= i < |s| ==> IsDigit(s[i])
  }

  function DecimalValue(s: string): int {
    if s == [] then 0 else 10 * DecimalValue(s[..|s| - 1]) + DigitValue(s[|s| - 1])
  }

  lemma AppendDigit(s: string, c: char)
    ensures DecimalValue(s + [c]) == 10 * DecimalValue(s) + DigitValue(c)
  {
    assert (s + [c])[..|s|] == s;
  }

  lemma {:induction false} PrintNatRoundTrip(n: nat)
    ensures IsDecimal(PrintNat(n))
    ensures DecimalValue(PrintNat(n)) == n
  {
    if n < 10 {
      AppendDigit([], Digit(n));
    } else {
      PrintNatRoundTrip(n / 10);
      AppendDigit(PrintNat(n / 10), Digit(n % 10));
    }
  }

  lemma PrintIntInjective(m: int, n: int)
    ensures PrintInt(m) == PrintInt(n) ==> m == n
  {
    var a, b := PrintNat(if m < 0 then -m else m), PrintNat(if n < 0 then -n else n);
    PrintNatRoundTrip(if m < 0 then -m else m);
    PrintNatRoundTrip(if n < 0 then -n else n);
    assert IsDigit(a[0]) && IsDigit(b[0]);
    assert ("-" + a)[1..] == a && ("-" + b)[1..] == b;
  }

  function Power10(n: nat): nat {
    if n == 0 then 1 else 10 * Power10(n - 1)
  }

  /** The leading digit weighs `10^|t|`. */
  lemma {:induction false} DecimalFromFront(c: char, t: string)
    ensures DecimalValue([c] + t) == DigitValue(c) * Power10(|t|) + DecimalValue(t)
  {
    if t == [] {
      AppendDigit([], c);
      assert [c] + t == [] + [c];
    } else {
      var u, d := t[..|t| - 1], t[|t| - 1];
      DecimalFromFront(c, u);
      AppendDigit([c] + u, d);
      assert [c] + t == ([c] + u) + [d];
      Scale(DigitValue(c), Power10(|u|));
    }
  }

  lemma Scale(x: int, p: int)
    ensures 10 * (x * p) == x * (10 * p)
  {
  }

  lemma {:induction false} DecimalBound(s: string)
    requires s == [] || IsDecimal(s)
    ensures 0 <= DecimalValue(s) < Power10(|s|)
  {
    if s != [] {
      DecimalBound(s[..|s| - 1]);
    }
  }

  lemma LeadingDigitDecides(x: int, y: int, p: int, u: int, v: int)
    requires x < y && 0 <= u < p && 0 <= v
    ensures x * p + u < y * p + v
  {
    assert x * p + p == (x + 1) * p <= y * p;
  }

  /** On numerals of one length the string order is the numeric order. */
  lemma {:induction false} EqualLengthOrder(a: string, b: string)
    requires IsDecimal(a) && IsDecimal(b) && |a| == |b|
    ensures Less(a, b) <==> DecimalValue(a) < DecimalValue(b)
  {
    var u, v := a[1..], b[1..];
    DecimalFromFront(a[0], u);
    DecimalFromFront(b[0], v);
    assert a == [a[0]] + u && b == [b[0]] + v;
    DecimalBound(u);
    DecimalBound(v);
    var p, x, y := Power10(|u|), DigitValue(a[0]), DigitValue(b[0]);
    if x < y {
      LeadingDigitDecides(x, y, p, DecimalValue(u), DecimalValue(v));
    } else if y < x {
      LeadingDigitDecides(y, x, p, DecimalValue(v), DecimalValue(u));
    } else if u != [] {
      EqualLengthOrder(u, v);
    }
  }

  /** A numeral without leading zeros, such as an etcd revision. */
  predicate IsCanonical(s: string) {
    IsDecimal(s) && s[0] != '0'
  }

  lemma {:induction false} Power10Monotone(m: nat, n: nat)
    requires m <= n
    ensures 1 <= Power10(m) <= Power10(n)
  {
    if m < n {
      Power10Monotone(m, n - 1);
    } else if n > 0 {
      Power10Monotone(m - 1, n - 1);
    }
  }

  lemma LongerIsGreater(a: string, b: string)
    requires IsCanonical(a) && IsCanonical(b) && |a| < |b|
    ensures DecimalValue(a) < DecimalValue(b)
  {
    var v := b[1..];
    DecimalFromFront(b[0], v);
    assert b == [b[0]] + v;
    DecimalBound(a);
    DecimalBound(v);
    Power10Monotone(|a|, |v|);
    AtLeastOnce(DigitValue(b[0]), Power10(|v|));
  }

  lemma AtLeastOnce(x: int, p: int)
    requires x >= 1 && p >= 0
    ensures x * p >= p
  {
  }

  /** When comparing two numerals as text decides the same as comparing the numbers: equal lengths, or a
      shorter numeral that is not above the other's leading digits. */
  predicate ComparableAsText(a: string, b: string) {
    if |a| < |b| then !Less(b[..|a|], a)
    else if |b| < |a| then !Less(a[..|b|], b)
    else true
  }

  lemma TextOrderAgreesIff(a: string, b: string)
    requires IsCanonical(a) && IsCanonical(b)
    ensures (Less(a, b) <==> DecimalValue(a) < DecimalValue(b)) <==> ComparableAsText(a, b)
  {
    if |a| < |b| {
      LongerIsGreater(a, b);
      LessByPrefix(a, b);
    } else if |b| < |a| {
      LongerIsGreater(b, a);
      LessByPrefix(b, a);
    } else {
      EqualLengthOrder(a, b);
    }
  }

  // ---------- joined fields ----------

  /** With separator-free heads, the text `a`, separator, `x` determines both `a` and `x`. */
  lemma SplitUnique(sep: char, a: string, x: string, b: string, y: string)
    requires sep !in a && sep !in b
    requires a + [sep] + x == b + [sep] + y
    ensures a == b && x == y
  {
    var s, t := a + [sep] + x, b + [sep] + y;
    assert forall k :: 0 <= k < |a| ==> s[k] == a[k] && s[k] in a;
    assert forall k :: 0 <= k < |b| ==> t[k] == b[k] && t[k] in b;
    assert s[|a|] == sep && t[|b|] == sep;
    assert |a| == |b|;
    assert a == s[..|a|] && b == t[..|b|];
    assert x == s[|a| + 1..] && y == t[|b| + 1..];
  }
}
