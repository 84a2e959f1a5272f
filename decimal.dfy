/** Decimal text of non-negative integers as Python writes it: `str(n)`,
    the `zfill` padding applied to it, and the number a digit string
    denotes (what `int(s)` reads back, leading zeros included). */
module Decimal {
  import opened TextOrder

  predicate IsDigit(c: char) { '0' <= c <= '9' }

  predicate AllDigits(s: string) { forall k :: 0 <= k < |s| ==> IsDigit(s[k]) }

  function DigitValue(c: char): (d: nat)
    requires IsDigit(c)
    ensures d < 10
  {
    c as int - '0' as int
  }

  function DigitChar(d: nat): (c: char)
    requires d < 10
    ensures IsDigit(c) && DigitValue(c) == d
  {
    ('0' as int + d) as char
  }

  function Pow10(k: nat): (p: nat)
    ensures p >= 1
  {
    if k == 0 then 1 else 10 * Pow10(k - 1)
  }

  /** The number a digit string denotes, most significant digit first. */
  function Value(s: string): nat
    requires AllDigits(s)
  {
    if s == [] then 0 else DigitValue(s[0]) * Pow10(|s| - 1) + Value(s[1..])
  }

  /** `str(n)` for `n >= 0`: at least one digit, no sign, and a leading
      '0' only for zero itself. */
  function Str(n: nat): (s: string)
    ensures AllDigits(s) && |s| >= 1
    ensures |s| == 1 <==> n < 10
    ensures s[0] == '0' <==> n == 0
  {
    if n < 10 then [DigitChar(n)] else Str(n / 10) + [DigitChar(n % 10)]
  }

  function Zeros(k: nat): (z: string)
    ensures |z| == k && forall j :: 0 <= j < k ==> z[j] == '0'
  {
    if k == 0 then [] else "0" + Zeros(k - 1)
  }

  predicate HasSign(s: string) { |s| > 0 && (s[0] == '+' || s[0] == '-') }

  /** `s.zfill(width)`: pad on the left with '0' up to `width` characters,
      keeping a leading sign in front of the padding; a string already
      `width` long or longer comes back unchanged, so nothing is cut. */
  function ZFill(s: string, width: nat): (r: string)
    ensures |r| == if |s| < width then width else |s|
    ensures !HasSign(s) ==>
      r[|r| - |s|..] == s && forall j :: 0 <= j < |r| - |s| ==> r[j] == '0'
    ensures HasSign(s) ==>
      r[0] == s[0] && r[|r| - |s| + 1..] == s[1..] &&
      forall j :: 1 <= j <= |r| - |s| ==> r[j] == '0'
  {
    if |s| >= width then s
    else if HasSign(s) then [s[0]] + Zeros(width - |s|) + s[1..]
    else Zeros(width - |s|) + s
  }

  /** `s.lstrip("0")`. */
  function StripLeadingZeros(s: string): string
  {
    if s != [] && s[0] == '0' then StripLeadingZeros(s[1..]) else s
  }

  lemma {:induction false} ValueBound(s: string)
    requires AllDigits(s)
    ensures Value(s) < Pow10(|s|)
  {
    if s != [] {
      var d, p := DigitValue(s[0]), Pow10(|s| - 1);
      assert AllDigits(s[1..]);
      ValueBound(s[1..]);
      assert Value(s) == d * p + Value(s[1..]);
      MulSucc(d, p);
      MulMonotone(d + 1, 10, p);
      assert Pow10(|s|) == 10 * p;
    }
  }

  /** Appending a digit multiplies the value by ten and adds the digit. */
  lemma {:induction false} ValueAppend(s: string, c: char)
    requires AllDigits(s) && IsDigit(c)
    ensures AllDigits(s + [c])
    ensures Value(s + [c]) == 10 * Value(s) + DigitValue(c)
  {
    var t := s + [c];
    if s != [] {
      assert t[0] == s[0];
      assert t[1..] == s[1..] + [c];
      ValueAppend(s[1..], c);
      var d, p := DigitValue(s[0]), Pow10(|s| - 1);
      assert Pow10(|t| - 1) == 10 * p;
      assert Value(t) == d * (10 * p) + Value(s[1..] + [c]);
      MulShift(d, p);
      assert Value(s) == d * p + Value(s[1..]);
    } else {
      assert t == [c] && t[1..] == [];
    }
  }

  lemma MulShift(d: nat, p: nat)
    ensures d * (10 * p) == 10 * (d * p)
  {
  }

  /** `int(str(n)) == n`. */
  lemma {:induction false} ValueOfStr(n: nat)
    ensures Value(Str(n)) == n
  {
    if n >= 10 {
      ValueOfStr(n / 10);
      ValueAppend(Str(n / 10), DigitChar(n % 10));
    } else {
      var s := Str(n);
      assert s[1..] == [];
    }
  }

  /** Leading zeros add nothing to the value. */
  lemma {:induction false} ValueLeadingZeros(k: nat, s: string)
    requires AllDigits(s)
    ensures AllDigits(Zeros(k) + s) && Value(Zeros(k) + s) == Value(s)
  {
    if k > 0 {
      var t := Zeros(k) + s;
      assert t == "0" + (Zeros(k - 1) + s);
      ValueLeadingZeros(k - 1, s);
      assert t[1..] == Zeros(k - 1) + s;
      assert AllDigits(t);
      assert DigitValue(t[0]) == 0;
      assert Value(t) == 0 * Pow10(|t| - 1) + Value(t[1..]);
    } else {
      assert Zeros(k) + s == s;
    }
  }

  /** A number below 10^w has at most w decimal digits. */
  lemma {:induction false} StrLength(n: nat, w: nat)
    requires 1 <= w
    ensures n < Pow10(w) ==> |Str(n)| <= w
  {
    if 10 <= n < Pow10(w) {
      assert w >= 2;
      assert n / 10 < Pow10(w - 1);
      StrLength(n / 10, w - 1);
    }
  }

  lemma {:induction false} StripZerosPrefix(k: nat, s: string)
    ensures StripLeadingZeros(Zeros(k) + s) == StripLeadingZeros(s)
  {
    if k > 0 {
      var rest := Zeros(k - 1) + s;
      var t := Zeros(k) + s;
      assert t == "0" + rest;
      assert t[0] == '0' && t[1..] == rest;
      assert StripLeadingZeros(t) == StripLeadingZeros(rest);
      StripZerosPrefix(k - 1, s);
    } else {
      assert Zeros(k) + s == s;
    }
  }

  /** The zero-padded index `str(i).zfill(w)`: digits only, read back as
      `i`, and with its leading zeros removed it is `str(i)` again (the
      empty string for zero, whose only digit is a '0'). */
  lemma PaddedIndexDecodes(i: nat, w: nat)
    ensures AllDigits(ZFill(Str(i), w))
    ensures Value(ZFill(Str(i), w)) == i
    ensures StripLeadingZeros(ZFill(Str(i), w)) == if i == 0 then [] else Str(i)
  {
    var s := Str(i);
    var k := ZFillUnsigned(s, w);
    ValueLeadingZeros(k, s);
    ValueOfStr(i);
    StripZerosPrefix(k, s);
    if i == 0 {
      assert s == "0" && s[1..] == [];
    }
  }

  /** Padding a string without a sign only prepends zeros. */
  lemma ZFillUnsigned(s: string, w: nat) returns (k: nat)
    requires !HasSign(s)
    ensures ZFill(s, w) == Zeros(k) + s
  {
    if |s| >= w {
      k := 0;
      assert Zeros(0) + s == s;
    } else {
      k := w - |s|;
    }
  }

  /** Two digit strings of the same width compare like the numbers they
      denote. */
  lemma {:induction false} EqualWidthOrder(a: string, b: string)
    requires AllDigits(a) && AllDigits(b) && |a| == |b|
    requires Value(a) < Value(b)
    ensures LexLess(a, b)
  {
    assert |a| > 0;
    var da, db, p := DigitValue(a[0]), DigitValue(b[0]), Pow10(|a| - 1);
    LeadingDigitBounds(a);
    LeadingDigitBounds(b);
    MulMonotone(db + 1, da, p);
    assert da <= db;
    if da < db {
      assert a[0] < b[0];
    } else {
      assert a[0] == b[0];
      assert Value(a[1..]) < Value(b[1..]);
      EqualWidthOrder(a[1..], b[1..]);
    }
  }

  /** Equal width and equal value leave no room for two different digit
      strings. */
  lemma {:induction false} EqualValueSameWidth(a: string, b: string)
    requires AllDigits(a) && AllDigits(b) && |a| == |b|
    requires Value(a) == Value(b)
    ensures a == b
  {
    if a != [] {
      var da, db, p := DigitValue(a[0]), DigitValue(b[0]), Pow10(|a| - 1);
      LeadingDigitBounds(a);
      LeadingDigitBounds(b);
      MulMonotone(da + 1, db, p);
      MulMonotone(db + 1, da, p);
      assert da == db;
      assert a[0] == b[0];
      assert Value(a[1..]) == Value(b[1..]);
      EqualValueSameWidth(a[1..], b[1..]);
      assert a == [a[0]] + a[1..];
      assert b == [b[0]] + b[1..];
    }
  }

  /** For digit strings of one width, string order and numeric order are
      the same relation. */
  lemma EqualWidthOrderIff(a: string, b: string)
    requires AllDigits(a) && AllDigits(b) && |a| == |b|
    ensures LexLess(a, b) <==> Value(a) < Value(b)
  {
    if Value(a) < Value(b) {
      EqualWidthOrder(a, b);
    } else if Value(a) == Value(b) {
      EqualValueSameWidth(a, b);
      LexLessIrreflexive(a);
    } else {
      EqualWidthOrder(b, a);
      LexLessAsymmetric(b, a);
    }
  }

  /** The leading digit fixes the value to within one power of ten. */
  lemma LeadingDigitBounds(s: string)
    requires AllDigits(s) && s != []
    ensures DigitValue(s[0]) * Pow10(|s| - 1) <= Value(s)
    ensures Value(s) < (DigitValue(s[0]) + 1) * Pow10(|s| - 1)
  {
    var d, p := DigitValue(s[0]), Pow10(|s| - 1);
    ValueBound(s[1..]);
    assert Value(s) == d * p + Value(s[1..]);
    MulSucc(d, p);
  }

  lemma MulSucc(d: nat, p: nat)
    ensures (d + 1) * p == d * p + p
  {
  }

  lemma MulMonotone(x: nat, y: nat, p: nat)
    ensures x <= y ==> x * p <= y * p
  {
  }
}
