/**
 * Positional notation as `_ntoa` in pico_fmt/printf.c uses it: how many digits a magnitude
 * has in a base, the digits most significant first, and the Horner re-reading that
 * recovers the magnitude.
 */
module Digits {
  import opened Prelude

  /** The bases the integer converter is ever called with. */
  predicate IsBase(b: nat) { b == 2 || b == 8 || b == 10 || b == 16 }

  /** The character for digit `d`; letters take the case asked for. */
  function DigitChar(d: nat, upper: bool): (c: char)
    requires d < 16
    ensures DigitValue(c) == d
    ensures d < 10 <==> '0' <= c <= '9'
    ensures d >= 10 ==> (upper <==> 'A' <= c <= 'F') && (!upper <==> 'a' <= c <= 'f')
  {
    if d < 10 then ('0' as int + d) as char
    else ((if upper then 'A' else 'a') as int + d - 10) as char
  }

  /** The value of a digit character of any case; 0 for anything else. */
  function DigitValue(c: char): nat
  {
    if '0' <= c <= '9' then c as int - '0' as int
    else if 'a' <= c <= 'z' then c as int - 'a' as int + 10
    else if 'A' <= c <= 'Z' then c as int - 'A' as int + 10
    else 0
  }

  /** A character `DigitChar` can produce for base `b` in the given case. */
  predicate IsDigitOf(c: char, b: nat, upper: bool)
  {
    DigitValue(c) < b &&
    ('0' <= c <= '9' || (upper && 'A' <= c <= 'F') || (!upper && 'a' <= c <= 'f'))
  }

  /** Number of base-`b` digits of `v`; 0 for `v == 0`, as `ndigits` in `_ntoa`. */
  function NumDigits(v: nat, b: nat): (n: nat)
    requires b >= 2
    ensures n == 0 <==> v == 0
  {
    if v == 0 then 0 else if v < b then 1 else 1 + NumDigits(v / b, b)
  }

  lemma DivBounds(v: nat, b: nat, p: nat)
    requires b >= 1
    ensures p * b <= v ==> p <= v / b
    ensures v < p * b ==> v / b < p
  {
    var q, r := v / b, v % b;
    assert v == q * b + r && 0 <= r < b;
    if p * b <= v && q < p {
      MulAtLeast(p - q, b);
    }
    if v < p * b && q >= p {
      if q > p {
        MulAtLeast(q - p, b);
      }
    }
  }

  /** `v / d >= b` means `b * d <= v`. */
  lemma QuotientAtLeast(v: nat, d: nat, b: nat)
    requires d >= 1 && v / d >= b
    ensures b * d <= v
  {
    assert v == (v / d) * d + v % d;
    MulLe(b, v / d, d);
  }

  /** `v / d < b` means `v < b * d`. */
  lemma QuotientBelow(v: nat, d: nat, b: nat)
    requires d >= 1 && v / d < b
    ensures v < b * d
  {
    assert v == (v / d) * d + v % d;
    MulLe(v / d + 1, b, d);
    assert (v / d + 1) * d == (v / d) * d + d;
  }

  /** Dividing `b^k` by `b` gives `b^(k-1)`. */
  lemma PowDiv(b: nat, k: nat)
    requires b >= 1 && k >= 1
    ensures Pow(b, k) / b == Pow(b, k - 1)
  {
    assert Pow(b, k) == Pow(b, k - 1) * b + 0;
    ModByQuotient(Pow(b, k), b, Pow(b, k - 1));
  }

  /** A nonzero `v` with `n` digits lies in [b^(n-1), b^n). */
  lemma {:induction false} NumDigitsBounds(v: nat, b: nat)
    requires b >= 2 && v > 0
    ensures Pow(b, NumDigits(v, b) - 1) <= v < Pow(b, NumDigits(v, b))
  {
    if v < b {
      PowStep(b, 0);
    } else {
      DivBounds(v, b, 1);
      NumDigitsBounds(v / b, b);
      ShiftDigitBounds(v, b);
    }
  }

  /** The bounds for `v / b` give the bounds for `v`, one digit longer. */
  lemma ShiftDigitBounds(v: nat, b: nat)
    requires b >= 2 && v >= b && v / b > 0
    requires Pow(b, NumDigits(v / b, b) - 1) <= v / b < Pow(b, NumDigits(v / b, b))
    ensures Pow(b, NumDigits(v, b) - 1) <= v < Pow(b, NumDigits(v, b))
  {
    var w, r := v / b, v % b;
    DivMod(v, b);
    var n := NumDigits(w, b);
    assert NumDigits(v, b) == n + 1;
    ScaleBounds(v, b, w, r, Pow(b, n - 1), Pow(b, n));
    PowStep(b, n - 1);
    PowStep(b, n);
  }

  lemma PowStep(b: nat, k: nat)
    ensures Pow(b, k + 1) == Pow(b, k) * b
  {
  }

  /** From `lo <= w < hi` and `v == w * b + r` with a remainder `r < b`, scale the bounds. */
  lemma ScaleBounds(v: nat, b: nat, w: nat, r: nat, lo: nat, hi: nat)
    requires v == w * b + r && r < b && lo <= w < hi
    ensures lo * b <= v < hi * b
  {
    MulLe(lo, w, b);
    MulLe(w + 1, hi, b);
    assert (w + 1) * b == w * b + b;
  }

  lemma MulLe(x: nat, y: nat, c: nat)
    requires x <= y
    ensures x * c <= y * c
  {
    assert y * c == x * c + (y - x) * c;
  }

  /** The digit count is the only `n` with b^(n-1) <= v < b^n. */
  lemma {:induction false} NumDigitsUnique(v: nat, b: nat, n: nat)
    requires b >= 2 && n >= 1
    requires Pow(b, n - 1) <= v < Pow(b, n)
    ensures NumDigits(v, b) == n
  {
    if n > 1 {
      assert Pow(b, n - 1) == b * Pow(b, n - 2);
      assert Pow(b, n) == b * Pow(b, n - 1);
      assert v >= b by { assert Pow(b, n - 2) >= 1; MulAtLeast(Pow(b, n - 2), b); }
      DivBounds(v, b, Pow(b, n - 2));
      DivBounds(v, b, Pow(b, n - 1));
      NumDigitsUnique(v / b, b, n - 1);
    }
  }

  /** The leading digit of a `k`-digit number is a digit, and the remainder has `k - 1` digits. */
  lemma LeadingDigitFits(a: nat, b: nat, k: nat)
    requires b >= 1 && k >= 1 && a < Pow(b, k)
    ensures var p := Pow(b, k - 1); p >= 1 && 0 <= a / p < b && 0 <= a % p < p
  {
    var p := Pow(b, k - 1);
    assert Pow(b, k) == p * b;
    DivBounds(a, p, b);
  }

  /**
   * The `k` lowest digits of `a` (which has no more), most significant first: the first is
   * `a / b^(k-1)` and the rest are those of the remainder.
   */
  function EmitDigits(a: nat, k: nat, b: nat, upper: bool): (r: seq<char>)
    requires 2 <= b <= 16 && a < Pow(b, k)
    ensures |r| == k
    decreases k
  {
    if k == 0 then []
    else
      LeadingDigitFits(a, b, k);
      var p := Pow(b, k - 1);
      var q, r := a / p, a % p;
      [DigitChar(q, upper)] + EmitDigits(r, k - 1, b, upper)
  }

  /** One step of `EmitDigits`: the leading digit, then the digits of the remainder. */
  lemma EmitDigitsStep(a: nat, k: nat, b: nat, upper: bool)
    requires 2 <= b <= 16 && k >= 1 && a < Pow(b, k)
    ensures var p := Pow(b, k - 1);
      p >= 1 && 0 <= a / p < b && 0 <= a % p < p
      && EmitDigits(a, k, b, upper) == [DigitChar(a / p, upper)] + EmitDigits(a % p, k - 1, b, upper)
  {
    LeadingDigitFits(a, b, k);
  }

  /** The digits `_ntoa` emits for magnitude `a`: none for zero. */
  function DigitString(a: nat, b: nat, upper: bool): (r: seq<char>)
    requires 2 <= b <= 16
    ensures |r| == NumDigits(a, b)
  {
    if a == 0 then []
    else
      NumDigitsBounds(a, b);
      EmitDigits(a, NumDigits(a, b), b, upper)
  }

  /** `DigitString` spells out exactly `NumDigits` digits. */
  lemma DigitStringSpelled(a: nat, b: nat, upper: bool)
    requires 2 <= b <= 16
    ensures a < Pow(b, NumDigits(a, b))
    ensures DigitString(a, b, upper) == EmitDigits(a, NumDigits(a, b), b, upper)
  {
    if a > 0 {
      NumDigitsBounds(a, b);
    }
  }

  /** A magnitude below `b^k` has at most `k` digits. */
  lemma NumDigitsAtMost(v: nat, b: nat, k: nat)
    requires b >= 2 && v < Pow(b, k)
    ensures NumDigits(v, b) <= k
  {
    if v > 0 {
      NumDigitsBounds(v, b);
      if NumDigits(v, b) - 1 >= k {
        PowMono(b, k, NumDigits(v, b) - 1);
      }
    }
  }

  /** Anything that is not a digit or a letter a-f of either case never occurs among the digits. */
  lemma DigitsExclude(a: nat, b: nat, upper: bool, c: char)
    requires 2 <= b <= 16
    requires !('0' <= c <= '9') && !('a' <= c <= 'f') && !('A' <= c <= 'F')
    ensures c !in DigitString(a, b, upper)
  {
    DigitsShape(a, b, upper);
  }

  /** Decimal digits are '0' to '9' only. */
  lemma DecimalDigitsOnly(a: nat, upper: bool, c: char)
    requires !('0' <= c <= '9')
    ensures c !in DigitString(a, 10, upper)
  {
    DigitsShape(a, 10, upper);
    var s := DigitString(a, 10, upper);
    forall j | 0 <= j < |s|
      ensures s[j] != c
    {
      assert IsDigitOf(s[j], 10, upper);
    }
  }

  /** Reading digits left to right in base `b`, starting from `acc` (Horner's rule). */
  function ReadAcc(s: seq<char>, b: nat, acc: nat): nat
  {
    if s == [] then acc else ReadAcc(s[1..], b, acc * b + DigitValue(s[0]))
  }

  lemma {:induction false} ReadAccAppend(s: seq<char>, t: seq<char>, b: nat, acc: nat)
    ensures ReadAcc(s + t, b, acc) == ReadAcc(t, b, ReadAcc(s, b, acc))
  {
    if s == [] {
      assert s + t == t;
    } else {
      assert (s + t)[0] == s[0] && (s + t)[1..] == s[1..] + t;
      ReadAccAppend(s[1..], t, b, acc * b + DigitValue(s[0]));
    }
  }

  /** Leading zeros do not change the value read. */
  lemma {:induction false} ReadAccLeadingZeros(n: nat, s: seq<char>, b: nat)
    ensures ReadAcc(Zeros(n) + s, b, 0) == ReadAcc(s, b, 0)
  {
    if n == 0 {
      assert Zeros(n) + s == s;
    } else {
      assert (Zeros(n) + s)[0] == '0' && (Zeros(n) + s)[1..] == Zeros(n - 1) + s;
      ReadAccLeadingZeros(n - 1, s, b);
    }
  }

  /** Re-reading the emitted digits gives back the magnitude, shifted in after `acc`. */
  lemma {:induction false} EmitDigitsRoundTrip(a: nat, k: nat, b: nat, upper: bool, acc: nat)
    requires 2 <= b <= 16 && a < Pow(b, k)
    ensures ReadAcc(EmitDigits(a, k, b, upper), b, acc) == acc * Pow(b, k) + a
    decreases k
  {
    if k > 0 {
      var p := Pow(b, k - 1);
      var q, r := a / p, a % p;
      EmitDigitsStep(a, k, b, upper);
      var s := EmitDigits(a, k, b, upper);
      assert s[0] == DigitChar(q, upper) && s[1..] == EmitDigits(r, k - 1, b, upper);
      MulLe(0, acc, b);
      var acc' := acc * b + q;
      EmitDigitsRoundTrip(r, k - 1, b, upper, acc');
      PowStep(b, k - 1);
      Horner(acc, b, q, p, r);
      calc {
        ReadAcc(s, b, acc);
        ReadAcc(s[1..], b, acc');
        acc' * p + r;
        acc * (p * b) + (q * p + r);
        { assert Pow(b, k) == p * b; DivMod(a, p); }
        acc * Pow(b, k) + a;
      }
    }
  }

  lemma DivMod(a: nat, p: nat)
    requires p >= 1
    ensures a == (a / p) * p + a % p
  {
  }

  lemma Horner(acc: nat, b: nat, q: nat, p: nat, r: nat)
    ensures (acc * b + q) * p + r == acc * (p * b) + (q * p + r)
  {
  }

  /** Digit round trip: the digits re-read in base `b` equal the magnitude. */
  lemma DigitsRoundTrip(a: nat, b: nat, upper: bool)
    requires 2 <= b <= 16
    ensures ReadAcc(DigitString(a, b, upper), b, 0) == a
  {
    if a > 0 {
      NumDigitsBounds(a, b);
      EmitDigitsRoundTrip(a, NumDigits(a, b), b, upper, 0);
    }
  }

  /** The emitted digits are digits of base `b`, letters in the case asked for. */
  lemma {:induction false} EmitDigitsAlphabet(a: nat, k: nat, b: nat, upper: bool)
    requires 2 <= b <= 16 && a < Pow(b, k)
    ensures forall j :: 0 <= j < k ==> IsDigitOf(EmitDigits(a, k, b, upper)[j], b, upper)
    decreases k
  {
    if k > 0 {
      LeadingDigitFits(a, b, k);
      EmitDigitsAlphabet(a % Pow(b, k - 1), k - 1, b, upper);
    }
  }

  /**
   * A nonzero magnitude has exactly `NumDigits` digits, all of base `b`, the first of them
   * not '0', and every letter among them is upper case iff `upper`.
   */
  lemma DigitsShape(a: nat, b: nat, upper: bool)
    requires 2 <= b <= 16
    ensures |DigitString(a, b, upper)| == NumDigits(a, b)
    ensures forall j :: 0 <= j < |DigitString(a, b, upper)| ==> IsDigitOf(DigitString(a, b, upper)[j], b, upper)
    ensures a > 0 ==> DigitString(a, b, upper)[0] != '0'
  {
    if a > 0 {
      var k := NumDigits(a, b);
      NumDigitsBounds(a, b);
      EmitDigitsAlphabet(a, k, b, upper);
      LeadingDigitFits(a, b, k);
      var p := Pow(b, k - 1);
      DivBounds(a, p, 1);
    }
  }
}
