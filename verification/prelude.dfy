/** Integer widths, padding arithmetic and C-string helpers shared by the formatter model. */
module Prelude {

  datatype Option<T> = None | Some(value: T)

  /** One more than the largest `unsigned int` (the formatter's width and precision type). */
  const U32: nat := 0x1_0000_0000

  /** `b` raised to the `k`-th power. */
  function Pow(b: nat, k: nat): (r: nat)
    ensures b >= 1 ==> r >= 1
  {
    if k == 0 then 1 else b * Pow(b, k - 1)
  }

  /** Powers of a positive base grow with the exponent. */
  lemma {:induction false} PowMono(b: nat, j: nat, k: nat)
    requires b >= 1 && j <= k
    ensures Pow(b, j) <= Pow(b, k)
  {
    if j < k {
      PowMono(b, j, k - 1);
      assert Pow(b, k) == b * Pow(b, k - 1);
      assert b * Pow(b, k - 1) >= Pow(b, k - 1);
    }
  }

  /** Exponents add when powers of one base multiply. */
  lemma {:induction false} PowAdd(b: nat, i: nat, j: nat)
    ensures Pow(b, i + j) == Pow(b, i) * Pow(b, j)
  {
    if j > 0 {
      PowAdd(b, i, j - 1);
      var x, y := Pow(b, i), Pow(b, j - 1);
      calc {
        Pow(b, i + j);
        b * Pow(b, i + j - 1);
        b * (x * y);
        { MulSwap(b, x, y); }
        x * (b * y);
        x * Pow(b, j);
      }
    }
  }

  lemma MulSwap(a: int, x: int, y: int)
    ensures a * (x * y) == x * (a * y)
  {
  }

  /** The powers of two that bound C's 8- and 16-bit types. */
  lemma Pow2Small()
    ensures Pow(2, 7) == 0x80 && Pow(2, 8) == 0x100 && Pow(2, 15) == 0x8000 && Pow(2, 16) == 0x1_0000
  {
    assert Pow(2, 4) == 16;
    assert Pow(2, 7) == 0x80;
    PowAdd(2, 8, 7);
  }

  /** The powers of two that bound C's 32- and 64-bit types. */
  lemma Pow2Large()
    ensures Pow(2, 31) == 0x8000_0000 && Pow(2, 32) == 0x1_0000_0000
    ensures Pow(2, 63) == 0x8000_0000_0000_0000 && Pow(2, 64) == 0x1_0000_0000_0000_0000
  {
    Pow2Small();
    PowAdd(2, 16, 15);
    PowAdd(2, 32, 31);
  }

  /** C's conversion of `x` to an unsigned type that is `bits` wide: reduction modulo 2^bits. */
  function Unsigned(x: int, bits: nat): (r: nat)
    ensures r < Pow(2, bits)
    ensures 0 <= x < Pow(2, bits) ==> r == x
  {
    var m := Pow(2, bits);
    if 0 <= x < m then ModByQuotient(x, m, 0); x % m else x % m
  }

  /** Two's-complement reading of the low `bits` bits of `x` (a truncating cast to a signed type). */
  function Signed(x: int, bits: nat): (r: int)
    requires bits >= 1
    ensures -(Pow(2, bits - 1) as int) <= r < Pow(2, bits - 1)
    ensures -(Pow(2, bits - 1) as int) <= x < Pow(2, bits - 1) ==> r == x
  {
    var h: int := Pow(2, bits - 1);
    var m: int := Pow(2, bits);
    assert m == 2 * h;
    var u := x % m;
    assert 0 <= u < m;
    if 0 <= x < h then ModByQuotient(x, m, 0); u
    else if -h <= x < 0 then ModByQuotient(x, m, -1); u - m
    else if u >= h then u - m
    else u
  }

  /** Reducing modulo `m` before a multiply-and-add step gives the same residue (`_atoi`). */
  lemma ModMulAdd(x: int, c: int, d: int, m: int)
    requires m > 0
    ensures ((x % m) * c + d) % m == (x * c + d) % m
  {
    var q, r := x / m, x % m;
    assert x == q * m + r;
    var y := r * c + d;
    var q2, r2 := y / m, y % m;
    assert y == q2 * m + r2 && 0 <= r2 < m;
    assert x * c + d == (q * c + q2) * m + r2;
    ModByQuotient(x * c + d, m, q * c + q2);
  }

  /** Euclidean division pinned down by a known quotient. */
  lemma ModByQuotient(x: int, m: int, q: int)
    requires m > 0 && q * m <= x < q * m + m
    ensures x / m == q && x % m == x - q * m
  {
    var d, r := x / m, x % m;
    assert x == d * m + r && 0 <= r < m;
    if d > q {
      MulAtLeast(d - q, m);
    } else if d < q {
      MulAtLeast(q - d, m);
    }
  }

  /** Quotient and remainder of naturals are natural. */
  lemma DivModNat(a: int, b: int)
    requires a >= 0 && b >= 1
    ensures a / b >= 0 && 0 <= a % b < b
  {
  }

  lemma MulAtLeast(a: int, m: int)
    requires a >= 1 && m > 0
    ensures a * m >= m
  {
    assert a * m == (a - 1) * m + m;
    assert (a - 1) * m >= 0;
  }

  function Max(a: nat, b: nat): nat { if a > b then a else b }

  function Min(a: nat, b: nat): nat { if a < b then a else b }

  /** How many more items take a count of `have` up to `want` (C: `for (i = have; i < want; i++)`). */
  function Gap(want: nat, have: nat): (r: nat)
    ensures have + r == Max(want, have)
  {
    if have < want then want - have else 0
  }

  /** `n` copies of `c`. */
  function Fill(c: char, n: nat): (r: seq<char>)
    ensures |r| == n && forall k :: 0 <= k < n ==> r[k] == c
  {
    seq(n, _ => c)
  }

  /** A fill of `c` holds no other character. */
  lemma FillHasOnly(c: char, n: nat, x: char)
    requires x != c
    ensures x !in Fill(c, n)
  {
  }

  function Spaces(n: nat): (r: seq<char>)
    ensures |r| == n && forall k :: 0 <= k < n ==> r[k] == ' '
  {
    Fill(' ', n)
  }

  function Zeros(n: nat): (r: seq<char>)
    ensures |r| == n && forall k :: 0 <= k < n ==> r[k] == '0'
  {
    Fill('0', n)
  }

  /** Regrouping a concatenation of three pieces. */
  lemma AppendAssoc3(a: seq<char>, b: seq<char>, c: seq<char>)
    ensures a + (b + c) == a + b + c
  {
  }

  /** Regrouping a concatenation of four pieces. */
  lemma AppendAssoc(a: seq<char>, b: seq<char>, c: seq<char>, d: seq<char>)
    ensures a + b + c + d == a + (b + c + d)
  {
  }

  /** The byte at `i` of a NUL-terminated buffer held in `s`: past the end reads the terminator. */
  function At(s: seq<char>, i: nat): char
  {
    if i < |s| then s[i] else '\0'
  }

  /** C `strlen`: the index of the first NUL, or the whole sequence when it holds none. */
  function CStrLen(s: seq<char>): (n: nat)
    ensures n <= |s|
    ensures forall k :: 0 <= k < n ==> s[k] != '\0'
    ensures n < |s| ==> s[n] == '\0'
  {
    if s == [] || s[0] == '\0' then 0 else 1 + CStrLen(s[1..])
  }

  /** A sequence without a NUL is a whole C string. */
  lemma {:induction false} CStrLenWhole(s: seq<char>)
    requires forall k :: 0 <= k < |s| ==> s[k] != '\0'
    ensures CStrLen(s) == |s|
  {
    if s != [] {
      CStrLenWhole(s[1..]);
    }
  }

  function Reverse(s: seq<char>): (r: seq<char>)
    ensures |r| == |s|
  {
    if s == [] then [] else Reverse(s[1..]) + [s[0]]
  }

  /** Position `k` of the reversal is position `|s| - 1 - k` of the original. */
  lemma {:induction false} ReverseAt(s: seq<char>, k: nat)
    requires k < |s|
    ensures Reverse(s)[k] == s[|s| - 1 - k]
  {
    if k < |s| - 1 {
      ReverseAt(s[1..], k);
    }
  }

  /** Reversal is its own inverse. */
  lemma ReverseInvolution(s: seq<char>)
    ensures Reverse(Reverse(s)) == s
  {
    var r := Reverse(Reverse(s));
    forall k | 0 <= k < |s|
      ensures r[k] == s[k]
    {
      ReverseAt(Reverse(s), k);
      ReverseAt(s, |s| - 1 - k);
    }
  }
}
