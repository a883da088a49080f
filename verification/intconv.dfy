/**
 * The integer converter of pico_fmt/printf.c: `_ntoa_intro`, `_ntoa_outro` and the `_ntoa`
 * family (one method here: the `int`, `long` and `long long` copies differ only in the
 * width of the magnitude, which the handlers narrow before the call).
 */
module IntConv {
  import opened Prelude
  import opened Digits
  import opened Sink
  import opened Helpers

  /** The `sign` argument of `_ntoa_intro`: 0 for a zero magnitude, else -1 or 1. */
  function SignOf(absval: nat, negative: bool): int
  {
    if absval == 0 then 0 else if negative then -1 else 1
  }

  /** `nextra`: how many sign or base-prefix characters precede the digits. */
  function Nextra(flags: bv8, base: nat, sign: int): nat
    requires IsBase(base)
  {
    if base == 2 then (if Has(flags, FLAG_HASH) && sign != 0 then 2 else 0)
    else if base == 8 then (if Has(flags, FLAG_HASH) && sign != 0 then 1 else 0)
    else if base == 10 then (if Has(flags, FLAG_PLUS | FLAG_SPACE) then 1 else if sign < 0 then 1 else 0)
    else (if Has(flags, FLAG_HASH) && sign != 0 then 2 else 0)
  }

  /** The sign or base prefix `_ntoa_intro` emits. */
  function BasePrefix(flags: bv8, base: nat, sign: int, specifier: char): (r: seq<char>)
    requires IsBase(base)
  {
    if base == 2 then (if Has(flags, FLAG_HASH) && sign != 0 then "0b" else "")
    else if base == 8 then (if Has(flags, FLAG_HASH) && sign != 0 then "0" else "")
    else if base == 10 then
      (if sign < 0 then "-" else if Has(flags, FLAG_PLUS) then "+" else if Has(flags, FLAG_SPACE) then " " else "")
    else (if Has(flags, FLAG_HASH) && sign != 0 then ['0', specifier] else "")
  }

  /** A given precision switches the '0' flag off. */
  function IntroFlags(flags: bv8): bv8
  {
    if Has(flags, FLAG_PRECISION) then flags & !FLAG_ZEROPAD else flags
  }

  /**
   * Leading spaces: up to the width from `max(precision, ndigits) + nextra`, a sum done in
   * `unsigned int` (so it wraps for a precision near 2^32).
   */
  function LeadSpaces(d: Directive, base: nat, ndigits: nat, sign: int): nat
    requires IsBase(base)
  {
    var f := IntroFlags(d.flags);
    if d.width != 0 && !Has(f, FLAG_LEFT) && !Has(f, FLAG_ZEROPAD) then
      Gap(d.width, (Max(d.precision, ndigits) + Nextra(d.flags, base, sign)) % U32)
    else 0
  }

  /**
   * Leading zeros: up to the precision when one is given; else up to the width under '0'
   * (not under '-'); else one lone '0' for a zero magnitude.
   */
  function ZeroCount(d: Directive, base: nat, ndigits: nat, sign: int): nat
    requires IsBase(base)
  {
    var f := IntroFlags(d.flags);
    if Has(f, FLAG_PRECISION) then Gap(d.precision, ndigits)
    else if d.width != 0 && !Has(f, FLAG_LEFT) && Has(f, FLAG_ZEROPAD) then
      Gap(d.width, ndigits + Nextra(d.flags, base, sign))
    else if sign == 0 then 1
    else 0
  }

  /** Everything `_ntoa_intro` emits. */
  function IntroText(d: Directive, base: nat, ndigits: nat, sign: int): seq<char>
    requires IsBase(base)
  {
    Spaces(LeadSpaces(d, base, ndigits, sign)) + BasePrefix(d.flags, base, sign, d.specifier)
      + Zeros(ZeroCount(d, base, ndigits, sign))
  }

  /** Everything `_ntoa` emits: the intro, the digits, then trailing spaces up to the width. */
  function NtoaText(d: Directive, absval: nat, negative: bool, base: nat): seq<char>
    requires IsBase(base)
  {
    var body := IntroText(d, base, NumDigits(absval, base), SignOf(absval, negative))
      + DigitString(absval, base, IsUpper(d.specifier));
    body + Spaces(Gap(d.width, |body|))
  }

  /** The digit-counting loop of `_ntoa`: `ndigits` digits, `div` the place of the first. */
  method CountDigits(absval: nat, base: nat) returns (ndigits: nat, div: nat)
    requires IsBase(base)
    ensures ndigits == NumDigits(absval, base)
    ensures absval > 0 ==> div == Pow(base, ndigits - 1)
  {
    ndigits, div := 0, 0;
    if absval != 0 {
      ndigits, div := 1, 1;
      while absval / div >= base
        invariant ndigits >= 1 && div == Pow(base, ndigits - 1) && 1 <= div <= absval
        decreases absval - div
      {
        QuotientAtLeast(absval, div, base);
        div := div * base;
        ndigits := ndigits + 1;
      }
      QuotientBelow(absval, div, base);
      NumDigitsUnique(absval, base, ndigits);
    }
  }

  /** `st` holds directive `d` with the flags as `_ntoa_intro` adjusts them. */
  ghost predicate Adjusted(st: State, d: Directive)
    reads st
  {
    st.flags == IntroFlags(d.flags) && st.width == d.width && st.precision == d.precision
    && st.specifier == d.specifier
  }

  /** Clearing the '0' flag leaves every other flag as it was. */
  lemma IntroFlagsKeep(f: bv8)
    ensures Has(IntroFlags(f), FLAG_LEFT) == Has(f, FLAG_LEFT)
    ensures Has(IntroFlags(f), FLAG_PLUS) == Has(f, FLAG_PLUS)
    ensures Has(IntroFlags(f), FLAG_SPACE) == Has(f, FLAG_SPACE)
    ensures Has(IntroFlags(f), FLAG_HASH) == Has(f, FLAG_HASH)
    ensures Has(IntroFlags(f), FLAG_PRECISION) == Has(f, FLAG_PRECISION)
    ensures Has(IntroFlags(f), FLAG_ZEROPAD) == (Has(f, FLAG_ZEROPAD) && !Has(f, FLAG_PRECISION))
  {
  }

  /** The leading-spaces step of `_ntoa_intro`. */
  method PutLeadSpaces(st: State, ghost d: Directive, base: nat, ndigits: nat, sign: int, nextra: nat)
    requires st.Valid() && IsBase(base) && Adjusted(st, d) && nextra == Nextra(d.flags, base, sign)
    modifies st.ctx
    ensures st.Valid()
    ensures st.ctx.emitted == old(st.ctx.emitted) + Spaces(LeadSpaces(d, base, ndigits, sign))
  {
    if st.width != 0 && !Has(st.flags, FLAG_LEFT) && !Has(st.flags, FLAG_ZEROPAD) {
      PadTo(st, ' ', (Max(st.precision, ndigits) + nextra) % U32, st.width);
    } else {
      assert [] == Spaces(0);
    }
  }

  /** The sign or base-prefix step of `_ntoa_intro`. */
  method PutPrefix(st: State, ghost d: Directive, base: nat, sign: int)
    requires st.Valid() && IsBase(base) && Adjusted(st, d)
    modifies st.ctx
    ensures st.Valid()
    ensures st.ctx.emitted == old(st.ctx.emitted) + BasePrefix(d.flags, base, sign, d.specifier)
  {
    IntroFlagsKeep(d.flags);
    if base == 2 {
      if Has(st.flags, FLAG_HASH) && sign != 0 {
        st.PutChar('0');
        st.PutChar('b');
      }
    } else if base == 8 {
      if Has(st.flags, FLAG_HASH) && sign != 0 {
        st.PutChar('0');
      }
    } else if base == 10 {
      if sign < 0 {
        st.PutChar('-');
      } else if Has(st.flags, FLAG_PLUS) {
        st.PutChar('+');
      } else if Has(st.flags, FLAG_SPACE) {
        st.PutChar(' ');
      }
    } else {
      if Has(st.flags, FLAG_HASH) && sign != 0 {
        st.PutChar('0');
        st.PutChar(st.specifier);
      }
    }
  }

  /** The leading-zeros step of `_ntoa_intro`. */
  method PutLeadingZeros(st: State, ghost d: Directive, base: nat, ndigits: nat, sign: int, nextra: nat)
    requires st.Valid() && IsBase(base) && Adjusted(st, d) && nextra == Nextra(d.flags, base, sign)
    modifies st.ctx
    ensures st.Valid()
    ensures st.ctx.emitted == old(st.ctx.emitted) + Zeros(ZeroCount(d, base, ndigits, sign))
  {
    if Has(st.flags, FLAG_PRECISION) {
      PadTo(st, '0', ndigits, st.precision);
    } else if st.width != 0 && !Has(st.flags, FLAG_LEFT) && Has(st.flags, FLAG_ZEROPAD) {
      PadTo(st, '0', ndigits + nextra, st.width);
    } else if sign == 0 {
      // always at least one '0' digit, unless a precision said otherwise
      st.PutChar('0');
      assert ['0'] == Zeros(1);
    } else {
      assert [] == Zeros(0);
    }
  }

  /** `_ntoa_intro`: leading spaces, sign or prefix, leading zeros. */
  method NtoaIntro(st: State, base: nat, ndigits: nat, sign: int)
    requires st.Valid() && IsBase(base)
    modifies st`flags, st.ctx
    ensures st.Valid() && st.flags == IntroFlags(old(st.flags))
    ensures st.ctx.emitted == old(st.ctx.emitted) + IntroText(old(st.Dir()), base, ndigits, sign)
  {
    ghost var d := st.Dir();
    ghost var e0 := st.ctx.emitted;
    var nextra := Nextra(st.flags, base, sign);

    if Has(st.flags, FLAG_PRECISION) {
      // a given precision switches the '0' flag off
      st.flags := st.flags & !FLAG_ZEROPAD;
    }
    assert Adjusted(st, d);

    PutLeadSpaces(st, d, base, ndigits, sign, nextra);
    ghost var e1 := st.ctx.emitted;
    PutPrefix(st, d, base, sign);
    ghost var e2 := st.ctx.emitted;
    PutLeadingZeros(st, d, base, ndigits, sign, nextra);

    AppendAssoc(e0, Spaces(LeadSpaces(d, base, ndigits, sign)), BasePrefix(d.flags, base, sign, d.specifier),
      Zeros(ZeroCount(d, base, ndigits, sign)));
  }

  /** `_ntoa_outro`: trailing spaces until the counter shows `width` characters since `startIdx`. */
  method NtoaOutro(st: State, startIdx: nat)
    requires st.Valid() && startIdx <= st.ctx.idx
    modifies st.ctx
    ensures st.Valid()
    ensures st.ctx.emitted == old(st.ctx.emitted) + Spaces(Gap(st.width, old(st.ctx.idx) - startIdx))
  {
    PadTo(st, ' ', st.Len() - startIdx, st.width);
  }

  /**
   * The digit loop's invariant with `m` digits to go: `av` has at most `m` digits, `div` is
   * the place of the next one, and the digits emitted so far followed by those still to come
   * make up `total`.
   */
  ghost predicate DigitLoopInv(total: seq<char>, done: seq<char>, av: nat, div: nat, m: nat, b: nat, upper: bool)
    requires 2 <= b <= 16
  {
    av < Pow(b, m) && (m > 0 ==> div == Pow(b, m - 1)) && total == done + EmitDigits(av, m, b, upper)
  }

  /** One turn of the digit loop keeps its invariant; the digit it emits is `q == av / div`. */
  lemma DigitLoopStep(total: seq<char>, done: seq<char>, av: nat, div: nat, m: nat, b: nat, upper: bool,
                      q: nat, r: nat, next: nat)
    requires 2 <= b <= 16 && m >= 1 && DigitLoopInv(total, done, av, div, m, b, upper)
    requires div >= 1 && q == av / div && r == av % div && next == div / b
    ensures q < b
    ensures DigitLoopInv(total, done + [DigitChar(q, upper)], r, next, m - 1, b, upper)
  {
    EmitDigitsStep(av, m, b, upper);
    AppendAssoc3(done, [DigitChar(q, upper)], EmitDigits(r, m - 1, b, upper));
    if m > 1 {
      PowDiv(b, m - 1);
    }
  }

  /** One turn of the digit loop of `_ntoa`: emit the digit `av / div`, keep the remainder. */
  method PutDigit(st: State, ghost total: seq<char>, ghost done: seq<char>, av: nat, div: nat, ghost m: nat,
                  base: nat, upper: bool)
    returns (c: char, av': nat, div': nat)
    requires st.Valid() && 2 <= base <= 16 && m >= 1 && DigitLoopInv(total, done, av, div, m, base, upper)
    modifies st.ctx
    ensures st.Valid() && DigitLoopInv(total, done + [c], av', div', m - 1, base, upper)
    ensures st.ctx.emitted == old(st.ctx.emitted) + [c]
  {
    assert div >= 1;
    DivModNat(av, div);
    DivModNat(div, base);
    var digit := av / div;
    av' := av % div;
    div' := div / base;
    DigitLoopStep(total, done, av, div, m, base, upper, digit, av', div');
    c := DigitChar(digit, upper);
    st.PutChar(c);
  }

  /** The digit loop of `_ntoa`: `ndigits` digits of `absval`, most significant first. */
  method PutDigits(st: State, absval: nat, base: nat, ndigits: nat, div0: nat)
    requires st.Valid() && IsBase(base) && absval < Pow(base, ndigits)
    requires ndigits > 0 ==> div0 == Pow(base, ndigits - 1)
    modifies st.ctx
    ensures st.Valid()
    ensures st.ctx.emitted == old(st.ctx.emitted) + EmitDigits(absval, ndigits, base, IsUpper(st.specifier))
  {
    var upper := IsUpper(st.specifier);
    ghost var e0 := st.ctx.emitted;
    ghost var total := EmitDigits(absval, ndigits, base, upper);
    var av: nat, div: nat := absval, div0;
    ghost var done: seq<char> := [];
    var i := 0;
    while i < ndigits
      invariant i <= ndigits && DigitLoopInv(total, done, av, div, ndigits - i, base, upper)
      invariant st.Valid() && st.ctx.emitted == e0 + done
    {
      var c;
      c, av, div := PutDigit(st, total, done, av, div, ndigits - i, base, upper);
      AppendAssoc3(e0, done, [c]);
      done := done + [c];
      i := i + 1;
    }
    assert done + EmitDigits(av, 0, base, upper) == done;
  }

  /** `_ntoa`: one integer conversion of magnitude `absval`, negative or not, in `base`. */
  method Ntoa(st: State, absval: nat, negative: bool, base: nat)
    requires st.Valid() && IsBase(base)
    modifies st`flags, st.ctx
    ensures st.Valid() && st.flags == IntroFlags(old(st.flags))
    ensures st.ctx.emitted == old(st.ctx.emitted) + NtoaText(old(st.Dir()), absval, negative, base)
  {
    ghost var d := st.Dir();
    ghost var e0 := st.ctx.emitted;
    var startIdx := st.Len();
    var ndigits, div := CountDigits(absval, base);

    // leading whitespace, base or sign, leading zeros
    ghost var intro := IntroText(d, base, ndigits, SignOf(absval, negative));
    NtoaIntro(st, base, ndigits, if absval != 0 then (if negative then -1 else 1) else 0);
    ghost var e1 := st.ctx.emitted;
    assert e1 == e0 + intro;

    // the number itself
    ghost var digits := DigitString(absval, base, IsUpper(d.specifier));
    DigitStringSpelled(absval, base, IsUpper(d.specifier));
    assert st.specifier == d.specifier && st.width == d.width;
    PutDigits(st, absval, base, ndigits, div);
    ghost var e2 := st.ctx.emitted;
    assert e2 == e1 + digits;
    AppendAssoc3(e0, intro, digits);
    assert |e2| - startIdx == |intro + digits|;

    // trailing spaces
    NtoaOutro(st, startIdx);
    AppendAssoc3(e0, intro + digits, Spaces(Gap(d.width, |intro + digits|)));
    assert NtoaText(d, absval, negative, base) == intro + digits + Spaces(Gap(d.width, |intro + digits|));
  }
}

/** What the integer converter's text promises, stated on `NtoaText`. */
module IntConvProps {
  import opened Prelude
  import opened Digits
  import opened Sink
  import opened Helpers
  import opened IntConv

  /** A precision is only ever present together with its flag (as the directive parser sets it). */
  predicate Coherent(d: Directive)
  {
    Has(d.flags, FLAG_PRECISION) || d.precision == 0
  }

  /** The sign or prefix is exactly `nextra` characters long. */
  lemma PrefixLength(flags: bv8, base: nat, sign: int, specifier: char)
    requires IsBase(base)
    ensures |BasePrefix(flags, base, sign, specifier)| == Nextra(flags, base, sign)
  {
  }

  /**
   * The converted number, piece by piece: leading spaces, sign or prefix, zeros, the digits,
   * trailing spaces; and the piece in the digits' place reads back as the magnitude.
   */
  lemma NtoaPieces(d: Directive, a: nat, negative: bool, base: nat)
    requires IsBase(base)
    ensures var nd, sign := NumDigits(a, base), SignOf(a, negative);
      var intro := IntroText(d, base, nd, sign);
      var t := NtoaText(d, a, negative, base);
      |intro| + nd <= |t|
      && t[|intro|..|intro| + nd] == DigitString(a, base, IsUpper(d.specifier))
      && ReadAcc(t[|intro|..|intro| + nd], base, 0) == a
  {
    var nd, sign := NumDigits(a, base), SignOf(a, negative);
    var intro := IntroText(d, base, nd, sign);
    var digits := DigitString(a, base, IsUpper(d.specifier));
    DigitsShape(a, base, IsUpper(d.specifier));
    DigitsRoundTrip(a, base, IsUpper(d.specifier));
    var t := NtoaText(d, a, negative, base);
    assert t == intro + digits + Spaces(Gap(d.width, |intro + digits|));
    assert t[|intro|..|intro| + nd] == digits;
  }

  /** The output is never shorter than the width, and longer only by what the number needs. */
  lemma NtoaWidth(d: Directive, a: nat, negative: bool, base: nat)
    requires IsBase(base)
    ensures var body := IntroText(d, base, NumDigits(a, base), SignOf(a, negative))
        + DigitString(a, base, IsUpper(d.specifier));
      |NtoaText(d, a, negative, base)| == Max(d.width, |body|)
  {
    DigitsShape(a, base, IsUpper(d.specifier));
  }

  /**
   * Left alignment ('-'): no leading spaces; the sign or prefix comes first, and the padding
   * to the width is all at the end.
   */
  lemma NtoaLeftAligned(d: Directive, a: nat, negative: bool, base: nat)
    requires IsBase(base) && Has(d.flags, FLAG_LEFT)
    ensures var nd, sign := NumDigits(a, base), SignOf(a, negative);
      var body := BasePrefix(d.flags, base, sign, d.specifier) + Zeros(ZeroCount(d, base, nd, sign))
        + DigitString(a, base, IsUpper(d.specifier));
      NtoaText(d, a, negative, base) == body + Spaces(Gap(d.width, |body|))
  {
    var nd, sign := NumDigits(a, base), SignOf(a, negative);
    IntroFlagsKeep(d.flags);
    assert LeadSpaces(d, base, nd, sign) == 0;
    assert Spaces(0) + BasePrefix(d.flags, base, sign, d.specifier) == BasePrefix(d.flags, base, sign, d.specifier);
  }

  /**
   * Right alignment (the default): when the sum `max(precision, ndigits) + nextra` does not
   * wrap, the padding is all in front and nothing trails the digits.
   */
  lemma NtoaRightAligned(d: Directive, a: nat, negative: bool, base: nat)
    requires IsBase(base) && !Has(d.flags, FLAG_LEFT) && Coherent(d)
    requires Max(d.precision, NumDigits(a, base)) + 2 < U32
    ensures var body := IntroText(d, base, NumDigits(a, base), SignOf(a, negative))
        + DigitString(a, base, IsUpper(d.specifier));
      NtoaText(d, a, negative, base) == body && |body| >= d.width
  {
    var nd, sign := NumDigits(a, base), SignOf(a, negative);
    var upper := IsUpper(d.specifier);
    DigitsShape(a, base, upper);
    IntroLength(d, base, nd, sign);
    IntroCoversWidth(d, base, nd, sign);
    var body := IntroText(d, base, nd, sign) + DigitString(a, base, upper);
    assert Gap(d.width, |body|) == 0;
    assert body + Spaces(0) == body;
  }

  /** The intro is its leading spaces, the sign or prefix, and its zeros. */
  lemma IntroLength(d: Directive, base: nat, nd: nat, sign: int)
    requires IsBase(base)
    ensures |IntroText(d, base, nd, sign)|
      == LeadSpaces(d, base, nd, sign) + Nextra(d.flags, base, sign) + ZeroCount(d, base, nd, sign)
  {
    PrefixLength(d.flags, base, sign, d.specifier);
  }

  /** Without '-', the intro and the digits reach the width when the padding sum does not wrap. */
  lemma IntroCoversWidth(d: Directive, base: nat, nd: nat, sign: int)
    requires IsBase(base) && !Has(d.flags, FLAG_LEFT) && Coherent(d)
    requires Max(d.precision, nd) + 2 < U32
    ensures LeadSpaces(d, base, nd, sign) + Nextra(d.flags, base, sign) + ZeroCount(d, base, nd, sign) + nd
      >= d.width
  {
    IntroFlagsKeep(d.flags);
    var n := Nextra(d.flags, base, sign);
    var f := IntroFlags(d.flags);
    if d.width != 0 && !Has(f, FLAG_ZEROPAD) {
      assert (Max(d.precision, nd) + n) % U32 == Max(d.precision, nd) + n;
    }
  }

  /**
   * Zero padding ('0' without '-' and without a precision): no spaces around the number; the
   * zeros go between the sign or prefix and the digits, up to the width.
   */
  lemma NtoaZeroPadded(d: Directive, a: nat, negative: bool, base: nat)
    requires IsBase(base) && Has(d.flags, FLAG_ZEROPAD) && !Has(d.flags, FLAG_LEFT)
    requires !Has(d.flags, FLAG_PRECISION) && d.width != 0
    ensures var nd, sign := NumDigits(a, base), SignOf(a, negative);
      var nextra := Nextra(d.flags, base, sign);
      NtoaText(d, a, negative, base) == BasePrefix(d.flags, base, sign, d.specifier)
        + Zeros(Gap(d.width, nd + nextra)) + DigitString(a, base, IsUpper(d.specifier))
      && |NtoaText(d, a, negative, base)| == Max(d.width, nextra + nd)
  {
    var nd, sign := NumDigits(a, base), SignOf(a, negative);
    ZeroPadBody(d, a, negative, base);
    ZeroPadIntro(d, base, nd, sign);
  }

  /** Under zero padding the intro and the digits already fill the width: no trailing spaces. */
  lemma ZeroPadBody(d: Directive, a: nat, negative: bool, base: nat)
    requires IsBase(base) && Has(d.flags, FLAG_ZEROPAD) && !Has(d.flags, FLAG_LEFT)
    requires !Has(d.flags, FLAG_PRECISION) && d.width != 0
    ensures var nd, sign := NumDigits(a, base), SignOf(a, negative);
      NtoaText(d, a, negative, base) == IntroText(d, base, nd, sign) + DigitString(a, base, IsUpper(d.specifier))
  {
    var nd, sign := NumDigits(a, base), SignOf(a, negative);
    var nextra := Nextra(d.flags, base, sign);
    ZeroPadIntro(d, base, nd, sign);
    var body := IntroText(d, base, nd, sign) + DigitString(a, base, IsUpper(d.specifier));
    GapCovered(d.width, nd + nextra, |body|);
    assert body + Spaces(0) == body;
  }

  /** Filling up to `want` from `have` and then adding `have` more reaches `want` at least. */
  lemma GapCovered(want: nat, have: nat, total: nat)
    requires total == Gap(want, have) + have
    ensures Gap(want, total) == 0 && total == Max(want, have)
  {
  }

  /** Zero padding emits no space, except the one the ' ' flag puts before a decimal non-negative value. */
  lemma NtoaZeroPadNoSpace(d: Directive, a: nat, negative: bool, base: nat)
    requires IsBase(base) && Has(d.flags, FLAG_ZEROPAD) && !Has(d.flags, FLAG_LEFT)
    requires !Has(d.flags, FLAG_PRECISION) && d.width != 0 && d.specifier != ' '
    ensures ' ' in NtoaText(d, a, negative, base)
      <==> base == 10 && Has(d.flags, FLAG_SPACE) && !Has(d.flags, FLAG_PLUS) && !(negative && a != 0)
  {
    var nd, sign := NumDigits(a, base), SignOf(a, negative);
    var upper := IsUpper(d.specifier);
    var nextra := Nextra(d.flags, base, sign);
    var prefix, zeros, digits := BasePrefix(d.flags, base, sign, d.specifier),
      Zeros(Gap(d.width, nd + nextra)), DigitString(a, base, upper);
    NtoaZeroPadded(d, a, negative, base);
    DigitsExclude(a, base, upper, ' ');
    FillHasOnly('0', Gap(d.width, nd + nextra), ' ');
    PrefixSpace(d.flags, base, sign, d.specifier);
    assert ' ' in prefix + zeros + digits <==> ' ' in prefix;
  }

  /** The sign or prefix holds a space only for the ' ' flag on a decimal value that is not negative. */
  lemma PrefixSpace(flags: bv8, base: nat, sign: int, specifier: char)
    requires IsBase(base) && specifier != ' '
    ensures ' ' in BasePrefix(flags, base, sign, specifier)
      <==> base == 10 && sign >= 0 && !Has(flags, FLAG_PLUS) && Has(flags, FLAG_SPACE)
  {
  }

  /** Under '0' alone the intro has no leading spaces, and its zeros fill up to the width. */
  lemma ZeroPadIntro(d: Directive, base: nat, nd: nat, sign: int)
    requires IsBase(base) && Has(d.flags, FLAG_ZEROPAD) && !Has(d.flags, FLAG_LEFT)
    requires !Has(d.flags, FLAG_PRECISION) && d.width != 0
    ensures var nextra := Nextra(d.flags, base, sign);
      IntroText(d, base, nd, sign) == BasePrefix(d.flags, base, sign, d.specifier) + Zeros(Gap(d.width, nd + nextra))
      && |IntroText(d, base, nd, sign)| == nextra + Gap(d.width, nd + nextra)
  {
    assert LeadSpaces(d, base, nd, sign) == 0;
    assert Spaces(0) == [];
    PrefixLength(d.flags, base, sign, d.specifier);
  }

  /** Decimal sign: a '-' appears exactly when the value is negative and not zero. */
  lemma NtoaMinus(d: Directive, a: nat, negative: bool)
    ensures '-' in NtoaText(d, a, negative, 10) <==> negative && a != 0
  {
    var nd, sign := NumDigits(a, 10), SignOf(a, negative);
    var upper := IsUpper(d.specifier);
    DecimalDigitsOnly(a, upper, '-');
    FillHasOnly(' ', LeadSpaces(d, 10, nd, sign), '-');
    FillHasOnly('0', ZeroCount(d, 10, nd, sign), '-');
    var body := IntroText(d, 10, nd, sign) + DigitString(a, 10, upper);
    FillHasOnly(' ', Gap(d.width, |body|), '-');
  }

  /** A magnitude converted as non-negative never shows a '-', in any base. */
  lemma NtoaUnsignedNoMinus(d: Directive, a: nat, base: nat)
    requires IsBase(base) && d.specifier != '-'
    ensures '-' !in NtoaText(d, a, false, base)
  {
    var nd, sign := NumDigits(a, base), SignOf(a, false);
    var upper := IsUpper(d.specifier);
    DigitsExclude(a, base, upper, '-');
    FillHasOnly(' ', LeadSpaces(d, base, nd, sign), '-');
    FillHasOnly('0', ZeroCount(d, base, nd, sign), '-');
    var body := IntroText(d, base, nd, sign) + DigitString(a, base, upper);
    FillHasOnly(' ', Gap(d.width, |body|), '-');
  }

  /** Decimal sign: a '+' appears exactly for a value that is not negative under the '+' flag. */
  lemma NtoaPlus(d: Directive, a: nat, negative: bool)
    ensures '+' in NtoaText(d, a, negative, 10) <==> !(negative && a != 0) && Has(d.flags, FLAG_PLUS)
  {
    var nd, sign := NumDigits(a, 10), SignOf(a, negative);
    var upper := IsUpper(d.specifier);
    DecimalDigitsOnly(a, upper, '+');
    FillHasOnly(' ', LeadSpaces(d, 10, nd, sign), '+');
    FillHasOnly('0', ZeroCount(d, 10, nd, sign), '+');
    var body := IntroText(d, 10, nd, sign) + DigitString(a, 10, upper);
    FillHasOnly(' ', Gap(d.width, |body|), '+');
  }

  /** Hexadecimal: the `x` or `X` of the specifier appears exactly under '#' with a nonzero value. */
  lemma NtoaHexPrefix(d: Directive, a: nat, negative: bool)
    requires d.specifier == 'x' || d.specifier == 'X'
    ensures d.specifier in NtoaText(d, a, negative, 16) <==> Has(d.flags, FLAG_HASH) && a != 0
  {
    var nd, sign := NumDigits(a, 16), SignOf(a, negative);
    var upper := IsUpper(d.specifier);
    var c := d.specifier;
    DigitsExclude(a, 16, upper, c);
    FillHasOnly(' ', LeadSpaces(d, 16, nd, sign), c);
    FillHasOnly('0', ZeroCount(d, 16, nd, sign), c);
    var body := IntroText(d, 16, nd, sign) + DigitString(a, 16, upper);
    FillHasOnly(' ', Gap(d.width, |body|), c);
  }

  /** Binary: the `b` of the "0b" prefix appears exactly under '#' with a nonzero value. */
  lemma NtoaBinaryPrefix(d: Directive, a: nat, negative: bool)
    ensures 'b' in NtoaText(d, a, negative, 2) <==> Has(d.flags, FLAG_HASH) && a != 0
  {
    var nd, sign := NumDigits(a, 2), SignOf(a, negative);
    var upper := IsUpper(d.specifier);
    DigitsShape(a, 2, upper);
    var digits := DigitString(a, 2, upper);
    forall j | 0 <= j < |digits|
      ensures digits[j] != 'b'
    {
      assert IsDigitOf(digits[j], 2, upper);
    }
    FillHasOnly(' ', LeadSpaces(d, 2, nd, sign), 'b');
    FillHasOnly('0', ZeroCount(d, 2, nd, sign), 'b');
    var body := IntroText(d, 2, nd, sign) + digits;
    FillHasOnly(' ', Gap(d.width, |body|), 'b');
  }

  /** A zero value under an explicit precision of 0 prints no digit at all. */
  lemma NtoaZeroPrecisionZero(d: Directive, negative: bool, base: nat)
    requires IsBase(base) && Has(d.flags, FLAG_PRECISION) && d.precision == 0
    ensures '0' !in NtoaText(d, 0, negative, base)
  {
    var sign := SignOf(0, negative);
    IntroFlagsKeep(d.flags);
    assert ZeroCount(d, base, 0, sign) == 0;
    assert BasePrefix(d.flags, base, sign, d.specifier) in {"", "+", " "};
    FillHasOnly(' ', LeadSpaces(d, base, 0, sign), '0');
    var body := IntroText(d, base, 0, sign) + DigitString(0, base, IsUpper(d.specifier));
    FillHasOnly(' ', Gap(d.width, |body|), '0');
  }

  /**
   * A zero value with a width and no flags: the width's worth of spaces and then the lone '0',
   * one character more than the width asked for.
   */
  lemma NtoaZeroWidthQuirk(w: nat, size: Size, specifier: char, negative: bool, base: nat)
    requires IsBase(base) && w > 0
    ensures NtoaText(Directive(0, w, 0, size, specifier), 0, negative, base) == Spaces(w) + ['0']
  {
    var d := Directive(0, w, 0, size, specifier);
    assert !Has(0, FLAG_LEFT) && !Has(0, FLAG_ZEROPAD) && !Has(0, FLAG_PRECISION);
    assert !Has(0, FLAG_HASH) && !Has(0, FLAG_PLUS) && !Has(0, FLAG_SPACE);
    assert IntroFlags(0) == 0;
    assert LeadSpaces(d, base, 0, 0) == w;
    assert ZeroCount(d, base, 0, 0) == 1;
    assert IntroText(d, base, 0, 0) == Spaces(w) + ['0'];
  }

  /** Setting or clearing the '0' flag leaves every other flag, and the precision's effect, alone. */
  lemma ZeroPadOnly(f: bv8)
    requires Has(f, FLAG_PRECISION)
    ensures IntroFlags(f | FLAG_ZEROPAD) == IntroFlags(f & !FLAG_ZEROPAD)
    ensures Has(f | FLAG_ZEROPAD, FLAG_HASH) == Has(f & !FLAG_ZEROPAD, FLAG_HASH)
    ensures Has(f | FLAG_ZEROPAD, FLAG_PLUS) == Has(f & !FLAG_ZEROPAD, FLAG_PLUS)
    ensures Has(f | FLAG_ZEROPAD, FLAG_SPACE) == Has(f & !FLAG_ZEROPAD, FLAG_SPACE)
    ensures Has(f | FLAG_ZEROPAD, FLAG_PLUS | FLAG_SPACE) == Has(f & !FLAG_ZEROPAD, FLAG_PLUS | FLAG_SPACE)
  {
  }

  /** Two directives whose flags agree on everything `_ntoa_intro` looks at get the same intro. */
  lemma IntroAlike(a: Directive, b: Directive, base: nat, nd: nat, sign: int)
    requires IsBase(base)
    requires a.width == b.width && a.precision == b.precision && a.specifier == b.specifier
    requires IntroFlags(a.flags) == IntroFlags(b.flags)
    requires Has(a.flags, FLAG_HASH) == Has(b.flags, FLAG_HASH)
    requires Has(a.flags, FLAG_PLUS) == Has(b.flags, FLAG_PLUS)
    requires Has(a.flags, FLAG_SPACE) == Has(b.flags, FLAG_SPACE)
    requires Has(a.flags, FLAG_PLUS | FLAG_SPACE) == Has(b.flags, FLAG_PLUS | FLAG_SPACE)
    ensures IntroText(a, base, nd, sign) == IntroText(b, base, nd, sign)
  {
    assert Nextra(a.flags, base, sign) == Nextra(b.flags, base, sign);
    assert BasePrefix(a.flags, base, sign, a.specifier) == BasePrefix(b.flags, base, sign, b.specifier);
  }

  /** Under a precision, the '0' flag is invisible to every part of `_ntoa_intro`. */
  lemma ZeroPadInvisible(d: Directive, base: nat, nd: nat, sign: int)
    requires IsBase(base) && Has(d.flags, FLAG_PRECISION)
    ensures IntroText(d.(flags := d.flags | FLAG_ZEROPAD), base, nd, sign)
         == IntroText(d.(flags := d.flags & !FLAG_ZEROPAD), base, nd, sign)
  {
    ZeroPadOnly(d.flags);
    IntroAlike(d.(flags := d.flags | FLAG_ZEROPAD), d.(flags := d.flags & !FLAG_ZEROPAD), base, nd, sign);
  }

  /** With a precision given, the '0' flag changes nothing: setting or clearing it prints alike. */
  lemma PrecisionIgnoresZeroPad(d: Directive, absval: nat, negative: bool, base: nat)
    requires IsBase(base) && Has(d.flags, FLAG_PRECISION)
    ensures NtoaText(d.(flags := d.flags | FLAG_ZEROPAD), absval, negative, base)
         == NtoaText(d.(flags := d.flags & !FLAG_ZEROPAD), absval, negative, base)
  {
    ZeroPadInvisible(d, base, NumDigits(absval, base), SignOf(absval, negative));
  }

  /**
   * Under '.', exactly `max(0, precision - ndigits)` zeros precede the digits, so the digit
   * field is `max(precision, ndigits)` wide and, read back in the base, is the magnitude.
   */
  lemma NtoaPrecisionField(d: Directive, a: nat, negative: bool, base: nat)
    requires IsBase(base) && Has(d.flags, FLAG_PRECISION)
    ensures var nd, sign := NumDigits(a, base), SignOf(a, negative);
      var field := Zeros(Gap(d.precision, nd)) + DigitString(a, base, IsUpper(d.specifier));
      |field| == Max(d.precision, nd)
      && IntroText(d, base, nd, sign) + DigitString(a, base, IsUpper(d.specifier))
        == Spaces(LeadSpaces(d, base, nd, sign)) + BasePrefix(d.flags, base, sign, d.specifier) + field
      && ReadAcc(field, base, 0) == a
  {
    var nd, sign := NumDigits(a, base), SignOf(a, negative);
    var digits := DigitString(a, base, IsUpper(d.specifier));
    IntroFlagsKeep(d.flags);
    assert ZeroCount(d, base, nd, sign) == Gap(d.precision, nd);
    AppendAssoc3(Spaces(LeadSpaces(d, base, nd, sign)) + BasePrefix(d.flags, base, sign, d.specifier),
      Zeros(Gap(d.precision, nd)), digits);
    ReadAccLeadingZeros(Gap(d.precision, nd), digits, base);
    DigitsRoundTrip(a, base, IsUpper(d.specifier));
  }

  /**
   * The octal '#' prefix is one '0', present exactly for a nonzero value, so prefix, zeros and
   * digits together still read back in base 8 as the magnitude.
   */
  lemma NtoaOctalPrefix(d: Directive, a: nat, negative: bool)
    ensures var nd, sign := NumDigits(a, 8), SignOf(a, negative);
      var p := BasePrefix(d.flags, 8, sign, d.specifier);
      var body := p + Zeros(ZeroCount(d, 8, nd, sign)) + DigitString(a, 8, IsUpper(d.specifier));
      |p| <= 1 && (p == "0" <==> Has(d.flags, FLAG_HASH) && a != 0)
      && ReadAcc(body, 8, 0) == a
  {
    var nd, sign := NumDigits(a, 8), SignOf(a, negative);
    var p := BasePrefix(d.flags, 8, sign, d.specifier);
    var z := ZeroCount(d, 8, nd, sign);
    var digits := DigitString(a, 8, IsUpper(d.specifier));
    assert p + Zeros(z) == Zeros(|p| + z);
    ReadAccLeadingZeros(|p| + z, digits, 8);
    DigitsRoundTrip(a, 8, IsUpper(d.specifier));
  }
}
