/**
 * The built-in conversion handlers of pico_fmt/printf.c: `conv_sint`, `conv_uint`,
 * `conv_char`, `conv_str`, `conv_ptr` and `conv_pct`. Each reads its argument through the
 * cursor, narrows it to the C type the directive's size names, and emits through the sink.
 */
module Handlers {
  import opened Prelude
  import opened Digits
  import opened Sink
  import opened Helpers
  import opened IntConv
  import opened IntConvProps

  // ---------------------------------------------------------------- integer widths

  /** The width of the unsigned type `_ntoa`, `_ntoal` or `_ntoall` works in for a size. */
  function ConvBits(size: Size, plat: Platform): nat
  {
    match size
    case SizeLongLong => 64
    case SizeLong => plat.longBits
    case _ => 32
  }

  /**
   * The signed value a `%d` or `%i` of size `size` reads from argument value `n`: `long long`,
   * `long`, `int`, or an `int` cast to `short` or to the target's plain `char`.
   */
  function SintValue(size: Size, n: int, plat: Platform): int
  {
    match size
    case SizeLongLong => Signed(n, 64)
    case SizeLong => if plat.longBits >= 1 then Signed(n, plat.longBits) else 0
    case SizeDefault => Signed(n, 32)
    case SizeShort => Signed(Signed(n, 32), 16)
    case SizeChar =>
      var c := Signed(n, 32);
      if plat.charSigned then Signed(c, 8) else Unsigned(c, 8)
  }

  /** Whatever the size, the value read fits the signed type `_ntoa` widens it to. */
  lemma SintRange(size: Size, n: int, plat: Platform)
    requires plat.Valid()
    ensures var v, h := SintValue(size, n, plat), Pow(2, ConvBits(size, plat) - 1);
      -(h as int) <= v < h
  {
    if size.SizeShort? || size.SizeChar? {
      Pow2Small();
      Pow2Large();
    }
  }

  /**
   * `(unsigned) (value > 0 ? value : 0 - value)`: C negates in the signed type and then casts.
   * At the most negative value that negation overflows; the model takes the two's-complement
   * result, which the cast turns into 2^(bits-1).
   */
  function Magnitude(v: int, bits: nat): nat
  {
    Unsigned(if v > 0 then v else 0 - v, bits)
  }

  /** For every value of that signed width the result is its absolute value. */
  lemma MagnitudeExact(v: int, bits: nat)
    requires bits >= 1 && -(Pow(2, bits - 1) as int) <= v < Pow(2, bits - 1)
    ensures Magnitude(v, bits) == if v < 0 then -v else v
  {
    assert Pow(2, bits) == 2 * Pow(2, bits - 1);
  }

  /** The unsigned value a `%u`, `%x`, `%X`, `%o` or `%b` of size `size` reads from `n`. */
  function UintValue(size: Size, n: int, plat: Platform): nat
  {
    match size
    case SizeLongLong => Unsigned(n, 64)
    case SizeLong => Unsigned(n, plat.longBits)
    case SizeDefault => Unsigned(n, 32)
    case SizeShort => Unsigned(Unsigned(n, 32), 16)
    case SizeChar => Unsigned(Unsigned(n, 32), 8)
  }

  /** Whatever the size, the value read fits the unsigned type `_ntoa` works in. */
  lemma UintRange(size: Size, n: int, plat: Platform)
    requires plat.Valid()
    ensures UintValue(size, n, plat) < Pow(2, ConvBits(size, plat))
  {
    if size.SizeShort? || size.SizeChar? {
      Pow2Small();
      Pow2Large();
    }
  }

  // ---------------------------------------------------------------- conv_sint

  /** Everything `conv_sint` emits for argument value `n`. */
  function SintText(d: Directive, n: int, plat: Platform): seq<char>
  {
    var v := SintValue(d.size, n, plat);
    NtoaText(d, Magnitude(v, ConvBits(d.size, plat)), v < 0, 10)
  }

  /**
   * `%d` prints the value it read: the decimal magnitude exactly (no wrap, even for the
   * most negative value), and a '-' exactly when the value is negative.
   */
  lemma SintExact(d: Directive, n: int, plat: Platform)
    requires plat.Valid()
    ensures var v := SintValue(d.size, n, plat);
      SintText(d, n, plat) == NtoaText(d, if v < 0 then -v else v, v < 0, 10)
      && ('-' in SintText(d, n, plat) <==> v < 0)
  {
    var v := SintValue(d.size, n, plat);
    var bits := ConvBits(d.size, plat);
    SintRange(d.size, n, plat);
    MagnitudeExact(v, bits);
    NtoaMinus(d, if v < 0 then -v else v, v < 0);
  }

  /** A `%d` of default size reads an argument in `int` range unchanged. */
  lemma SintDefaultIsArgument(n: int, plat: Platform)
    requires -(Pow(2, 31) as int) <= n < Pow(2, 31)
    ensures SintValue(SizeDefault, n, plat) == n
  {
  }

  /** `conv_sint`. */
  method ConvSint(st: State, plat: Platform)
    requires st.Valid() && plat.Valid()
    modifies st`flags, st`ap, st.ctx
    ensures st.Valid() && st.ap == old(st.ap) + 1
    ensures st.flags == IntroFlags(old(st.flags))
    ensures st.ctx.emitted == old(st.ctx.emitted) + SintText(old(st.Dir()), IntOf(ArgAt(st.args, old(st.ap))), plat)
  {
    var a := st.NextArg();
    var v := SintValue(st.size, IntOf(a), plat);
    Ntoa(st, Magnitude(v, ConvBits(st.size, plat)), v < 0, 10);
  }

  // ---------------------------------------------------------------- conv_uint

  /** The specifiers `conv_uint` is installed for. */
  predicate IsUintSpecifier(c: char)
  {
    c == 'x' || c == 'X' || c == 'o' || c == 'b' || c == 'u'
  }

  function UintBase(c: char): (b: nat)
    requires IsUintSpecifier(c)
    ensures IsBase(b)
    ensures (b == 16 <==> c == 'x' || c == 'X') && (b == 8 <==> c == 'o')
    ensures (b == 2 <==> c == 'b') && (b == 10 <==> c == 'u')
  {
    if c == 'x' || c == 'X' then 16 else if c == 'o' then 8 else if c == 'b' then 2 else 10
  }

  /** `%u` drops the '+' and ' ' flags; the other bases keep every flag. */
  function UintFlags(flags: bv8, c: char): bv8
  {
    if c == 'u' then flags & !(FLAG_PLUS | FLAG_SPACE) else flags
  }

  /** Everything `conv_uint` emits for argument value `n`. */
  function UintText(d: Directive, n: int, plat: Platform): seq<char>
    requires IsUintSpecifier(d.specifier)
  {
    NtoaText(d.(flags := UintFlags(d.flags, d.specifier)), UintValue(d.size, n, plat), false,
      UintBase(d.specifier))
  }

  /** An unsigned conversion never shows a sign: no '-' at all, and no '+' for `%u`. */
  lemma UintUnsigned(d: Directive, n: int, plat: Platform)
    requires IsUintSpecifier(d.specifier)
    ensures '-' !in UintText(d, n, plat)
    ensures d.specifier == 'u' ==> '+' !in UintText(d, n, plat)
  {
    var d2 := d.(flags := UintFlags(d.flags, d.specifier));
    var u := UintValue(d.size, n, plat);
    NtoaUnsignedNoMinus(d2, u, UintBase(d.specifier));
    if d.specifier == 'u' {
      assert !Has(d2.flags, FLAG_PLUS);
      NtoaPlus(d2, u, false);
    }
  }

  /** `-1` under `%u` of default size prints as 4294967295: the argument is read modulo 2^32. */
  lemma UintWraps(n: int, plat: Platform)
    requires -(Pow(2, 32) as int) <= n < 0
    ensures UintValue(SizeDefault, n, plat) == n + Pow(2, 32)
  {
    ModByQuotient(n, Pow(2, 32), -1);
  }

  /** `conv_uint`: the base from the specifier, `%u` drops '+' and ' ', then `_ntoa`. */
  method ConvUint(st: State, plat: Platform)
    requires st.Valid() && plat.Valid() && IsUintSpecifier(st.specifier)
    modifies st`flags, st`ap, st.ctx
    ensures st.Valid() && st.ap == old(st.ap) + 1
    ensures st.flags == IntroFlags(UintFlags(old(st.flags), old(st.specifier)))
    ensures st.ctx.emitted == old(st.ctx.emitted) + UintText(old(st.Dir()), IntOf(ArgAt(st.args, old(st.ap))), plat)
  {
    var base := UintBase(st.specifier);
    if st.specifier == 'u' {
      st.flags := st.flags & !(FLAG_PLUS | FLAG_SPACE);
    }
    var a := st.NextArg();
    Ntoa(st, UintValue(st.size, IntOf(a), plat), false, base);
  }

  // ---------------------------------------------------------------- conv_char

  /** The `(char)` cast of an `int` argument: its low byte. */
  function CharOf(n: int): char
  {
    Unsigned(n, 8) as char
  }

  /** Everything `conv_char` emits: the character, padded with spaces to the width. */
  function CharText(d: Directive, n: int): seq<char>
  {
    var pad := Spaces(Gap(d.width, 1));
    if Has(d.flags, FLAG_LEFT) then [CharOf(n)] + pad else pad + [CharOf(n)]
  }

  /**
   * `%c` emits exactly one character and `max(width, 1)` in all: first under '-', else last,
   * with spaces everywhere else.
   */
  lemma CharLayout(d: Directive, n: int)
    ensures var t := CharText(d, n);
      |t| == Max(d.width, 1)
      && t[if Has(d.flags, FLAG_LEFT) then 0 else |t| - 1] == CharOf(n)
      && forall k :: 0 <= k < |t| && k != (if Has(d.flags, FLAG_LEFT) then 0 else |t| - 1) ==> t[k] == ' '
  {
  }

  /** `conv_char`. */
  method ConvChar(st: State)
    requires st.Valid()
    modifies st`ap, st.ctx
    ensures st.Valid() && st.ap == old(st.ap) + 1
    ensures st.ctx.emitted == old(st.ctx.emitted) + CharText(old(st.Dir()), IntOf(ArgAt(st.args, old(st.ap))))
  {
    ghost var e0 := st.ctx.emitted;
    if !Has(st.flags, FLAG_LEFT) {
      PadTo(st, ' ', 1, st.width);
    }
    var a := st.NextArg();
    st.PutChar(CharOf(IntOf(a)));
    if Has(st.flags, FLAG_LEFT) {
      PadTo(st, ' ', 1, st.width);
    }
  }

  // ---------------------------------------------------------------- conv_str

  /** `(size_t) -1`, the bound `_strnlen_s` gets when no precision is given. */
  function SizeMax(plat: Platform): nat
  {
    Pow(2, if plat.sizeIsLong then plat.longBits else 64) - 1
  }

  /** How many characters of `s` `conv_str` emits. */
  function StrShown(d: Directive, s: seq<char>): nat
  {
    if Has(d.flags, FLAG_PRECISION) then Min(CStrLen(s), d.precision) else CStrLen(s)
  }

  /**
   * `l`: the length the padding counts from, `_strnlen_s`'s result bounded by a nonzero
   * precision, cast to `unsigned int`, then bounded by the precision under '.'.
   */
  function StrPadFrom(d: Directive, s: seq<char>, plat: Platform): nat
  {
    var n := Min(CStrLen(s), if d.precision != 0 then d.precision else SizeMax(plat)) % U32;
    if Has(d.flags, FLAG_PRECISION) then Min(n, d.precision) else n
  }

  /** Everything `conv_str` emits. */
  function StrText(d: Directive, s: seq<char>, plat: Platform): seq<char>
  {
    var pad := Spaces(Gap(d.width, StrPadFrom(d, s, plat)));
    var shown := s[..StrShown(d, s)];
    if Has(d.flags, FLAG_LEFT) then shown + pad else pad + shown
  }

  /**
   * What `conv_str` leaves in `state->precision`: the loop's `precision--` counts down once
   * per character, and once more, from 0 to 2^32 - 1, when it stops a longer string.
   */
  function StrPrecisionAfter(d: Directive, s: seq<char>): nat
  {
    if !Has(d.flags, FLAG_PRECISION) then d.precision
    else if CStrLen(s) > d.precision then U32 - 1
    else d.precision - CStrLen(s)
  }

  /**
   * `%s` emits the string up to its terminator, cut to the precision when one is given, and
   * pads it with spaces to the width, in front by default and behind under '-'.
   */
  lemma StrLayout(d: Directive, s: seq<char>, plat: Platform)
    requires plat.Valid() && Coherent(d) && CStrLen(s) < U32
    ensures var t, n := StrText(d, s, plat), StrShown(d, s);
      |t| == Max(d.width, n)
      && n <= |s| && (forall k :: 0 <= k < n ==> s[k] != '\0')
      && (Has(d.flags, FLAG_LEFT) ==> t[..n] == s[..n] && t[n..] == Spaces(|t| - n))
      && (!Has(d.flags, FLAG_LEFT) ==> t[|t| - n..] == s[..n] && t[..|t| - n] == Spaces(|t| - n))
  {
    StrPadFromShown(d, s, plat);
  }

  /** Short of 2^32 characters and with a coherent precision, padding counts from what is shown. */
  lemma StrPadFromShown(d: Directive, s: seq<char>, plat: Platform)
    requires plat.Valid() && Coherent(d) && CStrLen(s) < U32
    ensures StrPadFrom(d, s, plat) == StrShown(d, s)
  {
    Pow2Large();
    PowMono(2, 32, if plat.sizeIsLong then plat.longBits else 64);
    var m := Min(CStrLen(s), if d.precision != 0 then d.precision else SizeMax(plat));
    assert m == Min(CStrLen(s), d.precision) || m == CStrLen(s);
    ModByQuotient(m, U32, 0);
  }

  /** The space padding in front of the string, counted up from `l` (skipped under '-'). */
  method StrLead(st: State, l: nat)
    requires st.Valid()
    modifies st.ctx
    ensures st.Valid()
    ensures st.ctx.emitted == old(st.ctx.emitted)
      + (if Has(st.flags, FLAG_LEFT) then [] else Spaces(Gap(st.width, l)))
  {
    if !Has(st.flags, FLAG_LEFT) {
      PadTo(st, ' ', l, st.width);
    }
  }

  /**
   * The output loop of `conv_str`: characters up to the terminator while `precision--`
   * (under '.') still reads nonzero.
   */
  method StrBody(st: State, p: seq<char>)
    requires st.Valid()
    modifies st`precision, st.ctx
    ensures st.Valid()
    ensures st.ctx.emitted == old(st.ctx.emitted) + p[..StrShown(old(st.Dir()), p)]
    ensures st.precision == StrPrecisionAfter(old(st.Dir()), p)
  {
    ghost var d := st.Dir();
    ghost var e0 := st.ctx.emitted;
    var k := 0;
    while true
      invariant k <= CStrLen(p) && st.Valid()
      invariant st.ctx.emitted == e0 + p[..k]
      invariant Has(d.flags, FLAG_PRECISION) ==> k <= d.precision && st.precision == d.precision - k
      invariant !Has(d.flags, FLAG_PRECISION) ==> st.precision == d.precision
      decreases CStrLen(p) - k
    {
      if At(p, k) == '\0' {
        break;
      }
      if Has(st.flags, FLAG_PRECISION) {
        var more := st.precision != 0;
        st.precision := if more then st.precision - 1 else U32 - 1;
        if !more {
          break;
        }
      }
      st.PutChar(p[k]);
      assert p[..k + 1] == p[..k] + [p[k]];
      k := k + 1;
    }
  }

  /** `l` as `conv_str` computes it, before any padding. */
  method StrPadLength(st: State, p: seq<char>, plat: Platform) returns (l: nat)
    ensures l == StrPadFrom(st.Dir(), p, plat)
  {
    var n := StrnlenS(p, if st.precision != 0 then st.precision else SizeMax(plat));
    l := n % U32;
    if Has(st.flags, FLAG_PRECISION) {
      l := Min(l, st.precision);
    }
  }

  /** `conv_str`. */
  method ConvStr(st: State, plat: Platform)
    requires st.Valid()
    modifies st`ap, st`precision, st.ctx
    ensures st.Valid() && st.ap == old(st.ap) + 1
    ensures st.ctx.emitted
      == old(st.ctx.emitted) + StrText(old(st.Dir()), StrOf(ArgAt(st.args, old(st.ap))), plat)
    ensures st.precision == StrPrecisionAfter(old(st.Dir()), StrOf(ArgAt(st.args, old(st.ap))))
  {
    ghost var d := st.Dir();
    ghost var e0 := st.ctx.emitted;
    var a := st.NextArg();
    var p := StrOf(a);
    var l := StrPadLength(st, p, plat);
    ghost var pad := Spaces(Gap(d.width, l));
    ghost var shown := p[..StrShown(d, p)];
    ghost var left := Has(d.flags, FLAG_LEFT);
    StrLead(st, l);
    assert st.ctx.emitted == e0 + (if left then [] else pad);
    StrBody(st, p);
    assert st.flags == d.flags && st.width == d.width;
    if Has(st.flags, FLAG_LEFT) {
      assert st.ctx.emitted == e0 + shown;
      PadTo(st, ' ', l, st.width);
    } else {
      AppendAssoc3(e0, pad, shown);
    }
  }

  // ---------------------------------------------------------------- conv_ptr

  /** The directive `conv_ptr` hands to `_ntoa`: two hex digits a byte, '0' set, upper case. */
  function PtrDirective(d: Directive, plat: Platform): Directive
  {
    Directive(d.flags | FLAG_ZEROPAD, 2 * plat.ptrBytes, d.precision, d.size, 'X')
  }

  /** Everything `conv_ptr` emits for address `addr`. */
  function PtrText(d: Directive, addr: nat, plat: Platform): seq<char>
  {
    NtoaText(PtrDirective(d, plat), Unsigned(addr, 8 * plat.ptrBytes), false, 16)
  }

  /** Sixteen is two to the fourth. */
  lemma {:induction false} PowHex(k: nat)
    ensures Pow(2, 8 * k) == Pow(16, 2 * k)
  {
    if k > 0 {
      PowHex(k - 1);
      PowAdd(2, 8 * (k - 1), 8);
      PowAdd(16, 2 * (k - 1), 2);
      assert 8 * (k - 1) + 8 == 8 * k;
      assert 2 * (k - 1) + 2 == 2 * k;
    }
  }

  /** A pointer's value has at most two hex digits a byte. */
  lemma PtrDigitsFit(addr: nat, plat: Platform)
    ensures NumDigits(Unsigned(addr, 8 * plat.ptrBytes), 16) <= 2 * plat.ptrBytes
  {
    PowHex(plat.ptrBytes);
    NumDigitsAtMost(Unsigned(addr, 8 * plat.ptrBytes), 16, 2 * plat.ptrBytes);
  }

  /** Right-justified `%p`: leading zeros, then the digits, exactly the pointer's width. */
  lemma PtrRightHex(d: Directive, addr: nat, plat: Platform)
    requires plat.Valid() && !Has(d.flags, FLAG_PRECISION) && !Has(d.flags, FLAG_HASH) && !Has(d.flags, FLAG_LEFT)
    ensures |PtrText(d, addr, plat)| == 2 * plat.ptrBytes
    ensures forall k :: 0 <= k < |PtrText(d, addr, plat)| ==> IsDigitOf(PtrText(d, addr, plat)[k], 16, true)
  {
    var pd := PtrDirective(d, plat);
    var v := Unsigned(addr, 8 * plat.ptrBytes);
    var w := 2 * plat.ptrBytes;
    PtrDigitsFit(addr, plat);
    var nd := NumDigits(v, 16);
    assert Has(pd.flags, FLAG_ZEROPAD) && !Has(pd.flags, FLAG_PRECISION) && !Has(pd.flags, FLAG_HASH);
    assert !Has(pd.flags, FLAG_LEFT);
    assert Nextra(pd.flags, 16, SignOf(v, false)) == 0;
    NtoaZeroPadded(pd, v, false, 16);
    DigitsShape(v, 16, true);
    var t := PtrText(d, addr, plat);
    var zeros, digits := Zeros(Gap(w, nd)), DigitString(v, 16, true);
    assert t == [] + zeros + digits;
    forall k | 0 <= k < |t|
      ensures IsDigitOf(t[k], 16, true)
    {
      if k < |zeros| {
        assert t[k] == '0';
      } else {
        assert t[k] == digits[k - |zeros|];
      }
    }
  }

  /** Left-justified `%p`: the digits (or a lone '0'), then spaces, the pointer's width in all. */
  lemma PtrLeftLength(d: Directive, addr: nat, plat: Platform)
    requires plat.Valid() && !Has(d.flags, FLAG_PRECISION) && !Has(d.flags, FLAG_HASH) && Has(d.flags, FLAG_LEFT)
    ensures |PtrText(d, addr, plat)| == 2 * plat.ptrBytes
  {
    var pd := PtrDirective(d, plat);
    var v := Unsigned(addr, 8 * plat.ptrBytes);
    PtrDigitsFit(addr, plat);
    var nd := NumDigits(v, 16);
    assert !Has(pd.flags, FLAG_PRECISION) && !Has(pd.flags, FLAG_HASH) && Has(pd.flags, FLAG_LEFT);
    assert Nextra(pd.flags, 16, SignOf(v, false)) == 0;
    NtoaWidth(pd, v, false, 16);
    IntroFlagsKeep(pd.flags);
    assert LeadSpaces(pd, 16, nd, SignOf(v, false)) == 0;
    assert ZeroCount(pd, 16, nd, SignOf(v, false)) == if v == 0 then 1 else 0;
    IntroLength(pd, 16, nd, SignOf(v, false));
  }

  /**
   * `%p` without a precision and without '#' is always exactly two characters a byte of the
   * pointer, and without '-' every one of them is an upper-case hexadecimal digit.
   */
  lemma PtrFixedWidth(d: Directive, addr: nat, plat: Platform)
    requires plat.Valid() && !Has(d.flags, FLAG_PRECISION) && !Has(d.flags, FLAG_HASH)
    ensures |PtrText(d, addr, plat)| == 2 * plat.ptrBytes
    ensures !Has(d.flags, FLAG_LEFT) ==>
      forall k :: 0 <= k < |PtrText(d, addr, plat)| ==> IsDigitOf(PtrText(d, addr, plat)[k], 16, true)
  {
    if Has(d.flags, FLAG_LEFT) {
      PtrLeftLength(d, addr, plat);
    } else {
      PtrRightHex(d, addr, plat);
    }
  }

  /** `conv_ptr`: width two digits a byte, '0' and 'X' forced, then `_ntoa` in base 16. */
  method ConvPtr(st: State, plat: Platform)
    requires st.Valid() && plat.Valid()
    modifies st`flags, st`width, st`specifier, st`ap, st.ctx
    ensures st.Valid() && st.ap == old(st.ap) + 1
    ensures st.width == 2 * plat.ptrBytes && st.specifier == 'X'
    ensures st.flags == IntroFlags(old(st.flags) | FLAG_ZEROPAD)
    ensures st.ctx.emitted
      == old(st.ctx.emitted) + PtrText(old(st.Dir()), PtrOf(ArgAt(st.args, old(st.ap))), plat)
  {
    PtrSetup(st, plat);
    var a := st.NextArg();
    Ntoa(st, Unsigned(PtrOf(a), 8 * plat.ptrBytes), false, 16);
  }

  /** The three field writes that open `conv_ptr`. */
  method PtrSetup(st: State, plat: Platform)
    requires st.Valid() && plat.Valid()
    modifies st`flags, st`width, st`specifier
    ensures st.Valid() && st.Dir() == PtrDirective(old(st.Dir()), plat)
  {
    st.width := plat.ptrBytes * 2;
    st.flags := st.flags | FLAG_ZEROPAD;
    st.specifier := 'X';
  }

  // ---------------------------------------------------------------- conv_pct

  /** `conv_pct`: a single '%', no argument consumed. */
  method ConvPct(st: State)
    requires st.Valid()
    modifies st.ctx
    ensures st.Valid()
    ensures st.ctx.emitted == old(st.ctx.emitted) + ['%']
  {
    st.PutChar('%');
  }
}
