/**
 * The per-directive state and the output sink of pico_fmt (`struct fmt_state`,
 * `struct _fmt_ctx`, `fmt_state_putchar`, `fmt_state_puts`, `fmt_state_len`).
 *
 * The user callback `fct` and its opaque `arg` are replaced by a record of the characters the
 * callback would have received (`delivered`); `emitted` is every character that went through
 * the sink, whether or not a callback was set.
 */
module Sink {
  import opened Prelude

  // The flag bits of `fmt_state.flags`.
  const FLAG_ZEROPAD: bv8 := 0x01   // '0'
  const FLAG_LEFT: bv8 := 0x02      // '-'
  const FLAG_PLUS: bv8 := 0x04      // '+'
  const FLAG_SPACE: bv8 := 0x08     // ' '
  const FLAG_HASH: bv8 := 0x10      // '#'
  const FLAG_PRECISION: bv8 := 0x20 // a precision was given

  predicate Has(flags: bv8, bit: bv8) { flags & bit != 0 }

  /** `enum fmt_size`. */
  datatype Size = SizeChar | SizeShort | SizeDefault | SizeLong | SizeLongLong

  /**
   * One variadic argument. Integers are kept as the caller's mathematical value and are
   * narrowed explicitly to the C type a conversion reads; a double is its bit pattern.
   */
  datatype Arg = IntArg(n: int) | StrArg(s: seq<char>) | PtrArg(addr: nat) | DblArg(bits: nat)

  /** `va_arg` at cursor `k`: past the end, or of the wrong kind, reads as 0 or "". */
  function ArgAt(args: seq<Arg>, k: nat): Arg
  {
    if k < |args| then args[k] else IntArg(0)
  }

  function IntOf(a: Arg): int { if a.IntArg? then a.n else 0 }
  function StrOf(a: Arg): seq<char> { if a.StrArg? then a.s else [] }
  function PtrOf(a: Arg): nat { if a.PtrArg? then a.addr else 0 }
  function DblOf(a: Arg): nat { if a.DblArg? then a.bits else 0 }

  /**
   * The target's type widths, which the source reads from `sizeof`: `long` in bits, whether
   * plain `char` is signed, the pointer size in bytes, and whether `ptrdiff_t`, `intmax_t`
   * and `size_t` are as wide as `long`. `int` is 32 bits, `long long` 64 bits.
   */
  datatype Platform = Platform(
    longBits: nat, charSigned: bool, ptrBytes: nat,
    ptrdiffIsLong: bool, intmaxIsLong: bool, sizeIsLong: bool)
  {
    ghost predicate Valid() { (longBits == 32 || longBits == 64) && (ptrBytes == 4 || ptrBytes == 8) }
  }

  /** The parsed fields of one directive: `%[flags][width][.precision][size]specifier`. */
  datatype Directive = Directive(flags: bv8, width: nat, precision: nat, size: Size, specifier: char)

  /** `struct _fmt_ctx`: the callback (present or not) and the shared emitted-character count. */
  class Context {
    const hasFct: bool
    var delivered: seq<char>
    var idx: nat
    ghost var emitted: seq<char>

    ghost predicate Valid()
      reads this
    {
      idx == |emitted| && (hasFct ==> delivered == emitted) && (!hasFct ==> delivered == [])
    }

    constructor (hasFct: bool)
      ensures Valid() && this.hasFct == hasFct && emitted == []
    {
      this.hasFct := hasFct;
      delivered := [];
      idx := 0;
      emitted := [];
    }
  }

  /** `struct fmt_state`: one directive's fields, the argument cursor and the shared context. */
  class State {
    var flags: bv8
    var width: nat
    var precision: nat
    var size: Size
    var specifier: char
    var args: seq<Arg>
    var ap: nat
    const ctx: Context

    /** Width and precision are `unsigned int`. */
    ghost predicate Valid()
      reads this, ctx
    {
      ctx.Valid() && width < U32 && precision < U32
    }

    function Dir(): Directive
      reads this
    {
      Directive(flags, width, precision, size, specifier)
    }

    /** The zero-initialised state `_vfctprintf` starts from (`size` 0 is `FMT_SIZE_CHAR`). */
    constructor (ctx: Context, args: seq<Arg>)
      requires ctx.Valid()
      ensures Valid() && this.ctx == ctx && this.args == args && ap == 0
      ensures Dir() == Directive(0, 0, 0, SizeChar, '\0')
    {
      flags, width, precision, size, specifier := 0, 0, 0, SizeChar, '\0';
      this.args, ap := args, 0;
      this.ctx := ctx;
    }

    /** `fmt_state_len`: characters emitted since the outermost call began. */
    function Len(): (n: nat)
      reads this, ctx
      requires Valid()
      ensures n == |ctx.emitted|
    {
      ctx.idx
    }

    /**
     * `fmt_state_putchar`: `c` is appended to what was emitted; since `Valid` ties the counter
     * to the length of `emitted` and `delivered` to `emitted` or nothing, the counter goes up
     * by exactly one and the character reaches the callback only when one is set.
     */
    method PutChar(c: char)
      requires Valid()
      modifies ctx
      ensures Valid()
      ensures ctx.emitted == old(ctx.emitted) + [c]
    {
      if ctx.hasFct {
        ctx.delivered := ctx.delivered + [c];
      }
      ctx.idx := ctx.idx + 1;
      ctx.emitted := ctx.emitted + [c];
    }

    /** `fmt_state_puts`: the characters of `s` up to its terminator, no newline. */
    method Puts(s: seq<char>)
      requires Valid()
      modifies ctx
      ensures Valid()
      ensures ctx.emitted == old(ctx.emitted) + s[..CStrLen(s)]
    {
      var k := 0;
      while At(s, k) != '\0'
        invariant k <= CStrLen(s)
        invariant Valid()
        invariant ctx.emitted == old(ctx.emitted) + s[..k]
        decreases |s| - k
      {
        PutChar(s[k]);
        k := k + 1;
      }
    }

    /**
     * An engine outside the model (the float converters, a user handler) emitting `t` one
     * character at a time through `fmt_state_putchar`.
     */
    method PutSeq(t: seq<char>)
      requires Valid()
      modifies ctx
      ensures Valid()
      ensures ctx.emitted == old(ctx.emitted) + t
    {
      for k := 0 to |t|
        invariant Valid()
        invariant ctx.emitted == old(ctx.emitted) + t[..k]
      {
        PutChar(t[k]);
      }
    }

    /** `va_arg(*state->args, …)`: the argument under the cursor, which then moves on. */
    method NextArg() returns (a: Arg)
      modifies this`ap
      ensures a == ArgAt(args, old(ap)) && ap == old(ap) + 1
    {
      a := ArgAt(args, ap);
      ap := ap + 1;
    }
  }
}
