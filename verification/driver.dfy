/**
 * The format driver of pico_fmt/printf.c: `_vfctprintf`, which copies literal bytes and, at
 * each '%', parses `%[flags][width][.precision][size]specifier` into the state and
 * dispatches on the specifier through the registry; and its two entry points
 * `fmt_vfctprintf` and `fmt_state_vprintf`.
 *
 * `Run` is the reference: the text one whole call emits. The methods are proved to emit
 * exactly that.
 */
module Driver {
  import opened Prelude
  import opened Digits
  import opened Sink
  import opened Helpers
  import opened IntConv
  import opened Handlers
  import opened Registry

  /** What a caller-installed handler does: the text it emits and where it leaves the cursor. */
  datatype UserOut = UserOut(text: seq<char>, ap: nat)

  /**
   * What the model does not see into: the floating-point converter's text for a directive and
   * a double's bit pattern, and each installed handler's behaviour by its identity.
   */
  datatype Env = Env(
    floatText: (Directive, nat) -> seq<char>,
    user: (nat, Directive, seq<Arg>, nat) -> UserOut)

  // ---------------------------------------------------------------- parsing, as functions

  predicate IsFlag(c: char)
  {
    c == '0' || c == '-' || c == '+' || c == ' ' || c == '#'
  }

  /** The flag bit a flag character sets. */
  function FlagBit(c: char): bv8
  {
    if c == '0' then FLAG_ZEROPAD
    else if c == '-' then FLAG_LEFT
    else if c == '+' then FLAG_PLUS
    else if c == ' ' then FLAG_SPACE
    else if c == '#' then FLAG_HASH
    else 0
  }

  datatype Scan = Scan(flags: bv8, next: nat)

  /** The flag run at `i`, its bits OR-ed into `acc`: the bits it sets and where it ends. */
  function ScanFlags(fmt: seq<char>, i: nat, acc: bv8): (r: Scan)
    requires i <= |fmt|
    ensures i <= r.next <= |fmt| && !IsFlag(At(fmt, r.next))
    ensures forall k :: i <= k < r.next ==> IsFlag(fmt[k])
    decreases |fmt| - i
  {
    if IsFlag(At(fmt, i)) then ScanFlags(fmt, i + 1, acc | FlagBit(fmt[i]))
    else Scan(acc, i)
  }

  /** A parsed numeric field: the flags after it, its value, where it ends, the cursor after it. */
  datatype Field = Field(flags: bv8, value: nat, next: nat, ap: nat)

  /**
   * The width field at `j`: digits, `*` from the next `int` argument, or nothing. A negative
   * `*` argument sets '-' and gives `(unsigned int) -w`; for the most negative `int` the C
   * negation overflows, and the model takes the wrapped result 2^31.
   */
  function ScanWidth(fmt: seq<char>, j: nat, flags: bv8, args: seq<Arg>, ap: nat): (r: Field)
    requires j <= |fmt|
    ensures j <= r.next <= |fmt| && r.value < U32
  {
    Pow2Large();
    if IsDigit(At(fmt, j)) then
      var k := DigitEnd(fmt, j);
      Field(flags, AtoiValue(fmt[j..k]), k, ap)
    else if At(fmt, j) == '*' then
      var w := Signed(IntOf(ArgAt(args, ap)), 32);
      if w < 0 then Field(flags | FLAG_LEFT, Unsigned(-w, 32), j + 1, ap + 1)
      else Field(flags, w, j + 1, ap + 1)
    else Field(flags, 0, j, ap)
  }

  /** The precision field at `j`: '.' then digits, `*` (negative reads as 0), or nothing. */
  function ScanPrecision(fmt: seq<char>, j: nat, flags: bv8, args: seq<Arg>, ap: nat): (r: Field)
    requires j <= |fmt|
    ensures j <= r.next <= |fmt| && r.value < U32
  {
    Pow2Large();
    if At(fmt, j) == '.' then
      var f, j1 := flags | FLAG_PRECISION, j + 1;
      if IsDigit(At(fmt, j1)) then
        var k := DigitEnd(fmt, j1);
        Field(f, AtoiValue(fmt[j1..k]), k, ap)
      else if At(fmt, j1) == '*' then
        var p := Signed(IntOf(ArgAt(args, ap)), 32);
        Field(f, if p > 0 then p else 0, j1 + 1, ap + 1)
      else Field(f, 0, j1, ap)
    else Field(flags, 0, j, ap)
  }

  datatype SizeScan = SizeScan(size: Size, next: nat)

  /** The size field at `j`: `l`, `ll`, `h`, `hh`, and `t`, `j`, `z` by the target's type widths. */
  function ScanSize(fmt: seq<char>, j: nat, plat: Platform): (r: SizeScan)
    requires j <= |fmt|
    ensures j <= r.next <= |fmt| && r.next <= j + 2
    ensures r.next == j <==> r.size == SizeDefault
  {
    var c := At(fmt, j);
    if c == 'l' then
      (if At(fmt, j + 1) == 'l' then SizeScan(SizeLongLong, j + 2) else SizeScan(SizeLong, j + 1))
    else if c == 'h' then
      (if At(fmt, j + 1) == 'h' then SizeScan(SizeChar, j + 2) else SizeScan(SizeShort, j + 1))
    else if c == 't' then SizeScan(if plat.ptrdiffIsLong then SizeLong else SizeLongLong, j + 1)
    else if c == 'j' then SizeScan(if plat.intmaxIsLong then SizeLong else SizeLongLong, j + 1)
    else if c == 'z' then SizeScan(if plat.sizeIsLong then SizeLong else SizeLongLong, j + 1)
    else SizeScan(SizeDefault, j)
  }

  /** A whole directive parsed from just after its '%': the fields, the next position, the cursor. */
  datatype Parsed = Parsed(d: Directive, next: nat, ap: nat)

  function ParseDirective(fmt: seq<char>, i: nat, args: seq<Arg>, ap: nat, plat: Platform): (p: Parsed)
    requires i <= |fmt|
    ensures i < p.next <= |fmt| + 1 && p.d.width < U32 && p.d.precision < U32
    ensures p.d.specifier == At(fmt, p.next - 1)
  {
    var f := ScanFlags(fmt, i, 0);
    var w := ScanWidth(fmt, f.next, f.flags, args, ap);
    var pr := ScanPrecision(fmt, w.next, w.flags, args, w.ap);
    var sz := ScanSize(fmt, pr.next, plat);
    Parsed(Directive(pr.flags, w.value, pr.value, sz.size, At(fmt, sz.next)), sz.next + 1, pr.ap)
  }

  // ---------------------------------------------------------------- dispatch and the whole run

  /** The text the diagnostic for a specifier without a handler starts with. */
  const UNKNOWN_LEAD: seq<char> := "%!(unknown specifier="

  /** The diagnostic for a specifier without a handler. */
  function UnknownText(c: char): seq<char>
  {
    UNKNOWN_LEAD + QuotedByte(ByteOf(c)) + ")"
  }

  /** What a handler emits and where it leaves the cursor. */
  datatype Out = Out(text: seq<char>, ap: nat)

  /** The text one directive emits, by the handler the table holds for its specifier. */
  function DispatchText(env: Env, t: seq<Option<Handler>>, d: Directive, args: seq<Arg>, ap: nat,
                        plat: Platform): Out
    requires TableOk(t)
  {
    var h := Lookup(t, d.specifier);
    if h.None? then Out(UnknownText(d.specifier), ap)
    else
      match h.value
      case Sint => Out(SintText(d, IntOf(ArgAt(args, ap)), plat), ap + 1)
      case Uint =>
        UintOnlyAtSeed(t, d.specifier);
        Out(UintText(d, IntOf(ArgAt(args, ap)), plat), ap + 1)
      case Double => Out(env.floatText(d, DblOf(ArgAt(args, ap))), ap + 1)
      case Char => Out(CharText(d, IntOf(ArgAt(args, ap))), ap + 1)
      case Str => Out(StrText(d, StrOf(ArgAt(args, ap)), plat), ap + 1)
      case Ptr => Out(PtrText(d, PtrOf(ArgAt(args, ap)), plat), ap + 1)
      case Pct => Out("%", ap)
      case User(id) => var o := env.user(id, d, args, ap); Out(o.text, o.ap)
  }

  /**
   * Everything a call emits from format position `i` with the argument cursor at `ap`, as the
   * loop of `_vfctprintf` is written: up to a terminator, literal bytes copied, each directive
   * replaced by its handler's text, and scanning resumed just after the specifier even when the
   * specifier read was the terminator itself (a directive cut short, such as a final '%'), so
   * that bytes lying past the terminator are scanned too.
   */
  function RunAsWritten(env: Env, t: seq<Option<Handler>>, fmt: seq<char>, i: nat, args: seq<Arg>, ap: nat,
                        plat: Platform): seq<char>
    requires TableOk(t)
    decreases |fmt| + 1 - i
  {
    if i >= |fmt| || fmt[i] == '\0' then []
    else if fmt[i] != '%' then [fmt[i]] + RunAsWritten(env, t, fmt, i + 1, args, ap, plat)
    else
      var p := ParseDirective(fmt, i + 1, args, ap, plat);
      var o := DispatchText(env, t, p.d, args, p.ap, plat);
      o.text + RunAsWritten(env, t, fmt, p.next, args, o.ap, plat)
  }

  /**
   * Everything a call emits from format position `i` with the argument cursor at `ap`: as
   * `RunAsWritten`, except that a directive cut short by the terminator emits its diagnostic
   * and ends the scan, so nothing past the terminator is ever read.
   */
  function Run(env: Env, t: seq<Option<Handler>>, fmt: seq<char>, i: nat, args: seq<Arg>, ap: nat,
               plat: Platform): seq<char>
    requires TableOk(t)
    decreases |fmt| + 1 - i
  {
    if i >= |fmt| || fmt[i] == '\0' then []
    else if fmt[i] != '%' then [fmt[i]] + Run(env, t, fmt, i + 1, args, ap, plat)
    else
      var p := ParseDirective(fmt, i + 1, args, ap, plat);
      var o := DispatchText(env, t, p.d, args, p.ap, plat);
      if p.d.specifier == '\0' then o.text
      else o.text + Run(env, t, fmt, p.next, args, o.ap, plat)
  }

  // ---------------------------------------------------------------- parsing, as the source does it

  /** The flag loop of `_vfctprintf`. */
  method ParseFlags(st: State, fmt: seq<char>, i: nat) returns (j: nat)
    requires i <= |fmt|
    modifies st`flags
    ensures st.flags == ScanFlags(fmt, i, 0).flags && j == ScanFlags(fmt, i, 0).next
  {
    st.flags := 0;
    j := i;
    while IsFlag(At(fmt, j))
      invariant i <= j <= |fmt|
      invariant ScanFlags(fmt, i, 0) == ScanFlags(fmt, j, st.flags)
      decreases |fmt| - j
    {
      st.flags := st.flags | FlagBit(fmt[j]);
      j := j + 1;
    }
  }

  /** The width field of `_vfctprintf`. */
  method ParseWidth(st: State, fmt: seq<char>, j: nat) returns (k: nat)
    requires j <= |fmt|
    modifies st`flags, st`width, st`ap
    ensures var r := ScanWidth(fmt, j, old(st.flags), st.args, old(st.ap));
      st.flags == r.flags && st.width == r.value && k == r.next && st.ap == r.ap
  {
    Pow2Large();
    st.width := 0;
    k := j;
    if IsDigit(At(fmt, j)) {
      var v;
      v, k := Atoi(fmt, j);
      st.width := v;
    } else if At(fmt, j) == '*' {
      var a := st.NextArg();
      var w := Signed(IntOf(a), 32);
      if w < 0 {
        st.flags := st.flags | FLAG_LEFT;
        st.width := Unsigned(-w, 32);
      } else {
        st.width := w;
      }
      k := j + 1;
    }
  }

  /** The precision field of `_vfctprintf`. */
  method ParsePrecision(st: State, fmt: seq<char>, j: nat) returns (k: nat)
    requires j <= |fmt|
    modifies st`flags, st`precision, st`ap
    ensures var r := ScanPrecision(fmt, j, old(st.flags), st.args, old(st.ap));
      st.flags == r.flags && st.precision == r.value && k == r.next && st.ap == r.ap
  {
    st.precision := 0;
    k := j;
    if At(fmt, j) == '.' {
      st.flags := st.flags | FLAG_PRECISION;
      k := j + 1;
      if IsDigit(At(fmt, k)) {
        var v;
        v, k := Atoi(fmt, k);
        st.precision := v;
      } else if At(fmt, k) == '*' {
        var a := st.NextArg();
        var p := Signed(IntOf(a), 32);
        st.precision := if p > 0 then p else 0;
        k := k + 1;
      }
    }
  }

  /** The size field of `_vfctprintf`. */
  method ParseSize(st: State, fmt: seq<char>, j: nat, plat: Platform) returns (k: nat)
    requires j <= |fmt|
    modifies st`size
    ensures st.size == ScanSize(fmt, j, plat).size && k == ScanSize(fmt, j, plat).next
  {
    st.size := SizeDefault;
    k := j;
    var c := At(fmt, j);
    if c == 'l' {
      st.size := SizeLong;
      k := j + 1;
      if At(fmt, k) == 'l' {
        st.size := SizeLongLong;
        k := k + 1;
      }
    } else if c == 'h' {
      st.size := SizeShort;
      k := j + 1;
      if At(fmt, k) == 'h' {
        st.size := SizeChar;
        k := k + 1;
      }
    } else if c == 't' {
      st.size := if plat.ptrdiffIsLong then SizeLong else SizeLongLong;
      k := j + 1;
    } else if c == 'j' {
      st.size := if plat.intmaxIsLong then SizeLong else SizeLongLong;
      k := j + 1;
    } else if c == 'z' {
      st.size := if plat.sizeIsLong then SizeLong else SizeLongLong;
      k := j + 1;
    }
  }

  /** One directive's fields, read from just after its '%' into the state. */
  method ParseInto(st: State, fmt: seq<char>, i: nat, plat: Platform) returns (next: nat)
    requires st.Valid() && i <= |fmt|
    modifies st`flags, st`width, st`precision, st`size, st`specifier, st`ap
    ensures st.Valid()
    ensures var p := ParseDirective(fmt, i, st.args, old(st.ap), plat);
      st.Dir() == p.d && next == p.next && st.ap == p.ap
  {
    var j := ParseFlags(st, fmt, i);
    j := ParseWidth(st, fmt, j);
    j := ParsePrecision(st, fmt, j);
    j := ParseSize(st, fmt, j, plat);
    st.specifier := At(fmt, j);
    next := j + 1;
  }

  // ---------------------------------------------------------------- dispatch and the loop

  /** A text without a terminator reaches the sink whole through `fmt_state_puts`. */
  lemma PutsWhole(s: seq<char>)
    requires forall k :: 0 <= k < |s| ==> s[k] != '\0'
    ensures s[..CStrLen(s)] == s
  {
    CStrLenWhole(s);
  }

  /** The unknown-specifier diagnostic. */
  method PutUnknown(st: State)
    requires st.Valid()
    modifies st.ctx
    ensures st.Valid()
    ensures st.ctx.emitted == old(st.ctx.emitted) + UnknownText(st.specifier)
  {
    ghost var e0 := st.ctx.emitted;
    PutsWhole(UNKNOWN_LEAD);
    st.Puts(UNKNOWN_LEAD);
    ghost var e1 := st.ctx.emitted;
    assert e1 == e0 + UNKNOWN_LEAD;
    PutQuotedByte(st, (st.specifier as int) % 256);
    assert st.ctx.emitted == e1 + QuotedByte(ByteOf(st.specifier));
    st.PutChar(')');
    AppendAssoc(e0, UNKNOWN_LEAD, QuotedByte(ByteOf(st.specifier)), ")");
  }

  /** The dispatch at the end of each directive: the table's handler, or the diagnostic. */
  method Dispatch(st: State, reg: Table, env: Env, plat: Platform)
    requires st.Valid() && reg.Valid() && plat.Valid()
    modifies st`flags, st`width, st`precision, st`specifier, st`ap, st.ctx
    ensures st.Valid()
    ensures var o := DispatchText(env, reg.entries[..], old(st.Dir()), st.args, old(st.ap), plat);
      st.ctx.emitted == old(st.ctx.emitted) + o.text && st.ap == o.ap
  {
    var h := reg.Get(st.specifier);
    if h.None? {
      PutUnknown(st);
    } else {
      match h.value
      case Sint => ConvSint(st, plat);
      case Uint =>
        UintOnlyAtSeed(reg.entries[..], st.specifier);
        ConvUint(st, plat);
      case Double =>
        var a := st.NextArg();
        st.PutSeq(env.floatText(st.Dir(), DblOf(a)));
      case Char => ConvChar(st);
      case Str => ConvStr(st, plat);
      case Ptr => ConvPtr(st, plat);
      case Pct => ConvPct(st);
      case User(id) =>
        var o := env.user(id, st.Dir(), st.args, st.ap);
        st.PutSeq(o.text);
        st.ap := o.ap;
    }
  }

  /**
   * One directive of `_vfctprintf`, from its '%' at `i`: parse, dispatch, and report where the
   * scan resumes and whether the specifier read was the terminator.
   */
  method DirectiveStep(st: State, fmt: seq<char>, i: nat, reg: Table, env: Env, plat: Platform)
    returns (next: nat, cut: bool)
    requires st.Valid() && reg.Valid() && plat.Valid() && i < |fmt|
    modifies st`flags, st`width, st`precision, st`size, st`specifier, st`ap, st.ctx
    ensures st.Valid()
    ensures var p := ParseDirective(fmt, i + 1, st.args, old(st.ap), plat);
      var o := DispatchText(env, reg.entries[..], p.d, st.args, p.ap, plat);
      st.ctx.emitted == old(st.ctx.emitted) + o.text && st.ap == o.ap
      && next == p.next && cut == (p.d.specifier == '\0')
  {
    next := ParseInto(st, fmt, i + 1, plat);
    cut := st.specifier == '\0';
    Dispatch(st, reg, env, plat);
  }

  /**
   * `_vfctprintf`: one call's scan of the format, emitting through `ctx`; a directive cut short
   * by the terminator ends the scan (see `RunAsWritten` for the loop as the source writes it).
   */
  method Vfctprintf(ctx: Context, fmt: seq<char>, args: seq<Arg>, reg: Table, env: Env, plat: Platform)
    requires ctx.Valid() && reg.Valid() && plat.Valid()
    modifies ctx
    ensures ctx.Valid()
    ensures ctx.emitted == old(ctx.emitted) + Run(env, reg.entries[..], fmt, 0, args, 0, plat)
  {
    ghost var t := reg.entries[..];
    ghost var e0 := ctx.emitted;
    var st := new State(ctx, args);
    var i := 0;
    while At(fmt, i) != '\0'
      invariant st.Valid() && st.ctx == ctx && st.args == args && reg.entries[..] == t
      invariant ctx.emitted + Run(env, t, fmt, i, args, st.ap, plat) == e0 + Run(env, t, fmt, 0, args, 0, plat)
      decreases |fmt| + 1 - i
    {
      ghost var e1 := ctx.emitted;
      ghost var rest := Run(env, t, fmt, i, args, st.ap, plat);
      if fmt[i] != '%' {
        st.PutChar(fmt[i]);
        i := i + 1;
        AppendAssoc3(e1, [fmt[i - 1]], Run(env, t, fmt, i, args, st.ap, plat));
      } else {
        ghost var p := ParseDirective(fmt, i + 1, args, st.ap, plat);
        ghost var o := DispatchText(env, t, p.d, args, p.ap, plat);
        var cut;
        i, cut := DirectiveStep(st, fmt, i, reg, env, plat);
        if cut {
          break;
        }
        AppendAssoc3(e1, o.text, Run(env, t, fmt, i, args, st.ap, plat));
      }
    }
  }

  /** `fmt_vfctprintf`: a fresh context; returns the count as an `int` and what the callback got. */
  method FmtVfctprintf(hasFct: bool, fmt: seq<char>, args: seq<Arg>, reg: Table, env: Env, plat: Platform)
    returns (r: int, delivered: seq<char>)
    requires reg.Valid() && plat.Valid()
    ensures var out := Run(env, reg.entries[..], fmt, 0, args, 0, plat);
      r == Signed(|out|, 32) && delivered == (if hasFct then out else [])
  {
    var ctx := new Context(hasFct);
    Vfctprintf(ctx, fmt, args, reg, env, plat);
    r := Signed(ctx.idx, 32);
    delivered := ctx.delivered;
  }

  /**
   * `fmt_state_vprintf`: a nested call from inside a handler, on a fresh argument list but
   * the same context, so its characters count toward the outer call's total.
   */
  method StateVprintf(st: State, fmt: seq<char>, args: seq<Arg>, reg: Table, env: Env, plat: Platform)
    requires st.Valid() && reg.Valid() && plat.Valid()
    modifies st.ctx
    ensures st.Valid()
    ensures st.ctx.emitted == old(st.ctx.emitted) + Run(env, reg.entries[..], fmt, 0, args, 0, plat)
  {
    Vfctprintf(st.ctx, fmt, args, reg, env, plat);
  }
}
