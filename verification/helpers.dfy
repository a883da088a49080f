/**
 * The small helpers of pico_fmt/printf.c: `_is_digit`, `_is_upper`, `_strnlen_s`, `_atoi`,
 * `_out_rev` and `_put_quoted_byte`.
 */
module Helpers {
  import opened Prelude
  import opened Digits
  import opened Sink

  predicate IsDigit(c: char) { '0' <= c <= '9' }

  predicate IsUpper(c: char) { 'A' <= c <= 'Z' }

  /** `_strnlen_s`: the string's length up to its terminator, but no more than `maxsize`. */
  method StrnlenS(s: seq<char>, maxsize: nat) returns (n: nat)
    ensures n == Min(CStrLen(s), maxsize)
  {
    n := 0;
    var budget := maxsize;
    while At(s, n) != '\0' && budget != 0
      invariant n <= CStrLen(s) && n + budget == maxsize
      decreases budget
    {
      budget := budget - 1;
      n := n + 1;
    }
  }

  /** The end of the run of decimal digits that starts at `i`. */
  function DigitEnd(fmt: seq<char>, i: nat): (j: nat)
    requires i <= |fmt|
    ensures i <= j <= |fmt| && !IsDigit(At(fmt, j))
    ensures forall k :: i <= k < j ==> IsDigit(fmt[k])
    decreases |fmt| - i
  {
    if IsDigit(At(fmt, i)) then DigitEnd(fmt, i + 1) else i
  }

  /** The value `_atoi` accumulates from a run of digits: decimal, wrapped to `unsigned int`. */
  function AtoiValue(digits: seq<char>): nat
  {
    ReadAcc(digits, 10, 0) % U32
  }

  /**
   * `_atoi`: reads the digit run at `i` and returns its decimal value modulo 2^32 (the
   * `unsigned int` arithmetic wraps) and the position after the run.
   */
  method Atoi(fmt: seq<char>, i: nat) returns (v: nat, j: nat)
    requires i <= |fmt|
    ensures j == DigitEnd(fmt, i)
    ensures v == AtoiValue(fmt[i..j]) && v < U32
  {
    v, j := 0, i;
    while IsDigit(At(fmt, j))
      invariant i <= j <= DigitEnd(fmt, i)
      invariant v == AtoiValue(fmt[i..j])
      decreases |fmt| - j
    {
      ReadAccAppend(fmt[i..j], [fmt[j]], 10, 0);
      assert fmt[i..j + 1] == fmt[i..j] + [fmt[j]];
      ModMulAdd(ReadAcc(fmt[i..j], 10, 0), 10, DigitValue(fmt[j]), U32);
      v := (v * 10 + (fmt[j] as int - '0' as int)) % U32;
      j := j + 1;
    }
  }

  /** What `_out_rev` emits for `buf[..len]`: the buffer reversed, padded to the width. */
  function OutRevText(d: Directive, s: seq<char>): seq<char>
  {
    var lead := if !Has(d.flags, FLAG_LEFT) && !Has(d.flags, FLAG_ZEROPAD) then Gap(d.width, |s|) else 0;
    var body := Spaces(lead) + Reverse(s);
    if Has(d.flags, FLAG_LEFT) then body + Spaces(Gap(d.width, |body|)) else body
  }

  /**
   * `_out_rev` emits the buffer back to front, space-padded to the width on the left by
   * default, on the right under LEFT, and not at all under ZEROPAD (the caller has already
   * put the zeros in the buffer).
   */
  lemma OutRevLayout(d: Directive, s: seq<char>)
    ensures var left, zero := Has(d.flags, FLAG_LEFT), Has(d.flags, FLAG_ZEROPAD);
      var pad := if !left && zero then 0 else Gap(d.width, |s|);
      OutRevText(d, s) == (if left then Reverse(s) + Spaces(pad) else Spaces(pad) + Reverse(s))
    ensures |OutRevText(d, s)| == if !Has(d.flags, FLAG_LEFT) && Has(d.flags, FLAG_ZEROPAD) then |s| else Max(d.width, |s|)
    ensures Reverse(OutRevText(d, s)[|OutRevText(d, s)| - |s|..]) == s || Has(d.flags, FLAG_LEFT)
  {
    if Has(d.flags, FLAG_LEFT) {
      assert Spaces(0) + Reverse(s) == Reverse(s);
    } else {
      var t := OutRevText(d, s);
      assert t[|t| - |s|..] == Reverse(s);
      ReverseInvolution(s);
    }
  }

  /** The padding loop `for (i = from; i < want; i++) putchar(c)` of `_out_rev` and `_ntoa`. */
  method PadTo(st: State, c: char, from: nat, want: nat)
    requires st.Valid()
    modifies st.ctx
    ensures st.Valid()
    ensures st.ctx.emitted == old(st.ctx.emitted) + Fill(c, Gap(want, from))
  {
    var i := from;
    while i < want
      invariant from <= i <= Max(want, from)
      invariant st.Valid()
      invariant st.ctx.emitted == old(st.ctx.emitted) + Fill(c, i - from)
    {
      st.PutChar(c);
      i := i + 1;
    }
  }

  /**
   * `_out_rev`: emits `buf[..len]` in reverse order, with space padding up to the width (the
   * right-hand padding measured with the shared counter).
   */
  method OutRev(st: State, buf: seq<char>, len: nat)
    requires st.Valid() && len <= |buf|
    modifies st.ctx
    ensures st.Valid()
    ensures st.ctx.emitted == old(st.ctx.emitted) + OutRevText(st.Dir(), buf[..len])
  {
    ghost var d := st.Dir();
    ghost var s := buf[..len];
    ghost var e0 := st.ctx.emitted;
    var startIdx := st.Len();

    // pad spaces up to the width
    ghost var lead := Spaces(if !Has(d.flags, FLAG_LEFT) && !Has(d.flags, FLAG_ZEROPAD) then Gap(d.width, len) else 0);
    if !Has(st.flags, FLAG_LEFT) && !Has(st.flags, FLAG_ZEROPAD) {
      PadTo(st, ' ', len, st.width);
    } else {
      assert lead == [];
    }
    ghost var e1 := st.ctx.emitted;
    assert e1 == e0 + lead;

    // the buffer, back to front
    var n := len;
    while n > 0
      invariant n <= len
      invariant st.Valid()
      invariant st.ctx.emitted == e1 + Reverse(buf[n..len])
    {
      n := n - 1;
      assert buf[n..len][1..] == buf[n + 1..len];
      assert Reverse(buf[n..len]) == Reverse(buf[n + 1..len]) + [buf[n]];
      st.PutChar(buf[n]);
      AppendAssoc3(e1, Reverse(buf[n + 1..len]), [buf[n]]);
    }
    assert buf[0..len] == s;
    ghost var body := lead + Reverse(s);
    AppendAssoc3(e0, lead, Reverse(s));
    ghost var e2 := st.ctx.emitted;
    assert e2 == e0 + body;

    // pad spaces after it up to the width
    if Has(st.flags, FLAG_LEFT) {
      ghost var k := 0;
      while st.Len() - startIdx < st.width
        invariant st.Valid()
        invariant st.ctx.idx == startIdx + |body| + k
        invariant k <= Gap(d.width, |body|)
        invariant st.ctx.emitted == e2 + Spaces(k)
        decreases st.width - (st.ctx.idx - startIdx)
      {
        st.PutChar(' ');
        k := k + 1;
      }
      assert k == Gap(d.width, |body|);
      AppendAssoc3(e0, body, Spaces(k));
      assert OutRevText(d, s) == body + Spaces(k);
    } else {
      assert OutRevText(d, s) == body;
    }
  }

  /** `_put_quoted_byte`'s text: a single-quoted C character literal, escaped. */
  function QuotedByte(b: nat): seq<char>
    requires b < 256
  {
    "'" + QuotedInner(b) + "'"
  }

  /** What goes between the quotes. */
  function QuotedInner(b: nat): seq<char>
    requires b < 256
  {
    if ' ' as int <= b <= '~' as int then
      (if b == '\'' as int || b == '\\' as int then "\\" else "") + [b as char]
    else
      // the two nibbles go out as raw values 0..15, not as hex digit characters
      ['\\', 'x', (b / 16) as char, (b % 16) as char]
  }

  /** Reads a literal produced by `QuotedByte` back to its byte. */
  function UnquoteByte(q: seq<char>): Option<nat>
  {
    if |q| == 3 && q[0] == '\'' && q[2] == '\'' then Some(q[1] as int)
    else if |q| == 4 && q[0] == '\'' && q[1] == '\\' && q[3] == '\'' then Some(q[2] as int)
    else if |q| == 6 && q[0] == '\'' && q[1] == '\\' && q[2] == 'x' && q[5] == '\'' then
      Some(q[3] as int * 16 + q[4] as int)
    else None
  }

  /**
   * The quoting is lossless, and its shape tells the three cases apart: a printable byte
   * alone, a quote or backslash escaped with a backslash, anything else as `\x` and nibbles.
   */
  lemma QuotedByteRoundTrip(b: nat)
    requires b < 256
    ensures UnquoteByte(QuotedByte(b)) == Some(b)
    ensures |QuotedByte(b)| == 3 <==> ' ' as int <= b <= '~' as int && b != '\'' as int && b != '\\' as int
    ensures |QuotedByte(b)| == 4 <==> b == '\'' as int || b == '\\' as int
    ensures |QuotedByte(b)| == 6 <==> b < ' ' as int || b > '~' as int
  {
  }

  /** `_put_quoted_byte`. */
  method PutQuotedByte(st: State, c: nat)
    requires st.Valid() && c < 256
    modifies st.ctx
    ensures st.Valid()
    ensures st.ctx.emitted == old(st.ctx.emitted) + QuotedByte(c)
  {
    st.PutChar('\'');
    ghost var open := st.ctx.emitted;
    if ' ' as int <= c <= '~' as int {
      if c == '\'' as int || c == '\\' as int {
        st.PutChar('\\');
        st.PutChar(c as char);
        assert st.ctx.emitted == open + ['\\', c as char];
      } else {
        st.PutChar(c as char);
      }
    } else {
      st.PutChar('\\');
      st.PutChar('x');
      st.PutChar((c / 16 % 16) as char);
      st.PutChar((c % 16) as char);
      assert st.ctx.emitted == open + ['\\', 'x', (c / 16) as char, (c % 16) as char];
    }
    assert st.ctx.emitted == open + QuotedInner(c);
    st.PutChar('\'');
    AppendAssoc(old(st.ctx.emitted), ['\''], QuotedInner(c), ['\'']);
  }
}
