/**
 * What the driver of pico_fmt/printf.c promises about a whole format string: literal bytes
 * pass through, flags are a set, a dynamic width or precision means what its literal form
 * means, unknown specifiers produce the diagnostic, an installed handler is the one called,
 * and the output depends on nothing past the terminator.
 */
module DriverProps {
  import opened Prelude
  import opened Digits
  import opened Sink
  import opened Helpers
  import opened Handlers
  import opened Registry
  import opened Driver

  // ---------------------------------------------------------------- literal text

  /** A stretch of format holding no '%' and no terminator is copied to the output unchanged. */
  lemma {:induction false} RunLiteral(env: Env, t: seq<Option<Handler>>, fmt: seq<char>, i: nat,
                                      args: seq<Arg>, ap: nat, plat: Platform)
    requires TableOk(t) && i <= |fmt|
    requires forall k :: i <= k < |fmt| ==> fmt[k] != '%' && fmt[k] != '\0'
    ensures Run(env, t, fmt, i, args, ap, plat) == fmt[i..]
    decreases |fmt| - i
  {
    if i < |fmt| {
      RunLiteral(env, t, fmt, i + 1, args, ap, plat);
      assert fmt[i..] == [fmt[i]] + fmt[i + 1..];
    }
  }

  // ---------------------------------------------------------------- flags

  /** Folding one flag character into the bits: it adds its own bit and no other. */
  lemma FlagBitOr(a: bv8, x: char, c: char)
    requires IsFlag(x) && IsFlag(c)
    ensures Has(a | FlagBit(x), FlagBit(c)) <==> Has(a, FlagBit(c)) || x == c
  {
  }

  /** A character occurs in `s[i..j]` when it is `s[i]` or occurs in the rest. */
  lemma InSlice(s: seq<char>, i: nat, j: nat, c: char)
    requires i < j <= |s|
    ensures c in s[i..j] <==> s[i] == c || c in s[i + 1..j]
  {
    assert s[i..j] == [s[i]] + s[i + 1..j];
  }

  /**
   * A flag is set after the flag run exactly when it was set before or its character occurs in
   * the run: order and repetition do not matter.
   */
  lemma {:induction false} FlagsMeaning(fmt: seq<char>, i: nat, acc: bv8, c: char)
    requires i <= |fmt| && IsFlag(c)
    ensures var r := ScanFlags(fmt, i, acc);
      Has(r.flags, FlagBit(c)) <==> Has(acc, FlagBit(c)) || c in fmt[i..r.next]
    decreases |fmt| - i
  {
    if IsFlag(At(fmt, i)) {
      var x := fmt[i];
      var r := ScanFlags(fmt, i + 1, acc | FlagBit(x));
      FlagsMeaning(fmt, i + 1, acc | FlagBit(x), c);
      FlagBitOr(acc, x, c);
      InSlice(fmt, i, r.next, c);
    }
  }

  /** No flag character sets the precision bit: only a '.' does. */
  lemma {:induction false} FlagsKeepPrecision(fmt: seq<char>, i: nat, acc: bv8)
    requires i <= |fmt|
    ensures Has(ScanFlags(fmt, i, acc).flags, FLAG_PRECISION) <==> Has(acc, FLAG_PRECISION)
    decreases |fmt| - i
  {
    if IsFlag(At(fmt, i)) {
      var x := fmt[i];
      FlagsKeepPrecision(fmt, i + 1, acc | FlagBit(x));
      assert Has(acc | FlagBit(x), FLAG_PRECISION) <==> Has(acc, FLAG_PRECISION);
    }
  }

  // ---------------------------------------------------------------- a directive with no fields

  /** A specifier right after the '%' gets no flags, width 0, no precision and the default size. */
  lemma PlainDirective(fmt: seq<char>, i: nat, args: seq<Arg>, ap: nat, plat: Platform)
    requires i <= |fmt|
    requires var c := At(fmt, i);
      !IsFlag(c) && !IsDigit(c) && c != '*' && c != '.'
      && c != 'l' && c != 'h' && c != 't' && c != 'j' && c != 'z'
    ensures ParseDirective(fmt, i, args, ap, plat)
      == Parsed(Directive(0, 0, 0, SizeDefault, At(fmt, i)), i + 1, ap)
  {
  }

  /** A '.' with neither digits nor '*' after it still marks a precision as given: precision 0. */
  lemma DotAlone(fmt: seq<char>, j: nat, flags: bv8, args: seq<Arg>, ap: nat)
    requires j < |fmt| && fmt[j] == '.' && !IsDigit(At(fmt, j + 1)) && At(fmt, j + 1) != '*'
    ensures ScanPrecision(fmt, j, flags, args, ap) == Field(flags | FLAG_PRECISION, 0, j + 1, ap)
  {
  }

  /** The size modifiers `l`, `ll`, `h` and `hh` select `long`, `long long`, `short` and `char`. */
  lemma SizeModifiers(args: seq<Arg>, ap: nat, plat: Platform)
    ensures ParseDirective("%ld", 1, args, ap, plat) == Parsed(Directive(0, 0, 0, SizeLong, 'd'), 3, ap)
    ensures ParseDirective("%lld", 1, args, ap, plat) == Parsed(Directive(0, 0, 0, SizeLongLong, 'd'), 4, ap)
    ensures ParseDirective("%hd", 1, args, ap, plat) == Parsed(Directive(0, 0, 0, SizeShort, 'd'), 3, ap)
    ensures ParseDirective("%hhd", 1, args, ap, plat) == Parsed(Directive(0, 0, 0, SizeChar, 'd'), 4, ap)
  {
    assert ScanFlags("%ld", 1, 0) == Scan(0, 1);
    assert ScanFlags("%lld", 1, 0) == Scan(0, 1);
    assert ScanFlags("%hd", 1, 0) == Scan(0, 1);
    assert ScanFlags("%hhd", 1, 0) == Scan(0, 1);
  }

  /**
   * The modifiers `t`, `j` and `z` select `long` when `ptrdiff_t`, `intmax_t` or `size_t` is as
   * wide as `long`, and `long long` otherwise.
   */
  lemma TypeSizeModifiers(args: seq<Arg>, ap: nat, plat: Platform)
    ensures ParseDirective("%td", 1, args, ap, plat)
      == Parsed(Directive(0, 0, 0, if plat.ptrdiffIsLong then SizeLong else SizeLongLong, 'd'), 3, ap)
    ensures ParseDirective("%jd", 1, args, ap, plat)
      == Parsed(Directive(0, 0, 0, if plat.intmaxIsLong then SizeLong else SizeLongLong, 'd'), 3, ap)
    ensures ParseDirective("%zd", 1, args, ap, plat)
      == Parsed(Directive(0, 0, 0, if plat.sizeIsLong then SizeLong else SizeLongLong, 'd'), 3, ap)
  {
    assert ScanFlags("%td", 1, 0) == Scan(0, 1);
    assert ScanFlags("%jd", 1, 0) == Scan(0, 1);
    assert ScanFlags("%zd", 1, 0) == Scan(0, 1);
  }

  /** A specifier without a handler emits the diagnostic naming it and consumes no argument. */
  lemma RunUnknown(env: Env, t: seq<Option<Handler>>, fmt: seq<char>, i: nat,
                   args: seq<Arg>, ap: nat, plat: Platform)
    requires TableOk(t) && i + 1 < |fmt| && fmt[i] == '%'
    requires var c := fmt[i + 1];
      c != '\0' && Lookup(t, c) == None
      && !IsFlag(c) && !IsDigit(c) && c != '*' && c != '.'
      && c != 'l' && c != 'h' && c != 't' && c != 'j' && c != 'z'
    ensures Run(env, t, fmt, i, args, ap, plat)
      == UnknownText(fmt[i + 1]) + Run(env, t, fmt, i + 2, args, ap, plat)
  {
    PlainDirective(fmt, i + 1, args, ap, plat);
  }

  /** With the built-in table, "a%yb" prints "a", the diagnostic for 'y', then "b". */
  lemma UnknownExample(env: Env, args: seq<Arg>, plat: Platform)
    ensures TableOk(Seed())
    ensures Run(env, Seed(), "a%yb", 0, args, 0, plat) == "a" + UnknownText('y') + "b"
  {
    SeedOk();
    var t, fmt := Seed(), "a%yb";
    assert Lookup(t, 'y') == None;
    RunUnknown(env, t, fmt, 1, args, 0, plat);
    RunLiteral(env, t, fmt, 3, args, 0, plat);
    assert fmt[3..] == "b";
  }

  /** A '%' right before a terminator: the terminator is the specifier, which has no handler. */
  lemma CutShortDirective(env: Env, t: seq<Option<Handler>>, f: seq<char>, i: nat, args: seq<Arg>, ap: nat,
                          plat: Platform)
    requires TableOk(t) && i < |f| && At(f, i + 1) == '\0'
    ensures var d := Directive(0, 0, 0, SizeDefault, '\0');
      ParseDirective(f, i + 1, args, ap, plat) == Parsed(d, i + 2, ap)
      && DispatchText(env, t, d, args, ap, plat) == Out(UnknownText('\0'), ap)
  {
    PlainDirective(f, i + 1, args, ap, plat);
    NoHandlerOutside(t, '\0');
  }

  /** A final '%' reads the terminator as its specifier: the diagnostic for byte 0, then the end. */
  lemma RunTrailingPercent(env: Env, t: seq<Option<Handler>>, fmt: seq<char>, args: seq<Arg>, ap: nat,
                           plat: Platform)
    requires TableOk(t) && |fmt| >= 1 && fmt[|fmt| - 1] == '%'
    ensures Run(env, t, fmt, |fmt| - 1, args, ap, plat) == UnknownText('\0')
  {
    CutShortDirective(env, t, fmt, |fmt| - 1, args, ap, plat);
  }

  // ---------------------------------------------------------------- reading past the terminator

  /**
   * The loop as written: after a final '%' it resumes one byte past the terminator, so whatever
   * lies there (`tail`) is formatted as well; the corrected scan stops at the diagnostic.
   */
  lemma TrailingPercentOverread(env: Env, t: seq<Option<Handler>>, fmt: seq<char>, tail: seq<char>,
                                args: seq<Arg>, ap: nat, plat: Platform)
    requires TableOk(t) && |fmt| >= 1 && fmt[|fmt| - 1] == '%'
    ensures var f := fmt + ['\0'] + tail;
      RunAsWritten(env, t, f, |fmt| - 1, args, ap, plat)
        == UnknownText('\0') + RunAsWritten(env, t, f, |fmt| + 1, args, ap, plat)
      && Run(env, t, f, |fmt| - 1, args, ap, plat) == UnknownText('\0')
  {
    var f := fmt + ['\0'] + tail;
    var i := |fmt| - 1;
    assert f[i] == '%' && At(f, i + 1) == '\0';
    CutShortDirective(env, t, f, i, args, ap, plat);
  }

  /** The smallest case: "%", its terminator, then "A": the loop as written prints the "A". */
  lemma OverreadExample(env: Env, t: seq<Option<Handler>>, args: seq<Arg>, plat: Platform)
    requires TableOk(t)
    ensures RunAsWritten(env, t, "%\0A", 0, args, 0, plat) == UnknownText('\0') + "A"
    ensures Run(env, t, "%\0A", 0, args, 0, plat) == UnknownText('\0')
  {
    TrailingPercentOverread(env, t, "%", "A", args, 0, plat);
    assert "%" + ['\0'] + "A" == "%\0A";
  }

  /** Where nothing follows the terminator, the corrected scan and the loop as written agree. */
  lemma {:induction false} RunMatchesAsWritten(env: Env, t: seq<Option<Handler>>, fmt: seq<char>, i: nat,
                                               args: seq<Arg>, ap: nat, plat: Platform)
    requires TableOk(t)
    requires forall k :: 0 <= k < |fmt| ==> fmt[k] != '\0'
    ensures Run(env, t, fmt, i, args, ap, plat) == RunAsWritten(env, t, fmt, i, args, ap, plat)
    decreases |fmt| + 1 - i
  {
    if i < |fmt| {
      if fmt[i] != '%' {
        RunMatchesAsWritten(env, t, fmt, i + 1, args, ap, plat);
      } else {
        var p := ParseDirective(fmt, i + 1, args, ap, plat);
        var o := DispatchText(env, t, p.d, args, p.ap, plat);
        if p.d.specifier == '\0' {
          assert p.next > |fmt|;
        } else {
          RunMatchesAsWritten(env, t, fmt, p.next, args, o.ap, plat);
        }
      }
    }
  }

  /** Two buffers that hold the same bytes up to a terminator at `n`. */
  ghost predicate Agree(f1: seq<char>, f2: seq<char>, n: nat)
  {
    n <= |f1| && n <= |f2| && At(f1, n) == '\0'
    && forall k :: 0 <= k <= n ==> At(f1, k) == At(f2, k)
  }

  lemma {:induction false} ScanFlagsAgree(f1: seq<char>, f2: seq<char>, n: nat, j: nat, acc: bv8)
    requires Agree(f1, f2, n) && j <= n
    ensures ScanFlags(f1, j, acc) == ScanFlags(f2, j, acc) && ScanFlags(f1, j, acc).next <= n
    decreases n - j
  {
    if IsFlag(At(f1, j)) {
      assert At(f2, j) == At(f1, j);
      ScanFlagsAgree(f1, f2, n, j + 1, acc | FlagBit(f1[j]));
    }
  }

  lemma {:induction false} DigitEndAgree(f1: seq<char>, f2: seq<char>, n: nat, j: nat)
    requires Agree(f1, f2, n) && j <= n
    ensures DigitEnd(f1, j) == DigitEnd(f2, j) <= n
    ensures f1[j..DigitEnd(f1, j)] == f2[j..DigitEnd(f2, j)]
    decreases n - j
  {
    if IsDigit(At(f1, j)) {
      assert At(f2, j) == At(f1, j);
      DigitEndAgree(f1, f2, n, j + 1);
    }
    var k := DigitEnd(f1, j);
    forall m | j <= m < k
      ensures f1[m] == f2[m]
    {
      assert At(f1, m) == At(f2, m);
    }
  }

  lemma WidthAgree(f1: seq<char>, f2: seq<char>, n: nat, j: nat, flags: bv8, args: seq<Arg>, ap: nat)
    requires Agree(f1, f2, n) && j <= n
    ensures ScanWidth(f1, j, flags, args, ap) == ScanWidth(f2, j, flags, args, ap)
    ensures ScanWidth(f1, j, flags, args, ap).next <= n
  {
    assert At(f1, j) == At(f2, j);
    DigitEndAgree(f1, f2, n, j);
  }

  lemma PrecisionAgree(f1: seq<char>, f2: seq<char>, n: nat, j: nat, flags: bv8, args: seq<Arg>, ap: nat)
    requires Agree(f1, f2, n) && j <= n
    ensures ScanPrecision(f1, j, flags, args, ap) == ScanPrecision(f2, j, flags, args, ap)
    ensures ScanPrecision(f1, j, flags, args, ap).next <= n
  {
    assert At(f1, j) == At(f2, j);
    if At(f1, j) == '.' {
      assert At(f1, j + 1) == At(f2, j + 1);
      DigitEndAgree(f1, f2, n, j + 1);
    }
  }

  lemma SizeAgree(f1: seq<char>, f2: seq<char>, n: nat, j: nat, plat: Platform)
    requires Agree(f1, f2, n) && j <= n
    ensures ScanSize(f1, j, plat) == ScanSize(f2, j, plat) && ScanSize(f1, j, plat).next <= n
  {
    assert At(f1, j) == At(f2, j);
    if At(f1, j) == 'l' || At(f1, j) == 'h' {
      assert At(f1, j + 1) == At(f2, j + 1);
    }
  }

  /** A directive read inside the agreeing bytes parses alike, and never reads past `n`. */
  lemma ParseAgree(f1: seq<char>, f2: seq<char>, n: nat, i: nat, args: seq<Arg>, ap: nat, plat: Platform)
    requires Agree(f1, f2, n) && i <= n
    ensures ParseDirective(f1, i, args, ap, plat) == ParseDirective(f2, i, args, ap, plat)
    ensures ParseDirective(f1, i, args, ap, plat).next <= n + 1
  {
    var f := ScanFlags(f1, i, 0);
    ScanFlagsAgree(f1, f2, n, i, 0);
    var w := ScanWidth(f1, f.next, f.flags, args, ap);
    WidthAgree(f1, f2, n, f.next, f.flags, args, ap);
    var pr := ScanPrecision(f1, w.next, w.flags, args, w.ap);
    PrecisionAgree(f1, f2, n, w.next, w.flags, args, w.ap);
    SizeAgree(f1, f2, n, pr.next, plat);
    assert At(f1, ScanSize(f1, pr.next, plat).next) == At(f2, ScanSize(f1, pr.next, plat).next);
  }

  lemma {:induction false} RunAgree(env: Env, t: seq<Option<Handler>>, f1: seq<char>, f2: seq<char>, n: nat,
                                    i: nat, args: seq<Arg>, ap: nat, plat: Platform)
    requires TableOk(t) && Agree(f1, f2, n) && i <= n
    ensures Run(env, t, f1, i, args, ap, plat) == Run(env, t, f2, i, args, ap, plat)
    decreases n - i
  {
    assert At(f1, i) == At(f2, i);
    if At(f1, i) != '\0' {
      if f1[i] != '%' {
        RunAgree(env, t, f1, f2, n, i + 1, args, ap, plat);
      } else {
        ParseAgree(f1, f2, n, i + 1, args, ap, plat);
        var p := ParseDirective(f1, i + 1, args, ap, plat);
        var o := DispatchText(env, t, p.d, args, p.ap, plat);
        if p.d.specifier != '\0' {
          assert p.next <= n;
          RunAgree(env, t, f1, f2, n, p.next, args, o.ap, plat);
        }
      }
    }
  }

  /** The output depends only on the format string up to its terminator. */
  lemma RunIgnoresTail(env: Env, t: seq<Option<Handler>>, fmt: seq<char>, args: seq<Arg>, plat: Platform)
    requires TableOk(t)
    ensures var n := CStrLen(fmt);
      Run(env, t, fmt, 0, args, 0, plat) == Run(env, t, fmt[..n], 0, args, 0, plat)
  {
    var n := CStrLen(fmt);
    assert Agree(fmt, fmt[..n], n);
    RunAgree(env, t, fmt, fmt[..n], n, 0, args, 0, plat);
  }

  // ---------------------------------------------------------------- dynamic width and precision

  /** The decimal digits of a positive value are a run of digits, not led by '0', reading back as it. */
  lemma DecimalRun(m: nat)
    requires m > 0
    ensures var s := DigitString(m, 10, false);
      |s| >= 1 && s[0] != '0' && ReadAcc(s, 10, 0) == m
      && forall k :: 0 <= k < |s| ==> IsDigit(s[k])
  {
    DigitsShape(m, 10, false);
    DigitsRoundTrip(m, 10, false);
    NumDigitsBounds(m, 10);
  }

  /** The digit run ends where the digits stop. */
  lemma {:induction false} DigitEndAt(fmt: seq<char>, i: nat, j: nat)
    requires i <= j <= |fmt| && !IsDigit(At(fmt, j))
    requires forall k :: i <= k < j ==> IsDigit(fmt[k])
    ensures DigitEnd(fmt, i) == j
    decreases j - i
  {
    if i < j {
      DigitEndAt(fmt, i + 1, j);
    }
  }

  /** How `%-<m>d` parses: left justification, width `m`, nothing else. */
  lemma LeftWidthParse(m: nat, args: seq<Arg>, plat: Platform)
    requires 0 < m < U32
    ensures var f := "%-" + DigitString(m, 10, false) + "d";
      ParseDirective(f, 1, args, 0, plat) == Parsed(Directive(FLAG_LEFT, m, 0, SizeDefault, 'd'), |f|, 0)
  {
    var s := DigitString(m, 10, false);
    DecimalRun(m);
    var f := "%-" + s + "d";
    var e := 2 + |s|;
    assert f[2..e] == s;
    assert At(f, 1) == '-' && At(f, 2) == s[0] && At(f, e) == 'd';
    assert ScanFlags(f, 2, FLAG_LEFT) == Scan(FLAG_LEFT, 2);
    assert ScanFlags(f, 1, 0) == Scan(FLAG_LEFT, 2);
    DigitEndAt(f, 2, e);
    assert AtoiValue(f[2..e]) == m;
    assert ScanWidth(f, 2, FLAG_LEFT, args, 0) == Field(FLAG_LEFT, m, e, 0);
    assert ScanPrecision(f, e, FLAG_LEFT, args, 0) == Field(FLAG_LEFT, 0, e, 0);
    assert ScanSize(f, e, plat) == SizeScan(SizeDefault, e);
  }

  /** How `%*d` parses when the width argument is `-m`: the same directive, one argument used. */
  lemma StarWidthParse(m: nat, v: int, plat: Platform)
    requires 0 < m <= 0x8000_0000
    ensures ParseDirective("%*d", 1, [IntArg(-(m as int)), IntArg(v)], 0, plat)
      == Parsed(Directive(FLAG_LEFT, m, 0, SizeDefault, 'd'), 3, 1)
  {
    Pow2Large();
    var f, args := "%*d", [IntArg(-(m as int)), IntArg(v)];
    assert ScanFlags(f, 1, 0) == Scan(0, 1);
    assert Signed(-(m as int), 32) == -(m as int);
    assert ScanWidth(f, 1, 0, args, 0) == Field(FLAG_LEFT, m, 2, 1);
  }

  /**
   * `%*d` with a negative width argument `-m` prints exactly what `%-<m>d` prints with the
   * remaining arguments: left justification in a field `m` wide.
   */
  lemma StarNegativeWidth(env: Env, t: seq<Option<Handler>>, m: nat, v: int, plat: Platform)
    requires TableOk(t) && Lookup(t, 'd') == Some(Sint)
    requires 0 < m <= 0x8000_0000
    ensures Run(env, t, "%*d", 0, [IntArg(-(m as int)), IntArg(v)], 0, plat)
      == Run(env, t, "%-" + DigitString(m, 10, false) + "d", 0, [IntArg(v)], 0, plat)
  {
    LeftWidthParse(m, [IntArg(v)], plat);
    StarWidthParse(m, v, plat);
  }

  /** How `%.0d` parses: a given precision of 0, nothing else. */
  lemma ZeroPrecisionParse(args: seq<Arg>, plat: Platform)
    ensures ParseDirective("%.0d", 1, args, 0, plat)
      == Parsed(Directive(FLAG_PRECISION, 0, 0, SizeDefault, 'd'), 4, 0)
  {
    var f := "%.0d";
    assert ScanFlags(f, 1, 0) == Scan(0, 1);
    assert ScanWidth(f, 1, 0, args, 0) == Field(0, 0, 1, 0);
    DigitEndAt(f, 2, 3);
    assert f[2..3] == "0" && ReadAcc("0", 10, 0) == 0;
    assert ScanPrecision(f, 1, 0, args, 0) == Field(FLAG_PRECISION, 0, 3, 0);
  }

  /** How `%.*d` parses when the precision argument is not positive: the same, one argument used. */
  lemma StarPrecisionParse(p: int, v: int, plat: Platform)
    requires -0x8000_0000 <= p <= 0
    ensures ParseDirective("%.*d", 1, [IntArg(p), IntArg(v)], 0, plat)
      == Parsed(Directive(FLAG_PRECISION, 0, 0, SizeDefault, 'd'), 4, 1)
  {
    Pow2Large();
    var f, args := "%.*d", [IntArg(p), IntArg(v)];
    assert ScanFlags(f, 1, 0) == Scan(0, 1);
    assert ScanWidth(f, 1, 0, args, 0) == Field(0, 0, 1, 0);
    assert Signed(p, 32) == p;
    assert ScanPrecision(f, 1, 0, args, 0) == Field(FLAG_PRECISION, 0, 3, 1);
  }

  /** `%.*d` with a negative precision argument prints what `%.0d` prints: a given precision of 0. */
  lemma StarNegativePrecision(env: Env, t: seq<Option<Handler>>, p: int, v: int, plat: Platform)
    requires TableOk(t) && Lookup(t, 'd') == Some(Sint)
    requires -0x8000_0000 <= p <= 0
    ensures Run(env, t, "%.*d", 0, [IntArg(p), IntArg(v)], 0, plat)
      == Run(env, t, "%.0d", 0, [IntArg(v)], 0, plat)
  {
    ZeroPrecisionParse([IntArg(v)], plat);
    StarPrecisionParse(p, v, plat);
  }

  // ---------------------------------------------------------------- installed handlers

  /**
   * After `fmt_install(c, fn)` on an installable `c`, a directive with specifier `c` runs the
   * caller's handler, or, when `fn` is null, produces the unknown-specifier diagnostic.
   */
  lemma InstallThenDispatch(env: Env, t: seq<Option<Handler>>, c: char, fn: Option<nat>, d: Directive,
                            args: seq<Arg>, ap: nat, plat: Platform)
    requires TableOk(t) && (c as int) < 256 && Installable(c) && d.specifier == c
    ensures TableOk(InstallTable(t, c, fn))
    ensures DispatchText(env, InstallTable(t, c, fn), d, args, ap, plat)
      == if fn.Some? then Out(env.user(fn.value, d, args, ap).text, env.user(fn.value, d, args, ap).ap)
         else Out(UnknownText(c), ap)
  {
    InstallKeepsOk(t, c, fn);
    InstallLookup(t, c, fn, c);
  }
}
