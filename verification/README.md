# pico_fmt printf core, modelled in Dafny

This project models the integer and character core of pico_fmt's `printf` engine
(`pico_fmt/printf.c`), leaving out the floating-point converters. The model has these parts:

- **Output sink** (`sink.dfy`). `struct _fmt_ctx` is the class `Sink.Context`. It holds the
  shared counter `idx`, whether a callback is set, and `delivered`, what the callback has
  received. A ghost `emitted` holds everything written since the outermost call began.
- **Per-directive state** (`sink.dfy`). `struct fmt_state` is the class `Sink.State`. It holds
  the flags, width, precision, size and specifier of one directive, the argument list and its
  cursor.
- **Sink operations** (`sink.dfy`). `fmt_state_putchar`, `fmt_state_puts` and `fmt_state_len`
  are methods and functions on `State`.
- **Helpers** (`helpers.dfy`). `_strnlen_s`, `_atoi`, `_out_rev` and `_put_quoted_byte` are
  imperative methods. Each is proved against a function that states its text.
- **Integer converter** (`intconv.dfy`). `_ntoa_intro`, the digit loops of `_ntoa` and
  `_ntoa_outro` are methods. They are proved to emit `IntConv.NtoaText`, whose layout is
  pinned down by the lemmas of `IntConvProps`.
- **Digit lemmas** (`digits.dfy`). These state what `NtoaText` contains: the digit count, the
  digit alphabet, and the round trip from digits back to the magnitude.
- **Converters** (`handlers.dfy`). `conv_sint`, `conv_uint`, `conv_char`, `conv_str`,
  `conv_ptr` and `conv_pct` are methods. Each is proved against a text function.
- **Specifier registry** (`registry.dfy`). `specifier_table` is the class `Registry.Table`
  over an `array` of 0x7F optional handlers. `fmt_install` writes it in place.
- **Driver** (`driver.dfy`). `_vfctprintf` is the loop method `Driver.Vfctprintf`. It is
  proved to emit exactly `Driver.Run`, a recursive definition of one whole call. The parsing
  steps are methods proved against the functions `ScanFlags`, `ScanWidth`, `ScanPrecision`,
  `ScanSize` and `ParseDirective`.
- **Driver properties** (`driverprops.dfy`). These cover literal text, flag parsing, `*`
  and `.*` arguments, size modifiers, unknown specifiers, the terminator and installed
  handlers.

Integer widths are written out explicitly:

- `int` is 32 bits and `long long` is 64 bits.
- The width of `long`, the signedness of plain `char`, the pointer size and the types behind
  `t`, `j` and `z` come from a `Sink.Platform` value.
- Every C conversion is explicit. `Prelude.Unsigned` reduces modulo 2^bits; `Prelude.Signed`
  reads the low bits as two's complement.
- These wrap-arounds are kept:
  - `_atoi` reduces modulo 2^32.
  - The start of the leading-space loop, `max(precision, ndigits) + nextra`, wraps at 2^32.
  - `conv_str`'s `unsigned int l` wraps at 2^32.
  - `(size_t) -1` is the maximum when `%s` has no precision.
  - The return value of `fmt_vfctprintf` is cast to `int`.

Where the code and pico_fmt's own descriptions differ, the model follows the code:

- **`'%'` can be replaced.** `fmt_install` accepts `'%'` like any other printable byte
  (printf.c:648-654).
- **Raw nibble bytes.** For a non-printable byte, `_put_quoted_byte` writes `\`, `x` and then
  the two nibble values themselves, bytes 0 to 15 (printf.c:605-606). It does not write hex
  digit characters. `Helpers.QuotedByte` does the same.
- **Zero with a width.** A zero value with a width, no precision and no flags prints the
  width's worth of spaces and then its lone `'0'`, one character more than the width
  (printf.c:210-256). `IntConvProps.NtoaZeroWidthQuirk` states this no-flags case only.

## Model

| member | source | states |
|---|---|---|
| Sink.Context.constructor | pico_fmt/printf.c:786-790 | a fresh context has emitted nothing, counted nothing and delivered nothing |
| Sink.State.constructor | pico_fmt/printf.c:657-661 | a directive state starts zeroed (size 0 is `FMT_SIZE_CHAR`) on the caller's arguments, cursor at the first |
| Sink.State.PutChar | pico_fmt/printf.c:101-106 | one character is appended to the output; with `Valid` the counter goes up by exactly one and the character reaches the callback iff one is set |
| Sink.State.Puts | pico_fmt/printf.c:108-111 | exactly the characters before the string's first NUL are emitted, in order |
| Sink.State.Len | pico_fmt/printf.c:113-115 | the length is the number of characters emitted since the outermost call began |
| Sink.State.NextArg | pico_fmt/printf.c:824 | `va_arg` yields the argument at the cursor (0 or "" when absent or of another kind) and advances the cursor by one |
| Helpers.StrnlenS | pico_fmt/printf.c:122-127 | the result is the string's length up to its terminator, capped at `maxsize` |
| Helpers.DigitEnd | pico_fmt/printf.c:146-152 | the digit run starting at `i` ends at the first non-digit, and every byte before it is a digit |
| Helpers.Atoi | pico_fmt/printf.c:146-152 | the value is the digit run read in decimal, reduced modulo 2^32, and the cursor ends just past the run |
| Helpers.PadTo | pico_fmt/printf.c:213-215 | a padding loop from `from` up to `want` emits exactly `max(0, want - from)` copies of the fill character |
| Helpers.OutRevLayout | pico_fmt/printf.c:157-178 | `_out_rev` prints the buffer reversed, padded with spaces to the width before it (or after it under '-'); under '0' without '-' it adds no padding |
| Helpers.OutRev | pico_fmt/printf.c:157-178 | the method emits exactly the reversed, padded text `OutRevLayout` describes |
| Helpers.QuotedByteRoundTrip | pico_fmt/printf.c:596-609 | the quoted form of every byte decodes back to that byte; it is 3 characters for a plain printable byte, 4 for `'` and `\`, and 6 for a non-printable byte |
| Helpers.PutQuotedByte | pico_fmt/printf.c:596-609 | the method emits exactly the quoted form of the byte |
| Digits.DigitChar | pico_fmt/printf.c:294-297 | digit `d` is written as '0'-'9' below ten, and above nine as a letter whose case follows the specifier; the letter reads back as `d` |
| Digits.NumDigitsBounds | pico_fmt/printf.c:277-283 | a nonzero magnitude has `n` digits exactly when `b^(n-1) <= v < b^n` |
| Digits.NumDigitsUnique | pico_fmt/printf.c:277-283 | the digit count is the only `n` with `b^(n-1) <= v < b^n` |
| Digits.EmitDigitsRoundTrip | pico_fmt/printf.c:289-299 | the `k` digits emitted most significant first, read back in base `b`, give the value |
| Digits.DigitsRoundTrip | pico_fmt/printf.c:289-299 | a magnitude's digit string, read back in its base, is the magnitude |
| Digits.DigitsShape | pico_fmt/printf.c:289-299 | the digit string has `ndigits` characters, all digits of the base in the requested case, and it does not start with '0' for a nonzero value |
| IntConv.CountDigits | pico_fmt/printf.c:270-283 | the counting loop yields the number of base-`b` digits of the magnitude, with `div = b^(ndigits-1)` |
| IntConv.IntroFlagsKeep | pico_fmt/printf.c:206-208 | a given precision clears the '0' flag and no other flag |
| IntConv.PutLeadSpaces | pico_fmt/printf.c:210-215 | exactly the leading spaces up to the width are emitted, counted from `max(precision, ndigits) + nextra` with 32-bit wrap-around; none under '-' or '0' or with no width |
| IntConv.PutPrefix | pico_fmt/printf.c:217-243 | exactly the sign or base prefix is emitted |
| IntConv.PutLeadingZeros | pico_fmt/printf.c:245-257 | exactly the leading zeros are emitted: up to the precision, else up to the width under '0', else one '0' for a zero value |
| IntConv.NtoaIntro | pico_fmt/printf.c:183-258 | the intro emits spaces, prefix and zeros in that order and leaves the flags as the precision rule adjusts them |
| IntConv.NtoaOutro | pico_fmt/printf.c:260-264 | trailing spaces are added only up to the width, counted from what this conversion has already emitted |
| IntConv.DigitLoopStep | pico_fmt/printf.c:289-299 | one step of the digit loop emits the next most significant digit and keeps the loop invariant |
| IntConv.PutDigit | pico_fmt/printf.c:290-298 | the loop body emits one digit below the base and keeps the loop invariant |
| IntConv.PutDigits | pico_fmt/printf.c:289-299 | the loop emits the magnitude's digits most significant first, in the specifier's case |
| IntConv.Ntoa | pico_fmt/printf.c:266-303 | `_ntoa` emits exactly `NtoaText` (intro, digits, trailing spaces) and leaves the flags as `_ntoa_intro` adjusted them |
| IntConvProps.PrefixLength | pico_fmt/printf.c:183-243 | the prefix emitted is exactly as long as the `nextra` that padding counts |
| IntConvProps.NtoaPieces | pico_fmt/printf.c:266-303 | the digits sit right after the intro, and read back in the base they give the magnitude |
| IntConvProps.NtoaWidth | pico_fmt/printf.c:260-264 | the whole text is `max(width, length of intro and digits)` long, so it is never shorter than the width |
| IntConvProps.NtoaLeftAligned | pico_fmt/printf.c:210-264 | under '-', the text is prefix, zeros, digits, then all of its padding as trailing spaces |
| IntConvProps.NtoaRightAligned | pico_fmt/printf.c:210-264 | without '-', and when `max(precision, ndigits) + 2` does not wrap, the text is the intro and digits with no trailing spaces, and it already covers the width |
| IntConvProps.IntroLength | pico_fmt/printf.c:183-258 | the intro's length is leading spaces plus prefix length plus zeros |
| IntConvProps.IntroCoversWidth | pico_fmt/printf.c:210-257 | without '-', when `max(precision, ndigits) + 2` does not wrap, the intro and digits reach at least the width |
| IntConvProps.NtoaZeroPadded | pico_fmt/printf.c:245-257 | under '0' with a width, no '-' and no precision, the text is prefix, zeros up to the width, digits, and exactly `max(width, nextra + ndigits)` long |
| IntConvProps.NtoaZeroPadNoSpace | pico_fmt/printf.c:210-257 | under '0' padding, a space appears in the text iff it is the decimal ' ' sign of a non-negative value |
| IntConvProps.PrefixSpace | pico_fmt/printf.c:229-236 | the prefix holds a space iff the base is 10, the value is not negative, '+' is off and ' ' is on |
| IntConvProps.NtoaMinus | pico_fmt/printf.c:229-236 | a decimal text holds '-' iff the value is negative and nonzero |
| IntConvProps.NtoaUnsignedNoMinus | pico_fmt/printf.c:866-890 | a conversion of a value passed as non-negative never holds '-' |
| IntConvProps.NtoaPlus | pico_fmt/printf.c:229-236 | a decimal text holds '+' iff '+' is set and the value is not negative and nonzero |
| IntConvProps.NtoaHexPrefix | pico_fmt/printf.c:237-242 | a hex text holds the specifier letter ('x' or 'X') iff '#' is set and the value is nonzero |
| IntConvProps.NtoaBinaryPrefix | pico_fmt/printf.c:219-224 | a binary text holds 'b' iff '#' is set and the value is nonzero |
| IntConvProps.NtoaZeroPrecisionZero | pico_fmt/printf.c:245-257 | a zero value with precision 0 prints no '0' at all |
| IntConvProps.NtoaZeroWidthQuirk | pico_fmt/printf.c:210-256 | a zero value with width `w` and no flags prints `w` spaces and then '0', `w + 1` characters |
| IntConvProps.NtoaPrecisionField | pico_fmt/printf.c:245-248 | under '.', exactly `max(0, precision - ndigits)` zeros come right after the prefix, the zero-and-digit field is `max(precision, ndigits)` wide, and it reads back as the magnitude |
| IntConvProps.NtoaOctalPrefix | pico_fmt/printf.c:225-228 | the octal prefix is one '0', present iff '#' is set and the value is nonzero, so prefix, zeros and digits still read back in base 8 as the magnitude |
| IntConvProps.PrecisionIgnoresZeroPad | pico_fmt/printf.c:206-208 | with a precision given, setting or clearing '0' prints the same text |
| Handlers.SintRange | pico_fmt/printf.c:805-843 | the value `conv_sint` reads lies in the range of the C type its size names |
| Handlers.MagnitudeExact | pico_fmt/printf.c:812-839 | `(unsigned) (value > 0 ? value : 0 - value)` is the absolute value for every value of the signed width; at the most negative value, where C's signed negation overflows, the model's wrapped result is that absolute value too |
| Handlers.SintExact | pico_fmt/printf.c:805-843 | `%d` prints the absolute value of the narrowed argument, and its text holds '-' iff that value is negative |
| Handlers.SintDefaultIsArgument | pico_fmt/printf.c:823-827 | with no size modifier an `int` argument is printed unchanged |
| Handlers.ConvSint | pico_fmt/printf.c:805-843 | `conv_sint` consumes one argument and emits exactly `SintText` |
| Handlers.UintBase | pico_fmt/printf.c:846-864 | the base is 16 iff the specifier is 'x' or 'X', 8 iff 'o', 2 iff 'b' and 10 iff 'u' |
| Handlers.UintRange | pico_fmt/printf.c:866-890 | the value `conv_uint` reads lies in the range of the unsigned type its size names |
| Handlers.UintUnsigned | pico_fmt/printf.c:858-860 | an unsigned conversion never prints '-', and `%u` never prints '+' |
| Handlers.UintWraps | pico_fmt/printf.c:877-879 | a negative `int` printed with `%u` (and so with `%x`, `%o` and `%b`) is read modulo 2^32 |
| Handlers.ConvUint | pico_fmt/printf.c:845-891 | `conv_uint` consumes one argument, clears '+' and ' ' for `%u`, and emits exactly `UintText` |
| Handlers.CharLayout | pico_fmt/printf.c:921-937 | `%c` prints `max(width, 1)` characters: the character first under '-', else last, with spaces everywhere else |
| Handlers.ConvChar | pico_fmt/printf.c:921-937 | `conv_char` consumes one argument and emits exactly `CharText` |
| Handlers.StrLayout | pico_fmt/printf.c:939-961 | `%s` shows the string up to its terminator, capped by a given precision, and pads it with spaces to the width: before it, or after it under '-' |
| Handlers.StrPadFromShown | pico_fmt/printf.c:941-945 | the length the padding counts from equals the number of characters shown |
| Handlers.StrLead | pico_fmt/printf.c:946-950 | the pre-padding loop emits spaces up to the width unless '-' is set |
| Handlers.StrBody | pico_fmt/printf.c:952-954 | the output loop emits the shown characters and leaves `precision` as its decrements left it |
| Handlers.StrPadLength | pico_fmt/printf.c:941-945 | `l` is the `_strnlen_s` length capped by a given precision |
| Handlers.ConvStr | pico_fmt/printf.c:939-961 | `conv_str` consumes one argument and emits exactly `StrText` |
| Handlers.PtrDigitsFit | pico_fmt/printf.c:963-981 | a pointer value needs at most two hex digits per byte of pointer |
| Handlers.PtrRightHex | pico_fmt/printf.c:963-981 | without '-', '#' or a precision, `%p` prints exactly two characters per pointer byte, all upper-case hex digits |
| Handlers.PtrLeftLength | pico_fmt/printf.c:963-981 | under '-', `%p` still prints exactly two characters per pointer byte |
| Handlers.PtrFixedWidth | pico_fmt/printf.c:963-981 | without '#' or a precision, `%p` is exactly twice the pointer size long, and all hex digits unless '-' is set |
| Handlers.PtrSetup | pico_fmt/printf.c:964-966 | the width becomes twice the pointer size, '0' is set and the specifier becomes 'X' |
| Handlers.ConvPtr | pico_fmt/printf.c:963-981 | `conv_ptr` consumes one argument and emits exactly `PtrText` |
| Handlers.ConvPct | pico_fmt/printf.c:983-985 | `conv_pct` emits exactly one '%' |
| Registry.Seed | pico_fmt/printf.c:621-646 | the table has 0x7F slots |
| Registry.SeedLookup | pico_fmt/printf.c:621-646 | the initial table has a handler exactly for `d i u x X o b f F e E g G c s p %`, the signed converter exactly at `d i` and the unsigned one exactly at `u x X o b` |
| Registry.SeedInstallable | pico_fmt/printf.c:621-654 | every built-in sits at a byte `fmt_install` accepts, so each can be replaced |
| Registry.SeedOk | pico_fmt/printf.c:621-646 | the initial table is well formed |
| Registry.InstallKeepsOk | pico_fmt/printf.c:648-654 | installing keeps the table well formed |
| Registry.InstallLookup | pico_fmt/printf.c:648-654 | installing at `c` changes the handler found for `c` only, and only when `c` is accepted; every other lookup is unchanged |
| Registry.InstallTakesEffect | pico_fmt/printf.c:648-654 | an installed handler is the one found for `c` iff `c` is printable, not a space and not a digit |
| Registry.NoHandlerOutside | pico_fmt/printf.c:648-654 | digits, space, control bytes and bytes past '~' never have a handler, whatever was installed |
| Registry.UintOnlyAtSeed | pico_fmt/printf.c:862-863 | the unsigned converter only ever runs for `u x X o b`, so its unreachable default cannot be reached |
| Registry.Table.constructor | pico_fmt/printf.c:621-646 | the table starts as the seeded built-ins |
| Registry.Table.Install | pico_fmt/printf.c:648-654 | `fmt_install` changes the array to `InstallTable` of its old contents and keeps it well formed |
| Registry.Table.Get | pico_fmt/printf.c:774-775 | the lookup yields the slot for the specifier, or none past the table's end |
| Driver.ScanFlags | pico_fmt/printf.c:675-703 | the flag run ends at the first non-flag byte and consists of flag bytes only |
| Driver.ScanWidth | pico_fmt/printf.c:705-718 | the width parse ends within the format and yields a 32-bit width |
| Driver.ScanPrecision | pico_fmt/printf.c:720-732 | the precision parse ends within the format and yields a 32-bit precision |
| Driver.ScanSize | pico_fmt/printf.c:734-769 | the size parse consumes at most two bytes, and it consumes any iff the size is not the default |
| Driver.ParseDirective | pico_fmt/printf.c:675-773 | a directive parse consumes at least the specifier, whose byte is the one just before where scanning resumes |
| Driver.ParseFlags | pico_fmt/printf.c:675-703 | the flag loop sets exactly the flags of `ScanFlags` and stops where it does |
| Driver.ParseWidth | pico_fmt/printf.c:705-718 | the width code sets width, flags and cursor as `ScanWidth` does |
| Driver.ParsePrecision | pico_fmt/printf.c:720-732 | the precision code sets precision, flags and cursor as `ScanPrecision` does |
| Driver.ParseSize | pico_fmt/printf.c:734-769 | the size switch sets the size `ScanSize` yields |
| Driver.ParseInto | pico_fmt/printf.c:675-773 | the parsing code fills the state with exactly the directive `ParseDirective` yields |
| Driver.PutUnknown | pico_fmt/printf.c:777-781 | the diagnostic is exactly `%!(unknown specifier=` + the quoted byte + `)` |
| Driver.Dispatch | pico_fmt/printf.c:771-781 | a directive emits its handler's text (or the diagnostic when the slot is empty) and moves the cursor as that handler does |
| Driver.DirectiveStep | pico_fmt/printf.c:675-781 | one directive parses, emits its handler's text or the diagnostic, and reports where scanning resumes and whether its specifier was the terminator |
| Driver.Vfctprintf | pico_fmt/printf.c:656-783 | `_vfctprintf` emits exactly `Run` of the whole format |
| Driver.FmtVfctprintf | pico_fmt/printf.c:785-796 | the call returns the count of emitted characters cast to `int`, and the callback receives exactly them, or nothing when there is none |
| Driver.StateVprintf | pico_fmt/printf.c:798-803 | a nested call appends its output to the shared context, so the length counts from the outermost call |
| DriverProps.RunLiteral | pico_fmt/printf.c:665-669 | bytes other than '%' and NUL are copied one for one |
| DriverProps.FlagsMeaning | pico_fmt/printf.c:675-703 | a flag bit is set iff its flag byte occurs in the run, so repeating a flag changes nothing |
| DriverProps.FlagsKeepPrecision | pico_fmt/printf.c:675-703 | the flag run never sets the precision bit |
| DriverProps.PlainDirective | pico_fmt/printf.c:675-773 | a directive with no flags, width, precision or size parses as flags 0, width 0, precision 0 and the default size |
| DriverProps.DotAlone | pico_fmt/printf.c:720-732 | a '.' with no digits and no '*' sets the precision flag with precision 0 |
| DriverProps.SizeModifiers | pico_fmt/printf.c:734-752 | `l`, `ll`, `h` and `hh` select long, long long, short and char |
| DriverProps.TypeSizeModifiers | pico_fmt/printf.c:753-766 | `t`, `j` and `z` select long when `ptrdiff_t`, `intmax_t` or `size_t` is as wide as long, and long long otherwise |
| DriverProps.RunUnknown | pico_fmt/printf.c:771-781 | a specifier without a handler emits its diagnostic, and scanning resumes at the next byte |
| DriverProps.UnknownExample | pico_fmt/printf.c:771-781 | "a%yb" prints "a", the diagnostic for 'y', then "b" |
| DriverProps.CutShortDirective | pico_fmt/printf.c:771-781 | a '%' right before the terminator parses with specifier NUL and prints the diagnostic for NUL |
| DriverProps.RunTrailingPercent | pico_fmt/printf.c:771-781 | with the corrected loop, a final '%' prints the NUL diagnostic and the call ends |
| DriverProps.TrailingPercentOverread | pico_fmt/printf.c:772-773 | as written, a final '%' makes the loop resume past the terminator and print whatever follows it |
| DriverProps.OverreadExample | pico_fmt/printf.c:772-773 | as written, the bytes "%\0A" print the NUL diagnostic and then "A"; corrected, only the diagnostic |
| DriverProps.RunMatchesAsWritten | pico_fmt/printf.c:663-783 | for a format with no NUL inside it, the corrected and the as-written loops print the same |
| DriverProps.RunIgnoresTail | pico_fmt/printf.c:663-783 | the corrected loop's output depends only on the bytes before the first NUL |
| DriverProps.LeftWidthParse | pico_fmt/printf.c:705-708 | `%-<m>d` parses as '-' with width `m` |
| DriverProps.StarWidthParse | pico_fmt/printf.c:709-717 | `%*d` with argument `-m` sets '-' and width `m`, taking one argument |
| DriverProps.StarNegativeWidth | pico_fmt/printf.c:709-717 | `%*d` with a negative width argument prints exactly as `%-<m>d` does |
| DriverProps.ZeroPrecisionParse | pico_fmt/printf.c:720-726 | `%.0d` parses with the precision flag and precision 0 |
| DriverProps.StarPrecisionParse | pico_fmt/printf.c:727-731 | `%.*d` with an argument at most 0 parses with the precision flag and precision 0 |
| DriverProps.StarNegativePrecision | pico_fmt/printf.c:727-731 | `%.*d` with a negative or zero precision argument prints exactly as `%.0d` does |
| DriverProps.InstallThenDispatch | pico_fmt/printf.c:771-781 | after `fmt_install(c, fn)` with an accepted `c`, a directive whose specifier is `c` runs `fn`, or prints the diagnostic when `fn` is null |

## Left out

- Floating point: `_float_special`, `_ftoa`, `_etoa` and `conv_double`, including the
  `PICO_PRINTF_MAX_FLOAT` check (printf.c:325-592, 893-919), are not modelled. A `%f %F %e %E
  %g %G` directive emits `Env.floatText` of the directive and the argument's bit pattern.
  `_out_rev` is kept as a helper on its own.
- Variadic arguments: `va_list`, `va_arg` and `va_copy` become a `seq<Arg>` and a cursor. An
  argument that is missing or of another kind reads as 0 or as the empty string, where C has
  undefined behaviour.
- Callback: the callback and its `arg` are replaced by the sequence `delivered`. Nothing
  external is called.
- User handlers: an installed handler is opaque. `Env.user` gives, by its identity, the text
  it emits and where it leaves the argument cursor. Its own use of the state is not modelled.
- Build toggles: the compile-time toggles (printf.c:48-86) take their defaults. Long long and
  `ptrdiff_t` support are on. Float support is represented by `Env`.
- Wrappers: the `printf`/`snprintf`/`fctprintf` wrappers declared in `fmt_printf.h` have no
  body in this code and are not modelled.
- Concurrency: the unsynchronised global table and the reentrancy claims are not modelled.
- Character values: a format or argument byte is a Dafny `char`. The cast
  `(unsigned int) state->specifier` of a negative plain `char` is therefore not represented.
  Such bytes are treated as lying past the table, which is what that cast yields.
- Handlers.MagnitudeExact / Driver.ScanWidth: C negates `value` (printf.c:812, 820, 825) and
  a `*` width `w` (printf.c:713) in the signed type, which overflows at the most negative value
  (undefined behaviour). The model takes the two's-complement result, so such a value prints
  as its absolute value 2^(bits-1).
- Driver.Vfctprintf: it stops after a directive cut short by the terminator. The code as
  written goes on reading past it; see Findings.
- Driver.StateVprintf: a nested call is shown only appending to the shared context. The
  handler that would make it is not modelled.

## Findings

| source | as written | input that shows it | evidently intended | confidence | as-written member | corrected member |
|---|---|---|---|---|---|---|
| pico_fmt/printf.c:772-773 | the specifier is read and `format++` runs even when the specifier byte is the terminator. The next `while (*format)` then reads beyond the end of the string | a format ending in '%' (or in a cut-short directive such as "%5" or "%l"), e.g. the bytes "%\0A": the NUL diagnostic is printed, then "A" from past the terminator | stop at the terminator after printing the diagnostic, so that nothing past the string is read | not executed | DriverProps.TrailingPercentOverread | DriverProps.RunIgnoresTail |
