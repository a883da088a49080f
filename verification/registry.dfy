/**
 * The specifier registry of pico_fmt/printf.c: `specifier_table`, a 0x7F-slot array of
 * handlers indexed by the specifier byte, seeded with the built-in conversions, and
 * `fmt_install`, which lets a caller replace (or clear) the handler of a printable,
 * non-digit byte.
 */
module Registry {
  import opened Prelude
  import opened Handlers

  /** What a slot can hold: one of the built-in converters, or a caller's handler by identity. */
  datatype Handler = Sint | Uint | Double | Char | Str | Ptr | Pct | User(id: nat)

  /** `array_len(specifier_table)`. */
  const TABLE_LEN: nat := 0x7F

  /** Slot `c` of the table as the source initialises it. */
  function SeedEntry(c: int): Option<Handler>
  {
    if c == 'd' as int || c == 'i' as int then Some(Sint)
    else if c == 'u' as int || c == 'x' as int || c == 'X' as int || c == 'o' as int || c == 'b' as int then Some(Uint)
    else if c == 'f' as int || c == 'F' as int || c == 'e' as int || c == 'E' as int || c == 'g' as int || c == 'G' as int then Some(Double)
    else if c == 'c' as int then Some(Char)
    else if c == 's' as int then Some(Str)
    else if c == 'p' as int then Some(Ptr)
    else if c == '%' as int then Some(Pct)
    else None
  }

  /** The whole initial table. */
  function Seed(): (t: seq<Option<Handler>>)
    ensures |t| == TABLE_LEN
  {
    seq(TABLE_LEN, i => SeedEntry(i))
  }

  /** `(unsigned char) character`. */
  function ByteOf(c: char): nat
  {
    (c as int) % 256
  }

  /** The slots `fmt_install` accepts: inside the table, printable, not space, not a digit. */
  predicate InstallableCode(idx: nat)
  {
    idx < TABLE_LEN && ' ' as int < idx <= '~' as int && !('0' as int <= idx <= '9' as int)
  }

  predicate Installable(c: char)
  {
    InstallableCode(ByteOf(c))
  }

  /** The entry a `fmt_specifier_t` argument makes: a null pointer empties the slot. */
  function EntryOf(fn: Option<nat>): Option<Handler>
  {
    if fn.Some? then Some(User(fn.value)) else None
  }

  /** The table after `fmt_install(c, fn)`. */
  function InstallTable(t: seq<Option<Handler>>, c: char, fn: Option<nat>): seq<Option<Handler>>
    requires |t| == TABLE_LEN
  {
    if Installable(c) then t[ByteOf(c) := EntryOf(fn)] else t
  }

  /** The driver's lookup of specifier `c`: none past the table's end. */
  function Lookup(t: seq<Option<Handler>>, c: char): Option<Handler>
    requires |t| == TABLE_LEN
  {
    if (c as int) < TABLE_LEN then t[c as int] else None
  }

  /**
   * Every slot is empty, holds a caller's handler at an installable byte, or still holds the
   * built-in it was seeded with.
   */
  predicate TableOk(t: seq<Option<Handler>>)
  {
    |t| == TABLE_LEN &&
    forall i :: 0 <= i < TABLE_LEN ==>
      t[i] == None || t[i] == SeedEntry(i) || (t[i].Some? && t[i].value.User? && InstallableCode(i))
  }

  /** The seeded table holds a handler exactly for `d i u x X o b f F e E g G c s p %`. */
  lemma SeedLookup(c: char)
    ensures Lookup(Seed(), c).Some? <==> c in "diuxXobfFeEgGcsp%"
    ensures Lookup(Seed(), c) == Some(Sint) <==> c in "di"
    ensures Lookup(Seed(), c) == Some(Uint) <==> c in "uxXob"
  {
  }

  /** The built-ins all sit at installable bytes: each of them can be replaced. */
  lemma SeedInstallable(i: nat)
    requires SeedEntry(i).Some?
    ensures InstallableCode(i)
  {
  }

  /** The seeded table is well formed. */
  lemma SeedOk()
    ensures TableOk(Seed())
  {
  }

  /** `fmt_install` keeps a table well formed. */
  lemma InstallKeepsOk(t: seq<Option<Handler>>, c: char, fn: Option<nat>)
    requires TableOk(t)
    ensures TableOk(InstallTable(t, c, fn))
  {
  }

  /**
   * `fmt_install(c, fn)` changes the handler of exactly one specifier, `c`, and only when `c`
   * is installable; every other specifier keeps its handler.
   */
  lemma InstallLookup(t: seq<Option<Handler>>, c: char, fn: Option<nat>, e: char)
    requires TableOk(t) && (c as int) < 256
    ensures Lookup(InstallTable(t, c, fn), e)
      == if e == c && Installable(c) then EntryOf(fn) else Lookup(t, e)
  {
    if Installable(c) && (e as int) < TABLE_LEN && e != c {
      assert ByteOf(c) == c as int;
    }
  }

  /** A caller's handler takes effect at `c` exactly when `c` is installable. */
  lemma InstallTakesEffect(t: seq<Option<Handler>>, c: char, id: nat)
    requires TableOk(t) && (c as int) < 256
    ensures Lookup(InstallTable(t, c, Some(id)), c) == Some(User(id)) <==> Installable(c)
  {
    InstallLookup(t, c, Some(id), c);
    if !Installable(c) {
      NoHandlerOutside(t, c);
    }
  }

  /**
   * Digits, the space, control bytes and anything past '~' never have a handler, whatever was
   * installed: they always reach the unknown-specifier path.
   */
  lemma NoHandlerOutside(t: seq<Option<Handler>>, c: char)
    requires TableOk(t) && !InstallableCode(c as int)
    ensures Lookup(t, c) == None
  {
    if (c as int) < TABLE_LEN {
      var i := c as int;
      if t[i].Some? && !t[i].value.User? {
        assert t[i] == SeedEntry(i);
        SeedInstallable(i);
      }
    }
  }

  /** The unsigned converter only ever runs for the specifiers it was seeded at. */
  lemma UintOnlyAtSeed(t: seq<Option<Handler>>, c: char)
    requires TableOk(t) && Lookup(t, c) == Some(Uint)
    ensures IsUintSpecifier(c)
  {
    assert t[c as int] == SeedEntry(c as int);
  }

  /** `specifier_table` as an object: one array, fixed for the program's life. */
  class Table {
    const entries: array<Option<Handler>>

    ghost predicate Valid()
      reads this, entries
    {
      entries.Length == TABLE_LEN && TableOk(entries[..])
    }

    /** The static initialiser. */
    constructor ()
      ensures Valid() && entries[..] == Seed() && fresh(entries)
    {
      entries := new Option<Handler>[TABLE_LEN](i => SeedEntry(i));
    }

    /** `fmt_install`. */
    method Install(c: char, fn: Option<nat>)
      requires Valid()
      modifies entries
      ensures Valid() && entries[..] == InstallTable(old(entries[..]), c, fn)
    {
      InstallKeepsOk(entries[..], c, fn);
      var idx := (c as int) % 256;
      if idx < TABLE_LEN && ' ' as int < idx <= '~' as int && !('0' as int <= idx <= '9' as int) {
        entries[idx] := EntryOf(fn);
      }
    }

    /** The lookup `_vfctprintf` does before dispatching. */
    method Get(c: char) returns (h: Option<Handler>)
      requires Valid()
      ensures h == Lookup(entries[..], c)
    {
      h := None;
      if (c as int) < TABLE_LEN {
        h := entries[c as int];
      }
    }
  }
}
