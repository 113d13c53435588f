/** A directory table as a list of slots, each a deleted entry, a volume label or a file
    with its long name, and the four operations that walk it: dir_read, dir_find,
    dir_alloc with dir_register, and dir_remove. */
module FatDirectory {
  import opened Arith
  import opened FatLayout
  import opened FatName

  datatype Slot = Junk | File(name: seq<Unit>, sfn: Dirent)

  function SumFrom(e: seq<Byte>, sum: Byte): Byte {
    if e == [] then sum else SumFrom(e[1..], (sum / 2 + sum % 2 * 128 + e[0]) % 256)
  }

  /** One byte more: the sum is rotated to the right by one bit, `low` being the bit that
      comes out, and the byte is added. */
  lemma {:induction false} SumRotates(e: seq<Byte>, sum: Byte, b: Byte, high: nat, low: nat)
    requires SumFrom(e, sum) == 2 * high + low && low < 2
    ensures SumFrom(e + [b], sum) == (0x80 * low + high + b) % 0x100
  {
    if e == [] {
      assert (e + [b])[1..] == [];
    } else {
      assert (e + [b])[1..] == e[1..] + [b];
      SumRotates(e[1..], (sum / 2 + sum % 2 * 128 + e[0]) % 256, b, high, low);
    }
  }

  /** The check sum that ties a long name to its short entry. */
  function SumSfn(e: Dirent): Byte { SumFrom(e[..11], 0) }

  /** sum_sfn */
  method SumOf(dir: seq<Byte>) returns (sum: Byte)
    requires |dir| >= 11
    ensures sum == SumFrom(dir[..11], 0)
    ensures |dir| == 32 ==> sum == SumSfn(dir)
  {
    sum := 0;
    var n := 11;
    ghost var e := dir[..11];
    while n > 0
      invariant 0 <= n <= 11
      invariant SumFrom(e[11 - n..], sum) == SumFrom(e, 0)
    {
      assert e[11 - n..][1..] == e[11 - (n - 1)..] && e[11 - n..][0] == dir[11 - n];
      sum := (sum / 2 + sum % 2 * 128 + dir[11 - n]) % 256;
      n := n - 1;
    }
  }

  // ----- the layout of a table --------------------------------------------------------

  function Ent(d: seq<Byte>, k: nat): Dirent
    requires 32 * k + 32 <= |d|
  {
    d[32 * k..32 * k + 32]
  }

  predicate IsFree(e: Dirent) { e[0] == DDEM || e[0] == 0 }

  /** A deleted entry, or a volume label. */
  predicate IsJunk(e: Dirent) { e[0] == DDEM || (e[0] != 0 && e[11] % 32 == 8) }

  /** A short entry in use that is no volume label. */
  predicate SfnOk(e: Dirent) { !IsFree(e) && e[11] / 8 % 2 == 0 }

  function Size(s: Slot): nat {
    match s
    case Junk => 1
    case File(name, _) => Parts(name) + 1
  }

  ghost predicate SlotAt(d: seq<Byte>, i: nat, s: Slot) {
    && 32 * (i + Size(s)) <= |d|
    && match s
       case Junk => IsJunk(Ent(d, i))
       case File(name, sfn) =>
         && SfnOk(sfn) && (name == [] || IsName(name)) && Ent(d, i + Parts(name)) == sfn
         && forall t :: i <= t < i + Parts(name) ==> IsPart(Ent(d, t), name, Parts(name) - (t - i), SumSfn(sfn))
  }

  /** From entry `i` on the table holds these slots, then only never used entries. */
  ghost predicate Lays(d: seq<Byte>, i: nat, slots: seq<Slot>)
    decreases |slots|
  {
    if slots == [] then 32 * i <= |d| && |d| % 32 == 0 && forall k :: i <= k && 32 * k + 32 <= |d| ==> Ent(d, k)[0] == 0
    else SlotAt(d, i, slots[0]) && Lays(d, i + Size(slots[0]), slots[1..])
  }

  /** The first slot with property `p`, and the entry it begins at. */
  datatype Hit = Miss | Hit(top: nat, slot: Slot)

  ghost function FirstSlot(slots: seq<Slot>, i: nat, p: Slot -> bool): (h: Hit)
    ensures h.Hit? ==> h.slot in slots && p(h.slot)
    ensures h.Miss? ==> forall s :: s in slots ==> !p(s)
  {
    if slots == [] then Miss
    else if p(slots[0]) then Hit(i, slots[0])
    else FirstSlot(slots[1..], i + Size(slots[0]), p)
  }

  // ----- dir_read -----------------------------------------------------------------------

  predicate Visible(s: Slot) { s.File? && s.sfn[0] != 0x2E }

  /** Where a scan stands: `j` entries into the slot at entry `base`, the first of `rest`. */
  ghost predicate At(d: seq<Byte>, base: nat, rest: seq<Slot>, j: nat, dptr: nat) {
    && Lays(d, base, rest) && dptr == 32 * (base + j)
    && (j > 0 ==> rest != [] && rest[0].File? && j <= Parts(rest[0].name))
  }

  /** What dir_read knows of the long name of the slot it stands in. */
  ghost predicate Reading(buf: seq<Unit>, base: nat, rest: seq<Slot>, j: nat, ord: nat, sum: Byte, blk: nat) {
    if j == 0 then ord == 0xFF
    else
      && rest != [] && rest[0].File? && j <= Parts(rest[0].name)
      && ord == Parts(rest[0].name) - j && sum == SumSfn(rest[0].sfn) && blk == 32 * base
      && HoldsFrom(buf, rest[0].name, 13 * ord)
  }

  /** What the scan meets at its place. */
  lemma Meets(d: seq<Byte>, base: nat, rest: seq<Slot>, j: nat, dptr: nat)
    requires At(d, base, rest, j, dptr)
    ensures dptr % 32 == 0 && dptr <= |d| && |d| % 32 == 0 && (dptr < |d| ==> dptr + 32 <= |d|)
    ensures rest == [] ==> dptr < |d| ==> d[dptr] == 0
    ensures rest != [] ==> dptr < |d|
    ensures rest != [] && rest[0].Junk? ==> IsJunk(d[dptr..dptr + 32])
    ensures rest != [] && rest[0].File? ==> rest[0].name == [] || IsName(rest[0].name)
    ensures rest != [] && rest[0].File? && j == Parts(rest[0].name) ==> d[dptr..dptr + 32] == rest[0].sfn && SfnOk(rest[0].sfn)
    ensures rest != [] && rest[0].File? && j < Parts(rest[0].name) ==>
      && IsName(rest[0].name) && IsPart(d[dptr..dptr + 32], rest[0].name, Parts(rest[0].name) - j, SumSfn(rest[0].sfn))
      && (1 <= d[dptr] <= 20 || 65 <= d[dptr] <= 84) && d[dptr + 11] == AM_LFN
  {
    hide Lays, SlotAt, IsJunk, SfnOk, IsPart, IsName, SumSfn;
    LaysWhole(d, base, rest);
    if rest == [] {
      MeetsEnd(d, base);
    } else {
      FirstLays(d, base, rest);
      SlotShape(d, base, rest[0]);
      if rest[0].File? && j < Parts(rest[0].name) {
        MeetsPart(d, base, rest[0], j);
      }
    }
  }

  lemma MeetsEnd(d: seq<Byte>, base: nat)
    requires Lays(d, base, [])
    ensures 32 * base < |d| ==> d[32 * base] == 0
  {
    if 32 * base < |d| {
      assert Ent(d, base)[0] == 0;
    }
  }

  lemma SlotShape(d: seq<Byte>, base: nat, s: Slot)
    requires SlotAt(d, base, s)
    ensures 32 * (base + Size(s)) <= |d| && (s.Junk? ==> IsJunk(d[32 * base..32 * base + 32]))
    ensures s.File? ==> (s.name == [] || IsName(s.name)) && SfnOk(s.sfn)
    ensures s.File? ==> var o := 32 * (base + Parts(s.name)); d[o..o + 32] == s.sfn
  {
  }

  lemma MeetsPart(d: seq<Byte>, base: nat, s: Slot, j: nat)
    requires SlotAt(d, base, s) && s.File? && j < Parts(s.name)
    ensures 32 * (base + j) + 32 <= |d| && IsName(s.name)
    ensures IsPart(Ent(d, base + j), s.name, Parts(s.name) - j, SumSfn(s.sfn))
    ensures var o := 32 * (base + j); (1 <= d[o] <= 20 || 65 <= d[o] <= 84) && d[o + 11] == AM_LFN
  {
    hide IsPart, SumSfn;
    assert IsPart(Ent(d, base + j), s.name, Parts(s.name) - j, SumSfn(s.sfn));
    PartBytes(Ent(d, base + j), s.name, Parts(s.name) - j, SumSfn(s.sfn));
    assert d[32 * (base + j)] == Ent(d, base + j)[0] && d[32 * (base + j) + 11] == Ent(d, base + j)[11];
  }

  /** The entry that closes a slot leads to the next one. */
  lemma Advance(d: seq<Byte>, base: nat, rest: seq<Slot>, j: nat, dptr: nat)
    requires At(d, base, rest, j, dptr) && rest != []
    ensures if j + 1 == Size(rest[0]) then At(d, base + Size(rest[0]), rest[1..], 0, dptr + 32)
            else rest[0].File? && At(d, base, rest, j + 1, dptr + 32)
  {
  }

  lemma AtStart(d: seq<Byte>, slots: seq<Slot>)
    requires Lays(d, 0, slots)
    ensures At(d, 0, slots, 0, 0)
  {
  }

  lemma {:induction false} LaysWhole(d: seq<Byte>, i: nat, slots: seq<Slot>)
    requires Lays(d, i, slots)
    ensures |d| % 32 == 0 && 32 * i <= |d| && (slots != [] ==> 32 * (i + Size(slots[0])) <= |d|)
    decreases |slots|
  {
    if slots != [] {
      LaysWhole(d, i + Size(slots[0]), slots[1..]);
    }
  }

  /** The branch of dir_read for an entry of a long name. */
  method ReadPart(lfn: array<Unit>, d: array<Byte>, dptr: nat, ord0: nat, sum0: Byte, blk0: nat,
                  ghost base: nat, ghost rest: seq<Slot>, ghost j: nat)
      returns (ord: nat, sum: Byte, blk: nat)
    requires lfn as object != d && lfn.Length == MAX_LFN + 1 && dptr + 32 <= d.Length
    requires At(d[..], base, rest, j, dptr) && Reading(lfn[..], base, rest, j, ord0, sum0, blk0)
    requires rest != [] && rest[0].File? && j < Parts(rest[0].name)
    modifies lfn
    ensures Reading(lfn[..], base, rest, j + 1, ord, sum, blk)
  {
    hide Lays, SumSfn, IsPart, HoldsFrom, Stored, Fits, WellFilled, FirstZero, CharAt, IsName, SfnOk, IsJunk;
    ghost var name, n := rest[0].name, Parts(rest[0].name) - j;
    Meets(d[..], base, rest, j, dptr);
    assert d[..][dptr..dptr + 32] == d[dptr..dptr + 32];
    PartShape(d[dptr..dptr + 32], name, n, SumSfn(rest[0].sfn));
    PartBytes(d[dptr..dptr + 32], name, n, SumSfn(rest[0].sfn));
    sum, blk := sum0, blk0;
    var b: int, o := d[dptr], ord0;
    if IsLast(b) {
      sum := d[dptr + 13];
      b := b - LLEF;
      o := b;
      blk := dptr;
    }
    ord := 0xFF;
    if b == o && sum == d[dptr + 13] {
      ghost var was := lfn[..];
      var ok := PickLfn(lfn, d, dptr);
      if ok {
        ord := o - 1;
      }
      PartPicked(lfn[..], was, d[dptr..dptr + 32], name, n, SumSfn(rest[0].sfn));
    }
  }

  lemma PartBytes(e: Dirent, name: seq<Unit>, ord: nat, sum: Byte)
    requires IsPart(e, name, ord, sum)
    ensures 1 <= ord <= Parts(name) && e[0] == OrdOf(name, ord) && e[11] == AM_LFN && e[13] == sum
  {
  }

  /** dir_read for files and directories, from a slot on. */
  method DirRead(lfn: array<Unit>, d: array<Byte>, start: nat, ghost i: nat, ghost slots: seq<Slot>)
      returns (res: FResult, dptr: nat, blk: nat)
    requires lfn as object != d && lfn.Length == MAX_LFN + 1
    requires start == 32 * i && Lays(d[..], i, slots)
    modifies lfn
    ensures match FirstSlot(slots, i, Visible)
      case Miss => res == FR_NO_FILE
      case Hit(top, s) =>
        && res == FR_OK && dptr == 32 * (top + Parts(s.name)) && dptr + 32 <= d.Length
        && d[dptr..dptr + 32] == s.sfn
        && if s.name == [] then blk == NO_BLOCK else blk == 32 * top && HoldsName(lfn[..], s.name)
  {
    hide Lays, SumSfn, IsPart, HoldsFrom, IsName;
    var ord, sum := 0xFF, 0xFF;
    dptr, blk, res := start, NO_BLOCK, FR_NO_FILE;
    ghost var base: nat, rest, j: nat := i, slots, 0;
    LaysWhole(d[..], base, rest);
    while dptr < d.Length
      invariant At(d[..], base, rest, j, dptr) && Reading(lfn[..], base, rest, j, ord, sum, blk)
      invariant FirstSlot(slots, i, Visible) == FirstSlot(rest, base, Visible)
      invariant res == FR_NO_FILE
      decreases d.Length - dptr
    {
      Meets(d[..], base, rest, j, dptr);
      ghost var e := d[dptr..dptr + 32];
      assert d[..][dptr..dptr + 32] == e && e[0] == d[dptr] && e[11] == d[dptr + 11];
      if rest != [] {
        Advance(d[..], base, rest, j, dptr);
      }
      var b := d[dptr];
      if b == 0 {
        return;
      }
      AttrBits(d[dptr + 11]);
      var attr := d[dptr + 11] % 64;
      if b == DDEM || b == 0x2E || attr % 32 == 8 {
        ord := 0xFF;
        base, rest, j := base + Size(rest[0]), rest[1..], 0;
      } else if attr == AM_LFN {
        ord, sum, blk := ReadPart(lfn, d, dptr, ord, sum, blk, base, rest, j);
        j := j + 1;
      } else {
        var c := SumOf(d[dptr..dptr + 32]);
        if ord != 0 || sum != c {
          blk := NO_BLOCK;
        }
        res := FR_OK;
        if rest[0].name != [] {
          NameRead(lfn[..], rest[0].name);
        }
        return;
      }
      dptr := dptr + 32;
    }
    Meets(d[..], base, rest, j, dptr);
  }

  lemma AttrBits(b: Byte)
    ensures b % 64 % 32 == b % 32 && (b / 8 % 2 == 0 ==> b % 32 != 8 && b % 64 != AM_LFN)
    ensures b % 32 == 8 ==> b / 8 % 2 == 1 && b % 64 / 8 % 2 == 1 && b % 64 != AM_LFN
    ensures b / 8 % 2 == 0 ==> b % 64 / 8 % 2 == 0
  {
    var x := b % 64;
    DivModUnique(b, 32, 2 * (b / 64) + x / 32, x % 32);
    DivModUnique(b, 8, 8 * (b / 64) + x / 8, x % 8);
    DivModUnique(b / 8, 2, 4 * (b / 64) + x / 8 / 2, x / 8 % 2);
  }

  lemma NameRead(buf: seq<Unit>, name: seq<Unit>)
    requires HoldsFrom(buf, name, 0)
    ensures HoldsName(buf, name)
  {
    assert forall k :: 0 <= k < |name| ==> buf[k] == Padded(name, k);
    assert buf[|name|] == Padded(name, |name|);
  }

  // ----- dir_find -----------------------------------------------------------------------

  predicate NoLfn(fn: seq<Byte>) requires |fn| == 12 { fn[11] / 64 % 2 == 1 }

  predicate Lossy(fn: seq<Byte>) requires |fn| == 12 { fn[11] % 2 == 1 }

  /** The slot carries the name looked for: its long name up to case, or its short name. */
  predicate Matches(s: Slot, q: seq<Unit>, fn: seq<Byte>, up: Unit -> Unit)
    requires |fn| == 12
  {
    && s.File?
    && (|| (s.name != [] && !NoLfn(fn) && EqualUp(q, s.name, up))
        || (!Lossy(fn) && s.sfn[..11] == fn[..11]))
  }

  ghost function Carrying(q: seq<Unit>, fn: seq<Byte>, up: Unit -> Unit): (p: Slot -> bool)
    requires |fn| == 12
    ensures forall s: Slot :: p(s) <==> Matches(s, q, fn, up)
    ensures !p(Junk)
  {
    s => Matches(s, q, fn, up)
  }

  /** What dir_find knows of the slot it stands in. */
  ghost predicate Finding(buf: seq<Unit>, base: nat, rest: seq<Slot>, j: nat, ord: nat, sum: Byte, blk: nat,
                          fn: seq<Byte>, up: Unit -> Unit)
    requires |fn| == 12
  {
    if j == 0 || NoLfn(fn) then ord == 0xFF && blk == NO_BLOCK
    else
      && rest != [] && rest[0].File? && j <= Parts(rest[0].name) && blk == 32 * base && sum == SumSfn(rest[0].sfn)
      && ord == if MatchFrom(buf, rest[0].name, 13 * (Parts(rest[0].name) - j), up) then Parts(rest[0].name) - j else 0xFF
  }

  /** The branch of dir_find for an entry of a long name. */
  method FindPart(lfn: array<Unit>, d: array<Byte>, dptr: nat, ord0: nat, sum0: Byte, blk0: nat, fn: seq<Byte>,
                  up: Unit -> Unit, ghost base: nat, ghost rest: seq<Slot>, ghost j: nat)
      returns (ord: nat, sum: Byte, blk: nat)
    requires lfn.Length == MAX_LFN + 1 && dptr + 32 <= d.Length && |fn| == 12 && !NoLfn(fn) && IsUpcase(up)
    requires At(d[..], base, rest, j, dptr) && Finding(lfn[..], base, rest, j, ord0, sum0, blk0, fn, up)
    requires rest != [] && rest[0].File? && j < Parts(rest[0].name)
    ensures Finding(lfn[..], base, rest, j + 1, ord, sum, blk, fn, up)
  {
    hide Lays, SumSfn, IsPart, HoldsFrom, MatchFrom, Same, Fits, WellFilled, FirstZero, CharAt, IsName, SfnOk, IsJunk;
    ghost var name, n := rest[0].name, Parts(rest[0].name) - j;
    Meets(d[..], base, rest, j, dptr);
    assert d[..][dptr..dptr + 32] == d[dptr..dptr + 32];
    PartShape(d[dptr..dptr + 32], name, n, SumSfn(rest[0].sfn));
    PartBytes(d[dptr..dptr + 32], name, n, SumSfn(rest[0].sfn));
    MatchShrinks(lfn[..], name, 13 * (n - 1), 13 * n, up);
    if n == Parts(name) || MatchFrom(lfn[..], name, 13 * n, up) {
      PartMatched(lfn[..], d[dptr..dptr + 32], name, n, SumSfn(rest[0].sfn), up);
    }
    sum, blk := sum0, blk0;
    var c: int, o := d[dptr], ord0;
    if IsLast(c) {
      sum := d[dptr + 13];
      c := c - LLEF;
      o := c;
      blk := dptr;
    }
    ord := 0xFF;
    if c == o && sum == d[dptr + 13] {
      var ok := CmpLfn(lfn, d, dptr, up);
      if ok {
        ord := o - 1;
      }
    }
  }

  lemma MatchShrinks(buf: seq<Unit>, name: seq<Unit>, from: nat, to: nat, up: Unit -> Unit)
    requires from <= to
    ensures MatchFrom(buf, name, from, up) ==> MatchFrom(buf, name, to, up)
  {
  }

  /** The two tests at a short entry decide whether its slot carries the name. */
  lemma ShortDecides(buf: seq<Unit>, base: nat, rest: seq<Slot>, j: nat, ord: nat, sum: Byte, blk: nat, fn: seq<Byte>,
                     up: Unit -> Unit, q: seq<Unit>)
    requires |fn| == 12 && IsUpcase(up) && HoldsName(buf, q) && IsName(q)
    requires rest != [] && rest[0].File? && (rest[0].name == [] || IsName(rest[0].name)) && j == Parts(rest[0].name)
    requires Finding(buf, base, rest, j, ord, sum, blk, fn, up)
    ensures Matches(rest[0], q, fn, up) <==>
      (ord == 0 && sum == SumSfn(rest[0].sfn)) || (!Lossy(fn) && rest[0].sfn[..11] == fn[..11])
    ensures blk == if rest[0].name == [] || NoLfn(fn) then NO_BLOCK else 32 * base
  {
    hide MatchFrom, EqualUp, IsUpcase, SumSfn, HoldsName, IsName;
    if rest[0].name != [] {
      MatchIsEqual(buf, q, rest[0].name, up);
    }
  }

  /** dir_find: the first slot that carries the name. */
  method DirFind(lfn: array<Unit>, d: array<Byte>, fn: seq<Byte>, up: Unit -> Unit, ghost q: seq<Unit>, ghost slots: seq<Slot>)
      returns (res: FResult, dptr: nat, blk: nat)
    requires lfn.Length == MAX_LFN + 1 && |fn| == 12 && IsUpcase(up)
    requires HoldsName(lfn[..], q) && IsName(q) && Lays(d[..], 0, slots) && d.Length > 0
    ensures match FirstSlot(slots, 0, Carrying(q, fn, up))
      case Miss => res == FR_NO_FILE
      case Hit(top, s) =>
        && res == FR_OK && dptr == 32 * (top + Parts(s.name)) && dptr + 32 <= d.Length
        && d[dptr..dptr + 32] == s.sfn
        && blk == if s.name == [] || NoLfn(fn) then NO_BLOCK else 32 * top
  {
    hide Lays, SumSfn, IsPart, MatchFrom, EqualUp, IsUpcase, Matches, HoldsName, IsName, At;
    ghost var p := Carrying(q, fn, up);
    var ord, sum: Byte := 0xFF, 0xFF;
    dptr, blk, res := 0, NO_BLOCK, FR_OK;
    ghost var base: nat, rest, j: nat := 0, slots, 0;
    LaysWhole(d[..], base, rest);
    AtStart(d[..], rest);
    while true
      invariant dptr < d.Length && res == FR_OK
      invariant At(d[..], base, rest, j, dptr) && Finding(lfn[..], base, rest, j, ord, sum, blk, fn, up)
      invariant FirstSlot(slots, 0, p) == FirstSlot(rest, base, p)
      decreases d.Length - dptr
    {
      Meets(d[..], base, rest, j, dptr);
      ghost var e := d[dptr..dptr + 32];
      assert d[..][dptr..dptr + 32] == e && e[0] == d[dptr] && e[11] == d[dptr + 11];
      if rest != [] {
        Advance(d[..], base, rest, j, dptr);
      }
      var c := d[dptr];
      if c == 0 {
        res := FR_NO_FILE;
        return;
      }
      AttrBits(d[dptr + 11]);
      var a := d[dptr + 11] % 64;
      if c == DDEM || (a / 8 % 2 == 1 && a != AM_LFN) {
        ord, blk := 0xFF, NO_BLOCK;
        assert j + 1 == Size(rest[0]);
        base, rest, j := base + Size(rest[0]), rest[1..], 0;
      } else if a == AM_LFN {
        if !NoLfn(fn) {
          ord, sum, blk := FindPart(lfn, d, dptr, ord, sum, blk, fn, up, base, rest, j);
        }
        j := j + 1;
      } else {
        ShortDecides(lfn[..], base, rest, j, ord, sum, blk, fn, up, q);
        var k := SumOf(d[dptr..dptr + 32]);
        if ord == 0 && sum == k {
          return;
        }
        if !Lossy(fn) && d[dptr..dptr + 32][..11] == fn[..11] {
          return;
        }
        ord, blk := 0xFF, NO_BLOCK;
        assert j + 1 == Size(rest[0]);
        base, rest, j := base + Size(rest[0]), rest[1..], 0;
      }
      dptr := dptr + 32;
      Meets(d[..], base, rest, j, dptr);
      if dptr >= d.Length {
        res := FR_NO_FILE;
        return;
      }
    }
  }

  // ----- dir_alloc, dir_register, dir_remove ----------------------------------------------

  ghost predicate FreeRun(d: seq<Byte>, k: nat, n: nat) {
    32 * (k + n) <= |d| && forall t :: k <= t < k + n ==> IsFree(Ent(d, t))
  }

  /** With `run < n` free entries before entry `i`, no run of `n` ends there unless entry `i` is
      free and the last of it. */
  lemma NoRunYet(d: seq<Byte>, n: nat, i: nat, run: nat)
    requires 0 < n && run < n && run <= i && 32 * i + 32 <= |d| && (run < i ==> !IsFree(Ent(d, i - run - 1)))
    ensures run + 1 < n || !IsFree(Ent(d, i)) ==> forall m: nat :: m + n == i + 1 ==> !FreeRun(d, m, n)
    ensures forall m: nat :: m < i - run && m + n == i + 1 ==> !FreeRun(d, m, n)
  {
    forall m: nat | m + n == i + 1 && FreeRun(d, m, n)
      ensures run + 1 == n && IsFree(Ent(d, i)) && m == i - run
    {
      assert m <= i < m + n;
    }
  }

  lemma EntryStarts(d: seq<Byte>, i: nat)
    requires 32 * i + 32 <= |d|
    ensures Ent(d, i)[0] == d[32 * i]
  {
  }

  lemma RunFound(d: seq<Byte>, k: nat, n: nat)
    requires 32 * (k + n) <= |d| && forall t :: k <= t < k + n ==> IsFree(Ent(d, t))
    ensures FreeRun(d, k, n)
  {
  }

  /** A run lies within the table. */
  lemma NoRunWithin(d: seq<Byte>, n: nat, i: nat)
    requires 0 < n
    ensures i == 0 ==> forall m: nat :: m + n <= i ==> !FreeRun(d, m, n)
    ensures |d| <= 32 * i && (forall m: nat :: m + n <= i ==> !FreeRun(d, m, n)) ==> forall m: nat :: !FreeRun(d, m, n)
  {
  }

  /** dir_alloc without stretching the table: the first run of `n` free entries. */
  method DirAlloc(d: array<Byte>, n: nat) returns (res: FResult, dptr: nat, ghost k: nat)
    requires 0 < n && 0 < d.Length && d.Length % 32 == 0
    ensures res == FR_OK || res == FR_DENIED
    ensures res == FR_OK ==> dptr == 32 * (k + n - 1) && FreeRun(d[..], k, n) && forall m: nat :: m < k ==> !FreeRun(d[..], m, n)
    ensures res == FR_DENIED ==> forall m: nat :: !FreeRun(d[..], m, n)
  {
    hide FreeRun, Ent;
    var run := 0;
    ghost var i := 0;
    dptr, k := 0, 0;
    NoRunWithin(d[..], n, 0);
    while true
      invariant dptr == 32 * i < d.Length && run < n && run <= i
      invariant forall t :: i - run <= t < i ==> IsFree(Ent(d[..], t))
      invariant run < i ==> !IsFree(Ent(d[..], i - run - 1))
      invariant forall m: nat :: m + n <= i ==> !FreeRun(d[..], m, n)
      decreases d.Length - dptr
    {
      EntryStarts(d[..], i);
      NoRunYet(d[..], n, i, run);
      if d[dptr] == DDEM || d[dptr] == 0 {
        run := run + 1;
        if run == n {
          k := i + 1 - n;
          RunFound(d[..], k, n);
          return FR_OK, dptr, k;
        }
      } else {
        run := 0;
      }
      dptr, i := dptr + 32, i + 1;
      if dptr >= d.Length {
        NoRunWithin(d[..], n, i);
        return FR_DENIED, dptr, 0;
      }
    }
  }

  /** The short entry that dir_register stores. */
  function Short(fn: seq<Byte>): Dirent
    requires |fn| == 12
  {
    fn[..11] + [0, fn[11] / 8 % 4 * 8] + seq(19, _ => 0)
  }

  /** It has the name, no attribute, the two flags for lower case, and zeros. */
  lemma ShortBytes(fn: seq<Byte>, k: nat)
    requires |fn| == 12 && k < 32
    ensures Short(fn)[k] == if k < 11 then fn[k] else if k == 12 then And(fn[11], 0x18) else 0
  {
    MiddleBits(fn[11]);
  }

  /** The flags of a name: lossy, with a long name, not to be found by one, and the two that
      cannot be registered. */
  lemma NameFlags(fn: seq<Byte>)
    requires |fn| == 12
    ensures Lossy(fn) <==> And(fn[11], 0x01) != 0
    ensures NeedsLfn(fn) <==> And(fn[11], 0x02) != 0
    ensures NoLfn(fn) <==> And(fn[11], 0x40) != 0
    ensures Unusable(fn) <==> And(fn[11], 0x20) != 0 || And(fn[11], 0x80) != 0
  {
    assert PowerOfTwo(2) && PowerOfTwo(8) && PowerOfTwo(0x20) && PowerOfTwo(0x40) && PowerOfTwo(0x80);
    AndBit(fn[11], 0x01);
    AndBit(fn[11], 0x02);
    AndBit(fn[11], 0x40);
    AndBit(fn[11], 0x20);
    AndBit(fn[11], 0x80);
  }

  method PutShort(d: array<Byte>, o: nat, fn: seq<Byte>)
    requires o + 32 <= d.Length && |fn| == 12
    modifies d
    ensures d[o..o + 32] == Short(fn) && OnlyEntry(d[..], old(d[..]), o)
  {
    forall k | 0 <= k < 32 {
      d[o + k] := 0;
    }
    forall k | 0 <= k < 11 {
      d[o + k] := fn[k];
    }
    d[o + 12] := fn[11] / 8 % 4 * 8;
  }

  function Unusable(fn: seq<Byte>): bool requires |fn| == 12 { fn[11] / 32 % 2 == 1 || fn[11] / 128 % 2 == 1 }

  /** NS_LFN: the name needs entries of its own. */
  predicate NeedsLfn(fn: seq<Byte>) requires |fn| == 12 { fn[11] / 2 % 2 == 1 }

  /** The slot that registering a name makes. */
  function Registered(fn: seq<Byte>, name: seq<Unit>): Slot
    requires |fn| == 12
  {
    File(if NeedsLfn(fn) then name else [], Short(fn))
  }

  /** The entries of a name, last part first. */
  ghost predicate PartsAt(d: seq<Byte>, k: nat, n: nat, name: seq<Unit>, sum: Byte) {
    && n <= Parts(name) && 32 * (k + n) <= |d|
    && forall t :: k <= t < k + n ==> IsPart(Ent(d, t), name, Parts(name) - (t - k), sum)
  }

  /** Entries outside the one written stay what they are. */
  lemma OtherEntries(d: seq<Byte>, was: seq<Byte>, o: nat)
    requires OnlyEntry(d, was, 32 * o)
    ensures forall t: nat :: t != o && 32 * t + 32 <= |d| ==> Ent(d, t) == Ent(was, t)
  {
    forall t: nat | t != o && 32 * t + 32 <= |d| ensures Ent(d, t) == Ent(was, t) {
      EntryKept(d, was, o, t);
    }
  }

  lemma EntryKept(d: seq<Byte>, was: seq<Byte>, o: nat, t: nat)
    requires OnlyEntry(d, was, 32 * o) && t != o && 32 * t + 32 <= |d|
    ensures |was| == |d| && Ent(d, t) == Ent(was, t)
  {
    forall i | 0 <= i < 32
      ensures Ent(d, t)[i] == Ent(was, t)[i]
    {
      var x := 32 * t + i;
      if t < o {
        assert d[..32 * o][x] == was[..32 * o][x];
      } else {
        assert d[32 * o + 32..][x - 32 * o - 32] == was[32 * o + 32..][x - 32 * o - 32];
      }
    }
  }

  /** The loop of dir_register that stores the long name. */
  method PutParts(lfn: array<Unit>, d: array<Byte>, start: nat, n_ent: nat, fn: seq<Byte>, ghost name: seq<Unit>, ghost k: nat)
    requires lfn as object != d && HoldsName(lfn[..], name) && IsName(name) && |fn| == 12
    requires n_ent == Parts(name) && start == 32 * k && 32 * (k + n_ent) <= d.Length
    modifies d
    ensures PartsAt(d[..], k, n_ent, name, SumSfn(Short(fn)))
    ensures d[..][..32 * k] == old(d[..])[..32 * k] && d[..][32 * (k + n_ent)..] == old(d[..])[32 * (k + n_ent)..]
  {
    assert |name| > 0;
    hide IsPart, SumSfn, IsName, HoldsName, Short;
    var sum := SumOf(fn);
    ShortIs(fn);
    var n, o := n_ent, start;
    ghost var t: nat := k;
    while true
      invariant 1 <= n <= n_ent && o == 32 * t && t == k + (n_ent - n)
      invariant PartsAt(d[..], k, n_ent - n, name, sum)
      invariant d[..][..32 * k] == old(d[..])[..32 * k] && d[..][32 * t..] == old(d[..])[32 * t..]
      decreases n
    {
      ghost var was := d[..];
      PutLfn(lfn, d, o, n, sum, name);
      OtherEntries(d[..], was, t);
      assert Ent(d[..], t) == d[o..o + 32];
      Outside(d[..], was, old(d[..]), k, t);
      o, n, t := o + 32, n - 1, t + 1;
      if n == 0 {
        break;
      }
    }
  }

  lemma ShortIs(fn: seq<Byte>)
    requires |fn| == 12
    ensures SumSfn(Short(fn)) == SumFrom(fn[..11], 0)
    ensures fn[0] != 0 && fn[0] != DDEM ==> SfnOk(Short(fn))
  {
    assert Short(fn)[..11] == fn[..11];
    assert Short(fn)[0] == fn[..11][0];
  }

  lemma Outside(d: seq<Byte>, was: seq<Byte>, first: seq<Byte>, k: nat, t: nat)
    requires OnlyEntry(d, was, 32 * t) && |first| == |was| && k <= t
    requires was[..32 * k] == first[..32 * k] && was[32 * t..] == first[32 * t..]
    ensures d[..32 * k] == first[..32 * k] && d[32 * t + 32..] == first[32 * t + 32..]
  {
    assert d[..32 * k] == d[..32 * t][..32 * k] && was[..32 * k] == was[..32 * t][..32 * k];
    assert was[32 * t + 32..] == was[32 * t..][32..] && first[32 * t + 32..] == first[32 * t..][32..];
  }

  /** dir_register, for a short name that needs no number. */
  method DirRegister(lfn: array<Unit>, d: array<Byte>, fn: seq<Byte>, ghost name: seq<Unit>)
      returns (res: FResult, ghost k: nat)
    requires lfn as object != d && HoldsName(lfn[..], name) && IsName(name)
    requires |fn| == 12 && fn[0] != 0 && fn[0] != DDEM && 0 < d.Length && d.Length % 32 == 0
    modifies d
    ensures res == FR_INVALID_NAME <==> Unusable(fn)
    ensures res == FR_OK || d[..] == old(d[..])
    ensures var s := Registered(fn, name); var was := old(d[..]);
      && (res == FR_DENIED ==> forall m: nat :: !FreeRun(was, m, Size(s)))
      && (res == FR_OK ==>
           && FreeRun(was, k, Size(s)) && (forall m: nat :: m < k ==> !FreeRun(was, m, Size(s)))
           && SlotAt(d[..], k, s) && d[..][..32 * k] == was[..32 * k] && d[..][32 * (k + Size(s))..] == was[32 * (k + Size(s))..])
    ensures res in {FR_OK, FR_DENIED, FR_INVALID_NAME}
  {
    hide IsPart, SumSfn, Short, SlotAt;
    k := 0;
    assert lfn[|name|] == 0 && forall i :: 0 <= i < |name| ==> lfn[i] != 0 by {
      assert forall i :: 0 <= i < |name| ==> lfn[..][..|name|][i] == name[i];
    }
    if Unusable(fn) {
      return FR_INVALID_NAME, 0;
    }
    var len := 0;
    while lfn[len] != 0
      invariant 0 <= len <= |name|
      decreases |name| - len
    {
      len := len + 1;
    }
    var n := if NeedsLfn(fn) then (len + 12) / 13 + 1 else 1;
    var dptr;
    res, dptr, k := DirAlloc(d, n);
    if res == FR_OK {
      PutBlock(lfn, d, dptr, n, fn, name, k);
    }
  }

  /** The entries dir_register stores. */
  method PutBlock(lfn: array<Unit>, d: array<Byte>, dptr: nat, n: nat, fn: seq<Byte>, ghost name: seq<Unit>, ghost k: nat)
    requires lfn as object != d && HoldsName(lfn[..], name) && IsName(name)
    requires |fn| == 12 && fn[0] != 0 && fn[0] != DDEM
    requires n == Size(Registered(fn, name)) && dptr == 32 * (k + n - 1) && dptr + 32 <= d.Length
    modifies d
    ensures SlotAt(d[..], k, Registered(fn, name))
    ensures d[..][..32 * k] == old(d[..])[..32 * k] && d[..][32 * (k + n)..] == old(d[..])[32 * (k + n)..]
  {
    hide IsPart, SumSfn, Short, IsName, HoldsName, SlotAt, PartsAt;
    if n > 1 {
      PutParts(lfn, d, dptr - (n - 1) * 32, n - 1, fn, name, k);
    }
    ghost var was := d[..];
    PutShort(d, dptr, fn);
    OtherEntries(d[..], was, k + n - 1);
    Outside(d[..], was, old(d[..]), k, k + n - 1);
    assert Ent(d[..], k + n - 1) == d[dptr..dptr + 32];
    ShortIs(fn);
    BlockIs(d[..], was, k, fn, name);
  }

  /** The parts of before and the short entry behind them are the slot. */
  lemma BlockIs(d: seq<Byte>, was: seq<Byte>, k: nat, fn: seq<Byte>, name: seq<Unit>)
    requires |fn| == 12 && |d| == |was| && 32 * (k + Size(Registered(fn, name))) <= |d| && IsName(name) && SfnOk(Short(fn))
    requires var n := Size(Registered(fn, name)) - 1;
      && Ent(d, k + n) == Short(fn) && (n > 0 ==> PartsAt(was, k, n, name, SumSfn(Short(fn))))
      && forall t: nat :: t != k + n && 32 * t + 32 <= |d| ==> Ent(d, t) == Ent(was, t)
    ensures SlotAt(d, k, Registered(fn, name))
  {
    hide IsPart, SumSfn, Short, IsName, Ent;
  }

  /** The files of a table, in the order dir_read finds them. */
  function Files(slots: seq<Slot>): seq<Slot> {
    if slots == [] then [] else (if slots[0].File? then [slots[0]] else []) + Files(slots[1..])
  }

  /** The slots once `s` takes the place of the `Size(s)` free entries from `k` on. */
  function Placed(slots: seq<Slot>, i: nat, k: nat, s: Slot): seq<Slot> {
    if slots == [] || k <= i then [s] + (if Size(s) <= |slots| then slots[Size(s)..] else [])
    else [slots[0]] + Placed(slots[1..], i + Size(slots[0]), k, s)
  }

  /** How many files stand before entry `k`. */
  function FilesBefore(slots: seq<Slot>, i: nat, k: nat): (t: nat)
    ensures t <= |Files(slots)|
  {
    if slots == [] || k <= i then 0
    else (if slots[0].File? then 1 else 0) + FilesBefore(slots[1..], i + Size(slots[0]), k)
  }

  /** The slot that begins at entry `top`. */
  ghost predicate StandsAt(slots: seq<Slot>, i: nat, top: nat, s: Slot) {
    slots != [] && if i == top then slots[0] == s else i < top && StandsAt(slots[1..], i + Size(slots[0]), top, s)
  }

  function Inserted(fs: seq<Slot>, t: nat, s: Slot): seq<Slot>
    requires t <= |fs|
  {
    fs[..t] + [s] + fs[t..]
  }

  /** The slots outside the entries written keep their place. */
  lemma SlotKept(d: seq<Byte>, was: seq<Byte>, i: nat, s: Slot)
    requires SlotAt(was, i, s) && |d| == |was|
    requires forall t :: i <= t < i + Size(s) ==> Ent(d, t) == Ent(was, t)
    ensures SlotAt(d, i, s)
  {
  }

  lemma NothingLays(was: seq<Byte>, d: seq<Byte>, i: nat)
    requires Lays(was, i, []) && |d| == |was|
    requires forall t :: i <= t && 32 * t + 32 <= |d| ==> Ent(d, t) == Ent(was, t)
    ensures Lays(d, i, [])
  {
  }

  lemma {:induction false} LaysKept(d: seq<Byte>, was: seq<Byte>, i: nat, slots: seq<Slot>)
    requires Lays(was, i, slots) && |d| == |was|
    requires forall t :: i <= t && 32 * t + 32 <= |d| ==> Ent(d, t) == Ent(was, t)
    ensures Lays(d, i, slots)
    decreases |slots|
  {
    hide Lays, SlotAt, Size;
    if slots == [] {
      NothingLays(was, d, i);
    } else {
      FirstLays(was, i, slots);
      SlotKept(d, was, i, slots[0]);
      LaysKept(d, was, i + Size(slots[0]), slots[1..]);
      LaysCons(d, i, slots[0], slots[1..]);
      assert [slots[0]] + slots[1..] == slots;
    }
  }

  /** A run of free entries at a slot boundary covers whole deleted slots. */
  lemma {:induction false} SkipFree(d: seq<Byte>, i: nat, slots: seq<Slot>, n: nat)
    requires Lays(d, i, slots) && FreeRun(d, i, n)
    ensures Lays(d, i + n, if n <= |slots| then slots[n..] else [])
    ensures forall t :: 0 <= t < n && t < |slots| ==> slots[t] == Junk
    decreases n
  {
    hide Lays, SlotAt, FreeRun;
    if n == 0 {
      assert slots[0..] == slots;
    } else if slots == [] {
      NothingLater(d, i, n);
    } else {
      FreeFirst(d, i, n);
      FirstLays(d, i, slots);
      FreeIsJunk(d, i, slots[0]);
      SkipFree(d, i + 1, slots[1..], n - 1);
      assert n <= |slots| ==> slots[n..] == slots[1..][n - 1..];
      assert forall t :: 0 < t < n && t < |slots| ==> slots[t] == slots[1..][t - 1];
    }
  }

  lemma LaysCons(d: seq<Byte>, i: nat, s: Slot, rest: seq<Slot>)
    requires SlotAt(d, i, s) && Lays(d, i + Size(s), rest)
    ensures Lays(d, i, [s] + rest)
  {
    assert ([s] + rest)[1..] == rest;
  }

  lemma NothingLater(d: seq<Byte>, i: nat, n: nat)
    requires Lays(d, i, []) && FreeRun(d, i, n)
    ensures Lays(d, i + n, [])
  {
  }

  lemma FreeFirst(d: seq<Byte>, i: nat, n: nat)
    requires FreeRun(d, i, n) && n > 0
    ensures 32 * i + 32 <= |d| && IsFree(Ent(d, i)) && FreeRun(d, i + 1, n - 1)
  {
  }

  lemma FirstLays(d: seq<Byte>, i: nat, slots: seq<Slot>)
    requires Lays(d, i, slots) && slots != []
    ensures SlotAt(d, i, slots[0]) && Lays(d, i + Size(slots[0]), slots[1..])
  {
  }

  lemma FileNotFree(d: seq<Byte>, i: nat, s: Slot, t: nat)
    requires SlotAt(d, i, s) && s.File? && i <= t < i + Size(s)
    ensures !IsFree(Ent(d, t))
  {
    if t < i + Parts(s.name) {
      PartBytes(Ent(d, t), s.name, Parts(s.name) - (t - i), SumSfn(s.sfn));
      PartShape(Ent(d, t), s.name, Parts(s.name) - (t - i), SumSfn(s.sfn));
    }
  }

  lemma FreeIsJunk(d: seq<Byte>, i: nat, s: Slot)
    requires 32 * i + 32 <= |d| && IsFree(Ent(d, i)) && SlotAt(d, i, s)
    ensures s == Junk
  {
    hide SlotAt;
    if s.File? {
      FileNotFree(d, i, s, i);
    }
  }

  /** A slot in front of a run of free entries is no part of it. */
  lemma BeforeRun(d: seq<Byte>, i: nat, s: Slot, k: nat, n: nat)
    requires SlotAt(d, i, s) && FreeRun(d, k, n) && i < k && 0 < n
    ensures i + Size(s) <= k
  {
    hide SlotAt;
    assert IsFree(Ent(d, k));
    if s.File? {
      SlotFits(d, i, s);
      forall t | i <= t < i + Size(s) ensures !IsFree(Ent(d, t)) {
        FileNotFree(d, i, s, t);
      }
    }
  }

  /** Behind the last slot a run of free entries can begin earlier. */
  lemma RunGrows(d: seq<Byte>, i: nat, k: nat, n: nat)
    requires Lays(d, i, []) && FreeRun(d, k, n) && i < k
    ensures FreeRun(d, k - 1, n)
  {
    assert IsFree(Ent(d, k - 1));
  }

  /** The table after an entry block took the first run of free entries is laid out again:
      every file of before and the new one, and nothing else. */
  lemma {:induction false} PlacedLays(d: seq<Byte>, was: seq<Byte>, i: nat, slots: seq<Slot>, k: nat, s: Slot,
                                   p: Slot -> bool)
    requires Lays(was, i, slots) && |d| == |was| && i <= k
    requires FreeRun(was, k, Size(s)) && forall m: nat :: i <= m < k ==> !FreeRun(was, m, Size(s))
    requires SlotAt(d, k, s) && s.File?
    requires forall t :: i <= t && 32 * t + 32 <= |d| && !(k <= t < k + Size(s)) ==> Ent(d, t) == Ent(was, t)
    ensures Lays(d, i, Placed(slots, i, k, s))
    ensures Files(Placed(slots, i, k, s)) == Inserted(Files(slots), FilesBefore(slots, i, k), s)
    ensures StandsAt(Placed(slots, i, k, s), i, k, s)
    ensures FilesBefore(Placed(slots, i, k, s), i, k) == FilesBefore(slots, i, k)
    ensures FirstSlot(slots, i, p) == Miss && p(s) ==> FirstSlot(Placed(slots, i, k, s), i, p) == Hit(k, s)
    decreases |slots|
  {
    hide SlotAt, Files, Inserted, Lays, FreeRun, Placed, FilesBefore, StandsAt, FirstSlot;
    if slots == [] && i < k {
      RunGrows(was, i, k, Size(s));
      assert false;
    } else if slots == [] || k <= i {
      SkipFree(was, i, slots, Size(s));
      var tail := if Size(s) <= |slots| then slots[Size(s)..] else [];
      LaysKept(d, was, k + Size(s), tail);
      LaysCons(d, i, s, tail);
      JunkHasNoFiles(slots, Size(s));
      InsertedFirst(slots, tail, s);
      PlacedHere(slots, i, s, tail, p);
    } else {
      FirstLays(was, i, slots);
      BeforeRun(was, i, slots[0], k, Size(s));
      SlotKept(d, was, i, slots[0]);
      PlacedLays(d, was, i + Size(slots[0]), slots[1..], k, s, p);
      var rest := Placed(slots[1..], i + Size(slots[0]), k, s);
      LaysCons(d, i, slots[0], rest);
      InsertedDeeper(slots, rest, FilesBefore(slots[1..], i + Size(slots[0]), k), s);
      PlacedThere(slots, i, k, s, p);
    }
  }

  /** The new slot comes first. */
  lemma PlacedHere(slots: seq<Slot>, i: nat, s: Slot, tail: seq<Slot>, p: Slot -> bool)
    requires s.File? && tail == if Size(s) <= |slots| then slots[Size(s)..] else []
    ensures Placed(slots, i, i, s) == [s] + tail && FilesBefore(slots, i, i) == 0
    ensures StandsAt([s] + tail, i, i, s) && FilesBefore([s] + tail, i, i) == 0
    ensures p(s) ==> FirstSlot([s] + tail, i, p) == Hit(i, s)
  {
    hide Files;
  }

  /** The new slot comes behind the first one. */
  lemma PlacedThere(slots: seq<Slot>, i: nat, k: nat, s: Slot, p: Slot -> bool)
    requires slots != [] && i < k
    ensures var j, rest := i + Size(slots[0]), Placed(slots[1..], i + Size(slots[0]), k, s);
      && Placed(slots, i, k, s) == [slots[0]] + rest
      && FilesBefore(slots, i, k) == (if slots[0].File? then 1 else 0) + FilesBefore(slots[1..], j, k)
      && FilesBefore([slots[0]] + rest, i, k) == (if slots[0].File? then 1 else 0) + FilesBefore(rest, j, k)
      && (StandsAt(rest, j, k, s) ==> StandsAt([slots[0]] + rest, i, k, s))
      && (FirstSlot(slots, i, p) == Miss ==>
           FirstSlot(slots[1..], j, p) == Miss && FirstSlot([slots[0]] + rest, i, p) == FirstSlot(rest, j, p))
  {
    hide Files;
    var rest := Placed(slots[1..], i + Size(slots[0]), k, s);
    assert ([slots[0]] + rest)[1..] == rest;
  }

  lemma InsertedFirst(slots: seq<Slot>, tail: seq<Slot>, s: Slot)
    requires s.File? && Files(slots) == Files(tail)
    ensures Files([s] + tail) == Inserted(Files(slots), 0, s)
  {
    assert ([s] + tail)[1..] == tail;
  }

  lemma InsertedDeeper(slots: seq<Slot>, rest: seq<Slot>, t: nat, s: Slot)
    requires slots != [] && t <= |Files(slots[1..])| && Files(rest) == Inserted(Files(slots[1..]), t, s)
    ensures var u := if slots[0].File? then t + 1 else t;
      u <= |Files(slots)| && Files([slots[0]] + rest) == Inserted(Files(slots), u, s)
  {
    hide Files, Inserted;
    FilesCons(slots[0], slots[1..]);
    FilesCons(slots[0], rest);
    assert [slots[0]] + slots[1..] == slots;
    InsertedUnder(if slots[0].File? then [slots[0]] else [], Files(slots[1..]), t, s);
  }

  lemma FilesCons(s: Slot, rest: seq<Slot>)
    ensures Files([s] + rest) == (if s.File? then [s] else []) + Files(rest)
  {
    assert ([s] + rest)[1..] == rest;
  }

  lemma InsertedUnder(h: seq<Slot>, f: seq<Slot>, t: nat, s: Slot)
    requires t <= |f|
    ensures Inserted(h + f, |h| + t, s) == h + Inserted(f, t, s)
  {
    assert (h + f)[..|h| + t] == h + f[..t] && (h + f)[|h| + t..] == f[t..];
  }

  lemma {:induction false} JunkHasNoFiles(slots: seq<Slot>, n: nat)
    requires forall t :: 0 <= t < n && t < |slots| ==> slots[t] == Junk
    ensures Files(slots) == Files(if n <= |slots| then slots[n..] else [])
    decreases n
  {
    if n > 0 && slots != [] {
      JunkHasNoFiles(slots[1..], n - 1);
      assert n <= |slots| ==> slots[n..] == slots[1..][n - 1..];
    }
  }

  function Junks(n: nat): seq<Slot> { seq(n, _ => Junk) }

  /** The slots once the entries of the slot at `top` are marked deleted. */
  function Erased(slots: seq<Slot>, i: nat, top: nat): seq<Slot> {
    if slots == [] then []
    else if i == top then Junks(Size(slots[0])) + slots[1..]
    else [slots[0]] + Erased(slots[1..], i + Size(slots[0]), top)
  }

  ghost predicate Deleted(d: seq<Byte>, was: seq<Byte>, top: nat, n: nat) {
    && |d| == |was| && 32 * (top + n) <= |d|
    && (forall t :: top <= t < top + n ==> Ent(d, t)[0] == 0xE5)
    && (forall t: nat :: 32 * t + 32 <= |d| && !(top <= t < top + n) ==> Ent(d, t) == Ent(was, t))
  }

  lemma {:induction false} JunksLay(d: seq<Byte>, i: nat, n: nat, rest: seq<Slot>)
    requires 32 * (i + n) <= |d| && (forall t :: i <= t < i + n ==> Ent(d, t)[0] == DDEM) && Lays(d, i + n, rest)
    ensures Lays(d, i, Junks(n) + rest) && Files(Junks(n) + rest) == Files(rest)
    decreases n
  {
    hide Lays, Files;
    if n == 0 {
      assert Junks(n) + rest == rest;
    } else {
      JunksLay(d, i + 1, n - 1, rest);
      assert Ent(d, i)[0] == DDEM;
      LaysCons(d, i, Junk, Junks(n - 1) + rest);
      FilesCons(Junk, Junks(n - 1) + rest);
      assert Junks(n) + rest == [Junk] + (Junks(n - 1) + rest);
    }
  }

  /** A deleted slot leaves a table that lays out every other file. */
  lemma {:induction false} ErasedLays(d: seq<Byte>, was: seq<Byte>, i: nat, slots: seq<Slot>, top: nat, s: Slot)
    requires Lays(was, i, slots) && StandsAt(slots, i, top, s) && s.File? && Deleted(d, was, top, Size(s))
    ensures Lays(d, i, Erased(slots, i, top))
    ensures FilesBefore(slots, i, top) <= |Files(Erased(slots, i, top))|
    ensures Files(slots) == Inserted(Files(Erased(slots, i, top)), FilesBefore(slots, i, top), s)
    decreases |slots|
  {
    hide SlotAt, Files, Inserted;
    if i == top {
      LaysKept(d, was, i + Size(s), slots[1..]);
      JunksLay(d, i, Size(s), slots[1..]);
      InsertedFirst(Erased(slots, i, top), slots[1..], s);
      assert [s] + slots[1..] == slots;
    } else {
      var rest := Erased(slots[1..], i + Size(slots[0]), top);
      StandsPast(slots[1..], i + Size(slots[0]), top, s);
      SlotKept(d, was, i, slots[0]);
      ErasedLays(d, was, i + Size(slots[0]), slots[1..], top, s);
      assert Erased(slots, i, top)[1..] == rest;
      InsertedDeeper([slots[0]] + rest, slots[1..], FilesBefore(slots[1..], i + Size(slots[0]), top), s);
      assert ([slots[0]] + rest)[1..] == rest && [slots[0]] + slots[1..] == slots;
    }
  }

  lemma StandsPast(slots: seq<Slot>, i: nat, top: nat, s: Slot)
    requires StandsAt(slots, i, top, s)
    ensures i <= top
  {
  }

  lemma {:induction false} FirstStands(slots: seq<Slot>, i: nat, p: Slot -> bool)
    requires FirstSlot(slots, i, p).Hit?
    ensures var h := FirstSlot(slots, i, p); StandsAt(slots, i, h.top, h.slot)
    decreases |slots|
  {
    if !p(slots[0]) {
      FirstStands(slots[1..], i + Size(slots[0]), p);
      var h := FirstSlot(slots, i, p);
      StandsPast(slots[1..], i + Size(slots[0]), h.top, h.slot);
    }
  }

  /** dir_remove, at the slot dir_find stopped at. */
  method DirRemove(d: array<Byte>, last: nat, blk: nat, ghost top: nat, ghost s: Slot)
    requires s.File? && SlotAt(d[..], top, s) && last == 32 * (top + Parts(s.name))
    requires blk == 32 * top || (s.name == [] && blk == NO_BLOCK)
    modifies d
    ensures Deleted(d[..], old(d[..]), top, Size(s))
  {
    hide SlotAt;
    assert 32 * (top + Size(s)) <= d.Length by {
      SlotFits(d[..], top, s);
    }
    var dptr := if blk == NO_BLOCK then last else blk;
    ghost var t: nat := top;
    while true
      invariant dptr == 32 * t <= last && top <= t
      invariant Deleted(d[..], old(d[..]), top, t - top)
      decreases last - dptr
    {
      ghost var was := d[..];
      d[dptr] := DDEM;
      OtherEntries(d[..], was, t);
      assert Ent(d[..], t)[0] == d[dptr];
      t := t + 1;
      if dptr >= last {
        break;
      }
      dptr := dptr + 32;
    }
  }

  lemma SlotFits(d: seq<Byte>, i: nat, s: Slot)
    requires SlotAt(d, i, s)
    ensures 32 * (i + Size(s)) <= |d|
  {
  }

  /** Registering a name not yet there: the table lays out the files of before and the new
      one, at its place, and dir_find stops there. */
  method CreateThenFind(lfn: array<Unit>, d: array<Byte>, fn: seq<Byte>, up: Unit -> Unit, ghost name: seq<Unit>,
                        ghost slots: seq<Slot>)
      returns (res: FResult, found: FResult, dptr: nat, blk: nat, ghost k: nat)
    requires lfn as object != d && HoldsName(lfn[..], name) && IsName(name) && IsUpcase(up)
    requires |fn| == 12 && fn[0] != 0 && fn[0] != DDEM && 0 < d.Length && Lays(d[..], 0, slots)
    requires FirstSlot(slots, 0, Carrying(name, fn, up)) == Miss && Carrying(name, fn, up)(Registered(fn, name))
    modifies d
    ensures res in {FR_OK, FR_DENIED, FR_INVALID_NAME} && (res == FR_INVALID_NAME <==> Unusable(fn))
    ensures res == FR_DENIED ==> forall m: nat :: !FreeRun(old(d[..]), m, Size(Registered(fn, name)))
    ensures res != FR_OK ==> d[..] == old(d[..]) && found == FR_NO_FILE
    ensures res == FR_OK ==> var s, now := Registered(fn, name), Placed(slots, 0, k, Registered(fn, name));
      && Lays(d[..], 0, now) && Files(now) == Inserted(Files(slots), FilesBefore(slots, 0, k), s)
      && StandsAt(now, 0, k, s) && SlotAt(d[..], k, s) && FilesBefore(now, 0, k) == FilesBefore(slots, 0, k)
      && found == FR_OK && dptr == 32 * (k + Parts(s.name)) && blk == if s.name == [] || NoLfn(fn) then NO_BLOCK else 32 * k
  {
    assert lfn.Length == MAX_LFN + 1;
    hide Lays, SlotAt, IsName, HoldsName, FreeRun, Files, Inserted, Carrying, Registered;
    LaysWhole(d[..], 0, slots);
    ghost var was := d[..];
    found, dptr, blk := FR_NO_FILE, 0, NO_BLOCK;
    res, k := DirRegister(lfn, d, fn, name);
    if res == FR_OK {
      ghost var s := Registered(fn, name);
      SlotFits(d[..], k, s);
      BlockKept(d[..], was, k, Size(s));
      PlacedLays(d[..], was, 0, slots, k, s, Carrying(name, fn, up));
      found, dptr, blk := DirFind(lfn, d, fn, up, name, Placed(slots, 0, k, s));
    }
  }

  /** Removing the file dir_find stopped at leaves every other file, in the same order. */
  method RemoveFound(d: array<Byte>, dptr: nat, blk: nat, ghost slots: seq<Slot>, ghost top: nat, ghost s: Slot)
    requires Lays(d[..], 0, slots) && StandsAt(slots, 0, top, s) && s.File? && SlotAt(d[..], top, s)
    requires dptr == 32 * (top + Parts(s.name)) && (blk == 32 * top || (s.name == [] && blk == NO_BLOCK))
    modifies d
    ensures Lays(d[..], 0, Erased(slots, 0, top)) && FilesBefore(slots, 0, top) <= |Files(Erased(slots, 0, top))|
    ensures Files(slots) == Inserted(Files(Erased(slots, 0, top)), FilesBefore(slots, 0, top), s)
  {
    hide Lays, SlotAt, Deleted, Files, Inserted;
    ghost var was := d[..];
    DirRemove(d, dptr, blk, top, s);
    ErasedLays(d[..], was, 0, slots, top, s);
  }

  /** A file created, found and removed again: the files of before are there, and no other. */
  method CreateFindRemove(lfn: array<Unit>, d: array<Byte>, fn: seq<Byte>, up: Unit -> Unit, ghost name: seq<Unit>,
                          ghost slots: seq<Slot>)
      returns (res: FResult, ghost k: nat)
    requires lfn as object != d && HoldsName(lfn[..], name) && IsName(name) && IsUpcase(up)
    requires |fn| == 12 && fn[0] != 0 && fn[0] != DDEM && 0 < d.Length && Lays(d[..], 0, slots)
    requires FirstSlot(slots, 0, Carrying(name, fn, up)) == Miss && Carrying(name, fn, up)(Registered(fn, name)) && !NoLfn(fn)
    modifies d
    ensures res in {FR_OK, FR_DENIED, FR_INVALID_NAME} && (res == FR_INVALID_NAME <==> Unusable(fn))
    ensures res == FR_DENIED ==> forall m: nat :: !FreeRun(old(d[..]), m, Size(Registered(fn, name)))
    ensures res != FR_OK ==> d[..] == old(d[..])
    ensures res == FR_OK ==> var after := Erased(Placed(slots, 0, k, Registered(fn, name)), 0, k);
      Lays(d[..], 0, after) && Files(after) == Files(slots)
  {
    hide Lays, SlotAt, IsName, HoldsName, FreeRun, Files, Inserted, Carrying, Registered;
    var found, dptr, blk;
    res, found, dptr, blk, k := CreateThenFind(lfn, d, fn, up, name, slots);
    if res == FR_OK {
      ghost var s := Registered(fn, name);
      ghost var now := Placed(slots, 0, k, s);
      RemoveFound(d, dptr, blk, now, k, s);
      InsertedInjective(Files(Erased(now, 0, k)), Files(slots), FilesBefore(slots, 0, k), s);
    }
  }

  lemma BlockKept(d: seq<Byte>, was: seq<Byte>, k: nat, n: nat)
    requires |d| == |was| && 32 * (k + n) <= |d|
    requires d[..32 * k] == was[..32 * k] && d[32 * (k + n)..] == was[32 * (k + n)..]
    ensures forall t: nat :: 32 * t + 32 <= |d| && !(k <= t < k + n) ==> Ent(d, t) == Ent(was, t)
  {
    forall t: nat | 32 * t + 32 <= |d| && !(k <= t < k + n) ensures Ent(d, t) == Ent(was, t) {
      if t < k {
        assert 32 * t + 32 <= 32 * k;
        assert Ent(d, t) == d[..32 * k][32 * t..32 * t + 32] && Ent(was, t) == was[..32 * k][32 * t..32 * t + 32];
      } else {
        var c := 32 * (k + n);
        assert Ent(d, t) == d[c..][32 * t - c..32 * t + 32 - c] && Ent(was, t) == was[c..][32 * t - c..32 * t + 32 - c];
      }
    }
  }

  lemma InsertedInjective(a: seq<Slot>, b: seq<Slot>, t: nat, s: Slot)
    requires t <= |a| && t <= |b| && Inserted(a, t, s) == Inserted(b, t, s)
    ensures a == b
  {
    assert a == Inserted(a, t, s)[..t] + Inserted(a, t, s)[t + 1..];
    assert b == Inserted(b, t, s)[..t] + Inserted(b, t, s)[t + 1..];
  }
}
