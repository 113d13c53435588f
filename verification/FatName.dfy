/** Long file names: how a name is cut into directory entries of 13 UTF-16 units, and how
    the entries of a directory table are read back, searched, registered and removed
    (Microsoft FAT32 File System Specification 1.03, section "FAT Long Directory Entries").

    A directory table is the byte array of its clusters; an entry is reached by its byte
    offset, and dir_next is a step of 32 bytes. */
module FatName {
  import opened FatLayout

  type Unit = x: int | 0 <= x < 0x1_0000 witness 0
  type Dirent = e: seq<Byte> | |e| == 32 witness seq(32, _ => 0)

  const MAX_LFN := 255
  const LLEF := 64
  const DDEM := 0xE5
  const AM_LFN := 15
  const NO_BLOCK := 0xFFFF_FFFF

  function LfnOfs(s: nat): nat
    requires s < 13
  {
    if s < 5 then 1 + 2 * s else if s < 11 then 4 + 2 * s else 6 + 2 * s
  }

  function CharAt(e: Dirent, s: nat): Unit
    requires s < 13
  {
    Word(e[LfnOfs(s)], e[LfnOfs(s) + 1])
  }

  /** Where an entry has its characters, low byte first. */
  lemma CharPlaces(e: Dirent, s: nat)
    requires s < 13
    ensures var places := [1, 3, 5, 7, 9, 14, 16, 18, 20, 22, 24, 28, 30];
      places[s] + 1 < 32 && CharAt(e, s) as int == e[places[s]] as int + 0x100 * e[places[s] + 1] as int
  {
    assert LfnOfs(s) == [1, 3, 5, 7, 9, 14, 16, 18, 20, 22, 24, 28, 30][s];
  }

  ghost predicate IsName(name: seq<Unit>) {
    && 0 < |name| <= MAX_LFN
    && forall k :: 0 <= k < |name| ==> name[k] != 0 && name[k] != 0xFFFF
  }

  /** The name as the entries store it: closed by a 0, then filled up. */
  function Padded(name: seq<Unit>, k: nat): Unit {
    if k < |name| then name[k] else if k == |name| then 0 else 0xFFFF
  }

  function Parts(name: seq<Unit>): nat { (|name| + 12) / 13 }

  function OrdOf(name: seq<Unit>, ord: nat): nat {
    if ord == Parts(name) then ord + LLEF else ord
  }

  /** The characters of `name` from `head` on, as the 13 slots of an entry hold them. */
  ghost predicate HasChars(e: Dirent, name: seq<Unit>, head: nat) {
    forall s :: 0 <= s < 13 ==> CharAt(e, s) == Padded(name, head + s)
  }

  lemma OrdElsewhere(e: Dirent, b: Byte, name: seq<Unit>, head: nat)
    requires HasChars(e, name, head)
    ensures HasChars(e[0 := b], name, head)
  {
    var f := e[0 := b];
    forall s | 0 <= s < 13 ensures CharAt(f, s) == Padded(name, head + s) {
      assert CharAt(e, s) == Padded(name, head + s);
      assert LfnOfs(s) > 0;
    }
  }

  /** Part `ord` (counted from 1) of a name, with the check sum of its short entry. */
  ghost predicate IsPart(e: Dirent, name: seq<Unit>, ord: nat, sum: Byte) {
    && 1 <= ord <= Parts(name)
    && e[0] == OrdOf(name, ord) && e[11] == AM_LFN && e[12] == 0 && e[13] == sum
    && e[26] == 0 && e[27] == 0
    && HasChars(e, name, (ord - 1) * 13)
  }

  /** The bytes of such a part: its number, with bit 6 in the last one of the name, the
      marks of a long entry, and the characters. */
  lemma PartStored(e: Dirent, name: seq<Unit>, ord: nat, sum: Byte, s: nat)
    requires IsName(name) && IsPart(e, name, ord, sum) && s < 13
    ensures e[0] == ord + (if 13 * ord >= |name| then 0x40 else 0) && 13 * (ord - 1) < |name|
    ensures e[11] == 0x0F && e[12] == 0 && e[13] == sum && e[26] == 0 && e[27] == 0
    ensures var places, at := [1, 3, 5, 7, 9, 14, 16, 18, 20, 22, 24, 28, 30], 13 * (ord - 1) + s;
      e[places[s]] as int + 0x100 * e[places[s] + 1] as int == if at < |name| then name[at] else if at == |name| then 0 else 0xFFFF
  {
    hide CharAt;
    CharPlaces(e, s);
    assert CharAt(e, s) == Padded(name, (ord - 1) * 13 + s);
  }

  /** A buffer holding a 0-terminated name, with anything behind the 0. */
  ghost predicate HoldsName(buf: seq<Unit>, name: seq<Unit>) {
    |buf| == MAX_LFN + 1 && |name| <= MAX_LFN && buf[..|name|] == name && buf[|name|] == 0
  }

  method StWord(d: array<Byte>, o: nat, w: Unit)
    requires o + 2 <= d.Length
    modifies d
    ensures Word(d[o], d[o + 1]) == w
    ensures forall k :: 0 <= k < d.Length && k != o && k != o + 1 ==> d[k] == old(d[k])
  {
    d[o], d[o + 1] := w % 256, w / 256;
  }

  /** The bytes of `d` outside the entry at `o` are those of `was`. */
  ghost predicate OnlyEntry(d: seq<Byte>, was: seq<Byte>, o: nat) {
    |d| == |was| && o + 32 <= |d| && d[..o] == was[..o] && d[o + 32..] == was[o + 32..]
  }

  /** The loop of put_lfn. */
  method PutChars(lfn: array<Unit>, d: array<Byte>, o: nat, head: nat, ghost name: seq<Unit>) returns (i: nat, wc: Unit)
    requires lfn as object != d && IsName(name) && HoldsName(lfn[..], name)
    requires head < |name| && o + 32 <= d.Length
    modifies d
    ensures if wc == 0xFFFF then |name| < head + 13 else i == head + 13 <= |name|
    ensures HasChars(d[o..o + 32], name, head)
    ensures forall k :: 0 <= k < d.Length && !(o <= k < o + 32 && k - o !in {0, 11, 12, 13, 26, 27}) ==> d[k] == old(d[k])
  {
    var s := 0;
    i, wc := head, 0;
    while true
      invariant 0 <= s < 13
      invariant wc == 0 ==> s == 0
      invariant wc != 0xFFFF ==> i == head + s && i <= |name|
      invariant wc == 0xFFFF ==> head + s > |name|
      invariant forall k :: 0 <= k < s ==> Word(d[o + LfnOfs(k)], d[o + LfnOfs(k) + 1]) == Padded(name, head + k)
      invariant forall k :: 0 <= k < d.Length && !(o <= k < o + 32 && k - o !in {0, 11, 12, 13, 26, 27}) ==> d[k] == old(d[k])
      decreases 13 - s
    {
      if wc != 0xFFFF {
        assert lfn[..][i] == lfn[i] && (i < |name| ==> lfn[..][..|name|][i] == name[i]);
        wc := lfn[i];
        i := i + 1;
      }
      assert wc == Padded(name, head + s);
      StWord(d, o + LfnOfs(s), wc);
      if wc == 0 {
        wc := 0xFFFF;
      }
      s := s + 1;
      if s == 13 {
        break;
      }
    }
  }

  /** put_lfn */
  method PutLfn(lfn: array<Unit>, d: array<Byte>, o: nat, ord: nat, sum: Byte, ghost name: seq<Unit>)
    requires lfn as object != d && IsName(name) && HoldsName(lfn[..], name)
    requires 1 <= ord <= Parts(name) && o + 32 <= d.Length
    modifies d
    ensures IsPart(d[o..o + 32], name, ord, sum) && OnlyEntry(d[..], old(d[..]), o)
  {
    d[o + 13] := sum;
    d[o + 11] := AM_LFN;
    d[o + 12] := 0;
    StWord(d, o + 26, 0);
    assert d[o + 26] == 0 && d[o + 27] == 0;
    hide Word, IsName, HasChars;
    var i, wc := PutChars(lfn, d, o, (ord - 1) * 13, name);
    ghost var e := d[o..o + 32];
    assert i < |name| ==> lfn[..][..|name|][i] == name[i];
    var b: Byte := ord;
    if wc == 0xFFFF || lfn[i] == 0 {
      b := b + LLEF;
    }
    d[o] := b;
    assert d[o..o + 32] == e[0 := b];
    OrdElsewhere(e, b, name, (ord - 1) * 13);
  }

  /** ld_word of character `s` of the entry at `o`. */
  function LdChar(d: array<Byte>, o: nat, s: nat): (wc: Unit)
    requires o + 32 <= d.Length && s < 13
    reads d
    ensures wc == CharAt(d[o..o + 32], s)
  {
    Word(d[o + LfnOfs(s)], d[o + LfnOfs(s) + 1])
  }

  predicate IsLast(b: Byte) { b / LLEF % 2 == 1 }

  function NoLast(b: Byte): Byte { if IsLast(b) then b - LLEF else b }

  /** The first 0 among the characters of an entry from `s` on, 13 if there is none. */
  function FirstZero(e: Dirent, s: nat): (z: nat)
    requires s <= 13
    ensures s <= z <= 13
    ensures forall t :: s <= t < z ==> CharAt(e, t) != 0
    ensures z < 13 ==> CharAt(e, z) == 0
    decreases 13 - s
  {
    if s == 13 || CharAt(e, s) == 0 then s else FirstZero(e, s + 1)
  }

  /** How many characters an entry carries, its 0 included. */
  function Carried(e: Dirent): nat {
    var z := FirstZero(e, 0);
    if z == 13 then 13 else z + 1
  }

  /** Nothing but filler behind the 0, and the field that must be 0. */
  ghost predicate WellFilled(e: Dirent) {
    && e[26] == 0 && e[27] == 0
    && forall s :: Carried(e) <= s < 13 ==> CharAt(e, s) == 0xFFFF
  }

  /** The characters of `e` fit the name buffer at `at`, and the 0 that pick_lfn adds. */
  ghost predicate Fits(e: Dirent, at: nat) {
    && at + Carried(e) <= MAX_LFN + 1
    && (IsLast(e[0]) && FirstZero(e, 0) == 13 ==> at + 13 <= MAX_LFN)
  }

  /** The buffer once the characters of `e` are stored in it. */
  ghost predicate Stored(buf: seq<Unit>, was: seq<Unit>, e: Dirent, at: nat) {
    && |buf| == |was| == MAX_LFN + 1 && Fits(e, at)
    && (forall s :: 0 <= s < Carried(e) ==> buf[at + s] == CharAt(e, s))
    && (IsLast(e[0]) && FirstZero(e, 0) == 13 ==> buf[at + 13] == 0)
    && (forall k :: 0 <= k < at && k < |buf| ==> buf[k] == was[k])
    && (forall k :: at + (if IsLast(e[0]) then 14 else 13) <= k < |buf| ==> buf[k] == was[k])
  }

  /** pick_lfn */
  method PickLfn(lfn: array<Unit>, d: array<Byte>, o: nat) returns (ok: bool)
    requires lfn as object != d && lfn.Length == MAX_LFN + 1 && o + 32 <= d.Length
    modifies lfn
    ensures var e := d[o..o + 32]; var n := NoLast(e[0]);
      && (ok <==> WellFilled(e) && n > 0 && Fits(e, (n - 1) * 13))
      && (ok ==> Stored(lfn[..], old(lfn[..]), e, (n - 1) * 13))
  {
    ghost var e: Dirent := d[o..o + 32];
    if Word(d[o + 26], d[o + 27]) != 0 {
      return false;
    }
    if NoLast(d[o]) == 0 {  // the unsigned offset lies far behind the buffer
      return false;
    }
    var at: nat := (NoLast(d[o]) - 1) * 13;
    ok := PickChars(lfn, d, o, at);
  }

  method PickChars(lfn: array<Unit>, d: array<Byte>, o: nat, at: nat) returns (ok: bool)
    requires lfn as object != d && lfn.Length == MAX_LFN + 1 && o + 32 <= d.Length
    requires d[o + 26] == 0 && d[o + 27] == 0
    modifies lfn
    ensures ok <==> WellFilled(d[o..o + 32]) && Fits(d[o..o + 32], at)
    ensures ok ==> Stored(lfn[..], old(lfn[..]), d[o..o + 32], at)
  {
    hide LdChar, CharAt, LfnOfs, FirstZero;
    ghost var e: Dirent := d[o..o + 32];
    var i, wc: Unit, s := at, 1, 0;
    while s < 13
      invariant 0 <= s <= 13
      invariant wc != 0 <==> s <= FirstZero(e, 0)
      invariant i == at + if wc != 0 then s else Carried(e)
      invariant i <= MAX_LFN + 1 || s == 0
      invariant forall t :: Carried(e) <= t < s ==> CharAt(e, t) == 0xFFFF
      invariant forall t :: 0 <= t < s && t < Carried(e) ==> lfn[at + t] == CharAt(e, t)
      invariant forall k :: 0 <= k < lfn.Length && !(at <= k < i) ==> lfn[k] == old(lfn[k])
    {
      var uc := LdChar(d, o, s);
      if wc != 0 {
        if i >= MAX_LFN + 1 {
          return false;
        }
        wc := uc;
        lfn[i] := uc;
        i := i + 1;
      } else if uc != 0xFFFF {
        return false;
      }
      s := s + 1;
    }
    if IsLast(d[o]) && wc != 0 {
      if i >= MAX_LFN + 1 {
        return false;
      }
      lfn[i] := 0;
    }
    ok := true;
  }

  /** ff_wtoupper is a parameter; all that is used of it is that it sends only 0 to 0. */
  ghost predicate IsUpcase(up: Unit -> Unit) {
    forall u: Unit :: up(u) == 0 <==> u == 0
  }

  /** The characters of `e` match the buffer at `at`, up to case. */
  ghost predicate Same(buf: seq<Unit>, e: Dirent, at: nat, up: Unit -> Unit) {
    && at + Carried(e) <= |buf|
    && (forall s :: 0 <= s < Carried(e) ==> up(CharAt(e, s)) == up(buf[at + s]))
    && (IsLast(e[0]) && FirstZero(e, 0) == 13 && at + 13 < |buf| ==> buf[at + 13] == 0)
  }

  /** cmp_lfn */
  method CmpLfn(lfn: array<Unit>, d: array<Byte>, o: nat, up: Unit -> Unit) returns (ok: bool)
    requires lfn.Length == MAX_LFN + 1 && o + 32 <= d.Length
    ensures var e := d[o..o + 32]; var n: int := d[o] % 64;
      ok <==> WellFilled(e) && n > 0 && Same(lfn[..], e, (n - 1) * 13, up)
  {
    ghost var e: Dirent := d[o..o + 32];
    if Word(d[o + 26], d[o + 27]) != 0 {
      return false;
    }
    if d[o] % 64 == 0 {  // the unsigned offset lies far behind the buffer
      return false;
    }
    ok := CmpChars(lfn, d, o, d[o] % 64 - 1, up);
  }

  method CmpChars(lfn: array<Unit>, d: array<Byte>, o: nat, part: nat, up: Unit -> Unit) returns (ok: bool)
    requires lfn.Length == MAX_LFN + 1 && o + 32 <= d.Length
    requires d[o + 26] == 0 && d[o + 27] == 0
    ensures ok <==> WellFilled(d[o..o + 32]) && Same(lfn[..], d[o..o + 32], part * 13, up)
  {
    hide LdChar, CharAt, LfnOfs, FirstZero;
    ghost var e: Dirent := d[o..o + 32];
    ghost var at := part * 13;
    var i, wc: Unit, s := part * 13, 1, 0;
    while s < 13
      invariant 0 <= s <= 13
      invariant wc != 0 <==> s <= FirstZero(e, 0)
      invariant i == at + if wc != 0 then s else Carried(e)
      invariant i <= MAX_LFN + 1 || s == 0
      invariant forall t :: Carried(e) <= t < s ==> CharAt(e, t) == 0xFFFF
      invariant forall t :: 0 <= t < s && t < Carried(e) ==> up(CharAt(e, t)) == up(lfn[at + t])
    {
      var uc := LdChar(d, o, s);
      if wc != 0 {
        if i >= MAX_LFN + 1 || up(uc) != up(lfn[i]) {
          return false;
        }
        i := i + 1;
        wc := uc;
      } else if uc != 0xFFFF {
        return false;
      }
      s := s + 1;
    }
    if IsLast(d[o]) && wc != 0 && lfn[i] != 0 {
      return false;
    }
    ok := true;
  }

  // ----- one name, all its parts ------------------------------------------------------

  lemma PartShape(e: Dirent, name: seq<Unit>, ord: nat, sum: Byte)
    requires IsName(name) && IsPart(e, name, ord, sum)
    ensures WellFilled(e) && Fits(e, (ord - 1) * 13)
    ensures NoLast(e[0]) == e[0] % 64 == ord <= 20 && (IsLast(e[0]) <==> ord == Parts(name))
    ensures FirstZero(e, 0) == if 13 * ord <= |name| then 13 else |name| - 13 * (ord - 1)
  {
    hide CharAt, FirstZero;
    var z := FirstZero(e, 0);
    var head := 13 * (ord - 1);
    assert forall s :: 0 <= s < 13 ==> CharAt(e, s) == Padded(name, head + s);
    if z < 13 {
      assert CharAt(e, z) == 0;
    }
    if |name| < 13 * ord {
      assert CharAt(e, |name| - head) == 0;
    }
  }

  /** The buffer agrees with the name from `from` on, its 0 included. */
  ghost predicate HoldsFrom(buf: seq<Unit>, name: seq<Unit>, from: nat) {
    |buf| == MAX_LFN + 1 && |name| <= MAX_LFN && forall k :: from <= k <= |name| ==> buf[k] == Padded(name, k)
  }

  ghost predicate MatchFrom(buf: seq<Unit>, name: seq<Unit>, from: nat, up: Unit -> Unit) {
    |buf| == MAX_LFN + 1 && |name| <= MAX_LFN && forall k :: from <= k <= |name| ==> up(buf[k]) == up(Padded(name, k))
  }

  /** A part stored in the buffer extends what the buffer holds of the name to its front. */
  lemma PartPicked(buf: seq<Unit>, was: seq<Unit>, e: Dirent, name: seq<Unit>, ord: nat, sum: Byte)
    requires IsName(name) && IsPart(e, name, ord, sum) && Stored(buf, was, e, (ord - 1) * 13)
    requires ord < Parts(name) ==> HoldsFrom(was, name, 13 * ord)
    ensures HoldsFrom(buf, name, 13 * (ord - 1))
  {
    hide CharAt, FirstZero;
    PartShape(e, name, ord, sum);
    var head := 13 * (ord - 1);
    forall k | head <= k <= |name| ensures buf[k] == Padded(name, k) {
      if k < head + Carried(e) {
        assert buf[head + (k - head)] == CharAt(e, k - head) == Padded(name, head + (k - head));
      }
    }
  }

  lemma PartMatched(buf: seq<Unit>, e: Dirent, name: seq<Unit>, ord: nat, sum: Byte, up: Unit -> Unit)
    requires IsName(name) && IsPart(e, name, ord, sum) && |buf| == MAX_LFN + 1 && IsUpcase(up)
    requires ord < Parts(name) ==> MatchFrom(buf, name, 13 * ord, up)
    ensures Same(buf, e, (ord - 1) * 13, up) <==> MatchFrom(buf, name, 13 * (ord - 1), up)
  {
    hide CharAt, FirstZero;
    PartShape(e, name, ord, sum);
    var head := 13 * (ord - 1);
    if Same(buf, e, head, up) {
      forall k | head <= k <= |name| ensures up(buf[k]) == up(Padded(name, k)) {
        if k < head + Carried(e) {
          assert up(CharAt(e, k - head)) == up(buf[head + (k - head)]);
          assert CharAt(e, k - head) == Padded(name, head + (k - head));
        }
      }
    }
    if MatchFrom(buf, name, head, up) {
      forall s | 0 <= s < Carried(e) ensures up(CharAt(e, s)) == up(buf[head + s]) {
        assert CharAt(e, s) == Padded(name, head + s);
      }
      assert up(0) == 0;
    }
  }

  predicate EqualUp(q: seq<Unit>, name: seq<Unit>, up: Unit -> Unit) {
    |q| == |name| && forall k :: 0 <= k < |q| ==> up(q[k]) == up(name[k])
  }

  /** Comparing the buffer up to the 0 of the name compares the names, whatever lies
      behind the 0 of the query. */
  lemma MatchIsEqual(buf: seq<Unit>, q: seq<Unit>, name: seq<Unit>, up: Unit -> Unit)
    requires HoldsName(buf, q) && IsName(q) && IsName(name) && IsUpcase(up)
    ensures MatchFrom(buf, name, 0, up) <==> EqualUp(q, name, up)
  {
    assert forall k :: 0 <= k < |q| ==> buf[k] == buf[..|q|][k];
    assert up(0) == 0;
    if MatchFrom(buf, name, 0, up) {
      var shorter := if |q| < |name| then |q| else |name|;
      assert up(buf[shorter]) == up(Padded(name, shorter));
      forall k | 0 <= k < |q| ensures up(q[k]) == up(name[k]) {
        assert up(buf[k]) == up(Padded(name, k));
      }
    }
  }
}
