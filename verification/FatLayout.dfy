/** On-disk layout of a FAT volume and how FAT entries are packed into sectors
    (Microsoft FAT32 File System Specification 1.03, section "FAT Data Structure").

    Everything here is a pure function of the sectors `v` a volume shows once its
    access window is flushed.  A FAT entry is decoded from single FAT bytes, so that
    an entry straddling two sectors needs no special case. */
module FatLayout {
  import opened Arith

  type Byte = x: int | 0 <= x < 256 witness 0
  type Sector = s: seq<Byte> | |s| == 512 witness seq(512, _ => 0)

  datatype FResult = FR_OK | FR_INT_ERR | FR_NO_FILE | FR_INVALID_NAME | FR_DENIED | FR_NOT_ENOUGH_CORE

  datatype FatKind = Fat12 | Fat16 | Fat32

  /** The fields of FATFS that mount_volume fixes. */
  datatype Geometry = Geometry(
    kind: FatKind, nFats: nat, csize: nat, nFatent: nat, fsize: nat,
    volbase: nat, fatbase: nat, database: nat)
  {
    /** Bytes the table needs for nFatent entries. */
    function TableBytes(): nat {
      match kind
      case Fat12 => nFatent * 3 / 2 + nFatent % 2
      case Fat16 => nFatent * 2
      case Fat32 => nFatent * 4
    }

    /** What mount_volume checks of the boot sector, on a disk of `size` sectors. */
    ghost predicate Valid(size: nat) {
      && (nFats == 1 || nFats == 2)
      && PowerOfTwo(csize) && csize <= 128
      && 2 < nFatent
      && nFatent - 2 <= MaxClusters(kind)
      && TableBytes() <= fsize * 512
      && volbase < fatbase
      && fatbase + fsize + (if nFats == 2 then fsize else 0) <= database
      && database + (nFatent - 2) * csize <= size < 0x1_0000_0000
    }

    /** The part of it that concerns the table alone. */
    predicate FatFits(size: nat) {
      && 2 < nFatent && TableBytes() <= fsize * 512
      && fatbase + fsize + (if nFats == 2 then fsize else 0) <= size
    }

    /** The part that concerns the data area. */
    predicate DataFits(size: nat) {
      && 0 < csize && 2 < nFatent && 0 < database
      && fatbase + fsize + (if nFats == 2 then fsize else 0) <= database
      && database + (nFatent - 2) * csize <= size
    }

    lemma ValidFits(size: nat)
      requires Valid(size)
      ensures FatFits(size) && DataFits(size)
    {
    }

    predicate InFat1(s: nat) { fatbase <= s < fatbase + fsize }

    predicate InFatArea(s: nat) {
      fatbase <= s < fatbase + fsize + (if nFats == 2 then fsize else 0)
    }

    predicate InRange(c: nat) { 2 <= c < nFatent }
  }

  function MaxClusters(kind: FatKind): nat {
    match kind
    case Fat12 => 0xFF5
    case Fat16 => 0xFFF5
    case Fat32 => 0x0FFF_FFF5
  }

  /** Number of distinct values an entry holds. */
  function Width(kind: FatKind): nat {
    match kind
    case Fat12 => 0x1000
    case Fat16 => 0x1_0000
    case Fat32 => 0x1000_0000
  }

  /** The end-of-chain mark as create_chain and remove_chain write it. */
  const EOC: nat := 0xFFFF_FFFF

  // ------------------------------------------------------------------ FAT bytes

  /** The two copies of the table agree. */
  ghost predicate Mirrored(g: Geometry, v: seq<Sector>)
    requires g.FatFits(|v|)
  {
    g.nFats == 2 ==> forall s :: g.fatbase <= s < g.fatbase + g.fsize ==> v[s + g.fsize] == v[s]
  }

  /** Nothing outside the tables differs. */
  ghost predicate SameData(g: Geometry, v: seq<Sector>, w: seq<Sector>) {
    |w| == |v| && forall s :: 0 <= s < |v| && !g.InFatArea(s) ==> w[s] == v[s]
  }

  /** The bytes of the first table, end to end. */
  function Image(g: Geometry, v: seq<Sector>): (img: seq<Byte>)
    requires g.FatFits(|v|)
    ensures |img| == g.fsize * 512
  {
    seq(g.fsize * 512, o requires 0 <= o < g.fsize * 512 => v[g.fatbase + o / 512][o % 512])
  }

  /** `v` with one sector of the first table replaced, and its copy with it. */
  function SetFatSector(g: Geometry, v: seq<Sector>, s: nat, sec: Sector): (w: seq<Sector>)
    requires g.FatFits(|v|) && g.InFat1(s)
    ensures |w| == |v|
    ensures w[s] == sec
    ensures Mirrored(g, v) ==> Mirrored(g, w)
    ensures forall x :: 0 <= x < |v| && !g.InFatArea(x) ==> w[x] == v[x]
    ensures forall x: nat :: g.InFat1(x) && x != s ==> w[x] == v[x]
  {
    if g.nFats == 2 then v[s := sec][s + g.fsize := sec] else v[s := sec]
  }

  function SetFatByte(g: Geometry, v: seq<Sector>, off: nat, b: Byte): (w: seq<Sector>)
    requires g.FatFits(|v|) && off < g.fsize * 512
    ensures |w| == |v|
  {
    var s := g.fatbase + off / 512;
    SetFatSector(g, v, s, v[s][off % 512 := b])
  }

  /** Setting a byte through its sector is setting it in the image. */
  lemma SetFatByteImage(g: Geometry, v: seq<Sector>, off: nat, b: Byte)
    requires g.FatFits(|v|) && off < g.fsize * 512
    ensures var w := SetFatByte(g, v, off, b);
      && Image(g, w) == Image(g, v)[off := b]
      && (Mirrored(g, v) ==> Mirrored(g, w))
      && (forall x :: 0 <= x < |v| && !g.InFatArea(x) ==> w[x] == v[x])
  {
    var w := SetFatByte(g, v, off, b);
    forall o | 0 <= o < g.fsize * 512
      ensures Image(g, w)[o] == Image(g, v)[off := b][o]
    {
      assert o / 512 == off / 512 && o % 512 == off % 512 ==> o == off;
    }
  }

  // ------------------------------------------------------------------ FAT entries

  /** Offset of the first byte of entry `c`. */
  function EntryOffset(kind: FatKind, c: nat): nat {
    match kind
    case Fat12 => c + c / 2
    case Fat16 => 2 * c
    case Fat32 => 4 * c
  }

  lemma FirstEntry(kind: FatKind)
    ensures EntryOffset(kind, 0) == 0
  {
  }

  predicate EntryFits(kind: FatKind, size: nat, c: nat) {
    EntryOffset(kind, c) + (if kind.Fat32? then 4 else 2) <= size
  }

  lemma EntriesFit(g: Geometry, size: nat, c: nat)
    requires g.FatFits(size) && c < g.nFatent
    ensures EntryFits(g.kind, g.fsize * 512, c)
  {
  }

  /** A FAT16 or FAT32 entry lies in one sector, and the next one follows it there or
      starts the next sector. */
  lemma EntryInSector(kind: FatKind, c: nat)
    requires !kind.Fat12?
    ensures var o, w := EntryOffset(kind, c), if kind.Fat16? then 2 else 4;
      && (o + 1) / 512 == (o + w - 1) / 512 == (o + w - 2) / 512 == o / 512
      && EntryOffset(kind, c + 1) == o + w
      && (o % 512 + w) % 512 == (o + w) % 512
      && (o + w) / 512 == (if (o + w) % 512 == 0 then o / 512 + 1 else o / 512)
  {
    var o, w := EntryOffset(kind, c), if kind.Fat16? then 2 else 4;
    Aligned(o, c, w, 512 / w);
  }

  lemma Aligned(o: nat, c: nat, w: nat, n: nat)
    requires (w == 2 && n == 256) || (w == 4 && n == 128)
    requires o == w * c
    ensures (o + 1) / 512 == (o + w - 1) / 512 == (o + w - 2) / 512 == o / 512
    ensures (o % 512 + w) % 512 == (o + w) % 512
    ensures (o + w) / 512 == (if (o + w) % 512 == 0 then o / 512 + 1 else o / 512)
  {
    var q, r := c / n, c % n;
    DivModUnique(o, 512, q, w * r);
    DivModUnique(o + 1, 512, q, w * r + 1);
    DivModUnique(o + w - 1, 512, q, w * r + w - 1);
    DivModUnique(o + w - 2, 512, q, w * r + w - 2);
    if r == n - 1 {
      DivModUnique(o + w, 512, q + 1, 0);
    } else {
      DivModUnique(o + w, 512, q, w * r + w);
    }
  }

  /** The value of entry `c` (section "FAT Data Structure": FAT12 packs two entries
      in three bytes, FAT32 keeps its top four bits for others). */
  function Entry(kind: FatKind, img: seq<Byte>, c: nat): (e: nat)
    requires EntryFits(kind, |img|, c)
    ensures e < Width(kind)
  {
    var o := EntryOffset(kind, c);
    match kind
    case Fat12 => Unpacked12(c % 2 == 1, img[o], img[o + 1])
    case Fat16 => Word(img[o], img[o + 1])
    case Fat32 => Dword(img[o], img[o + 1], img[o + 2], img[o + 3]) % 0x1000_0000
  }

  /** Little-endian words. */
  function Word(b0: int, b1: int): int { b0 + 256 * b1 }

  function Dword(b0: int, b1: int, b2: int, b3: int): int {
    b0 + 256 * b1 + 0x1_0000 * b2 + 0x100_0000 * b3
  }

  /** A FAT12 entry from the two bytes it touches: twelve high bits when odd, low when even. */
  function Unpacked12(odd: bool, b0: int, b1: int): int {
    if odd then Word(b0, b1) / 16 else Word(b0, b1) % 4096
  }

  /** An odd entry ignores the low half of its first byte, an even one the high half of
      its second. */
  lemma Nibbles(b0: Byte, b1: Byte)
    ensures Unpacked12(true, b0, b1) == b0 / 16 + 16 * b1
    ensures Unpacked12(false, b0, b1) == b0 + 256 * (b1 % 16)
  {
    DivModUnique(Word(b0, b1), 16, b0 / 16 + 16 * b1, b0 % 16);
    DivModUnique(Word(b0, b1), 4096, b1 / 16, b0 + 256 * (b1 % 16));
  }

  /** Packing a FAT12 value in two bytes loses nothing of it or of the neighbour's half. */
  lemma Nibbles12(odd: bool, b0: Byte, b1: Byte, val: nat)
    ensures Unpacked12(odd, First12(odd, b0, val), Second12(odd, b1, val)) == val % 4096
    ensures First12(true, b0, val) % 16 == b0 % 16
    ensures Second12(false, b1, val) / 16 == b1 / 16
  {
    if odd {
      SplitMod(val, 16, 256);
      DivModUnique(b0 % 16 + 16 * (val % 16), 16, val % 16, b0 % 16);
    } else {
      SplitMod(val, 256, 16);
      DivModUnique(b1 / 16 * 16 + val / 256 % 16, 16, b1 / 16, val / 256 % 16);
    }
    Nibbles(First12(odd, b0, val), Second12(odd, b1, val));
  }

  lemma Bytes32(b3: Byte, val: nat)
    ensures Dword(val % 256, val / 256 % 256, val / 0x1_0000 % 256, Top32(b3, val)) % 0x1000_0000 == val % 0x1000_0000
    ensures Top32(b3, val) / 16 == b3 / 16
  {
    SplitMod(val, 0x100_0000, 16);
    SplitMod(val, 0x1_0000, 256);
    SplitMod(val, 256, 256);
    var n := val / 0x100_0000 % 16;
    DivModUnique(b3 / 16 * 16 + n, 16, b3 / 16, n);
    DivModUnique(val % 0x100_0000 + 0x100_0000 * (b3 / 16 * 16 + n), 0x1000_0000, b3 / 16, val % 0x1000_0000);
  }

  /** FAT32's four reserved bits of entry `c`. */
  function TopBits(img: seq<Byte>, c: nat): nat
    requires EntryFits(Fat32, |img|, c)
  {
    img[4 * c + 3] / 16
  }

  /** The bytes of an entry holding `val`, given the bytes `b` that were there. */
  function Packed(kind: FatKind, odd: bool, b: seq<Byte>, val: nat): (p: seq<Byte>)
    requires |b| == if kind.Fat32? then 4 else 2
    ensures |p| == |b|
  {
    match kind
    case Fat12 =>
      [First12(odd, b[0], val), Second12(odd, b[1], val)]
    case Fat16 => [val % 256, val / 256 % 256]
    case Fat32 =>
      [val % 256, val / 256 % 256, val / 0x1_0000 % 256, Top32(b[3], val)]
  }

  /** The first byte of a FAT12 entry: the low half of the old byte is the neighbour's. */
  function First12(odd: bool, p: Byte, val: nat): Byte {
    if odd then p % 16 + 16 * (val % 16) else val % 256
  }

  /** The second byte: the high half of the old byte is the neighbour's. */
  function Second12(odd: bool, p: Byte, val: nat): Byte {
    if odd then val / 16 % 256 else p / 16 * 16 + val / 256 % 16
  }

  /** The last byte of a FAT32 entry: its high half is reserved. */
  function Top32(p: Byte, val: nat): Byte {
    p / 16 * 16 + val / 0x100_0000 % 16
  }

  /** The image after storing `val` in entry `c`. */
  function StoreEntry(kind: FatKind, img: seq<Byte>, c: nat, val: nat): (r: seq<Byte>)
    requires EntryFits(kind, |img|, c)
    ensures |r| == |img|
  {
    var o := EntryOffset(kind, c);
    if kind.Fat32? then
      var p := Packed(kind, c % 2 == 1, img[o..o + 4], val);
      img[o := p[0]][o + 1 := p[1]][o + 2 := p[2]][o + 3 := p[3]]
    else
      var p := Packed(kind, c % 2 == 1, img[o..o + 2], val);
      img[o := p[0]][o + 1 := p[1]]
  }

  /** Storing then loading entry `c` yields the value cut to the entry's width, and
      FAT32's reserved bits are kept. */
  lemma StoredEntry(kind: FatKind, img: seq<Byte>, c: nat, val: nat)
    requires EntryFits(kind, |img|, c)
    ensures Entry(kind, StoreEntry(kind, img, c, val), c) == val % Width(kind)
    ensures kind.Fat32? ==> TopBits(StoreEntry(kind, img, c, val), c) == TopBits(img, c)
  {
    hide First12, Second12, Top32, Unpacked12, Dword;
    var o := EntryOffset(kind, c);
    match kind
    case Fat12 => Nibbles12(c % 2 == 1, img[o], img[o + 1], val);
    case Fat16 => SplitMod(val, 256, 256);
    case Fat32 => Bytes32(img[o + 3], val);
  }

  /** No other entry changes, although two FAT12 entries share a byte. */
  lemma OtherEntry(kind: FatKind, img: seq<Byte>, c: nat, val: nat, d: nat)
    requires EntryFits(kind, |img|, c) && EntryFits(kind, |img|, d) && c != d
    ensures Entry(kind, StoreEntry(kind, img, c, val), d) == Entry(kind, img, d)
    ensures kind.Fat32? ==> TopBits(StoreEntry(kind, img, c, val), d) == TopBits(img, d)
  {
    hide First12, Second12, Top32, Unpacked12, Dword, Word;
    var r, o, q := StoreEntry(kind, img, c, val), EntryOffset(kind, c), EntryOffset(kind, d);
    if kind.Fat12? {
      Nibbles12(true, img[o], img[o + 1], val);
      Nibbles12(false, img[o], img[o + 1], val);
      Nibbles(img[q], img[q + 1]);
      Nibbles(r[q], r[q + 1]);
    }
  }

  /** The whole table as a function from cluster to entry value. */
  function Table(g: Geometry, v: seq<Sector>): (t: seq<nat>)
    requires g.FatFits(|v|)
    ensures |t| == g.nFatent
    ensures forall c :: 0 <= c < |t| ==> t[c] < Width(g.kind)
  {
    seq(g.nFatent, c requires 0 <= c < g.nFatent =>
      EntriesFit(g, |v|, c); Entry(g.kind, Image(g, v), c))
  }

  /** Byte `o` of the table that begins at sector `base`, and its two halves. */
  ghost predicate ByteIs(v: seq<Sector>, base: nat, o: nat, b: nat) { base + o / 512 < |v| && v[base + o / 512][o % 512] == b }
  ghost predicate LowIs(v: seq<Sector>, base: nat, o: nat, b: nat) { base + o / 512 < |v| && v[base + o / 512][o % 512] % 16 == b }
  ghost predicate HighIs(v: seq<Sector>, base: nat, o: nat, b: nat) { base + o / 512 < |v| && v[base + o / 512][o % 512] / 16 == b }

  /** The bytes of the table at sector `base` give entry `c` as `val`, least significant byte
      first; the upper half of the last byte of a FAT32 entry is not part of it, and two FAT12
      entries share the middle one of three bytes. */
  ghost predicate EntryReads(kind: FatKind, v: seq<Sector>, base: nat, c: nat, val: nat) {
    match kind
    case Fat32 =>
      && ByteIs(v, base, 4 * c, val % 256) && ByteIs(v, base, 4 * c + 1, val / 256 % 256)
      && ByteIs(v, base, 4 * c + 2, val / 0x1_0000 % 256) && LowIs(v, base, 4 * c + 3, val / 0x100_0000)
    case Fat16 => ByteIs(v, base, 2 * c, val % 256) && ByteIs(v, base, 2 * c + 1, val / 256)
    case Fat12 =>
      if c % 2 == 0 then ByteIs(v, base, 3 * (c / 2), val % 256) && LowIs(v, base, 3 * (c / 2) + 1, val / 256)
      else HighIs(v, base, 3 * (c / 2) + 1, val % 16) && ByteIs(v, base, 3 * (c / 2) + 2, val / 16)
  }

  /** So the table reads, and so does its copy. */
  lemma TableReads(g: Geometry, v: seq<Sector>, c: nat)
    requires g.FatFits(|v|) && c < g.nFatent
    ensures EntryReads(g.kind, v, g.fatbase, c, Table(g, v)[c])
    ensures g.nFats == 2 && Mirrored(g, v) ==> EntryReads(g.kind, v, g.fatbase + g.fsize, c, Table(g, v)[c])
  {
    hide Image, ByteIs, LowIs, HighIs, Mirrored, Entry, EntryReads, EntryOffset;
    EntriesFit(g, |v|, c);
    var img, o := Image(g, v), EntryOffset(g.kind, c);
    var n := if g.kind.Fat32? then 4 else 2;
    forall k | o <= k < o + n
      ensures ByteIs(v, g.fatbase, k, img[k]) && (g.nFats == 2 && Mirrored(g, v) ==> ByteIs(v, g.fatbase + g.fsize, k, img[k]))
    {
      ImageByte(g, v, k);
    }
    ReadsFrom(g.kind, v, g.fatbase, img, c);
    if g.nFats == 2 && Mirrored(g, v) {
      ReadsFrom(g.kind, v, g.fatbase + g.fsize, img, c);
    }
  }

  lemma ImageByte(g: Geometry, v: seq<Sector>, k: nat)
    requires g.FatFits(|v|) && k < g.fsize * 512
    ensures ByteIs(v, g.fatbase, k, Image(g, v)[k])
    ensures g.nFats == 2 && Mirrored(g, v) ==> ByteIs(v, g.fatbase + g.fsize, k, Image(g, v)[k])
  {
  }

  lemma ReadsFrom(kind: FatKind, v: seq<Sector>, base: nat, img: seq<Byte>, c: nat)
    requires EntryFits(kind, |img|, c)
    requires forall k :: EntryOffset(kind, c) <= k < EntryOffset(kind, c) + (if kind.Fat32? then 4 else 2) ==> ByteIs(v, base, k, img[k])
    ensures EntryReads(kind, v, base, c, Entry(kind, img, c))
  {
    hide Entry, EntryOffset, ByteIs, LowIs, HighIs;
    EntryBytes(kind, img, c);
    var o := EntryOffset(kind, c);
    assert ByteIs(v, base, o, img[o]) && ByteIs(v, base, o + 1, img[o + 1]);
    match kind
    case Fat32 =>
      assert ByteIs(v, base, o + 2, img[o + 2]) && ByteIs(v, base, o + 3, img[o + 3]);
      Halves(v, base, o + 3, img[o + 3]);
    case Fat16 =>
    case Fat12 =>
      Halves(v, base, o, img[o]);
      Halves(v, base, o + 1, img[o + 1]);
  }

  lemma Halves(v: seq<Sector>, base: nat, o: nat, b: Byte)
    requires ByteIs(v, base, o, b)
    ensures LowIs(v, base, o, b % 16) && HighIs(v, base, o, b / 16)
  {
  }

  /** The digits of an entry are its bytes. */
  lemma EntryBytes(kind: FatKind, img: seq<Byte>, c: nat)
    requires EntryFits(kind, |img|, c)
    ensures var o, val := EntryOffset(kind, c), Entry(kind, img, c);
      match kind
      case Fat32 =>
        && o == 4 * c && val % 256 == img[o] && val / 256 % 256 == img[o + 1] && val / 0x1_0000 % 256 == img[o + 2]
        && val / 0x100_0000 == img[o + 3] % 16
      case Fat16 => o == 2 * c && val % 256 == img[o] && val / 256 == img[o + 1]
      case Fat12 =>
        if c % 2 == 0 then o == 3 * (c / 2) && val % 256 == img[o] && val / 256 == img[o + 1] % 16
        else o == 3 * (c / 2) + 1 && val % 16 == img[o] / 16 && val / 16 == img[o + 1]
  {
    var o := EntryOffset(kind, c);
    match kind
    case Fat32 => Digits32(img[o], img[o + 1], img[o + 2], img[o + 3]);
    case Fat16 => DivModUnique(Word(img[o], img[o + 1]), 256, img[o + 1], img[o]);
    case Fat12 => Digits12(img[o], img[o + 1]);
  }

  lemma Digits12(b0: int, b1: int)
    requires 0 <= b0 < 256 && 0 <= b1 < 256
    ensures Unpacked12(false, b0, b1) % 256 == b0 && Unpacked12(false, b0, b1) / 256 == b1 % 16
    ensures Unpacked12(true, b0, b1) % 16 == b0 / 16 && Unpacked12(true, b0, b1) / 16 == b1
  {
    Nibbles(b0, b1);
    DivModUnique(b0 + 256 * (b1 % 16), 256, b1 % 16, b0);
    DivModUnique(b0 / 16 + 16 * b1, 16, b1, b0 / 16);
  }

  lemma Digits32(b0: Byte, b1: Byte, b2: Byte, b3: Byte)
    ensures var val := Dword(b0, b1, b2, b3) % 0x1000_0000;
      && val % 256 == b0 && val / 256 % 256 == b1 && val / 0x1_0000 % 256 == b2 && val / 0x100_0000 == b3 % 16
  {
    var val := b0 + 256 * b1 + 0x1_0000 * b2 + 0x100_0000 * (b3 % 16);
    DivModUnique(Dword(b0, b1, b2, b3), 0x1000_0000, b3 / 16, val);
    DivModUnique(val, 256, b1 + 256 * b2 + 0x1_0000 * (b3 % 16), b0);
    DivModUnique(b1 + 256 * b2 + 0x1_0000 * (b3 % 16), 256, b2 + 256 * (b3 % 16), b1);
    DivModUnique(val, 0x1_0000, b2 + 256 * (b3 % 16), b0 + 256 * b1);
    DivModUnique(b2 + 256 * (b3 % 16), 256, b3 % 16, b2);
    DivModUnique(val, 0x100_0000, b3 % 16, b0 + 256 * b1 + 0x1_0000 * b2);
  }

  /** The same store, byte by byte into the sectors, both copies of the table. */
  function StoreInView(g: Geometry, v: seq<Sector>, c: nat, val: nat): (w: seq<Sector>)
    requires g.FatFits(|v|) && EntryFits(g.kind, g.fsize * 512, c)
    ensures |w| == |v|
  {
    var o := EntryOffset(g.kind, c);
    var img := Image(g, v);
    if g.kind.Fat32? then
      var p := Packed(g.kind, c % 2 == 1, img[o..o + 4], val);
      SetFatByte(g, SetFatByte(g, SetFatByte(g, SetFatByte(g, v, o, p[0]), o + 1, p[1]), o + 2, p[2]), o + 3, p[3])
    else
      var p := Packed(g.kind, c % 2 == 1, img[o..o + 2], val);
      SetFatByte(g, SetFatByte(g, v, o, p[0]), o + 1, p[1])
  }

  lemma StoreInViewImage(g: Geometry, v: seq<Sector>, c: nat, val: nat)
    requires g.FatFits(|v|) && EntryFits(g.kind, g.fsize * 512, c)
    ensures var w := StoreInView(g, v, c, val);
      && Image(g, w) == StoreEntry(g.kind, Image(g, v), c, val)
      && (Mirrored(g, v) ==> Mirrored(g, w))
      && (forall x :: 0 <= x < |v| && !g.InFatArea(x) ==> w[x] == v[x])
  {
    hide Mirrored, Image, SetFatByte;
    var o := EntryOffset(g.kind, c);
    var img := Image(g, v);
    if g.kind.Fat32? {
      var p := Packed(g.kind, c % 2 == 1, img[o..o + 4], val);
      var v1 := SetFatByte(g, v, o, p[0]);
      var v2 := SetFatByte(g, v1, o + 1, p[1]);
      var v3 := SetFatByte(g, v2, o + 2, p[2]);
      SetFatByteImage(g, v, o, p[0]);
      SetFatByteImage(g, v1, o + 1, p[1]);
      SetFatByteImage(g, v2, o + 2, p[2]);
      SetFatByteImage(g, v3, o + 3, p[3]);
    } else {
      var p := Packed(g.kind, c % 2 == 1, img[o..o + 2], val);
      SetFatByteImage(g, v, o, p[0]);
      SetFatByteImage(g, SetFatByte(g, v, o, p[0]), o + 1, p[1]);
    }
  }

  /** The table changes in exactly one place. */
  lemma StoreTable(g: Geometry, v: seq<Sector>, c: nat, val: nat)
    requires g.FatFits(|v|) && c < g.nFatent
    requires EntryFits(g.kind, g.fsize * 512, c)
    ensures Table(g, StoreInView(g, v, c, val)) == Table(g, v)[c := val % Width(g.kind)]
  {
    var w := StoreInView(g, v, c, val);
    StoreInViewImage(g, v, c, val);
    StoredEntry(g.kind, Image(g, v), c, val);
    forall d | 0 <= d < g.nFatent && d != c
      ensures Table(g, w)[d] == Table(g, v)[d]
    {
      EntriesFit(g, |v|, d);
      OtherEntry(g.kind, Image(g, v), c, val, d);
    }
  }

  /** The end mark always reads as a value no cluster number reaches. */
  lemma EndMarkOutOfRange(g: Geometry, size: nat)
    requires g.Valid(size)
    ensures g.nFatent <= EOC % Width(g.kind)
  {
  }

  /** The marks themselves: all bits of the entry are set. */
  lemma EndMarks()
    ensures EOC % Width(Fat12) == 0xFFF && EOC % Width(Fat16) == 0xFFFF && EOC % Width(Fat32) == 0x0FFF_FFFF
  {
  }

  /** The table depends on the sectors of the first copy only. */
  lemma SameFatSameTable(g: Geometry, v: seq<Sector>, w: seq<Sector>)
    requires g.FatFits(|v|) && |w| == |v|
    requires forall s: nat :: g.InFat1(s) ==> w[s] == v[s]
    ensures Image(g, w) == Image(g, v)
    ensures Table(g, w) == Table(g, v)
  {
    assert Image(g, w) == Image(g, v);
  }

  // ------------------------------------------------------------------ FSInfo

  function Bytes4(val: nat): (b: seq<Byte>)
    ensures |b| == 4
  {
    [val % 256, val / 256 % 256, val / 0x1_0000 % 256, val / 0x100_0000 % 256]
  }

  /** The FSInfo sector: signatures, free count at 488 and last allocated cluster at 492. */
  function FsInfo(free: nat, last: nat): (s: Sector)
  {
    Bytes4(0x41615252) + seq(480, _ => 0) + Bytes4(0x61417272) + Bytes4(free) + Bytes4(last)
      + seq(14, _ => 0) + [0x55, 0xAA]
  }

  /** What mount_volume takes from an FSInfo sector: the count and the last cluster, or
      nothing when a signature is wrong. */
  function LoadFsInfo(s: Sector): (r: (nat, nat)) {
    if Word(s[510], s[511]) == 0xAA55 && DwordAt(s, 0) == 0x41615252 && DwordAt(s, 484) == 0x61417272
    then (DwordAt(s, 488), DwordAt(s, 492)) else (0xFFFF_FFFF, 0xFFFF_FFFF)
  }

  function DwordAt(s: Sector, o: nat): nat
    requires o + 3 < 512
  {
    Dword(s[o], s[o + 1], s[o + 2], s[o + 3])
  }

  /** Where the specification (section "FAT32 FSInfo Sector Structure and Backup Boot Sector")
      has them: the signatures, and the two counts, least significant byte first. */
  lemma FsInfoBytes(free: nat, last: nat)
    ensures var s := FsInfo(free, last);
      && s[0..4] == [0x52, 0x52, 0x61, 0x41] && s[484..488] == [0x72, 0x72, 0x41, 0x61] && s[510..512] == [0x55, 0xAA]
      && s[488..492] == [free % 256, free / 256 % 256, free / 0x1_0000 % 256, free / 0x100_0000 % 256]
      && s[492..496] == [last % 256, last / 256 % 256, last / 0x1_0000 % 256, last / 0x100_0000 % 256]
  {
    hide Bytes4;
    FourBytes(0x41615252);
    FourBytes(0x61417272);
    FourBytes(free);
    FourBytes(last);
    InfoSlices(free, last);
  }

  lemma FourBytes(val: nat)
    ensures Bytes4(val) == [val % 256, val / 256 % 256, val / 0x1_0000 % 256, val / 0x100_0000 % 256]
  {
  }

  lemma InfoSlices(free: nat, last: nat)
    ensures var s := FsInfo(free, last);
      && s[0..4] == Bytes4(0x41615252) && s[484..488] == Bytes4(0x61417272) && s[510..512] == [0x55, 0xAA]
      && s[488..492] == Bytes4(free) && s[492..496] == Bytes4(last)
  {
    hide Bytes4;
  }

  /** Mounting again gives back the counts sync_fs stored. */
  lemma FsInfoRoundTrip(free: nat, last: nat)
    requires free < 0x1_0000_0000 && last < 0x1_0000_0000
    ensures LoadFsInfo(FsInfo(free, last)) == (free, last)
  {
    hide Dword;
    var s := FsInfo(free, last);
    Bytes4Load(0x41615252);
    Bytes4Load(0x61417272);
    Bytes4Load(free);
    Bytes4Load(last);
    assert s[0..4] == Bytes4(0x41615252);
    assert s[484..488] == Bytes4(0x61417272);
    assert s[488..492] == Bytes4(free);
    assert s[492..496] == Bytes4(last);
    assert s[510..] == [0x55, 0xAA];
    Loads(s, 0);
    Loads(s, 484);
    Loads(s, 488);
    Loads(s, 492);
  }

  lemma Loads(s: Sector, o: nat)
    requires o + 4 <= 512
    ensures DwordAt(s, o) == var b := s[o..o + 4]; Dword(b[0], b[1], b[2], b[3])
  {
  }

  lemma Bytes4Load(val: nat)
    requires val < 0x1_0000_0000
    ensures var b := Bytes4(val); Dword(b[0], b[1], b[2], b[3]) == val
  {
    var b, c, d := val / 256 % 256, val / 0x1_0000 % 256, val / 0x100_0000;
    assert val % 0x1_0000 == val % 256 + 256 * b by {
      SplitMod(val, 256, 256);
    }
    assert val % 0x100_0000 == val % 0x1_0000 + 0x1_0000 * c by {
      SplitMod(val, 0x1_0000, 256);
    }
    assert d < 256 && val == 0x100_0000 * d + val % 0x100_0000;
    assert d % 256 == d;
  }
}
