/** mount_volume's reading of the boot sector: from its fields to the geometry of a
    volume, in the 32-bit arithmetic of the code. */
module FatMount {
  import opened Arith
  import opened FatLayout

  /** The boot sector fields it uses (Microsoft FAT32 File System Specification 1.03,
      section "Boot Sector and BPB"). */
  datatype Bpb = Bpb(
    bytsPerSec: nat, secPerClus: nat, rsvdSecCnt: nat, numFats: nat, rootEntCnt: nat,
    totSec16: nat, totSec32: nat, fatSz16: nat, fatSz32: nat, fsVer32: nat)
  {
    predicate InRange() {
      && bytsPerSec < 0x1_0000 && secPerClus < 0x100 && rsvdSecCnt < 0x1_0000 && numFats < 0x100
      && rootEntCnt < 0x1_0000 && totSec16 < 0x1_0000 && totSec32 < 0x1_0000_0000
      && fatSz16 < 0x1_0000 && fatSz32 < 0x1_0000_0000 && fsVer32 < 0x1_0000
    }

    function FatSize(): nat { if fatSz16 == 0 then fatSz32 else fatSz16 }
    function Total(): nat { if totSec16 == 0 then totSec32 else totSec16 }

    /** Reserved sectors, tables and root directory, as they are. */
    function System(): nat { rsvdSecCnt + FatSize() * numFats + rootEntCnt / 16 }

    /** The same as the code computes it. */
    function SystemWord(): nat {
      (rsvdSecCnt + FatSize() * numFats % 0x1_0000_0000 + rootEntCnt / 16) % 0x1_0000_0000
    }
  }

  datatype Mounted = NoFilesystem | Volume(g: Geometry)

  function KindFor(nclst: nat): (k: FatKind)
    requires nclst <= MaxClusters(Fat32)
  {
    if nclst <= MaxClusters(Fat12) then Fat12 else if nclst <= MaxClusters(Fat16) then Fat16 else Fat32
  }

  /** The boot sector at `bsect` accepted as a volume, or refused. */
  function Mount(b: Bpb, bsect: nat): Mounted {
    if b.bytsPerSec != 512 || (b.numFats != 1 && b.numFats != 2) then NoFilesystem
    else if b.secPerClus == 0 || And(b.secPerClus, b.secPerClus - 1) != 0 then NoFilesystem
    else if b.rootEntCnt % 16 != 0 || b.rsvdSecCnt == 0 then NoFilesystem
    else if b.Total() < b.SystemWord() then NoFilesystem
    else
      DivNat(b.Total() - b.SystemWord(), b.secPerClus);
      var nclst: nat := (b.Total() - b.SystemWord()) / b.secPerClus;
      if nclst == 0 || nclst > MaxClusters(Fat32) then NoFilesystem
      else
        var kind := KindFor(nclst);
        var g := Geometry(kind, b.numFats, b.secPerClus, nclst + 2, b.FatSize(),
                          bsect, bsect + b.rsvdSecCnt, bsect + b.SystemWord());
        if kind.Fat32? && (b.fsVer32 != 0 || b.rootEntCnt != 0) then NoFilesystem
        else if !kind.Fat32? && b.rootEntCnt == 0 then NoFilesystem
        else if b.FatSize() < (g.TableBytes() + 511) / 512 then NoFilesystem
        else Volume(g)
  }

  lemma {:induction false} AndSelf(n: nat)
    ensures And(n, n) == n
  {
    if n != 0 { AndSelf(n / 2); }
  }

  /** The mask test for a power of two. */
  lemma {:induction false} MaskTest(n: nat)
    requires 0 < n && And(n, n - 1) == 0
    ensures PowerOfTwo(n)
  {
    if n != 1 {
      if n % 2 == 0 {
        assert (n - 1) / 2 == n / 2 - 1;
        MaskTest(n / 2);
      } else {
        assert (n - 1) / 2 == n / 2;
        AndSelf(n / 2);
      }
    }
  }

  /** The boot sectors that are accepted, `n` being the number of whole clusters behind the
      system area. */
  ghost predicate Acceptable(b: Bpb, n: nat) {
    && b.bytsPerSec == 512 && b.numFats in {1, 2} && b.rsvdSecCnt > 0 && b.rootEntCnt % 16 == 0
    && b.secPerClus in {1, 2, 4, 8, 16, 32, 64, 128} && b.SystemWord() <= b.Total() && 1 <= n <= 0x0FFF_FFF5
    && (if n > 0xFFF5 then b.fsVer32 == 0 && b.rootEntCnt == 0 else b.rootEntCnt > 0)
    && Bits(n) * (n + 2) <= 8 * (512 * b.FatSize())
  }

  /** The width of an entry, by the number of clusters alone. */
  function Bits(n: nat): nat { if n <= 0xFF5 then 12 else if n <= 0xFFF5 then 16 else 32 }

  /** Which boot sectors are accepted, and what is taken from them. */
  lemma MountedIs(b: Bpb, bsect: nat, n: nat)
    requires b.InRange() && b.secPerClus > 0
    requires n * b.secPerClus <= b.Total() - b.SystemWord() < (n + 1) * b.secPerClus || (b.Total() < b.SystemWord() && n == 0)
    ensures Mount(b, bsect).Volume? <==> Acceptable(b, n)
    ensures Mount(b, bsect).Volume? ==> var g := Mount(b, bsect).g;
      && g.kind == (match Bits(n) case 12 => Fat12 case 16 => Fat16 case _ => Fat32)
      && g.nFats == b.numFats && g.csize == b.secPerClus && g.nFatent == n + 2
      && g.fsize == (if b.fatSz16 > 0 then b.fatSz16 else b.fatSz32)
      && g.fatbase == bsect + b.rsvdSecCnt && g.database == bsect + b.SystemWord()
  {
    hide And;
    ByteMaskTest(b.secPerClus);
    if b.Total() >= b.SystemWord() {
      DivModUnique(b.Total() - b.SystemWord(), b.secPerClus, n, b.Total() - b.SystemWord() - n * b.secPerClus);
    }
    if n <= 0x0FFF_FFF5 {
      SectorsEnough(Geometry(KindFor(n), b.numFats, b.secPerClus, n + 2, b.FatSize(), bsect, bsect + b.rsvdSecCnt, bsect + b.SystemWord()),
                    b.FatSize());
    }
  }

  /** The test of the size of a table is exact. */
  lemma SectorsEnough(g: Geometry, fsize: nat)
    ensures fsize < (g.TableBytes() + 511) / 512
      <==> (match g.kind case Fat12 => 12 case Fat16 => 16 case Fat32 => 32) * g.nFatent > 8 * (512 * fsize)
  {
    WholeSectors(fsize, g.TableBytes());
    if g.kind.Fat12? {
      Packed12(fsize, g.nFatent);
    }
  }

  lemma Packed12(fsize: nat, entries: nat)
    ensures entries * 3 / 2 + entries % 2 > 512 * fsize <==> 12 * entries > 8 * (512 * fsize)
  {
  }

  lemma WholeSectors(fsize: nat, bytes: nat)
    ensures fsize < (bytes + 511) / 512 <==> bytes > 512 * fsize
  {
  }

  lemma ByteMaskTest(n: nat)
    requires 0 < n < 256
    ensures And(n, n - 1) == 0 <==> n in {1, 2, 4, 8, 16, 32, 64, 128}
  {
    if And(n, n - 1) == 0 {
      MaskTest(n);
      SmallPower(n, 128);
    } else if n in {1, 2, 4, 8, 16, 32, 64, 128} {
      assert PowerOfTwo(n);
      PowerMask(n);
    }
  }

  lemma {:induction false} PowerMask(n: nat)
    requires PowerOfTwo(n)
    ensures n > 0 && And(n, n - 1) == 0
  {
    if n != 1 {
      PowerMask(n / 2);
      assert (n - 1) / 2 == n / 2 - 1;
    }
  }

  lemma {:induction false} SmallPower(n: nat, k: nat)
    requires PowerOfTwo(n) && n < 2 * k && k in {1, 2, 4, 8, 16, 32, 64, 128}
    ensures n in {1, 2, 4, 8, 16, 32, 64, 128} && n <= k
  {
    if n != 1 {
      SmallPower(n / 2, k / 2);
    }
  }

  /** An accepted volume that the disk has room for is laid out soundly exactly when the
      size of its system area did not overflow 32 bits. */
  lemma MountedSound(b: Bpb, bsect: nat, size: nat)
    requires b.InRange() && Mount(b, bsect).Volume?
    requires bsect + b.Total() <= size < 0x1_0000_0000
    ensures Mount(b, bsect).g.Valid(size) <==> b.System() < 0x1_0000_0000
  {
    hide And, PowerOfTwo;
    var g := Mount(b, bsect).g;
    MaskTest(b.secPerClus);
    ByteMask(b.secPerClus);
    DivNat(b.Total() - b.SystemWord(), b.secPerClus);
    Areas(b);
    assert g.TableBytes() <= g.fsize * 512;
  }

  /** The system area in 32 bits and as it is. */
  lemma Areas(b: Bpb)
    requires b.InRange() && (b.numFats == 1 || b.numFats == 2)
    ensures b.System() == b.rsvdSecCnt + b.FatSize() + (if b.numFats == 2 then b.FatSize() else 0) + b.rootEntCnt / 16
    ensures b.System() < 0x1_0000_0000 ==> b.SystemWord() == b.System()
    ensures b.System() >= 0x1_0000_0000 ==> b.SystemWord() < b.rsvdSecCnt + b.FatSize() + (if b.numFats == 2 then b.FatSize() else 0)
  {
    if b.numFats == 2 {
      assert b.FatSize() * b.numFats == b.FatSize() + b.FatSize();
    }
  }

  /** Between two powers of two there is no third. */
  lemma {:induction false} PowersApart(n: nat, m: nat)
    requires PowerOfTwo(n) && PowerOfTwo(m) && n < 2 * m
    ensures n <= m
  {
    if n != 1 && m != 1 {
      PowersApart(n / 2, m / 2);
    }
  }

  /** A power of two that fits a byte is at most 128. */
  lemma ByteMask(n: nat)
    requires PowerOfTwo(n) && n < 256
    ensures n <= 128
  {
    assert PowerOfTwo(4) && PowerOfTwo(16) && PowerOfTwo(64) && PowerOfTwo(128);
    PowersApart(n, 128);
  }

  /** Such a boot sector exists: two tables of 2^31 sectors each are accepted although
      they cannot lie before the data. */
  lemma OverflowAccepted()
    ensures var b := Bpb(512, 1, 32, 2, 0, 0, 0x0080_0000, 0, 0x8000_0000, 0);
      b.InRange() && Mount(b, 0).Volume? && !Mount(b, 0).g.Valid(0x0080_0000)
  {
    var b := Bpb(512, 1, 32, 2, 0, 0, 0x0080_0000, 0, 0x8000_0000, 0);
    assert And(1, 0) == 0;
    assert b.SystemWord() == 32;
  }
}
