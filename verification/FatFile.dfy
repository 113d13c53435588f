/** An open file on a FAT volume: f_read, f_write, f_lseek and f_truncate over the
    cluster chain, the private sector buffer and direct transfers. */
module FatFile {
  import opened Arith
  import opened FatLayout
  import opened FatChain
  import opened FatData
  import opened FatVolume
  import opened FatState

  class Fil {
    const fs: Volume
    const canRead: bool
    const canWrite: bool
    const buf: array<Byte>
    var fptr: nat
    var clust: nat
    var sect: nat
    var dirty: bool
    var modified: bool
    var objsize: nat
    var sclust: nat
    ghost var chain: seq<nat>

    ghost function St(): State
      reads this`chain, this`sclust, this`objsize, this`sect, this`dirty, buf
      reads fs`disk, fs`wflag, fs`winsect, fs.win
      requires fs.Valid()
    {
      State(fs.FatTable(), fs.View(), fs.wflag, fs.winsect, chain, sclust, objsize, sect, dirty, buf[..])
    }

    /** Everything but the position of the pointer. */
    ghost predicate Good()
      reads this`chain, this`sclust, this`objsize, this`sect, this`dirty, buf
      reads fs`disk, fs`wflag, fs`winsect, fs.win
    {
      fs.Valid() && buf != fs.win && PowerOfTwo(fs.g.csize) && Stable(fs.g, St())
    }

    ghost predicate Valid()
      reads this, buf
      reads fs`disk, fs`wflag, fs`winsect, fs.win
    {
      Good() && AtPointer(fs.g, St(), fptr, clust)
    }

    ghost function Bytes(): (b: seq<Byte>)
      reads this`chain, this`sclust, this`objsize, this`sect, this`dirty, buf
      reads fs`disk, fs`wflag, fs`winsect, fs.win
      requires Good()
      ensures |b| == objsize
    {
      Contents(fs.g, St())
    }

    /** f_open of an existing file: its start cluster and size come from its directory
        entry, `chain` is the chain that start cluster has in the table. */
    constructor Open(fs: Volume, canRead: bool, canWrite: bool, sclust: nat, objsize: nat, ghost chain: seq<nat>)
      requires fs.Valid() && Chains(fs.FatTable()) && ChainOk(fs.FatTable(), chain, sclust)
      requires objsize < 0x1_0000_0000 && Fits(fs.g, chain, objsize)
      requires fs.wflag && fs.g.DataFits(|fs.disk|) ==> var c := Owner(fs.g, fs.winsect);
        c == 0 || (c < fs.g.nFatent && c !in chain && fs.FatTable()[c] != 0)
      ensures this.fs == fs && this.chain == chain && this.objsize == objsize && fptr == 0
      ensures this.canRead == canRead && this.canWrite == canWrite && fresh(buf)
      ensures Valid()
      ensures fs.g.DataFits(|fs.disk|) && Clusters(fs.g, chain) ==>
        Bytes() == FileBytes(fs.g, fs.View(), chain, objsize)
    {
      hide Stable, Contents, FileBytes, Chains, ChainOk, Clusters, Fits, Owner;
      this.fs, this.canRead, this.canWrite := fs, canRead, canWrite;
      buf := new Byte[512](_ => 0);
      fptr, clust, sect, dirty, modified := 0, 0, 0, false, false;
      this.sclust, this.objsize, this.chain := sclust, objsize, chain;
      new;
      fs.g.ValidFits(|fs.disk|);
      Opened(fs.g, fs.FatTable(), fs.View(), fs.wflag, fs.winsect, chain, sclust, objsize, buf[..]);
    }

    /** The buffer holds a sector of the file, or none: so it is but after f_truncate. */
    ghost predicate OwnBuffer()
      reads this`chain, this`sect
    {
      OwnSectorHeld(fs.g, chain, sect)
    }

    /** Writes a dirty sector buffer back. */
    method FlushBuf()
      requires Good()
      modifies this`dirty, fs`disk
      ensures Good() && !dirty && St() == Flush(old(St())) && Bytes() == old(Bytes())
      ensures fs.FatTable() == old(fs.FatTable())
    {
      hide Volume.Valid, Volume.View, Volume.FatTable, Stable, Contents, PutSectors;
      Flushed(fs.g, St());
      Sizes(fs.g, St());
      if dirty {
        OwnSector(fs.g, St(), sect);
        fs.DiskWrite(buf[..], sect);
        PutOneSector(old(fs.View()), sect, buf[..]);
        dirty := false;
      }
      assert St() == Flush(old(St()));
    }

    /** Brings a sector of the file into the buffer, writing a dirty one back first. */
    method FillBuf(s: nat)
      requires Good() && Owner(fs.g, s) != 0 && Owner(fs.g, s) in chain
      modifies this`dirty, this`sect, buf, fs`disk
      ensures Good() && sect == s && St() == Fill(old(St()), s) && Bytes() == old(Bytes())
      ensures fs.FatTable() == old(fs.FatTable())
    {
      hide Volume.Valid, Volume.View, Volume.FatTable, Stable, Contents, PutSectors, GetSectors;
      Filled(fs.g, St(), s);
      Sizes(fs.g, St());
      if sect != s {
        FlushBuf();
        OwnSector(fs.g, St(), s);
        fs.DirectView(s);
        fs.DiskRead(buf, 0, s, 1);
        GetOneSector(fs.disk, s);
        assert buf[..] == buf[0..512];
        sect := s;
      }
      assert St() == Fill(old(St()), s);
    }

    /** f_read's choice of the cluster on a sector boundary, and the sector in it. */
    method FindSector() returns (s: nat, csect: nat)
      requires Good() && AtPointer(fs.g, St(), fptr, clust) && fptr < objsize && fptr % 512 == 0
      modifies this`clust, fs`disk, fs`wflag, fs`winsect, fs.win
      ensures Good() && HoldsByte(fs.g, St(), fptr, clust) && Bytes() == old(Bytes())
      ensures St() == old(St()).(wflag := fs.wflag, winsect := fs.winsect) && SafeWindow(fs.g, old(St()), fs.wflag, fs.winsect)
      ensures csect == ClusterOffset(fs.g, fptr / 512) && s == ByteSector(fs.g, St(), fptr)
    {
      hide Volume.Valid, Volume.View, Volume.FatTable, Stable, Contents, AtPointer, HoldsByte, ByteSector, EntryReads;
      hide SectorOf, ClusterIndex, ClusterOffset, And, PowerOfTwo, FileSector, Fits, Clusters, Owner,
        Volume.Clst2Sect, Geometry.DataFits;
      ghost var x := St();
      Sizes(fs.g, x);
      FitsIndex(fs.g, chain, objsize, fptr);
      Located(fs.g, x, fptr, clust);
      csect := SectorInFile();
      if csect == 0 {
        var clst: nat;
        if fptr == 0 {
          clst := sclust;
        } else {
          clst := fs.GetFat(clust);
          WindowMoved(fs.g, x, fs.wflag, fs.winsect);
        }
        HeldSector(fs.g, x, fptr, clst);
        assert clst >= 2;
        clust := clst;
      }
      HeldSector(fs.g, x, fptr, clust);
      SectorInCluster(fs.g, clust, csect);
      s := fs.Clst2Sect(clust);
      assert s != 0;
      s := s + csect;
      WindowMoved(fs.g, x, fs.wflag, fs.winsect);
      assert St() == x.(wflag := fs.wflag, winsect := fs.winsect);
      WindowMovedAt(fs.g, x, St(), fptr, clust);
    }

    /** The sector offset of the pointer in its cluster, by the mask the code uses. */
    method SectorInFile() returns (csect: nat)
      requires 0 < fs.g.csize && PowerOfTwo(fs.g.csize)
      ensures csect == ClusterOffset(fs.g, fptr / 512)
    {
      MaskIsMod(fptr / 512, fs.g.csize);
      csect := And(fptr / 512, fs.g.csize - 1);
    }

    /** A direct read of a run of sectors, with a dirty buffered sector laid over it. */
    method ReadRun(buff: array<Byte>, off: nat, s: nat, cc: nat)
      requires Good() && buff != buf && buff != fs.win
      requires HoldsByte(fs.g, St(), fptr, clust) && s == ByteSector(fs.g, St(), fptr) && 0 < cc
      requires ClusterOffset(fs.g, fptr / 512) + cc <= fs.g.csize && off + 512 * cc <= buff.Length
      modifies buff
      ensures Good() && s + cc <= |fs.disk| && St() == old(St())
      ensures buff[..] == Spliced(old(buff[..]), off, GetSectors(Overlay(St()), s, cc))
    {
      hide Volume.Valid, Volume.View, Volume.FatTable, Stable, Contents, HoldsByte, ByteSector, GetSectors;
      hide ClusterIndex, ClusterOffset, Owner, Clusters, Fits, Spliced;
      ghost var x := St();
      ghost var b := buff[..];
      Sizes(fs.g, x);
      RunOwned(fs.g, x, fptr, cc, clust);
      DirectRun(s, cc);
      fs.DiskRead(buff, off, s, cc);
      SplicedRead(b, buff[..], off, GetSectors(x.v, s, cc));
      if dirty {
        RunOverlaid(x.v, s, cc, sect, buf[..]);
        if sect >= s && sect - s < cc {
          var at := (sect - s) * 512;
          CopyBuf(buff, off + at);
          SplicedTwice(b, off, GetSectors(x.v, s, cc), at, buf[..]);
        }
      }
    }

    /** A part of the sector buffer copied. */
    method CopyPart(buff: array<Byte>, off: nat, o: nat, cnt: nat)
      requires buff != buf && o + cnt <= buf.Length && off + cnt <= buff.Length
      modifies buff
      ensures buff[..] == Spliced(old(buff[..]), off, buf[o..o + cnt])
    {
      forall i | 0 <= i < cnt { buff[off + i] := buf[o + i]; }
    }

    /** The sector buffer copied whole. */
    method CopyBuf(buff: array<Byte>, at: nat)
      requires buff != buf && buf.Length == 512 && at + 512 <= buff.Length
      modifies buff
      ensures buff[..] == Spliced(old(buff[..]), at, buf[..])
    {
      assert buf[0..512] == buf[..];
      CopyPart(buff, at, 0, 512);
    }

    /** The sectors of this file are on the disk as the volume shows them. */
    lemma DirectRun(s: nat, cc: nat)
      requires Good() && s + cc <= |fs.disk| && clust in chain && 2 <= clust
      requires 0 < fs.g.csize && 2 < fs.g.nFatent
      requires forall i: nat :: s <= i < s + cc ==> Owner(fs.g, i) == clust
      ensures GetSectors(fs.disk, s, cc) == GetSectors(fs.View(), s, cc)
    {
      hide Volume.Valid, Volume.View, Volume.FatTable, Stable, GetSectors, Owner;
      forall i: nat | s <= i < s + cc ensures fs.disk[i] == fs.View()[i] {
        assert Owner(fs.g, i) == clust;
        OwnSector(fs.g, St(), i);
        fs.DirectView(i);
      }
      SameSectors(fs.disk, fs.View(), s, cc);
    }

    /** One turn of f_read's loop: a run of whole sectors or a piece of one. */
    method ReadStep(buff: array<Byte>, off: nat, btr: nat) returns (rcnt: nat)
      requires Valid() && buff != buf && buff != fs.win
      requires 0 < btr && fptr + btr <= objsize && off + btr <= buff.Length
      modifies this`fptr, this`clust, this`sect, this`dirty, buf, buff
      modifies fs`disk, fs`wflag, fs`winsect, fs.win
      ensures Valid() && Bytes() == old(Bytes())
      ensures fs.FatTable() == old(fs.FatTable())
      ensures 0 < rcnt <= btr && fptr == old(fptr) + rcnt && (old(OwnBuffer()) ==> OwnBuffer())
      ensures Gives(Bytes(), old(fptr), fptr, old(buff[..]), buff[..], off)
      ensures 0 < fs.g.csize && 2 < fs.g.nFatent && Confined(fs.g, old(St()), St())
    {
      hide Volume.Valid, Volume.View, Volume.FatTable, Stable, Contents, HoldsByte, ByteSector, GetSectors, Overlay;
      hide ClusterIndex, ClusterOffset, Owner, Clusters, Fits, Fill, AtPointer, Spliced, Confined, OwnSectorHeld;
      ghost var x0 := St();
      Sizes(fs.g, x0);
      SettledConfined(fs.g, x0, x0);
      if fptr % 512 == 0 {
        var s, csect := FindSector();
        ghost var x := St();
        SettledConfined(fs.g, x0, x);
        if btr / 512 > 0 {
          rcnt := ReadWhole(buff, off, btr, s, csect);
          return;
        }
        LoadSector(s);
        ConfinedChain(fs.g, x0, x, St());
      } else {
        InsideSector(fs.g, St(), fptr, clust);
      }
      rcnt := ReadPiece(buff, off, btr);
    }

    /** As many whole sectors as are asked for and the cluster has left. */
    method ReadWhole(buff: array<Byte>, off: nat, btr: nat, s: nat, csect: nat) returns (rcnt: nat)
      requires Good() && buff != buf && buff != fs.win && 0 < btr / 512
      requires HoldsByte(fs.g, St(), fptr, clust) && s == ByteSector(fs.g, St(), fptr) && csect == ClusterOffset(fs.g, fptr / 512)
      requires fptr % 512 == 0 && fptr + btr <= objsize && off + btr <= buff.Length
      modifies this`fptr, buff
      ensures Valid() && St() == old(St()) && 0 < rcnt <= btr && fptr == old(fptr) + rcnt
      ensures Gives(Bytes(), old(fptr), fptr, old(buff[..]), buff[..], off)
    {
      hide Volume.Valid, Volume.View, Volume.FatTable, Stable, Contents, HoldsByte, ByteSector, GetSectors, Overlay;
      hide ClusterIndex, ClusterOffset, Owner, Clusters, Fits, AtPointer, Spliced;
      Sizes(fs.g, St());
      var cc := btr / 512;
      if csect + cc > fs.g.csize {
        cc := fs.g.csize - csect;
      }
      ReadRun(buff, off, s, cc);
      rcnt := 512 * cc;
      RunRead(fs.g, St(), fptr, cc, clust);
      fptr := fptr + rcnt;
    }

    /** The sector of the pointer into the buffer. */
    method LoadSector(s: nat)
      requires Good() && HoldsByte(fs.g, St(), fptr, clust) && s == ByteSector(fs.g, St(), fptr)
      modifies this`sect, this`dirty, buf, fs`disk
      ensures InPlace() && OwnBuffer() && Bytes() == old(Bytes()) && fs.FatTable() == old(fs.FatTable())
      ensures 0 < fs.g.csize && 2 < fs.g.nFatent && Confined(fs.g, old(St()), St())
    {
      hide Volume.Valid, Volume.View, Volume.FatTable, Stable, Contents, HoldsByte, ByteSector, Confined;
      hide ClusterIndex, ClusterOffset, Owner, Clusters, Fits, Fill, AtPointer;
      ghost var x := St();
      Sizes(fs.g, x);
      HeldSector(fs.g, x, fptr, clust);
      FillConfined(fs.g, x, s);
      FillBuf(s);
      FilledAt(fs.g, x, s, fptr, clust);
    }

    /** The cluster and the buffer are those of the byte at the pointer. */
    ghost predicate InPlace()
      reads this, buf
      reads fs`disk, fs`wflag, fs`winsect, fs.win
    {
      Good() && HoldsByte(fs.g, St(), fptr, clust) && sect == ByteSector(fs.g, St(), fptr)
    }

    /** The rest of a sector in the buffer, as far as asked for. */
    method ReadPiece(buff: array<Byte>, off: nat, btr: nat) returns (rcnt: nat)
      requires InPlace() && buff != buf && buff != fs.win
      requires 0 < btr && fptr + btr <= objsize && off + btr <= buff.Length
      modifies this`fptr, buff
      ensures Valid() && Bytes() == old(Bytes())
      ensures 0 < rcnt <= btr && fptr == old(fptr) + rcnt
      ensures Gives(Bytes(), old(fptr), fptr, old(buff[..]), buff[..], off)
    {
      hide Volume.Valid, Volume.View, Volume.FatTable, Stable, Contents, HoldsByte, ByteSector, AtPointer,
        PowerOfTwo, Clusters, Fits, Owner;
      hide Spliced, Overlay, FileSector, SectorOf, ClusterIndex, ClusterOffset, Geometry.DataFits;
      Sizes(fs.g, St());
      rcnt := 512 - fptr % 512;
      if rcnt > btr {
        rcnt := btr;
      }
      var o := fptr % 512;
      CopyPart(buff, off, o, rcnt);
      PieceRead(fs.g, St(), fptr, rcnt);
      Advanced(fs.g, St(), fptr, rcnt, clust);
      fptr := fptr + rcnt;
    }

    /** The loop of f_read: `n` bytes of the file. */
    method ReadUpTo(buff: array<Byte>, n: nat)
      requires Valid() && buff != buf && buff != fs.win && n <= buff.Length && canRead && fptr + n <= objsize
      modifies this`fptr, this`clust, this`sect, this`dirty, buf, buff
      modifies fs`disk, fs`wflag, fs`winsect, fs.win
      ensures Valid() && Bytes() == old(Bytes()) && fptr == old(fptr) + n
      ensures fs.FatTable() == old(fs.FatTable()) && (old(OwnBuffer()) ==> OwnBuffer())
      ensures buff[..] == Spliced(old(buff[..]), 0, Bytes()[old(fptr)..old(fptr) + n])
      ensures 0 < fs.g.csize && 2 < fs.g.nFatent && Confined(fs.g, old(St()), St())
    {
      hide Volume.Valid, Volume.View, Volume.FatTable, Stable, Contents, AtPointer, Spliced, PowerOfTwo, Confined;
      ghost var x := St();
      Sizes(fs.g, x);
      SettledConfined(fs.g, x, x);
      var br := 0;
      ghost var start, b, c := fptr, buff[..], Bytes();
      SplicedWhole(b, c[start..start]);
      while br < n
        invariant br <= n && Valid() && Bytes() == c && fptr == start + br && fs.FatTable() == old(fs.FatTable())
        invariant (old(OwnBuffer()) ==> OwnBuffer()) && Confined(fs.g, x, St())
        invariant buff[..] == Spliced(b, 0, c[start..start + br])
      {
        ghost var y := St();
        var rcnt := ReadStep(buff, br, n - br);
        ConfinedChain(fs.g, x, y, St());
        SplicedNext(b, 0, c[start..start + br], c[start + br..start + br + rcnt]);
        assert c[start..start + br] + c[start + br..start + br + rcnt] == c[start..start + br + rcnt];
        br := br + rcnt;
      }
    }

    /** f_read: up to `btr` bytes from the pointer on, fewer only at the end of the file. */
    method Read(buff: array<Byte>, btr: nat) returns (res: FResult, br: nat)
      requires Valid() && buff != buf && buff != fs.win && btr <= buff.Length
      modifies this`fptr, this`clust, this`sect, this`dirty, buf, buff
      modifies fs`disk, fs`wflag, fs`winsect, fs.win
      ensures Valid() && Bytes() == old(Bytes())
      ensures fs.FatTable() == old(fs.FatTable()) && (old(OwnBuffer()) ==> OwnBuffer())
      ensures res == if canRead then FR_OK else FR_DENIED
      ensures br == if !canRead then 0 else if btr < objsize - old(fptr) then btr else objsize - old(fptr)
      ensures fptr == old(fptr) + br
      ensures buff[..br] == Bytes()[old(fptr)..old(fptr) + br]
      ensures buff[br..] == old(buff[br..])
      ensures 0 < fs.g.csize && 2 < fs.g.nFatent && Confined(fs.g, old(St()), St())
    {
      hide Volume.Valid, Volume.View, Volume.FatTable, Stable, Contents, AtPointer, Spliced, PowerOfTwo, Confined;
      ghost var x := St();
      Sizes(fs.g, x);
      SettledConfined(fs.g, x, x);
      PointerInside(fs.g, x, fptr, clust);
      br := 0;
      if !canRead {
        return FR_DENIED, 0;
      }
      var remain: nat := objsize - fptr;
      br := if btr > remain then remain else btr;
      ghost var start, b := fptr, buff[..];
      ReadUpTo(buff, br);
      SplicedWhole(b, Bytes()[start..start + br]);
      res := FR_OK;
    }

    // ---------------------------------------------------------------- f_write

    /** create_chain on the chain of this file: the cluster after `c` (0: the first one),
        taken from the free ones at the end of the chain; 0 when the disk is full. */
    method Follow(c: nat) returns (clst: nat)
      requires Good() && (if c == 0 then chain == [] else c in chain)
      modifies this`sclust, this`chain
      modifies fs`disk, fs`wflag, fs`winsect, fs`freeClst, fs`lastClst, fs`fsiFlag, fs.win
      ensures Good() && Bytes() == old(Bytes())
      ensures old(fs.FreeExact()) ==> fs.FreeExact()
      ensures St() == old(St()).(t := fs.FatTable(), v := fs.View(), wflag := fs.wflag, winsect := fs.winsect, chain := chain, sclust := sclust)
      ensures chain == old(chain) ==> fs.FatTable() == old(fs.FatTable())
      ensures Confined(fs.g, old(St()), St())
      ensures clst == 0 || (c != 0 && InRange(old(fs.FatTable()), old(fs.FatTable())[c])) ==> chain == old(chain)
      ensures clst == 0 && old(fs.FreeExact()) ==> FreeSet(fs.FatTable()) == {}
      ensures c != 0 && InRange(old(fs.FatTable()), old(fs.FatTable())[c]) ==> clst == old(fs.FatTable())[c]
      ensures clst != 0 && (c == 0 || !InRange(old(fs.FatTable()), old(fs.FatTable())[c])) ==> chain == old(chain) + [clst]
    {
      hide Volume.Valid, Volume.View, Volume.FatTable, Volume.FreeExact, Stable, Contents, SameData, Linked;
      hide Owner, FreeSet, Chains, PowerOfTwo, Confined;
      ghost var x := St();
      InChain(fs.g, x, c);
      Sizes(fs.g, x);
      clst := fs.CreateChain(c);
      assert clst != 1;
      if sclust == 0 {
        sclust := clst;
      }
      if clst != 0 && (c == 0 || !InRange(x.t, x.t[c])) {
        fs.EndMarkEnds();
        Followed(fs.g, x, clst, fs.END_MARK, fs.View(), fs.wflag, fs.winsect);
        chain := chain + [clst];
      } else {
        Untouched(fs.g, x, fs.View(), fs.wflag, fs.winsect);
      }
      assert St() == x.(t := fs.FatTable(), v := fs.View(), wflag := fs.wflag, winsect := fs.winsect, chain := chain, sclust := sclust);
    }

    /** f_write's choice of the cluster on a sector boundary, taking a new one at the end
        of the chain.  Not `ok` means that the disk is full. */
    method GrowSector() returns (ok: bool, csect: nat)
      requires Good() && AtPointer(fs.g, St(), fptr, clust) && fptr % 512 == 0
      modifies this`clust, this`sclust, this`chain
      modifies fs`disk, fs`wflag, fs`winsect, fs`freeClst, fs`lastClst, fs`fsiFlag, fs.win
      ensures Good() && Bytes() == old(Bytes())
      ensures old(fs.FreeExact()) ==> fs.FreeExact()
      ensures St() == old(St()).(t := fs.FatTable(), v := fs.View(), wflag := fs.wflag, winsect := fs.winsect, chain := chain, sclust := sclust)
      ensures Confined(fs.g, old(St()), St())
      ensures ok ==> HoldsByte(fs.g, St(), fptr, clust) && csect == ClusterOffset(fs.g, fptr / 512)
      ensures GrewTo(fs.g, old(chain), chain, fptr + 1)
      ensures !ok ==> clust == old(clust) && chain == old(chain) && ClusterOffset(fs.g, fptr / 512) == 0
      ensures !ok && old(fs.FreeExact()) ==> FreeSet(fs.FatTable()) == {}
    {
      hide Volume.Valid, Volume.View, Volume.FatTable, Volume.FreeExact, Stable, Contents, HoldsByte, ByteSector;
      hide SectorOf, ClusterIndex, ClusterOffset, And, PowerOfTwo, FileSector, Fits, Clusters, Owner, SameData, FreeSet;
      hide AtPointer, Confined;
      ghost var x := St();
      Sizes(fs.g, x);
      Located(fs.g, x, fptr, clust);
      PointerInChain(fs.g, x, fptr, clust);
      csect := SectorInFile();
      SettledConfined(fs.g, x, x);
      if csect != 0 {
        return true, csect;
      }
      var clst: nat;
      if fptr == 0 {
        clst := sclust;
        if clst == 0 {
          clst := Follow(0);
        }
      } else {
        clst := Follow(clust);
      }
      if clst == 0 {
        return false, 0;
      }
      if chain == x.chain {
        HeldAgain(fs.g, x, St(), fptr, clst);
      } else {
        StretchedAt(fs.g, x, St(), clst, fptr);
      }
      clust := clst;
      return true, 0;
    }

    /** A direct write of whole sectors inside the current cluster. */
    method WriteRun(data: seq<Byte>, s: nat)
      requires Good() && !dirty && RunReady(fs.g, St(), fptr, data)
      requires HoldsByte(fs.g, St(), fptr, clust) && s == ByteSector(fs.g, St(), fptr)
      modifies this`fptr, this`objsize, this`dirty, buf, fs`disk
      ensures Valid() && Bytes() == Written(old(Bytes()), old(fptr), data) && fptr == old(fptr) + |data|
      ensures fs.FatTable() == old(fs.FatTable()) && chain == old(chain)
      ensures Confined(fs.g, old(St()), St())
    {
      hide Volume.Valid, Volume.View, Volume.FatTable, Stable, Contents, HoldsByte, ByteSector;
      hide ClusterIndex, ClusterOffset, Owner, Clusters, Fits, PutSectors, RunReady, Confined, AtPointer, Written;
      ghost var x, pos := St(), fptr;
      Sizes(fs.g, x);
      RunWritten(fs.g, x, fptr, data);
      RunSafe(fs.g, x, fptr, data, clust);
      RunPlaced(fs.g, x, fptr, data, clust);
      fs.DiskWrite(data, s);
      Refresh(data, s);
      fptr := fptr + |data|;
      objsize := if fptr > objsize then fptr else objsize;
      assert St() == AfterRun(fs.g, x, pos, data);
    }

    /** The buffered sector when a direct write goes over it. */
    method Refresh(data: seq<Byte>, s: nat)
      requires buf.Length == 512 && |data| % 512 == 0 && !dirty
      modifies this`dirty, buf
      ensures !dirty
      ensures buf[..] == if s <= sect < s + |data| / 512 then data[512 * (sect - s)..512 * (sect - s) + 512] else old(buf[..])
    {
      var cc := |data| / 512;
      if sect >= s && sect - s < cc {
        var at := (sect - s) * 512;
        PutPiece(0, data[at..at + 512]);
        assert buf[..] == data[at..at + 512];
        dirty := false;
      }
    }

    /** A write inside one sector through the buffer. */
    method WritePiece(data: seq<Byte>, s: nat)
      requires Good() && PieceReady(fs.g, St(), fptr, data)
      requires HoldsByte(fs.g, St(), fptr, clust) && s == ByteSector(fs.g, St(), fptr)
      modifies this`fptr, this`objsize, this`dirty, this`sect, buf
      ensures Valid() && Bytes() == Written(old(Bytes()), old(fptr), data) && fptr == old(fptr) + |data| && OwnBuffer()
      ensures Confined(fs.g, old(St()), St())
    {
      hide Volume.Valid, Volume.View, Volume.FatTable, Stable, Contents, HoldsByte, ByteSector;
      hide ClusterIndex, ClusterOffset, Owner, Clusters, Fits, PieceReady, Confined, AtPointer, Written;
      ghost var x, pos := St(), fptr;
      Sizes(fs.g, x);
      PieceWritten(fs.g, x, pos, data);
      PiecePlaced(fs.g, x, pos, data, clust);
      HeldSector(fs.g, x, pos, clust);
      sect := s;
      PutPiece(fptr % 512, data);
      dirty := true;
      fptr := fptr + |data|;
      objsize := if fptr > objsize then fptr else objsize;
      assert St() == AfterPiece(fs.g, x, pos, data);
    }

    method PutPiece(o: nat, data: seq<Byte>)
      requires buf.Length == 512 && o + |data| <= 512
      modifies buf
      ensures buf[..] == old(buf[..o]) + data + old(buf[o + |data|..])
    {
      forall i | 0 <= i < |data| { buf[o + i] := data[i]; }
    }

    /** The sector to write next, the buffer being written back.  Not `ok` means that the
        disk is full. */
    method OpenSector() returns (ok: bool, s: nat, csect: nat)
      requires Valid() && fptr % 512 == 0
      modifies this`clust, this`dirty, this`sclust, this`chain
      modifies fs`disk, fs`wflag, fs`winsect, fs`freeClst, fs`lastClst, fs`fsiFlag, fs.win
      ensures Good() && Bytes() == old(Bytes()) && Confined(fs.g, old(St()), St())
      ensures GrewTo(fs.g, old(chain), chain, fptr + 1) && (!ok ==> chain == old(chain))
      ensures old(fs.FreeExact()) ==> fs.FreeExact()
      ensures ok ==> !dirty && HoldsByte(fs.g, St(), fptr, clust)
      ensures ok ==> csect == ClusterOffset(fs.g, fptr / 512) && s == ByteSector(fs.g, St(), fptr)
      ensures !ok ==> Valid() && (old(fs.FreeExact()) ==> FreeSet(fs.FatTable()) == {})
    {
      hide Volume.Valid, Volume.View, Volume.FatTable, CountExact, Stable, Contents, HoldsByte, ByteSector;
      hide ClusterIndex, ClusterOffset, Owner, Clusters, Fits, Confined, AtPointer, FreeSet, SectorOf;
      ghost var x := St();
      Sizes(fs.g, x);
      s := 0;
      ok, csect := GrowSector();
      if !ok {
        StillAtPointer(fs.g, x, St(), fptr, clust);
        return;
      }
      ghost var y := St();
      FlushConfined(fs.g, y);
      FlushBuf();
      FlushedAt(fs.g, y, fptr, clust);
      ConfinedChain(fs.g, x, y, St());
      HeldSector(fs.g, St(), fptr, clust);
      SectorInCluster(fs.g, clust, csect);
      s := fs.Clst2Sect(clust);
      assert s != 0;
      s := s + csect;
    }

    /** One turn of f_write's loop: a run of whole sectors or a piece of one; nothing when
        the disk is full. */
    method WriteStep(data: seq<Byte>) returns (wcnt: nat)
      requires Valid() && 0 < |data| && fptr + |data| < 0x1_0000_0000
      modifies this`fptr, this`clust, this`sect, this`dirty, this`objsize, this`sclust, this`chain, buf
      modifies fs`disk, fs`wflag, fs`winsect, fs`freeClst, fs`lastClst, fs`fsiFlag, fs.win
      ensures Valid() && wcnt <= |data| && fptr == old(fptr) + wcnt
      ensures Bytes() == Written(old(Bytes()), old(fptr), data[..wcnt])
      ensures old(fs.FreeExact()) ==> fs.FreeExact()
      ensures old(fs.FreeExact()) && wcnt == 0 ==> FreeSet(fs.FatTable()) == {}
      ensures GrewTo(fs.g, old(chain), chain, fptr) && (old(OwnBuffer()) ==> OwnBuffer())
      ensures Confined(fs.g, old(St()), St())
    {
      hide Volume.Valid, Volume.View, Volume.FatTable, CountExact, Stable, Contents, HoldsByte, ByteSector;
      hide ClusterIndex, ClusterOffset, Owner, Clusters, Fits, Confined, AtPointer, Written, Fill, Flush, FreeSet,
        RunReady, PieceReady;
      ghost var x := St();
      Sizes(fs.g, x);
      PointerInside(fs.g, x, fptr, clust);
      if fptr % 512 != 0 {
        wcnt := WriteInside(data);
        return;
      }
      var ok, s, csect := OpenSector();
      if !ok {
        WrittenNothing(Bytes(), fptr);
        return 0;
      }
      ghost var y, grown := St(), fptr + 1;
      if OwnSectorHeld(fs.g, x.chain, x.sect) {
        StillHeld(fs.g, x.chain, chain, grown, x.sect);
      }
      if |data| >= 512 {
        wcnt := WriteWhole(data, s, csect);
      } else {
        wcnt := |data|;
        WriteSector(data, s);
        assert data[..wcnt] == data;
      }
      GrewToTrans(fs.g, x.chain, chain, chain, grown, fptr);
      ConfinedChain(fs.g, x, y, St());
    }

    /** A write from inside a sector, up to its end. */
    method WriteInside(data: seq<Byte>) returns (wcnt: nat)
      requires Valid() && 0 < |data| && fptr + |data| < 0x1_0000_0000 && fptr % 512 != 0
      modifies this`fptr, this`sect, this`dirty, this`objsize, buf
      ensures Valid() && 0 < wcnt <= |data| && fptr == old(fptr) + wcnt
      ensures Bytes() == Written(old(Bytes()), old(fptr), data[..wcnt])
      ensures 0 < fs.g.csize && 2 < fs.g.nFatent && Confined(fs.g, old(St()), St()) && OwnBuffer()
    {
      hide Volume.Valid, Volume.View, Volume.FatTable, Stable, Contents, HoldsByte, ByteSector;
      hide ClusterIndex, ClusterOffset, Owner, Clusters, Fits, Confined, AtPointer, Written, PieceReady;
      ghost var x := St();
      Sizes(fs.g, x);
      PointerInside(fs.g, x, fptr, clust);
      InsideSector(fs.g, x, fptr, clust);
      wcnt := 512 - fptr % 512;
      if wcnt > |data| {
        wcnt := |data|;
      }
      PieceIsReady(fs.g, x, fptr, data[..wcnt], clust);
      WritePiece(data[..wcnt], sect);
    }

    /** A write of as many whole sectors as the cluster has left. */
    method WriteWhole(data: seq<Byte>, s: nat, csect: nat) returns (wcnt: nat)
      requires Good() && !dirty && 512 <= |data| && fptr % 512 == 0 && fptr <= objsize
      requires fptr + |data| < 0x1_0000_0000
      requires HoldsByte(fs.g, St(), fptr, clust) && s == ByteSector(fs.g, St(), fptr)
      requires csect == ClusterOffset(fs.g, fptr / 512)
      modifies this`fptr, this`objsize, this`dirty, buf, fs`disk
      ensures Valid() && 0 < wcnt <= |data| && fptr == old(fptr) + wcnt
      ensures Bytes() == Written(old(Bytes()), old(fptr), data[..wcnt])
      ensures fs.FatTable() == old(fs.FatTable())
      ensures 0 < fs.g.csize && 2 < fs.g.nFatent && Confined(fs.g, old(St()), St())
    {
      hide Volume.Valid, Volume.View, Volume.FatTable, Stable, Contents, HoldsByte, ByteSector;
      hide ClusterIndex, ClusterOffset, Owner, Clusters, Fits, Confined, AtPointer, Written, RunReady;
      Sizes(fs.g, St());
      var cc := |data| / 512;
      if csect + cc > fs.g.csize {
        cc := fs.g.csize - csect;
      }
      wcnt := 512 * cc;
      RunIsReady(fs.g, St(), fptr, data[..wcnt], clust);
      WriteRun(data[..wcnt], s);
    }

    /** A write at the start of a sector that does not fill it: the rest comes from the
        disk unless the sector lies past the end of the file. */
    method WriteSector(data: seq<Byte>, s: nat)
      requires Good() && !dirty && 0 < |data| < 512 && fptr % 512 == 0 && fptr <= objsize
      requires fptr + |data| < 0x1_0000_0000
      requires HoldsByte(fs.g, St(), fptr, clust) && s == ByteSector(fs.g, St(), fptr)
      modifies this`fptr, this`objsize, this`dirty, this`sect, buf, fs`disk
      ensures Valid() && Bytes() == Written(old(Bytes()), old(fptr), data) && fptr == old(fptr) + |data|
      ensures fs.FatTable() == old(fs.FatTable()) && Confined(fs.g, old(St()), St()) && OwnBuffer()
    {
      hide Volume.Valid, Volume.View, Volume.FatTable, CountExact, Stable, Contents, HoldsByte, ByteSector;
      hide ClusterIndex, ClusterOffset, Owner, Clusters, Fits, Confined, AtPointer, Written, Fill, Flush, PieceReady;
      ghost var y := St();
      Sizes(fs.g, y);
      if sect != s && fptr < objsize {
        HeldSector(fs.g, y, fptr, clust);
        FillConfined(fs.g, y, s);
        FillBuf(s);
        FilledAt(fs.g, y, s, fptr, clust);
      } else {
        SettledConfined(fs.g, y, y);
      }
      ghost var z := St();
      PieceIsReady(fs.g, z, fptr, data, clust);
      WritePiece(data, s);
      ConfinedChain(fs.g, y, z, St());
    }

    /** f_write: the bytes from the pointer on are replaced, fewer only when the disk is
        full or the file would reach 4 GiB. */
    method Write(wbuff: seq<Byte>) returns (res: FResult, bw: nat)
      requires Valid() && |wbuff| < 0x1_0000_0000
      modifies this`fptr, this`clust, this`sect, this`dirty, this`objsize, this`sclust, this`chain, this`modified, buf
      modifies fs`disk, fs`wflag, fs`winsect, fs`freeClst, fs`lastClst, fs`fsiFlag, fs.win
      ensures Valid() && old(fptr) < 0x1_0000_0000 && res == if canWrite then FR_OK else FR_DENIED
      ensures bw <= |wbuff| && fptr < 0x1_0000_0000 && if canWrite then modified else bw == 0
      ensures Bytes() == Written(old(Bytes()), old(fptr), wbuff[..bw]) && fptr == old(fptr) + bw
      ensures old(fs.FreeExact()) ==> fs.FreeExact()
      ensures canWrite && bw < |wbuff| && fptr < 0xFFFF_FFFF && old(fs.FreeExact()) ==> FreeSet(fs.FatTable()) == {}
      ensures Confined(fs.g, old(St()), St()) && Grew(fs.g, old(chain), chain, fptr)
      ensures old(OwnBuffer()) ==> OwnBuffer()
    {
      hide Volume.Valid, Volume.View, Volume.FatTable, Stable, Contents, Confined, AtPointer, Written, FreeSet, CountExact;
      hide Wrote, Grew, GrewTo, Kept;
      ghost var x, start := St(), fptr;
      WroteNothing(fs.g, x, fptr, clust);
      assert wbuff[..0] == [];
      if !canWrite {
        WroteMeans(fs.g, x, x, start, [], clust);
        return FR_DENIED, 0;
      }
      var btw := |wbuff|;
      if (fptr + btw) % 0x1_0000_0000 < fptr {
        btw := 0xFFFF_FFFF - fptr;
      }
      bw := WriteUpTo(wbuff, btw);
      WroteMeans(fs.g, x, St(), start, wbuff[..bw], clust);
      modified := true;
      res := FR_OK;
    }

    /** The loop of f_write. */
    method WriteUpTo(wbuff: seq<Byte>, btw: nat) returns (bw: nat)
      requires Valid() && btw <= |wbuff| && fptr + btw < 0x1_0000_0000
      modifies this`fptr, this`clust, this`sect, this`dirty, this`objsize, this`sclust, this`chain, buf
      modifies fs`disk, fs`wflag, fs`winsect, fs`freeClst, fs`lastClst, fs`fsiFlag, fs.win
      ensures Valid() && bw <= btw && fptr == old(fptr) + bw && Wrote(fs.g, old(St()), St(), old(fptr), wbuff[..bw])
      ensures old(OwnBuffer()) ==> OwnBuffer()
      ensures old(fs.FreeExact()) ==> fs.FreeExact()
      ensures bw < btw && old(fs.FreeExact()) ==> FreeSet(fs.FatTable()) == {}
    {
      hide Volume.Valid, Volume.View, Volume.FatTable, Stable, Contents, Confined, AtPointer, Written, FreeSet, CountExact;
      hide Wrote, GrewTo, Kept;
      ghost var x, start := St(), fptr;
      WroteNothing(fs.g, x, fptr, clust);
      assert wbuff[..0] == [];
      bw := 0;
      while bw < btw
        invariant bw <= btw && Valid() && fptr == start + bw && Wrote(fs.g, x, St(), start, wbuff[..bw])
        invariant old(OwnBuffer()) ==> OwnBuffer()
        invariant old(fs.FreeExact()) ==> fs.FreeExact()
      {
        ghost var y := St();
        PointerInside(fs.g, y, fptr, clust);
        var wcnt := WriteStep(wbuff[bw..btw]);
        WroteMore(fs.g, x, y, St(), start, wbuff, bw, btw, wcnt);
        if wcnt == 0 {
          break;
        }
        bw := bw + wcnt;
      }
    }

    // ---------------------------------------------------------------- f_truncate

    /** f_truncate: the file ends at the pointer; the clusters past it are freed. */
    method Truncate() returns (res: FResult)
      requires Valid()
      modifies this`objsize, this`sclust, this`chain, this`dirty, this`modified
      modifies fs`disk, fs`wflag, fs`winsect, fs`freeClst, fs`fsiFlag, fs.win
      ensures Valid() && res == if canWrite then FR_OK else FR_DENIED
      ensures fptr <= |old(Bytes())| && (canWrite ==> Bytes() == old(Bytes())[..fptr])
      ensures !canWrite ==> Bytes() == old(Bytes())
      ensures canWrite && fptr < old(objsize) ==> CutBack(fs.g, old(St()), St(), fptr, fs.END_MARK)
      ensures !(canWrite && fptr < old(objsize)) ==> chain == old(chain) && fs.FatTable() == old(fs.FatTable())
      ensures canWrite && fptr < old(objsize) ==> modified && !dirty
      ensures old(fs.FreeExact()) ==> fs.FreeExact()
      ensures 0 < fs.g.csize && 2 < fs.g.nFatent && Confined(fs.g, old(St()), St())
    {
      hide Volume.Valid, Volume.View, Volume.FatTable, Stable, Contents, Confined, AtPointer, CountExact, Truncated,
        Kept, Owner, Fits;
      ghost var x := St();
      Sizes(fs.g, x);
      CutPoint(fs.g, x, fptr, clust);
      SettledConfined(fs.g, x, x);
      if !canWrite {
        return FR_DENIED;
      }
      res := FR_OK;
      if fptr < objsize {
        if fptr == 0 {
          res := CutTail(sclust, 0);
        } else {
          res := CutInMiddle();
        }
        CutPlaced(fs.g, x, St(), fptr, clust);
        modified := true;
      }
    }

    /** Truncation anywhere but at the top of the file. */
    method CutInMiddle() returns (res: FResult)
      requires Valid() && 0 < fptr < objsize && 0 < fs.g.csize && 2 < fs.g.nFatent
      modifies this`objsize, this`sclust, this`chain, this`dirty
      modifies fs`disk, fs`wflag, fs`winsect, fs`freeClst, fs`fsiFlag, fs.win
      ensures Good() && res == FR_OK && !dirty && Bytes() == old(Bytes())[..fptr]
      ensures CutBack(fs.g, old(St()), St(), fptr, fs.END_MARK)
      ensures old(fs.FreeExact()) ==> fs.FreeExact()
      ensures Confined(fs.g, old(St()), St())
    {
      hide Volume.Valid, Volume.View, Volume.FatTable, Stable, Contents, Confined, AtPointer, CountExact, Truncated,
        Kept, Owner, Fits, EntryReads;
      ghost var x := St();
      Sizes(fs.g, x);
      CutPoint(fs.g, x, fptr, clust);
      var ncl := fs.GetFat(clust);
      ghost var y := x.(wflag := fs.wflag, winsect := fs.winsect);
      WindowMoved(fs.g, x, fs.wflag, fs.winsect);
      assert St() == y;
      SettledConfined(fs.g, x, y);
      assert ncl != 1;
      if ncl < fs.g.nFatent {
        res := CutTail(ncl, clust);
      } else {
        CutSize();
        res := FR_OK;
        assert chain == x.chain[..|x.chain|];
      }
      ConfinedChain(fs.g, x, y, St());
    }

    /** The new size alone, when no cluster lies past it. */
    method CutSize()
      requires Good() && fptr <= objsize && 0 < fs.g.csize && 2 < fs.g.nFatent
      modifies this`objsize, this`dirty, fs`disk
      ensures Good() && objsize == fptr && Bytes() == old(Bytes())[..fptr] && !dirty
      ensures fs.FatTable() == old(fs.FatTable()) && Confined(fs.g, old(St()), St())
    {
      hide Volume.Valid, Volume.View, Volume.FatTable, Stable, Contents, Confined, Owner, Fits;
      ghost var x := St();
      CutInside(fs.g, x, fptr);
      SettledConfined(fs.g, x, x.(objsize := fptr));
      FlushConfined(fs.g, x.(objsize := fptr));
      objsize := fptr;
      assert St() == x.(objsize := fptr);
      FlushBuf();
      ConfinedChain(fs.g, x, x.(objsize := fptr), St());
    }

    /** The fields of a file cut at its pointer; its private buffer is written if it is dirty. */
    method Shorten(ghost keep: nat)
      requires fs.Valid() && keep <= |chain|
      requires dirty ==> buf.Length == 512 && sect < |fs.disk| && !fs.g.InFatArea(sect) && !(fs.wflag && fs.winsect == sect)
      modifies this`objsize, this`sclust, this`chain, this`dirty, fs`disk
      ensures fs.Valid() && !dirty && objsize == fptr && chain == old(chain)[..keep]
      ensures sclust == (if fptr == 0 then 0 else old(sclust)) && fs.FatTable() == old(fs.FatTable())
      ensures fs.View() == if old(dirty) then old(fs.View())[sect := buf[..]] else old(fs.View())
    {
      hide Volume.Valid, Volume.View, Volume.FatTable;
      if fptr == 0 {
        sclust := 0;
      }
      objsize := fptr;
      chain := chain[..keep];
      if dirty {
        DropBuf();
      }
    }

    /** The removal of the clusters from `clst` on, after `pclst`, and the new size. */
    method CutTail(clst: nat, pclst: nat) returns (res: FResult)
      requires Good() && 0 < fs.g.csize && 2 < fs.g.nFatent && fptr <= objsize && CutsAt(fs.g, chain, fptr, clst, pclst)
      modifies this`objsize, this`sclust, this`chain, this`dirty
      modifies fs`disk, fs`wflag, fs`winsect, fs`freeClst, fs`fsiFlag, fs.win
      ensures !dirty && Good() && res == FR_OK && Bytes() == old(Bytes())[..fptr]
      ensures CutBack(fs.g, old(St()), St(), fptr, fs.END_MARK)
      ensures old(fs.FreeExact()) ==> fs.FreeExact()
      ensures Confined(fs.g, old(St()), St())
    {
      hide Volume.Valid, Volume.View, Volume.FatTable, Stable, Contents, Confined, CountExact, FreedFrom, CutBack,
        Kept, Removed;
      ghost var x := St();
      Sizes(fs.g, x);
      fs.EndMarkEnds();
      CutPlan(fs.g, x, fptr, clst, pclst, fs.END_MARK);
      res := fs.RemoveChain(clst, pclst);
      ghost var w := fs.View();
      Shorten(Kept(fs.g, fptr));
      CutDone(fs.g, x, St(), fptr, fs.END_MARK, w);
    }

    /** The write-back of a dirty buffer whose sector may be freed by now. */
    method DropBuf()
      requires fs.Valid() && buf.Length == 512 && sect < |fs.disk|
      requires !fs.g.InFatArea(sect) && !(fs.wflag && fs.winsect == sect)
      modifies this`dirty, fs`disk
      ensures fs.Valid() && !dirty && fs.View() == old(fs.View())[sect := buf[..]]
      ensures fs.FatTable() == old(fs.FatTable())
    {
      hide Volume.Valid, Volume.View, Volume.FatTable, PutSectors;
      ghost var w := fs.View();
      fs.DiskWrite(buf[..], sect);
      PutOneSector(w, sect, buf[..]);
      dirty := false;
    }

    // ---------------------------------------------------------------- f_lseek

    /** f_lseek's walk along the chain from the start of the current cluster, stretching it
        when the file is open for writing.  The result is what is left to go inside the
        cluster reached, 0 when the disk was full. */
    method Walk(ofs0: nat, ghost q0: nat) returns (ofs: nat, ghost q: nat)
      requires Good() && 0 < ofs0 && AtCluster(fs.g, St(), q0, fptr, clust) && 0 < ClusterBytes(fs.g)
      requires !canWrite ==> fptr + ofs0 <= objsize
      modifies this`fptr, this`clust, this`sclust, this`chain
      modifies fs`disk, fs`wflag, fs`winsect, fs`freeClst, fs`lastClst, fs`fsiFlag, fs.win
      ensures Good() && Bytes() == old(Bytes()) && Confined(fs.g, old(St()), St())
      ensures ofs != 0 ==> AtCluster(fs.g, St(), q, fptr, clust) && ofs <= ClusterBytes(fs.g)
      ensures ofs != 0 ==> fptr + ofs == old(fptr) + ofs0
      ensures ofs == 0 ==> PastCluster(fs.g, St(), q, fptr, clust)
      ensures ofs == 0 ==> canWrite && fptr < old(fptr) + ofs0
      ensures q0 <= q && old(chain) <= chain && (|chain| == |old(chain)| || |chain| <= q + 1)
      ensures chain == old(chain) ==> fs.FatTable() == old(fs.FatTable())
      ensures old(fptr) + ofs0 <= objsize ==> ofs != 0 && chain == old(chain)
      ensures old(fs.FreeExact()) ==> fs.FreeExact()
      ensures ofs == 0 && old(fs.FreeExact()) ==> FreeSet(fs.FatTable()) == {}
    {
      hide Volume.Valid, Volume.View, Volume.FatTable, Stable, Contents, Confined, CountExact, FreeSet, AtCluster,
        PastCluster, ClusterBytes;
      ghost var x, goal: nat := St(), fptr + ofs0;
      Sizes(fs.g, x);
      SettledConfined(fs.g, x, x);
      var clst := clust;
      var bcs := ClusterBytes(fs.g);
      ofs := ofs0;
      q := q0;
      while ofs > bcs
        invariant Good() && Bytes() == old(Bytes()) && Confined(fs.g, x, St())
        invariant 0 < ofs && fptr + ofs == goal && clst == clust && AtCluster(fs.g, St(), q, fptr, clust)
        invariant old(fs.FreeExact()) ==> fs.FreeExact()
        invariant q0 <= q && old(chain) <= chain && (|chain| == |old(chain)| || |chain| <= q + 1)
        invariant |chain| == |old(chain)| ==> chain == old(chain) && fs.FatTable() == old(fs.FatTable())
        invariant goal <= objsize ==> |chain| == |old(chain)|
      {
        ghost var y := St();
        NextCluster(fs.g, y, q, fptr, clust);
        ofs := ofs - bcs;
        fptr := fptr + bcs;
        clst := Next(clst, q);
        ConfinedChain(fs.g, x, y, St());
        if clst == 0 {
          ofs := 0;
          AtClusterAfter(fs.g, y, St(), q, fptr - bcs, clust);
          return;
        }
        q := q + 1;
        clust := clst;
        AtNextCluster(fs.g, y, St(), q, fptr, clust);
      }
    }

    /** The cluster after `c`, the `q`-th: for writing, a new one if need be. */
    method Next(c: nat, ghost q: nat) returns (clst: nat)
      requires Good() && q < |chain| && c == chain[q] && c in chain && InRange(fs.FatTable(), c) && c != 0
      requires 0 < fs.g.csize && 2 < fs.g.nFatent
      requires InRange(fs.FatTable(), fs.FatTable()[c]) <==> q + 1 < |chain|
      requires q + 1 < |chain| ==> fs.FatTable()[c] == chain[q + 1]
      requires canWrite || q + 1 < |chain|
      modifies this`sclust, this`chain
      modifies fs`disk, fs`wflag, fs`winsect, fs`freeClst, fs`lastClst, fs`fsiFlag, fs.win
      ensures Good() && Bytes() == old(Bytes()) && Confined(fs.g, old(St()), St())
      ensures chain == old(chain) ==> fs.FatTable() == old(fs.FatTable())
      ensures clst == 0 ==> chain == old(chain) && canWrite && q + 1 == |chain|
      ensures clst != 0 ==> if q + 1 < |old(chain)| then chain == old(chain) && clst == chain[q + 1] else chain == old(chain) + [clst]
      ensures old(fs.FreeExact()) ==> fs.FreeExact()
      ensures clst == 0 && old(fs.FreeExact()) ==> FreeSet(fs.FatTable()) == {}
    {
      hide Volume.Valid, Volume.View, Volume.FatTable, Stable, Contents, Confined, CountExact, FreeSet, EntryReads;
      ghost var y := St();
      InChain(fs.g, y, c);
      if canWrite {
        clst := Follow(c);
      } else {
        clst := fs.GetFat(c);
        WindowMoved(fs.g, y, fs.wflag, fs.winsect);
        assert St() == y.(wflag := fs.wflag, winsect := fs.winsect);
        SettledConfined(fs.g, y, St());
      }
    }

    /** Where f_lseek starts its walk: at the current cluster when the goal is not before
        it, else at the first, which is taken when there is none.  Not `started` means
        that the disk had no first cluster to give. */
    method Start(goal: nat) returns (started: bool, ofs: nat, ghost q: nat)
      requires Valid() && 0 < goal && (!canWrite ==> goal <= objsize)
      modifies this`fptr, this`clust, this`sclust, this`chain
      modifies fs`disk, fs`wflag, fs`winsect, fs`freeClst, fs`lastClst, fs`fsiFlag, fs.win
      ensures Good() && Bytes() == old(Bytes())
      ensures 0 < ClusterBytes(fs.g) && Confined(fs.g, old(St()), St())
      ensures started ==> AtCluster(fs.g, St(), q, fptr, clust) && 0 < ofs && fptr + ofs == goal
      ensures !started ==> canWrite && fptr == 0 && chain == old(chain)
      ensures old(chain) <= chain && (|chain| == |old(chain)| || |chain| <= q + 1)
      ensures chain == old(chain) ==> fs.FatTable() == old(fs.FatTable())
      ensures goal <= objsize ==> started && chain == old(chain)
      ensures old(fs.FreeExact()) ==> fs.FreeExact()
      ensures !started && old(fs.FreeExact()) ==> FreeSet(fs.FatTable()) == {}
    {
      hide Volume.Valid, Volume.View, Volume.FatTable, Stable, Contents, Confined, CountExact, FreeSet, AtCluster;
      hide AtPointer, HoldsByte, ByteSector, ClusterIndex, ClusterOffset, Owner, Fits, And, PowerOfTwo;
      ghost var x := St();
      Sizes(fs.g, x);
      SettledConfined(fs.g, x, x);
      var bcs := ClusterBytes(fs.g);
      var ifptr := fptr;
      fptr := 0;
      q := 0;
      started := true;
      ofs := goal;
      if ifptr > 0 && (goal - 1) / bcs >= (ifptr - 1) / bcs {
        CurrentCluster(fs.g, x, ifptr, clust);
        SeekForward(fs.g, goal - 1, ifptr - 1);
        fptr := ifptr - 1 - And(ifptr - 1, bcs - 1);
        ofs := goal - fptr;
        q := ClusterIndex(fs.g, (ifptr - 1) / 512);
      } else {
        if sclust == 0 {
          EmptyFile(fs.g, x);
        }
        started := StartAtTop();
      }
    }

    /** The first cluster of the file, taken if there is none. */
    method StartAtTop() returns (started: bool)
      requires Good() && fptr == 0
      modifies this`clust, this`sclust, this`chain
      modifies fs`disk, fs`wflag, fs`winsect, fs`freeClst, fs`lastClst, fs`fsiFlag, fs.win
      ensures Good() && Bytes() == old(Bytes()) && Confined(fs.g, old(St()), St())
      ensures started ==> AtCluster(fs.g, St(), 0, 0, clust)
      ensures old(sclust) != 0 || !started ==> chain == old(chain)
      ensures old(sclust) != 0 ==> started
      ensures old(chain) <= chain && (|chain| == |old(chain)| || |chain| <= 1)
      ensures chain == old(chain) ==> fs.FatTable() == old(fs.FatTable())
      ensures old(fs.FreeExact()) ==> fs.FreeExact()
      ensures !started && old(fs.FreeExact()) ==> FreeSet(fs.FatTable()) == {}
    {
      hide Volume.Valid, Volume.View, Volume.FatTable, Volume.FreeExact, Stable, Contents, Confined, FreeSet,
        AtCluster, Owner, PowerOfTwo;
      ghost var x := St();
      Sizes(fs.g, x);
      SettledConfined(fs.g, x, x);
      var clst := sclust;
      if clst == 0 {
        EmptyFile(fs.g, x);
        clst := Follow(0);
      }
      clust := clst;
      started := clst != 0;
      if started {
        FirstCluster(fs.g, St(), clst);
      }
    }

    /** The end of f_lseek: `ofs` bytes into the current cluster, or at its end (0), the
        size grown to the pointer and the sector of the pointer in the buffer. */
    method Land(ofs: nat, ghost q: nat)
      requires Good() && ofs <= ClusterBytes(fs.g) && fptr + ofs < 0x1_0000_0000
      requires if ofs == 0 then PastCluster(fs.g, St(), q, fptr, clust) else AtCluster(fs.g, St(), q, fptr, clust)
      modifies this`fptr, this`sect, this`dirty, this`objsize, this`modified, buf, fs`disk
      ensures Valid() && fptr == old(fptr) + ofs && objsize == (if fptr > old(objsize) then fptr else old(objsize))
      ensures objsize != old(objsize) ==> modified
      ensures Bytes()[..old(objsize)] == old(Bytes()) && fs.FatTable() == old(fs.FatTable())
      ensures 0 < fs.g.csize && 2 < fs.g.nFatent && Confined(fs.g, old(St()), St()) && (old(OwnBuffer()) ==> OwnBuffer())
    {
      hide Volume.Valid, Volume.View, Volume.FatTable, Stable, Contents, Confined, AtCluster, PastCluster, ClusterBytes;
      hide AtPointer, HoldsByte, ByteSector, ClusterIndex, ClusterOffset, Owner, Fits, Fill, SectorOf, Clusters;
      ghost var x := St();
      Sizes(fs.g, x);
      var nsect: nat := 0;
      if ofs == 0 {
        LandedPast(fs.g, x, q, fptr, clust);
      } else {
        Landing(fs.g, x, q, fptr, clust, ofs);
        if ofs % 512 != 0 {
          nsect := fs.Clst2Sect(clust);
          assert nsect != 0;
          nsect := nsect + ofs / 512;
        }
      }
      fptr := fptr + ofs;
      Settle(nsect);
    }

    /** The size grown to the pointer and the sector of the pointer in the buffer. */
    method Settle(nsect: nat)
      requires Good() && 0 < fptr < 0x1_0000_0000 && HoldsByte(fs.g, St(), fptr - 1, clust) && Fits(fs.g, chain, fptr)
      requires 0 < fs.g.csize && 2 < fs.g.nFatent
      requires fptr % 512 != 0 ==> nsect == ByteSector(fs.g, St(), fptr) && Owner(fs.g, nsect) != 0 && Owner(fs.g, nsect) in chain
      modifies this`sect, this`dirty, this`objsize, this`modified, buf, fs`disk
      ensures Valid() && objsize == (if fptr > old(objsize) then fptr else old(objsize))
      ensures objsize != old(objsize) ==> modified
      ensures Bytes()[..old(objsize)] == old(Bytes()) && fs.FatTable() == old(fs.FatTable())
      ensures Confined(fs.g, old(St()), St()) && (old(OwnBuffer()) ==> OwnBuffer())
    {
      hide Volume.Valid, Volume.View, Volume.FatTable, Stable, Contents, Confined;
      hide AtPointer, HoldsByte, ByteSector, ClusterIndex, ClusterOffset, Owner, Fits, Fill, SectorOf, Clusters;
      ghost var x := St();
      ghost var n := if fptr > objsize then fptr else objsize;
      ghost var y := x.(objsize := n);
      Sizes(fs.g, x);
      Extended(fs.g, x, n);
      ExtendedConfined(fs.g, x, n);
      if fptr > objsize {
        objsize := fptr;
        modified := true;
      }
      assert St() == y;
      HeldAgain(fs.g, x, y, fptr - 1, clust);
      HeldAgain(fs.g, x, y, fptr, clust);
      Aim(nsect);
      ConfinedChain(fs.g, x, y, St());
    }

    /** A pointer set inside the file: the buffer gets its sector unless it is on a
        boundary. */
    method Aim(nsect: nat)
      requires Good() && 0 < fptr <= objsize && HoldsByte(fs.g, St(), fptr - 1, clust)
      requires 0 < fs.g.csize && 2 < fs.g.nFatent
      requires fptr % 512 != 0 ==> nsect == ByteSector(fs.g, St(), fptr) && Owner(fs.g, nsect) != 0 && Owner(fs.g, nsect) in chain
      modifies this`sect, this`dirty, buf, fs`disk
      ensures Valid() && Bytes() == old(Bytes()) && fs.FatTable() == old(fs.FatTable())
      ensures Confined(fs.g, old(St()), St()) && (old(OwnBuffer()) ==> OwnBuffer())
    {
      hide Volume.Valid, Volume.View, Volume.FatTable, Stable, Contents, Confined;
      hide AtPointer, HoldsByte, ByteSector, ClusterIndex, ClusterOffset, Owner, Fits, Fill;
      ghost var y := St();
      SettledConfined(fs.g, y, y);
      if fptr % 512 != 0 {
        FillConfined(fs.g, y, nsect);
        FillBuf(nsect);
        FilledAt(fs.g, y, nsect, fptr - 1, clust);
        FilledAt(fs.g, y, nsect, fptr, clust);
      }
      PointerSet(fs.g, St(), fptr, clust);
    }

    /** f_lseek without a link map: the pointer moves to `ofs0`, in a file open for writing
        also past its end, as far as the disk has room.  The bytes there were stay. */
    method Lseek(ofs0: nat) returns (res: FResult)
      requires Valid() && ofs0 < 0x1_0000_0000
      modifies this`fptr, this`clust, this`sect, this`dirty, this`objsize, this`sclust, this`chain, this`modified, buf
      modifies fs`disk, fs`wflag, fs`winsect, fs`freeClst, fs`lastClst, fs`fsiFlag, fs.win
      ensures Valid() && res == FR_OK
      ensures fptr <= (if ofs0 > old(objsize) && !canWrite then old(objsize) else ofs0)
      ensures objsize == (if fptr > old(objsize) then fptr else old(objsize)) && (objsize != old(objsize) ==> modified)
      ensures Bytes()[..old(objsize)] == old(Bytes())
      ensures ofs0 <= old(objsize) ==> fptr == ofs0 && chain == old(chain) && fs.FatTable() == old(fs.FatTable())
      ensures old(fs.FreeExact()) ==> fs.FreeExact()
      ensures fptr < (if ofs0 > old(objsize) && !canWrite then old(objsize) else ofs0) ==>
        canWrite && (old(fs.FreeExact()) ==> FreeSet(fs.FatTable()) == {})
      ensures Grew(fs.g, old(chain), chain, fptr) && (old(OwnBuffer()) ==> OwnBuffer())
      ensures 0 < fs.g.csize && 2 < fs.g.nFatent && Confined(fs.g, old(St()), St())
    {
      hide Volume.Valid, Volume.View, Volume.FatTable, Stable, Contents, Confined, CountExact, FreeSet;
      hide AtPointer, AtCluster, PastCluster, ClusterBytes, HoldsByte, ByteSector, ClusterIndex, ClusterOffset, Owner, Fits;
      hide Grew, GrewTo, Kept;
      ghost var x := St();
      Sizes(fs.g, x);
      SettledConfined(fs.g, x, x);
      NotGrown(fs.g, x.chain, 0);
      res := FR_OK;
      var ofs := ofs0;
      if ofs > objsize && !canWrite {
        ofs := objsize;
      }
      if ofs == 0 {
        fptr := 0;
        PointerSet(fs.g, x, 0, clust);
        GrewExactly(fs.g, x.chain, St(), fptr, clust);
        return;
      }
      ghost var q: nat;
      var started;
      started, ofs, q := Start(ofs);
      if !started {
        PointerSet(fs.g, St(), 0, clust);
        GrewExactly(fs.g, x.chain, St(), fptr, clust);
        return;
      }
      ghost var y := St();
      ofs, q := Walk(ofs, q);
      ConfinedChain(fs.g, x, y, St());
      ghost var z := St();
      LandedAt(fs.g, z, q, fptr, clust, ofs, x.chain);
      Land(ofs, q);
      ConfinedChain(fs.g, x, z, St());
      GrewExactly(fs.g, x.chain, St(), fptr, clust);
    }

    // ---------------------------------------------------------------- f_sync

    /** What f_sync does for a modified file, but for the directory entry: nothing is pending any more, the disk itself
        holds the bytes of the file and two equal tables. */
    method Sync()
      requires Valid()
      requires fs.g.kind.Fat32? && fs.fsiFlag == 1 ==> fs.g.volbase + 1 < fs.g.fatbase
      modifies this`dirty, this`modified, fs`disk, fs`wflag, fs`winsect, fs`fsiFlag, fs.win
      ensures Valid() && Bytes() == old(Bytes()) && !dirty && !modified && !fs.wflag
      ensures fs.g.DataFits(|fs.disk|) && Clusters(fs.g, chain) && Fits(fs.g, chain, objsize)
      ensures FileBytes(fs.g, fs.disk, chain, objsize) == Bytes()
      ensures fs.g.FatFits(|fs.disk|) && Table(fs.g, fs.disk) == old(fs.FatTable()) && Mirrored(fs.g, fs.disk)
      ensures old(fs.FreeExact()) ==> fs.FreeExact()
    {
      hide Volume.Valid, Volume.View, Volume.FatTable, CountExact, Stable, Contents, AtPointer, Owner;
      hide Mirrored, Table, FsInfo, Clusters, Fits, FileBytes, Flush;
      ghost var x0 := St();
      FlushBuf();
      FlushedPlace(fs.g, x0, fptr, clust);
      ghost var x := St();
      Sizes(fs.g, x);
      fs.SyncFs();
      fs.Settled();
      SystemSector(fs.g, |x.v|);
      TablesRewritten(fs.g, x, fs.View());
      ghost var y := x.(v := fs.View());
      WindowMoved(fs.g, y, false, fs.winsect);
      modified := false;
      assert St() == y.(wflag := false, winsect := fs.winsect);
      StillAtPointer(fs.g, x, St(), fptr, clust);
      CleanContents(fs.g, St());
    }

    // ---------------------------------------------------------------- together

    /** What was written is read back: a write, a seek to where it began and a read. */
    method WriteThenRead(data: seq<Byte>, buff: array<Byte>) returns (bw: nat)
      requires Valid() && canRead && canWrite && |data| < 0x1_0000_0000 && buff.Length == |data|
      requires buff != buf && buff != fs.win
      modifies this`fptr, this`clust, this`sect, this`dirty, this`objsize, this`sclust, this`chain, this`modified, buf, buff
      modifies fs`disk, fs`wflag, fs`winsect, fs`freeClst, fs`lastClst, fs`fsiFlag, fs.win
      ensures Valid() && bw <= |data| && buff[..bw] == data[..bw]
      ensures bw < |data| && old(fptr) + bw < 0xFFFF_FFFF && old(fs.FreeExact()) ==> FreeSet(fs.FatTable()) == {}
    {
      hide Volume.Valid, Volume.View, Volume.FatTable, Stable, Contents, AtPointer, Confined, FreeSet, CountExact,
        Grew, Written;
      ghost var start := fptr;
      PointerInside(fs.g, St(), fptr, clust);
      Sizes(fs.g, St());
      var res;
      res, bw := Write(data);
      ghost var c := Bytes();
      WrittenAt(old(Bytes()), start, data[..bw]);
      PointerInside(fs.g, St(), fptr, clust);
      Sizes(fs.g, St());
      res := Lseek(fptr - bw);
      PrefixPart(c, Bytes(), start, bw);
      var br;
      res, br := Read(buff, bw);
    }
  }
}
