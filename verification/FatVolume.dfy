/** A mounted FAT volume: the one-sector access window with its write-back and mirror
    write, the table behind it, and allocation on top of the table. */
module FatVolume {
  import opened FatLayout
  import opened FatChain
  import opened FatData

  class Volume {
    const g: Geometry
    var disk: seq<Sector>
    const win: array<Byte>
    var winsect: nat
    var wflag: bool
    var freeClst: nat
    var lastClst: nat
    var fsiFlag: nat

    /** A volume just mounted: no window in use, the two tables alike. */
    constructor (g: Geometry, disk: seq<Sector>, free: nat, last: nat)
      requires g.Valid(|disk|) && g.FatFits(|disk|) && Mirrored(g, disk)
      ensures Valid() && View() == disk && this.g == g && freeClst == free && lastClst == last
    {
      this.g, this.disk := g, disk;
      win := new Byte[512](_ => 0);
      winsect, wflag, fsiFlag := g.volbase, false, 0;
      freeClst, lastClst := free, last;
    }

    /** The disk as it will be once the window is flushed, both tables included. */
    ghost function View(): (v: seq<Sector>)
      reads this`disk, this`wflag, this`winsect, win
      ensures |v| == |disk|
    {
      if wflag && winsect < |disk| && win.Length == 512 then
        var d := disk[winsect := win[..]];
        if g.InFat1(winsect) && g.nFats == 2 && winsect + g.fsize < |disk|
        then d[winsect + g.fsize := win[..]] else d
      else disk
    }

    ghost predicate Valid()
      reads this`disk, this`wflag, this`winsect, win
    {
      && win.Length == 512
      && g.Valid(|disk|)
      && g.FatFits(|disk|)
      && (wflag ==> winsect < |disk| && (g.InFatArea(winsect) ==> g.InFat1(winsect)))
      && (!wflag && g.InFat1(winsect) ==> win[..] == disk[winsect])
      && Mirrored(g, View())
    }

    ghost function FatTable(): (t: seq<nat>)
      reads this`disk, this`wflag, this`winsect, win
      requires Valid()
      ensures |t| == g.nFatent && 2 < |t|
    {
      Table(g, View())
    }

    /** The free-cluster count is out of range (unknown) or exact. */
    ghost predicate FreeExact()
      reads this, win
      requires Valid()
    {
      CountExact(freeClst, FatTable())
    }

    /** A dirty window is over the table, or where it was. */
    twostate predicate WindowKept()
      reads this`wflag, this`winsect
    {
      wflag ==> g.InFat1(winsect) || (old(wflag) && winsect == old(winsect))
    }

    /** The FSInfo sector is due when the count or the cluster last taken has changed: bit 0
        of the flag is set, and the other bits stay. */
    twostate predicate InfoDue()
      reads this`fsiFlag, this`freeClst, this`lastClst
    {
      if old(fsiFlag) % 2 == 1 then fsiFlag == old(fsiFlag)
      else fsiFlag == old(fsiFlag) + 1 || (fsiFlag == old(fsiFlag) && freeClst == old(freeClst) && lastClst == old(lastClst))
    }

    lemma Bounds(clst: nat)
      requires Valid() && clst < g.nFatent
      ensures win.Length == 512 && g.FatFits(|disk|) && g.fatbase + g.fsize <= |disk|
      ensures EntryFits(g.kind, g.fsize * 512, clst)
      ensures FatTable()[clst] == Entry(g.kind, Image(g, View()), clst)
    {
      EntriesFit(g, |disk|, clst);
    }

    /** The bytes of both copies say what the table says. */
    lemma Reads(clst: nat)
      requires Valid() && clst < g.nFatent
      ensures EntryReads(g.kind, View(), g.fatbase, clst, FatTable()[clst])
      ensures g.nFats == 2 ==> EntryReads(g.kind, View(), g.fatbase + g.fsize, clst, FatTable()[clst])
    {
      TableReads(g, View(), clst);
    }

    method SyncWindow()
      requires Valid()
      modifies this`disk, this`wflag
      ensures Valid() && !wflag && View() == old(View())
    {
      if wflag {
        disk := disk[winsect := win[..]];
        wflag := false;
        if g.fatbase <= winsect < g.fatbase + g.fsize {
          if g.nFats == 2 {
            disk := disk[winsect + g.fsize := win[..]];
          }
        }
      }
    }

    method MoveWindow(sect: nat)
      requires Valid() && sect < |disk|
      modifies this`disk, this`wflag, this`winsect, win
      ensures WindowKept()
      ensures Valid() && View() == old(View()) && FatTable() == old(FatTable()) && winsect == sect
      ensures g.InFat1(sect) ==> win[..] == View()[sect]
    {
      if sect != winsect {
        SyncWindow();
        var s := disk[sect];
        forall i | 0 <= i < 512 { win[i] := s[i]; }
        assert win[..] == s;
        winsect := sect;
      }
    }

    /** Stores one byte into a table sector in the window and marks the window dirty. */
    method StoreByte(off: nat, b: Byte)
      requires Valid() && off < g.fsize * 512 && winsect == g.fatbase + off / 512
      modifies this`wflag, win
      ensures Valid() && View() == SetFatByte(g, old(View()), off, b)
      ensures g.InFat1(winsect)
      ensures |disk| == old(|disk|)
    {
      ghost var v := View();
      assert v[winsect] == win[..];
      SetFatByteImage(g, v, off, b);
      win[off % 512] := b;
      wflag := true;
      assert win[..] == v[winsect][off % 512 := b];
      assert View() == SetFatByte(g, v, off, b);
    }

    /** A byte of the table, the window being on its sector. */
    method LoadByte(off: nat) returns (b: Byte)
      requires Valid() && off < g.fsize * 512 && winsect == g.fatbase + off / 512
      ensures b == Image(g, View())[off]
    {
      assert View()[winsect] == win[..];
      b := win[off % 512];
    }

    /** A FAT16 or FAT32 entry, the window being on its sector. */
    method LoadEntry(c: nat) returns (val: nat)
      requires Valid() && !g.kind.Fat12? && c < g.nFatent
      requires winsect == g.fatbase + EntryOffset(g.kind, c) / 512
      ensures val == FatTable()[c]
    {
      hide Volume.Valid, Volume.View, Volume.FatTable, Geometry.Valid, Mirrored, Image, Table, Word, Dword, EntryOffset;
      Bounds(c);
      EntryInSector(g.kind, c);
      var o := EntryOffset(g.kind, c);
      var b0 := LoadByte(o);
      var b1 := LoadByte(o + 1);
      if g.kind.Fat16? {
        return Word(b0, b1);
      }
      var b2 := LoadByte(o + 2);
      var b3 := LoadByte(o + 3);
      return Dword(b0, b1, b2, b3) % 0x1000_0000;
    }

    /** get_fat's case for FAT12: the two bytes of an entry may lie in two sectors. */
    method GetFat12(clst: nat) returns (val: nat)
      requires Valid() && g.InRange(clst) && g.kind == Fat12
      modifies this`disk, this`wflag, this`winsect, win
      ensures WindowKept()
      ensures Valid() && View() == old(View()) && FatTable() == old(FatTable()) && val == FatTable()[clst]
    {
      hide Volume.Valid, Volume.View, Geometry.Valid, Mirrored, Image, Table, SetFatByte, SetFatSector;
      Bounds(clst);
      var bc := clst + clst / 2;
      MoveWindow(g.fatbase + bc / 512);
      var b0 := LoadByte(bc);
      bc := bc + 1;
      MoveWindow(g.fatbase + bc / 512);
      var b1 := LoadByte(bc);
      val := Unpacked12(clst % 2 == 1, b0, b1);
    }

    /** The value of an entry; 1 for a cluster number outside the table. */
    method GetFat(clst: nat) returns (val: nat)
      requires Valid()
      modifies this`disk, this`wflag, this`winsect, win
      ensures WindowKept()
      ensures Valid() && View() == old(View()) && FatTable() == old(FatTable())
      ensures val == if g.InRange(clst) then FatTable()[clst] else 1
      ensures g.InRange(clst) ==> EntryReads(g.kind, View(), g.fatbase, clst, val)
    {
      hide Volume.Valid, Volume.View, Geometry.Valid, Mirrored, Image, Table, SetFatByte, SetFatSector, EntryReads;
      if clst < 2 || clst >= g.nFatent {
        return 1;
      }
      Bounds(clst);
      Reads(clst);
      match g.kind {
        case Fat12 => val := GetFat12(clst);
        case Fat16 =>
          MoveWindow(g.fatbase + clst / 256);
          val := LoadEntry(clst);
        case Fat32 =>
          MoveWindow(g.fatbase + clst / 128);
          val := LoadEntry(clst);
      }
    }

    method PutFat12(clst: nat, val: nat)
      requires Valid() && g.InRange(clst) && g.kind == Fat12
      requires EntryFits(Fat12, g.fsize * 512, clst)
      modifies this`disk, this`wflag, this`winsect, win
      ensures WindowKept()
      ensures Valid() && |disk| == old(|disk|)
      ensures View() == StoreInView(g, old(View()), clst, val)
    {
      hide Volume.Valid, Volume.View, Geometry.Valid, Mirrored, Image, Table, SetFatByte, SetFatSector, First12, Second12;
      Bounds(clst);
      var bc := clst + clst / 2;
      MoveWindow(g.fatbase + bc / 512);
      var p := LoadByte(bc);
      var b := First12(clst % 2 == 1, p, val);
      StoreByte(bc, b);
      bc := bc + 1;
      MoveWindow(g.fatbase + bc / 512);
      p := LoadByte(bc);
      SetFatByteImage(g, old(View()), bc - 1, b);
      StoreByte(bc, Second12(clst % 2 == 1, p, val));
    }

    method PutFat16(clst: nat, val: nat)
      requires Valid() && g.InRange(clst) && g.kind == Fat16
      requires EntryFits(Fat16, g.fsize * 512, clst)
      modifies this`disk, this`wflag, this`winsect, win
      ensures WindowKept()
      ensures Valid() && |disk| == old(|disk|)
      ensures View() == StoreInView(g, old(View()), clst, val)
    {
      hide Volume.Valid, Volume.View, Geometry.Valid, Mirrored, Image, Table, SetFatByte, SetFatSector;
      Bounds(clst);
      MoveWindow(g.fatbase + clst / 256);
      StoreByte(2 * clst, val % 256);
      StoreByte(2 * clst + 1, val / 256 % 256);
    }

    method PutFat32(clst: nat, val: nat)
      requires Valid() && g.InRange(clst) && g.kind == Fat32
      requires EntryFits(Fat32, g.fsize * 512, clst)
      modifies this`disk, this`wflag, this`winsect, win
      ensures WindowKept()
      ensures Valid() && |disk| == old(|disk|)
      ensures View() == StoreInView(g, old(View()), clst, val)
    {
      hide Volume.Valid, Volume.View, Geometry.Valid, Mirrored, Image, Table, SetFatByte, SetFatSector, Top32;
      Bounds(clst);
      MoveWindow(g.fatbase + clst / 128);
      var p := LoadByte(4 * clst + 3);
      StoreByte(4 * clst, val % 256);
      StoreByte(4 * clst + 1, val / 256 % 256);
      StoreByte(4 * clst + 2, val / 0x1_0000 % 256);
      StoreByte(4 * clst + 3, Top32(p, val));
    }

    /** Changes one entry of the table and nothing else on the volume. */
    method PutFat(clst: nat, val: nat) returns (res: FResult)
      requires Valid()
      modifies this`disk, this`wflag, this`winsect, win
      ensures WindowKept()
      ensures Valid() && |disk| == old(|disk|)
      ensures res == if g.InRange(clst) then FR_OK else FR_INT_ERR
      ensures res != FR_OK ==> View() == old(View()) && FatTable() == old(FatTable())
      ensures res == FR_OK ==> FatTable() == old(FatTable())[clst := val % Width(g.kind)]
      ensures res == FR_OK ==> EntryReads(g.kind, View(), g.fatbase, clst, val % Width(g.kind))
      ensures res == FR_OK && g.nFats == 2 ==> EntryReads(g.kind, View(), g.fatbase + g.fsize, clst, val % Width(g.kind))
      ensures res == FR_OK && EntryFits(g.kind, g.fsize * 512, clst) ==>
        View() == StoreInView(g, old(View()), clst, val)
      ensures SameData(g, old(View()), View())
    {
      hide StoreInView, Volume.Valid, Volume.View, Geometry.Valid, Mirrored, Image, Table, SetFatByte, SetFatSector,
        EntryReads;
      if !(2 <= clst < g.nFatent) {
        return FR_INT_ERR;
      }
      Bounds(clst);
      ghost var v := View();
      match g.kind {
        case Fat12 => PutFat12(clst, val);
        case Fat16 => PutFat16(clst, val);
        case Fat32 => PutFat32(clst, val);
      }
      StoreTable(g, v, clst, val);
      StoreInViewImage(g, v, clst, val);
      Reads(clst);
      return FR_OK;
    }

    const END_MARK: nat := EOC % Width(g.kind)

    lemma EndMarkEnds()
      requires Valid()
      ensures END_MARK >= g.nFatent
    {
      EndMarkOutOfRange(g, |disk|);
    }

    /** Frees a chain from `clst` on; `pclst`, when not 0, becomes its new end.  It ends on
        every table. */
    method RemoveChain(clst: nat, pclst: nat) returns (res: FResult)
      requires Valid()
      modifies this`disk, this`wflag, this`winsect, this`freeClst, this`fsiFlag, win
      ensures WindowKept()
      ensures Valid() && SameData(g, old(View()), View())
      ensures old(FreeExact()) && (g.InRange(pclst) ==> old(FatTable())[pclst] != 0) ==> FreeExact()
      ensures !g.InRange(clst) || (pclst != 0 && !g.InRange(pclst)) ==>
        res == FR_INT_ERR && View() == old(View())
      ensures g.InRange(clst) && (pclst == 0 || g.InRange(pclst)) ==>
        var t := if pclst == 0 then old(FatTable()) else old(FatTable())[pclst := END_MARK];
        FatTable() == Removed(t, clst).0 && (res == FR_OK <==> Removed(t, clst).1)
      ensures InfoDue()
    {
      hide Volume.Valid, Volume.View, Volume.FatTable, Geometry.Valid, Mirrored, StoreInView, CountExact, Removed,
        UsedSet, EntryReads;
      if clst < 2 || clst >= g.nFatent {
        return FR_INT_ERR;
      }
      ghost var exact := FreeExact() && (g.InRange(pclst) ==> FatTable()[pclst] != 0);
      if pclst != 0 {
        ghost var t0 := FatTable();
        res := PutFat(pclst, EOC);
        if res != FR_OK {
          return;
        }
        EndMarkEnds();
        if exact { CountKept(freeClst, t0, pclst, END_MARK); }
      }
      res := FreeFrom(clst);
    }

    /** remove_chain's loop. */
    method FreeFrom(clst: nat) returns (res: FResult)
      requires Valid() && g.InRange(clst)
      modifies this`disk, this`wflag, this`winsect, this`freeClst, this`fsiFlag, win
      ensures WindowKept()
      ensures Valid() && SameData(g, old(View()), View())
      ensures old(FreeExact()) ==> FreeExact()
      ensures FatTable() == Removed(old(FatTable()), clst).0 && (res == FR_OK <==> Removed(old(FatTable()), clst).1)
      ensures InfoDue()
    {
      hide Volume.Valid, Volume.View, Volume.FatTable, Geometry.Valid, Mirrored, StoreInView, CountExact, Removed,
        UsedSet, EntryReads;
      ghost var t := FatTable();
      ghost var u := t;
      var c: nat := clst;
      while true
        invariant Valid() && SameData(g, old(View()), View())
        invariant WindowKept()
        invariant u == FatTable() && g.InRange(c) && Removed(u, c) == Removed(t, clst) && InfoDue()
        invariant old(FreeExact()) ==> CountExact(freeClst, u)
        decreases |UsedSet(u)|
      {
        RemovedStep(u, c);
        var nxt := GetFat(c);
        if nxt == 0 { break; }
        if nxt == 1 { return FR_INT_ERR; }
        res := PutFat(c, 0);
        if old(FreeExact()) { CountFreed(freeClst, u, c); }
        if freeClst < g.nFatent - 2 {
          freeClst := freeClst + 1;
          fsiFlag := if fsiFlag % 2 == 0 then fsiFlag + 1 else fsiFlag;
        }
        u := FatTable();
        if nxt >= g.nFatent { break; }
        c := nxt;
      }
      return FR_OK;
    }

    /** Follows or stretches the chain at `clst`, or starts one (0).  0 means that no free
        cluster is left, 1 an inconsistent table. */
    method CreateChain(clst: nat) returns (ncl: nat)
      requires Valid()
      modifies this`disk, this`wflag, this`winsect, this`freeClst, this`lastClst, this`fsiFlag, win
      ensures WindowKept()
      ensures Valid() && SameData(g, old(View()), View())
      ensures Created(old(FatTable()), clst, ncl, FatTable(), END_MARK)
      ensures old(FreeExact()) ==> FreeExact()
      ensures old(FreeExact()) && ncl == 0 ==> FreeSet(FatTable()) == {}
      ensures InfoDue() && if FatTable() == old(FatTable()) then lastClst == old(lastClst)
                           else lastClst == ncl && Chosen(old(FatTable()), clst, old(lastClst), ncl)
    {
      hide Volume.Valid, Volume.View, Volume.FatTable, Geometry.Valid, Mirrored, StoreInView, CountExact, FreeSet,
        UsedSet, EntryReads;
      ghost var t := FatTable();
      var scl, cs: nat;
      if clst == 0 {
        scl := lastClst;
        if scl == 0 || scl >= g.nFatent {
          scl := 1;
        }
      } else {
        cs := GetFat(clst);
        if cs < 2 { return 1; }
        if cs < g.nFatent { return cs; }
        scl := clst;
      }
      if freeClst == 0 {
        EmptyCount(freeClst, t);
        return 0;
      }
      ncl := 0;
      if scl == clst {
        ncl := scl + 1;
        if ncl >= g.nFatent { ncl := 2; }
        cs := GetFat(ncl);
        if cs == 1 { return cs; }
        if cs != 0 {
          cs := lastClst;
          if 2 <= cs < g.nFatent { scl := cs; }
          ncl := 0;
        }
      }
      if ncl == 0 {
        ncl := FindFree(scl);
        if ncl < 2 { return; }
      }
      Link(clst, ncl);
    }

    /** create_chain's last step: `ncl` becomes the end of the chain of `clst`. */
    method Link(clst: nat, ncl: nat)
      requires Valid() && InRange(FatTable(), ncl) && FatTable()[ncl] == 0 && freeClst != 0
      requires clst == 0 || (InRange(FatTable(), clst) && FatTable()[clst] >= g.nFatent)
      modifies this`disk, this`wflag, this`winsect, this`freeClst, this`lastClst, this`fsiFlag, win
      ensures WindowKept()
      ensures Valid() && SameData(g, old(View()), View())
      ensures FatTable() == Linked(old(FatTable()), clst, ncl, END_MARK)
      ensures old(FreeExact()) ==> FreeExact()
      ensures lastClst == ncl && InfoDue() && FatTable() != old(FatTable())
    {
      hide Volume.Valid, Volume.View, Volume.FatTable, Geometry.Valid, Mirrored, StoreInView, CountExact, FreeSet,
        UsedSet, EntryReads;
      EndMarkEnds();
      LinkFits(ncl);
      if FreeExact() { CountLinked(freeClst, FatTable(), clst, ncl, END_MARK); }
      var res := PutFat(ncl, EOC);
      if res == FR_OK && clst != 0 {
        res := PutFat(clst, ncl);
      }
      lastClst := ncl;
      if freeClst <= g.nFatent - 2 {
        freeClst := freeClst - 1;
      }
      fsiFlag := if fsiFlag % 2 == 0 then fsiFlag + 1 else fsiFlag;
    }

    lemma LinkFits(ncl: nat)
      requires Valid() && g.InRange(ncl)
      ensures ncl % Width(g.kind) == ncl
    {
    }

    /** create_chain's search with wrap-around: a free cluster, or 0 when there is none, or
        1 when it meets an entry of value 1. */
    method FindFree(scl: nat) returns (ncl: nat)
      requires Valid() && 1 <= scl < g.nFatent
      modifies this`disk, this`wflag, this`winsect, win
      ensures WindowKept()
      ensures Valid() && View() == old(View()) && FatTable() == old(FatTable())
      ensures ncl == 0 ==> FreeSet(FatTable()) == {}
      ensures ncl == 1 ==> exists c :: InRange(FatTable(), c) && FatTable()[c] == 1
      ensures ncl > 1 ==> FirstAfter(FatTable(), scl, ncl)
    {
      hide Volume.Valid, Volume.View, Volume.FatTable, Geometry.Valid, EntryReads;
      ghost var t := FatTable();
      ghost var wrapped := false;
      ncl := scl;
      while true
        invariant Valid() && View() == old(View()) && FatTable() == t
        invariant WindowKept()
        invariant if wrapped then 2 <= ncl < scl else scl <= ncl < g.nFatent
        invariant if wrapped then AllUsed(t, scl + 1, |t|) && AllUsed(t, 2, ncl) else AllUsed(t, scl + 1, ncl)
        decreases if wrapped then 0 else 1, g.nFatent - ncl
      {
        ncl := ncl + 1;
        if ncl >= g.nFatent {
          ncl := 2;
          wrapped := true;
          if ncl > scl { return 0; }
        }
        var cs := GetFat(ncl);
        if cs == 0 { break; }
        if cs == 1 { return cs; }
        if ncl == scl { return 0; }
      }
    }

    /** Stores the FSInfo sector when due and leaves nothing pending: the disk itself holds
        both tables and, on FAT32, the free count. */
    method SyncFs()
      requires Valid()
      requires g.kind.Fat32? && fsiFlag == 1 ==> g.volbase + 1 < g.fatbase
      modifies this`disk, this`wflag, this`winsect, this`fsiFlag, win
      ensures Valid() && !wflag && disk == View() && |disk| == old(|disk|)
      ensures FatTable() == old(FatTable())
      ensures if g.kind.Fat32? && old(fsiFlag) == 1
        then fsiFlag == 0 && disk == old(View())[g.volbase + 1 := FsInfo(freeClst, lastClst)]
        else fsiFlag == old(fsiFlag) && disk == old(View())
    {
      SyncWindow();
      if g.kind.Fat32? && fsiFlag == 1 {
        var s := FsInfo(freeClst, lastClst);
        forall i | 0 <= i < 512 { win[i] := s[i]; }
        assert win[..] == s;
        winsect := g.volbase + 1;
        disk := disk[winsect := win[..]];
        SameFatSameTable(g, old(View()), disk);
        fsiFlag := 0;
      }
    }

    /** With a clean window the disk itself is what the volume shows. */
    lemma Settled()
      requires Valid() && !wflag
      ensures disk == View() && g.FatFits(|disk|) && Table(g, disk) == FatTable() && Mirrored(g, disk)
    {
    }

    /** The number of free clusters: the stored count when it is in range, else a scan. */
    method GetFree() returns (res: FResult, nclst: nat)
      requires Valid()
      modifies this`disk, this`wflag, this`winsect, this`freeClst, this`fsiFlag, win
      ensures WindowKept()
      ensures Valid() && View() == old(View()) && FatTable() == old(FatTable())
      ensures old(freeClst) <= g.nFatent - 2 ==> res == FR_OK && nclst == freeClst == old(freeClst)
      ensures old(freeClst) > g.nFatent - 2 && res == FR_OK ==>
        nclst == freeClst == |ZeroSet(FatTable(), if g.kind.Fat12? then 2 else 0, g.nFatent)|
      ensures old(freeClst) > g.nFatent - 2 && res == FR_OK && g.kind.Fat12? ==> FreeExact()
      ensures old(freeClst) > g.nFatent - 2 && res == FR_OK && !g.kind.Fat12? ==>
        (FreeExact() <==> (FatTable()[0] != 0 && FatTable()[1] != 0) || freeClst > g.nFatent - 2)
      ensures old(FreeExact()) && (old(freeClst) <= g.nFatent - 2 || res != FR_OK) ==> FreeExact()
      ensures res != FR_OK ==> g.kind.Fat12? && freeClst == old(freeClst)
      ensures InfoDue() && (old(freeClst) > g.nFatent - 2 && res == FR_OK ==> fsiFlag % 2 == 1)
      ensures res != FR_OK ==> exists c :: InRange(FatTable(), c) && FatTable()[c] == 1
    {
      hide Volume.Valid, Volume.View, Volume.FatTable, Geometry.Valid, Mirrored, Image, Table, ZeroSet, FreeSet, EntryReads;
      ghost var t := FatTable();
      ScanIsFreeCount(t);
      if freeClst <= g.nFatent - 2 {
        return FR_OK, freeClst;
      }
      var nfree := 0;
      res := FR_OK;
      if g.kind.Fat12? {
        var clst: nat := 2;
        EmptyZeroSet(t, 2);
        while clst < g.nFatent
          invariant Valid() && View() == old(View()) && FatTable() == t
          invariant WindowKept()
          invariant freeClst == old(freeClst) && fsiFlag == old(fsiFlag)
          invariant 2 <= clst <= g.nFatent && nfree == |ZeroSet(t, 2, clst)|
        {
          var stat := GetFat(clst);
          if stat == 1 {
            assert InRange(t, clst) && t[clst] == 1;
            return FR_INT_ERR, 0;
          }
          ZeroSetStep(t, 2, clst);
          if stat == 0 { nfree := nfree + 1; }
          clst := clst + 1;
        }
      } else {
        nfree := ScanTable();
      }
      freeClst := nfree;
      fsiFlag := if fsiFlag % 2 == 0 then fsiFlag + 1 else fsiFlag;
      nclst := nfree;
    }

    /** f_getfree's sweep over the sectors of a FAT16 or FAT32 table. */
    method ScanTable() returns (nfree: nat)
      requires Valid() && !g.kind.Fat12?
      modifies this`disk, this`wflag, this`winsect, win
      ensures WindowKept()
      ensures Valid() && View() == old(View()) && FatTable() == old(FatTable())
      ensures nfree == |ZeroSet(FatTable(), 0, g.nFatent)|
    {
      hide Volume.Valid, Volume.View, Volume.FatTable, Geometry.Valid, Mirrored, Image, Table, ZeroSet, EntryOffset;
      ghost var t := FatTable();
      ghost var v := View();
      assert EntryOffset(g.kind, 0) == 0 by { FirstEntry(g.kind); }
      EmptyZeroSet(t, 0);
      var clst: nat := g.nFatent;
      var sect := g.fatbase;
      var i := 0;
      nfree := 0;
      var w := if g.kind.Fat16? then 2 else 4;
      while clst > 0
        invariant Valid() && View() == v && FatTable() == t && clst <= g.nFatent
        invariant WindowKept()
        invariant i == EntryOffset(g.kind, g.nFatent - clst) % 512
        invariant i == 0 ==> sect == g.fatbase + EntryOffset(g.kind, g.nFatent - clst) / 512
        invariant i != 0 ==> winsect == g.fatbase + EntryOffset(g.kind, g.nFatent - clst) / 512 && sect == winsect + 1
        invariant nfree == |ZeroSet(t, 0, g.nFatent - clst)|
      {
        ghost var e := g.nFatent - clst;
        Bounds(e);
        EntryInSector(g.kind, e);
        if i == 0 {
          MoveWindow(sect);
          sect := sect + 1;
        }
        ZeroSetStep(t, 0, e);
        var val := LoadEntry(g.nFatent - clst);
        if val == 0 { nfree := nfree + 1; }
        i := (i + w) % 512;
        clst := clst - 1;
      }
    }

    // ---------------------------------------------------------------- file data

    /** disk_read of `cc` data sectors into `buff` at `off`. */
    method DiskRead(buff: array<Byte>, off: nat, sect: nat, cc: nat)
      requires sect + cc <= |disk| && off + 512 * cc <= buff.Length
      modifies buff
      ensures buff[off..off + 512 * cc] == GetSectors(disk, sect, cc)
      ensures buff[..off] == old(buff[..off])
      ensures buff[off + 512 * cc..] == old(buff[off + 512 * cc..])
    {
      forall i | 0 <= i < 512 * cc {
        buff[off + i] := disk[sect + i / 512][i % 512];
      }
    }

    /** disk_write of whole sectors outside the tables and the dirty window. */
    method DiskWrite(data: seq<Byte>, sect: nat)
      requires Valid() && |data| % 512 == 0 && sect + |data| / 512 <= |disk|
      requires forall s: nat :: sect <= s < sect + |data| / 512 ==> !g.InFatArea(s)
      requires wflag ==> !(sect <= winsect < sect + |data| / 512)
      modifies this`disk
      ensures Valid() && View() == PutSectors(old(View()), sect, data)
      ensures FatTable() == old(FatTable())
    {
      hide PutSectors, Mirrored, Table;
      ghost var v := View();
      disk := PutSectors(disk, sect, data);
      if wflag {
        assert g.InFat1(winsect) ==> g.InFatArea(winsect) && (g.nFats == 2 ==> g.InFatArea(winsect + g.fsize));
      }
      assert View() == PutSectors(v, sect, data);
      PutSectorsKeepsTables(g, v, sect, data);
    }

    /** clst2sect: the first sector of a cluster, 0 for a number that is not one. */
    function Clst2Sect(clst: nat): (s: nat)
      ensures g.InRange(clst) ==> s == SectorOf(g, clst, 0)
    {
      if g.InRange(clst) then g.database + (clst - 2) * g.csize else 0
    }

    /** Clusters follow one another from the start of the data area on. */
    lemma Clst2SectSteps(clst: nat)
      requires Valid()
      ensures Clst2Sect(2) == g.database && 0 < g.database
      ensures g.InRange(clst) && g.InRange(clst + 1) ==> Clst2Sect(clst + 1) == Clst2Sect(clst) + g.csize
      ensures !g.InRange(clst) ==> Clst2Sect(clst) == 0
    {
      if g.InRange(clst) {
        ClustersInOrder(g, clst);
      } else {
        ClustersInOrder(g, 2);
      }
    }

    /** Outside the tables the disk shows what it holds, but for a dirty window. */
    lemma DirectView(s: nat)
      requires Valid() && s < |disk| && !g.InFatArea(s) && !(wflag && s == winsect)
      ensures View()[s] == disk[s]
    {
    }
  }
}
