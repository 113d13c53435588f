/** The table of a directory that has a cluster chain: dir_sdi and dir_next go through its
    entries as if they lay one after the other, which is how the operations on entries see
    them. */
module FatDirWalk {
  import opened Arith
  import opened Basics
  import opened FatLayout
  import opened FatChain
  import opened FatData
  import opened FatVolume

  /** The largest table, in bytes. */
  const MAX_DIR := 0x20_0000

  class Dir {
    const fs: Volume
    const sclust: nat
    ghost const chain: seq<nat>
    var clust: nat
    var sect: nat
    var dptr: nat

    constructor (fs: Volume, sclust: nat, ghost chain: seq<nat>)
      requires fs.Valid() && IsChain(fs.FatTable(), chain) && chain[0] == sclust
      ensures Rooted() && this.fs == fs && this.chain == chain
    {
      this.fs, this.sclust, this.chain := fs, sclust, chain;
      clust, sect, dptr := 0, 0, 0;
    }

    ghost predicate Rooted()
      reads fs`disk, fs`wflag, fs`winsect, fs.win
    {
      fs.Valid() && IsChain(fs.FatTable(), chain) && chain[0] == sclust
    }

    lemma Facts()
      requires Rooted()
      ensures fs.g.DataFits(|fs.View()|) && PowerOfTwo(fs.g.csize) && Clusters(fs.g, chain) && Fits(fs.g, chain, TableSize(fs.g, chain))
      ensures |fs.FatTable()| == fs.g.nFatent && 0 < ClusterBytes(fs.g) && 0 < |chain|
    {
      fs.g.ValidFits(|fs.disk|);
      ChainDistinct(fs.FatTable(), chain);
    }

    /** The entries of the directory, end to end. */
    ghost function Table(): seq<Byte>
      reads fs`disk, fs`wflag, fs`winsect, fs.win
      requires Rooted()
    {
      Facts();
      FileBytes(fs.g, fs.View(), chain, TableSize(fs.g, chain))
    }

    lemma TableIs()
      requires Rooted()
      ensures fs.g.DataFits(|fs.View()|) && Clusters(fs.g, chain) && Fits(fs.g, chain, TableSize(fs.g, chain))
      ensures Table() == FileBytes(fs.g, fs.View(), chain, TableSize(fs.g, chain))
    {
      Facts();
    }

    lemma TableLength()
      requires Rooted()
      ensures |Table()| == TableSize(fs.g, chain) && TableSize(fs.g, chain) % 512 == 0 && TableSize(fs.g, chain) > 0
    {
      hide Volume.Valid, Volume.View, Volume.FatTable, Clusters, Fits, PowerOfTwo, IsChain, FileBytes, TableSize;
      TableIs();
      Facts();
      SizeFacts(fs.g, chain);
    }

    /** The current cluster and sector are those of the entry at `dptr`. */
    ghost predicate AtEntry()
      reads this`clust, this`sect, this`dptr
      reads fs`disk, fs`wflag, fs`winsect, fs.win
    {
      && Rooted() && dptr % 32 == 0 && dptr < TableSize(fs.g, chain) && dptr < MAX_DIR
      && Placed(fs.g, chain, dptr / 512, clust, sect)
    }

    /** The entry is in that sector. */
    lemma EntryThere()
      requires AtEntry()
      ensures Shows(fs.View(), sect, dptr, Table())
    {
      hide Volume.Valid, Volume.View, Volume.FatTable, IsChain;
      Facts();
      EntryShown(fs.g, fs.View(), chain, dptr, clust, sect);
    }

    /** dir_sdi */
    method Sdi(ofs: nat) returns (res: FResult)
      requires Rooted()
      modifies this`clust, this`sect, this`dptr, fs`disk, fs`wflag, fs`winsect, fs.win
      ensures Rooted() && fs.View() == old(fs.View()) && (res == FR_OK || res == FR_INT_ERR)
      ensures res == FR_OK <==> ofs < MAX_DIR && ofs % 32 == 0 && ofs < TableSize(fs.g, chain)
      ensures res == FR_OK ==> AtEntry() && dptr == ofs
    {
      hide Volume.Valid, Volume.View, Volume.FatTable, Clusters, Fits, PowerOfTwo, IsChain, Placed, ClusterBytes,
        SectorOf, TableSize;
      Facts();
      if ofs >= MAX_DIR || ofs % 32 != 0 {
        return FR_INT_ERR;
      }
      dptr := ofs;
      var ok, clst, o;
      ghost var i;
      ok, i, clst, o := Follow(ofs);
      if !ok {
        return FR_INT_ERR;
      }
      sect := fs.Clst2Sect(clst);
      clust := clst;
      InCluster(fs.g, chain, i, ofs, o);
      SectorInCluster(fs.g, clst, o / 512);
      SectorThere(fs.g, clst);
      if sect == 0 {
        return FR_INT_ERR;
      }
      sect := sect + o / 512;
      PlacedAt(fs.g, chain, i, ofs, o, clst, sect);
      res := FR_OK;
    }

    /** The loop of dir_sdi: cluster `i` and what is left of the offset in it. */
    method Follow(ofs: nat) returns (ok: bool, ghost i: nat, clst: nat, o: nat)
      requires Rooted()
      modifies fs`disk, fs`wflag, fs`winsect, fs.win
      ensures Rooted() && fs.View() == old(fs.View())
      ensures ok ==> i < |chain| && clst == chain[i] && fs.g.InRange(clst) && ofs == i * ClusterBytes(fs.g) + o && o < ClusterBytes(fs.g)
      ensures !ok ==> ofs >= TableSize(fs.g, chain)
    {
      hide Volume.Valid, Volume.View, Volume.FatTable, Clusters, Fits, PowerOfTwo, IsChain, ClusterBytes, TableSize,
        EntryReads;
      Facts();
      var csz := fs.g.csize * 512;
      assert csz == ClusterBytes(fs.g) by {
        BytesAre(fs.g);
      }
      ok, i, clst, o := true, 0, sclust, ofs;
      while o >= csz
        invariant Rooted() && fs.View() == old(fs.View()) && fs.FatTable() == old(fs.FatTable())
        invariant i < |chain| && clst == chain[i] && ofs == i * ClusterBytes(fs.g) + o
        decreases o
      {
        LinkAfter(fs.FatTable(), chain, i);
        clst := fs.GetFat(clst);
        if clst < 2 || clst >= fs.g.nFatent {
          PastEnd(fs.g, chain, i, ofs, o);
          ok := false;
          return;
        }
        FurtherOn(i, ClusterBytes(fs.g), ofs, o);
        i, o := i + 1, o - csz;
      }
      LinkAfter(fs.FatTable(), chain, i);
    }

    /** dir_next without stretching the table. */
    method Next() returns (res: FResult)
      requires AtEntry()
      modifies this`clust, this`sect, this`dptr, fs`disk, fs`wflag, fs`winsect, fs.win
      ensures Rooted() && fs.View() == old(fs.View())
      ensures res == if old(dptr) + 32 < MAX_DIR && old(dptr) + 32 < TableSize(fs.g, chain) then FR_OK else FR_NO_FILE
      ensures res == FR_OK ==> AtEntry() && dptr == old(dptr) + 32
    {
      hide Volume.Valid, Volume.View, Volume.FatTable, IsChain, Placed, AtEnd, TableSize, Dir.AtEntry, Dir.Rooted;
      var ofs := dptr + 32;
      EntryFacts(ofs);
      if ofs >= MAX_DIR {
        sect := 0;
        return FR_NO_FILE;
      }
      if ofs % 512 == 0 {
        var ok := NextSect();
        if !ok {
          sect := 0;
          EndOfTable(fs.g, chain, ofs);
          return FR_NO_FILE;
        }
      }
      dptr := ofs;
      Arrived();
      res := FR_OK;
    }

    lemma EntryFacts(ofs: nat)
      requires AtEntry() && ofs == dptr + 32
      ensures Rooted() && ofs % 32 == 0 && Placed(fs.g, chain, dptr / 512, clust, sect)
      ensures ofs / 512 == if ofs % 512 == 0 then dptr / 512 + 1 else dptr / 512
    {
      hide Volume.Valid, Volume.View, Volume.FatTable, IsChain, Placed, TableSize;
      SameOrNext(dptr);
    }

    lemma Arrived()
      requires Rooted() && dptr % 32 == 0 && dptr < MAX_DIR && Placed(fs.g, chain, dptr / 512, clust, sect)
      ensures AtEntry() && dptr < TableSize(fs.g, chain)
    {
      hide Volume.Valid, Volume.View, Volume.FatTable, IsChain, Placed, TableSize;
      PlacedInside(fs.g, chain, dptr, clust, sect);
    }

    /** The sector after the current one, in the next cluster if need be. */
    method NextSect() returns (ok: bool)
      requires AtEntry()
      modifies this`clust, this`sect, fs`disk, fs`wflag, fs`winsect, fs.win
      ensures Rooted() && fs.View() == old(fs.View())
      ensures ok ==> Placed(fs.g, chain, dptr / 512 + 1, clust, sect)
      ensures !ok ==> AtEnd(fs.g, chain, dptr / 512 + 1)
    {
      hide Volume.Valid, Volume.View, Volume.FatTable, Clusters, Fits, PowerOfTwo, IsChain, SectorOf, TableSize,
        Placed, ClusterIndex, ClusterOffset, And, Geometry.DataFits, ClusterBytes, EntryReads;
      Facts();
      var k := dptr / 512;
      MaskOffset(fs.g, k + 1);
      NextSector(fs.g, chain, k, clust, sect);
      sect := sect + 1;
      ok := true;
      if And(k + 1, fs.g.csize - 1) == 0 {
        LinkAfter(fs.FatTable(), chain, ClusterIndex(fs.g, k));
        var clst := fs.GetFat(clust);
        assert clst > 1;  // otherwise an error
        if clst >= fs.g.nFatent {
          return false;
        }
        clust := clst;
        sect := fs.Clst2Sect(clst);
        PlacedFirst(fs.g, chain, k + 1, clust);
      }
    }

    /** The walk that dir_read, dir_find and dir_alloc are made of visits the table from its
        first byte to its last, or as far as a table may go. */
    method Walk() returns (ghost entries: seq<Byte>)
      requires Rooted()
      modifies this`clust, this`sect, this`dptr, fs`disk, fs`wflag, fs`winsect, fs.win
      ensures Rooted() && fs.View() == old(fs.View())
      ensures Least(TableSize(fs.g, chain), MAX_DIR) <= |Table()| && entries == Table()[..Least(TableSize(fs.g, chain), MAX_DIR)]
    {
      hide Volume.Valid, Volume.View, Volume.FatTable, FileBytes, Placed, ClusterBytes, Clusters, Fits, PowerOfTwo,
        IsChain, TableSize;
      Facts();
      entries := [];
      TableLength();
      var res := Sdi(0);
      ghost var table := Table();
      assert table[..0] == [];
      while true
        invariant AtEntry() && fs.View() == old(fs.View()) && Table() == table && entries == table[..dptr]
        decreases MAX_DIR - dptr
      {
        TableLength();
        EntryThere();
        entries := entries + fs.View()[sect][dptr % 512..dptr % 512 + 32];
        TableIs();
        res := Next();
        TableIs();
        if res != FR_OK {
          return;
        }
      }
    }
  }

  function TableSize(g: Geometry, chain: seq<nat>): nat { |chain| * g.csize * 512 }

  /** Sector `sect` of `v` has at the place of byte `pos` the entry that the table has there. */
  ghost predicate Shows(v: seq<Sector>, sect: nat, pos: nat, table: seq<Byte>) {
    && sect < |v| && pos % 512 + 32 <= 512 && pos + 32 <= |table|
    && v[sect][pos % 512..pos % 512 + 32] == table[pos..pos + 32]
  }

  /** Sector `k` of a table. */
  ghost predicate Placed(g: Geometry, chain: seq<nat>, k: nat, clust: nat, sect: nat) {
    && 0 < g.csize && ClusterIndex(g, k) < |chain| && clust == chain[ClusterIndex(g, k)] && 2 <= clust
    && sect == SectorOf(g, clust, ClusterOffset(g, k))
  }

  /** Sector `k` would be the first past the last cluster. */
  ghost predicate AtEnd(g: Geometry, chain: seq<nat>, k: nat) {
    0 < g.csize && ClusterIndex(g, k) == |chain| && ClusterOffset(g, k) == 0
  }

  lemma Multiple32(g: Geometry, chain: seq<nat>, pos: nat)
    requires pos % 32 == 0 && pos < TableSize(g, chain)
    ensures pos + 32 <= TableSize(g, chain) && pos % 512 + 32 <= 512
    ensures (pos + 32) % 512 != 0 ==> pos + 32 < TableSize(g, chain)
  {
    var n := |chain| * g.csize;
    assert TableSize(g, chain) == n * 512;
  }

  lemma EntryShown(g: Geometry, v: seq<Sector>, chain: seq<nat>, pos: nat, clust: nat, sect: nat)
    requires g.DataFits(|v|) && Clusters(g, chain) && Fits(g, chain, TableSize(g, chain))
    requires pos % 32 == 0 && pos < TableSize(g, chain) && Placed(g, chain, pos / 512, clust, sect)
    ensures Shows(v, sect, pos, FileBytes(g, v, chain, TableSize(g, chain)))
  {
    hide FileBytes, Clusters, Fits, TableSize;
    Multiple32(g, chain, pos);
    PieceBytes(g, v, chain, TableSize(g, chain), pos, 32);
  }

  lemma SectorThere(g: Geometry, clust: nat)
    requires 0 < g.database && g.InRange(clust)
    ensures SectorOf(g, clust, 0) != 0
  {
    assert 0 <= (clust - 2) * g.csize;
  }

  lemma BytesAre(g: Geometry)
    ensures ClusterBytes(g) == g.csize * 512
  {
  }

  lemma FurtherOn(i: nat, bcs: nat, ofs: nat, o: nat)
    requires ofs == i * bcs + o && o >= bcs
    ensures ofs == (i + 1) * bcs + (o - bcs)
  {
  }

  lemma SameOrNext(pos: nat)
    requires pos % 32 == 0
    ensures (pos + 32) / 512 == if (pos + 32) % 512 == 0 then pos / 512 + 1 else pos / 512
  {
  }

  lemma PlacedAt(g: Geometry, chain: seq<nat>, i: nat, ofs: nat, o: nat, clust: nat, sect: nat)
    requires 0 < g.csize && i < |chain| && clust == chain[i] && 2 <= clust && ClusterIndex(g, ofs / 512) == i
    requires ClusterOffset(g, ofs / 512) == o / 512 && sect == SectorOf(g, clust, 0) + o / 512
    ensures Placed(g, chain, ofs / 512, clust, sect)
  {
    SectorInCluster(g, clust, o / 512);
  }

  lemma SizeFacts(g: Geometry, chain: seq<nat>)
    requires 0 < g.csize && 0 < |chain|
    ensures TableSize(g, chain) % 512 == 0 && TableSize(g, chain) > 0
  {
    var n := |chain| * g.csize;
    assert TableSize(g, chain) == n * 512;
    assert n > 0;
  }

  lemma PlacedFirst(g: Geometry, chain: seq<nat>, k: nat, clust: nat)
    requires 0 < g.csize && ClusterIndex(g, k) < |chain| && ClusterOffset(g, k) == 0 && clust == chain[ClusterIndex(g, k)] && 2 <= clust
    ensures Placed(g, chain, k, clust, SectorOf(g, clust, 0))
  {
  }

  lemma PlacedInside(g: Geometry, chain: seq<nat>, ofs: nat, clust: nat, sect: nat)
    requires Placed(g, chain, ofs / 512, clust, sect)
    ensures ofs < TableSize(g, chain)
  {
    InTable(g, chain, ofs / 512, ofs);
  }

  lemma LinkAfter(t: seq<nat>, chain: seq<nat>, i: nat)
    requires IsChain(t, chain) && i < |chain|
    ensures 2 <= chain[i] < |t|
    ensures if i + 1 < |chain| then t[chain[i]] == chain[i + 1] && 2 <= chain[i + 1] < |t| else t[chain[i]] >= |t|
  {
  }

  lemma PastEnd(g: Geometry, chain: seq<nat>, i: nat, ofs: nat, o: nat)
    requires i + 1 == |chain| && ofs == i * ClusterBytes(g) + o && o >= ClusterBytes(g)
    ensures ofs >= TableSize(g, chain)
  {
    assert |chain| * g.csize * 512 == i * (g.csize * 512) + g.csize * 512;
  }

  lemma InCluster(g: Geometry, chain: seq<nat>, i: nat, ofs: nat, o: nat)
    requires 0 < g.csize && i < |chain| && ofs == i * ClusterBytes(g) + o && o < ClusterBytes(g)
    ensures ClusterIndex(g, ofs / 512) == i && ClusterOffset(g, ofs / 512) == o / 512 && ofs < TableSize(g, chain)
  {
    assert i * ClusterBytes(g) == (i * g.csize) * 512;
    DivModUnique(ofs, 512, i * g.csize + o / 512, o % 512);
    ClusterIndexUnique(g, ofs / 512, i, o / 512);
    InTable(g, chain, ofs / 512, ofs);
  }

  lemma InTable(g: Geometry, chain: seq<nat>, k: nat, ofs: nat)
    requires 0 < g.csize && k == ofs / 512 && ClusterIndex(g, k) < |chain|
    ensures ofs < TableSize(g, chain)
  {
    MulOrder(ClusterIndex(g, k), |chain|, g.csize);
    assert k < |chain| * g.csize;
  }

  lemma EndOfTable(g: Geometry, chain: seq<nat>, ofs: nat)
    requires ofs % 512 == 0 && AtEnd(g, chain, ofs / 512)
    ensures ofs >= TableSize(g, chain)
  {
  }

  lemma MaskOffset(g: Geometry, k: nat)
    requires PowerOfTwo(g.csize) && 0 < g.csize
    ensures And(k, g.csize - 1) == ClusterOffset(g, k)
  {
    hide And, PowerOfTwo;
    MaskIsMod(k, g.csize);
  }

  lemma NextSector(g: Geometry, chain: seq<nat>, k: nat, clust: nat, sect: nat)
    requires Placed(g, chain, k, clust, sect)
    ensures ClusterIndex(g, k) < |chain| && clust == chain[ClusterIndex(g, k)] && 2 <= clust
    ensures ClusterOffset(g, k + 1) == 0 ==> ClusterIndex(g, k + 1) == ClusterIndex(g, k) + 1
    ensures ClusterOffset(g, k + 1) != 0 ==> Placed(g, chain, k + 1, clust, sect + 1)
  {
    var q, r := ClusterIndex(g, k), ClusterOffset(g, k);
    if r + 1 < g.csize {
      ClusterIndexUnique(g, k + 1, q, r + 1);
      DivModUnique(k + 1, g.csize, q, r + 1);
    } else {
      assert (q + 1) * g.csize == q * g.csize + g.csize;
      ClusterIndexUnique(g, k + 1, q + 1, 0);
      DivModUnique(k + 1, g.csize, q + 1, 0);
    }
  }
}
