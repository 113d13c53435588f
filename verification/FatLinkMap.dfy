/** Fast seek: the cluster link map of a file, a table of runs of consecutive clusters
    that CREATE_LINKMAP builds and clmt_clust searches. */
module FatLinkMap {
  import opened Arith
  import opened FatLayout
  import opened FatChain
  import opened FatData
  import opened FatVolume
  import opened FatState
  import opened FatFile

  /** `n` consecutive clusters from `top` on. */
  function Run(top: nat, n: nat): seq<nat> {
    seq(n, i requires 0 <= i < n => top + i)
  }

  /** The clusters that pairs of length and top stand for. */
  function Expand(items: seq<nat>): seq<nat> {
    if |items| < 2 then [] else Run(items[1], items[0]) + Expand(items[2..])
  }

  /** The map in a table: its pairs from index 1 on, then a 0. */
  ghost predicate IsMap(tbl: seq<nat>, items: seq<nat>) {
    && |items| % 2 == 0 && 1 + |items| < |tbl|
    && tbl[1..1 + |items|] == items && tbl[1 + |items|] == 0
    && forall k :: 0 <= k < |items| && k % 2 == 0 ==> items[k] > 0
  }

  /** The number of maximal runs of consecutive clusters. */
  function Fragments(chain: seq<nat>): nat {
    if chain == [] then 0
    else if |chain| == 1 then 1
    else Fragments(chain[..|chain| - 1]) + (if chain[|chain| - 1] == chain[|chain| - 2] + 1 then 0 else 1)
  }

  lemma {:induction false} ExpandAppend(items: seq<nat>, n: nat, top: nat)
    requires |items| % 2 == 0
    ensures Expand(items + [n, top]) == Expand(items) + Run(top, n)
  {
    if items == [] {
      assert [n, top][2..] == [];
    } else {
      ExpandAppend(items[2..], n, top);
      assert (items + [n, top])[2..] == items[2..] + [n, top];
    }
  }

  /** A run opened by a break adds one fragment, whatever its length. */
  lemma {:induction false} FragmentsRun(chain: seq<nat>, from: nat, n: nat)
    requires 0 < n && from + n <= |chain|
    requires forall i :: from < i < from + n ==> chain[i] == chain[i - 1] + 1
    requires from > 0 ==> chain[from] != chain[from - 1] + 1
    ensures Fragments(chain[..from + n]) == Fragments(chain[..from]) + 1
  {
    var c := chain[..from + n];
    assert c[..|c| - 1] == chain[..from + n - 1];
    if n > 1 {
      FragmentsRun(chain, from, n - 1);
    }
  }

  /** The search through the pairs. */
  function Lookup(items: seq<nat>, cl: nat): nat {
    if |items| < 2 then 0
    else if cl < items[0] then items[1] + cl
    else Lookup(items[2..], cl - items[0])
  }

  lemma {:induction false} LookupIsIndex(items: seq<nat>, cl: nat)
    ensures Lookup(items, cl) == if cl < |Expand(items)| then Expand(items)[cl] else 0
  {
    if |items| >= 2 && cl >= items[0] {
      LookupIsIndex(items[2..], cl - items[0]);
    }
  }

  lemma Consecutive(chain: seq<nat>, i: nat, ncl: nat, tcl: nat)
    requires i + ncl <= |chain| && chain[i..i + ncl] == Run(tcl, ncl)
    ensures forall k :: i < k < i + ncl ==> chain[k] == chain[k - 1] + 1
  {
    forall k | i < k < i + ncl ensures chain[k] == chain[k - 1] + 1 {
      assert chain[k] == chain[i..i + ncl][k - i] && chain[k - 1] == chain[i..i + ncl][k - 1 - i];
    }
  }

  /** A maximal run taken from the chain extends both the map and the count. */
  lemma RunAdded(chain: seq<nat>, i: nat, ncl: nat, tcl: nat, items: seq<nat>)
    requires 0 < ncl && i + ncl <= |chain| && |items| % 2 == 0
    requires chain[i..i + ncl] == Run(tcl, ncl) && Expand(items) == chain[..i]
    requires i > 0 ==> chain[i] != chain[i - 1] + 1
    ensures Expand(items + [ncl, tcl]) == chain[..i + ncl]
    ensures Fragments(chain[..i + ncl]) == Fragments(chain[..i]) + 1
  {
    hide Expand, Fragments;
    Consecutive(chain, i, ncl, tcl);
    FragmentsRun(chain, i, ncl);
    ExpandAppend(items, ncl, tcl);
    assert chain[..i + ncl] == chain[..i] + chain[i..i + ncl];
  }

  /** clmt_clust: the cluster of the byte at `ofs`, 0 past the clusters of the map. */
  method ClmtClust(fs: Volume, tbl: array<nat>, ofs: nat, ghost items: seq<nat>) returns (r: nat)
    requires 0 < fs.g.csize && IsMap(tbl[..], items)
    ensures var q := ClusterIndex(fs.g, ofs / 512);
      r == if q < |Expand(items)| then Expand(items)[q] else 0
  {
    hide Expand;
    DivNat(ofs / 512, fs.g.csize);
    var cl: nat := ofs / 512 / fs.g.csize;
    LookupIsIndex(items, cl);
    ghost var q: nat := cl;
    var p := 1;
    while true
      invariant 1 <= p && (p - 1) % 2 == 0 && p - 1 <= |items|
      invariant Lookup(items, q) == Lookup(items[p - 1..], cl)
      decreases |items| - p
    {
      assert p - 1 < |items| ==> p < |items| && tbl[..][1..1 + |items|][p - 1] == tbl[p] == items[p - 1];
      assert p < |items| ==> tbl[..][1..1 + |items|][p] == tbl[p + 1] == items[p];
      var ncl := tbl[p];
      p := p + 1;
      if ncl == 0 {
        return 0;
      }
      if cl < ncl {
        break;
      }
      assert items[p - 2..][2..] == items[p..];
      cl := cl - ncl;
      p := p + 1;
    }
    r := cl + tbl[p];
  }

  /** f_lseek with CREATE_LINKMAP.  The map is complete when it fits the table; the table
      size it would need is reported in any case. */
  method CreateLinkMap(fs: Volume, sclust: nat, tbl: array<nat>, ghost chain: seq<nat>)
      returns (res: FResult, ghost items: seq<nat>)
    requires fs.Valid() && ChainOk(fs.FatTable(), chain, sclust)
    requires 0 < tbl.Length && tbl[0] <= tbl.Length && tbl as object != fs.win
    modifies fs`disk, fs`wflag, fs`winsect, fs.win, tbl
    ensures fs.Valid() && fs.View() == old(fs.View()) && fs.FatTable() == old(fs.FatTable())
    ensures res == FR_INT_ERR <==> chain != [] && fs.FatTable()[chain[|chain| - 1]] == chain[|chain| - 1] + 1
    ensures res != FR_INT_ERR ==> tbl[0] == 2 + 2 * Fragments(chain)
    ensures res != FR_INT_ERR ==> res == if 2 + 2 * Fragments(chain) <= old(tbl[0]) then FR_OK else FR_NOT_ENOUGH_CORE
    ensures res == FR_OK ==> IsMap(tbl[..], items) && Expand(items) == chain
  {
    hide Volume.Valid, Volume.View, Volume.FatTable, Stored, IsMap, Run, Expand, Fragments, ChainOk;
    EmptyMap(tbl[..], tbl[0]);
    ChainStart(fs.FatTable(), chain, sclust);
    ghost var t := fs.FatTable();
    var tlen := tbl[0];
    var ulen := 2;
    var p := 1;
    var cl := sclust;
    items := [];
    ghost var i := 0;
    assert chain[..0] == [];
    if cl != 0 {
      while cl < fs.g.nFatent
        invariant fs.Valid() && fs.View() == old(fs.View()) && fs.FatTable() == t
        invariant 0 <= i <= |chain| && (if i < |chain| then cl == chain[i] else cl == t[chain[i - 1]])
        invariant i > 0 ==> cl != chain[i - 1] + 1
        invariant ulen == 2 + 2 * Fragments(chain[..i])
        invariant |items| % 2 == 0
        invariant 0 < p && Stored(tbl[..], p, tlen, ulen, items) && Expand(items) == chain[..i]
        decreases |chain| - i
      {
        var tcl, ncl;
        tcl, ncl, cl := Fragment(fs, cl, chain, i);
        if cl == 1 {
          return FR_INT_ERR, items;
        }
        ulen := ulen + 2;
        RunAdded(chain, i, ncl, tcl, items);
        p := StorePair(tbl, p, tlen, ulen, ncl, tcl, items);
        items := items + [ncl, tcl];
        i := i + ncl;
      }
    }
    assert chain[..i] == chain;
    res := Terminate(tbl, p, tlen, ulen, items);
  }

  /** A chain of one cluster whose end mark is the number of the next cluster, were there one. */
  lemma EndLooksNext()
    ensures var t, chain := [0, 0, 3], [2]; IsChain(t, chain) && t[chain[0]] == chain[0] + 1
  {
  }

  /** The pairs stored so far: all of them while they fit. */
  ghost predicate Stored(tbl: seq<nat>, p: nat, tlen: nat, ulen: nat, items: seq<nat>) {
    && tlen <= |tbl| && |items| % 2 == 0 && ulen == 2 + |items|
    && (ulen <= tlen ==> p == 1 + |items| && tbl[1..p] == items)
    && forall k :: 0 <= k < |items| && k % 2 == 0 ==> items[k] > 0
  }

  lemma EmptyMap(tbl: seq<nat>, tlen: nat)
    requires tlen <= |tbl| && 0 < |tbl|
    ensures Stored(tbl, 1, tlen, 2, []) && Expand([]) == [] && Fragments([]) == 0
  {
  }

  lemma ChainStart(t: seq<nat>, chain: seq<nat>, sclust: nat)
    requires ChainOk(t, chain, sclust)
    ensures sclust == 0 <==> chain == []
    ensures chain != [] ==> IsChain(t, chain) && chain[0] == sclust
    ensures forall k :: 0 <= k < |chain| ==> InRange(t, chain[k])
    ensures chain != [] ==> t[chain[|chain| - 1]] >= |t|
  {
  }

  /** Stores one pair if the table still has room for it. */
  method StorePair(tbl: array<nat>, p0: nat, tlen: nat, ulen: nat, ncl: nat, tcl: nat, ghost items: seq<nat>) returns (p: nat)
    requires 2 <= ulen && ncl > 0 && 0 < p0 && Stored(tbl[..], p0, tlen, ulen - 2, items)
    modifies tbl
    ensures 0 < p && Stored(tbl[..], p, tlen, ulen, items + [ncl, tcl])
  {
    p := p0;
    if ulen <= tlen {
      tbl[p] := ncl;
      tbl[p + 1] := tcl;
      p := p + 2;
      assert tbl[..][1..p] == items + [ncl, tcl];
    }
  }

  /** The terminator, when everything fitted. */
  method Terminate(tbl: array<nat>, p: nat, tlen: nat, ulen: nat, ghost items: seq<nat>) returns (res: FResult)
    requires 0 < p && Stored(tbl[..], p, tlen, ulen, items) && 0 < tbl.Length
    modifies tbl
    ensures tbl[0] == ulen && res == if ulen <= tlen then FR_OK else FR_NOT_ENOUGH_CORE
    ensures res == FR_OK ==> IsMap(tbl[..], items)
  {
    tbl[0] := ulen;
    if ulen <= tlen {
      tbl[p] := 0;
      res := FR_OK;
      assert tbl[..][1..1 + |items|] == items;
    } else {
      res := FR_NOT_ENOUGH_CORE;
    }
  }

  /** One fragment: its first cluster, its length and what follows; 1 in place of what
      follows when the end mark of the chain looks like the next cluster. */
  method Fragment(fs: Volume, first: nat, ghost chain: seq<nat>, ghost i: nat) returns (tcl: nat, ncl: nat, cl: nat)
    requires fs.Valid() && IsChain(fs.FatTable(), chain) && i < |chain| && first == chain[i]
    modifies fs`disk, fs`wflag, fs`winsect, fs.win
    ensures fs.Valid() && fs.View() == old(fs.View()) && fs.FatTable() == old(fs.FatTable())
    ensures cl == 1 ==> fs.FatTable()[chain[|chain| - 1]] == chain[|chain| - 1] + 1
    ensures cl != 1 ==> tcl == first && 0 < ncl && i + ncl <= |chain| && chain[i..i + ncl] == Run(tcl, ncl)
    ensures cl != 1 ==> cl != chain[i + ncl - 1] + 1
    ensures cl != 1 ==> if i + ncl < |chain| then cl == chain[i + ncl] else cl == fs.FatTable()[chain[i + ncl - 1]]
  {
    hide Volume.Valid, Volume.View, Volume.FatTable, EntryReads;
    ghost var t := fs.FatTable();
    tcl, ncl, cl := first, 0, first;
    ghost var over := false;
    while true
      invariant fs.Valid() && fs.View() == old(fs.View()) && fs.FatTable() == t
      invariant 0 <= ncl && i + ncl <= |chain| && (over <==> i + ncl == |chain|)
      invariant !over ==> cl == chain[i + ncl]
      invariant over ==> cl == t[chain[|chain| - 1]] == chain[|chain| - 1] + 1
      invariant forall k :: i <= k <= i + ncl && k < |chain| ==> chain[k] == tcl + (k - i)
      decreases |chain| - i - ncl, if over then 0 else 1
    {
      var pcl := cl;
      ncl := ncl + 1;
      cl := fs.GetFat(cl);
      assert i + ncl < |chain| ==> t[chain[i + ncl - 1]] == chain[i + ncl] && InRange(t, chain[i + ncl]);
      if cl <= 1 {
        return tcl, ncl, 1;
      }
      if cl != pcl + 1 {
        break;
      }
      over := i + ncl == |chain|;
    }
  }

  /** f_lseek with a link map: the pointer moves to `ofs0`, at most to the end of the
      file, by one look into the map instead of a walk along the chain. */
  method FastLseek(fp: Fil, tbl: array<nat>, ofs0: nat, ghost items: seq<nat>) returns (res: FResult)
    requires fp.Valid() && IsMap(tbl[..], items) && Expand(items) == fp.chain
    requires tbl as object != fp.buf
    modifies fp`fptr, fp`clust, fp`sect, fp`dirty, fp.buf, fp.fs`disk
    ensures fp.Valid() && res == FR_OK && fp.Bytes() == old(fp.Bytes())
    ensures fp.fptr == if ofs0 > fp.objsize then fp.objsize else ofs0
  {
    hide Volume.Valid, Volume.View, Volume.FatTable, Stable, Contents, Expand, IsMap, PowerOfTwo, And;
    hide AtPointer, HoldsByte, ByteSector, ClusterIndex, ClusterOffset, Owner, Fits, Fill, SectorOf, Clusters, FileSector;
    var g := fp.fs.g;
    ghost var x := fp.St();
    Sizes(g, x);
    var ofs := ofs0;
    if ofs > fp.objsize {
      ofs := fp.objsize;
    }
    fp.fptr := ofs;
    if ofs > 0 {
      var c := MapCluster(fp, tbl, ofs - 1, items);
      HeldSector(g, x, ofs - 1, c);
      fp.clust := c;
      var dsc := SectorOfByte(fp.fs, c, ofs - 1);
      if ofs % 512 != 0 {
        NextInSector(g, x, ofs, c);
        HeldSector(g, x, ofs, c);
      }
      fp.Aim(dsc);
    } else {
      PointerSet(g, x, 0, fp.clust);
    }
    res := FR_OK;
  }

  /** The cluster of a byte of the file, by one look into its map. */
  method MapCluster(fp: Fil, tbl: array<nat>, i: nat, ghost items: seq<nat>) returns (c: nat)
    requires fp.Good() && IsMap(tbl[..], items) && Expand(items) == fp.chain && i < fp.objsize
    ensures HoldsByte(fp.fs.g, fp.St(), i, c) && fp.fs.g.InRange(c) && SectorOf(fp.fs.g, c, 0) != 0
  {
    hide Volume.Valid, Volume.View, Volume.FatTable, Stable, Expand, IsMap, PowerOfTwo;
    hide HoldsByte, ClusterIndex, Owner, Fits, SectorOf, Clusters, FileSector;
    ghost var g, x := fp.fs.g, fp.St();
    Sizes(g, x);
    c := ClmtClust(fp.fs, tbl, i, items);
    FitsIndex(g, fp.chain, fp.objsize, i);
    MapHolds(g, x, i, c);
    HeldSector(g, x, i, c);
  }

  /** What f_read does on a sector boundary when a link map is set: the same cluster and
      sector as by following the chain, without a look at the table. */
  method FindSectorByMap(fp: Fil, tbl: array<nat>, ghost items: seq<nat>) returns (s: nat, csect: nat)
    requires fp.Good() && AtPointer(fp.fs.g, fp.St(), fp.fptr, fp.clust) && fp.fptr < fp.objsize && fp.fptr % 512 == 0
    requires IsMap(tbl[..], items) && Expand(items) == fp.chain
    modifies fp`clust
    ensures fp.Good() && HoldsByte(fp.fs.g, fp.St(), fp.fptr, fp.clust) && fp.St() == old(fp.St())
    ensures csect == ClusterOffset(fp.fs.g, fp.fptr / 512) && s == ByteSector(fp.fs.g, fp.St(), fp.fptr)
  {
    hide Volume.Valid, Volume.View, Volume.FatTable, Stable, Expand, IsMap, AtPointer, HoldsByte, ByteSector;
    hide SectorOf, ClusterIndex, ClusterOffset, And, PowerOfTwo, FileSector, Fits, Clusters, Owner, Volume.Clst2Sect,
      Geometry.DataFits;
    ghost var g, x := fp.fs.g, fp.St();
    Sizes(g, x);
    FitsIndex(g, fp.chain, fp.objsize, fp.fptr);
    Located(g, x, fp.fptr, fp.clust);
    csect := fp.SectorInFile();
    if csect == 0 {
      var clst: nat;
      if fp.fptr == 0 {
        clst := fp.sclust;
        ChainNotEmpty(g, x);
      } else {
        clst := MapCluster(fp, tbl, fp.fptr, items);
      }
      fp.clust := clst;
    }
    HeldSector(g, x, fp.fptr, fp.clust);
    SectorInCluster(g, fp.clust, csect);
    s := fp.fs.Clst2Sect(fp.clust);
    assert s != 0;
    s := s + csect;
  }

  lemma ChainNotEmpty(g: Geometry, x: State)
    requires Stable(g, x) && 0 < x.objsize
    ensures x.chain != []
  {
  }

  /** The sector of a byte, its cluster being known. */
  method SectorOfByte(fs: Volume, c: nat, i: nat) returns (dsc: nat)
    requires fs.g.InRange(c) && 0 < fs.g.csize && PowerOfTwo(fs.g.csize) && SectorOf(fs.g, c, 0) != 0
    ensures dsc == SectorOf(fs.g, c, ClusterOffset(fs.g, i / 512))
  {
    dsc := fs.Clst2Sect(c);
    assert dsc != 0;
    MaskIsMod(i / 512, fs.g.csize);
    OffsetIsMod(fs.g, i / 512);
    dsc := dsc + And(i / 512, fs.g.csize - 1);
    SectorInCluster(fs.g, c, ClusterOffset(fs.g, i / 512));
  }

  lemma NextInSector(g: Geometry, x: State, pos: nat, c: nat)
    requires Stable(g, x) && 0 < pos && pos % 512 != 0 && HoldsByte(g, x, pos - 1, c)
    ensures HoldsByte(g, x, pos, c) && ByteSector(g, x, pos) == ByteSector(g, x, pos - 1)
  {
    hide Stable, Clusters, FileSector, Owner, Fits, ClusterIndex;
    InOneSector(pos - 1, 1);
  }

  lemma MapHolds(g: Geometry, x: State, i: nat, c: nat)
    requires Stable(g, x) && ClusterIndex(g, i / 512) < |x.chain| && c == x.chain[ClusterIndex(g, i / 512)]
    ensures HoldsByte(g, x, i, c)
  {
  }

  lemma OffsetIsMod(g: Geometry, k: nat)
    requires 0 < g.csize
    ensures k % g.csize == ClusterOffset(g, k)
  {
  }
}
