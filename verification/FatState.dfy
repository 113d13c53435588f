/** The state of an open file as one value, the invariant f_read, f_write, f_lseek and
    f_truncate keep, and what each elementary step does to the bytes of the file. */
module FatState {
  import opened Arith
  import opened FatLayout
  import opened FatChain
  import opened FatData

  /** `t` and `v` are the table and the sectors the volume shows, `wflag`/`winsect` tell
      where a dirty access window is, the rest are the fields of the file object. */
  datatype State = State(
    t: seq<nat>, v: seq<Sector>, wflag: bool, winsect: nat,
    chain: seq<nat>, sclust: nat, objsize: nat, sect: nat, dirty: bool, buf: seq<Byte>)

  /** The disk as it will be once the access window and the sector buffer are flushed. */
  function Overlay(x: State): (v: seq<Sector>)
    ensures |v| == |x.v|
  {
    if x.dirty && x.sect < |x.v| && |x.buf| == 512 then x.v[x.sect := x.buf] else x.v
  }

  /** A cluster the file owns or may come to own. */
  ghost predicate Ours(x: State, c: nat) {
    2 <= c && (c in x.chain || (c < |x.t| && x.t[c] == 0))
  }

  ghost predicate ChainOk(t: seq<nat>, chain: seq<nat>, sclust: nat) {
    && (sclust == 0 <==> chain == [])
    && (chain != [] ==> IsChain(t, chain) && chain[0] == sclust && IsHead(t, sclust))
  }

  ghost predicate Stable(g: Geometry, x: State) {
    && g.DataFits(|x.v|)
    && |x.t| == g.nFatent && |x.buf| == 512
    && Chains(x.t)
    && ChainOk(x.t, x.chain, x.sclust)
    && Clusters(g, x.chain)
    && x.objsize < 0x1_0000_0000 && Fits(g, x.chain, x.objsize)
    && (x.sect != 0 ==> Ours(x, Owner(g, x.sect)))
    && (x.dirty ==> x.sect != 0 && Owner(g, x.sect) in x.chain)
    && (!x.dirty && x.sect != 0 && x.sect < |x.v| ==> x.buf == x.v[x.sect])
    && (x.wflag ==> !Ours(x, Owner(g, x.winsect)))
  }

  /** The bytes of the file. */
  function Contents(g: Geometry, x: State): (b: seq<Byte>)
    requires Stable(g, x)
    ensures |b| == x.objsize
  {
    FileBytes(g, Overlay(x), x.chain, x.objsize)
  }

  lemma Opened(g: Geometry, t: seq<nat>, v: seq<Sector>, wflag: bool, winsect: nat, chain: seq<nat>, sclust: nat, objsize: nat, buf: seq<Byte>)
    requires g.DataFits(|v|) && |t| == g.nFatent && Chains(t) && ChainOk(t, chain, sclust)
    requires objsize < 0x1_0000_0000 && Fits(g, chain, objsize) && |buf| == 512
    requires wflag ==> var c := Owner(g, winsect); c == 0 || (c < |t| && c !in chain && t[c] != 0)
    ensures var x := State(t, v, wflag, winsect, chain, sclust, objsize, 0, false, buf);
      Stable(g, x) && Contents(g, x) == FileBytes(g, v, chain, objsize)
  {
    if chain != [] {
      ChainDistinct(t, chain);
    }
    if wflag && Owner(g, winsect) != 0 {
      OwnedInData(g, |v|, winsect);
    }
  }

  lemma Sizes(g: Geometry, x: State)
    requires Stable(g, x)
    ensures g.DataFits(|x.v|) && 0 < g.csize && 2 < g.nFatent && |x.t| == g.nFatent && |x.buf| == 512
    ensures Clusters(g, x.chain) && Fits(g, x.chain, x.objsize) && x.objsize < 0x1_0000_0000
    ensures x.dirty ==> Owner(g, x.sect) != 0 && Owner(g, x.sect) in x.chain && x.sect < |x.v|
  {
    if x.dirty {
      OwnSector(g, x, x.sect);
    }
  }

  /** A sector of the file's clusters lies outside the tables and under no dirty window. */
  lemma OwnSector(g: Geometry, x: State, s: nat)
    requires Stable(g, x) && Ours(x, Owner(g, s))
    ensures s < |x.v| && !g.InFatArea(s) && s != 0 && !(x.wflag && x.winsect == s)
  {
    OwnedInData(g, |x.v|, s);
  }

  /** The state after a dirty sector buffer was written back. */
  function Flush(x: State): State {
    if x.dirty && x.sect < |x.v| && |x.buf| == 512 then x.(v := x.v[x.sect := x.buf], dirty := false) else x
  }

  /** The state after sector `s` was brought into the buffer, if it was not there. */
  function Fill(x: State, s: nat): State {
    if x.sect == s then x
    else if s < |x.v| then Flush(x).(sect := s, buf := Flush(x).v[s])
    else Flush(x)
  }

  /** Writing the sector buffer back changes no byte of the file. */
  lemma Flushed(g: Geometry, x: State)
    requires Stable(g, x)
    ensures Stable(g, Flush(x)) && !Flush(x).dirty
    ensures Overlay(Flush(x)) == Overlay(x) && Contents(g, Flush(x)) == Contents(g, x)
  {
    if x.dirty {
      OwnSector(g, x, x.sect);
    }
  }

  /** Bringing another sector of the file into the buffer changes no byte either. */
  lemma Filled(g: Geometry, x: State, s: nat)
    requires Stable(g, x) && Owner(g, s) in x.chain && Owner(g, s) != 0
    ensures s < |x.v| && Fill(x, s).sect == s
    ensures Stable(g, Fill(x, s))
    ensures Overlay(Fill(x, s)) == Overlay(x) && Contents(g, Fill(x, s)) == Contents(g, x)
  {
    OwnedInData(g, |x.v|, s);
    Flushed(g, x);
  }

  /** Moving the access window over the tables changes nothing of the file. */
  lemma WindowMoved(g: Geometry, x: State, wflag: bool, winsect: nat)
    requires Stable(g, x)
    requires wflag ==> g.InFat1(winsect) || (x.wflag && winsect == x.winsect)
    ensures var y := x.(wflag := wflag, winsect := winsect);
      Stable(g, y) && Overlay(y) == Overlay(x) && Contents(g, y) == Contents(g, x)
  {
  }

  /** Nor does a change of sectors outside the data area that keeps the entries. */
  lemma TablesRewritten(g: Geometry, x: State, w: seq<Sector>)
    requires Stable(g, x) && |w| == |x.v| && 0 < g.csize && 2 < g.nFatent
    requires forall s: nat :: s < |x.v| && Owner(g, s) != 0 ==> w[s] == x.v[s]
    ensures Stable(g, x.(v := w)) && Contents(g, x.(v := w)) == Contents(g, x)
  {
    var y := x.(v := w);
    if x.sect != 0 {
      OwnedInData(g, |x.v|, x.sect);
    }
    forall s: nat | s < |x.v| && Owner(g, s) in x.chain ensures Overlay(y)[s] == Overlay(x)[s] {
      OwnedInData(g, |x.v|, s);
    }
    FileBytesFrame(g, Overlay(x), Overlay(y), x.chain, x.chain, x.objsize);
  }

  lemma StillAtPointer(g: Geometry, x: State, y: State, fptr: nat, clust: nat)
    requires Stable(g, x) && AtPointer(g, x, fptr, clust) && Stable(g, y)
    requires y.chain == x.chain && y.objsize == x.objsize && y.sect == x.sect
    ensures AtPointer(g, y, fptr, clust)
  {
  }

  lemma SameDataOwned(g: Geometry, v: seq<Sector>, w: seq<Sector>)
    requires g.DataFits(|v|) && SameData(g, v, w)
    ensures forall s: nat :: s < |v| && Owner(g, s) != 0 ==> w[s] == v[s]
  {
    forall s: nat | s < |v| && Owner(g, s) != 0 ensures w[s] == v[s] {
      OwnedInData(g, |v|, s);
    }
  }

  lemma PointerInside(g: Geometry, x: State, fptr: nat, clust: nat)
    requires Stable(g, x) && AtPointer(g, x, fptr, clust)
    ensures fptr <= x.objsize
  {
  }

  lemma WindowMovedAt(g: Geometry, x: State, y: State, i: nat, c: nat)
    requires Stable(g, x) && Stable(g, y) && y == x.(wflag := y.wflag, winsect := y.winsect)
    ensures HoldsByte(g, y, i, c) == HoldsByte(g, x, i, c)
    ensures ByteSector(g, y, i) == ByteSector(g, x, i)
  {
  }

  /** The buffer shows its sector. */
  lemma BufferShows(g: Geometry, x: State)
    requires Stable(g, x) && x.sect != 0
    ensures x.sect < |x.v| && Overlay(x)[x.sect] == x.buf
  {
    OwnSector(g, x, x.sect);
  }

  // ------------------------------------------------------------------ isolation

  /** A dirty window is over the first table, or where it was. */
  predicate SafeWindow(g: Geometry, x: State, wflag: bool, winsect: nat) {
    wflag ==> g.InFat1(winsect) || (x.wflag && winsect == x.winsect)
  }

  /** From `x` to `y` only clusters that `x` owned or that were free changed hands or
      contents. */
  ghost predicate Confined(g: Geometry, x: State, y: State)
    requires 0 < g.csize && 2 < g.nFatent
  {
    && |y.t| == |x.t| && |y.v| == |x.v|
    && (forall c: nat :: Ours(y, c) <==> Ours(x, c)) && SafeWindow(g, x, y.wflag, y.winsect)
    && (forall c :: InRange(x.t, c) && !Ours(x, c) ==> y.t[c] == x.t[c])
    && (forall s: nat :: s < |x.v| && !g.InFatArea(s) && !Ours(x, Owner(g, s)) ==> y.v[s] == x.v[s])
  }

  /** The sector in the buffer is in a cluster of the file, or there is none. */
  ghost predicate OwnSectorHeld(g: Geometry, chain: seq<nat>, sect: nat) {
    0 < g.csize && 2 < g.nFatent && (sect == 0 || Owner(g, sect) in chain)
  }

  lemma ConfinedChain(g: Geometry, x: State, y: State, z: State)
    requires 0 < g.csize && 2 < g.nFatent
    requires Confined(g, x, y) && Confined(g, y, z)
    ensures Confined(g, x, z)
  {
  }

  lemma FlushConfined(g: Geometry, x: State)
    requires Stable(g, x) && 0 < g.csize && 2 < g.nFatent
    ensures Confined(g, x, Flush(x))
  {
  }

  lemma FillConfined(g: Geometry, x: State, s: nat)
    requires Stable(g, x) && 0 < g.csize && 2 < g.nFatent
    ensures Confined(g, x, Fill(x, s))
  {
  }

  /** Moving the window, or rewriting the tables without changing an entry. */
  lemma SettledConfined(g: Geometry, x: State, y: State)
    requires Stable(g, x) && 0 < g.csize && 2 < g.nFatent && SameData(g, x.v, y.v)
    requires y.t == x.t && y.chain == x.chain && SafeWindow(g, x, y.wflag, y.winsect)
    ensures Confined(g, x, y)
  {
  }

  /** Another file, its clusters disjoint from those of `x`, keeps its chain and bytes. */
  lemma OthersKept(g: Geometry, x: State, y: State, other: seq<nat>, n: nat)
    requires g.DataFits(|x.v|) && |x.t| == g.nFatent && Confined(g, x, y)
    requires IsChain(x.t, other) && (forall c :: c in other ==> c !in x.chain)
    requires Clusters(g, other) && Fits(g, other, n)
    ensures IsChain(y.t, other)
    ensures FileBytes(g, y.v, other, n) == FileBytes(g, x.v, other, n)
  {
    ChainUsed(x.t, other);
    ChainFrame(x.t, y.t, other);
    forall s: nat | s < |x.v| && Owner(g, s) in other ensures y.v[s] == x.v[s] {
      OwnedInData(g, |x.v|, s);
    }
    FileBytesFrame(g, x.v, y.v, other, other, n);
  }

  // ------------------------------------------------------------------ the pointer

  /** `clust` is the cluster of the byte before the pointer, and a pointer inside a
      sector has that sector in the buffer. */
  ghost predicate AtPointer(g: Geometry, x: State, fptr: nat, clust: nat)
    requires Stable(g, x)
  {
    && fptr <= x.objsize
    && (fptr > 0 ==> HoldsByte(g, x, fptr - 1, clust))
    && (fptr % 512 != 0 ==> x.sect == ByteSector(g, x, fptr))
  }

  /** Byte `i` of the file lies in cluster `c`. */
  ghost predicate HoldsByte(g: Geometry, x: State, i: nat, c: nat)
    requires Stable(g, x)
  {
    var q := ClusterIndex(g, i / 512);
    q < |x.chain| && c == x.chain[q]
  }

  /** The sector of byte `i`, 0 past the last cluster. */
  ghost function ByteSector(g: Geometry, x: State, i: nat): nat
    requires Stable(g, x)
  {
    if ClusterIndex(g, i / 512) < |x.chain| then FileSector(g, x.chain, i / 512) else 0
  }

  /** On a sector boundary: the cluster to use is the start cluster, the one after the
      current one, or the current one; at the end of the chain the current one is last. */
  lemma Located(g: Geometry, x: State, fptr: nat, clust: nat)
    requires Stable(g, x) && AtPointer(g, x, fptr, clust) && fptr % 512 == 0
    ensures ClusterOffset(g, fptr / 512) != 0 ==> HoldsByte(g, x, fptr, clust)
    ensures ClusterOffset(g, fptr / 512) == 0 && fptr > 0 ==> InRange(x.t, clust) && clust != 0
    ensures ClusterOffset(g, fptr / 512) == 0 && fptr > 0 && InRange(x.t, x.t[clust]) ==> HoldsByte(g, x, fptr, x.t[clust])
    ensures ClusterOffset(g, fptr / 512) == 0 && fptr > 0 && !InRange(x.t, x.t[clust]) ==>
      x.t[clust] >= |x.t| && x.chain != [] && clust == x.chain[|x.chain| - 1]
      && ClusterIndex(g, fptr / 512) == |x.chain|
    ensures fptr == 0 && x.chain != [] ==> HoldsByte(g, x, fptr, x.sclust)
    ensures fptr == 0 ==> ClusterIndex(g, fptr / 512) == 0
  {
    if fptr == 0 {
      ClusterIndexUnique(g, 0, 0, 0);
    } else {
      PreviousByte(g, fptr);
      var q := ClusterIndex(g, (fptr - 1) / 512);
      assert q < |x.chain| - 1 ==> x.t[x.chain[q]] == x.chain[q + 1];
    }
  }

  lemma HeldSector(g: Geometry, x: State, pos: nat, c: nat)
    requires Stable(g, x) && HoldsByte(g, x, pos, c)
    ensures g.InRange(c) && SectorOf(g, c, 0) != 0
    ensures SectorOf(g, c, ClusterOffset(g, pos / 512)) == ByteSector(g, x, pos)
    ensures Owner(g, ByteSector(g, x, pos)) in x.chain && ByteSector(g, x, pos) != 0
    ensures ByteSector(g, x, pos) == FileSector(g, x.chain, pos / 512)
  {
    FileSectorOwned(g, |x.v|, x.chain, pos / 512);
    SectorOwner(g, |x.v|, c, 0);
  }

  /** Bytes of one sector, or of a run of sectors in one cluster, share their cluster. */
  lemma SameCluster(g: Geometry, x: State, pos: nat, i: nat, c: nat)
    requires Stable(g, x) && HoldsByte(g, x, pos, c) && pos <= i
    requires ClusterOffset(g, pos / 512) + (i / 512 - pos / 512) < g.csize
    ensures HoldsByte(g, x, i, c)
  {
    FileSectorRun(g, x.chain, pos / 512, i / 512 - pos / 512);
  }

  /** A run of sectors of the file inside one cluster. */
  lemma RunOwned(g: Geometry, x: State, pos: nat, cc: nat, c: nat)
    requires Stable(g, x) && HoldsByte(g, x, pos, c) && 0 < cc
    requires ClusterOffset(g, pos / 512) + cc <= g.csize
    ensures ByteSector(g, x, pos) + cc <= |x.v|
    ensures forall s: nat :: ByteSector(g, x, pos) <= s < ByteSector(g, x, pos) + cc ==> Owner(g, s) == c
    ensures c in x.chain && 2 <= c
  {
    hide Stable, Clusters, FileSector, Owner, Fits;
    Sizes(g, x);
    HeldSector(g, x, pos, c);
    var k, bs := pos / 512, ByteSector(g, x, pos);
    forall s: nat | bs <= s < bs + cc ensures Owner(g, s) == c {
      FileSectorRun(g, x.chain, k, s - bs);
      FileSectorOwned(g, |x.v|, x.chain, k + (s - bs));
    }
    FileSectorRun(g, x.chain, k, cc - 1);
    FileSectorOwned(g, |x.v|, x.chain, k + (cc - 1));
  }

  /** What a read of such a run must give. */
  lemma RunRead(g: Geometry, x: State, pos: nat, cc: nat, c: nat)
    requires Stable(g, x) && HoldsByte(g, x, pos, c) && 0 < cc && pos % 512 == 0
    requires ClusterOffset(g, pos / 512) + cc <= g.csize && pos + 512 * cc <= x.objsize
    ensures ByteSector(g, x, pos) + cc <= |x.v|
    ensures GetSectors(Overlay(x), ByteSector(g, x, pos), cc) == Contents(g, x)[pos..pos + 512 * cc]
    ensures AtPointer(g, x, pos + 512 * cc, c)
  {
    hide Stable, Clusters, FileSector, Owner, Fits, GetSectors, ClusterIndex, ClusterOffset;
    Sizes(g, x);
    RunBytes(g, Overlay(x), x.chain, x.objsize, pos / 512, cc);
    RunEnd(pos, 512 * cc);
    assert 512 * cc / 512 == cc && 512 * (pos / 512) == pos && 512 * (pos / 512 + cc) == pos + 512 * cc;
    SameCluster(g, x, pos, pos + 512 * cc - 1, c);
  }

  /** What a read inside one sector must give. */
  lemma PieceRead(g: Geometry, x: State, pos: nat, cnt: nat)
    requires Stable(g, x) && 0 < cnt && pos % 512 + cnt <= 512 && pos + cnt <= x.objsize
    requires x.sect == ByteSector(g, x, pos)
    ensures x.buf[pos % 512..pos % 512 + cnt] == Contents(g, x)[pos..pos + cnt]
  {
    hide Stable, Clusters, FileSector, Owner, Fits;
    Sizes(g, x);
    PieceBytes(g, Overlay(x), x.chain, x.objsize, pos, cnt);
    FileSectorOwned(g, |x.v|, x.chain, pos / 512);
    BufferShows(g, x);
  }

  /** The pointer after a step inside one sector or to its end. */
  lemma Advanced(g: Geometry, x: State, pos: nat, cnt: nat, c: nat)
    requires Stable(g, x) && 0 < cnt && pos % 512 + cnt <= 512 && pos + cnt <= x.objsize
    requires x.sect == ByteSector(g, x, pos) && HoldsByte(g, x, pos, c)
    ensures AtPointer(g, x, pos + cnt, c)
  {
    hide Stable, Clusters, FileSector, Owner, Fits, ClusterIndex, ClusterOffset;
    Sizes(g, x);
    InOneSector(pos, cnt);
    SameCluster(g, x, pos, pos + cnt - 1, c);
  }

  /** Inside a sector the current cluster also holds the byte at the pointer. */
  lemma InsideSector(g: Geometry, x: State, pos: nat, c: nat)
    requires Stable(g, x) && AtPointer(g, x, pos, c) && pos % 512 != 0
    ensures HoldsByte(g, x, pos, c) && x.sect == ByteSector(g, x, pos)
  {
    hide Stable, Clusters, Owner, Fits, ClusterIndex, ClusterOffset;
    Sizes(g, x);
    SameSector(g, pos);
  }

  lemma SameSector(g: Geometry, pos: nat)
    requires pos % 512 != 0
    ensures (pos - 1) / 512 == pos / 512
  {
  }

  /** Bringing a sector into the buffer moves no byte of the file. */
  lemma FilledAt(g: Geometry, x: State, s: nat, i: nat, c: nat)
    requires Stable(g, x) && Stable(g, Fill(x, s))
    ensures HoldsByte(g, Fill(x, s), i, c) == HoldsByte(g, x, i, c)
    ensures ByteSector(g, Fill(x, s), i) == ByteSector(g, x, i)
  {
  }

  lemma FlushedAt(g: Geometry, x: State, i: nat, c: nat)
    requires Stable(g, x) && Stable(g, Flush(x))
    ensures HoldsByte(g, Flush(x), i, c) == HoldsByte(g, x, i, c)
    ensures ByteSector(g, Flush(x), i) == ByteSector(g, x, i)
  {
  }

  // ------------------------------------------------------------------ writing

  function Max(a: nat, b: nat): nat { if a < b then b else a }

  /** The file after a write inside one sector through the buffer. */
  ghost function AfterPiece(g: Geometry, x: State, pos: nat, data: seq<Byte>): (y: State)
    requires Stable(g, x) && pos % 512 + |data| <= 512
  {
    x.(sect := ByteSector(g, x, pos), dirty := true, objsize := Max(x.objsize, pos + |data|),
       buf := x.buf[..pos % 512] + data + x.buf[pos % 512 + |data|..])
  }

  /** The sector is in the buffer, or the buffer is clean and the sector lies wholly past
      the end of the file, so that what the buffer held does not matter. */
  ghost predicate PieceReady(g: Geometry, x: State, pos: nat, data: seq<Byte>) {
    && Stable(g, x) && pos <= x.objsize && pos + |data| < 0x1_0000_0000
    && 0 < |data| && pos % 512 + |data| <= 512
    && ClusterIndex(g, pos / 512) < |x.chain|
    && (x.sect == ByteSector(g, x, pos) || (!x.dirty && pos % 512 == 0 && pos == x.objsize))
  }

  lemma PieceStable(g: Geometry, x: State, pos: nat, data: seq<Byte>)
    requires 0 < g.csize && PieceReady(g, x, pos, data)
    ensures Stable(g, AfterPiece(g, x, pos, data))
  {
    var k := pos / 512;
    FileSectorOwned(g, |x.v|, x.chain, k);
    IndexFits(g, x.chain, k);
    hide Chains, ChainOk, Clusters, FileSector, Owner;
    assert Stable(g, AfterPiece(g, x, pos, data));
  }

  lemma PieceWritten(g: Geometry, x: State, pos: nat, data: seq<Byte>)
    requires 0 < g.csize && PieceReady(g, x, pos, data)
    ensures var y := AfterPiece(g, x, pos, data);
      Stable(g, y) && Contents(g, y) == Written(Contents(g, x), pos, data)
  {
    hide Stable, Clusters, FileSector, Owner, Fits;
    var k, s, y := pos / 512, ByteSector(g, x, pos), AfterPiece(g, x, pos, data);
    Sizes(g, x);
    PieceStable(g, x, pos, data);
    Sizes(g, y);
    FileSectorOwned(g, |x.v|, x.chain, k);
    IndexFits(g, x.chain, k);
    var v, w := Overlay(x), Overlay(y);
    if x.sect == s {
      BufferShows(g, x);
    }
    forall i: nat | ClusterIndex(g, i / 512) < |x.chain| && FileSector(g, x.chain, i / 512) < |v|
      && (i < x.objsize || pos <= i < pos + |data|)
      ensures w[FileSector(g, x.chain, i / 512)][i % 512]
        == if pos <= i < pos + |data| then data[i - pos] else v[FileSector(g, x.chain, i / 512)][i % 512]
    {
      if FileSector(g, x.chain, i / 512) == s {
        FileSectorInjective(g, |x.v|, x.chain, i / 512, k);
        assert y.buf[i % 512] == if pos <= i < pos + |data| then data[i - pos] else x.buf[i % 512];
      } else {
        assert i / 512 != k;
      }
    }
    assert Fits(g, x.chain, pos + |data|) by { PieceFits(g, x, pos, data); }
    WriteBytes(g, v, w, x.chain, x.objsize, pos, data);
  }

  lemma PieceFits(g: Geometry, x: State, pos: nat, data: seq<Byte>)
    requires 0 < g.csize && PieceReady(g, x, pos, data)
    ensures Fits(g, x.chain, pos + |data|)
  {
    IndexFits(g, x.chain, pos / 512);
  }

  /** The file after a direct write of whole sectors inside one cluster: the buffered
      sector is refreshed when it is among them. */
  ghost function AfterRun(g: Geometry, x: State, pos: nat, data: seq<Byte>): (y: State)
    requires Stable(g, x) && |data| % 512 == 0
    requires ByteSector(g, x, pos) + |data| / 512 <= |x.v|
  {
    var s, cc := ByteSector(g, x, pos), |data| / 512;
    x.(v := PutSectors(x.v, s, data), objsize := Max(x.objsize, pos + |data|),
       buf := if s <= x.sect < s + cc then data[512 * (x.sect - s)..512 * (x.sect - s) + 512] else x.buf)
  }

  ghost predicate RunReady(g: Geometry, x: State, pos: nat, data: seq<Byte>) {
    && Stable(g, x) && !x.dirty && pos <= x.objsize && pos + |data| < 0x1_0000_0000
    && pos % 512 == 0 && 0 < |data| && |data| % 512 == 0
    && ClusterIndex(g, pos / 512) < |x.chain|
    && ClusterOffset(g, pos / 512) + |data| / 512 <= g.csize
  }

  lemma RunFits(g: Geometry, x: State, pos: nat, data: seq<Byte>)
    requires 0 < g.csize && RunReady(g, x, pos, data)
    ensures ByteSector(g, x, pos) + |data| / 512 <= |x.v|
    ensures Fits(g, x.chain, pos + |data|)
    ensures forall s: nat :: ByteSector(g, x, pos) <= s < ByteSector(g, x, pos) + |data| / 512 ==> Owner(g, s) in x.chain
  {
    hide Stable, Clusters, FileSector, Owner, Fits;
    Sizes(g, x);
    var k, cc, bs := pos / 512, |data| / 512, ByteSector(g, x, pos);
    forall s: nat | bs <= s < bs + cc ensures Owner(g, s) in x.chain {
      FileSectorRun(g, x.chain, k, s - bs);
      FileSectorOwned(g, |x.v|, x.chain, k + (s - bs));
    }
    FileSectorRun(g, x.chain, k, cc - 1);
    FileSectorOwned(g, |x.v|, x.chain, k + (cc - 1));
    IndexFits(g, x.chain, k + (cc - 1));
  }

  lemma RunStable(g: Geometry, x: State, pos: nat, data: seq<Byte>)
    requires 0 < g.csize && RunReady(g, x, pos, data)
    requires ByteSector(g, x, pos) + |data| / 512 <= |x.v|
    ensures Stable(g, AfterRun(g, x, pos, data))
  {
    RunFits(g, x, pos, data);
    hide Chains, ChainOk, Clusters, FileSector, Owner;
    assert Stable(g, AfterRun(g, x, pos, data));
  }

  /** One byte of the file after a direct write. */
  lemma RunByte(g: Geometry, v: seq<Sector>, chain: seq<nat>, pos: nat, data: seq<Byte>, i: nat)
    requires g.DataFits(|v|) && Clusters(g, chain)
    requires pos % 512 == 0 && 0 < |data| && |data| % 512 == 0
    requires ClusterIndex(g, pos / 512) < |chain| && ClusterOffset(g, pos / 512) + |data| / 512 <= g.csize
    requires FileSector(g, chain, pos / 512) + |data| / 512 <= |v|
    requires ClusterIndex(g, i / 512) < |chain| && FileSector(g, chain, i / 512) < |v|
    ensures PutSectors(v, FileSector(g, chain, pos / 512), data)[FileSector(g, chain, i / 512)][i % 512]
      == if pos <= i < pos + |data| then data[i - pos] else v[FileSector(g, chain, i / 512)][i % 512]
  {
    hide FileSector;
    var k, l, cc := pos / 512, i / 512, |data| / 512;
    var s := FileSector(g, chain, k);
    if k <= l < k + cc {
      FileSectorRun(g, chain, k, l - k);
      assert i - pos == 512 * (l - k) + i % 512;
    } else if s <= FileSector(g, chain, l) < s + cc {
      var j := FileSector(g, chain, l) - s;
      FileSectorRun(g, chain, k, j);
      FileSectorInjective(g, |v|, chain, l, k + j);
    }
  }

  lemma RunOverlay(g: Geometry, x: State, pos: nat, data: seq<Byte>)
    requires RunReady(g, x, pos, data)
    requires ByteSector(g, x, pos) + |data| / 512 <= |x.v|
    ensures Overlay(x) == x.v
    ensures Overlay(AfterRun(g, x, pos, data)) == PutSectors(x.v, ByteSector(g, x, pos), data)
  {
  }

  lemma RunWritten(g: Geometry, x: State, pos: nat, data: seq<Byte>)
    requires 0 < g.csize && RunReady(g, x, pos, data)
    ensures ByteSector(g, x, pos) + |data| / 512 <= |x.v|
    ensures var y := AfterRun(g, x, pos, data);
      Stable(g, y) && Contents(g, y) == Written(Contents(g, x), pos, data)
  {
    hide Stable, Clusters, FileSector, Owner, Fits, PutSectors, Overlay;
    RunFits(g, x, pos, data);
    RunStable(g, x, pos, data);
    var y := AfterRun(g, x, pos, data);
    Sizes(g, x);
    Sizes(g, y);
    var k, cc, s := pos / 512, |data| / 512, ByteSector(g, x, pos);
    var v, w := Overlay(x), Overlay(y);
    RunOverlay(g, x, pos, data);
    forall i: nat | ClusterIndex(g, i / 512) < |x.chain| && FileSector(g, x.chain, i / 512) < |v|
      ensures w[FileSector(g, x.chain, i / 512)][i % 512]
        == if pos <= i < pos + |data| then data[i - pos] else v[FileSector(g, x.chain, i / 512)][i % 512]
    {
      RunByte(g, v, x.chain, pos, data, i);
    }
    WriteBytes(g, v, w, x.chain, x.objsize, pos, data);
  }

  lemma RunIsReady(g: Geometry, x: State, pos: nat, data: seq<Byte>, c: nat)
    requires Stable(g, x) && !x.dirty && pos <= x.objsize && pos + |data| < 0x1_0000_0000
    requires pos % 512 == 0 && 0 < |data| && |data| % 512 == 0
    requires 0 < g.csize && HoldsByte(g, x, pos, c) && ClusterOffset(g, pos / 512) + |data| / 512 <= g.csize
    ensures RunReady(g, x, pos, data)
  {
  }

  lemma PieceIsReady(g: Geometry, x: State, pos: nat, data: seq<Byte>, c: nat)
    requires Stable(g, x) && pos <= x.objsize && pos + |data| < 0x1_0000_0000
    requires 0 < |data| && pos % 512 + |data| <= 512 && 0 < g.csize && HoldsByte(g, x, pos, c)
    requires x.sect == ByteSector(g, x, pos) || (!x.dirty && pos % 512 == 0 && pos == x.objsize)
    ensures PieceReady(g, x, pos, data)
  {
  }

  /** What the two kinds of write leave behind: the pointer in place after them. */
  lemma PiecePlaced(g: Geometry, x: State, pos: nat, data: seq<Byte>, c: nat)
    requires 0 < g.csize && PieceReady(g, x, pos, data) && HoldsByte(g, x, pos, c)
    ensures |x.buf| == 512 && pos % 512 + |data| <= 512 && Stable(g, AfterPiece(g, x, pos, data))
    ensures AtPointer(g, AfterPiece(g, x, pos, data), pos + |data|, c)
    ensures Confined(g, x, AfterPiece(g, x, pos, data))
  {
    PieceStable(g, x, pos, data);
    var y := AfterPiece(g, x, pos, data);
    PieceFacts(g, x, pos, data);
    hide Stable, HoldsByte, ByteSector, AtPointer, Clusters, Owner, Fits, PieceReady, AfterPiece, Spliced;
    HeldAgain(g, x, y, pos, c);
    Advanced(g, y, pos, |data|, c);
  }

  lemma RunPlaced(g: Geometry, x: State, pos: nat, data: seq<Byte>, c: nat)
    requires 0 < g.csize && RunReady(g, x, pos, data) && HoldsByte(g, x, pos, c)
    requires ByteSector(g, x, pos) + |data| / 512 <= |x.v|
    ensures Stable(g, AfterRun(g, x, pos, data))
    ensures AtPointer(g, AfterRun(g, x, pos, data), pos + |data|, c)
  {
    hide Stable, Owner, FileSector, Clusters, Fits, PutSectors, ClusterOffset, ClusterIndex, HoldsByte, Ours, ByteSector;
    RunStable(g, x, pos, data);
    var y := AfterRun(g, x, pos, data);
    HeldAgain(g, x, y, pos, c);
    RunEnd(pos, |data|);
    SameCluster(g, y, pos, pos + |data| - 1, c);
  }

  /** The sectors of such a write are the file's, outside the tables and the window. */
  lemma RunSafe(g: Geometry, x: State, pos: nat, data: seq<Byte>, c: nat)
    requires 0 < g.csize && 2 < g.nFatent && RunReady(g, x, pos, data) && HoldsByte(g, x, pos, c)
    ensures |data| % 512 == 0 && ByteSector(g, x, pos) + |data| / 512 <= |x.v|
    ensures forall s: nat :: ByteSector(g, x, pos) <= s < ByteSector(g, x, pos) + |data| / 512 ==> !g.InFatArea(s)
    ensures x.wflag ==> !(ByteSector(g, x, pos) <= x.winsect < ByteSector(g, x, pos) + |data| / 512)
    ensures Confined(g, x, AfterRun(g, x, pos, data))
  {
    hide Stable, Owner, FileSector, Clusters, Fits, PutSectors, ClusterOffset, ClusterIndex, HoldsByte, Ours,
      ByteSector, Confined;
    RunOwned(g, x, pos, |data| / 512, c);
    RunClear(g, x, ByteSector(g, x, pos), |data| / 512, c);
    RunConfined(g, x, pos, data, c);
  }

  lemma RunClear(g: Geometry, x: State, bs: nat, cc: nat, c: nat)
    requires Stable(g, x) && c in x.chain && 2 <= c
    requires forall s: nat :: bs <= s < bs + cc ==> Owner(g, s) == c
    ensures forall s: nat :: bs <= s < bs + cc ==> !g.InFatArea(s)
    ensures x.wflag ==> !(bs <= x.winsect < bs + cc)
  {
    forall s: nat | bs <= s < bs + cc ensures !g.InFatArea(s) {
      assert Owner(g, s) == c;
      OwnSector(g, x, s);
    }
    if bs <= x.winsect < bs + cc {
      OwnSector(g, x, x.winsect);
    }
  }

  lemma RunConfined(g: Geometry, x: State, pos: nat, data: seq<Byte>, c: nat)
    requires 0 < g.csize && 2 < g.nFatent && Stable(g, x) && |data| % 512 == 0
    requires ByteSector(g, x, pos) + |data| / 512 <= |x.v|
    requires c in x.chain && 2 <= c
    requires forall s: nat :: ByteSector(g, x, pos) <= s < ByteSector(g, x, pos) + |data| / 512 ==> Owner(g, s) == c
    ensures Confined(g, x, AfterRun(g, x, pos, data))
  {
    hide Stable;
  }

  // ------------------------------------------------------------------ the chain

  /** A table of chains holds no entry of the reserved value 1. */
  lemma NoOnes(t: seq<nat>, c: nat)
    requires Chains(t) && InRange(t, c)
    ensures t[c] != 1
  {
    if t[c] != 0 {
      var s :| IsChain(t, s) && s[0] == c;
      assert |s| > 1 ==> t[s[0]] == s[1] && InRange(t, s[1]);
    }
  }

  /** A cluster of the file leads to the next one or is the last; no entry is 1. */
  lemma InChain(g: Geometry, x: State, c: nat)
    requires Stable(g, x) && (if c == 0 then x.chain == [] else c in x.chain)
    ensures |x.t| == g.nFatent && 2 < |x.t|
    ensures c != 0 ==> InRange(x.t, c) && x.t[c] >= 2
    ensures c != 0 && !InRange(x.t, x.t[c]) ==> x.t[c] >= |x.t| && c == x.chain[|x.chain| - 1]
    ensures c == 0 ==> x.chain == [] && x.sclust == 0
    ensures c != 0 ==> x.chain != [] && x.sclust != 0
    ensures forall d :: InRange(x.t, d) ==> x.t[d] != 1
  {
    forall d | InRange(x.t, d) ensures x.t[d] != 1 { NoOnes(x.t, d); }
    if c != 0 {
      ChainUsed(x.t, x.chain);
    }
  }

  /** Taking a free cluster at the end of the chain changes no byte of the file. */
  lemma Stretched(g: Geometry, x: State, ncl: nat, eoc: nat, w: seq<Sector>)
    requires Stable(g, x) && SameData(g, x.v, w)
    requires InRange(x.t, ncl) && x.t[ncl] == 0 && eoc >= |x.t|
    ensures var clst := if x.chain == [] then 0 else x.chain[|x.chain| - 1];
      var y := x.(t := Linked(x.t, clst, ncl, eoc), v := w, chain := x.chain + [ncl],
                  sclust := if x.chain == [] then ncl else x.sclust);
      Stable(g, y) && Contents(g, y) == Contents(g, x) && 0 < g.csize && 2 < g.nFatent && Confined(g, x, y)
  {
    hide Stable, Chains, ChainOk, Clusters, Fits, Owner;
    var clst := if x.chain == [] then 0 else x.chain[|x.chain| - 1];
    var longer := x.chain + [ncl];
    Sizes(g, x);
    LastCluster(g, x);
    StretchedChain(g, x, ncl, eoc);
    var y := x.(t := Linked(x.t, clst, ncl, eoc), v := w, chain := longer,
                sclust := if x.chain == [] then ncl else x.sclust);
    LongerFits(g, x.chain, longer, x.objsize);
    StretchedStable(g, x, y, ncl);
    StretchedBytes(g, x, y);
    StretchedConfined(g, x, y, ncl);
  }

  lemma LastCluster(g: Geometry, x: State)
    requires Stable(g, x)
    ensures x.chain != [] ==> var c := x.chain[|x.chain| - 1]; InRange(x.t, c) && x.t[c] >= |x.t| && c != 0
  {
  }

  /** The state after create_chain has given cluster `ncl` of its table `u` to the end of the
      chain, moving the window. */
  lemma Followed(g: Geometry, x: State, ncl: nat, eoc: nat, w: seq<Sector>, wflag: bool, winsect: nat)
    requires Stable(g, x) && SameData(g, x.v, w) && InRange(x.t, ncl) && x.t[ncl] == 0 && eoc >= |x.t|
    requires wflag ==> g.InFat1(winsect) || (x.wflag && winsect == x.winsect)
    ensures var clst := if x.chain == [] then 0 else x.chain[|x.chain| - 1];
      var y := x.(t := Linked(x.t, clst, ncl, eoc), v := w, chain := x.chain + [ncl],
                  sclust := if x.chain == [] then ncl else x.sclust, wflag := wflag, winsect := winsect);
      Stable(g, y) && Contents(g, y) == Contents(g, x) && 0 < g.csize && 2 < g.nFatent && Confined(g, x, y)
  {
    hide Stable, Contents, Confined, Linked;
    Sizes(g, x);
    LastCluster(g, x);
    Stretched(g, x, ncl, eoc, w);
    var clst := if x.chain == [] then 0 else x.chain[|x.chain| - 1];
    var y := x.(t := Linked(x.t, clst, ncl, eoc), v := w, chain := x.chain + [ncl],
                sclust := if x.chain == [] then ncl else x.sclust);
    WindowMoved(g, y, wflag, winsect);
    SettledConfined(g, y, y.(wflag := wflag, winsect := winsect));
    ConfinedChain(g, x, y, y.(wflag := wflag, winsect := winsect));
  }

  /** The state after a call that has changed no entry. */
  lemma Untouched(g: Geometry, x: State, w: seq<Sector>, wflag: bool, winsect: nat)
    requires Stable(g, x) && SameData(g, x.v, w)
    requires wflag ==> g.InFat1(winsect) || (x.wflag && winsect == x.winsect)
    ensures var y := x.(v := w, wflag := wflag, winsect := winsect);
      Stable(g, y) && Contents(g, y) == Contents(g, x) && 0 < g.csize && 2 < g.nFatent && Confined(g, x, y)
  {
    hide Stable, Contents, Confined, Owner;
    Sizes(g, x);
    SameDataOwned(g, x.v, w);
    TablesRewritten(g, x, w);
    WindowMoved(g, x.(v := w), wflag, winsect);
    SettledConfined(g, x, x.(v := w, wflag := wflag, winsect := winsect));
  }

  /** The cluster just taken holds the byte at the end of the clusters. */
  lemma StretchedAt(g: Geometry, x: State, y: State, ncl: nat, pos: nat)
    requires Stable(g, x) && Stable(g, y) && y.chain == x.chain + [ncl]
    requires ClusterIndex(g, pos / 512) == |x.chain|
    ensures HoldsByte(g, y, pos, ncl)
  {
  }

  lemma PieceFacts(g: Geometry, x: State, pos: nat, data: seq<Byte>)
    requires 0 < g.csize && PieceReady(g, x, pos, data)
    ensures Stable(g, x) && Stable(g, AfterPiece(g, x, pos, data)) && 0 < |data| && pos % 512 + |data| <= 512 == |x.buf|
    ensures var y := AfterPiece(g, x, pos, data);
      && y.chain == x.chain && y.sect == ByteSector(g, x, pos) && pos + |data| <= y.objsize && Confined(g, x, y)
  {
    PieceStable(g, x, pos, data);
  }

  lemma HeldAgain(g: Geometry, x: State, y: State, pos: nat, c: nat)
    requires Stable(g, x) && Stable(g, y) && y.chain == x.chain
    ensures HoldsByte(g, y, pos, c) == HoldsByte(g, x, pos, c)
    ensures ByteSector(g, y, pos) == ByteSector(g, x, pos)
  {
  }

  lemma PointerInChain(g: Geometry, x: State, fptr: nat, clust: nat)
    requires Stable(g, x) && AtPointer(g, x, fptr, clust)
    ensures fptr > 0 ==> clust in x.chain && clust != 0 && x.chain != []
    ensures x.chain == [] <==> x.sclust == 0
  {
  }

  lemma StretchedConfined(g: Geometry, x: State, y: State, ncl: nat)
    requires Stable(g, x) && SameData(g, x.v, y.v) && |y.t| == |x.t| && 0 < g.csize && 2 < g.nFatent
    requires y.chain == x.chain + [ncl] && InRange(x.t, ncl) && x.t[ncl] == 0
    requires forall c :: InRange(x.t, c) && c != ncl && !(x.chain != [] && c == x.chain[|x.chain| - 1]) ==> y.t[c] == x.t[c]
    requires forall c :: InRange(x.t, c) && c != ncl ==> (y.t[c] == 0 <==> x.t[c] == 0)
    requires SafeWindow(g, x, y.wflag, y.winsect)
    ensures Confined(g, x, y)
  {
    hide Stable;
    assert y.chain[|x.chain|] == ncl && ncl in y.chain;
    forall c: nat ensures Ours(y, c) <==> Ours(x, c) {
      if c == ncl {
      } else {
        assert c in y.chain <==> c in x.chain;
      }
    }
  }

  lemma StretchedBytes(g: Geometry, x: State, y: State)
    requires Stable(g, x) && Stable(g, y) && SameData(g, x.v, y.v) && x.chain <= y.chain
    requires y.objsize == x.objsize && y.sect == x.sect && y.dirty == x.dirty && y.buf == x.buf
    ensures Contents(g, y) == Contents(g, x)
  {
    forall s: nat | s < |x.v| && Owner(g, s) in x.chain ensures Overlay(y)[s] == Overlay(x)[s] {
      OwnedInData(g, |x.v|, s);
    }
    FileBytesFrame(g, Overlay(x), Overlay(y), x.chain, y.chain, x.objsize);
  }

  lemma StretchedLinks(t: seq<nat>, chain: seq<nat>, ncl: nat, eoc: nat)
    requires chain == [] || IsChain(t, chain)
    requires InRange(t, ncl) && t[ncl] == 0 && eoc >= |t|
    ensures IsChain(Linked(t, if chain == [] then 0 else chain[|chain| - 1], ncl, eoc), chain + [ncl])
  {
    if chain != [] {
      ChainUsed(t, chain);
      LinkedChain(t, chain[|chain| - 1], ncl, eoc, chain);
    }
  }

  lemma StretchedChain(g: Geometry, x: State, ncl: nat, eoc: nat)
    requires Stable(g, x)
    requires InRange(x.t, ncl) && x.t[ncl] == 0 && eoc >= |x.t|
    ensures var clst := if x.chain == [] then 0 else x.chain[|x.chain| - 1];
      var u, longer := Linked(x.t, clst, ncl, eoc), x.chain + [ncl];
      && Chains(u) && ChainOk(u, longer, if x.chain == [] then ncl else x.sclust)
      && Clusters(g, longer)
      && (forall c :: InRange(x.t, c) && c != ncl ==> (u[c] == 0 <==> x.t[c] == 0))
      && (forall c :: InRange(x.t, c) && c != ncl && !(x.chain != [] && c == x.chain[|x.chain| - 1]) ==> u[c] == x.t[c])
  {
    hide Chains, IsHead, Linked, Fits, Owner;
    var clst := if x.chain == [] then 0 else x.chain[|x.chain| - 1];
    LastCluster(g, x);
    var u := Linked(x.t, clst, ncl, eoc);
    var longer := x.chain + [ncl];
    LinkedChains(x.t, clst, ncl, eoc);
    LinkedEntries(x.t, clst, ncl, eoc);
    StretchedLinks(x.t, x.chain, ncl, eoc);
    if x.chain == [] {
      LinkedIsHead(x.t, 0, ncl, eoc, ncl);
    } else {
      ChainUsed(x.t, x.chain);
      LinkedIsHead(x.t, clst, ncl, eoc, x.sclust);
    }
    ChainDistinct(u, longer);
  }

  lemma StretchedStable(g: Geometry, x: State, y: State, ncl: nat)
    requires Stable(g, x) && SameData(g, x.v, y.v) && |y.t| == |x.t|
    requires y == x.(t := y.t, v := y.v, chain := x.chain + [ncl], sclust := y.sclust)
    requires Chains(y.t) && ChainOk(y.t, y.chain, y.sclust) && Clusters(g, y.chain) && Fits(g, y.chain, y.objsize)
    requires InRange(x.t, ncl) && x.t[ncl] == 0
    requires forall c :: InRange(x.t, c) && c != ncl ==> (y.t[c] == 0 <==> x.t[c] == 0)
    ensures Stable(g, y)
  {
    hide Chains, ChainOk, Fits, Owner, Clusters;
    if x.sect != 0 {
      OwnedInData(g, |x.v|, x.sect);
    }
    if x.wflag && Owner(g, x.winsect) != 0 {
      OwnedInData(g, |x.v|, x.winsect);
    }
  }

  /** Growing the size within the clusters keeps every byte there was. */
  lemma Extended(g: Geometry, x: State, n: nat)
    requires Stable(g, x) && x.objsize <= n < 0x1_0000_0000 && Fits(g, x.chain, n)
    ensures var y := x.(objsize := n);
      Stable(g, y) && Contents(g, y)[..x.objsize] == Contents(g, x)
  {
    var y := x.(objsize := n);
    forall i | 0 <= i < x.objsize ensures Contents(g, y)[i] == Contents(g, x)[i] {
      FileByteAt(g, Overlay(x), x.chain, x.objsize, i);
      FileByteAt(g, Overlay(x), x.chain, n, i);
    }
  }

  // ------------------------------------------------------------------ truncation

  /** The file cut to its first `keep` clusters and `n` bytes, `w` being the sectors after
      the table changed and then the sector buffer, if dirty, was written back. */
  ghost function AfterCut(x: State, keep: nat, n: nat, eoc: nat, w: seq<Sector>): (y: State)
    requires keep <= |x.chain| && forall i :: 0 <= i < |x.chain| ==> x.chain[i] < |x.t|
    requires |w| == |x.v|
  {
    x.(t := Truncated(x.t, x.chain, keep, eoc), chain := x.chain[..keep], objsize := n, dirty := false,
       sclust := if keep == 0 then 0 else x.sclust,
       v := if x.dirty && x.sect < |w| && |x.buf| == 512 then w[x.sect := x.buf] else w)
  }

  lemma CutChains(g: Geometry, x: State, keep: nat, eoc: nat)
    requires Stable(g, x) && keep < |x.chain| && eoc >= |x.t|
    ensures var u, c := Truncated(x.t, x.chain, keep, eoc), x.chain[..keep];
      && Chains(u) && ChainOk(u, c, if keep == 0 then 0 else x.sclust) && Clusters(g, c)
      && (forall c :: InRange(x.t, c) ==> (u[c] == 0 <==> x.t[c] == 0 || c in x.chain[keep..]))
    ensures forall i :: 0 <= i < |x.chain| ==> x.chain[i] < |x.t|
  {
    hide Stable;
    ChainFacts(g, x);
    CutOne(g, x.t, x.chain, x.sclust, keep, eoc);
  }

  lemma ChainFacts(g: Geometry, x: State)
    requires Stable(g, x)
    ensures Chains(x.t) && ChainOk(x.t, x.chain, x.sclust) && Clusters(g, x.chain) && |x.t| == g.nFatent
  {
  }

  lemma CutOne(g: Geometry, t: seq<nat>, s: seq<nat>, sclust: nat, keep: nat, eoc: nat)
    requires Chains(t) && ChainOk(t, s, sclust) && Clusters(g, s) && keep < |s| && eoc >= |t|
    ensures forall i :: 0 <= i < |s| ==> s[i] < |t|
    ensures var u, c := Truncated(t, s, keep, eoc), s[..keep];
      && Chains(u) && ChainOk(u, c, if keep == 0 then 0 else sclust) && Clusters(g, c)
      && (forall c :: InRange(t, c) ==> (u[c] == 0 <==> t[c] == 0 || c in s[keep..]))
  {
    hide Chains, HasChain;
    ChainUsed(t, s);
    TruncatedChains(t, s, keep, eoc);
    if keep > 0 {
      CutChain(t, s, keep, eoc);
    }
  }

  /** Truncation keeps exactly the first bytes of the file. */
  lemma CutBytes(g: Geometry, x: State, keep: nat, n: nat, eoc: nat, w: seq<Sector>)
    requires Stable(g, x) && keep < |x.chain| && eoc >= |x.t| && SameData(g, x.v, w)
    requires n <= x.objsize && Fits(g, x.chain[..keep], n)
    ensures var y := AfterCut(x, keep, n, eoc, w);
      Stable(g, y) && Contents(g, y) == Contents(g, x)[..n]
  {
    hide Stable, Overlay, Fits, Clusters, Owner, Truncated, Chains, ChainOk;
    CutChains(g, x, keep, eoc);
    var y := AfterCut(x, keep, n, eoc, w);
    CutStable(g, x, y, keep, w);
    CutOverlay(g, x, y, keep, w);
    CutInside(g, x, n);
    Sizes(g, x);
    Sizes(g, y);
    LongerFits(g, y.chain, x.chain, n);
    FileBytesFrame(g, Overlay(y), Overlay(x), y.chain, x.chain, n);
    assert Contents(g, y) == FileBytes(g, Overlay(y), y.chain, n);
  }

  lemma CutOverlay(g: Geometry, x: State, y: State, keep: nat, w: seq<Sector>)
    requires Stable(g, x) && SameData(g, x.v, w) && !y.dirty
    requires y.v == if x.dirty && x.sect < |w| && |x.buf| == 512 then w[x.sect := x.buf] else w
    ensures |Overlay(y)| == |Overlay(x)|
    ensures forall s: nat :: s < |x.v| && Owner(g, s) in x.chain ==> Overlay(y)[s] == Overlay(x)[s]
  {
    forall s: nat | s < |x.v| && Owner(g, s) in x.chain ensures Overlay(y)[s] == Overlay(x)[s] {
      OwnedInData(g, |x.v|, s);
    }
  }

  lemma CutStable(g: Geometry, x: State, y: State, keep: nat, w: seq<Sector>)
    requires Stable(g, x) && keep < |x.chain| && SameData(g, x.v, w)
    requires y == x.(t := y.t, chain := x.chain[..keep], objsize := y.objsize, dirty := false, sclust := y.sclust,
                     v := if x.dirty && x.sect < |w| && |x.buf| == 512 then w[x.sect := x.buf] else w)
    requires |y.t| == |x.t| && Chains(y.t) && ChainOk(y.t, y.chain, y.sclust) && Clusters(g, y.chain)
    requires y.objsize <= x.objsize && Fits(g, y.chain, y.objsize)
    requires forall c :: InRange(x.t, c) ==> (y.t[c] == 0 <==> x.t[c] == 0 || c in x.chain[keep..])
    ensures Stable(g, y)
  {
    hide Chains, ChainOk, Fits, Owner, Clusters;
    if x.sect != 0 {
      OwnedInData(g, |x.v|, x.sect);
    }
    if x.wflag && Owner(g, x.winsect) != 0 {
      OwnedInData(g, |x.v|, x.winsect);
    }
  }

  /** Without a cluster to free, truncation only shortens the size and writes back. */
  lemma CutInside(g: Geometry, x: State, n: nat)
    requires Stable(g, x) && n <= x.objsize
    ensures var y := x.(objsize := n);
      Stable(g, y) && Contents(g, y) == Contents(g, x)[..n]
    ensures Fits(g, x.chain, n) && FileBytes(g, Overlay(x), x.chain, n) == Contents(g, x)[..n]
  {
    LongerFits(g, x.chain, x.chain, n);
    forall i | 0 <= i < n
      ensures FileBytes(g, Overlay(x), x.chain, n)[i] == FileBytes(g, Overlay(x), x.chain, x.objsize)[i]
    {
      FileByteAt(g, Overlay(x), x.chain, n, i);
      FileByteAt(g, Overlay(x), x.chain, x.objsize, i);
    }
  }

  /** How many clusters hold the first `n` bytes. */
  ghost function Kept(g: Geometry, n: nat): nat
    requires 0 < g.csize
  {
    if n == 0 then 0 else ClusterIndex(g, (n - 1) / 512) + 1
  }

  /** The chain `was` has been stretched at most so far that it has the clusters that the
      bytes before `pos` need. */
  ghost predicate GrewTo(g: Geometry, was: seq<nat>, now: seq<nat>, pos: nat) {
    0 < g.csize && was <= now && (|now| == |was| || |now| <= Kept(g, pos))
  }

  /** It has been stretched to these clusters, and not at all if it had them. */
  ghost predicate Grew(g: Geometry, was: seq<nat>, now: seq<nat>, pos: nat) {
    0 < g.csize && was <= now && |now| == if |was| < Kept(g, pos) then Kept(g, pos) else |was|
  }

  /** The file ends at `n`: its chain has the clusters the bytes before need, and exactly the
      others of what it was are free. */
  ghost predicate CutBack(g: Geometry, x: State, y: State, n: nat, eoc: nat) {
    && 0 < g.csize && Kept(g, n) <= |x.chain| && y.chain == x.chain[..Kept(g, n)] && y.objsize == n
    && FreedFrom(x.t, y.t, x.chain, Kept(g, n), eoc)
  }

  /** The first cluster of a chain that the bytes before `n` do not need, and the one before it. */
  ghost predicate CutsAt(g: Geometry, chain: seq<nat>, n: nat, clst: nat, pclst: nat) {
    && 0 < g.csize && 2 < g.nFatent && Kept(g, n) < |chain| && clst == chain[Kept(g, n)]
    && pclst == if Kept(g, n) == 0 then 0 else chain[Kept(g, n) - 1]
  }

  lemma StillHeld(g: Geometry, was: seq<nat>, now: seq<nat>, pos: nat, sect: nat)
    requires GrewTo(g, was, now, pos) && OwnSectorHeld(g, was, sect)
    ensures OwnSectorHeld(g, now, sect)
  {
  }

  lemma KeptGrows(g: Geometry, a: nat, b: nat)
    requires 0 < g.csize && a <= b
    ensures Kept(g, a) <= Kept(g, b)
  {
    if a > 0 {
      var q, q' := ClusterIndex(g, (a - 1) / 512), ClusterIndex(g, (b - 1) / 512);
      if q' < q {
        MulOrder(q', q, g.csize);
      }
    }
  }

  lemma GrewToTrans(g: Geometry, a: seq<nat>, b: seq<nat>, c: seq<nat>, pos: nat, pos': nat)
    requires GrewTo(g, a, b, pos) && GrewTo(g, b, c, pos') && pos <= pos'
    ensures GrewTo(g, a, c, pos')
  {
    KeptGrows(g, pos, pos');
  }

  /** What the bytes before the pointer need the file has. */
  lemma GrewExactly(g: Geometry, was: seq<nat>, x: State, fptr: nat, clust: nat)
    requires Stable(g, x) && AtPointer(g, x, fptr, clust) && GrewTo(g, was, x.chain, fptr)
    ensures Grew(g, was, x.chain, fptr)
  {
    CutPoint(g, x, fptr, clust);
  }

  /** `data` has been written at `start`, with no more clusters than that needs, and without
      touching what is not the file's. */
  ghost predicate Wrote(g: Geometry, x: State, y: State, start: nat, data: seq<Byte>) {
    && Stable(g, x) && Stable(g, y) && start <= x.objsize && 0 < g.csize && 2 < g.nFatent
    && Contents(g, y) == Written(Contents(g, x), start, data)
    && GrewTo(g, x.chain, y.chain, start + |data|) && Confined(g, x, y)
  }

  lemma WroteNothing(g: Geometry, x: State, fptr: nat, clust: nat)
    requires Stable(g, x) && AtPointer(g, x, fptr, clust)
    ensures fptr <= x.objsize < 0x1_0000_0000 && Wrote(g, x, x, fptr, [])
  {
    Sizes(g, x);
    PointerInside(g, x, fptr, clust);
    SettledConfined(g, x, x);
    WrittenNothing(Contents(g, x), fptr);
  }

  lemma WroteMore(g: Geometry, x: State, y: State, z: State, start: nat, data: seq<Byte>, done: nat, end: nat, n: nat)
    requires done + n <= end <= |data| && Wrote(g, x, y, start, data[..done]) && Stable(g, z)
    requires start + done <= |Contents(g, y)| && Contents(g, z) == Written(Contents(g, y), start + done, data[done..end][..n])
    requires Confined(g, y, z) && GrewTo(g, y.chain, z.chain, start + done + n)
    ensures Wrote(g, x, z, start, data[..done + n])
  {
    hide Stable, Contents, Confined, Written, GrewTo, Kept;
    ConfinedChain(g, x, y, z);
    GrewToTrans(g, x.chain, y.chain, z.chain, start + done, start + done + n);
    WrittenMore(Contents(g, x), start, data, done, end, n);
  }

  lemma WroteMeans(g: Geometry, x: State, y: State, start: nat, data: seq<Byte>, clust: nat)
    requires Wrote(g, x, y, start, data) && AtPointer(g, y, start + |data|, clust)
    ensures Stable(g, x) && 0 < g.csize && 2 < g.nFatent && start <= |Contents(g, x)|
    ensures Contents(g, y) == Written(Contents(g, x), start, data)
    ensures Confined(g, x, y) && Grew(g, x.chain, y.chain, start + |data|)
  {
    GrewExactly(g, x.chain, y, start + |data|, clust);
  }

  lemma NotGrown(g: Geometry, chain: seq<nat>, pos: nat)
    requires 0 < g.csize
    ensures GrewTo(g, chain, chain, pos)
  {
  }

  /** Inside its `q`-th cluster, or at its end, a file needs `q + 1` clusters. */
  lemma KeptAt(g: Geometry, q: nat, j: nat)
    requires 0 < g.csize && 0 < j <= ClusterBytes(g)
    ensures Kept(g, q * ClusterBytes(g) + j) == q + 1
  {
    ByteOfCluster(g, q, j - 1);
  }

  /** So the pointer where a seek lands. */
  lemma LandedAt(g: Geometry, x: State, q: nat, fptr: nat, clust: nat, j: nat, was: seq<nat>)
    requires 0 < g.csize && j <= ClusterBytes(g) && was <= x.chain && (|x.chain| == |was| || |x.chain| <= q + 1)
    requires if j == 0 then PastCluster(g, x, q, fptr, clust) else AtCluster(g, x, q, fptr, clust)
    ensures GrewTo(g, was, x.chain, fptr + j)
  {
    KeptAt(g, q, if j == 0 then ClusterBytes(g) else j);
  }

  lemma KeptFits(g: Geometry, chain: seq<nat>, n: nat)
    requires 0 < g.csize && Fits(g, chain, n)
    ensures Kept(g, n) <= |chain| && Fits(g, chain[..Kept(g, n)], n)
  {
    if n > 0 {
      FitsIndex(g, chain, n, n - 1);
      IndexFits(g, chain[..Kept(g, n)], (n - 1) / 512);
    }
  }

  /** The pointer stays in place when the file is cut there. */
  lemma CutPlaced(g: Geometry, x: State, y: State, fptr: nat, clust: nat)
    requires Stable(g, x) && AtPointer(g, x, fptr, clust) && Stable(g, y)
    requires y.objsize == fptr && y.sect == x.sect && Kept(g, fptr) <= |x.chain|
    requires y.chain == x.chain[..Kept(g, fptr)]
    ensures AtPointer(g, y, fptr, clust)
  {
    hide Stable, ClusterIndex, ClusterOffset;
    if fptr > 0 {
      PreviousByte(g, fptr);
    }
  }

  /** The current cluster is the last one kept. */
  lemma CutPoint(g: Geometry, x: State, fptr: nat, clust: nat)
    requires Stable(g, x) && AtPointer(g, x, fptr, clust)
    ensures Kept(g, fptr) <= |x.chain| && Fits(g, x.chain[..Kept(g, fptr)], fptr) && fptr <= x.objsize
    ensures Kept(g, fptr) == 0 <==> fptr == 0
    ensures fptr == 0 && fptr < x.objsize ==> x.chain != [] && x.sclust == x.chain[0] && InRange(x.t, x.sclust)
    ensures fptr > 0 ==> InRange(x.t, clust) && clust == x.chain[Kept(g, fptr) - 1] && x.t[clust] >= 2
    ensures fptr > 0 && Kept(g, fptr) < |x.chain| ==> x.t[clust] == x.chain[Kept(g, fptr)] && InRange(x.t, x.t[clust])
    ensures fptr > 0 && Kept(g, fptr) == |x.chain| ==> x.t[clust] >= |x.t|
    ensures fptr < x.objsize && fptr == 0 ==> CutsAt(g, x.chain, fptr, x.sclust, 0)
    ensures fptr > 0 && x.t[clust] < |x.t| ==> CutsAt(g, x.chain, fptr, x.t[clust], clust)
  {
    LongerFits(g, x.chain, x.chain, fptr);
    hide Chains, Fits, ClusterIndex, IsHead;
    if fptr > 0 {
      KeptFits(g, x.chain, fptr);
      ChainUsed(x.t, x.chain);
      NoOnes(x.t, clust);
    }
  }

  lemma CutStart(g: Geometry, x: State, n: nat)
    requires Stable(g, x) && 0 < g.csize && Kept(g, n) < |x.chain| && n <= x.objsize
    ensures IsChain(x.t, x.chain) && Fits(g, x.chain[..Kept(g, n)], n)
    ensures forall i :: 0 <= i < |x.chain| ==> InRange(x.t, x.chain[i]) && x.t[x.chain[i]] != 0
    ensures Kept(g, n) == 0 <==> n == 0
    ensures x.chain != [] && x.sclust == x.chain[0] && |x.t| == g.nFatent
    ensures x.dirty ==> x.sect < |x.v| && !g.InFatArea(x.sect) && !(x.wflag && x.winsect == x.sect)
  {
    LongerFits(g, x.chain, x.chain, n);
    KeptFits(g, x.chain, n);
    ChainUsed(x.t, x.chain);
    if x.dirty {
      OwnSector(g, x, x.sect);
    }
  }

  lemma CutConfined(g: Geometry, x: State, keep: nat, n: nat, eoc: nat, w: seq<Sector>)
    requires Stable(g, x) && keep < |x.chain| && eoc >= |x.t| && SameData(g, x.v, w)
    requires 0 < g.csize && 2 < g.nFatent && forall i :: 0 <= i < |x.chain| ==> x.chain[i] < |x.t|
    ensures Confined(g, x, AfterCut(x, keep, n, eoc, w))
  {
    hide Chains, Fits, ChainOk, Clusters, Owner;
    CutEntries(x.t, x.chain, keep, eoc);
  }

  lemma CutEntries(t: seq<nat>, chain: seq<nat>, keep: nat, eoc: nat)
    requires keep < |chain| && forall i :: 0 <= i < |chain| ==> chain[i] < |t|
    requires eoc >= |t|
    ensures var u := Truncated(t, chain, keep, eoc);
      && |u| == |t|
      && (forall c: nat :: c < |t| && c !in chain ==> u[c] == t[c])
      && (forall c: nat :: c < |t| && u[c] == 0 ==> t[c] == 0 || c in chain)
  {
  }

  /** The whole truncation to `n` bytes: `w` are the sectors after the removal, and the
      window ends over the tables or where it was. */
  lemma CutAll(g: Geometry, x: State, n: nat, eoc: nat, w: seq<Sector>, wflag: bool, winsect: nat)
    requires Stable(g, x) && 0 < g.csize && 2 < g.nFatent && Kept(g, n) < |x.chain| && n <= x.objsize
    requires eoc >= |x.t| && SameData(g, x.v, w)
    requires wflag ==> g.InFat1(winsect) || (x.wflag && winsect == x.winsect)
    requires forall i :: 0 <= i < |x.chain| ==> x.chain[i] < |x.t|
    ensures var y := AfterCut(x, Kept(g, n), n, eoc, w).(wflag := wflag, winsect := winsect);
      Stable(g, y) && Contents(g, y) == Contents(g, x)[..n] && Confined(g, x, y)
  {
    hide Stable, Contents, Confined, Truncated, Owner, Fits, Kept;
    CutStart(g, x, n);
    CutBytes(g, x, Kept(g, n), n, eoc, w);
    CutConfined(g, x, Kept(g, n), n, eoc, w);
    var z := AfterCut(x, Kept(g, n), n, eoc, w);
    WindowMoved(g, z, wflag, winsect);
    var y := z.(wflag := wflag, winsect := winsect);
    SettledConfined(g, z, y);
    ConfinedChain(g, x, z, y);
  }

  /** What remove_chain is called with, and what it makes of the table. */
  lemma CutPlan(g: Geometry, x: State, n: nat, clst: nat, pclst: nat, eoc: nat)
    requires Stable(g, x) && n <= x.objsize && eoc >= |x.t| && CutsAt(g, x.chain, n, clst, pclst)
    ensures InRange(x.t, clst) && (pclst == 0 || (InRange(x.t, pclst) && x.t[pclst] != 0)) && |x.t| == g.nFatent
    ensures FreedFrom(x.t, Removed(if pclst == 0 then x.t else x.t[pclst := eoc], clst).0, x.chain, Kept(g, n), eoc)
    ensures Removed(if pclst == 0 then x.t else x.t[pclst := eoc], clst).1
    ensures x.dirty ==> |x.buf| == 512 && x.sect < |x.v| && !g.InFatArea(x.sect) && !(x.wflag && x.winsect == x.sect)
  {
    hide Stable, Fits, Kept, Removed, Truncated;
    CutStart(g, x, n);
    Sizes(g, x);
    RemovedSuffix(x.t, x.chain, Kept(g, n), eoc);
  }

  /** The state after that and with the new size. */
  lemma CutDone(g: Geometry, x: State, y: State, n: nat, eoc: nat, w: seq<Sector>)
    requires Stable(g, x) && 0 < g.csize && 2 < g.nFatent && Kept(g, n) < |x.chain| && n <= x.objsize
    requires eoc >= |x.t| && SameData(g, x.v, w) && FreedFrom(x.t, y.t, x.chain, Kept(g, n), eoc)
    requires y.wflag ==> g.InFat1(y.winsect) || (x.wflag && y.winsect == x.winsect)
    requires x.dirty ==> x.sect < |w|
    requires y == x.(t := y.t, v := if x.dirty then w[x.sect := x.buf] else w, chain := x.chain[..Kept(g, n)], objsize := n, dirty := false,
                     sclust := if n == 0 then 0 else x.sclust, wflag := y.wflag, winsect := y.winsect)
    ensures Stable(g, y) && Contents(g, y) == Contents(g, x)[..n] && Confined(g, x, y) && CutBack(g, x, y, n, eoc)
  {
    hide Stable, Contents, Confined, Truncated, Kept;
    CutStart(g, x, n);
    Sizes(g, x);
    CutAll(g, x, n, eoc, w, y.wflag, y.winsect);
  }

  // ------------------------------------------------------------------ f_lseek

  /** The pointer at the start of the `q`-th cluster of the chain, which is current. */
  ghost predicate AtCluster(g: Geometry, x: State, q: nat, fptr: nat, clust: nat) {
    q < |x.chain| && clust == x.chain[q] && fptr == q * ClusterBytes(g)
  }

  /** The pointer just past the `q`-th cluster, which is current. */
  ghost predicate PastCluster(g: Geometry, x: State, q: nat, fptr: nat, clust: nat) {
    q < |x.chain| && clust == x.chain[q] && fptr == q * ClusterBytes(g) + ClusterBytes(g)
  }

  /** From inside a cluster, `j` bytes on. */
  lemma FromCluster(g: Geometry, x: State, q: nat, fptr: nat, clust: nat, j: nat)
    requires Stable(g, x) && AtCluster(g, x, q, fptr, clust) && 0 < j <= ClusterBytes(g)
    ensures HoldsByte(g, x, fptr + j - 1, clust) && Fits(g, x.chain, fptr + j)
    ensures j % 512 == (fptr + j) % 512
    ensures j % 512 != 0 ==> HoldsByte(g, x, fptr + j, clust) && ClusterOffset(g, (fptr + j) / 512) == j / 512
  {
    hide ClusterIndex, ClusterOffset, ClusterBytes, Clusters, Chains, ChainOk, Owner;
    ByteOfCluster(g, q, j - 1);
    ClustersFit(g, q, |x.chain|, j);
    if j < ClusterBytes(g) {
      ByteOfCluster(g, q, j);
    } else {
      WholeSectors(g);
    }
  }

  lemma WholeSectors(g: Geometry)
    ensures ClusterBytes(g) % 512 == 0
  {
  }

  /** The cluster of the current pointer, as the code finds it by the mask. */
  lemma CurrentCluster(g: Geometry, x: State, fptr: nat, clust: nat)
    requires Stable(g, x) && AtPointer(g, x, fptr, clust) && 0 < fptr && PowerOfTwo(g.csize)
    ensures var q := ClusterIndex(g, (fptr - 1) / 512);
      AtCluster(g, x, q, fptr - 1 - And(fptr - 1, ClusterBytes(g) - 1), clust)
    ensures fptr - 1 - And(fptr - 1, ClusterBytes(g) - 1) < fptr
  {
    ClusterOfByte(g, fptr - 1);
  }

  /** A later byte does not lie before the cluster of an earlier one. */
  lemma SeekForward(g: Geometry, to: nat, from: nat)
    requires 0 < g.csize && to / ClusterBytes(g) >= from / ClusterBytes(g) && PowerOfTwo(g.csize)
    ensures from - And(from, ClusterBytes(g) - 1) <= to
  {
    ClusterOfByte(g, from);
    ClusterOfByte(g, to);
    var a, b := ClusterIndex(g, from / 512), ClusterIndex(g, to / 512);
    if a < b {
      MulOrder(a, b, ClusterBytes(g));
    }
  }

  /** One cluster further. */
  lemma NextCluster(g: Geometry, x: State, q: nat, fptr: nat, clust: nat)
    requires Stable(g, x) && AtCluster(g, x, q, fptr, clust)
    ensures q < |x.chain| && clust == x.chain[q]
    ensures clust in x.chain && InRange(x.t, clust) && clust != 0 && x.t[clust] >= 2
    ensures q + 1 <= |x.chain| && (InRange(x.t, x.t[clust]) <==> q + 1 < |x.chain|)
    ensures q + 1 < |x.chain| ==> x.t[clust] == x.chain[q + 1]
    ensures fptr + ClusterBytes(g) == (q + 1) * ClusterBytes(g)
    ensures x.objsize <= fptr + ClusterBytes(g) || q + 1 < |x.chain|
  {
    hide ClusterBytes, Chains, Owner;
    NoOnes(x.t, clust);
    assert q + 1 < |x.chain| ==> x.t[x.chain[q]] == x.chain[q + 1];
    ChainUsed(x.t, x.chain);
    ClustersFit(g, q, |x.chain|, 0);
    WholeSectors(g);
  }

  lemma AtClusterAfter(g: Geometry, x: State, y: State, q: nat, fptr: nat, clust: nat)
    requires AtCluster(g, x, q, fptr, clust) && y.chain == x.chain
    ensures AtCluster(g, y, q, fptr, clust) && PastCluster(g, y, q, fptr + ClusterBytes(g), clust)
  {
  }

  lemma AtPast(g: Geometry, x: State, q: nat, fptr: nat, clust: nat)
    requires PastCluster(g, x, q, fptr, clust) && 0 < ClusterBytes(g)
    ensures fptr >= ClusterBytes(g) && AtCluster(g, x, q, fptr - ClusterBytes(g), clust)
  {
    assert 0 <= q * ClusterBytes(g);
  }

  lemma AtNextCluster(g: Geometry, x: State, y: State, q: nat, fptr: nat, clust: nat)
    requires 0 < q <= |x.chain| && fptr == q * ClusterBytes(g)
    requires if q < |x.chain| then y.chain == x.chain && clust == x.chain[q] else y.chain == x.chain + [clust]
    ensures AtCluster(g, y, q, fptr, clust)
  {
  }

  /** Where `j` bytes into the current cluster are. */
  lemma Landing(g: Geometry, x: State, q: nat, fptr: nat, clust: nat, j: nat)
    requires Stable(g, x) && AtCluster(g, x, q, fptr, clust) && 0 < j <= ClusterBytes(g)
    ensures g.InRange(clust) && SectorOf(g, clust, 0) != 0
    ensures HoldsByte(g, x, fptr + j - 1, clust) && Fits(g, x.chain, fptr + j)
    ensures j % 512 == (fptr + j) % 512
    ensures j % 512 != 0 ==> HoldsByte(g, x, fptr + j, clust) && SectorOf(g, clust, 0) + j / 512 == ByteSector(g, x, fptr + j)
    ensures j % 512 != 0 ==> Owner(g, ByteSector(g, x, fptr + j)) in x.chain && Owner(g, ByteSector(g, x, fptr + j)) != 0
  {
    hide ClusterBytes, ClusterIndex, ClusterOffset;
    FromCluster(g, x, q, fptr, clust, j);
    SectorOwner(g, |x.v|, clust, 0);
    if j % 512 != 0 {
      FileSectorOwned(g, |x.v|, x.chain, (fptr + j) / 512);
      SectorInCluster(g, clust, j / 512);
    }
  }

  lemma LandedPast(g: Geometry, x: State, q: nat, fptr: nat, clust: nat)
    requires Stable(g, x) && PastCluster(g, x, q, fptr, clust)
    ensures 0 < fptr && HoldsByte(g, x, fptr - 1, clust) && Fits(g, x.chain, fptr) && fptr % 512 == 0
  {
    hide Stable, ClusterIndex, ClusterOffset;
    Sizes(g, x);
    assert 0 < ClusterBytes(g);
    AtPast(g, x, q, fptr, clust);
    FromCluster(g, x, q, fptr - ClusterBytes(g), clust, ClusterBytes(g));
    WholeSectors(g);
  }

  lemma PointerSet(g: Geometry, x: State, fptr: nat, clust: nat)
    requires Stable(g, x) && fptr <= x.objsize
    requires fptr > 0 ==> HoldsByte(g, x, fptr - 1, clust)
    requires fptr % 512 != 0 ==> x.sect == ByteSector(g, x, fptr)
    ensures AtPointer(g, x, fptr, clust)
  {
  }

  lemma ExtendedConfined(g: Geometry, x: State, n: nat)
    requires Stable(g, x) && 0 < g.csize && 2 < g.nFatent
    ensures Confined(g, x, x.(objsize := n))
  {
  }

  lemma EmptyFile(g: Geometry, x: State)
    requires Stable(g, x) && x.sclust == 0
    ensures x.chain == [] && x.objsize == 0
  {
  }

  /** The first cluster of a chain is current at the top of the file. */
  lemma FirstCluster(g: Geometry, x: State, clust: nat)
    requires Stable(g, x) && (clust == x.sclust || x.chain == [clust]) && clust != 0
    ensures AtCluster(g, x, 0, 0, clust)
  {
  }

  // ------------------------------------------------------------------ f_sync

  lemma FlushedPlace(g: Geometry, x: State, fptr: nat, clust: nat)
    requires Stable(g, x) && AtPointer(g, x, fptr, clust) && Stable(g, Flush(x))
    ensures AtPointer(g, Flush(x), fptr, clust)
  {
  }

  /** The sectors before the tables belong to no cluster. */
  lemma SystemSector(g: Geometry, size: nat)
    requires g.DataFits(size)
    ensures forall s: nat :: s < g.fatbase ==> Owner(g, s) == 0
  {
  }

  /** With a clean buffer the sectors themselves hold the file. */
  lemma CleanContents(g: Geometry, x: State)
    requires Stable(g, x) && !x.dirty
    ensures g.DataFits(|x.v|) && Clusters(g, x.chain) && Fits(g, x.chain, x.objsize)
    ensures FileBytes(g, x.v, x.chain, x.objsize) == Contents(g, x)
  {
  }
}
