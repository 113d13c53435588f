/** Several files open on one volume: what an operation on one of them leaves of another, with
    its own pointer and its own buffer, dirty or not. */
module FatSharing {
  import opened FatLayout
  import opened FatChain
  import opened FatData
  import opened FatVolume
  import opened FatState
  import opened FatFile

  /** Another open file on the same volume: it has no cluster of the first, and what it buffers
      is its own. */
  ghost predicate Beside(g: Geometry, x: State, z: State) {
    && z.t == x.t && z.v == x.v && z.wflag == x.wflag && z.winsect == x.winsect
    && (forall c :: c in z.chain ==> c !in x.chain) && OwnSectorHeld(g, z.chain, z.sect)
  }

  /** The other file once the volume has become that of `y`. */
  ghost function Moved(z: State, y: State): State { z.(t := y.t, v := y.v, wflag := y.wflag, winsect := y.winsect) }

  /** No cluster of the other file is touched. */
  lemma NotOurs(g: Geometry, x: State, z: State, c: nat)
    requires c in z.chain && Beside(g, x, z) && Stable(g, z)
    ensures !Ours(x, c) && InRange(x.t, c)
  {
    hide Chains, Owner, Fits;
    ChainUsed(z.t, z.chain);
  }

  /** Its chain is a chain still, and nothing links to its head. */
  lemma ChainStays(g: Geometry, x: State, y: State, z: State)
    requires 0 < g.csize && 2 < g.nFatent && Stable(g, x) && Stable(g, y) && Confined(g, x, y) && Beside(g, x, z) && Stable(g, z)
    ensures ChainOk(y.t, z.chain, z.sclust)
  {
    hide Chains, Owner, Fits;
    if z.chain != [] {
      forall c | c in z.chain ensures y.t[c] == z.t[c] {
        NotOurs(g, x, z, c);
      }
      ChainFrame(z.t, y.t, z.chain);
      NotOurs(g, x, z, z.sclust);
      forall d | InRange(y.t, d) ensures y.t[d] != z.sclust {
        assert Ours(y, d) <==> Ours(x, d);
        NextIsOurs(g, y, d);
        assert Ours(y, z.sclust) <==> Ours(x, z.sclust);
      }
    }
  }

  /** What a cluster of the file links to is the file's. */
  lemma NextIsOurs(g: Geometry, y: State, d: nat)
    requires Stable(g, y) && InRange(y.t, d)
    ensures Ours(y, d) && InRange(y.t, y.t[d]) ==> Ours(y, y.t[d])
  {
    hide Chains, Owner, Fits;
    if Ours(y, d) && InRange(y.t, y.t[d]) {
      var i :| 0 <= i < |y.chain| && y.chain[i] == d;
      assert i + 1 < |y.chain| && y.chain[i + 1] == y.t[d];
    }
  }

  /** Its sectors say what they said. */
  lemma SectorStays(g: Geometry, x: State, y: State, z: State, s: nat)
    requires 0 < g.csize && 2 < g.nFatent && Confined(g, x, y) && Beside(g, x, z) && Stable(g, z)
    requires s < |x.v| && Owner(g, s) in z.chain
    ensures y.v[s] == x.v[s]
  {
    hide Chains;
    NotOurs(g, x, z, Owner(g, s));
    OwnedInData(g, |x.v|, s);
  }

  /** The window is over none of its clusters. */
  lemma WindowApart(g: Geometry, x: State, y: State, z: State)
    requires 0 < g.csize && 2 < g.nFatent && Stable(g, x) && Stable(g, y) && Confined(g, x, y) && Beside(g, x, z) && Stable(g, z)
    ensures y.wflag ==> !Ours(Moved(z, y), Owner(g, y.winsect))
  {
    hide Chains, Fits;
    if y.wflag {
      var c := Owner(g, y.winsect);
      if c in z.chain {
        NotOurs(g, x, z, c);
      }
    }
  }

  /** A step of one file leaves another as it was: its chain, its buffer, its pointer and its
      bytes, and the two remain beside each other. */
  lemma OtherStays(g: Geometry, x: State, y: State, z: State)
    requires 0 < g.csize && 2 < g.nFatent && Stable(g, x) && Stable(g, y) && Confined(g, x, y) && Beside(g, x, z) && Stable(g, z)
    ensures var z' := Moved(z, y);
      && Stable(g, z') && Contents(g, z') == Contents(g, z) && Beside(g, y, z')
      && forall fptr: nat, clust: nat :: AtPointer(g, z, fptr, clust) ==> AtPointer(g, z', fptr, clust)
  {
    hide Stable, Confined, Contents, AtPointer, OwnSectorHeld;
    var z' := Moved(z, y);
    StaysStable(g, x, y, z);
    forall c | c in z.chain ensures c !in y.chain {
      NotInTheOther(g, x, y, z, c);
    }
    BytesStay(g, x, y, z);
    forall fptr: nat, clust: nat | AtPointer(g, z, fptr, clust) ensures AtPointer(g, z', fptr, clust) {
      PointerStays(g, z, z', fptr, clust);
    }
  }

  lemma NotInTheOther(g: Geometry, x: State, y: State, z: State, c: nat)
    requires 0 < g.csize && 2 < g.nFatent && Stable(g, y) && Confined(g, x, y) && Beside(g, x, z) && Stable(g, z) && c in z.chain
    ensures c !in y.chain
  {
    hide Chains, Owner, Fits;
    NotOurs(g, x, z, c);
    assert Ours(y, c) <==> Ours(x, c);
  }

  lemma PointerStays(g: Geometry, z: State, z': State, fptr: nat, clust: nat)
    requires Stable(g, z) && Stable(g, z') && AtPointer(g, z, fptr, clust)
    requires z'.chain == z.chain && z'.objsize == z.objsize && z'.sect == z.sect
    ensures AtPointer(g, z', fptr, clust)
  {
  }

  lemma StaysStable(g: Geometry, x: State, y: State, z: State)
    requires 0 < g.csize && 2 < g.nFatent && Stable(g, x) && Stable(g, y) && Confined(g, x, y) && Beside(g, x, z) && Stable(g, z)
    ensures Stable(g, Moved(z, y))
  {
    ChainStays(g, x, y, z);
    WindowApart(g, x, y, z);
    if z.sect != 0 && z.sect < |z.v| {
      SectorStays(g, x, y, z, z.sect);
    }
    hide Chains, ChainOk, Clusters, Fits, Owner;
  }

  lemma BytesStay(g: Geometry, x: State, y: State, z: State)
    requires 0 < g.csize && 2 < g.nFatent && Confined(g, x, y) && Beside(g, x, z) && Stable(g, z) && Stable(g, Moved(z, y))
    ensures Contents(g, Moved(z, y)) == Contents(g, z)
  {
    var z' := Moved(z, y);
    forall s: nat | s < |z.v| && Owner(g, s) in z.chain ensures Overlay(z')[s] == Overlay(z)[s] {
      SectorStays(g, x, y, z, s);
    }
    Sizes(g, z);
    hide Stable, Owner, Confined;
    FileBytesFrame(g, Overlay(z), Overlay(z'), z.chain, z.chain, z.objsize);
  }

  /** Two files open on one volume. */
  ghost predicate Together(f: Fil, other: Fil)
    reads f, f.buf, other, other.buf, f.fs`disk, f.fs`wflag, f.fs`winsect, f.fs.win
  {
    && other.fs == f.fs && f != other && f.buf != other.buf && f.Valid() && other.Valid()
    && f.OwnBuffer() && other.OwnBuffer() && forall c :: c in other.chain ==> c !in f.chain
  }

  /** Whatever f_read, f_write, f_lseek or f_truncate has done to the one, the other is open as
      before, at the same place of the same bytes. */
  twostate lemma OtherUndisturbed(f: Fil, other: Fil)
    requires old(Together(f, other)) && f.Valid() && unchanged(other) && unchanged(other.buf)
    requires 0 < f.fs.g.csize && 2 < f.fs.g.nFatent && Confined(f.fs.g, old(f.St()), f.St())
    ensures other.Valid() && other.Bytes() == old(other.Bytes()) && other.OwnBuffer()
    ensures forall c :: c in other.chain ==> c !in f.chain
  {
    hide Volume.Valid, Volume.View, Volume.FatTable, Stable, Contents, Confined, AtPointer;
    OtherStays(f.fs.g, old(f.St()), f.St(), old(other.St()));
    assert other.St() == Moved(old(other.St()), f.St());
  }

  /** What a growing file takes from the free clusters does not come back. */
  lemma FreeShrinks(g: Geometry, x: State, y: State)
    requires 0 < g.csize && 2 < g.nFatent && Stable(g, y) && Confined(g, x, y) && x.chain <= y.chain
    ensures FreeSet(y.t) <= FreeSet(x.t)
  {
    hide Chains, Owner, Fits;
    if y.chain != [] {
      ChainUsed(y.t, y.chain);
    }
    forall c | c in FreeSet(y.t) ensures c in FreeSet(x.t) {
      assert Ours(y, c) <==> Ours(x, c);
    }
  }

  /** A write to one of two files: it has what was written to it, and the other is as before. */
  method WriteBeside(f: Fil, other: Fil, data: seq<Byte>) returns (n: nat)
    requires Together(f, other) && f.canWrite && |data| < 0x1_0000_0000
    modifies f`fptr, f`clust, f`sect, f`dirty, f`objsize, f`sclust, f`chain, f`modified, f.buf
    modifies f.fs`disk, f.fs`wflag, f.fs`winsect, f.fs`freeClst, f.fs`lastClst, f.fs`fsiFlag, f.fs.win
    ensures Together(f, other) && n <= |data| && other.Bytes() == old(other.Bytes())
    ensures old(f.fptr) <= |old(f.Bytes())| && f.Bytes() == Written(old(f.Bytes()), old(f.fptr), data[..n])
    ensures n < |data| && old(f.fptr) + n < 0xFFFF_FFFF && old(f.fs.FreeExact()) ==> FreeSet(f.fs.FatTable()) == {}
    ensures FreeSet(f.fs.FatTable()) <= old(FreeSet(f.fs.FatTable())) && (old(f.fs.FreeExact()) ==> f.fs.FreeExact())
  {
    hide Volume.Valid, Volume.View, Volume.FatTable, Volume.FreeExact, Stable, Contents, Confined, AtPointer,
      Written, Grew, FreeSet, OwnSectorHeld;
    PointerInside(f.fs.g, f.St(), f.fptr, f.clust);
    ghost var x, z := f.St(), other.St();
    var res;
    res, n := f.Write(data);
    OtherStays(f.fs.g, x, f.St(), z);
    assert other.St() == Moved(z, f.St());
    GrewChain(f.fs.g, x.chain, f.chain, f.fptr);
    FreeShrinks(f.fs.g, x, f.St());
  }

  lemma GrewChain(g: Geometry, was: seq<nat>, now: seq<nat>, pos: nat)
    requires Grew(g, was, now, pos)
    ensures was <= now
  {
  }

  /** Writes to two files in turn: each has what was written to it, and nothing else. */
  method WriteBoth(f: Fil, other: Fil, data: seq<Byte>, more: seq<Byte>) returns (n: nat, m: nat)
    requires Together(f, other) && f.canWrite && other.canWrite && |data| < 0x1_0000_0000 && |more| < 0x1_0000_0000
    modifies f, f.buf, other, other.buf, f.fs, f.fs.win
    ensures Together(f, other) && n <= |data| && m <= |more|
    ensures old(f.fptr) <= |old(f.Bytes())| && f.Bytes() == Written(old(f.Bytes()), old(f.fptr), data[..n])
    ensures old(other.fptr) <= |old(other.Bytes())| && other.Bytes() == Written(old(other.Bytes()), old(other.fptr), more[..m])
    ensures (n < |data| && old(f.fptr) + n < 0xFFFF_FFFF) || (m < |more| && old(other.fptr) + m < 0xFFFF_FFFF) ==>
      old(f.fs.FreeExact()) ==> FreeSet(f.fs.FatTable()) == {}
  {
    hide Fil.Valid, Fil.Bytes, Fil.OwnBuffer, Written, FreeSet, Volume.FatTable, Volume.FreeExact;
    n := WriteBeside(f, other, data);
    m := WriteBeside(other, f, more);
  }
}
