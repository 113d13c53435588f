/** The buffer cache over the disk's sectors, and the disk operations of the file system that
    go through it.  One process at a time; the others may hold references of their own. */
module BufferCache {
  import opened Basics
  import opened FatLayout
  import opened LruList

  const ROOTDEV := 1
  const DEV_MMC := 0

  datatype DResult = RES_OK | RES_PARERR

  predicate Holds(b: Buf, dev: nat, blockno: nat) { b.dev == dev && b.blockno == blockno }

  /** No block is in two buffers. */
  ghost predicate Unique(bs: seq<Buf>) {
    forall i, j :: 0 <= i < j < |bs| && Holds(bs[i], bs[j].dev, bs[j].blockno) ==> bs[i].dev == 0
  }

  predicate Fresh(b: Buf, disk: seq<Sector>) {
    b.dev == ROOTDEV ==> b.blockno < |disk| && (b.valid ==> b.data == disk[b.blockno])
  }

  /** What is cached is what is on the disk, but perhaps in buffer `skip`. */
  ghost predicate Coherent(bs: seq<Buf>, disk: seq<Sector>, skip: int) {
    forall i :: 0 <= i < |bs| && i != skip ==> Fresh(bs[i], disk)
  }

  /** All buffers are in the list, the later their last reference went the further in front. */
  ghost predicate Recent(n: nat, order: seq<nat>, lost: seq<nat>, now: nat) {
    && |lost| == n && (forall b :: 0 <= b < n ==> b in order && lost[b] < now)
    && forall i, j :: 0 <= i < j < |order| && order[i] < n && order[j] < n ==> lost[order[i]] > lost[order[j]]
  }

  ghost predicate Cached(bs: seq<Buf>, n: nat, dev: nat, blockno: nat) {
    exists b :: 0 <= b < n <= |bs| && Holds(bs[b], dev, blockno)
  }

  ghost predicate SomeUnreferenced(bs: seq<Buf>, n: nat) {
    exists b :: 0 <= b < n <= |bs| && bs[b].refcnt == 0
  }

  /** The unreferenced buffer whose last reference went longest ago. */
  ghost predicate IsVictim(bs: seq<Buf>, n: nat, lost: seq<nat>, b: nat) {
    && b < n <= |bs| && n <= |lost| && bs[b].refcnt == 0
    && forall i :: 0 <= i < n && bs[i].refcnt == 0 ==> lost[b] <= lost[i]
  }

  function Sector512(s: seq<Byte>, k: nat): Sector
    requires k * 512 + 512 <= |s|
  {
    s[k * 512..k * 512 + 512]
  }

  /** Byte by byte. */
  lemma SectorBytes(disk: seq<Sector>, bytes: seq<Byte>, bytes': seq<Byte>, sector: nat, count: nat, k: nat, j: nat)
    requires ReadOut(disk, bytes, bytes', sector, count) && k < count && j < 512
    ensures 512 * k + j < |bytes'| && bytes'[512 * k + j] == disk[sector + k][j]
  {
    assert Sector512(bytes', k)[j] == bytes'[k * 512 + j];
  }

  lemma BytesPut(disk: seq<Sector>, disk': seq<Sector>, bytes: seq<Byte>, sector: nat, count: nat, k: nat, j: nat)
    requires SectorsWritten(disk, disk', bytes, sector, count) && k < count && j < 512
    ensures sector + k < |disk'| && 512 * k + j < |bytes| && disk'[sector + k][j] == bytes[512 * k + j]
  {
    assert disk'[sector + k] == Sector512(bytes, k);
  }

  /** The plain disk: sectors from `sector` on replaced by `count` sectors of `bytes`. */
  ghost predicate SectorsWritten(disk: seq<Sector>, disk': seq<Sector>, bytes: seq<Byte>, sector: nat, count: nat) {
    && |disk'| == |disk| && sector + count <= |disk| && count * 512 <= |bytes|
    && forall k :: 0 <= k < |disk| ==>
         disk'[k] == if sector <= k < sector + count then Sector512(bytes, k - sector) else disk[k]
  }

  /** The bytes of `count` sectors, then what was there before. */
  ghost predicate ReadOut(disk: seq<Sector>, bytes: seq<Byte>, bytes': seq<Byte>, sector: nat, count: nat) {
    && |bytes'| == |bytes| && sector + count <= |disk| && count * 512 <= |bytes|
    && (forall k :: 0 <= k < count ==> Sector512(bytes', k) == disk[sector + k])
    && bytes'[count * 512..] == bytes[count * 512..]
  }

  function Upto(n: nat): seq<nat> { seq(n, k => k) }

  ghost predicate Falling(order: seq<nat>, b: nat) {
    |order| == b && forall i :: 0 <= i < b ==> order[i] == b - 1 - i
  }

  lemma FallingIsRecent(n: nat, order: seq<nat>)
    requires Falling(order, n)
    ensures Recent(n, order, Upto(n), n)
  {
    forall b | 0 <= b < n
      ensures b in order
    {
      assert order[n - 1 - b] == b;
    }
  }

  /** What acquiring a buffer for a block does: one more reference to the buffer that has
      it, or else the victim is the block's, with nothing read yet. */
  ghost predicate Got(was: seq<Buf>, bs: seq<Buf>, n: nat, lost: seq<nat>, dev: nat, blockno: nat, b: nat) {
    && b < n && |was| == n + 1
    && if Cached(was, n, dev, blockno)
       then Holds(was[b], dev, blockno) && bs == was[b := was[b].(refcnt := was[b].refcnt + 1)]
       else IsVictim(was, n, lost, b)
            && bs == was[b := was[b].(dev := dev, blockno := blockno, valid := false, refcnt := 1)]
  }

  lemma NotCached(bs: seq<Buf>, n: nat, order: seq<nat>, lost: seq<nat>, now: nat, dev: nat, blockno: nat)
    requires |bs| == n + 1 && Nodes(n, order) && Recent(n, order, lost, now)
    requires forall k :: 0 <= k < |order| ==> !Holds(bs[order[k]], dev, blockno)
    ensures !Cached(bs, n, dev, blockno)
  {
    forall b | 0 <= b < n
      ensures !Holds(bs[b], dev, blockno)
    {
      assert b in order;
    }
  }

  /** The last unreferenced buffer of the list is the one unreferenced for longest. */
  lemma OldestIsVictim(bs: seq<Buf>, n: nat, order: seq<nat>, lost: seq<nat>, now: nat, i: nat)
    requires |bs| == n + 1 && Nodes(n, order) && Recent(n, order, lost, now)
    requires i < |order| && bs[order[i]].refcnt == 0
    requires forall k :: i < k < |order| ==> bs[order[k]].refcnt != 0
    ensures IsVictim(bs, n, lost, order[i])
  {
    forall x | 0 <= x < n && bs[x].refcnt == 0
      ensures lost[order[i]] <= lost[x]
    {
      assert x in order;
      var k :| 0 <= k < |order| && order[k] == x;
    }
  }

  lemma AllReferenced(bs: seq<Buf>, n: nat, order: seq<nat>, lost: seq<nat>, now: nat)
    requires |bs| == n + 1 && Nodes(n, order) && Recent(n, order, lost, now)
    requires forall k :: 0 <= k < |order| ==> bs[order[k]].refcnt != 0
    ensures !SomeUnreferenced(bs, n)
  {
    forall b | 0 <= b < n
      ensures bs[b].refcnt != 0
    {
      assert b in order;
    }
  }

  lemma StaysUnique(was: seq<Buf>, n: nat, bs: seq<Buf>, dev: nat, blockno: nat, b: nat)
    requires |was| == n + 1 == |bs| && b < n && Unique(was[..n]) && !Cached(was, n, dev, blockno)
    requires forall i :: 0 <= i < n && i != b ==> bs[i] == was[i]
    requires Holds(bs[b], dev, blockno)
    ensures Unique(bs[..n])
  {
    var old', new' := was[..n], bs[..n];
    assert forall i :: 0 <= i < n ==> !Holds(was[i], dev, blockno);
    forall i, j | 0 <= i < j < n && Holds(new'[i], new'[j].dev, new'[j].blockno)
      ensures new'[i].dev == 0
    {
      if i != b && j != b {
        assert Holds(old'[i], old'[j].dev, old'[j].blockno);
      }
    }
  }

  /** Changing only references or contents. */
  lemma KeptByContents(was: seq<Buf>, bs: seq<Buf>, n: nat, order: seq<nat>)
    requires |was| == n + 1 == |bs| && Linked(was, n, order) && Unique(was[..n])
    requires forall i :: 0 <= i <= n ==> SameLinks(was[i], bs[i]) && bs[i].dev == was[i].dev && bs[i].blockno == was[i].blockno
    ensures Linked(bs, n, order) && Unique(bs[..n])
  {
    LinkedElse(was, bs, n, order);
    UniqueElse(was, bs, n);
  }

  lemma UniqueElse(was: seq<Buf>, bs: seq<Buf>, n: nat)
    requires |was| == n + 1 == |bs| && Unique(was[..n])
    requires forall i :: 0 <= i < n ==> bs[i].dev == was[i].dev && bs[i].blockno == was[i].blockno
    ensures Unique(bs[..n])
  {
    var old', new' := was[..n], bs[..n];
    forall i, j | 0 <= i < j < n && Holds(new'[i], new'[j].dev, new'[j].blockno)
      ensures new'[i].dev == 0
    {
      assert Holds(old'[i], old'[j].dev, old'[j].blockno);
    }
  }

  lemma UniqueLinks(was: seq<Buf>, bs: seq<Buf>, n: nat)
    requires |was| == n + 1 && Unique(was[..n]) && OnlyLinks(bs, was)
    ensures Unique(bs[..n])
  {
    assert forall i :: 0 <= i < n ==> SameBut(bs[i], was[i]);
    UniqueElse(was, bs, n);
  }

  /** Buffer `b` has `more` references more, the others have what they had. */
  ghost predicate References(was: seq<Buf>, bs: seq<Buf>, n: nat, b: nat, more: nat) {
    && |was| == n + 1 == |bs|
    && forall i :: 0 <= i < n ==> bs[i].refcnt == was[i].refcnt + if i == b then more else 0
  }

  lemma GotIsFresh(was: seq<Buf>, got: seq<Buf>, bs: seq<Buf>, n: nat, lost: seq<nat>, disk: seq<Sector>, blockno: nat, b: nat)
    requires |was| == |bs| == n + 1 && Coherent(was[..n], disk, -1)
    requires Got(was, got, n, lost, ROOTDEV, blockno, b) && blockno < |disk|
    requires bs == if got[b].valid then got else got[b := got[b].(data := disk[blockno], valid := true)]
    ensures Coherent(bs[..n], disk, -1) && Holds(bs[b], ROOTDEV, blockno) && bs[b].valid && bs[b].data == disk[blockno]
    ensures References(was, bs, n, b, 1)
  {
    assert forall i :: 0 <= i < n ==> Fresh(was[i], disk) by {
      assert forall i :: 0 <= i < n ==> was[..n][i] == was[i];
    }
  }

  lemma OneHolder(bs: seq<Buf>, i: nat, b: nat)
    requires Unique(bs) && i < |bs| && b < |bs| && bs[b].dev != 0 && Holds(bs[i], bs[b].dev, bs[b].blockno)
    ensures i == b
  {
    assert Holds(bs[b], bs[i].dev, bs[i].blockno);
  }

  lemma WriteIsCoherent(bs: seq<Buf>, disk: seq<Sector>, b: nat)
    requires b < |bs| && Coherent(bs, disk, b) && Unique(bs) && bs[b].dev == ROOTDEV && bs[b].blockno < |disk|
    ensures Coherent(bs, disk[bs[b].blockno := bs[b].data], -1)
  {
    forall i | 0 <= i < |bs|
      ensures Fresh(bs[i], disk[bs[b].blockno := bs[b].data])
    {
      if Holds(bs[i], ROOTDEV, bs[b].blockno) {
        OneHolder(bs, i, b);
      }
    }
  }

  lemma PlaceOf(n: nat, order: seq<nat>, lost: seq<nat>, now: nat, b: nat) returns (i: nat)
    requires Recent(n, order, lost, now) && b < n
    ensures i < |order| && order[i] == b && |lost| == n
  {
    assert b in order;
    i :| 0 <= i < |order| && order[i] == b;
  }

  lemma MovedIsRecent(n: nat, order: seq<nat>, lost: seq<nat>, now: nat, i: nat)
    requires Nodes(n, order) && Recent(n, order, lost, now) && i < |order|
    ensures Recent(n, [order[i]] + Without(order, i), lost[order[i] := now], now + 1)
    ensures order[i] !in Without(order, i)
  {
    var moved := [order[i]] + Without(order, i);
    assert forall k :: 0 < k < |moved| ==> moved[k] == order[if k - 1 < i then k - 1 else k];
    forall b | 0 <= b < n
      ensures b in moved
    {
      var k := PlaceOf(n, order, lost, now, b);
      assert moved[if k == i then 0 else if k < i then k + 1 else k] == b;
    }
    MovedFalls(n, order, lost, now, i, moved);
  }

  lemma MovedFalls(n: nat, order: seq<nat>, lost: seq<nat>, now: nat, i: nat, moved: seq<nat>)
    requires Nodes(n, order) && Recent(n, order, lost, now) && i < |order| == |moved| && moved[0] == order[i]
    requires forall k :: 0 < k < |moved| ==> moved[k] == order[if k - 1 < i then k - 1 else k]
    ensures var later := lost[order[i] := now];
      forall x, y :: 0 <= x < y < |moved| && moved[x] < n && moved[y] < n ==> later[moved[x]] > later[moved[y]]
  {
    var later := lost[order[i] := now];
    forall x, y | 0 <= x < y < |moved| && moved[x] < n && moved[y] < n
      ensures later[moved[x]] > later[moved[y]]
    {
      assert moved[y] == order[if y - 1 < i then y - 1 else y];
      if x > 0 {
        assert moved[x] == order[if x - 1 < i then x - 1 else x];
      }
    }
  }

  lemma OnlyLinksTwice(a: seq<Buf>, b: seq<Buf>, c: seq<Buf>)
    requires OnlyLinks(a, b) && OnlyLinks(b, c)
    ensures OnlyLinks(a, c)
  {
    forall i | 0 <= i < |a|
      ensures SameBut(a[i], c[i])
    {
      assert SameBut(a[i], b[i]) && SameBut(b[i], c[i]);
    }
  }

  ghost predicate SameReferences(was: seq<Buf>, bs: seq<Buf>, n: nat) {
    |was| == n + 1 == |bs| && forall i :: 0 <= i < n ==> bs[i].refcnt == was[i].refcnt
  }

  lemma SomeStays(was: seq<Buf>, bs: seq<Buf>, n: nat)
    requires SameReferences(was, bs, n) && SomeUnreferenced(was, n)
    ensures SomeUnreferenced(bs, n)
  {
    var b :| 0 <= b < n && was[b].refcnt == 0;
    assert bs[b].refcnt == 0;
  }

  lemma CoherentBut(was: seq<Buf>, bs: seq<Buf>, n: nat, disk: seq<Sector>, b: nat)
    requires |was| == n + 1 == |bs| && b < n && Coherent(was[..n], disk, -1)
    requires forall i :: 0 <= i < n && i != b ==> bs[i] == was[i]
    ensures Coherent(bs[..n], disk, b)
  {
    forall i | 0 <= i < n && i != b
      ensures Fresh(bs[..n][i], disk)
    {
      assert Fresh(was[..n][i], disk);
    }
  }

  /** A reference taken and given back. */
  lemma AfterRelease(was: seq<Buf>, mid: seq<Buf>, held: seq<Buf>, bs: seq<Buf>, n: nat, disk: seq<Sector>, b: nat)
    requires SameReferences(was, mid, n) && References(mid, held, n, b, 1) && Coherent(held[..n], disk, -1)
    requires b < n && held[b].refcnt > 0 && OnlyLinks(bs, held[b := held[b].(refcnt := held[b].refcnt - 1)])
    ensures SameReferences(was, bs, n) && Coherent(bs[..n], disk, -1)
  {
    var less := held[b := held[b].(refcnt := held[b].refcnt - 1)];
    forall i | 0 <= i < n
      ensures bs[i].refcnt == was[i].refcnt && Fresh(bs[..n][i], disk)
    {
      assert SameBut(bs[i], less[i]);
      assert Fresh(held[..n][i], disk);
    }
  }

  lemma OneMoreSector(disk: seq<Sector>, was: seq<Byte>, bytes: seq<Byte>, bytes': seq<Byte>, sector: nat, i: nat)
    requires ReadOut(disk, was, bytes, sector, i) && sector + i < |disk| && i * 512 + 512 <= |was| == |bytes'|
    requires forall k :: 0 <= k < |was| ==>
      bytes'[k] == if i * 512 <= k < i * 512 + 512 then disk[sector + i][k - i * 512] else bytes[k]
    ensures ReadOut(disk, was, bytes', sector, i + 1)
  {
    forall k | 0 <= k < i + 1
      ensures Sector512(bytes', k) == disk[sector + k]
    {
      if k < i {
        assert Sector512(bytes, k) == disk[sector + k];
        assert Sector512(bytes', k) == Sector512(bytes, k);
      }
    }
    forall k | i * 512 + 512 <= k < |was|
      ensures bytes'[k] == was[k]
    {
      assert bytes[i * 512..][k - i * 512] == was[i * 512..][k - i * 512];
    }
  }

  class Cache {
    const n: nat
    const bufs: array<Buf>
    var disk: seq<Sector>
    ghost var order: seq<nat>
    ghost var lost: seq<nat>
    ghost var now: nat

    ghost predicate Valid()
      reads this, bufs
    {
      bufs.Length == n + 1 && Linked(bufs[..], n, order) && Recent(n, order, lost, now) && Unique(bufs[..n])
    }

    ghost predicate InStep()
      reads this, bufs
    {
      Valid() && Coherent(bufs[..n], disk, -1)
    }

    constructor (n: nat, disk: seq<Sector>)
      ensures InStep() && fresh(bufs) && this.n == n && this.disk == disk
      ensures forall b :: 0 <= b < n ==> bufs[b].refcnt == 0 && !bufs[b].valid
    {
      this.n, this.disk := n, disk;
      bufs := new Buf[n + 1](_ => Buf(false, 0, 0, 0, n, n, seq(512, _ => 0)));
      order, lost, now := [], Upto(n), n;
      new;
      var b := 0;
      while b < n
        invariant b <= n && Linked(bufs[..], n, order) && Falling(order, b) && lost == Upto(n) && now == n
        invariant this.disk == disk
        invariant forall i :: 0 <= i <= n ==> bufs[i].dev == 0 && bufs[i].refcnt == 0 && !bufs[i].valid
      {
        Insert(b);
        b := b + 1;
      }
      FallingIsRecent(n, order);
    }

    /** Put a buffer in front of the list. */
    method Insert(b: nat)
      requires bufs.Length == n + 1 && b < n && Linked(bufs[..], n, order) && b !in order
      modifies bufs, this`order
      ensures Linked(bufs[..], n, order) && order == [b] + old(order) && OnlyLinks(bufs[..], old(bufs[..]))
    {
      ghost var was := bufs[..];
      Pushed(was, n, order, b);
      bufs[b] := bufs[b].(next := bufs[n].next, prev := n);
      bufs[bufs[n].next] := bufs[bufs[n].next].(prev := b);
      bufs[n] := bufs[n].(next := b);
      assert bufs[..] == Push(was, n, b);
      order := [b] + order;
    }

    /** Take a buffer out of the list. */
    method Remove(b: nat, ghost i: nat)
      requires bufs.Length == n + 1 && Linked(bufs[..], n, order) && i < |order| && order[i] == b
      modifies bufs, this`order
      ensures Linked(bufs[..], n, order) && order == Without(old(order), i) && OnlyLinks(bufs[..], old(bufs[..]))
    {
      ghost var was := bufs[..];
      Unlinked(was, n, order, i);
      bufs[bufs[b].next] := bufs[bufs[b].next].(prev := bufs[b].prev);
      assert bufs[b].prev == was[b].prev by { assert Hooked(was, n, order, i); }
      bufs[bufs[b].prev] := bufs[bufs[b].prev].(next := bufs[b].next);
      assert bufs[..] == Unlink(was, b);
      order := Without(order, i);
    }

    /** Is the block already cached?  The head stands for "no". */
    method Lookup(dev: nat, blockno: nat) returns (b: nat)
      requires Valid()
      ensures b <= n
      ensures b < n ==> Holds(bufs[b], dev, blockno)
      ensures b == n ==> !Cached(bufs[..], n, dev, blockno)
    {
      b := bufs[n].next;
      ghost var i: int := 0;
      assert Hooked(bufs[..], n, order, -1);
      while b != n
        invariant 0 <= i <= |order| && b == At(order, n, i)
        invariant forall k :: 0 <= k < i ==> !Holds(bufs[order[k]], dev, blockno)
        decreases |order| - i
      {
        if bufs[b].dev == dev && bufs[b].blockno == blockno {
          return b;
        }
        assert Hooked(bufs[..], n, order, i);
        b := bufs[b].next;
        i := i + 1;
      }
      NotCached(bufs[..], n, order, lost, now, dev, blockno);
    }

    /** The least recently used unused buffer, or the head. */
    method LastUnreferenced() returns (b: nat)
      requires Valid()
      ensures b <= n
      ensures b < n ==> IsVictim(bufs[..], n, lost, b)
      ensures b == n ==> !SomeUnreferenced(bufs[..], n)
    {
      b := bufs[n].prev;
      ghost var i: int := |order| - 1;
      assert Hooked(bufs[..], n, order, i);
      while b != n
        invariant -1 <= i < |order| && b == At(order, n, i)
        invariant forall k :: i < k < |order| ==> bufs[order[k]].refcnt != 0
        decreases i
      {
        if bufs[b].refcnt == 0 {
          OldestIsVictim(bufs[..], n, order, lost, now, i);
          return b;
        }
        assert Hooked(bufs[..], n, order, i - 1);
        b := bufs[b].prev;
        i := i - 1;
      }
      AllReferenced(bufs[..], n, order, lost, now);
    }

    /** `ok` is false for the panic: the block is not cached and every buffer is referenced. */
    method AcquireBuf(dev: nat, blockno: nat) returns (ok: bool, b: nat)
      requires Valid() && dev != 0
      modifies bufs
      ensures Valid()
      ensures ok <==> Cached(old(bufs[..]), n, dev, blockno) || SomeUnreferenced(old(bufs[..]), n)
      ensures if ok then Got(old(bufs[..]), bufs[..], n, lost, dev, blockno, b) else bufs[..] == old(bufs[..])
    {
      ghost var was := bufs[..];
      b := Lookup(dev, blockno);
      if b != n {
        assert Holds(was[b], dev, blockno);
        bufs[b] := bufs[b].(refcnt := bufs[b].refcnt + 1);
        KeptByContents(was, bufs[..], n, order);
        return true, b;
      }
      b := LastUnreferenced();
      if b == n {
        return false, n;
      }
      bufs[b] := bufs[b].(dev := dev, blockno := blockno, valid := false, refcnt := 1);
      StaysUnique(was, n, bufs[..], dev, blockno, b);
      LinkedElse(was, bufs[..], n, order);
      ok := true;
    }

    /** The block's contents, whether they were cached or not, and one more reference. */
    method AcquireBufAndRead(blockno: nat) returns (b: nat)
      requires InStep() && blockno < |disk|
      requires Cached(bufs[..], n, ROOTDEV, blockno) || SomeUnreferenced(bufs[..], n)
      modifies bufs
      ensures InStep() && b < n && Holds(bufs[b], ROOTDEV, blockno) && bufs[b].valid && bufs[b].data == disk[blockno]
      ensures References(old(bufs[..]), bufs[..], n, b, 1)
    {
      ghost var was := bufs[..];
      var ok;
      ok, b := AcquireBuf(ROOTDEV, blockno);
      ghost var got := bufs[..];
      if !bufs[b].valid {
        bufs[b] := bufs[b].(data := disk[blockno]);
        bufs[b] := bufs[b].(valid := true);
      }
      KeptByContents(got, bufs[..], n, order);
      GotIsFresh(was, got, bufs[..], n, lost, disk, blockno, b);
    }

    /** The contents go to the disk. */
    method WriteBufToDisk(b: nat)
      requires Valid() && b < n && bufs[b].dev == ROOTDEV && bufs[b].blockno < |disk|
      requires Coherent(bufs[..n], disk, b)
      modifies this`disk
      ensures InStep() && disk == old(disk)[bufs[b].blockno := bufs[b].data]
    {
      disk := disk[bufs[b].blockno := bufs[b].data];
      WriteIsCoherent(bufs[..n], old(disk), b);
    }

    method MoveToFront(b: nat)
      requires Valid() && b < n
      modifies bufs, this`order, this`lost, this`now
      ensures Valid() && OnlyLinks(bufs[..], old(bufs[..])) && lost == old(lost)[b := old(now)] && now == old(now) + 1
    {
      hide Recent, Unique;
      ghost var was := bufs[..];
      ghost var i := PlaceOf(n, order, lost, now, b);
      MovedIsRecent(n, order, lost, now, i);
      Remove(b, i);
      ghost var mid := bufs[..];
      Insert(b);
      lost, now := lost[b := now], now + 1;
      OnlyLinksTwice(bufs[..], mid, was);
      UniqueLinks(was, bufs[..], n);
    }

    /** One reference less; a buffer that loses its last one becomes the most recent. */
    method ReleaseBuf(b: nat)
      requires Valid() && b < n && bufs[b].refcnt > 0
      modifies bufs, this`order, this`lost, this`now
      ensures Valid() && OnlyLinks(bufs[..], old(bufs[..])[b := old(bufs[b]).(refcnt := old(bufs[b]).refcnt - 1)])
      ensures if old(bufs[b]).refcnt == 1 then lost == old(lost)[b := old(now)] && now == old(now) + 1
              else lost == old(lost) && now == old(now)
    {
      ghost var was := bufs[..];
      bufs[b] := bufs[b].(refcnt := bufs[b].refcnt - 1);
      KeptByContents(was, bufs[..], n, order);
      if bufs[b].refcnt == 0 {
        MoveToFront(b);
      }
    }

    /** disk_read: the sectors as the disk has them, whatever is cached. */
    method DiskRead(pdrv: nat, buff: array<Byte>, sector: nat, count: nat) returns (res: DResult)
      requires InStep() && SomeUnreferenced(bufs[..], n)
      requires pdrv == DEV_MMC ==> sector + count <= |disk| && count * 512 <= buff.Length
      modifies bufs, buff, this`order, this`lost, this`now
      ensures InStep() && SameReferences(old(bufs[..]), bufs[..], n)
      ensures res == if pdrv == DEV_MMC then RES_OK else RES_PARERR
      ensures if res == RES_OK then ReadOut(disk, old(buff[..]), buff[..], sector, count) else buff[..] == old(buff[..])
    {
      if pdrv != DEV_MMC {
        return RES_PARERR;
      }
      ghost var was := bufs[..];
      var i := 0;
      while i < count
        invariant i <= count && InStep() && SameReferences(was, bufs[..], n)
        invariant ReadOut(disk, old(buff[..]), buff[..], sector, i)
      {
        ghost var bytes, mid := buff[..], bufs[..];
        SomeStays(was, mid, n);
        var b := AcquireBufAndRead(sector + i);
        ghost var held := bufs[..];
        forall k | 0 <= k < 512 {
          buff[i * 512 + k] := bufs[b].data[k];
        }
        OneMoreSector(disk, old(buff[..]), bytes, buff[..], sector, i);
        ReleaseBuf(b);
        AfterRelease(was, mid, held, bufs[..], n, disk, b);
        i := i + 1;
      }
      res := RES_OK;
    }

    /** disk_write: the sectors replaced, on the disk itself. */
    method DiskWrite(pdrv: nat, buff: array<Byte>, sector: nat, count: nat) returns (res: DResult)
      requires InStep() && SomeUnreferenced(bufs[..], n)
      requires pdrv == DEV_MMC ==> sector + count <= |disk| && count * 512 <= buff.Length
      modifies bufs, this`disk, this`order, this`lost, this`now
      ensures InStep() && SameReferences(old(bufs[..]), bufs[..], n)
      ensures res == if pdrv == DEV_MMC then RES_OK else RES_PARERR
      ensures if res == RES_OK then SectorsWritten(old(disk), disk, buff[..], sector, count) else disk == old(disk)
    {
      if pdrv != DEV_MMC {
        return RES_PARERR;
      }
      ghost var was := bufs[..];
      var i := 0;
      while i < count
        invariant i <= count && InStep() && SameReferences(was, bufs[..], n)
        invariant SectorsWritten(old(disk), disk, buff[..], sector, i)
      {
        ghost var mid := bufs[..];
        SomeStays(was, mid, n);
        var b := AcquireBufAndRead(sector + i);
        ghost var got := bufs[..];
        bufs[b] := bufs[b].(data := buff[i * 512..i * 512 + 512]);
        KeptByContents(got, bufs[..], n, order);
        CoherentBut(got, bufs[..], n, disk, b);
        WriteBufToDisk(b);
        ghost var held := bufs[..];
        ReleaseBuf(b);
        AfterRelease(was, mid, held, bufs[..], n, disk, b);
        i := i + 1;
      }
      res := RES_OK;
    }
  }
}
