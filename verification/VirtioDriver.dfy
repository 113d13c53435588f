/** The driver functions of virtio_disk.c, each proved to take the queue memory one step of
    the state machine further. */
module VirtioDriver {
  import opened VirtioRing
  import opened VirtioRuns

  const SECTORS_PER_BLOCK := 1

  class Disk {
    const free: array<bool>
    const desc: array<Desc>
    const ring: array<nat>
    const usedRing: array<nat>
    const info: array<Info>
    const ops: array<Op>
    var avail: nat
    var used: nat
    var seen: nat
    var reading: set<Buf>
    /** The first descriptor each sleeping caller keeps in its local `idx[0]`. */
    var waiting: map<Buf, nat>

    ghost predicate Valid()
      reads this
    {
      && free.Length == NUM && desc.Length == NUM && ring.Length == NUM
      && usedRing.Length == NUM && info.Length == NUM && ops.Length == NUM && ring != usedRing
    }

    ghost function View(): Mem
      reads this, free, desc, ring, usedRing, info, ops
    {
      Mem(free[..], desc[..], ring[..], avail, usedRing[..], used, seen, info[..], ops[..], reading, waiting)
    }

    constructor ()
      ensures Valid() && fresh(free) && fresh(desc) && fresh(ring) && fresh(usedRing) && fresh(info) && fresh(ops)
      ensures forall i :: 0 <= i < NUM ==> View().free[i] && View().desc[i] == ZERO
      ensures avail == used == seen == 0 && reading == {} && waiting == map[]
    {
      free, desc := new bool[NUM](_ => true), new Desc[NUM](_ => ZERO);
      ring, usedRing := new nat[NUM](_ => 0), new nat[NUM](_ => 0);
      info, ops := new Info[NUM](_ => Info(None, 0)), new Op[NUM](_ => Op(false, 0));
      avail, used, seen, reading, waiting := 0, 0, 0, {}, map[];
    }

    /** alloc_desc: the first free descriptor. */
    method AllocDesc() returns (i: int)
      requires Valid()
      modifies free
      ensures -1 <= i < NUM
      ensures i == -1 ==> free[..] == old(free[..]) && forall k :: 0 <= k < NUM ==> !free[k]
      ensures i >= 0 ==> old(free[i]) && free[..] == old(free[..])[i := false] && forall k :: 0 <= k < i ==> !free[k]
    {
      i := 0;
      while i < NUM
        invariant 0 <= i <= NUM
        invariant free[..] == old(free[..]) && forall k :: 0 <= k < i ==> !free[k]
      {
        if free[i] {
          free[i] := false;
          return;
        }
        i := i + 1;
      }
      i := -1;
    }

    /** free_desc; the preconditions are its two panics. */
    method FreeDesc(i: nat)
      requires Valid() && i < NUM && !free[i]
      modifies free, desc
      ensures free[..] == old(free[..])[i := true] && desc[..] == old(desc[..])[i := ZERO]
    {
      desc[i] := ZERO;
      free[i] := true;
    }

    /** free_chain */
    method FreeChain(h: nat)
      requires Valid() && Freeable(View(), h)
      modifies free, desc
      ensures var m := old(View()); var i1 := Link(m, h); var i2 := Link(m, i1);
        && free[..] == m.free[h := true][i1 := true][i2 := true]
        && desc[..] == m.desc[h := ZERO][i1 := ZERO][i2 := ZERO]
    {
      var i := h;
      ghost var m := View();
      ghost var i1 := Link(m, h);
      ghost var i2 := Link(m, i1);
      ghost var n := 3;
      while true
        invariant 1 <= n <= 3
        invariant n == 3 ==> i == h && free[..] == m.free && desc[..] == m.desc
        invariant n == 2 ==> i == i1 && free[..] == m.free[h := true] && desc[..] == m.desc[h := ZERO]
        invariant n == 1 ==> i == i2 && free[..] == m.free[h := true][i1 := true] && desc[..] == m.desc[h := ZERO][i1 := ZERO]
        decreases n
      {
        assert free[i] == free[..][i] && desc[i] == desc[..][i];
        var d := desc[i];
        FreeDesc(i);
        if !d.next {
          break;
        }
        i, n := d.link, n - 1;
      }
    }

    /** `ix[..n]` are the first free descriptors, taken one after the other. */
    static ghost predicate Grabbed(was: seq<bool>, now: seq<bool>, ix: seq<int>, n: nat) {
      && |was| == |now| == NUM && n <= 3 == |ix|
      && (forall k :: 0 <= k < n ==> 0 <= ix[k] < NUM && was[ix[k]])
      && (forall k, l :: 0 <= k < l < n ==> ix[k] != ix[l])
      && (forall i :: 0 <= i < NUM ==> now[i] == (was[i] && i !in ix[..n]))
    }

    /** alloc3_desc: three descriptors, or, when there are not as many, none. */
    method Alloc3Desc(idx: array<int>) returns (ok: bool)
      requires Valid() && idx.Length == 3 && forall i :: 0 <= i < NUM && free[i] ==> desc[i] == ZERO
      modifies free, desc, idx
      ensures desc[..] == old(desc[..])
      ensures ok ==> Grabbed(old(free[..]), free[..], idx[..], 3)
      ensures !ok ==> free[..] == old(free[..])
      ensures !ok ==> forall a, b, c :: 0 <= a < NUM && 0 <= b < NUM && 0 <= c < NUM && free[a] && free[b] && free[c] ==>
                        a == b || b == c || a == c
    {
      ghost var was := free[..];
      var i := 0;
      while i < 3
        invariant 0 <= i <= 3
        invariant Grabbed(was, free[..], idx[..], i) && desc[..] == old(desc[..])
      {
        ghost var now, ix := free[..], idx[..];
        var d := AllocDesc();
        idx[i] := d;
        if d < 0 {
          FewerThanThree(was, now, ix, i);
          PutBack(idx, i, was);
          return false;
        }
        GrabbedMore(was, now, ix, i, d);
        assert idx[..] == ix[i := d];
        i := i + 1;
      }
      ok := true;
    }

    static lemma GrabbedMore(was: seq<bool>, now: seq<bool>, ix: seq<int>, n: nat, d: nat)
      requires Grabbed(was, now, ix, n) && n < 3 && d < NUM && now[d]
      ensures Grabbed(was, now[d := false], ix[n := d], n + 1)
    {
      assert ix[n := d][..n + 1] == ix[..n] + [d];
    }

    static lemma FewerThanThree(was: seq<bool>, now: seq<bool>, ix: seq<int>, n: nat)
      requires Grabbed(was, now, ix, n) && n < 3 && forall k :: 0 <= k < NUM ==> !now[k]
      ensures forall a, b, c :: 0 <= a < NUM && 0 <= b < NUM && 0 <= c < NUM && was[a] && was[b] && was[c] ==>
                a == b || b == c || a == c
    {
      assert forall i :: 0 <= i < NUM && was[i] ==> i in ix[..n];
    }

    /** The descriptors alloc3_desc has taken so far become free again. */
    method PutBack(idx: array<int>, n: nat, ghost was: seq<bool>)
      requires Valid() && idx.Length == 3 && n < 3 && Grabbed(was, free[..], idx[..], n)
      requires forall i :: 0 <= i < NUM && was[i] ==> desc[i] == ZERO
      modifies free, desc
      ensures free[..] == was && desc[..] == old(desc[..])
    {
      var j := 0;
      while j < n
        invariant 0 <= j <= n
        invariant forall i :: 0 <= i < NUM ==> free[i] == (was[i] && i !in idx[j..n])
        invariant desc[..] == old(desc[..])
      {
        assert idx[j] in idx[j..n] && was[idx[j]];
        FreeDesc(idx[j]);
        j := j + 1;
      }
    }

    /** virtio_disk_rw up to the ring.  When it fails the caller sleeps and tries again. */
    method Begin(b: Buf, blockno: nat, write: bool) returns (ok: bool, h: nat, ghost i1: nat, ghost i2: nat)
      requires Valid() && forall i :: 0 <= i < NUM && free[i] ==> desc[i] == ZERO
      modifies this`reading, free, desc, info, ops
      ensures Valid()
      ensures ok ==> h < NUM && i1 < NUM && i2 < NUM && h != i1 && h != i2 && i1 != i2
      ensures ok ==> old(free[h]) && old(free[i1]) && old(free[i2])
      ensures ok ==> View() == PrepareMem(old(View()), b, Op(write, blockno * SECTORS_PER_BLOCK), h, i1, i2)
      ensures !ok ==> View() == old(View())
      ensures !ok ==> forall x, y, z :: 0 <= x < NUM && 0 <= y < NUM && 0 <= z < NUM && free[x] && free[y] && free[z] ==>
                        x == y || y == z || x == z
    {
      h, i1, i2 := 0, 0, 0;
      var sector := blockno * SECTORS_PER_BLOCK;
      var idx := new int[3];
      ok := Alloc3Desc(idx);
      if !ok {
        return;
      }
      h := idx[0];
      var second: nat, third: nat := idx[1], idx[2];
      i1, i2 := second, third;
      assert idx[..] == [h, i1, i2];
      assert free[..] == old(free[..])[h := false][i1 := false][i2 := false];
      Format(b, Op(write, sector), h, second, third);
    }

    /** The three descriptors of a request, and what the handler will look for. */
    method Format(b: Buf, op: Op, h: nat, second: nat, third: nat)
      requires Valid() && h < NUM && second < NUM && third < NUM
      modifies this`reading, desc, info, ops
      ensures Valid() && View() == PrepareMem(old(View()), b, op, h, second, third).(free := old(free[..]))
    {
      ops[h] := op;
      desc[h] := Desc(OpOf(h), true, false, second);
      desc[second] := Desc(DataOf(b), true, !op.write, third);
      info[h] := Info(Some(b), 0xfb);
      desc[third] := Desc(StatusOf(h), false, true, 0);
      reading := reading + {b};
    }

    /** disk.avail->ring[disk.avail->idx % NUM] = idx[0] */
    method PutSlot(h: nat)
      requires Valid()
      modifies ring
      ensures View() == SlotMem(old(View()), h)
    {
      ring[avail % NUM] := h;
    }

    /** disk.avail->idx += 1; the caller waits with `h` in its local variable. */
    method Publish(b: Buf, h: nat)
      requires Valid()
      modifies this`avail, this`waiting
      ensures Valid() && View() == PublishMem(old(View()), b, h)
    {
      avail := (avail + 1) % WRAP;
      waiting := waiting[b := h];
    }

    /** The end of virtio_disk_rw, once `b` is no longer marked as being read. */
    method Finish(b: Buf)
      requires Valid() && b in waiting && Freeable(View(), waiting[b])
      modifies this`waiting, free, desc, info
      ensures Valid() && View() == FinishMem(old(View()), b)
    {
      var h := waiting[b];
      info[h] := info[h].(b := None);
      FreeChain(h);
      waiting := waiting - {b};
    }

    /** One turn of the loop of virtio_disk_intr; unsound entries make it panic. */
    method See()
      requires Valid() && Sound(View())
      modifies this`seen, this`reading
      ensures Valid() && View() == IntrMem(old(View()))
    {
      var id := usedRing[seen % NUM];
      assert id == View().usedRing[seen % NUM] && info[id] == View().info[id];
      reading := reading - {info[id].b.value};
      seen := (seen + 1) % WRAP;
    }

    /** virtio_disk_intr while the device stands still. */
    method Intr()
      requires Valid() && seen < WRAP && used < WRAP && AllSound(View())
      modifies this`seen, this`reading
      ensures Valid() && View() == IntrAll(old(View())) && seen == used
    {
      hide Sound, AllSound, IntrAll, IntrMem;
      while seen != used
        invariant Valid() && seen < WRAP && AllSound(View()) && IntrAll(View()) == IntrAll(old(View()))
        decreases (used + WRAP - seen) % WRAP
      {
        OneMore(View());
        See();
      }
      AllSeen(View());
    }
  }

  /** Every used entry up to the device's index can be seen without a panic. */
  predicate AllSound(m: Mem)
    decreases (m.used + WRAP - m.seen) % WRAP
  {
    m.seen >= WRAP || m.used >= WRAP || m.seen == m.used || (Sound(m) && AllSound(IntrMem(m)))
  }

  function IntrAll(m: Mem): Mem
    requires AllSound(m) && m.seen < WRAP && m.used < WRAP
    decreases (m.used + WRAP - m.seen) % WRAP
  {
    if m.seen == m.used then m else IntrAll(IntrMem(m))
  }

  lemma OneMore(m: Mem)
    requires AllSound(m) && m.seen < WRAP && m.used < WRAP && m.seen != m.used
    ensures Sound(m) && AllSound(IntrMem(m)) && IntrMem(m).seen < WRAP && IntrMem(m).used == m.used
    ensures IntrAll(IntrMem(m)) == IntrAll(m)
    ensures (m.used + WRAP - IntrMem(m).seen) % WRAP < (m.used + WRAP - m.seen) % WRAP
  {
    hide Sound;
    NextSeen(m.used, m.seen);
  }

  lemma NextSeen(used: nat, seen: nat)
    requires used < WRAP && seen < WRAP && used != seen
    ensures (used + WRAP - (seen + 1) % WRAP) % WRAP == (used + WRAP - seen) % WRAP - 1
  {
    assert (seen + 1) % WRAP == if seen + 1 == WRAP then 0 else seen + 1;
  }

  lemma AllSeen(m: Mem)
    requires AllSound(m) && m.seen < WRAP && m.used < WRAP && m.seen == m.used
    ensures IntrAll(m) == m
  {
  }

  /** Worlds of which each comes from the one before by the handler seeing one used entry. */
  ghost predicate Sees(ws: seq<World>) {
    ws != [] && forall i :: 0 <= i < |ws| - 1 ==> Enabled(ws[i], Intr) && Safe(ws[i], Intr) && ws[i + 1] == Next(ws[i], Intr)
  }

  /** In a sound world the handler never panics, and its loop is a run of such steps, one for
      each entry returned and not yet seen. */
  lemma {:induction false} IntrIsSafe(w: World) returns (ws: seq<World>)
    requires Inv(w) && w.pc.Open?
    ensures w.m.seen < WRAP && w.m.used < WRAP && AllSound(w.m)
    ensures Sees(ws) && ws[0] == w && |ws| - 1 == |w.h.done| - w.h.seen
    ensures var w' := ws[|ws| - 1]; Inv(w') && w'.pc.Open? && w'.m == IntrAll(w.m) && w'.dev == w.dev && w'.h.seen == |w'.h.done|
    decreases |w.h.done| - w.h.seen
  {
    hide Owned, Outstanding, Unseen, Requests, Callers, Chained, InPhase, Sound;
    Parts(w);
    Indices(w);
    ws := [w];
    if w.m.seen != w.m.used {
      SafeStep(w, Intr);
      var w' := Next(w, Intr);
      AfterIntr(w, w');
      var rest := IntrIsSafe(w');
      ws := [w] + rest;
    }
  }

  /** So a run of the queue goes on with that loop. */
  lemma IntrInRun(ws: seq<World>, ss: seq<Step>) returns (more: seq<World>)
    requires Run(ws, ss) && ws[|ss|].pc.Open?
    ensures Run(ws + more, ss + seq(|more|, _ => Intr))
    ensures var w, w' := ws[|ss|], (ws + more)[|ss| + |more|];
      w.m.seen < WRAP && w.m.used < WRAP && AllSound(w.m) && w'.m == IntrAll(w.m) && |more| == |w.h.done| - w.h.seen
  {
    hide Inv, Enabled, Safe, Next, Init, IntrAll, AllSound;
    RunIsSafe(ws, ss, |ss|);
    var all := IntrIsSafe(ws[|ss|]);
    more := all[1..];
    var ws', ss' := ws + more, ss + seq(|more|, _ => Intr);
    forall i | 0 <= i < |ss'|
      ensures Moves(ws'[i], ss'[i], ws'[i + 1])
    {
      if i < |ss| {
        assert Moves(ws[i], ss[i], ws[i + 1]);
      } else {
        assert ws'[i] == all[i - |ss|] && ws'[i + 1] == all[i + 1 - |ss|];
      }
    }
  }
}
