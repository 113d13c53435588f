/** The disk queue shared by the virtio driver and the device (virtio 1.1, section 2.6 for
    the split queue, section 5.2 for block requests) as a state machine: the driver's
    critical sections and the device's moves interleave in any order. */
module VirtioRing {
  import opened Arith
  import opened Basics

  const NUM := 8
  const WRAP := 0x1_0000

  type Buf = nat
  type Block = seq<int>

  datatype Option<T> = None | Some(value: T)

  datatype Addr = Nowhere | OpOf(i: nat) | DataOf(b: Buf) | StatusOf(i: nat)

  datatype Desc = Desc(addr: Addr, next: bool, write: bool, link: nat)

  const ZERO := Desc(Nowhere, false, false, 0)

  datatype Op = Op(write: bool, sector: nat)

  datatype Info = Info(b: Option<Buf>, status: nat)

  /** What the driver keeps in memory: its own book-keeping and the queue, of which the
      device writes `usedRing`, `used` and the status bytes. */
  datatype Mem = Mem(
    free: seq<bool>, desc: seq<Desc>, ring: seq<nat>, avail: nat, usedRing: seq<nat>, used: nat,
    seen: nat, info: seq<Info>, ops: seq<Op>, reading: set<Buf>, waiting: map<Buf, nat>)

  /** One executed request. */
  datatype Entry = Entry(b: Buf, op: Op, block: Block)

  /** The device: how far it read the available ring, the chains it took, those it has
      executed but not returned, and the blocks on disk and in the buffers. */
  datatype Dev = Dev(taken: nat, claimed: set<nat>, executed: set<nat>,
                     store: imap<nat, Block>, data: imap<Buf, Block>, log: seq<Entry>)

  /** Who holds vdisk_lock in the middle of virtio_disk_rw. */
  datatype Pc = Open | Formatted(head: nat) | Slotted(head: nat)

  datatype Phase = Preparing | Posted(k: nat) | Claimed | Executed(at: nat) | Returned(k: nat, at: nat) | Finished(at: nat)
  {
    predicate Ran() { Executed? || Returned? || Finished? }
  }

  /** A request in flight, by its first descriptor: the other two, and its history. */
  datatype Req = Req(i1: nat, i2: nat, b: Buf, op: Op, block: Block, born: nat, phase: Phase)

  /** What the protocol went through: every head ever posted and ever returned, how many
      of each the other side has consumed, and the requests in flight. */
  datatype History = History(posted: seq<nat>, taken: nat, done: seq<nat>, seen: nat, reqs: map<nat, Req>)

  datatype World = World(m: Mem, dev: Dev, pc: Pc, h: History)

  // ----- the invariant --------------------------------------------------------------------

  function Triple(h: nat, r: Req): set<nat> { {h, r.i1, r.i2} }

  predicate Shaped(m: Mem) {
    && |m.free| == NUM && |m.desc| == NUM && |m.ring| == NUM && |m.usedRing| == NUM && |m.info| == NUM && |m.ops| == NUM
  }

  /** The requests own disjoint triples of descriptors, and these are the ones not free. */
  ghost predicate Owned(m: Mem, reqs: map<nat, Req>) {
    && Shaped(m) && (forall h :: h in reqs ==> Proper(h, reqs[h])) && TriplesApart(reqs) && FreeAre(m.free, reqs)
    && (forall i :: 0 <= i < NUM && m.free[i] ==> m.desc[i] == ZERO)
  }

  predicate Proper(h: nat, r: Req) {
    h < NUM && r.i1 < NUM && r.i2 < NUM && h != r.i1 && h != r.i2 && r.i1 != r.i2
  }

  ghost predicate TriplesApart(reqs: map<nat, Req>) {
    forall g, h :: g in reqs && h in reqs && g != h ==> Triple(g, reqs[g]) !! Triple(h, reqs[h])
  }

  ghost predicate FreeAre(free: seq<bool>, reqs: map<nat, Req>) {
    |free| == NUM && forall i :: 0 <= i < NUM ==> (free[i] <==> Unowned(reqs, i))
  }

  ghost predicate Unowned(reqs: map<nat, Req>, i: nat) { forall h :: h in reqs ==> i !in Triple(h, reqs[h]) }

  /** The chain of a request says what was asked. */
  ghost predicate Chained(m: Mem, h: nat, r: Req) {
    && Shaped(m)
    && h < NUM && r.i1 < NUM && r.i2 < NUM
    && m.desc[h] == Desc(OpOf(h), true, false, r.i1)
    && m.desc[r.i1] == Desc(DataOf(r.b), true, !r.op.write, r.i2)
    && m.desc[r.i2] == Desc(StatusOf(h), false, true, 0)
    && m.ops[h] == r.op
    && m.info[h] == Info(Some(r.b), if r.phase.Ran() then 0 else 0xfb)
  }

  ghost predicate Whole(dev: Dev) { (forall s: nat :: s in dev.store) && forall b: Buf :: b in dev.data }

  /** What a phase means for the device, the log and the caller. */
  ghost predicate InPhase(w: World, h: nat, r: Req) {
    && Whole(w.dev)
    && r.born <= |w.dev.log|
    && (r.phase.Ran() ==> r.born <= r.phase.at < |w.dev.log| && w.dev.log[r.phase.at] == Entry(r.b, r.op, w.dev.data[r.b]))
    && (forall k :: r.born <= k < |w.dev.log| && w.dev.log[k].b == r.b ==> r.phase.Ran() && k == r.phase.at)
    && (r.op.write ==> w.dev.data[r.b] == r.block)
    && (r.phase.Preparing? <==> w.pc == Formatted(h) || w.pc == Slotted(h))
    && (r.phase.Posted? ==> w.h.taken <= r.phase.k < |w.h.posted| && w.h.posted[r.phase.k] == h)
    && (r.phase.Claimed? <==> h in w.dev.claimed)
    && (r.phase.Executed? <==> h in w.dev.executed)
    && (r.phase.Returned? ==> w.h.seen <= r.phase.k < |w.h.done| && w.h.done[r.phase.k] == h)
    && (r.b in w.m.reading <==> !r.phase.Finished?)
    && (!r.phase.Preparing? ==> r.b in w.m.waiting && w.m.waiting[r.b] == h)
    && (r.phase.Preparing? ==> r.b !in w.m.waiting)
  }

  /** The 16-bit indices against the unbounded counters. */
  ghost predicate Indexed(w: World) {
    && w.h.seen <= |w.h.done| && w.h.taken <= |w.h.posted|
    && w.m.avail == |w.h.posted| % WRAP && w.dev.taken == w.h.taken % WRAP
    && w.m.used == |w.h.done| % WRAP && w.m.seen == w.h.seen % WRAP
  }

  /** The available ring shows what is posted and not yet taken. */
  ghost predicate Outstanding(w: World) {
    && |w.m.ring| == NUM
    && (forall k :: w.h.taken <= k < |w.h.posted| ==>
          w.h.posted[k] in w.h.reqs && w.h.reqs[w.h.posted[k]].phase == Posted(k) && w.m.ring[k % NUM] == w.h.posted[k])
    && (w.pc.Slotted? ==> w.m.ring[|w.h.posted| % NUM] == w.pc.head)
  }

  /** The used ring shows what is returned and not yet seen. */
  ghost predicate Unseen(w: World) {
    && |w.m.usedRing| == NUM
    && forall k :: w.h.seen <= k < |w.h.done| ==>
         w.h.done[k] in w.h.reqs && w.h.reqs[w.h.done[k]].phase.Returned? && w.h.reqs[w.h.done[k]].phase.k == k
         && w.m.usedRing[k % NUM] == w.h.done[k]
  }

  ghost predicate Rings(w: World) { Indexed(w) && Outstanding(w) && Unseen(w) }

  ghost predicate Requests(w: World) {
    forall h :: h in w.h.reqs ==> Chained(w.m, h, w.h.reqs[h]) && InPhase(w, h, w.h.reqs[h])
  }

  /** Each buffer has one request, each caller one chain, and the device no chain but theirs. */
  ghost predicate Callers(w: World) {
    && (forall g, h :: g in w.h.reqs && h in w.h.reqs && w.h.reqs[g].b == w.h.reqs[h].b ==> g == h)
    && (!w.pc.Open? ==> w.pc.head in w.h.reqs)
    && w.dev.claimed <= w.h.reqs.Keys && w.dev.executed <= w.h.reqs.Keys
    && (forall b :: b in w.m.waiting ==> w.m.waiting[b] in w.h.reqs && w.h.reqs[w.m.waiting[b]].b == b)
    && (forall b :: b in w.m.reading ==> exists h :: h in w.h.reqs && w.h.reqs[h].b == b)
  }

  ghost predicate Inv(w: World) {
    Shaped(w.m) && Whole(w.dev) && Owned(w.m, w.h.reqs) && Rings(w) && Requests(w) && Callers(w)
  }

  // ----- the steps ------------------------------------------------------------------------

  /** virtio_disk_rw up to the ring: three free descriptors are taken and formatted. */
  function PrepareMem(m: Mem, b: Buf, op: Op, h: nat, i1: nat, i2: nat): Mem
    requires Shaped(m) && h < NUM && i1 < NUM && i2 < NUM
  {
    m.(free := m.free[h := false][i1 := false][i2 := false],
       desc := m.desc[h := Desc(OpOf(h), true, false, i1)]
               [i1 := Desc(DataOf(b), true, !op.write, i2)][i2 := Desc(StatusOf(h), false, true, 0)],
       ops := m.ops[h := op], info := m.info[h := Info(Some(b), 0xfb)], reading := m.reading + {b})
  }

  function SlotMem(m: Mem, h: nat): Mem
    requires Shaped(m)
  {
    m.(ring := m.ring[m.avail % NUM := h])
  }

  function PublishMem(m: Mem, b: Buf, h: nat): Mem {
    m.(avail := (m.avail + 1) % WRAP, waiting := m.waiting[b := h])
  }

  /** The interrupt handler finds the next used entry sound; otherwise it panics. */
  predicate Sound(m: Mem) {
    && |m.usedRing| == NUM && |m.info| == NUM
    && var id := m.usedRing[m.seen % NUM];
       id < NUM && m.info[id].status == 0 && m.info[id].b.Some?
  }

  function IntrMem(m: Mem): Mem
    requires Sound(m)
  {
    m.(reading := m.reading - {m.info[m.usedRing[m.seen % NUM]].b.value}, seen := (m.seen + 1) % WRAP)
  }

  /** The descriptor after `i` in its chain. */
  function Link(m: Mem, i: nat): nat { if i < |m.desc| then m.desc[i].link else NUM }

  /** free_chain meets only descriptors in use; otherwise free_desc panics. */
  predicate Freeable(m: Mem, h: nat) {
    var i1 := Link(m, h);
    var i2 := Link(m, i1);
    && Shaped(m) && h < NUM && i1 < NUM && i2 < NUM && i1 != h && i2 != h && i2 != i1
    && !m.free[h] && !m.free[i1] && !m.free[i2]
    && m.desc[h].next && m.desc[i1].next && !m.desc[i2].next
  }

  function FinishMem(m: Mem, b: Buf): Mem
    requires b in m.waiting && Freeable(m, m.waiting[b])
  {
    var h := m.waiting[b];
    var i1 := Link(m, h);
    var i2 := Link(m, i1);
    m.(free := m.free[h := true][i1 := true][i2 := true],
       desc := m.desc[h := ZERO][i1 := ZERO][i2 := ZERO],
       info := m.info[h := m.info[h].(b := None)], waiting := m.waiting - {b})
  }

  /** A chain the device can execute. */
  predicate Readable(m: Mem, h: nat) {
    var i1 := Link(m, h);
    var i2 := Link(m, i1);
    && Shaped(m) && h < NUM && i1 < NUM && i2 < NUM
    && m.desc[h].next && m.desc[h].addr.OpOf? && m.desc[h].addr.i < NUM
    && m.desc[i1].next && m.desc[i1].addr.DataOf? && m.desc[i1].write == !m.ops[m.desc[h].addr.i].write
    && !m.desc[i2].next && m.desc[i2].addr.StatusOf? && m.desc[i2].addr.i < NUM && m.desc[i2].write
  }

  function OpAt(m: Mem, h: nat): Op
    requires Readable(m, h)
  {
    m.ops[m.desc[h].addr.i]
  }

  function BufAt(m: Mem, h: nat): Buf
    requires Readable(m, h)
  {
    m.desc[Link(m, h)].addr.b
  }

  function StatusAt(m: Mem, h: nat): nat
    requires Readable(m, h)
  {
    m.desc[Link(m, Link(m, h))].addr.i
  }

  /** The device carries out a chain: all it knows is in the descriptors. */
  ghost function ExecuteDev(dev: Dev, m: Mem, h: nat): Dev
    requires Readable(m, h) && Whole(dev)
  {
    var op, b := OpAt(m, h), BufAt(m, h);
    var block := if op.write then dev.data[b] else dev.store[op.sector];
    Dev(dev.taken, dev.claimed - {h}, dev.executed + {h},
        if op.write then dev.store[op.sector := block] else dev.store,
        if op.write then dev.data else dev.data[b := block],
        dev.log + [Entry(b, op, block)])
  }

  datatype Step =
    | Prepare(b: Buf, op: Op, h: nat, i1: nat, i2: nat) | PutSlot | Publish | Intr | Finish(b: Buf)
    | Touch(b: Buf, block: Block)
    | Take | Execute(h: nat) | Return(h: nat)

  /** Steps of the program and of the device.  The guards are what the code tests, or what
      its callers hold: a buffer is submitted and filled only by the holder of its mutex. */
  ghost predicate Enabled(w: World, s: Step) {
    && Shaped(w.m) && Whole(w.dev)
    && match s
       case Prepare(b, op, h, i1, i2) =>
         && w.pc.Open? && b !in w.m.reading && b !in w.m.waiting
         && h < NUM && i1 < NUM && i2 < NUM && w.m.free[h] && w.m.free[i1] && w.m.free[i2]
         && h != i1 && h != i2 && i1 != i2
       case PutSlot => w.pc.Formatted?
       case Publish => w.pc.Slotted? && w.pc.head < NUM && w.m.info[w.pc.head].b.Some?
       case Intr => w.pc.Open? && w.m.seen != w.m.used
       case Finish(b) => w.pc.Open? && b in w.m.waiting && b !in w.m.reading
       case Touch(b, _) => b !in w.m.reading && b !in w.m.waiting
       case Take => w.dev.taken != w.m.avail
       case Execute(h) => h in w.dev.claimed
       case Return(h) => h in w.dev.executed
  }

  /** No panic, and no chain the device cannot execute. */
  ghost predicate Safe(w: World, s: Step)
    requires Enabled(w, s)
  {
    match s
    case Intr => Sound(w.m)
    case Finish(b) => Freeable(w.m, w.m.waiting[b])
    case Execute(h) => Readable(w.m, h)
    case _ => true
  }

  /** The slot of the available ring the device looks at. */
  function NextTaken(w: World): nat { if |w.m.ring| == NUM then w.m.ring[w.dev.taken % NUM] else 0 }

  function Rephase(reqs: map<nat, Req>, h: nat, p: Phase): map<nat, Req> {
    if h in reqs then reqs[h := reqs[h].(phase := p)] else reqs
  }

  ghost function Next(w: World, s: Step): World
    requires Enabled(w, s) && Safe(w, s)
  {
    match s
    case Prepare(b, op, h, i1, i2) =>
      w.(m := PrepareMem(w.m, b, op, h, i1, i2), pc := Formatted(h),
         h := w.h.(reqs := w.h.reqs[h := Req(i1, i2, b, op, w.dev.data[b], |w.dev.log|, Preparing)]))
    case PutSlot => w.(m := SlotMem(w.m, w.pc.head), pc := Slotted(w.pc.head))
    case Publish =>
      w.(m := PublishMem(w.m, w.m.info[w.pc.head].b.value, w.pc.head), pc := Open,
         h := w.h.(posted := w.h.posted + [w.pc.head], reqs := Rephase(w.h.reqs, w.pc.head, Posted(|w.h.posted|))))
    case Intr =>
      var id := w.m.usedRing[w.m.seen % NUM];
      w.(m := IntrMem(w.m),
         h := w.h.(seen := w.h.seen + 1,
                   reqs := if id in w.h.reqs && w.h.reqs[id].phase.Returned?
                           then Rephase(w.h.reqs, id, Finished(w.h.reqs[id].phase.at)) else w.h.reqs))
    case Finish(b) => w.(m := FinishMem(w.m, b), h := w.h.(reqs := w.h.reqs - {w.m.waiting[b]}))
    case Touch(b, block) => w.(dev := w.dev.(data := w.dev.data[b := block]))
    case Take =>
      var id := NextTaken(w);
      w.(dev := w.dev.(taken := (w.dev.taken + 1) % WRAP, claimed := w.dev.claimed + {id}),
         h := w.h.(taken := w.h.taken + 1, reqs := Rephase(w.h.reqs, id, Claimed)))
    case Execute(h) =>
      w.(dev := ExecuteDev(w.dev, w.m, h),
         m := w.m.(info := w.m.info[StatusAt(w.m, h) := w.m.info[StatusAt(w.m, h)].(status := 0)]),
         h := w.h.(reqs := Rephase(w.h.reqs, h, Executed(|w.dev.log|))))
    case Return(h) =>
      w.(dev := w.dev.(executed := w.dev.executed - {h}),
         m := w.m.(usedRing := w.m.usedRing[w.m.used % NUM := h], used := (w.m.used + 1) % WRAP),
         h := w.h.(done := w.h.done + [h],
                   reqs := if h in w.h.reqs && w.h.reqs[h].phase.Executed?
                           then Rephase(w.h.reqs, h, Returned(|w.h.done|, w.h.reqs[h].phase.at)) else w.h.reqs))
  }

  // ----- consequences of the invariant ----------------------------------------------------

  /** At most two requests are in flight: eight descriptors, three for each. */
  lemma AtMostTwo(m: Mem, reqs: map<nat, Req>, g: nat, h: nat, k: nat)
    requires Owned(m, reqs) && g in reqs && h in reqs && k in reqs
    ensures g == h || h == k || g == k
  {
    if g != h && h != k && g != k {
      hide Owned;
      var a, b, c := Triple(g, reqs[g]), Triple(h, reqs[h]), Triple(k, reqs[k]);
      DisjointTriples(m, reqs, g, h);
      DisjointTriples(m, reqs, h, k);
      DisjointTriples(m, reqs, g, k);
      assert |a + b| == 6 && (a + b) !! c && |a + b + c| == 9;
      NumbersBelow(a + b + c, NUM);
    }
  }

  lemma DisjointTriples(m: Mem, reqs: map<nat, Req>, g: nat, h: nat)
    requires Owned(m, reqs) && g in reqs && h in reqs && g != h
    ensures |Triple(g, reqs[g])| == |Triple(h, reqs[h])| == 3 && Triple(g, reqs[g]) !! Triple(h, reqs[h])
    ensures forall i :: i in Triple(g, reqs[g]) + Triple(h, reqs[h]) ==> i < NUM
  {
  }

  /** The other side is never more than two entries behind. */
  lemma WindowSmall(w: World)
    requires Inv(w)
    ensures |w.h.posted| - w.h.taken <= 2 && |w.h.done| - w.h.seen <= 2
  {
    var t, s := w.h.taken, w.h.seen;
    if |w.h.posted| - t > 2 {
      AtMostTwo(w.m, w.h.reqs, w.h.posted[t], w.h.posted[t + 1], w.h.posted[t + 2]);
    }
    if |w.h.done| - s > 2 {
      AtMostTwo(w.m, w.h.reqs, w.h.done[s], w.h.done[s + 1], w.h.done[s + 2]);
    }
  }

  /** What the invariant says of one request. */
  lemma OfRequest(w: World, h: nat)
    requires Inv(w) && h in w.h.reqs
    ensures var r := w.h.reqs[h];
      && h < NUM && r.i1 < NUM && r.i2 < NUM && h != r.i1 && h != r.i2 && r.i1 != r.i2
      && !w.m.free[h] && !w.m.free[r.i1] && !w.m.free[r.i2]
      && Chained(w.m, h, r) && InPhase(w, h, r)
  {
    var r := w.h.reqs[h];
    assert h in Triple(h, r) && r.i1 in Triple(h, r) && r.i2 in Triple(h, r);
  }

  /** The 16-bit tests of the code are tests on the counters. */
  lemma Indices(w: World)
    requires Inv(w)
    ensures w.m.seen == w.m.used <==> w.h.seen == |w.h.done|
    ensures w.dev.taken == w.m.avail <==> w.h.taken == |w.h.posted|
    ensures w.m.seen % NUM == w.h.seen % NUM && w.m.used % NUM == |w.h.done| % NUM
    ensures w.dev.taken % NUM == w.h.taken % NUM && w.m.avail % NUM == |w.h.posted| % NUM
    ensures (w.m.seen + 1) % WRAP == (w.h.seen + 1) % WRAP && (w.m.used + 1) % WRAP == (|w.h.done| + 1) % WRAP
    ensures (w.dev.taken + 1) % WRAP == (w.h.taken + 1) % WRAP && (w.m.avail + 1) % WRAP == (|w.h.posted| + 1) % WRAP
  {
    WindowSmall(w);
    hide Owned, Chained, InPhase;
    Index(w.h.seen, |w.h.done|);
    Index(w.h.taken, |w.h.posted|);
  }

  lemma Index(a: nat, b: nat)
    requires a <= b <= a + 2
    ensures a % WRAP == b % WRAP <==> a == b
    ensures a % WRAP % NUM == a % NUM && b % WRAP % NUM == b % NUM
    ensures (a % WRAP + 1) % WRAP == (a + 1) % WRAP && (b % WRAP + 1) % WRAP == (b + 1) % WRAP
  {
    Wrapped(a);
    Wrapped(b);
  }

  lemma Wrapped(a: nat)
    ensures a % WRAP % NUM == a % NUM && (a % WRAP + 1) % WRAP == (a + 1) % WRAP
  {
    var q, r := a / WRAP, a % WRAP;
    assert a == q * WRAP + r;
    Multiple(q, r);
  }

  lemma Multiple(q: nat, r: nat)
    requires r < WRAP
    ensures (q * WRAP + r) % NUM == r % NUM && (q * WRAP + r + 1) % WRAP == (r + 1) % WRAP
  {
    DivModUnique(q * WRAP + r, NUM, q * 8192 + r / NUM, r % NUM);
    if r + 1 < WRAP {
      DivModUnique(q * WRAP + r + 1, WRAP, q, r + 1);
    } else {
      DivModUnique(q * WRAP + r + 1, WRAP, q + 1, 0);
    }
  }

  lemma SafeStep(w: World, s: Step)
    requires Inv(w) && Enabled(w, s)
    ensures Safe(w, s)
  {
    match s
    case Intr => SafeIntr(w);
    case Finish(b) => SafeFinish(w, b);
    case Execute(h) => SafeExecute(w, h);
    case _ =>
  }

  lemma SafeIntr(w: World)
    requires Inv(w) && Enabled(w, Intr)
    ensures Safe(w, Intr)
  {
    Indices(w);
    assert w.h.seen < |w.h.done|;
    OfRequest(w, w.h.done[w.h.seen]);
  }

  lemma SafeFinish(w: World, b: Buf)
    requires Inv(w) && Enabled(w, Finish(b))
    ensures Safe(w, Finish(b))
  {
    OfRequest(w, w.m.waiting[b]);
  }

  lemma SafeExecute(w: World, h: nat)
    requires Inv(w) && Enabled(w, Execute(h))
    ensures Safe(w, Execute(h))
  {
    OfRequest(w, h);
  }

  // ----- every step keeps the invariant -----------------------------------------------------

  /** The descriptors are left alone and no triple changes. */
  lemma SameOwners(m: Mem, m': Mem, reqs: map<nat, Req>, reqs': map<nat, Req>)
    requires Shaped(m') && Owned(m, reqs) && m'.free == m.free && m'.desc == m.desc
    requires reqs'.Keys == reqs.Keys
    requires forall h :: h in reqs ==> reqs'[h].i1 == reqs[h].i1 && reqs'[h].i2 == reqs[h].i2
    ensures Owned(m', reqs')
  {
    assert forall h :: h in reqs ==> Triple(h, reqs'[h]) == Triple(h, reqs[h]);
  }

  /** One request, before a step and after. */
  ghost predicate Fine(w: World, h: nat) {
    h in w.h.reqs && Chained(w.m, h, w.h.reqs[h]) && InPhase(w, h, w.h.reqs[h])
  }

  lemma IsFine(w: World, h: nat)
    requires Inv(w) && h in w.h.reqs
    ensures Fine(w, h)
  {
  }

  lemma AllFine(w: World)
    requires forall h :: h in w.h.reqs ==> Fine(w, h)
    ensures Requests(w)
  {
  }

  /** The requests, their buffers and their callers are what they were. */
  lemma SameCallers(w: World, w': World)
    requires Callers(w) && w'.m.waiting == w.m.waiting && w'.m.reading == w.m.reading && w'.pc == w.pc
    requires w'.h.reqs.Keys == w.h.reqs.Keys && forall h :: h in w.h.reqs ==> w'.h.reqs[h].b == w.h.reqs[h].b
    requires w'.dev.claimed + w'.dev.executed <= w.dev.claimed + w.dev.executed + w.h.reqs.Keys
    ensures Callers(w')
  {
    forall b | b in w'.m.reading ensures exists h :: h in w'.h.reqs && w'.h.reqs[h].b == b {
      var h :| h in w.h.reqs && w.h.reqs[h].b == b;
      assert h in w'.h.reqs && w'.h.reqs[h].b == b;
    }
  }

  /** Two requests share no descriptor and no buffer. */
  ghost predicate Apart(w: World, g: nat, h: nat) {
    && g in w.h.reqs && h in w.h.reqs
    && var r, q := w.h.reqs[g], w.h.reqs[h];
       r.b != q.b && g !in {h, q.i1, q.i2} && r.i1 !in {h, q.i1, q.i2} && r.i2 !in {h, q.i1, q.i2}
  }

  lemma AreApart(w: World, g: nat, h: nat)
    requires Inv(w) && g in w.h.reqs && h in w.h.reqs && g != h
    ensures Apart(w, g, h)
  {
    var r, q := w.h.reqs[g], w.h.reqs[h];
    assert Triple(g, r) !! Triple(h, q);
    assert g in Triple(g, r) && r.i1 in Triple(g, r) && r.i2 in Triple(g, r);
    assert h in Triple(h, q) && q.i1 in Triple(h, q) && q.i2 in Triple(h, q);
  }

  /** Only the request `id` changes. */
  ghost predicate OnlyRequest(w: World, w': World, id: nat) {
    forall h :: h in w.h.reqs && h != id ==> h in w'.h.reqs && w'.h.reqs[h] == w.h.reqs[h]
  }

  lemma SameOutstanding(w: World, w': World, id: nat)
    requires Outstanding(w) && OnlyRequest(w, w', id) && (id in w.h.reqs ==> !w.h.reqs[id].phase.Posted?)
    requires w'.h.posted == w.h.posted && w'.h.taken == w.h.taken && w'.m.ring == w.m.ring
    requires w'.pc.Slotted? ==> w'.pc == w.pc
    ensures Outstanding(w')
  {
  }

  lemma SameUnseen(w: World, w': World, id: nat)
    requires Unseen(w) && OnlyRequest(w, w', id) && (id in w.h.reqs ==> !w.h.reqs[id].phase.Returned?)
    requires w'.h.done == w.h.done && w'.h.seen == w.h.seen && w'.m.usedRing == w.m.usedRing
    ensures Unseen(w')
  {
  }

  /** The rings and the requests of a sound world, one at a time. */
  lemma Parts(w: World)
    requires Inv(w)
    ensures Shaped(w.m) && Whole(w.dev) && Owned(w.m, w.h.reqs) && Indexed(w) && Outstanding(w) && Unseen(w) && Callers(w)
    ensures !w.pc.Open? ==> w.pc.head in w.h.reqs
  {
  }

  /** Entries not yet consumed sit in other slots than the next one. */
  lemma OtherSlot(k: nat, n: nat)
    requires k < n <= k + 2
    ensures k % NUM != n % NUM
  {
  }

  // ----- the device takes a chain

  /** What the device takes next is posted there. */
  ghost predicate Taking(w: World, id: nat) {
    && Shaped(w.m)
    && w.h.taken < |w.h.posted| && w.h.posted[w.h.taken] == id && NextTaken(w) == id
    && id in w.h.reqs && w.h.reqs[id].phase == Posted(w.h.taken)
  }

  lemma TakeRings(w: World, w': World, id: nat)
    requires Enabled(w, Take) && w' == Next(w, Take) && id == NextTaken(w)
    requires Inv(w)
    ensures Taking(w, id) && Rings(w')
  {
    hide Inv, Owned, Requests, Callers, Unseen, Chained, InPhase;
    Parts(w);
    Indices(w);
    assert Taking(w, id) && Outstanding(w');
    SameUnseen(w, w', id);
  }

  lemma TakeFine(w: World, h: nat, id: nat)
    requires Enabled(w, Take) && Taking(w, id) && Fine(w, h) && Fine(w, id)
    ensures Fine(Next(w, Take), h)
  {
  }

  lemma AfterTake(w: World, w': World)
    requires Enabled(w, Take) && w' == Next(w, Take)
    requires Inv(w)
    ensures Inv(w')
  {
    hide Owned, Indexed, Outstanding, Unseen, Requests, Callers, Chained, InPhase, Fine;
    var id := NextTaken(w);
    TakeRings(w, w', id);
    SameOwners(w.m, w'.m, w.h.reqs, w'.h.reqs);
    IsFine(w, id);
    forall h | h in w'.h.reqs ensures Fine(w', h) {
      IsFine(w, h);
      TakeFine(w, h, id);
    }
    AllFine(w');
    SameCallers(w, w');
  }

  // ----- the driver fills a slot

  lemma HeadsSmall(m: Mem, reqs: map<nat, Req>)
    requires Owned(m, reqs)
    ensures NUM !in reqs
  {
  }

  lemma SlotRings(w: World, w': World)
    requires Enabled(w, PutSlot) && w' == Next(w, PutSlot)
    requires Inv(w)
    ensures Rings(w')
  {
    hide Inv, Owned, Requests, Callers, Unseen, Chained, InPhase;
    Parts(w);
    Indices(w);
    WindowSmall(w);
    var n := |w.h.posted|;
    assert w'.m == w.m.(ring := w.m.ring[n % NUM := w.pc.head]) && w'.h == w.h && w'.dev == w.dev;
    forall k | w.h.taken <= k < n ensures w'.m.ring[k % NUM] == w.h.posted[k] {
      OtherSlot(k, n);
    }
    assert Outstanding(w');
    HeadsSmall(w.m, w.h.reqs);
    SameUnseen(w, w', NUM);
  }

  lemma SlotFine(w: World, h: nat)
    requires Enabled(w, PutSlot) && Fine(w, h)
    ensures Fine(Next(w, PutSlot), h)
  {
  }

  lemma AfterPutSlot(w: World, w': World)
    requires Enabled(w, PutSlot) && w' == Next(w, PutSlot)
    requires Inv(w)
    ensures Inv(w')
  {
    hide Owned, Indexed, Outstanding, Unseen, Requests, Chained, InPhase, Fine;
    SlotRings(w, w');
    SameOwners(w.m, w'.m, w.h.reqs, w'.h.reqs);
    forall h | h in w'.h.reqs ensures Fine(w', h) {
      IsFine(w, h);
      SlotFine(w, h);
    }
    AllFine(w');
  }

  // ----- the driver publishes it

  ghost predicate Publishing(w: World, b: Buf) {
    && Shaped(w.m) && w.pc.Slotted? && w.pc.head < NUM && w.pc.head in w.h.reqs && w.h.taken <= |w.h.posted|
    && w.h.reqs[w.pc.head].phase.Preparing? && w.h.reqs[w.pc.head].b == b && w.m.info[w.pc.head].b == Some(b)
  }

  lemma PublishRings(w: World, w': World, b: Buf)
    requires Enabled(w, Publish) && w' == Next(w, Publish) && b == w.m.info[w.pc.head].b.value
    requires Inv(w)
    ensures Publishing(w, b) && Rings(w')
  {
    hide Inv, Owned, Requests, Callers, Unseen;
    Parts(w);
    Indices(w);
    IsFine(w, w.pc.head);
    assert Publishing(w, b);
    hide Chained, InPhase, Fine;
    assert Outstanding(w');
    SameUnseen(w, w', w.pc.head);
  }

  lemma PublishFine(w: World, h: nat, b: Buf)
    requires Enabled(w, Publish) && Publishing(w, b) && Fine(w, h) && (h == w.pc.head || Apart(w, h, w.pc.head))
    ensures Fine(Next(w, Publish), h)
  {
  }

  lemma PublishCallers(w: World, b: Buf)
    requires Callers(w) && Enabled(w, Publish) && Publishing(w, b)
    ensures Callers(Next(w, Publish))
  {
    var w' := Next(w, Publish);
    forall c | c in w'.m.reading ensures exists h :: h in w'.h.reqs && w'.h.reqs[h].b == c {
      var h :| h in w.h.reqs && w.h.reqs[h].b == c;
      assert h in w'.h.reqs && w'.h.reqs[h].b == c;
    }
  }

  lemma AfterPublish(w: World, w': World)
    requires Enabled(w, Publish) && w' == Next(w, Publish)
    requires Inv(w)
    ensures Inv(w')
  {
    hide Owned, Indexed, Outstanding, Unseen, Requests, Callers, Chained, InPhase, Fine, Publishing, Apart;
    var b := w.m.info[w.pc.head].b.value;
    Parts(w);
    PublishRings(w, w', b);
    SameOwners(w.m, w'.m, w.h.reqs, w'.h.reqs);
    forall h | h in w'.h.reqs ensures Fine(w', h) {
      IsFine(w, h);
      if h != w.pc.head {
        AreApart(w, h, w.pc.head);
      }
      PublishFine(w, h, b);
    }
    AllFine(w');
    PublishCallers(w, b);
  }

  // ----- the interrupt handler sees a used entry

  function NextUsed(m: Mem): nat { if |m.usedRing| == NUM then m.usedRing[m.seen % NUM] else NUM }

  ghost predicate Seeing(w: World, id: nat) {
    && Shaped(w.m) && id == NextUsed(w.m) && id < NUM && id in w.h.reqs
    && w.h.seen < |w.h.done| && w.h.done[w.h.seen] == id
    && w.h.reqs[id].phase.Returned? && w.m.info[id] == Info(Some(w.h.reqs[id].b), 0)
  }

  lemma IntrRings(w: World, w': World, id: nat)
    requires Enabled(w, Intr) && Safe(w, Intr) && w' == Next(w, Intr) && id == NextUsed(w.m)
    requires Inv(w)
    ensures Seeing(w, id) && Rings(w')
  {
    hide Inv, Owned, Requests, Callers, Outstanding, InPhase, Fine;
    Parts(w);
    Indices(w);
    OfRequest(w, w.h.done[w.h.seen]);
    assert Seeing(w, id);
    hide Chained;
    assert Unseen(w');
    SameOutstanding(w, w', id);
  }

  lemma IntrFine(w: World, h: nat, id: nat)
    requires Enabled(w, Intr) && Safe(w, Intr) && Seeing(w, id) && Fine(w, h) && (h == id || Apart(w, h, id))
    ensures Fine(Next(w, Intr), h)
  {
  }

  lemma IntrCallers(w: World, id: nat)
    requires Callers(w) && Enabled(w, Intr) && Safe(w, Intr) && Seeing(w, id)
    ensures Callers(Next(w, Intr))
  {
    var w' := Next(w, Intr);
    forall b | b in w'.m.reading ensures exists h :: h in w'.h.reqs && w'.h.reqs[h].b == b {
      var h :| h in w.h.reqs && w.h.reqs[h].b == b;
      assert h in w'.h.reqs && w'.h.reqs[h].b == b;
    }
  }

  lemma AfterIntr(w: World, w': World)
    requires Enabled(w, Intr) && Safe(w, Intr) && w' == Next(w, Intr)
    requires Inv(w)
    ensures Inv(w')
  {
    hide Owned, Indexed, Outstanding, Unseen, Requests, Callers, Chained, InPhase, Fine, Apart;
    var id := NextUsed(w.m);
    Parts(w);
    IntrRings(w, w', id);
    SameOwners(w.m, w'.m, w.h.reqs, w'.h.reqs);
    forall h | h in w'.h.reqs ensures Fine(w', h) {
      IsFine(w, h);
      if h != id {
        AreApart(w, h, id);
      }
      IntrFine(w, h, id);
    }
    AllFine(w');
    IntrCallers(w, id);
  }

  // ----- the device returns a chain

  ghost predicate Returning(w: World, id: nat) {
    id in w.h.reqs && w.h.reqs[id].phase.Executed? && w.h.seen <= |w.h.done|
  }

  lemma ReturnRings(w: World, w': World, id: nat)
    requires Enabled(w, Return(id)) && w' == Next(w, Return(id))
    requires Inv(w)
    ensures Returning(w, id) && Rings(w')
  {
    hide Inv, Owned, Requests, Callers, Outstanding;
    Parts(w);
    Indices(w);
    WindowSmall(w);
    DeviceKnown(w, id);
    OfRequest(w, id);
    assert Returning(w, id);
    hide Chained, InPhase;
    UsedAppended(w, w', id);
    SameOutstanding(w, w', id);
  }

  lemma UsedAppended(w: World, w': World, id: nat)
    requires Unseen(w) && w.h.seen <= |w.h.done| <= w.h.seen + 2 && OnlyRequest(w, w', id)
    requires id in w.h.reqs ==> !w.h.reqs[id].phase.Returned?
    requires w'.h.seen == w.h.seen && w'.h.done == w.h.done + [id]
    requires w'.m.usedRing == w.m.usedRing[|w.h.done| % NUM := id]
    requires id in w'.h.reqs && w'.h.reqs[id].phase.Returned? && w'.h.reqs[id].phase.k == |w.h.done|
    ensures Unseen(w')
  {
    var n := |w.h.done|;
    forall k | w.h.seen <= k < n ensures w'.m.usedRing[k % NUM] == w.h.done[k] {
      OtherSlot(k, n);
    }
  }

  lemma DeviceKnown(w: World, id: nat)
    requires Inv(w) && (id in w.dev.claimed || id in w.dev.executed)
    ensures id in w.h.reqs
  {
  }

  lemma ReturnFine(w: World, h: nat, id: nat)
    requires Enabled(w, Return(id)) && Returning(w, id) && Fine(w, h)
    ensures Fine(Next(w, Return(id)), h)
  {
  }

  lemma AfterReturn(w: World, w': World, id: nat)
    requires Enabled(w, Return(id)) && w' == Next(w, Return(id))
    requires Inv(w)
    ensures Inv(w')
  {
    hide Owned, Indexed, Outstanding, Unseen, Requests, Callers, Chained, InPhase, Fine;
    ReturnRings(w, w', id);
    SameOwners(w.m, w'.m, w.h.reqs, w'.h.reqs);
    forall h | h in w'.h.reqs ensures Fine(w', h) {
      IsFine(w, h);
      ReturnFine(w, h, id);
    }
    AllFine(w');
    SameCallers(w, w');
  }

  // ----- the device executes a chain

  ghost predicate Executing(w: World, id: nat) {
    && id in w.h.reqs && w.h.reqs[id].phase.Claimed? && Readable(w.m, id)
    && OpAt(w.m, id) == w.h.reqs[id].op && BufAt(w.m, id) == w.h.reqs[id].b && StatusAt(w.m, id) == id
  }

  lemma ExecuteRings(w: World, w': World, id: nat)
    requires Enabled(w, Execute(id)) && Safe(w, Execute(id)) && w' == Next(w, Execute(id))
    requires Inv(w)
    ensures Executing(w, id) && Rings(w')
  {
    hide Inv, Owned, Requests, Callers, Outstanding, Unseen;
    Parts(w);
    DeviceKnown(w, id);
    OfRequest(w, id);
    assert Executing(w, id);
    hide Chained, InPhase;
    SameOutstanding(w, w', id);
    SameUnseen(w, w', id);
  }

  lemma ExecuteFine(w: World, h: nat, id: nat)
    requires Enabled(w, Execute(id)) && Executing(w, id) && Fine(w, h) && (h == id || Apart(w, h, id))
    ensures Fine(Next(w, Execute(id)), h)
  {
  }

  lemma AfterExecute(w: World, w': World, id: nat)
    requires Enabled(w, Execute(id)) && Safe(w, Execute(id)) && w' == Next(w, Execute(id))
    requires Inv(w)
    ensures Inv(w')
  {
    hide Owned, Indexed, Outstanding, Unseen, Requests, Callers, Chained, InPhase, Fine, Apart;
    ExecuteRings(w, w', id);
    SameOwners(w.m, w'.m, w.h.reqs, w'.h.reqs);
    forall h | h in w'.h.reqs ensures Fine(w', h) {
      IsFine(w, h);
      if h != id {
        AreApart(w, h, id);
      }
      ExecuteFine(w, h, id);
    }
    AllFine(w');
    SameCallers(w, w');
  }

  // ----- a caller fills a buffer that is not in flight

  lemma TouchFine(w: World, h: nat, b: Buf, block: Block)
    requires Enabled(w, Touch(b, block)) && Fine(w, h)
    ensures Fine(Next(w, Touch(b, block)), h)
  {
  }

  lemma AfterTouch(w: World, w': World, b: Buf, block: Block)
    requires Enabled(w, Touch(b, block)) && w' == Next(w, Touch(b, block))
    requires Inv(w)
    ensures Inv(w')
  {
    hide Owned, Requests, Callers, Chained, InPhase, Fine;
    forall h | h in w'.h.reqs ensures Fine(w', h) {
      IsFine(w, h);
      TouchFine(w, h, b, block);
    }
    AllFine(w');
    SameCallers(w, w');
  }

  // ----- virtio_disk_rw takes three descriptors and formats them

  lemma PrepareOwned(w: World, w': World, b: Buf, op: Op, h: nat, i1: nat, i2: nat)
    requires Enabled(w, Prepare(b, op, h, i1, i2)) && w' == Next(w, Prepare(b, op, h, i1, i2))
    requires Owned(w.m, w.h.reqs)
    ensures Owned(w'.m, w'.h.reqs) && h !in w.h.reqs
    ensures forall g :: g in w.h.reqs ==> {g, w.h.reqs[g].i1, w.h.reqs[g].i2} !! {h, i1, i2}
  {
    AddOwner(w.m.free, w.h.reqs, h, w'.h.reqs[h]);
    hide TriplesApart, FreeAre;
    assert forall g :: g in w.h.reqs ==> Triple(g, w.h.reqs[g]) == {g, w.h.reqs[g].i1, w.h.reqs[g].i2};
  }

  /** A request made of three free descriptors. */
  lemma AddOwner(free: seq<bool>, reqs: map<nat, Req>, h: nat, r: Req)
    requires FreeAre(free, reqs) && TriplesApart(reqs) && Proper(h, r) && free[h] && free[r.i1] && free[r.i2]
    ensures h !in reqs && forall g :: g in reqs ==> Triple(g, reqs[g]) !! Triple(h, r)
    ensures TriplesApart(reqs[h := r]) && FreeAre(free[h := false][r.i1 := false][r.i2 := false], reqs[h := r])
  {
    forall g | g in reqs
      ensures g != h && Triple(g, reqs[g]) !! Triple(h, r)
    {
      assert g in Triple(g, reqs[g]);
    }
    var reqs', free' := reqs[h := r], free[h := false][r.i1 := false][r.i2 := false];
    forall i | 0 <= i < NUM
      ensures free'[i] <==> Unowned(reqs', i)
    {
      if i in Triple(h, r) {
        assert i in Triple(h, reqs'[h]);
      } else {
        assert free'[i] == free[i];
        assert reqs' - {h} == reqs;
        OneOwner(reqs, reqs', h, i);
      }
    }
  }

  /** A request gone, its descriptors free again. */
  lemma DropOwner(free: seq<bool>, reqs: map<nat, Req>, h: nat)
    requires FreeAre(free, reqs) && TriplesApart(reqs) && h in reqs && Proper(h, reqs[h])
    ensures TriplesApart(reqs - {h}) && FreeAre(free[h := true][reqs[h].i1 := true][reqs[h].i2 := true], reqs - {h})
  {
    var reqs', free' := reqs - {h}, free[h := true][reqs[h].i1 := true][reqs[h].i2 := true];
    forall i | 0 <= i < NUM
      ensures free'[i] <==> Unowned(reqs', i)
    {
      if i in Triple(h, reqs[h]) {
        assert forall g :: g in reqs' ==> Triple(g, reqs[g]) !! Triple(h, reqs[h]);
      } else {
        assert free'[i] == free[i];
        OneOwner(reqs', reqs, h, i);
      }
    }
  }

  /** Who owns no other descriptor does not matter for it. */
  lemma OneOwner(reqs: map<nat, Req>, reqs': map<nat, Req>, h: nat, i: nat)
    requires h in reqs' && i !in Triple(h, reqs'[h]) && reqs == reqs' - {h}
    ensures Unowned(reqs, i) <==> Unowned(reqs', i)
  {
    if Unowned(reqs, i) {
      forall g | g in reqs'
        ensures i !in Triple(g, reqs'[g])
      {
        if g != h {
          assert g in reqs && reqs[g] == reqs'[g];
        }
      }
    } else {
      var g :| g in reqs && i in Triple(g, reqs[g]);
      assert g in reqs' && i in Triple(g, reqs'[g]);
    }
  }

  lemma PrepareFine(w: World, g: nat, b: Buf, op: Op, h: nat, i1: nat, i2: nat)
    requires Enabled(w, Prepare(b, op, h, i1, i2)) && Fine(w, g) && g != h
    requires {g, w.h.reqs[g].i1, w.h.reqs[g].i2} !! {h, i1, i2}
    ensures Fine(Next(w, Prepare(b, op, h, i1, i2)), g)
  {
    assert g in {g, w.h.reqs[g].i1, w.h.reqs[g].i2};
  }

  lemma PreparedFine(w: World, b: Buf, op: Op, h: nat, i1: nat, i2: nat)
    requires Enabled(w, Prepare(b, op, h, i1, i2)) && h !in w.dev.claimed && h !in w.dev.executed
    ensures Fine(Next(w, Prepare(b, op, h, i1, i2)), h)
  {
  }

  lemma PrepareCallers(w: World, b: Buf, op: Op, h: nat, i1: nat, i2: nat)
    requires Enabled(w, Prepare(b, op, h, i1, i2)) && h !in w.h.reqs && Callers(w)
    requires forall g :: g in w.h.reqs ==> w.h.reqs[g].b != b
    ensures Callers(Next(w, Prepare(b, op, h, i1, i2)))
  {
    var w' := Next(w, Prepare(b, op, h, i1, i2));
    forall c | c in w'.m.reading ensures exists g :: g in w'.h.reqs && w'.h.reqs[g].b == c {
      if c == b {
        assert h in w'.h.reqs && w'.h.reqs[h].b == c;
      } else {
        var g :| g in w.h.reqs && w.h.reqs[g].b == c;
        assert g in w'.h.reqs && w'.h.reqs[g].b == c;
      }
    }
  }

  /** A buffer in a request is marked as being read, or its caller has yet to wake. */
  lemma FineBuffer(w: World, h: nat)
    requires Fine(w, h)
    ensures w.h.reqs[h].b in w.m.reading || w.h.reqs[h].b in w.m.waiting
  {
  }

  lemma AfterPrepare(w: World, w': World, b: Buf, op: Op, h: nat, i1: nat, i2: nat)
    requires Enabled(w, Prepare(b, op, h, i1, i2)) && w' == Next(w, Prepare(b, op, h, i1, i2))
    requires Inv(w)
    ensures Inv(w')
  {
    hide Owned, Outstanding, Unseen, Requests, Callers, Chained, InPhase, Fine;
    Parts(w);
    PrepareOwned(w, w', b, op, h, i1, i2);
    SameOutstanding(w, w', h);
    SameUnseen(w, w', h);
    forall g | g in w.h.reqs ensures Fine(w', g) && w.h.reqs[g].b != b {
      IsFine(w, g);
      FineBuffer(w, g);
      PrepareFine(w, g, b, op, h, i1, i2);
    }
    FreshForDevice(w, h);
    PreparedFine(w, b, op, h, i1, i2);
    AllFine(w');
    PrepareCallers(w, b, op, h, i1, i2);
  }

  lemma FreshForDevice(w: World, h: nat)
    requires Callers(w) && h !in w.h.reqs
    ensures h !in w.dev.claimed && h !in w.dev.executed
  {
  }

  // ----- virtio_disk_rw finds its request done

  ghost predicate Finishing(w: World, b: Buf, h: nat) {
    && h in w.h.reqs && b in w.m.waiting && w.m.waiting[b] == h && w.h.reqs[h].b == b && w.h.reqs[h].phase.Finished?
    && Freeable(w.m, h) && Link(w.m, h) == w.h.reqs[h].i1 && Link(w.m, Link(w.m, h)) == w.h.reqs[h].i2
  }

  lemma IsFinishing(w: World, b: Buf, h: nat)
    requires Enabled(w, Finish(b)) && h == w.m.waiting[b]
    requires Inv(w)
    ensures Finishing(w, b, h)
  {
    hide Inv, Outstanding, Unseen, Requests, Owned;
    CallerChain(w, b);
    OfRequest(w, h);
  }

  lemma CallerChain(w: World, b: Buf)
    requires Inv(w) && b in w.m.waiting
    ensures w.m.waiting[b] in w.h.reqs && w.h.reqs[w.m.waiting[b]].b == b
  {
  }

  lemma FinishOwned(w: World, w': World, b: Buf, h: nat)
    requires Enabled(w, Finish(b)) && Safe(w, Finish(b)) && w' == Next(w, Finish(b)) && Finishing(w, b, h)
    requires Owned(w.m, w.h.reqs)
    ensures Owned(w'.m, w'.h.reqs)
  {
    DropOwner(w.m.free, w.h.reqs, h);
    hide TriplesApart, FreeAre;
  }

  lemma FinishFine(w: World, g: nat, b: Buf, h: nat)
    requires Enabled(w, Finish(b)) && Safe(w, Finish(b)) && Finishing(w, b, h) && Fine(w, g) && Apart(w, g, h)
    ensures g in Next(w, Finish(b)).h.reqs ==> Fine(Next(w, Finish(b)), g)
  {
  }

  lemma FinishCallers(w: World, w': World, b: Buf, h: nat)
    requires Enabled(w, Finish(b)) && Safe(w, Finish(b)) && w' == Next(w, Finish(b)) && Finishing(w, b, h)
    requires Callers(w) && h !in w.dev.claimed && h !in w.dev.executed
    ensures Callers(w')
  {
    forall c | c in w'.m.reading ensures exists g :: g in w'.h.reqs && w'.h.reqs[g].b == c {
      var g :| g in w.h.reqs && w.h.reqs[g].b == c;
      assert g != h;
      assert g in w'.h.reqs && w'.h.reqs[g].b == c;
    }
  }

  lemma FinishedForDevice(w: World, h: nat)
    requires Fine(w, h) && w.h.reqs[h].phase.Finished?
    ensures h !in w.dev.claimed && h !in w.dev.executed
  {
  }

  lemma AfterFinish(w: World, w': World, b: Buf)
    requires Enabled(w, Finish(b)) && Safe(w, Finish(b)) && w' == Next(w, Finish(b))
    requires Inv(w)
    ensures Inv(w')
  {
    hide Owned, Outstanding, Unseen, Requests, Callers, Chained, InPhase, Fine, Apart;
    var h := w.m.waiting[b];
    Parts(w);
    IsFinishing(w, b, h);
    FinishOwned(w, w', b, h);
    SameOutstanding(w, w', h);
    SameUnseen(w, w', h);
    forall g | g in w'.h.reqs ensures Fine(w', g) {
      IsFine(w, g);
      AreApart(w, g, h);
      FinishFine(w, g, b, h);
    }
    IsFine(w, h);
    FinishedForDevice(w, h);
    AllFine(w');
    FinishCallers(w, w', b, h);
  }
}
