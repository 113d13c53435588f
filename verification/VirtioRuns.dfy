/** What holds of every run of the disk queue: no panic, no slot overwritten too early, and
    every call of virtio_disk_rw served exactly once, in an order in which each read sees
    the last write. */
module VirtioRuns {
  import opened VirtioRing

  ghost predicate Init(w: World) {
    && Shaped(w.m) && Whole(w.dev) && w.pc.Open? && w.h == History([], 0, [], 0, map[])
    && (forall i :: 0 <= i < NUM ==> w.m.free[i] && w.m.desc[i] == ZERO)
    && w.m.avail == w.m.used == w.m.seen == 0 && w.m.reading == {} && w.m.waiting == map[]
    && w.dev.taken == 0 && w.dev.claimed == w.dev.executed == {} && w.dev.log == []
  }

  /** A step that is not safe may lead anywhere: the kernel panics, or the device goes astray. */
  ghost predicate Moves(w: World, s: Step, w': World) {
    Enabled(w, s) && (Safe(w, s) ==> w' == Next(w, s))
  }

  ghost predicate Run(ws: seq<World>, ss: seq<Step>) {
    && |ws| == |ss| + 1 && Init(ws[0])
    && forall i :: 0 <= i < |ss| ==> Moves(ws[i], ss[i], ws[i + 1])
  }

  lemma InvNext(w: World, s: Step, w': World)
    requires Moves(w, s, w')
    requires Inv(w)
    ensures Safe(w, s) && Inv(w')
  {
    hide Inv, Enabled, Safe, Next;
    SafeStep(w, s);
    match s
    case Prepare(b, op, h, i1, i2) => AfterPrepare(w, w', b, op, h, i1, i2);
    case PutSlot => AfterPutSlot(w, w');
    case Publish => AfterPublish(w, w');
    case Intr => AfterIntr(w, w');
    case Finish(b) => AfterFinish(w, w', b);
    case Touch(b, block) => AfterTouch(w, w', b, block);
    case Take => AfterTake(w, w');
    case Execute(h) => AfterExecute(w, w', h);
    case Return(h) => AfterReturn(w, w', h);
  }

  /** Whatever the order of steps, the invariant holds and nothing panics. */
  lemma {:induction false} RunIsSafe(ws: seq<World>, ss: seq<Step>, i: nat)
    requires Run(ws, ss) && i < |ws|
    ensures Inv(ws[i]) && (i < |ss| ==> Moves(ws[i], ss[i], ws[i + 1]) && Safe(ws[i], ss[i]))
  {
    hide Inv, Enabled, Safe, Next;
    if i == 0 {
      InitInv(ws[0]);
    } else {
      RunIsSafe(ws, ss, i - 1);
      InvNext(ws[i - 1], ss[i - 1], ws[i]);
    }
    if i < |ss| {
      InvNext(ws[i], ss[i], ws[i + 1]);
    }
  }

  lemma InitInv(w: World)
    requires Init(w)
    ensures Inv(w)
  {
  }

  /** The slot a request is put in holds no entry the device has yet to take. */
  lemma NoOverwrite(w: World, k: nat)
    requires Inv(w) && Enabled(w, PutSlot) && w.h.taken <= k < |w.h.posted|
    ensures k % NUM != w.m.avail % NUM && Next(w, PutSlot).m.ring[k % NUM] == w.h.posted[k]
  {
    Indices(w);
    WindowSmall(w);
    OtherSlot(k, |w.h.posted|);
  }

  // ----- the log is a history of a plain disk ----------------------------------------------

  /** The block a sector holds once these requests are executed one after the other. */
  ghost function Latest(log: seq<Entry>, sector: nat, store: imap<nat, Block>): Block
    requires sector in store
  {
    if log == [] then store[sector]
    else
      var e := log[|log| - 1];
      if e.op == Op(true, sector) then e.block else Latest(log[..|log| - 1], sector, store)
  }

  /** The disk holds what the log wrote, and every read returned the last block written. */
  ghost predicate Coherent(dev: Dev, store: imap<nat, Block>) {
    && (forall s: nat :: s in store && s in dev.store && dev.store[s] == Latest(dev.log, s, store))
    && forall k :: 0 <= k < |dev.log| && !dev.log[k].op.write ==>
         dev.log[k].block == Latest(dev.log[..k], dev.log[k].op.sector, store)
  }

  lemma CoherentStep(w: World, s: Step, store: imap<nat, Block>)
    requires Enabled(w, s) && Safe(w, s) && Coherent(w.dev, store)
    ensures Coherent(Next(w, s).dev, store)
  {
    if s.Execute? {
      var dev, dev' := w.dev, Next(w, s).dev;
      var n := |dev.log|;
      assert dev'.log[..n] == dev.log && forall k :: 0 <= k < n ==> dev'.log[..k] == dev.log[..k];
    }
  }

  lemma {:induction false} RunIsCoherent(ws: seq<World>, ss: seq<Step>, i: nat)
    requires Run(ws, ss) && i < |ws|
    ensures Coherent(ws[i].dev, ws[0].dev.store)
  {
    hide Enabled, Safe, Next;
    if i > 0 {
      RunIsCoherent(ws, ss, i - 1);
      RunIsSafe(ws, ss, i - 1);
      assert Moves(ws[i - 1], ss[i - 1], ws[i]);
      CoherentStep(ws[i - 1], ss[i - 1], ws[0].dev.store);
    }
  }

  // ----- every call is served exactly once -----------------------------------------------

  /** The request of a call, as it stays until its caller is done with it. */
  ghost predicate Pending(w: World, h: nat, b: Buf, op: Op, block: Block, born: nat) {
    && h in w.h.reqs && w.h.reqs[h].b == b && w.h.reqs[h].op == op && w.h.reqs[h].block == block && w.h.reqs[h].born == born
  }

  lemma IsPending(w: World, h: nat, b: Buf, op: Op, block: Block, born: nat)
    requires Pending(w, h, b, op, block, born)
    ensures h in w.h.reqs && w.h.reqs[h].b == b
  {
  }

  lemma PendingStays(w: World, s: Step, h: nat, b: Buf, op: Op, block: Block, born: nat)
    requires Enabled(w, s) && Safe(w, s) && Pending(w, h, b, op, block, born) && s != Finish(b)
    requires s.Finish? ==> w.m.waiting[s.b] != h
    requires s.Prepare? ==> s.h != h
    ensures Pending(Next(w, s), h, b, op, block, born)
  {
  }

  lemma PendingHeads(w: World, s: Step, h: nat)
    requires Enabled(w, s)
    requires Inv(w)
    requires h in w.h.reqs && s != Finish(w.h.reqs[h].b)
    ensures s.Finish? ==> w.m.waiting[s.b] != h
    ensures s.Prepare? ==> s.h != h
  {
    hide Outstanding, Unseen, Requests, Inv, Callers, Owned;
    OfRequest(w, h);
    if s.Finish? {
      CallerChain(w, s.b);
    }
  }

  lemma PendingStarts(w: World, s: Step, w': World)
    requires Moves(w, s, w') && s.Prepare?
    ensures s.b in w.dev.data && Pending(w', s.h, s.b, s.op, w.dev.data[s.b], |w.dev.log|)
  {
  }

  lemma {:induction false} PendingUntil(ws: seq<World>, ss: seq<Step>, i: nat, j: nat)
    requires Run(ws, ss) && i < j <= |ss| && ss[i].Prepare?
    requires forall k :: i < k < j ==> ss[k] != Finish(ss[i].b)
    ensures ss[i].b in ws[i].dev.data
    ensures Pending(ws[j], ss[i].h, ss[i].b, ss[i].op, ws[i].dev.data[ss[i].b], |ws[i].dev.log|)
    decreases j
  {
    hide Inv, Enabled, Safe, Next, Pending;
    var s := ss[i];
    RunIsSafe(ws, ss, i);
    RunIsSafe(ws, ss, j - 1);
    PendingStarts(ws[i], s, ws[i + 1]);
    if j > i + 1 {
      PendingUntil(ws, ss, i, j - 1);
      IsPending(ws[j - 1], s.h, s.b, s.op, ws[i].dev.data[s.b], |ws[i].dev.log|);
      PendingHeads(ws[j - 1], ss[j - 1], s.h);
      PendingStays(ws[j - 1], ss[j - 1], s.h, s.b, s.op, ws[i].dev.data[s.b], |ws[i].dev.log|);
    }
  }

  /** Since `born` the device executed the request at `at` of its log, and no other of this buffer. */
  ghost predicate ServedAt(w: World, b: Buf, op: Op, born: nat, at: nat) {
    && b in w.dev.data && born <= at < |w.dev.log| && w.dev.log[at] == Entry(b, op, w.dev.data[b])
    && forall k :: born <= k < |w.dev.log| && w.dev.log[k].b == b ==> k == at
  }

  /** A caller that returns was served: between its submission and its return the device
      executed this request, once, with the data its buffer now holds. */
  lemma Served(ws: seq<World>, ss: seq<Step>, i: nat, j: nat)
    requires Run(ws, ss) && i < j < |ss| && ss[i].Prepare? && ss[j] == Finish(ss[i].b)
    requires forall k :: i < k < j ==> ss[k] != Finish(ss[i].b)
    ensures ss[i].b in ws[i].dev.data && ss[i].b in ws[j].dev.data
    ensures exists at :: ServedAt(ws[j], ss[i].b, ss[i].op, |ws[i].dev.log|, at)
    ensures ss[i].op.write ==> ws[j].dev.data[ss[i].b] == ws[i].dev.data[ss[i].b]
  {
    var s := ss[i];
    PendingUntil(ws, ss, i, j);
    RunIsSafe(ws, ss, j);
    assert Moves(ws[j], ss[j], ws[j + 1]);
    hide Inv, Next;
    IsFinishing(ws[j], s.b, ws[j].m.waiting[s.b]);
    var h := ws[j].m.waiting[s.b];
    SameBuffer(ws[j], h, s.h);
    OfRequest(ws[j], h);
    assert ServedAt(ws[j], s.b, s.op, |ws[i].dev.log|, ws[j].h.reqs[h].phase.at);
  }

  lemma SameBuffer(w: World, g: nat, h: nat)
    requires Inv(w) && g in w.h.reqs && h in w.h.reqs && w.h.reqs[g].b == w.h.reqs[h].b
    ensures g == h
  {
  }

  ghost predicate CanGoOn(w: World) { exists s :: Enabled(w, s) && !s.Prepare? && !s.Touch? }

  /** No deadlock: while a request is in flight the driver or the device can carry it on. */
  lemma NoDeadlock(ws: seq<World>, ss: seq<Step>, i: nat)
    requires Run(ws, ss) && i < |ws| && ws[i].h.reqs != map[]
    ensures CanGoOn(ws[i])
  {
    RunIsSafe(ws, ss, i);
    var w := ws[i];
    var h :| h in w.h.reqs;
    GoesOn(w, h, w.h.reqs[h]);
  }

  lemma GoesOn(w: World, h: nat, r: Req)
    requires Inv(w) && h in w.h.reqs && r == w.h.reqs[h]
    ensures CanGoOn(w)
  {
    hide Inv, CanGoOn;
    InFlight(w, h, r);
    match w.pc
    case Formatted(_) => May(w, PutSlot);
    case Slotted(_) => May(w, Publish);
    case Open =>
      match r.phase
      case Posted(_) => May(w, Take);
      case Claimed => May(w, Execute(h));
      case Executed(_) => May(w, Return(h));
      case Returned(_, _) => May(w, Intr);
      case Finished(_) => May(w, Finish(r.b));
  }

  lemma May(w: World, s: Step)
    requires Enabled(w, s) && !s.Prepare? && !s.Touch?
    ensures CanGoOn(w)
  {
  }

  /** What its phase says that the next step needs. */
  lemma InFlight(w: World, h: nat, r: Req)
    requires Inv(w) && h in w.h.reqs && r == w.h.reqs[h]
    ensures Shaped(w.m) && Whole(w.dev)
    ensures w.pc.Slotted? ==> w.pc.head < NUM && w.m.info[w.pc.head].b.Some?
    ensures w.pc.Open? ==> !r.phase.Preparing?
    ensures r.phase.Posted? ==> w.dev.taken != w.m.avail
    ensures r.phase.Claimed? ==> h in w.dev.claimed
    ensures r.phase.Executed? ==> h in w.dev.executed
    ensures r.phase.Returned? ==> w.m.seen != w.m.used
    ensures r.phase.Finished? ==> r.b in w.m.waiting && r.b !in w.m.reading
  {
    Indices(w);
    assert Chained(w.m, h, r) && InPhase(w, h, r);
    if w.pc.Slotted? {
      assert Chained(w.m, w.pc.head, w.h.reqs[w.pc.head]);
    }
  }
}
