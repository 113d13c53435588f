/** The scheduler on several harts: how a process is picked under pool_lock, handed over by
    its own lock, run, and given back, while other processes wake it, kill it, create and
    reap processes.  Every lock operation and every test of shared state is a step. */
module Harts {
  datatype ProcState = Unused | Used | Sleeping | Runnable | Running | Zombie

  datatype Pick = Nobody | Best(p: nat, stride: nat)

  /** Where a hart is: in the loop of the scheduler, or running a process that may hold its
      own lock, locks of other processes, and pool_lock. */
  datatype Mode =
    | Idle
    | Scan(i: nat, best: Pick)
    | Seen(i: nat, best: Pick)
    | Locking(p: nat)
    | Locked(p: nat)
    | Handing(p: nat)
    | Run(p: nat, own: bool, others: set<nat>, pool: bool)
    | Back(p: nat)
  {
    /** The process this hart has picked for good, runs or is giving back. */
    predicate Has(q: nat) { (Locked? || Handing? || Run? || Back?) && p == q }

    predicate HoldsPool() { Scan? || Seen? || Locking? || Locked? || (Run? && pool) }

    predicate HoldsLock(q: nat) {
      ((Locked? || Handing? || Back?) && p == q) || (Run? && ((own && p == q) || q in others))
    }

    /** The candidate of a scan under way. */
    predicate Wants(q: nat) {
      ((Scan? || Seen?) && best.Best? && best.p == q) || (Locking? && p == q)
    }
  }

  /** Spin locks by holder, processes by index, harts by number. */
  datatype World = World(nproc: nat, state: seq<ProcState>, stride: seq<nat>, lock: seq<int>, pool: int, harts: seq<Mode>)

  const FREE := -1

  datatype Step =
    | TakePool | Test | ReadState | ReadLock | Choose | LockPick | DropPool | Dispatch(pass: nat)
    | UnlockOwn | LockOwn | Change(to: ProcState) | SwitchOut | GiveBack
    | LockOther(q: nat) | ChangeOther(q: nat, to: ProcState) | UnlockOther(q: nat) | ProcPool | ProcUnpool

  predicate Shaped(w: World) { |w.state| == |w.stride| == |w.lock| == w.nproc }

  /** What a process may do to another one whose lock it holds: wake or kill it, reap it,
      create it, start it, or drop it half made. */
  predicate Allowed(from: ProcState, to: ProcState) {
    || (from == Sleeping && to == Runnable) || (from == Zombie && to == Unused) || (from == Unused && to == Used)
    || (from == Used && to == Runnable) || (from == Used && to == Unused)
  }

  predicate Enabled(w: World, h: nat, s: Step) {
    && Shaped(w) && h < |w.harts|
    && var m := w.harts[h];
       match s
       case TakePool => m.Idle? && w.pool == FREE
       case Test => m.Scan? && m.i < w.nproc
       case ReadState => m.Scan? && m.i < w.nproc
       case ReadLock => m.Seen? && m.i < w.nproc
       case Choose => m.Scan? && m.i == w.nproc
       case LockPick => m.Locking? && m.p < w.nproc && w.lock[m.p] == FREE
       case DropPool => m.Locked?
       case Dispatch(_) => m.Handing? && m.p < w.nproc
       case UnlockOwn => m.Run? && m.own && m.p < w.nproc && w.state[m.p] == Running
       case LockOwn => m.Run? && !m.own && m.p < w.nproc && w.lock[m.p] == FREE
       case Change(to) =>
         && m.Run? && m.own && m.p < w.nproc && w.state[m.p] == Running
         && (to == Runnable || to == Sleeping || to == Zombie || to == Unused)
       case SwitchOut => m.Run? && m.own && m.others == {} && !m.pool && m.p < w.nproc && w.state[m.p] != Running
       case GiveBack => m.Back? && m.p < w.nproc
       case LockOther(q) => m.Run? && q != m.p && q < w.nproc && w.lock[q] == FREE
       case ChangeOther(q, to) => m.Run? && q in m.others && q < w.nproc && Allowed(w.state[q], to)
       case UnlockOther(q) => m.Run? && q in m.others && q < w.nproc
       case ProcPool => m.Run? && !m.pool && w.pool == FREE
       case ProcUnpool => m.Run? && m.pool
  }

  /** The better candidate of the one so far and process `i`. */
  function Better(w: World, i: nat, best: Pick): Pick
    requires Shaped(w) && i < w.nproc
  {
    if best.Best? && best.stride <= w.stride[i] then best else Best(i, w.stride[i])
  }

  function Put(w: World, h: nat, m: Mode): World
    requires h < |w.harts|
  {
    w.(harts := w.harts[h := m])
  }

  function Next(w: World, h: nat, s: Step): World
    requires Enabled(w, h, s)
  {
    var m := w.harts[h];
    match s
    case TakePool => Put(w.(pool := h), h, Scan(0, Nobody))
    case Test =>
      Put(w, h, Scan(m.i + 1, if w.state[m.i] == Runnable && w.lock[m.i] == FREE then Better(w, m.i, m.best) else m.best))
    case ReadState => Put(w, h, if w.state[m.i] == Runnable then Seen(m.i, m.best) else Scan(m.i + 1, m.best))
    case ReadLock => Put(w, h, Scan(m.i + 1, if w.lock[m.i] == FREE then Better(w, m.i, m.best) else m.best))
    case Choose => if m.best.Best? then Put(w, h, Locking(m.best.p)) else Put(w.(pool := FREE), h, Idle)
    case LockPick => Put(w.(lock := w.lock[m.p := h]), h, Locked(m.p))
    case DropPool => Put(w.(pool := FREE), h, Handing(m.p))
    case Dispatch(pass) =>
      Put(w.(state := w.state[m.p := Running], stride := w.stride[m.p := w.stride[m.p] + pass]), h, Run(m.p, true, {}, false))
    case UnlockOwn => Put(w.(lock := w.lock[m.p := FREE]), h, m.(own := false))
    case LockOwn => Put(w.(lock := w.lock[m.p := h]), h, m.(own := true))
    case Change(to) => w.(state := w.state[m.p := to])
    case SwitchOut => Put(w, h, Back(m.p))
    case GiveBack => Put(w.(lock := w.lock[m.p := FREE]), h, Idle)
    case LockOther(q) => Put(w.(lock := w.lock[q := h]), h, m.(others := m.others + {q}))
    case ChangeOther(q, to) => w.(state := w.state[q := to])
    case UnlockOther(q) => Put(w.(lock := w.lock[q := FREE]), h, m.(others := m.others - {q}))
    case ProcPool => Put(w.(pool := h), h, m.(pool := true))
    case ProcUnpool => Put(w.(pool := FREE), h, m.(pool := false))
  }

  // ----- the invariant ----------------------------------------------------------------------

  /** A process that nobody has: it waits to be picked, or is no candidate at all. */
  ghost predicate Parked(w: World, p: nat) { forall h :: 0 <= h < |w.harts| ==> !w.harts[h].Has(p) }

  /** The processes a hart is concerned with exist. */
  ghost predicate Bounded(m: Mode, n: nat) {
    && (m.Locking? || m.Locked? || m.Handing? || m.Run? || m.Back? ==> m.p < n)
    && (m.Run? ==> m.p !in m.others && forall q :: q in m.others ==> q < n)
    && ((m.Scan? || m.Seen?) && m.best.Best? ==> m.best.p < n)
    && (m.Scan? || m.Seen? ==> m.i <= n)
  }

  /** A lock has the holder it says it has. */
  ghost predicate LockOk(w: World, q: nat)
    requires Shaped(w) && q < w.nproc
  {
    && (w.lock[q] == FREE || 0 <= w.lock[q] < |w.harts|)
    && forall h :: 0 <= h < |w.harts| ==> (w.harts[h].HoldsLock(q) <==> w.lock[q] == h)
  }

  ghost predicate PoolOk(w: World) {
    && (w.pool == FREE || 0 <= w.pool < |w.harts|)
    && forall h :: 0 <= h < |w.harts| ==> (w.harts[h].HoldsPool() <==> w.pool == h)
  }

  /** No process on two harts. */
  ghost predicate Exclusive(w: World, p: nat) {
    forall g, h :: 0 <= g < |w.harts| && 0 <= h < |w.harts| && w.harts[g].Has(p) && w.harts[h].Has(p) ==> g == h
  }

  /** What a hart knows of the process it has, or wants. */
  ghost predicate HartOk(w: World, h: nat)
    requires Shaped(w) && h < |w.harts|
  {
    var m := w.harts[h];
    && Bounded(m, w.nproc) && !m.Seen?
    && ((m.Locked? || m.Handing?) && m.p < w.nproc ==> w.state[m.p] == Runnable)
    && (m.Run? && !m.own && m.p < w.nproc ==> w.state[m.p] == Running)
    && (m.Back? && m.p < w.nproc ==> w.state[m.p] != Running)
    && (forall q: nat :: m.Wants(q) && q < w.nproc ==> w.state[q] == Runnable && Parked(w, q))
  }

  /** A process marked as running is on a hart. */
  ghost predicate RunningOk(w: World, p: nat)
    requires Shaped(w) && p < w.nproc
  {
    w.state[p] == Running ==> exists h :: 0 <= h < |w.harts| && w.harts[h].Run? && w.harts[h].p == p
  }

  ghost predicate Inv(w: World) {
    && Shaped(w) && PoolOk(w)
    && (forall q :: 0 <= q < w.nproc ==> LockOk(w, q) && RunningOk(w, q) && Exclusive(w, q))
    && (forall h :: 0 <= h < |w.harts| ==> HartOk(w, h))
  }

  /** A process that is runnable and unlocked waits to be picked: this is what the test of
      the scan relies on. */
  lemma RunnableUnlocked(w: World, q: nat)
    requires Inv(w) && q < w.nproc && w.state[q] == Runnable && w.lock[q] == FREE
    ensures Parked(w, q)
  {
    forall h | 0 <= h < |w.harts| ensures !w.harts[h].Has(q) {
      assert LockOk(w, q) && HartOk(w, h);
    }
  }

  /** Whatever another process may change is parked. */
  lemma ChangedIsParked(w: World, h: nat, q: nat, to: ProcState)
    requires Inv(w) && Enabled(w, h, ChangeOther(q, to))
    ensures Parked(w, q) && forall g :: 0 <= g < |w.harts| ==> !w.harts[g].Wants(q)
  {
    forall g | 0 <= g < |w.harts| ensures !w.harts[g].Has(q) && !w.harts[g].Wants(q) {
      assert LockOk(w, q) && HartOk(w, g) && HartOk(w, h);
    }
  }

  lemma NextLocks(w: World, h: nat, s: Step, q: nat)
    requires Inv(w) && Enabled(w, h, s) && !s.ReadState? && q < w.nproc
    ensures LockOk(Next(w, h, s), q)
  {
    assert LockOk(w, q) && HartOk(w, h);
  }

  lemma NextPool(w: World, h: nat, s: Step)
    requires Inv(w) && Enabled(w, h, s) && !s.ReadState?
    ensures PoolOk(Next(w, h, s))
  {
    assert HartOk(w, h);
  }

  lemma NextExclusive(w: World, h: nat, s: Step, q: nat)
    requires Inv(w) && Enabled(w, h, s) && !s.ReadState? && q < w.nproc
    ensures Exclusive(Next(w, h, s), q)
  {
    assert Exclusive(w, q) && HartOk(w, h);
  }

  lemma NextRunning(w: World, h: nat, s: Step, q: nat)
    requires Inv(w) && Enabled(w, h, s) && !s.ReadState? && q < w.nproc
    ensures RunningOk(Next(w, h, s), q)
  {
    assert RunningOk(w, q) && HartOk(w, h);
    var w' := Next(w, h, s);
    if w'.state[q] == Running {
      if s.Dispatch? && w.harts[h].p == q {
        assert w'.harts[h].Run? && w'.harts[h].p == q;
      } else {
        var g :| 0 <= g < |w.harts| && w.harts[g].Run? && w.harts[g].p == q;
        assert w'.harts[g].Run? && w'.harts[g].p == q;
      }
    }
  }

  /** A hart that did not move, when some process `q` has or has not changed. */
  lemma OtherHart(w: World, h: nat, s: Step, g: nat)
    requires Inv(w) && Enabled(w, h, s) && !s.ReadState? && g < |w.harts| && g != h
    ensures HartOk(Next(w, h, s), g)
  {
    assert HartOk(w, g) && HartOk(w, h);
    var w', m := Next(w, h, s), w.harts[h];
    if s.ChangeOther? {
      ChangedIsParked(w, h, s.q, s.to);
    }
    if s.Dispatch? || s.Change? {
      assert Exclusive(w, m.p) && m.Has(m.p);
    }
    if s.LockPick? {
      assert w.harts[h].HoldsPool();
    }
    forall q: nat | w'.harts[g].Wants(q) && q < w.nproc ensures w'.state[q] == Runnable && Parked(w', q) {
      assert Parked(w, q) && w.harts[g].HoldsPool();
      forall i | 0 <= i < |w.harts| ensures !w'.harts[i].Has(q) {
        assert !w.harts[i].Has(q);
      }
    }
  }

  lemma ThisHart(w: World, h: nat, s: Step)
    requires Inv(w) && Enabled(w, h, s) && !s.ReadState?
    ensures HartOk(Next(w, h, s), h)
  {
    assert HartOk(w, h);
    var w', m := Next(w, h, s), w.harts[h];
    if s.Test? && w.state[m.i] == Runnable && w.lock[m.i] == FREE {
      RunnableUnlocked(w, m.i);
    }
    forall q: nat | w'.harts[h].Wants(q) && q < w.nproc ensures w'.state[q] == Runnable && Parked(w', q) {
      assert Parked(w, q);
      forall i | 0 <= i < |w.harts| ensures !w'.harts[i].Has(q) {
        assert !w.harts[i].Has(q);
      }
    }
    if s.LockPick? {
      assert m.Wants(m.p);
    }
    if s.ChangeOther? {
      assert LockOk(w, s.q);
    }
  }

  lemma InvNext(w: World, h: nat, s: Step)
    requires Inv(w) && Enabled(w, h, s) && !s.ReadState?
    ensures Inv(Next(w, h, s))
  {
    hide Inv, LockOk, PoolOk, Exclusive, HartOk, RunningOk;
    var w' := Next(w, h, s);
    SameShape(w, h, s);
    NextPool(w, h, s);
    forall q | 0 <= q < w'.nproc ensures LockOk(w', q) && RunningOk(w', q) && Exclusive(w', q) {
      NextLocks(w, h, s, q);
      NextRunning(w, h, s, q);
      NextExclusive(w, h, s, q);
    }
    forall g | 0 <= g < |w'.harts| ensures HartOk(w', g) {
      if g == h {
        ThisHart(w, h, s);
      } else {
        OtherHart(w, h, s, g);
      }
    }
    InvIs(w');
  }

  lemma SameShape(w: World, h: nat, s: Step)
    requires Enabled(w, h, s)
    ensures Shaped(Next(w, h, s)) && Next(w, h, s).nproc == w.nproc && |Next(w, h, s).harts| == |w.harts|
  {
  }

  lemma InvIs(w: World)
    requires Shaped(w) && PoolOk(w)
    requires forall q :: 0 <= q < w.nproc ==> LockOk(w, q) && RunningOk(w, q) && Exclusive(w, q)
    requires forall h :: 0 <= h < |w.harts| ==> HartOk(w, h)
    ensures Inv(w)
  {
  }

  // ----- what a scan picks --------------------------------------------------------------------

  predicate Eligible(w: World, p: nat) { Shaped(w) && p < w.nproc && w.state[p] == Runnable && w.lock[p] == FREE }

  /** The candidate after the first `i` processes, if nobody interferes. */
  function Scanned(w: World, i: nat): Pick
    requires Shaped(w) && i <= w.nproc
  {
    if i == 0 then Nobody
    else if Eligible(w, i - 1) then Better(w, i - 1, Scanned(w, i - 1)) else Scanned(w, i - 1)
  }

  /** It is the first of those with the least stride, and there is one if any is eligible. */
  lemma {:induction false} ScanPicks(w: World, i: nat)
    requires Shaped(w) && i <= w.nproc
    ensures Scanned(w, i) == Nobody <==> forall q :: 0 <= q < i ==> !Eligible(w, q)
    ensures Scanned(w, i).Best? ==>
      var p := Scanned(w, i).p;
      && p < i && Eligible(w, p) && Scanned(w, i).stride == w.stride[p]
      && (forall q :: 0 <= q < i && Eligible(w, q) ==> w.stride[p] <= w.stride[q])
      && (forall q :: 0 <= q < p && Eligible(w, q) ==> w.stride[p] < w.stride[q])
  {
    if i > 0 {
      ScanPicks(w, i - 1);
    }
  }

  /** Each turn of the loop keeps to it. */
  lemma ScanNext(w: World, h: nat, i: nat)
    requires Enabled(w, h, Test) && i <= w.nproc && w.harts[h] == Scan(i, Scanned(w, i))
    ensures Next(w, h, Test).harts[h] == Scan(i + 1, Scanned(Next(w, h, Test), i + 1))
  {
    SameScan(w, Next(w, h, Test), i + 1);
  }

  lemma {:induction false} SameScan(w: World, w': World, i: nat)
    requires Shaped(w) && Shaped(w') && w'.nproc == w.nproc && i <= w.nproc
    requires w'.state == w.state && w'.stride == w.stride && w'.lock == w.lock
    ensures Scanned(w', i) == Scanned(w, i)
  {
    if i > 0 {
      SameScan(w, w', i - 1);
    }
  }

  // ----- runs -------------------------------------------------------------------------------

  /** All harts in the scheduler, nobody running, no lock taken. */
  ghost predicate Init(w: World) {
    && Shaped(w) && w.pool == FREE && (forall h :: 0 <= h < |w.harts| ==> w.harts[h] == Idle)
    && forall p :: 0 <= p < w.nproc ==> w.state[p] != Running && w.lock[p] == FREE
  }

  datatype Move = Move(hart: nat, step: Step)

  ghost predicate IsRun(ws: seq<World>, ms: seq<Move>) {
    && |ws| == |ms| + 1 && Init(ws[0])
    && forall i :: 0 <= i < |ms| ==> Enabled(ws[i], ms[i].hart, ms[i].step) && ws[i + 1] == Next(ws[i], ms[i].hart, ms[i].step)
  }

  /** The scan tests state and lock of a process in one step. */
  ghost predicate Atomic(ms: seq<Move>) { forall i :: 0 <= i < |ms| ==> !ms[i].step.ReadState? }

  /** In every interleaving no process is run by two harts, and one that is marked as
      running is run by one. */
  lemma {:induction false} OneHartEach(ws: seq<World>, ms: seq<Move>, i: nat)
    requires IsRun(ws, ms) && Atomic(ms) && i < |ws|
    ensures Inv(ws[i])
  {
    if i == 0 {
      assert Inv(ws[0]);
    } else {
      hide Inv, Init;
      OneHartEach(ws, ms, i - 1);
      InvNext(ws[i - 1], ms[i - 1].hart, ms[i - 1].step);
    }
  }

  lemma NeverTwice(ws: seq<World>, ms: seq<Move>, i: nat, g: nat, h: nat, p: nat)
    requires IsRun(ws, ms) && Atomic(ms) && i < |ws| && g < |ws[i].harts| && h < |ws[i].harts| && p < ws[i].nproc
    requires ws[i].harts[g].Has(p) && ws[i].harts[h].Has(p)
    ensures g == h && Shaped(ws[i]) && (ws[i].state[p] == Running ==> ws[i].harts[g].Run?)
  {
    hide IsRun, Atomic;
    OneHartEach(ws, ms, i);
    assert Exclusive(ws[i], p) && RunningOk(ws[i], p);
    if ws[i].state[p] == Running {
      var k :| 0 <= k < |ws[i].harts| && ws[i].harts[k].Run? && ws[i].harts[k].p == p;
      assert ws[i].harts[k].Has(p);
    }
  }

  /** The steps by which a running process takes one more lock, or changes something. */
  predicate Starts(s: Step) { s.LockOther? || s.ProcPool? || s.Change? || s.ChangeOther? }

  ghost predicate CanGoOn(w: World) { exists h: nat, s :: Enabled(w, h, s) && !Starts(s) }

  /** No deadlock: in every interleaving some hart can go on with what it has begun. */
  lemma NoDeadlock(ws: seq<World>, ms: seq<Move>, i: nat)
    requires IsRun(ws, ms) && Atomic(ms) && i < |ws| && |ws[i].harts| > 0
    ensures CanGoOn(ws[i])
  {
    hide IsRun, Atomic;
    OneHartEach(ws, ms, i);
    var w := ws[i];
    PoolHolder(w);
    HartGoesOn(w, if w.pool == FREE then 0 else w.pool);
  }

  lemma PoolHolder(w: World)
    requires Inv(w)
    ensures w.pool == FREE || (0 <= w.pool < |w.harts| && w.harts[w.pool].HoldsPool())
  {
  }

  lemma May(w: World, h: nat, s: Step)
    requires Enabled(w, h, s) && !Starts(s)
    ensures CanGoOn(w)
  {
  }

  lemma HartGoesOn(w: World, h: nat)
    requires Inv(w) && h < |w.harts| && (w.pool == FREE || w.harts[h].HoldsPool())
    ensures CanGoOn(w)
  {
    hide CanGoOn;
    assert HartOk(w, h);
    hide Inv, HartOk;
    match w.harts[h]
    case Idle => May(w, h, TakePool);
    case Scan(i, _) => May(w, h, if i < w.nproc then Test else Choose);
    case Locking(p) =>
      if w.lock[p] == FREE {
        May(w, h, LockPick);
      } else {
        LockHolder(w, p);
        Releases(w, w.lock[p], p);
      }
    case Locked(_) => May(w, h, DropPool);
    case Handing(_) => May(w, h, Dispatch(0));
    case Run(p, own, _, _) =>
      if own {
        Releases(w, h, p);
      } else if w.lock[p] == FREE {
        May(w, h, LockOwn);
      } else {
        LockHolder(w, p);
        Releases(w, w.lock[p], p);
      }
    case Back(_) => May(w, h, GiveBack);
  }

  lemma LockHolder(w: World, q: nat)
    requires Inv(w) && q < w.nproc && w.lock[q] != FREE
    ensures 0 <= w.lock[q] < |w.harts| && w.harts[w.lock[q]].HoldsLock(q)
  {
    assert LockOk(w, q);
  }

  /** Whoever has the lock of a process waits for nothing. */
  lemma Releases(w: World, h: nat, q: nat)
    requires Inv(w) && h < |w.harts| && w.harts[h].HoldsLock(q)
    ensures CanGoOn(w)
  {
    hide CanGoOn;
    assert HartOk(w, h);
    hide Inv;
    match w.harts[h]
    case Locked(_) => May(w, h, DropPool);
    case Handing(_) => May(w, h, Dispatch(0));
    case Back(_) => May(w, h, GiveBack);
    case Run(p, own, others, pool) =>
      if others != {} {
        var x :| x in others;
        May(w, h, UnlockOther(x));
      } else if pool {
        May(w, h, ProcUnpool);
      } else {
        May(w, h, if w.state[p] == Running then UnlockOwn else SwitchOut);
      }
  }

  /** A world of one process and two harts. */
  function Two(state: ProcState, stride: nat, lock: int, pool: int, m0: Mode, m1: Mode): World {
    World(1, [state], [stride], [lock], pool, [m0, m1])
  }

  lemma StepIs(w: World, h: nat, s: Step, w': World)
    requires |w.harts| == 2 && w.nproc == 1 && Shaped(w) && h < 2 && Enabled(w, h, s)
    requires |w'.harts| == 2 && w'.nproc == 1 && Shaped(w')
    requires var n := Next(w, h, s);
      n.state[0] == w'.state[0] && n.stride[0] == w'.stride[0] && n.lock[0] == w'.lock[0] && n.pool == w'.pool
      && n.harts[0] == w'.harts[0] && n.harts[1] == w'.harts[1]
    ensures Next(w, h, s) == w'
  {
    var n := Next(w, h, s);
    assert n.harts == w'.harts && n.state == w'.state && n.stride == w'.stride && n.lock == w'.lock;
  }

  /** Hart 1 picks the process; hart 0 reads its state before hart 1 marks it as running, and
      its lock after hart 1 has released it. */
  function BadWorld(i: nat): World {
    match i
    case 0 => Two(Runnable, 0, FREE, FREE, Idle, Idle)
    case 1 => Two(Runnable, 0, FREE, 1, Idle, Scan(0, Nobody))
    case 2 => Two(Runnable, 0, FREE, 1, Idle, Scan(1, Best(0, 0)))
    case 3 => Two(Runnable, 0, FREE, 1, Idle, Locking(0))
    case 4 => Two(Runnable, 0, 1, 1, Idle, Locked(0))
    case 5 => Two(Runnable, 0, 1, FREE, Idle, Handing(0))
    case 6 => Two(Runnable, 0, 1, 0, Scan(0, Nobody), Handing(0))
    case 7 => Two(Runnable, 0, 1, 0, Seen(0, Nobody), Handing(0))
    case 8 => Two(Running, 0, 1, 0, Seen(0, Nobody), Run(0, true, {}, false))
    case 9 => Two(Running, 0, FREE, 0, Seen(0, Nobody), Run(0, false, {}, false))
    case 10 => Two(Running, 0, FREE, 0, Scan(1, Best(0, 0)), Run(0, false, {}, false))
    case 11 => Two(Running, 0, FREE, 0, Locking(0), Run(0, false, {}, false))
    case _ => Two(Running, 0, 0, 0, Locked(0), Run(0, false, {}, false))
  }

  function BadMove(i: nat): Move {
    match i
    case 0 => Move(1, TakePool)
    case 1 => Move(1, Test)
    case 2 => Move(1, Choose)
    case 3 => Move(1, LockPick)
    case 4 => Move(1, DropPool)
    case 5 => Move(0, TakePool)
    case 6 => Move(0, ReadState)
    case 7 => Move(1, Dispatch(0))
    case 8 => Move(1, UnlockOwn)
    case 9 => Move(0, ReadLock)
    case 10 => Move(0, Choose)
    case _ => Move(0, LockPick)
  }

  lemma BadStep(i: nat)
    requires i < 12
    ensures Enabled(BadWorld(i), BadMove(i).hart, BadMove(i).step)
    ensures Next(BadWorld(i), BadMove(i).hart, BadMove(i).step) == BadWorld(i + 1)
  {
    if i < 6 {
      BadStepEarly(i);
    } else {
      BadStepLate(i);
    }
  }

  lemma BadStepEarly(i: nat)
    requires i < 6
    ensures Enabled(BadWorld(i), BadMove(i).hart, BadMove(i).step)
    ensures Next(BadWorld(i), BadMove(i).hart, BadMove(i).step) == BadWorld(i + 1)
  {
    StepIs(BadWorld(i), BadMove(i).hart, BadMove(i).step, BadWorld(i + 1));
  }

  lemma BadStepLate(i: nat)
    requires 6 <= i < 12
    ensures Enabled(BadWorld(i), BadMove(i).hart, BadMove(i).step)
    ensures Next(BadWorld(i), BadMove(i).hart, BadMove(i).step) == BadWorld(i + 1)
  {
    StepIs(BadWorld(i), BadMove(i).hart, BadMove(i).step, BadWorld(i + 1));
  }

  /** Read one after the other, state and lock can be those of two moments: a process that
      was runnable, then dispatched and unlocked, is picked by a second hart. */
  lemma SplitTestRunsTwice()
    ensures exists ws, ms :: IsRun(ws, ms) && !Atomic(ms) && !Exclusive(ws[|ms|], 0)
  {
    var ws := seq(13, i requires 0 <= i < 13 => BadWorld(i));
    var ms := seq(12, i requires 0 <= i < 12 => BadMove(i));
    hide Enabled, Next;
    forall i | 0 <= i < |ms| ensures Enabled(ws[i], ms[i].hart, ms[i].step) && ws[i + 1] == Next(ws[i], ms[i].hart, ms[i].step) {
      BadStep(i);
    }
    assert IsRun(ws, ms);
    assert ms[6].step.ReadState?;
    assert ws[|ms|].harts[0].Has(0) && ws[|ms|].harts[1].Has(0);
  }
}
