/** The sleeping mutex with sleep, wakeup and kill: any number of processes acquire and
    release one mutex, sleep on it or elsewhere, are woken, killed and created.  Every lock
    operation is a step, and so is what is done under a lock between two of them. */
module SleepMutex {
  const FREE := -1

  datatype Chan = Nothing | Mutex | Elsewhere

  /** Where a process is.  Comments name what it holds. */
  datatype Pc =
    | Unborn                 // alloc_proc has not picked it, or it has not run
    | Outside                // nothing, perhaps the mutex
    | WantGuard              // acquire_mutex_sleep, before the guard
    | Check                  // guard
    | Decided                // guard; in sleep(), before its own lock
    | Falling                // guard, own lock
    | Alone(mu: bool)        // own lock; about to set waiting_target and SLEEPING
    | Set(mu: bool)          // own lock; SLEEPING, about to switch away
    | Gone(mu: bool)         // nothing: asleep, or woken and not yet run
    | Back(mu: bool)         // own lock; runs again
    | WantRelease            // release_mutex_sleep, before the guard; the mutex
    | Releasing              // guard; the mutex
    | Opened                 // guard; locked is 0, before creating_lock
    | Waking(i: nat)         // guard, creating_lock
    | WakeOne(i: nat)        // guard, creating_lock, the lock of process i
    | Closing                // guard
    | Killing(q: nat)        // the lock of process q
  {
    predicate Guards() { Check? || Decided? || Falling? || Releasing? || Opened? || Waking? || WakeOne? || Closing? }

    predicate OwnLock() { Falling? || Alone? || Set? || Back? }

    predicate LocksOther(q: nat) { (WakeOne? && i == q) || (Killing? && this.q == q) }

    /** A release has set locked to 0 and its wakeup has not passed process `p`. */
    predicate WillWake(p: nat) { Opened? || ((Waking? || WakeOne?) && i <= p) }
  }

  datatype Proc = Proc(pc: Pc, sleeping: bool, chan: Chan)

  /** `has` are the processes between the return of acquire and their release. */
  datatype World = World(ps: seq<Proc>, lock: seq<int>, guard: int, creatingLock: int, creating: int, locked: bool, has: set<nat>)

  datatype Step =
    | Create(q: nat) | Born | CallAcquire | TakeGuard | TestLocked | LockSelf | DropGuard | MarkAsleep | SwitchAway | Resume | Tidy
    | SleepElsewhere | CallRelease | Open | TakeCreating | Pass | LockOne | WakeIt | EndWakeup | DropGuardLast
    | LockVictim(q: nat) | KillIt

  predicate Shaped(w: World) { |w.ps| == |w.lock| }

  predicate Enabled(w: World, p: nat, s: Step) {
    && Shaped(w) && p < |w.ps|
    && var pc := w.ps[p].pc;
       match s
       case Create(q) => pc.Outside? && q < |w.ps| && w.ps[q].pc.Unborn? && w.creating == FREE && w.creatingLock == FREE
       case Born => pc.Unborn? && w.creating == p && w.creatingLock == FREE && w.lock[p] == FREE
       case CallAcquire => pc.Outside? && p !in w.has
       case TakeGuard => (pc.WantGuard? || pc.WantRelease?) && w.guard == FREE
       case TestLocked => pc.Check?
       case LockSelf => pc.Decided? && w.lock[p] == FREE
       case DropGuard => pc.Falling?
       case MarkAsleep => pc.Alone?
       case SwitchAway => pc.Set?
       case Resume => pc.Gone? && !w.ps[p].sleeping && w.lock[p] == FREE
       case Tidy => pc.Back?
       case SleepElsewhere => pc.Outside? && w.lock[p] == FREE
       case CallRelease => pc.Outside? && p in w.has
       case Open => pc.Releasing?
       case TakeCreating => pc.Opened? && w.creatingLock == FREE
       case Pass => pc.Waking? && pc.i < |w.ps| && (pc.i == p || pc.i == w.creating)
       case LockOne => pc.Waking? && pc.i < |w.ps| && pc.i != p && pc.i != w.creating && w.lock[pc.i] == FREE
       case WakeIt => pc.WakeOne? && pc.i < |w.ps|
       case EndWakeup => pc.Waking? && pc.i >= |w.ps|
       case DropGuardLast => pc.Closing?
       case LockVictim(q) => pc.Outside? && q < |w.ps| && q != p && w.lock[q] == FREE
       case KillIt => pc.Killing? && pc.q < |w.ps|
  }

  function At(w: World, p: nat, pc: Pc): World
    requires p < |w.ps|
  {
    w.(ps := w.ps[p := w.ps[p].(pc := pc)])
  }

  function Wake(w: World, q: nat): World
    requires q < |w.ps|
  {
    w.(ps := w.ps[q := w.ps[q].(sleeping := false)])
  }

  function Next(w: World, p: nat, s: Step): World
    requires Enabled(w, p, s)
  {
    var pc := w.ps[p].pc;
    match s
    case Create(q) => w.(creating := q)
    case Born => At(w.(creating := FREE), p, Outside)
    case CallAcquire => At(w, p, WantGuard)
    case TakeGuard => At(w.(guard := p), p, if pc.WantGuard? then Check else Releasing)
    case TestLocked =>
      if w.locked then At(w, p, Decided) else At(w.(locked := true, has := w.has + {p}, guard := FREE), p, Outside)
    case LockSelf => At(w.(lock := w.lock[p := p]), p, Falling)
    case DropGuard => At(w.(guard := FREE), p, Alone(true))
    case MarkAsleep => w.(ps := w.ps[p := Proc(Set(pc.mu), true, if pc.mu then Mutex else Elsewhere)])
    case SwitchAway => At(w.(lock := w.lock[p := FREE]), p, Gone(pc.mu))
    case Resume => At(w.(lock := w.lock[p := p]), p, Back(pc.mu))
    case Tidy => w.(ps := w.ps[p := Proc(if pc.mu then WantGuard else Outside, false, Nothing)], lock := w.lock[p := FREE])
    case SleepElsewhere => At(w.(lock := w.lock[p := p]), p, Alone(false))
    case CallRelease => At(w, p, WantRelease)
    case Open => At(w.(locked := false, has := w.has - {p}), p, Opened)
    case TakeCreating => At(w.(creatingLock := p), p, Waking(0))
    case Pass => At(w, p, Waking(pc.i + 1))
    case LockOne => At(w.(lock := w.lock[pc.i := p]), p, WakeOne(pc.i))
    case WakeIt =>
      var w1 := if w.ps[pc.i].sleeping && w.ps[pc.i].chan == Mutex then Wake(w, pc.i) else w;
      At(w1.(lock := w.lock[pc.i := FREE]), p, Waking(pc.i + 1))
    case EndWakeup => At(w.(creatingLock := FREE), p, Closing)
    case DropGuardLast => At(w.(guard := FREE), p, Outside)
    case LockVictim(q) => At(w.(lock := w.lock[q := p]), p, Killing(q))
    case KillIt =>
      var w1 := if w.ps[pc.q].sleeping then Wake(w, pc.q) else w;
      At(w1.(lock := w.lock[pc.q := FREE]), p, Outside)
  }

  // ----- the invariant ----------------------------------------------------------------------

  /** The guard and creating_lock have the holder they say they have. */
  ghost predicate GuardOk(w: World, p: nat)
    requires p < |w.ps|
  {
    && (w.ps[p].pc.Guards() <==> w.guard == p)
    && ((w.ps[p].pc.Waking? || w.ps[p].pc.WakeOne?) <==> w.creatingLock == p)
  }

  ghost predicate InRange(x: int, n: nat) { x == FREE || 0 <= x < n }

  /** So has the lock of each process. */
  ghost predicate LockOk(w: World, q: nat, p: nat)
    requires Shaped(w) && q < |w.ps| && p < |w.ps|
  {
    if p == q then w.ps[q].pc.OwnLock() <==> w.lock[q] == q else w.ps[p].pc.LocksOther(q) <==> w.lock[q] == p
  }

  /** A process that sleeps on the mutex, or is past the point where it could notice. */
  predicate Committed(x: Proc) { x.pc == Alone(true) || (x.sleeping && x.chan == Mutex) }

  ghost predicate ProcOk(w: World, p: nat)
    requires p < |w.ps|
  {
    var x := w.ps[p];
    && (x.sleeping ==> x.pc.Set? || x.pc.Gone?)
    && ((x.pc.Set? || x.pc.Gone?) && x.sleeping ==> x.chan == if x.pc.mu then Mutex else Elsewhere)
    && (x.pc.Decided? || x.pc.Falling? ==> w.locked)
    && (x.pc.WantRelease? || x.pc.Releasing? ==> p in w.has)
    && (p in w.has ==> x.pc.Outside? || x.pc.WantRelease? || x.pc.Releasing? || x.pc.Killing?
                       || ((x.pc.Alone? || x.pc.Set? || x.pc.Gone? || x.pc.Back?) && !x.pc.mu))
    && (w.creating == p ==> x.pc.Unborn?)
    && (x.pc.WakeOne? ==> x.pc.i != p) && (x.pc.Killing? ==> x.pc.q != p)
    && (Committed(x) ==> w.locked || exists r :: 0 <= r < |w.ps| && w.ps[r].pc.WillWake(p))
  }

  /** A process whose lock another one has taken exists. */
  ghost predicate TargetOk(w: World, p: nat)
    requires p < |w.ps|
  {
    (w.ps[p].pc.WakeOne? ==> w.ps[p].pc.i < |w.ps|) && (w.ps[p].pc.Killing? ==> w.ps[p].pc.q < |w.ps|)
  }

  /** Mutual exclusion: locked says exactly that some process has the mutex, and it is one. */
  ghost predicate MutexOk(w: World) {
    && (forall p :: p in w.has ==> p < |w.ps|)
    && (forall p, q :: p in w.has && q in w.has ==> p == q)
    && (w.locked <==> w.has != {})
  }

  ghost predicate Inv(w: World) {
    && Shaped(w) && MutexOk(w) && InRange(w.guard, |w.ps|) && InRange(w.creatingLock, |w.ps|)
    && (forall p :: 0 <= p < |w.ps| ==> GuardOk(w, p) && ProcOk(w, p) && TargetOk(w, p) && InRange(w.lock[p], |w.ps|))
    && (forall p, q :: 0 <= p < |w.ps| && 0 <= q < |w.ps| ==> LockOk(w, q, p))
  }

  /** The steps that take or release the lock of a process. */
  predicate OnLocks(s: Step) {
    || s.LockSelf? || s.SwitchAway? || s.Resume? || s.Tidy? || s.SleepElsewhere? || s.LockOne? || s.WakeIt? || s.LockVictim? || s.KillIt?
  }

  /** The steps that take or release the guard or creating_lock, or change the mutex. */
  predicate OnGuards(s: Step) {
    || s.TakeGuard? || s.TestLocked? || s.DropGuard? || s.Open? || s.TakeCreating? || s.EndWakeup? || s.DropGuardLast?
  }

  lemma NextGuard(w: World, p: nat, s: Step, r: nat)
    requires Inv(w) && Enabled(w, p, s) && r < |w.ps|
    ensures GuardOk(Next(w, p, s), r)
  {
    assert GuardOk(w, r) && GuardOk(w, p) && ProcOk(w, p);
    hide Inv;
    if OnGuards(s) {
      GuardsOnGuards(w, p, s, r);
    } else if OnLocks(s) {
      GuardsOnLocks(w, p, s, r);
    }
  }

  lemma GuardsOnGuards(w: World, p: nat, s: Step, r: nat)
    requires Enabled(w, p, s) && r < |w.ps| && OnGuards(s) && GuardOk(w, r) && GuardOk(w, p)
    ensures GuardOk(Next(w, p, s), r)
  {
  }

  lemma GuardsOnLocks(w: World, p: nat, s: Step, r: nat)
    requires Enabled(w, p, s) && r < |w.ps| && OnLocks(s) && GuardOk(w, r) && GuardOk(w, p)
    ensures GuardOk(Next(w, p, s), r)
  {
  }

  lemma NextMutex(w: World, p: nat, s: Step)
    requires Inv(w) && Enabled(w, p, s)
    ensures MutexOk(Next(w, p, s))
  {
    assert ProcOk(w, p);
  }

  lemma NextLock(w: World, p: nat, s: Step, q: nat, r: nat)
    requires Inv(w) && Enabled(w, p, s) && q < |w.ps| && r < |w.ps|
    ensures LockOk(Next(w, p, s), q, r) && InRange(Next(w, p, s).lock[q], |w.ps|)
  {
    assert LockOk(w, q, r) && LockOk(w, q, p) && LockOk(w, q, q) && ProcOk(w, p);
    assert InRange(w.lock[q], |w.ps|);
    hide Inv, Committed;
    if OnLocks(s) {
      LocksOnLocks(w, p, s, q, r);
    } else {
      LocksElse(w, p, s, q, r);
    }
  }

  /** Those that release it. */
  predicate Unlocks(s: Step) { s.SwitchAway? || s.Tidy? || s.WakeIt? || s.KillIt? }

  lemma LocksOnLocks(w: World, p: nat, s: Step, q: nat, r: nat)
    requires Enabled(w, p, s) && q < |w.ps| && r < |w.ps| && OnLocks(s) && InRange(w.lock[q], |w.ps|)
    requires LockOk(w, q, r) && LockOk(w, q, p) && LockOk(w, q, q)
    requires w.ps[p].pc.WakeOne? ==> w.ps[p].pc.i != p
    requires w.ps[p].pc.Killing? ==> w.ps[p].pc.q != p
    ensures LockOk(Next(w, p, s), q, r) && InRange(Next(w, p, s).lock[q], |w.ps|)
  {
    hide LockOk, Next;
    if Unlocks(s) {
      LocksFreed(w, p, s, q, r);
    } else {
      LocksTaken(w, p, s, q, r);
    }
  }

  lemma LocksTaken(w: World, p: nat, s: Step, q: nat, r: nat)
    requires Enabled(w, p, s) && q < |w.ps| && r < |w.ps| && OnLocks(s) && !Unlocks(s) && InRange(w.lock[q], |w.ps|)
    requires LockOk(w, q, r) && LockOk(w, q, p) && LockOk(w, q, q)
    ensures LockOk(Next(w, p, s), q, r) && InRange(Next(w, p, s).lock[q], |w.ps|)
  {
  }

  lemma LocksFreed(w: World, p: nat, s: Step, q: nat, r: nat)
    requires Enabled(w, p, s) && q < |w.ps| && r < |w.ps| && Unlocks(s) && InRange(w.lock[q], |w.ps|)
    requires LockOk(w, q, r) && LockOk(w, q, p) && LockOk(w, q, q)
    requires w.ps[p].pc.WakeOne? ==> w.ps[p].pc.i != p
    requires w.ps[p].pc.Killing? ==> w.ps[p].pc.q != p
    ensures LockOk(Next(w, p, s), q, r) && InRange(Next(w, p, s).lock[q], |w.ps|)
  {
  }

  lemma LocksElse(w: World, p: nat, s: Step, q: nat, r: nat)
    requires Enabled(w, p, s) && q < |w.ps| && r < |w.ps| && !OnLocks(s) && LockOk(w, q, r) && InRange(w.lock[q], |w.ps|)
    ensures LockOk(Next(w, p, s), q, r) && InRange(Next(w, p, s).lock[q], |w.ps|)
  {
  }

  /** The process that moves. */
  lemma NextSelf(w: World, p: nat, s: Step)
    requires Inv(w) && Enabled(w, p, s)
    ensures ProcOk(Next(w, p, s), p)
  {
    assert ProcOk(w, p) && GuardOk(w, p) && MutexOk(w);
    hide Inv;
    if OnLocks(s) {
      SelfOnLocks(w, p, s);
    } else {
      SelfElse(w, p, s);
    }
  }

  lemma SelfOnLocks(w: World, p: nat, s: Step)
    requires Enabled(w, p, s) && OnLocks(s) && ProcOk(w, p) && MutexOk(w)
    ensures ProcOk(Next(w, p, s), p)
  {
    var w' := Next(w, p, s);
    if Committed(w'.ps[p]) && !w'.locked {
      var r :| 0 <= r < |w.ps| && w.ps[r].pc.WillWake(p);
      assert w'.ps[r].pc.WillWake(p);
    }
  }

  lemma SelfElse(w: World, p: nat, s: Step)
    requires Enabled(w, p, s) && !OnLocks(s) && ProcOk(w, p) && GuardOk(w, p) && MutexOk(w)
    ensures ProcOk(Next(w, p, s), p)
  {
    var w' := Next(w, p, s);
    if Committed(w'.ps[p]) && !w'.locked {
      var r :| 0 <= r < |w.ps| && w.ps[r].pc.WillWake(p);
      assert w'.ps[r].pc.WillWake(p);
    }
  }

  /** Another process: it may have been woken, and who will wake it may have moved on. */
  lemma NextOther(w: World, p: nat, s: Step, q: nat)
    requires Inv(w) && Enabled(w, p, s) && q < |w.ps| && q != p
    ensures ProcOk(Next(w, p, s), q)
  {
    assert LockOk(w, q, p) && LockOk(w, q, q) && ProcOk(w, q) && ProcOk(w, p) && GuardOk(w, p) && GuardOk(w, q);
    assert MutexOk(w);
    if Committed(Next(w, p, s).ps[q]) {
      WokenLater(w, p, s, q);
    }
    hide Inv;
    OtherElse(w, p, s, q);
  }

  lemma OtherElse(w: World, p: nat, s: Step, q: nat)
    requires Enabled(w, p, s) && q < |w.ps| && q != p && ProcOk(w, q) && ProcOk(w, p) && GuardOk(w, p) && GuardOk(w, q) && MutexOk(w)
    requires Committed(Next(w, p, s).ps[q]) ==>
      Next(w, p, s).locked || exists r :: 0 <= r < |w.ps| && Next(w, p, s).ps[r].pc.WillWake(q)
    ensures ProcOk(Next(w, p, s), q)
  {
    if OnLocks(s) {
      OtherOnLocks(w, p, s, q);
    }
  }

  lemma OtherOnLocks(w: World, p: nat, s: Step, q: nat)
    requires Enabled(w, p, s) && OnLocks(s) && q < |w.ps| && q != p && ProcOk(w, q) && MutexOk(w)
    requires Committed(Next(w, p, s).ps[q]) ==>
      Next(w, p, s).locked || exists r :: 0 <= r < |w.ps| && Next(w, p, s).ps[r].pc.WillWake(q)
    ensures ProcOk(Next(w, p, s), q)
  {
  }

  /** Who sleeps on the mutex while it is free is still to be woken. */
  lemma WokenLater(w: World, p: nat, s: Step, q: nat)
    requires Inv(w) && Enabled(w, p, s) && q < |w.ps| && q != p && Committed(Next(w, p, s).ps[q])
    ensures var w' := Next(w, p, s); w'.locked || exists r :: 0 <= r < |w'.ps| && w'.ps[r].pc.WillWake(q)
  {
    assert LockOk(w, q, p) && LockOk(w, q, q) && ProcOk(w, q) && ProcOk(w, p);
    StillWoken(w, p, s, q);
  }

  lemma StillWoken(w: World, p: nat, s: Step, q: nat)
    requires Enabled(w, p, s) && q < |w.ps| && q != p && Committed(Next(w, p, s).ps[q])
    requires LockOk(w, q, p) && LockOk(w, q, q) && ProcOk(w, q) && ProcOk(w, p)
    ensures var w' := Next(w, p, s); w'.locked || exists r :: 0 <= r < |w'.ps| && w'.ps[r].pc.WillWake(q)
  {
    var w' := Next(w, p, s);
    if !w'.locked {
      if w.locked {
        assert w'.ps[p].pc.WillWake(q);
      } else {
        var r :| 0 <= r < |w.ps| && w.ps[r].pc.WillWake(q);
        assert w'.ps[r].pc.WillWake(q);
      }
    }
  }

  /** The locks themselves are held by processes that exist. */
  lemma NextRange(w: World, p: nat, s: Step)
    requires Inv(w) && Enabled(w, p, s)
    ensures var w' := Next(w, p, s);
      Shaped(w') && |w'.ps| == |w.ps| && InRange(w'.guard, |w.ps|) && InRange(w'.creatingLock, |w.ps|)
  {
    if OnGuards(s) {
      RangeOnGuards(w, p, s);
    } else {
      RangeElse(w, p, s);
    }
  }

  lemma RangeOnGuards(w: World, p: nat, s: Step)
    requires Enabled(w, p, s) && OnGuards(s) && InRange(w.guard, |w.ps|) && InRange(w.creatingLock, |w.ps|)
    ensures var w' := Next(w, p, s);
      Shaped(w') && |w'.ps| == |w.ps| && InRange(w'.guard, |w.ps|) && InRange(w'.creatingLock, |w.ps|)
  {
  }

  lemma RangeElse(w: World, p: nat, s: Step)
    requires Enabled(w, p, s) && !OnGuards(s)
    ensures var w' := Next(w, p, s);
      Shaped(w') && |w'.ps| == |w.ps| && w'.guard == w.guard && (w'.creatingLock == w.creatingLock || w'.creatingLock == FREE)
  {
  }

  lemma NextProc(w: World, p: nat, s: Step, r: nat)
    requires Inv(w) && Enabled(w, p, s) && r < |w.ps|
    ensures |Next(w, p, s).ps| == |w.ps| && ProcOk(Next(w, p, s), r)
  {
    NextRange(w, p, s);
    hide Inv, ProcOk;
    if r == p {
      NextSelf(w, p, s);
    } else {
      NextOther(w, p, s, r);
    }
  }

  /** Every step of every process keeps the invariant. */
  lemma InvNext(w: World, p: nat, s: Step)
    requires Inv(w) && Enabled(w, p, s)
    ensures Inv(Next(w, p, s))
  {
    hide GuardOk, ProcOk, LockOk, MutexOk, Next, Enabled;
    NextRange(w, p, s);
    NextMutex(w, p, s);
    var w' := Next(w, p, s);
    forall r | 0 <= r < |w'.ps|
      ensures GuardOk(w', r) && ProcOk(w', r) && TargetOk(w', r) && InRange(w'.lock[r], |w'.ps|)
    {
      NextTarget(w, p, s, r);
      NextGuard(w, p, s, r);
      NextProc(w, p, s, r);
      NextLock(w, p, s, r, r);
    }
    forall r, q | 0 <= r < |w'.ps| && 0 <= q < |w'.ps|
      ensures LockOk(w', q, r)
    {
      NextLock(w, p, s, q, r);
    }
  }

  lemma NextTarget(w: World, p: nat, s: Step, r: nat)
    requires Inv(w) && Enabled(w, p, s) && r < |w.ps|
    ensures |Next(w, p, s).ps| == |w.ps| && TargetOk(Next(w, p, s), r)
  {
    hide Inv;
    Target(w, r);
  }

  // ----- every run --------------------------------------------------------------------------

  /** At the start nothing is locked, nobody sleeps, and processes exist or are yet to. */
  ghost predicate Init(w: World) {
    && Shaped(w) && w.guard == FREE && w.creatingLock == FREE && w.creating == FREE && !w.locked && w.has == {}
    && forall p :: 0 <= p < |w.ps| ==> w.lock[p] == FREE && !w.ps[p].sleeping && (w.ps[p].pc.Unborn? || w.ps[p].pc.Outside?)
  }

  ghost predicate Move(w: World, w': World) {
    exists p: nat, s :: Enabled(w, p, s) && w' == Next(w, p, s)
  }

  /** A run: any process does any step it can, as often as it likes. */
  ghost predicate IsRun(ws: seq<World>) {
    && |ws| > 0 && Init(ws[0])
    && forall k :: 0 <= k < |ws| - 1 ==> Move(ws[k], ws[k + 1])
  }

  lemma {:induction false} RunInv(ws: seq<World>)
    requires IsRun(ws)
    ensures Inv(ws[|ws| - 1])
  {
    if |ws| == 1 {
    } else {
      var before := ws[..|ws| - 1];
      assert IsRun(before) by {
        forall k | 0 <= k < |before| - 1
          ensures Move(before[k], before[k + 1])
        {
          assert Move(ws[k], ws[k + 1]);
        }
      }
      RunInv(before);
      var w := ws[|ws| - 2];
      assert Move(w, ws[|ws| - 2 + 1]);
      var p: nat, s :| Enabled(w, p, s) && ws[|ws| - 1] == Next(w, p, s);
      InvNext(w, p, s);
    }
  }

  /** In every reachable state at most one process is between acquiring and releasing the
      mutex, and `locked` says whether one is. */
  lemma MutualExclusion(ws: seq<World>)
    requires IsRun(ws)
    ensures var w := ws[|ws| - 1];
      && (forall p, q :: p in w.has && q in w.has ==> p == q)
      && (w.locked <==> w.has != {})
  {
    RunInv(ws);
  }

  /** No release is between setting `locked` to 0 and the end of its wakeup. */
  predicate NoRelease(w: World) {
    forall r :: 0 <= r < |w.ps| ==> !w.ps[r].pc.Opened? && !w.ps[r].pc.Waking? && !w.ps[r].pc.WakeOne?
  }

  predicate SleepsOnMutex(w: World, p: nat) {
    p < |w.ps| && w.ps[p].sleeping && w.ps[p].chan == Mutex
  }

  /** While the mutex is free, whoever sleeps on it is ahead of the scan of a release that
      is under way: that release will still reach it. */
  lemma SleeperIsAhead(w: World, p: nat)
    requires Inv(w) && SleepsOnMutex(w, p) && !w.locked
    ensures exists r :: 0 <= r < |w.ps| && w.ps[r].pc.WillWake(p)
  {
    assert ProcOk(w, p);
  }

  /** In every reachable state, who tests a free mutex has it then, alone. */
  lemma TakesFree(ws: seq<World>, p: nat)
    requires IsRun(ws) && Enabled(ws[|ws| - 1], p, TestLocked) && !ws[|ws| - 1].locked
    ensures var w' := Next(ws[|ws| - 1], p, TestLocked); w'.has == {p} && w'.locked && w'.guard == FREE && w'.ps[p].pc == Outside
  {
    RunInv(ws);
    assert MutexOk(ws[|ws| - 1]);
  }

  /** In the middle of something, and neither asleep nor waiting to be created. */
  predicate Begun(x: Proc) { !x.pc.Unborn? && !x.pc.Outside? && !(x.pc.Gone? && x.sleeping) }

  /** The steps by which a process begins something new. */
  predicate Starts(s: Step) { s.Create? || s.CallAcquire? || s.SleepElsewhere? || s.CallRelease? || s.LockVictim? }

  ghost predicate CanGoOn(w: World) { exists q: nat, s :: Enabled(w, q, s) && !Starts(s) }

  /** No deadlock: in every reachable state where a process is in the middle of something, some
      process can go on with what it has begun. */
  lemma NoDeadlock(ws: seq<World>, p: nat)
    requires IsRun(ws) && p < |ws[|ws| - 1].ps| && Begun(ws[|ws| - 1].ps[p])
    ensures CanGoOn(ws[|ws| - 1])
  {
    RunInv(ws);
    var w := ws[|ws| - 1];
    hide Inv;
    if (w.ps[p].pc.WantGuard? || w.ps[p].pc.WantRelease?) && w.guard != FREE {
      GuardHolder(w);
      GoesOn(w, w.guard);
    } else {
      GoesOn(w, p);
    }
  }

  lemma GuardHolder(w: World)
    requires Inv(w) && w.guard != FREE
    ensures 0 <= w.guard < |w.ps| && w.ps[w.guard].pc.Guards()
  {
    assert GuardOk(w, w.guard);
  }

  /** Whoever does not wait for the guard can go on, or has a lock before it whose holder can. */
  lemma GoesOn(w: World, p: nat)
    requires Inv(w) && p < |w.ps| && Begun(w.ps[p])
    requires w.guard == FREE || !(w.ps[p].pc.WantGuard? || w.ps[p].pc.WantRelease?)
    ensures CanGoOn(w)
  {
    hide CanGoOn, Inv;
    Target(w, p);
    match w.ps[p].pc
    case WantGuard => May(w, p, TakeGuard);
    case WantRelease => May(w, p, TakeGuard);
    case Decided => LockBefore(w, p, p, LockSelf);
    case Gone(_) => LockBefore(w, p, p, Resume);
    case Opened => CreatingFree(w, p); May(w, p, TakeCreating);
    case Waking(i) =>
      if i >= |w.ps| {
        May(w, p, EndWakeup);
      } else if i == p || i == w.creating {
        May(w, p, Pass);
      } else {
        LockBefore(w, p, i, LockOne);
      }
    case _ => Free(w, p);
  }

  /** These wait for nothing. */
  lemma Free(w: World, p: nat)
    requires Shaped(w) && p < |w.ps| && TargetOk(w, p)
    requires var pc := w.ps[p].pc;
      || pc.Check? || pc.Falling? || pc.Alone? || pc.Set? || pc.Back? || pc.Releasing? || pc.WakeOne? || pc.Closing? || pc.Killing?
    ensures CanGoOn(w)
  {
    hide CanGoOn;
    match w.ps[p].pc
    case Check => May(w, p, TestLocked);
    case Falling => May(w, p, DropGuard);
    case Alone(_) => May(w, p, MarkAsleep);
    case Set(_) => May(w, p, SwitchAway);
    case Back(_) => May(w, p, Tidy);
    case Releasing => May(w, p, Open);
    case WakeOne(_) => May(w, p, WakeIt);
    case Closing => May(w, p, DropGuardLast);
    case Killing(_) => May(w, p, KillIt);
  }

  lemma May(w: World, p: nat, s: Step)
    requires Enabled(w, p, s) && !Starts(s)
    ensures CanGoOn(w)
  {
  }

  lemma Target(w: World, p: nat)
    requires Inv(w) && p < |w.ps|
    ensures Shaped(w) && TargetOk(w, p)
  {
  }

  lemma CreatingFree(w: World, p: nat)
    requires Inv(w) && p < |w.ps| && w.ps[p].pc.Opened?
    ensures w.creatingLock == FREE
  {
    assert GuardOk(w, p);
    CreatingHolder(w);
  }

  lemma CreatingHolder(w: World)
    requires Inv(w)
    ensures w.creatingLock != FREE ==> 0 <= w.creatingLock < |w.ps| && w.guard == w.creatingLock && !w.ps[w.creatingLock].pc.Opened?
  {
    if w.creatingLock != FREE {
      assert InRange(w.creatingLock, |w.ps|) && GuardOk(w, w.creatingLock);
    }
  }

  /** `p` waits for the lock of process `q`. */
  lemma LockBefore(w: World, p: nat, q: nat, s: Step)
    requires Inv(w) && p < |w.ps| && q < |w.ps| && !Starts(s) && (w.lock[q] == FREE ==> Enabled(w, p, s))
    requires if p == q then !w.ps[p].pc.OwnLock() else w.ps[p].pc.Waking?
    ensures CanGoOn(w)
  {
    hide CanGoOn;
    if w.lock[q] == FREE {
      May(w, p, s);
    } else {
      LockHolder(w, q);
      var h := w.lock[q];
      assert GuardOk(w, p) && GuardOk(w, h);
      Target(w, h);
      Free(w, h);
    }
  }

  lemma LockHolder(w: World, q: nat)
    requires Inv(w) && q < |w.ps| && w.lock[q] != FREE
    ensures 0 <= w.lock[q] < |w.ps|
    ensures if w.lock[q] == q then w.ps[q].pc.OwnLock() else w.ps[w.lock[q]].pc.LocksOther(q)
  {
    assert InRange(w.lock[q], |w.ps|) && LockOk(w, q, w.lock[q]);
  }

  /** No wakeup is lost: in every reachable state where the mutex is free and no release is
      under way, nobody sleeps on it. */
  lemma NoLostWakeup(ws: seq<World>)
    requires IsRun(ws)
    ensures var w := ws[|ws| - 1]; !w.locked && NoRelease(w) ==> forall p: nat :: !SleepsOnMutex(w, p)
  {
    RunInv(ws);
    var w := ws[|ws| - 1];
    hide Inv, SleepsOnMutex;
    forall p: nat
      ensures SleepsOnMutex(w, p) && !w.locked ==> !NoRelease(w)
    {
      if SleepsOnMutex(w, p) && !w.locked {
        SleeperIsAhead(w, p);
      }
    }
  }
}
