/** The buffer cache under concurrent use: processes read and write sectors through buffers
    they count references to and lock one at a time.  What is done under the cache's spin
    lock is one step, and so is each thing a process does while it has a buffer's mutex. */
module SharedBuffers {
  import opened FatLayout

  const FREE := -1
  const NO_BLOCK := -1

  datatype Job = Read(k: nat) | Write(k: nat, new': Sector)

  /** A buffer: `block` is NO_BLOCK while it holds none, `owner` has its mutex. */
  datatype Cell = Cell(block: int, valid: bool, refs: nat, owner: int, data: Sector)

  datatype Pc =
    | Outside
    | Waiting(b: nat, job: Job)      // a reference
    | Holding(b: nat, job: Job)      // and the mutex
    | Ready(b: nat, job: Job)        // and the contents
    | Copied(b: nat, job: Job)       // new contents, not yet on the disk
    | Done(b: nat, job: Job)
    | Dropped(b: nat, job: Job)      // the mutex given back
  {
    predicate Owns(x: nat) { (Holding? || Ready? || Copied? || Done?) && b == x }

    predicate Uses(x: nat) { !Outside? && b == x }
  }

  /** `plain` is the disk as the processes should see it: a write changes it at once. */
  datatype World = World(cells: seq<Cell>, disk: seq<Sector>, ps: seq<Pc>, plain: seq<Sector>)

  datatype Step = Get(b: nat, job: Job) | Lock | ReadIn | CopyOut | CopyIn | WriteOut | Unlock | Drop

  /** `acquire_buf`: the buffer that has the block, or any without references if none has. */
  predicate CanGet(w: World, b: nat, k: nat) {
    && b < |w.cells| && k < |w.disk|
    && (w.cells[b].block == k
        || (w.cells[b].refs == 0 && forall c :: 0 <= c < |w.cells| ==> w.cells[c].block != k))
  }

  predicate Enabled(w: World, p: nat, s: Step) {
    && p < |w.ps|
    && var pc := w.ps[p];
       if s.Get? then pc.Outside? && CanGet(w, s.b, s.job.k)
       else !pc.Outside? && About(w, p, pc.b, pc.job.k) && Ripe(w, pc, s)
  }

  predicate About(w: World, p: nat, b: nat, k: nat) {
    p < |w.ps| && !w.ps[p].Outside? && b == w.ps[p].b < |w.cells| && k == w.ps[p].job.k < |w.disk| == |w.plain|
  }

  predicate Ripe(w: World, pc: Pc, s: Step)
    requires !pc.Outside? && pc.b < |w.cells|
  {
    match s
    case Get(_, _) => false
    case Lock => pc.Waiting? && w.cells[pc.b].owner == FREE
    case ReadIn => pc.Holding?
    case CopyOut => pc.Ready? && pc.job.Read?
    case CopyIn => pc.Ready? && pc.job.Write?
    case WriteOut => pc.Copied? && pc.job.Write?
    case Unlock => pc.Done?
    case Drop => pc.Dropped? && w.cells[pc.b].refs > 0
  }

  function Put(w: World, p: nat, pc: Pc, b: nat, c: Cell): World
    requires p < |w.ps| && b < |w.cells|
  {
    w.(ps := w.ps[p := pc], cells := w.cells[b := c])
  }

  function Next(w: World, p: nat, s: Step): World
    requires Enabled(w, p, s)
  {
    if s.Get? then
      var c := w.cells[s.b];
      Put(w, p, Waiting(s.b, s.job), s.b,
        if c.block == s.job.k then c.(refs := c.refs + 1) else c.(block := s.job.k, valid := false, refs := 1))
    else
      var pc := w.ps[p];
      var c := w.cells[pc.b];
      match s
      case Lock => Put(w, p, Holding(pc.b, pc.job), pc.b, c.(owner := p))
      case ReadIn => Put(w, p, Ready(pc.b, pc.job), pc.b, if c.valid then c else c.(data := w.disk[pc.job.k], valid := true))
      case CopyOut => Put(w, p, Done(pc.b, pc.job), pc.b, c)
      case CopyIn =>
        Put(w.(plain := w.plain[pc.job.k := pc.job.new']), p, Copied(pc.b, pc.job), pc.b, c.(data := pc.job.new'))
      case WriteOut => Put(w.(disk := w.disk[pc.job.k := c.data]), p, Done(pc.b, pc.job), pc.b, c)
      case Unlock => Put(w, p, Dropped(pc.b, pc.job), pc.b, c.(owner := FREE))
      case Drop => Put(w, p, Outside, pc.b, c.(refs := c.refs - 1))
  }

  // ----- the invariant ----------------------------------------------------------------------

  function Users(ps: seq<Pc>, b: nat): set<nat> { set p: nat | p < |ps| && ps[p].Uses(b) }

  /** References are counted, the mutex has one owner, valid contents are the plain disk's. */
  ghost predicate CellOk(w: World, b: nat) {
    b < |w.cells| ==>
      && w.cells[b].refs == |Users(w.ps, b)|
      && NO_BLOCK <= w.cells[b].block < |w.plain|
      && (w.cells[b].valid ==> 0 <= w.cells[b].block && w.cells[b].data == w.plain[w.cells[b].block])
  }

  ghost predicate OwnerOk(w: World, b: nat, p: nat) {
    b < |w.cells| && p < |w.ps| ==> (w.ps[p].Owns(b) <==> w.cells[b].owner == p)
  }

  ghost predicate OwnerExists(w: World, b: nat) {
    b < |w.cells| ==> w.cells[b].owner == FREE || 0 <= w.cells[b].owner < |w.ps|
  }

  /** A buffer in use keeps its block. */
  ghost predicate PcOk(w: World, p: nat) {
    p < |w.ps| && !w.ps[p].Outside? ==>
      && w.ps[p].b < |w.cells| && w.cells[w.ps[p].b].block == w.ps[p].job.k < |w.disk|
      && (w.ps[p].Ready? || w.ps[p].Copied? || w.ps[p].Done? ==> w.cells[w.ps[p].b].valid)
      && (w.ps[p].Copied? ==> w.ps[p].job.Write?)
  }

  ghost predicate Apart(w: World, b: nat, c: nat) {
    b < |w.cells| && c < |w.cells| && w.cells[b].block == w.cells[c].block && w.cells[b].block != NO_BLOCK ==> b == c
  }

  predicate Pending(pc: Pc, k: nat) { pc.Copied? && pc.job.k == k }

  /** The disk differs from the plain disk only where a write is about to reach it. */
  ghost predicate DiskOk(w: World, k: nat) {
    k < |w.disk| == |w.plain| ==> w.disk[k] == w.plain[k] || exists p :: 0 <= p < |w.ps| && Pending(w.ps[p], k)
  }

  ghost predicate Inv(w: World) {
    && |w.disk| == |w.plain|
    && (forall b: nat :: CellOk(w, b) && OwnerExists(w, b))
    && (forall b: nat, p: nat :: OwnerOk(w, b, p))
    && (forall p: nat :: PcOk(w, p))
    && (forall b: nat, c: nat :: Apart(w, b, c))
    && (forall k: nat :: DiskOk(w, k))
  }

  lemma UsersChange(ps: seq<Pc>, p: nat, pc: Pc, b: nat)
    requires p < |ps|
    ensures |Users(ps[p := pc], b)| == |Users(ps, b)| + (if pc.Uses(b) then 1 else 0) - (if ps[p].Uses(b) then 1 else 0)
  {
    var u, u' := Users(ps, b), Users(ps[p := pc], b);
    UsersElse(ps, p, pc, b);
    assert (p in u <==> ps[p].Uses(b)) && (p in u' <==> pc.Uses(b));
    assert |u| == |u - {p}| + (if p in u then 1 else 0);
    assert |u'| == |u' - {p}| + (if p in u' then 1 else 0);
  }

  lemma UsersElse(ps: seq<Pc>, p: nat, pc: Pc, b: nat)
    requires p < |ps|
    ensures Users(ps, b) - {p} == Users(ps[p := pc], b) - {p}
  {
    forall q: nat | q != p && q < |ps|
      ensures ps[p := pc][q] == ps[q]
    {
    }
  }

  lemma NobodyUses(ps: seq<Pc>, b: nat, p: nat)
    requires |Users(ps, b)| == 0 && p < |ps|
    ensures !ps[p].Uses(b)
  {
    assert p !in Users(ps, b);
  }

  lemma NextPc(w: World, p: nat, s: Step, r: nat)
    requires Enabled(w, p, s) && Inv(w)
    ensures PcOk(Next(w, p, s), r)
  {
    assert PcOk(w, r) && PcOk(w, p);
    if s.Get? && r < |w.ps| {
      assert CellOk(w, s.b);
      if w.cells[s.b].block != s.job.k {
        NobodyUses(w.ps, s.b, r);
      }
    }
  }

  lemma NextOwner(w: World, p: nat, s: Step, b: nat, r: nat)
    requires Enabled(w, p, s) && Inv(w)
    ensures OwnerOk(Next(w, p, s), b, r)
  {
    assert OwnerOk(w, b, r) && OwnerOk(w, b, p);
  }

  lemma NextExists(w: World, p: nat, s: Step, b: nat)
    requires Enabled(w, p, s) && Inv(w)
    ensures OwnerExists(Next(w, p, s), b)
  {
    assert OwnerExists(w, b);
  }

  lemma NextApart(w: World, p: nat, s: Step, b: nat, c: nat)
    requires Enabled(w, p, s) && Inv(w)
    ensures Apart(Next(w, p, s), b, c)
  {
    assert Apart(w, b, c);
  }

  lemma NextCell(w: World, p: nat, s: Step, b: nat)
    requires Enabled(w, p, s) && Inv(w)
    ensures CellOk(Next(w, p, s), b)
  {
    var w' := Next(w, p, s);
    assert CellOk(w, b) && PcOk(w, p);
    UsersChange(w.ps, p, w'.ps[p], b);
    assert w'.ps == w.ps[p := w'.ps[p]];
    if !s.Get? {
      assert Apart(w, b, w.ps[p].b) && DiskOk(w, w.ps[p].job.k);
      NotPending(w, p, s);
    }
  }

  lemma SameOwner(w: World, p: nat, r: nat)
    requires Inv(w) && p < |w.ps| && r < |w.ps| && !w.ps[p].Outside? && !w.ps[r].Outside?
    requires w.ps[p].Owns(w.ps[p].b) && w.ps[r].Owns(w.ps[r].b) && w.ps[p].job.k == w.ps[r].job.k
    ensures p == r
  {
    assert PcOk(w, p) && PcOk(w, r) && Apart(w, w.ps[p].b, w.ps[r].b);
    assert OwnerOk(w, w.ps[p].b, p) && OwnerOk(w, w.ps[p].b, r);
  }

  /** What is read in is not about to be written by someone else: he has the mutex. */
  lemma NotPending(w: World, p: nat, s: Step)
    requires Enabled(w, p, s) && Inv(w)
    ensures s.ReadIn? ==> w.disk[w.ps[p].job.k] == w.plain[w.ps[p].job.k]
  {
    if s.ReadIn? {
      var k := w.ps[p].job.k;
      assert DiskOk(w, k);
      if r :| 0 <= r < |w.ps| && Pending(w.ps[r], k) {
        SameOwner(w, p, r);
      }
    }
  }

  lemma NextDisk(w: World, p: nat, s: Step, k: nat)
    requires Enabled(w, p, s) && Inv(w)
    ensures DiskOk(Next(w, p, s), k)
  {
    var w' := Next(w, p, s);
    assert DiskOk(w, k) && PcOk(w, p);
    if s.WriteOut? {
      assert CellOk(w, w.ps[p].b);
    }
    if k < |w.disk| && w'.disk[k] != w'.plain[k] {
      if w.disk[k] == w.plain[k] {
        assert Pending(w'.ps[p], k);
      } else {
        var r :| 0 <= r < |w.ps| && Pending(w.ps[r], k);
        assert Pending(w'.ps[r], k);
      }
    }
  }

  /** Every step of every process keeps the invariant. */
  lemma InvNext(w: World, p: nat, s: Step)
    requires Enabled(w, p, s) && Inv(w)
    ensures Inv(Next(w, p, s))
  {
    hide CellOk, OwnerOk, OwnerExists, PcOk, Apart, DiskOk;
    var w' := Next(w, p, s);
    forall b: nat ensures CellOk(w', b) && OwnerExists(w', b) { NextCell(w, p, s, b); NextExists(w, p, s, b); }
    forall b: nat, r: nat ensures OwnerOk(w', b, r) { NextOwner(w, p, s, b, r); }
    forall r: nat ensures PcOk(w', r) { NextPc(w, p, s, r); }
    forall b: nat, c: nat ensures Apart(w', b, c) { NextApart(w, p, s, b, c); }
    forall k: nat ensures DiskOk(w', k) { NextDisk(w, p, s, k); }
  }

  // ----- every run --------------------------------------------------------------------------

  /** At the start no buffer has a block, nobody uses one. */
  ghost predicate Init(w: World) {
    && w.plain == w.disk && (forall p :: 0 <= p < |w.ps| ==> w.ps[p] == Outside)
    && forall b :: 0 <= b < |w.cells| ==>
         w.cells[b].block == NO_BLOCK && !w.cells[b].valid && w.cells[b].refs == 0 && w.cells[b].owner == FREE
  }

  lemma InvInit(w: World)
    requires Init(w)
    ensures Inv(w)
  {
    forall b: nat
      ensures CellOk(w, b) && OwnerExists(w, b)
    {
      assert Users(w.ps, b) == {};
    }
  }

  datatype Event = Event(p: nat, s: Step)

  /** A run: the worlds it goes through, and who does what between them. */
  ghost predicate IsRun(ws: seq<World>, es: seq<Event>) {
    && |ws| == |es| + 1 && Init(ws[0])
    && forall i :: 0 <= i < |es| ==> Goes(ws[i], es[i], ws[i + 1])
  }

  ghost predicate Goes(w: World, e: Event, w': World) { Enabled(w, e.p, e.s) && w' == Next(w, e.p, e.s) }

  lemma {:induction false} RunInv(ws: seq<World>, es: seq<Event>, i: nat)
    requires IsRun(ws, es) && i < |ws|
    ensures Inv(ws[i])
  {
    if i == 0 {
      InvInit(ws[0]);
    } else {
      RunInv(ws, es, i - 1);
      assert Goes(ws[i - 1], es[i - 1], ws[i - 1 + 1]);
      InvNext(ws[i - 1], es[i - 1].p, es[i - 1].s);
    }
  }

  /** What a process has written to block `k` in the first `i` events, the last such write. */
  function LastWrite(disk: seq<Sector>, ws: seq<World>, es: seq<Event>, k: nat, i: nat): Sector
    requires k < |disk| && i <= |es| && i < |ws|
  {
    if i == 0 then disk[k]
    else if es[i - 1].s.CopyIn? && Writes(ws[i - 1], es[i - 1].p, k) then ws[i - 1].ps[es[i - 1].p].job.new'
    else LastWrite(disk, ws, es, k, i - 1)
  }

  predicate Writes(w: World, p: nat, k: nat) {
    p < |w.ps| && !w.ps[p].Outside? && w.ps[p].job.Write? && w.ps[p].job.k == k
  }

  lemma {:induction false} PlainIsLastWrite(ws: seq<World>, es: seq<Event>, k: nat, i: nat)
    requires IsRun(ws, es) && i <= |es| && k < |ws[0].disk|
    ensures k < |ws[i].plain| && ws[i].plain[k] == LastWrite(ws[0].disk, ws, es, k, i)
  {
    if i > 0 {
      PlainIsLastWrite(ws, es, k, i - 1);
      assert Goes(ws[i - 1], es[i - 1], ws[i - 1 + 1]);
    }
  }

  /** Each sector is read as it was last written, by whichever process, wherever it was:
      in a buffer, on its way to the disk, or on the disk. */
  lemma ReadsSeeLastWrite(ws: seq<World>, es: seq<Event>, i: nat, b: nat, k: nat)
    requires IsRun(ws, es) && i < |es| && es[i].s.CopyOut? && About(ws[i], es[i].p, b, k)
    ensures k < |ws[0].disk| && ws[i].cells[b].data == LastWrite(ws[0].disk, ws, es, k, i)
  {
    RunInv(ws, es, i);
    assert Goes(ws[i], es[i], ws[i + 1]);
    assert PcOk(ws[i], es[i].p) && CellOk(ws[i], b);
    SameSize(ws, es, i);
    PlainIsLastWrite(ws, es, k, i);
  }

  lemma {:induction false} SameSize(ws: seq<World>, es: seq<Event>, i: nat)
    requires IsRun(ws, es) && i < |ws|
    ensures |ws[i].disk| == |ws[0].disk|
  {
    if i > 0 {
      SameSize(ws, es, i - 1);
      assert Goes(ws[i - 1], es[i - 1], ws[i - 1 + 1]);
    }
  }

  /** When no write is on its way, every block of the disk is as last written. */
  lemma DiskIsLastWrite(ws: seq<World>, es: seq<Event>, k: nat)
    requires IsRun(ws, es) && k < |ws[0].disk|
    requires forall p :: 0 <= p < |ws[|es|].ps| ==> !Pending(ws[|es|].ps[p], k)
    ensures k < |ws[|es|].disk| && ws[|es|].disk[k] == LastWrite(ws[0].disk, ws, es, k, |es|)
  {
    RunInv(ws, es, |es|);
    assert DiskOk(ws[|es|], k);
    SameSize(ws, es, |es|);
    PlainIsLastWrite(ws, es, k, |es|);
  }

  /** Two processes that have buffers for the same block share one, and one of them at most
      is at its contents. */
  lemma OneBufferEach(ws: seq<World>, es: seq<Event>, i: nat, p: nat, q: nat)
    requires IsRun(ws, es) && i < |ws| && p < |ws[i].ps| && q < |ws[i].ps| && p != q
    requires !ws[i].ps[p].Outside? && !ws[i].ps[q].Outside? && ws[i].ps[p].job.k == ws[i].ps[q].job.k
    ensures ws[i].ps[p].b == ws[i].ps[q].b
    ensures !(ws[i].ps[p].Owns(ws[i].ps[p].b) && ws[i].ps[q].Owns(ws[i].ps[q].b))
  {
    RunInv(ws, es, i);
    var w := ws[i];
    assert PcOk(w, p) && PcOk(w, q) && Apart(w, w.ps[p].b, w.ps[q].b);
    assert OwnerOk(w, w.ps[p].b, p) && OwnerOk(w, w.ps[p].b, q);
  }

  // ----- progress ---------------------------------------------------------------------------

  ghost predicate CanGoOn(w: World) { exists p: nat, s :: Enabled(w, p, s) && !s.Get? }

  /** No deadlock: while any process has a reference to a buffer, some process can go on with
      what it has begun. */
  lemma NoDeadlock(ws: seq<World>, es: seq<Event>, i: nat, p: nat)
    requires IsRun(ws, es) && i < |ws| && p < |ws[i].ps| && !ws[i].ps[p].Outside?
    ensures CanGoOn(ws[i])
  {
    RunInv(ws, es, i);
    var w := ws[i];
    assert PcOk(w, p);
    var o := w.cells[w.ps[p].b].owner;
    if w.ps[p].Waiting? && o != FREE {
      assert OwnerExists(w, w.ps[p].b) && OwnerOk(w, w.ps[p].b, o);
      GoesOn(w, o);
    } else {
      GoesOn(w, p);
    }
  }

  lemma GoesOn(w: World, p: nat)
    requires Inv(w) && p < |w.ps| && !w.ps[p].Outside?
    requires w.ps[p].b < |w.cells| && w.ps[p].Waiting? ==> w.cells[w.ps[p].b].owner == FREE
    ensures CanGoOn(w)
  {
    assert PcOk(w, p) && CellOk(w, w.ps[p].b);
    assert p in Users(w.ps, w.ps[p].b);
    var s := match w.ps[p]
      case Waiting(_, _) => Lock
      case Holding(_, _) => ReadIn
      case Ready(_, job) => if job.Read? then CopyOut else CopyIn
      case Copied(_, _) => WriteOut
      case Done(_, _) => Unlock
      case _ => Drop;
    assert Enabled(w, p, s) && !s.Get?;
  }
}
