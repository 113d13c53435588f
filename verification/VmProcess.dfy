/** The memory of a process over its life: a fresh page table, the copy that clone makes,
    and the teardown that gives every frame back. */
module VmProcess {
  import opened Basics
  import opened Stretches
  import opened VmState
  import opened VmKernel
  import opened VmTeardown

  /** Pages: the trampoline and the trap frame at the top, the stack below 3 GiB, the text. */
  const TRAMPOLINE := PAGES - 1
  const TRAPFRAME := PAGES - 2
  const STACK := 0xC_0000 - USTACK
  const USTACK := 128
  const TEXT := 1

  /** Like Remapped, but counts of frames in use may have grown. */
  ghost predicate Copying(st: State, st': State, p: nat, pt: map<nat, Word>) {
    && p in st.spaces && p in st'.spaces && st'.spaces == st.spaces[p := st'.spaces[p]]
    && SpaceGrown(st.spaces[p], st'.spaces[p], pt)
    && st'.first == st.first && |st'.mem| == |st.mem| && |st'.refs| == |st.refs|
    && (forall f :: f in st'.free ==> f in st.free)
    && (forall f :: IsTable(st'.spaces, f) ==> IsTable(st.spaces, f) || f in st.free)
    && (forall f :: 0 <= f < |st.mem| && f !in st.free && !IsTable(st.spaces, f) ==> st'.mem[f] == st.mem[f])
  }

  /** The child's entry for a page of the parent: the same flags and contents, on the same
      frame when shared, else on a frame that was free. */
  ghost predicate Copied(st: State, st': State, w: Word, w': Word, shared: bool) {
    var f, f' := FrameOf(w), FrameOf(w');
    && 0 <= f < |st.mem| && 0 <= f' < |st'.mem| && st.Managed(f) && st'.Managed(f')
    && w' % 1024 == LeafFlags(w % 1024)
    && (if shared then f' == f else f' in st.free)
    && st'.mem[f'] == st.mem[f]
  }

  /** How often the shared pages among `done` name a frame. */
  ghost function Sharers(pt: map<nat, Word>, done: map<nat, bool>, f: nat): nat { |SharerSet(pt, done, f)| }

  ghost function SharerSet(pt: map<nat, Word>, done: map<nat, bool>, f: nat): set<nat> {
    set u | u in done && done[u] && u in pt && FrameOf(pt[u]) == f
  }

  /** Since `st` space `pn` has been given the pages `done` of space `po`. */
  ghost predicate CopiedPages(st: State, st': State, po: nat, pn: nat, done: map<nat, bool>) {
    && po in st.spaces && pn in st.spaces && po != pn && pn in st'.spaces && Copying(st, st', pn, st'.spaces[pn].pt)
    && st'.held == st.held
    && (forall u :: u in st'.spaces[pn].pt <==> u in st.spaces[pn].pt || u in done)
    && (forall u :: u in st.spaces[pn].pt ==> st'.spaces[pn].pt[u] == st.spaces[pn].pt[u])
    && (forall u :: u in done ==> u in st.spaces[po].pt && u !in st.spaces[pn].pt)
    && (forall u :: u in done ==> Copied(st, st', st.spaces[po].pt[u], st'.spaces[pn].pt[u], done[u]))
    && (forall f :: 0 <= f < |st.refs| && f !in st.free ==>
          st'.refs[f] == st.refs[f] + Sharers(st.spaces[po].pt, done, f))
  }

  lemma CopyStart(st: State, po: nat, pn: nat)
    requires po in st.spaces && pn in st.spaces && po != pn
    ensures CopiedPages(st, st, po, pn, map[])
  {
    forall f ensures Sharers(st.spaces[po].pt, map[], f) == 0 {
      NoSharers(st.spaces[po].pt, map[], f);
    }
  }

  lemma NoSharers(pt: map<nat, Word>, done: map<nat, bool>, f: nat)
    requires forall u :: u in done ==> !done[u]
    ensures Sharers(pt, done, f) == 0
  {
    assert forall u :: u !in SharerSet(pt, done, f);
    assert SharerSet(pt, done, f) == {};
  }

  lemma SharersMore(pt: map<nat, Word>, done: map<nat, bool>, u: nat, shared: bool, f: nat)
    requires u !in done && u in pt
    ensures Sharers(pt, done[u := shared], f) == Sharers(pt, done, f) + if shared && FrameOf(pt[u]) == f then 1 else 0
  {
    hide FrameOf;
    assert u !in SharerSet(pt, done, f);
    if shared && FrameOf(pt[u]) == f {
      assert SharerSet(pt, done[u := shared], f) == SharerSet(pt, done, f) + {u};
    } else {
      assert SharerSet(pt, done[u := shared], f) == SharerSet(pt, done, f);
    }
  }

  lemma CopyingTrans(a: State, b: State, c: State, p: nat, pt: map<nat, Word>, pt': map<nat, Word>)
    requires Copying(a, b, p, pt) && Copying(b, c, p, pt')
    ensures Copying(a, c, p, pt')
  {
    hide IsTable;
    assert c.spaces == a.spaces[p := c.spaces[p]];
  }

  lemma CopyingIs(st: State, st': State, p: nat, pt: map<nat, Word>)
    requires Copying(st, st', p, pt)
    ensures p in st'.spaces && st'.spaces[p].pt == pt
  {
  }

  /** The frames of the parent's pages stay as they are. */
  lemma ParentFrame(st: State, st1: State, po: nat, pn: nat, done: map<nat, bool>, v: nat)
    requires Inv(st) && CopiedPages(st, st1, po, pn, done) && v in st.spaces[po].pt && st.Managed(FrameOf(st.spaces[po].pt[v]))
    ensures var f: nat := FrameOf(st.spaces[po].pt[v]);
      f < |st.mem| == |st.refs| && f !in st.free && f !in st1.free && |st1.mem| == |st.mem| && st1.mem[f] == st.mem[f]
      && |st1.refs| == |st.refs| && st1.refs[f] == st.refs[f] + Sharers(st.spaces[po].pt, done, f)
      && po in st1.spaces && st1.spaces[po] == st.spaces[po]
  {
    hide Inv, Copied, Sharers, SpaceGrown, IsTable;
    NamedFrame(st, po, v, FrameOf(st.spaces[po].pt[v]));
    ListedManaged(st, 0);
  }

  /** One more page. */
  lemma CopyStep(st0: State, st1: State, st3: State, po: nat, pn: nat, done: map<nat, bool>, v: nat, shared: bool, w: Word)
    requires Inv(st0) && Inv(st1) && CopiedPages(st0, st1, po, pn, done)
    requires v in st0.spaces[po].pt && st0.Managed(FrameOf(st0.spaces[po].pt[v])) && v !in done && v !in st0.spaces[pn].pt
    requires Copying(st1, st3, pn, st1.spaces[pn].pt[v := w]) && st3.held == st1.held
    requires Copied(st1, st3, st0.spaces[po].pt[v], w, shared)
    requires forall f :: 0 <= f < |st1.refs| && f !in st1.free ==>
      st3.refs[f] == st1.refs[f] + if shared && f == FrameOf(st0.spaces[po].pt[v]) then 1 else 0
    ensures CopiedPages(st0, st3, po, pn, done[v := shared])
  {
    hide Inv, Sharers, Copied, SpaceGrown, IsTable;
    CopyingTrans(st0, st1, st3, pn, st1.spaces[pn].pt, st1.spaces[pn].pt[v := w]);
    forall u | u in done ensures Copied(st0, st3, st0.spaces[po].pt[u], st1.spaces[pn].pt[u], done[u]) {
      CopiedStays(st0, st1, st3, po, pn, done, st1.spaces[pn].pt[v := w], u);
    }
    ParentFrame(st0, st1, po, pn, done, v);
    CopiedEarlier(st0, st1, st3, st0.spaces[po].pt[v], w, shared);
    CopyingIs(st1, st3, pn, st1.spaces[pn].pt[v := w]);
    forall f | 0 <= f < |st0.refs| && f !in st0.free
      ensures st3.refs[f] == st0.refs[f] + Sharers(st0.spaces[po].pt, done[v := shared], f)
    {
      SharersMore(st0.spaces[po].pt, done, v, shared, f);
    }
  }

  lemma CopiedEarlier(st0: State, st1: State, st3: State, w: Word, w': Word, shared: bool)
    requires Copied(st1, st3, w, w', shared) && (forall f :: f in st1.free ==> f in st0.free)
    requires st1.first == st0.first && |st1.mem| == |st0.mem|
    requires 0 <= FrameOf(w) < |st0.mem| ==> st1.mem[FrameOf(w)] == st0.mem[FrameOf(w)]
    ensures Copied(st0, st3, w, w', shared)
  {
    hide LeafFlags;
  }

  /** A page copied before stays copied. */
  lemma CopiedStays(st0: State, st1: State, st3: State, po: nat, pn: nat, done: map<nat, bool>, pt: map<nat, Word>, u: nat)
    requires Inv(st1) && CopiedPages(st0, st1, po, pn, done) && Copying(st1, st3, pn, pt) && u in done
    ensures Copied(st0, st3, st0.spaces[po].pt[u], st1.spaces[pn].pt[u], done[u])
  {
    hide Inv, Sharers, LeafFlags, SpaceGrown;
    assert Copied(st0, st1, st0.spaces[po].pt[u], st1.spaces[pn].pt[u], done[u]);
    NamedFrame(st1, pn, u, FrameOf(st1.spaces[pn].pt[u]));
  }

  /** What a copy needs of the page `v` of the parent: a managed frame, and room in its
      8-bit count when it is to be shared. */
  ghost predicate Copyable(st: State, po: nat, pn: nat, done: map<nat, bool>, v: nat, shared: bool) {
    && po in st.spaces && pn in st.spaces && v in st.spaces[po].pt && v !in st.spaces[pn].pt && v !in done && v < PAGES
    && st.Managed(FrameOf(st.spaces[po].pt[v]))
    && (shared ==> FrameOf(st.spaces[po].pt[v]) < |st.refs|
                   && st.refs[FrameOf(st.spaces[po].pt[v])] + Sharers(st.spaces[po].pt, done, FrameOf(st.spaces[po].pt[v])) < 255)
  }

  /** The parent's frame and the child's entry for one page that is being copied. */
  lemma CopyFacts(st0: State, st1: State, po: nat, pn: nat, done: map<nat, bool>, v: nat, shared: bool)
    requires Inv(st0) && Inv(st1) && CopiedPages(st0, st1, po, pn, done) && Copyable(st0, po, pn, done, v, shared)
    ensures po in st1.spaces && st1.spaces[po] == st0.spaces[po] && pn in st1.spaces && v !in st1.spaces[pn].pt
    ensures st1.spaces[pn].root == st0.spaces[pn].root && st1.held == st0.held && st1.first == st0.first
    ensures var f: nat := FrameOf(st0.spaces[po].pt[v]);
      f < |st1.mem| == |st1.refs| == |st0.mem| && f !in st1.free && st1.Managed(f) && !IsTable(st1.spaces, f)
      && |Names(st1.spaces, f)| > 0 && (shared ==> st1.refs[f] < 255)
  {
    hide Inv, CopiedPages, Copyable, IsTable, Names, Sharers;
    CopyableIs(st0, po, pn, done, v, shared);
    ParentFrame(st0, st1, po, pn, done, v);
    ChildSpace(st0, st1, po, pn, done, v, shared);
    NamedFrame(st1, po, v, FrameOf(st1.spaces[po].pt[v]));
    ListedManaged(st1, 0);
    NamedOnce(st1, po, v);
  }

  lemma NamedOnce(st: State, p: nat, v: nat)
    requires p in st.spaces && v in st.spaces[p].pt && FrameOf(st.spaces[p].pt[v]) >= 0
    ensures |Names(st.spaces, FrameOf(st.spaces[p].pt[v]))| > 0
  {
    assert (p, v) in Names(st.spaces, FrameOf(st.spaces[p].pt[v]));
  }

  lemma ChildSpace(st0: State, st1: State, po: nat, pn: nat, done: map<nat, bool>, v: nat, shared: bool)
    requires CopiedPages(st0, st1, po, pn, done) && Copyable(st0, po, pn, done, v, shared)
    requires |st1.refs| == |st0.refs| && FrameOf(st0.spaces[po].pt[v]) < |st0.refs|
    requires var f: nat := FrameOf(st0.spaces[po].pt[v]); st1.refs[f] == st0.refs[f] + Sharers(st0.spaces[po].pt, done, f)
    ensures pn in st1.spaces && v !in st1.spaces[pn].pt && st1.spaces[pn].root == st0.spaces[pn].root
    ensures st1.held == st0.held && st1.first == st0.first && |st1.mem| == |st0.mem|
    ensures shared ==> st1.refs[FrameOf(st0.spaces[po].pt[v])] < 255
  {
    hide Sharers, Copied, IsTable;
  }

  /** A page that is not shared takes a frame of its own. */
  function Each(shared: bool): nat { if shared then 0 else 1 }

  /** The frame for a copy: the same one with one more reference, or a new one with the
      same contents. */
  method CopyFrame(k: Kmem, pa: nat, shared: bool) returns (mem: nat)
    requires k.Valid() && pa % 4096 == 0 && k.St().Managed(FrameAt(pa)) && k.refs.Length == k.mem.Length
    requires FrameAt(pa) !in k.free && !IsTable(k.spaces, FrameAt(pa))
    requires shared ==> k.refs[FrameAt(pa)] < 255 && |Names(k.spaces, FrameAt(pa))| > 0
    modifies k, k.mem, k.refs
    ensures k.Valid()
    ensures mem == 0 <==> !shared && old(k.free) == []
    ensures mem == 0 ==> k.St() == old(k.St())
    ensures mem != 0 ==> |k.free| + Each(shared) == |old(k.free)|
    ensures mem != 0 ==> mem % 4096 == 0 && FrameAt(mem) >= 0 && Between(old(k.St()), k.St(), FrameAt(pa), shared, FrameAt(mem))
  {
    hide Listed, Trees, Accounts, IsTable, Names;
    ghost var st1, f := k.St(), FrameAt(pa);
    mem := pa;
    if shared {
      k.Dup(pa);
    } else {
      mem := k.Alloc();
      if mem != 0 {
        JustTaken(st1, mem / 4096 - KERN_PPN);
        k.Fill(mem / 4096 - KERN_PPN, k.mem[pa / 4096 - KERN_PPN]);
      }
    }
  }

  /** The entry of a page that is mapped. */
  method EntryOf(k: Kmem, pagetable: nat, va: nat, ghost p: nat) returns (pte: Word)
    requires k.Valid() && p in k.spaces && pagetable == Addr(k.spaces[p].root) && va / 4096 in k.spaces[p].pt
    modifies k, k.mem, k.refs
    ensures k.Valid() && k.St() == old(k.St()) && pte == old(k.spaces[p].pt[va / 4096])
  {
    hide Inv, Grown;
    ghost var st := k.St();
    LeafHome(st, p, va / 4096);
    LeafMeans(st, p, va / 4096);
    var found, t := k.Walk(pagetable, va, false, p);
    pte := k.mem[t][PX(0, va / 4096)];
    assert pte == st.mem[t][PX(0, va / 4096)];
  }

  /** The body of the loops of uvmcopy and uvmmap_dup. */
  method CopyPage(k: Kmem, oldpt: nat, newpt: nat, va: nat, shared: bool,
                  ghost po: nat, ghost pn: nat, ghost st0: State, ghost done: map<nat, bool>) returns (ok: bool)
    requires k.Valid() && Inv(st0) && CopiedPages(st0, k.St(), po, pn, done) && va % 4096 == 0
    requires Copyable(st0, po, pn, done, va / 4096, shared)
    requires oldpt == Addr(st0.spaces[po].root) && newpt == Addr(st0.spaces[pn].root)
    modifies k, k.mem, k.refs
    ensures k.Valid() && (ok ==> CopiedPages(st0, k.St(), po, pn, done[va / 4096 := shared]))
    ensures ok <==> |old(k.free)| >= Each(shared) + Lacks(old(k.St()), pn, va / 4096)
    ensures ok ==> Tabled(old(k.St()), k.St(), pn, va / 4096, Each(shared))
    ensures !ok ==> pn in k.spaces && va / 4096 !in k.spaces[pn].pt && k.held == old(k.held)
  {
    hide Inv, CopiedPages, Copyable, IsTable, LeafFlags, Pte, Share, Remapped, Copying, Names, Between, Sharers,
      Lacks, Tabled;
    ghost var st1, v := k.St(), va / 4096;
    CopyFacts(st0, st1, po, pn, done, v, shared);
    CopyableIs(st0, po, pn, done, v, shared);
    var pte := EntryOf(k, oldpt, va, po);
    var f: nat := pte / 1024 - KERN_PPN;
    var mem := CopyFrame(k, (pte / 1024) * 4096, shared);
    if mem == 0 {
      return false;
    }
    ok := MapCopy(k, newpt, va, mem, pte % 1024, shared, po, pn, st0, st1, done);
  }

  /** The copy is mapped, or its frame put back. */
  method MapCopy(k: Kmem, newpt: nat, va: nat, mem: nat, flags: nat, shared: bool,
                 ghost po: nat, ghost pn: nat, ghost st0: State, ghost st1: State, ghost done: map<nat, bool>) returns (ok: bool)
    requires Inv(st0) && Inv(st1) && CopiedPages(st0, st1, po, pn, done) && Copyable(st0, po, pn, done, va / 4096, shared)
    requires va % 4096 == 0 && mem % 4096 == 0 && FrameAt(mem) >= 0 && newpt == Addr(st0.spaces[pn].root)
    requires flags == st0.spaces[po].pt[va / 4096] % 1024 && |k.free| + Each(shared) == |st1.free| && k.Valid()
    requires Between(st1, k.St(), FrameOf(st0.spaces[po].pt[va / 4096]), shared, FrameAt(mem))
    modifies k, k.mem, k.refs
    ensures k.Valid() && (ok ==> CopiedPages(st0, k.St(), po, pn, done[va / 4096 := shared]))
    ensures ok <==> |st1.free| >= Each(shared) + Lacks(st1, pn, va / 4096)
    ensures ok ==> Tabled(st1, k.St(), pn, va / 4096, Each(shared))
    ensures !ok ==> pn in k.spaces && va / 4096 !in k.spaces[pn].pt && k.held == st1.held
  {
    hide Inv, CopiedPages, Copyable, IsTable, LeafFlags, Pte, Share, Remapped, Copying, Names, Between, Sharers,
      Lacks, Tabled;
    ghost var v, st2, f2 := va / 4096, k.St(), mem / 4096 - KERN_PPN;
    CopyFacts(st0, st1, po, pn, done, v, shared);
    CopyableIs(st0, po, pn, done, v, shared);
    ghost var f: nat := FrameOf(st0.spaces[po].pt[v]);
    BetweenHeld(st1, st2, f, shared, f2);
    LacksSame(st1, st2, pn, v);
    ok := k.MapPage(newpt, va, mem, flags, pn);
    if ok {
      TabledToo(st1, st2, k.St(), pn, v, Each(shared));
      CopyDone(st0, st1, st2, k.St(), po, pn, done, v, shared, f2);
    } else {
      CopyFailed(st1, st2, k.St(), pn, f, shared, f2);
      k.Put(mem);
    }
  }

  lemma LacksSame(st: State, st': State, p: nat, v: nat)
    requires st'.spaces == st.spaces
    ensures Lacks(st', p, v) == Lacks(st, p, v)
  {
  }

  lemma TabledToo(st1: State, st2: State, st3: State, p: nat, v: nat, n: nat)
    requires st2.spaces == st1.spaces && |st2.free| + n == |st1.free| && Tabled(st2, st3, p, v, 0)
    ensures Tabled(st1, st3, p, v, n)
  {
  }

  /** The state between taking the frame for a copy and mapping it. */
  ghost predicate Between(st1: State, st2: State, f: nat, shared: bool, f': nat) {
    && f < |st1.mem| == |st1.refs|
    && if shared then f' == f && st2 == Dupped(st1, f)
       else st1.free != [] && f' == st1.free[0] < |st1.mem| && st1.count > 0 && st2 == Replaced(Taken(st1), f', st1.mem[f])
  }

  /** The frame for a copy, taken and filled, is held and may be mapped. */
  lemma BetweenHeld(st1: State, st2: State, f: nat, shared: bool, f': nat)
    requires Inv(st1) && Between(st1, st2, f, shared, f') && st1.Managed(f) && f !in st1.free && !IsTable(st1.spaces, f)
    ensures st2.Managed(f') && st2.held == st1.held + multiset{f'} && st2.spaces == st1.spaces && st2.first == st1.first
    ensures |st2.mem| == |st1.mem| == |st2.refs| && st2.mem[f'] == st1.mem[f] && f' !in st2.free && !IsTable(st2.spaces, f')
    ensures forall g :: g in st2.free ==> g in st1.free
    ensures forall g :: 0 <= g < |st1.mem| && g !in st1.free ==>
      st2.mem[g] == st1.mem[g] && st2.refs[g] == st1.refs[g] + if shared && g == f then 1 else 0
    ensures !shared ==> f' in st1.free
  {
    if !shared {
      JustTaken(st1, f');
      TakenListed(st1);
    }
    hide Inv, IsTable;
  }

  lemma CopyFailed(st1: State, st2: State, st3: State, pn: nat, f: nat, shared: bool, f': nat)
    requires Inv(st1) && Inv(st3) && Between(st1, st2, f, shared, f') && pn in st2.spaces && Grown(st2, st3, pn)
    requires st1.Managed(f) && f !in st1.free && !IsTable(st1.spaces, f)
    ensures st3.Managed(f') && st3.held[f'] > 0 && f' < |st3.refs| == |st3.mem| && 0 < st3.refs[f'] < 256
    ensures pn in st3.spaces && st3.spaces[pn].pt == st1.spaces[pn].pt && st3.held - multiset{f'} == st1.held
  {
    hide Inv, Between, Remapped, Grown, IsTable;
    BetweenHeld(st1, st2, f, shared, f');
    GrownIs(st2, st3, pn);
    SpaceIs(st2, st3, pn, st2.spaces[pn].pt);
    RemapSpaces(st2, st3, pn, st2.spaces[pn].pt);
    HeldIsCounted(st3, f');
    assert st1.held + multiset{f'} - multiset{f'} == st1.held;
  }

  lemma HeldIsCounted(st: State, f: nat)
    requires Inv(st) && st.Managed(f) && st.held[f] > 0
    ensures f < |st.refs| == |st.mem| && 0 < st.refs[f] < 256
  {
    ListedManaged(st, f);
    hide Listed, Trees, IsTable, Names;
    assert Counted(st, f);
  }

  /** A page mapped after its frame was taken and filled is one more page copied. */
  lemma CopyDone(st0: State, st1: State, st2: State, st3: State, po: nat, pn: nat, done: map<nat, bool>, v: nat, shared: bool,
                 f': nat)
    requires Inv(st0) && Inv(st1) && CopiedPages(st0, st1, po, pn, done) && Copyable(st0, po, pn, done, v, shared)
    requires var f: nat := FrameOf(st0.spaces[po].pt[v]);
      && f !in st1.free && !IsTable(st1.spaces, f) && Between(st1, st2, f, shared, f')
    requires var w := Pte(KERN_PPN + f', LeafFlags(st0.spaces[po].pt[v] % 1024));
      && pn in st1.spaces && Remapped(st2, st3, pn, st1.spaces[pn].pt[v := w]) && st3.held == st2.held - Share(st2, w)
    ensures CopiedPages(st0, st3, po, pn, done[v := shared])
  {
    hide Inv, CopiedPages, LeafFlags, Pte, IsTable, Sharers, Copied, Kept, SpaceGrown, Share;
    var flags := st0.spaces[po].pt[v] % 1024;
    var f: nat, w := FrameOf(st0.spaces[po].pt[v]), Pte(KERN_PPN + f', LeafFlags(flags));
    CopiedSizes(st0, st1, po, pn, done);
    BetweenHeld(st1, st2, f, shared, f');
    OneCopied(st1, st2, st3, st0.spaces[po].pt[v], shared, f');
    CountsAfter(st1, st2, st3, f, shared, f', flags);
    BetweenCopies(st1, st2, st3, pn, st1.spaces[pn].pt[v := w]);
    CopyStep(st0, st1, st3, po, pn, done, v, shared, w);
  }

  /** The reference taken is the entry's. */
  lemma CountsAfter(st1: State, st2: State, st3: State, f: nat, shared: bool, f': nat, flags: nat)
    requires flags < 1024 && Kept(st2, st3) && |st2.refs| == |st1.refs| == |st1.mem| && st2.Managed(f')
    requires st2.held == st1.held + multiset{f'} && forall g :: g in st2.free ==> g in st1.free
    requires forall g :: 0 <= g < |st1.mem| && g !in st1.free ==> st2.refs[g] == st1.refs[g] + if shared && g == f then 1 else 0
    ensures st2.held - Share(st2, Pte(KERN_PPN + f', LeafFlags(flags))) == st1.held && |st3.refs| == |st1.refs|
    ensures forall g :: 0 <= g < |st1.refs| && g !in st1.free ==> st3.refs[g] == st1.refs[g] + if shared && g == f then 1 else 0
  {
    hide LeafFlags, Pte, IsTable;
    LeafFlagsMean(flags);
    PteMeans(KERN_PPN + f', LeafFlags(flags));
  }

  /** The frame taken and filled holds a copy. */
  lemma OneCopied(st1: State, st2: State, st3: State, e: Word, shared: bool, f': nat)
    requires 0 <= FrameOf(e) < |st1.mem| && st1.Managed(FrameOf(e)) && st2.Managed(f') && f' !in st2.free && !IsTable(st2.spaces, f')
    requires |st2.mem| == |st1.mem| && st2.first == st1.first && st2.mem[f'] == st1.mem[FrameOf(e)] && Kept(st2, st3)
    requires if shared then f' == FrameOf(e) else f' in st1.free
    ensures Copied(st1, st3, e, Pte(KERN_PPN + f', LeafFlags(e % 1024)), shared)
  {
    hide IsTable, LeafFlags, Pte;
    LeafFlagsMean(e % 1024);
    PteMeans(KERN_PPN + f', LeafFlags(e % 1024));
  }

  lemma CopiedSizes(st0: State, st1: State, po: nat, pn: nat, done: map<nat, bool>)
    requires CopiedPages(st0, st1, po, pn, done)
    ensures st1.first == st0.first && |st1.mem| == |st0.mem| && |st1.refs| == |st0.refs|
  {
  }

  lemma BetweenCopies(st1: State, st2: State, st3: State, p: nat, pt: map<nat, Word>)
    requires p in st1.spaces && st2.spaces == st1.spaces && st2.first == st1.first && |st2.mem| == |st1.mem|
    requires |st2.refs| == |st1.refs| && (forall g :: g in st2.free ==> g in st1.free)
    requires forall g :: 0 <= g < |st1.mem| && g !in st1.free ==> st2.mem[g] == st1.mem[g]
    requires Remapped(st2, st3, p, pt)
    ensures Copying(st1, st3, p, pt)
  {
    hide IsTable;
  }

  lemma CopyableIs(st: State, po: nat, pn: nat, done: map<nat, bool>, v: nat, shared: bool)
    requires Copyable(st, po, pn, done, v, shared)
    ensures po in st.spaces && pn in st.spaces && v in st.spaces[po].pt && v !in st.spaces[pn].pt && v !in done && v < PAGES
    ensures st.Managed(FrameOf(st.spaces[po].pt[v]))
  {
  }

  // ----- ranges of pages --------------------------------------------------------------------

  /** The stretches do not overlap and lie below the trap frame. */
  ghost predicate Apart(segs: seq<Seg>) {
    && (forall i :: 0 <= i < |segs| ==> segs[i].v + segs[i].n <= TRAPFRAME)
    && (forall i, j :: 0 <= i < j < |segs| ==> segs[i].v + segs[i].n <= segs[j].v || segs[j].v + segs[j].n <= segs[i].v)
  }

  /** The stretches of a process of `total` bytes. */
  function Segs(total: nat, maps: seq<Seg>): seq<Seg>
    requires total >= USTACK * 4096
  {
    [Seg(STACK, USTACK, false), Seg(TEXT, PageUp(total - USTACK * 4096), false)] + maps
  }

  /** They begin with the stack, the 512 KiB below 3 GiB, and the program and its heap, the
      rest of the bytes from 4 KiB on; above all is the trampoline, the last page below 2^38,
      and under it the trap frame. */
  lemma SegsAre(total: nat, maps: seq<Seg>, u: nat)
    requires total >= 0x8_0000
    ensures |Segs(total, maps)| == |maps| + 2 && Segs(total, maps)[2..] == maps
    ensures InSeg(Segs(total, maps)[0], u) <==> 0xBFF8_0000 <= 4096 * u < 0xC000_0000
    ensures InSeg(Segs(total, maps)[1], u) <==> 0x1000 <= 4096 * u < 0x1000 + (total - 0x8_0000)
    ensures (TRAMPOLINE + 1) * 4096 == 0x40_0000_0000 == (TRAPFRAME + 2) * 4096
  {
  }

  /** The space maps the trampoline, the trap frame and these stretches, nothing else; all
      but the trampoline on managed frames. */
  ghost predicate LaidOut(st: State, p: nat, segs: seq<Seg>) {
    && p in st.spaces && Apart(segs)
    && (forall u :: u in st.spaces[p].pt <==> u == TRAMPOLINE || u == TRAPFRAME || u in Pages(segs))
    && (forall u :: u in st.spaces[p].pt && u != TRAMPOLINE ==> st.Managed(FrameOf(st.spaces[p].pt[u])))
    && FrameOf(st.spaces[p].pt[TRAMPOLINE]) < st.first
  }

  /** No 8-bit count runs over when the shared pages get one more owner. */
  ghost predicate Room(st: State, po: nat, done: map<nat, bool>) {
    && po in st.spaces && |st.refs| == |st.mem|
    && forall f :: 0 <= f < |st.refs| ==> st.refs[f] + Sharers(st.spaces[po].pt, done, f) <= 255
  }

  lemma SharersMono(pt: map<nat, Word>, done: map<nat, bool>, done': map<nat, bool>, f: nat)
    requires forall u :: u in done ==> u in done' && done'[u] == done[u]
    ensures Sharers(pt, done, f) <= Sharers(pt, done', f)
  {
    assert SharerSet(pt, done, f) <= SharerSet(pt, done', f);
    SubsetSize(SharerSet(pt, done, f), SharerSet(pt, done', f));
  }

  /** The loops of uvmcopy and uvmmap_dup over one stretch. */
  method CopyRange(k: Kmem, oldpt: nat, newpt: nat, va: nat, n: nat, shared: bool,
                   ghost po: nat, ghost pn: nat, ghost st0: State, ghost done: map<nat, bool>) returns (ok: bool)
    requires k.Valid() && Inv(st0) && CopiedPages(st0, k.St(), po, pn, done) && va % 4096 == 0
    requires po in st0.spaces && pn in st0.spaces && oldpt == Addr(st0.spaces[po].root) && newpt == Addr(st0.spaces[pn].root)
    requires va / 4096 + n <= PAGES && Room(st0, po, WithRange(done, va / 4096, n, shared))
    requires forall u :: va / 4096 <= u < va / 4096 + n ==>
      u in st0.spaces[po].pt && u !in st0.spaces[pn].pt && u !in done && st0.Managed(FrameOf(st0.spaces[po].pt[u]))
    modifies k, k.mem, k.refs
    ensures k.Valid() && (ok ==> CopiedPages(st0, k.St(), po, pn, WithRange(done, va / 4096, n, shared)))
    ensures ok <==> |old(k.free)| >= Costs(old(k.St()), pn, va / 4096, n, Each(shared))
    ensures ok ==> Charged(old(k.St()), k.St(), pn, va / 4096, n, Each(shared))
    ensures !ok ==> pn in k.spaces && exists u :: va / 4096 <= u < va / 4096 + n && u !in k.spaces[pn].pt
  {
    hide Inv, CopiedPages, Copyable, Room, Charged, Costs, Lacks, Tabled;
    ghost var stb, v, i := k.St(), va / 4096, 0;
    var cur := va;
    ChildThere(st0, stb, po, pn, done);
    NothingCharged(stb, pn, v, Each(shared));
    while cur < va + n * 4096
      invariant i <= n && cur == (v + i) * 4096 && k.Valid()
      invariant CopiedPages(st0, k.St(), po, pn, WithRange(done, v, i, shared)) && Charged(stb, k.St(), pn, v, i, Each(shared))
    {
      assert cur / 4096 == v + i;
      ghost var st1 := k.St();
      RoomForOne(st0, po, pn, done, v, n, i, shared);
      ok := CopyPage(k, oldpt, newpt, cur, shared, po, pn, st0, WithRange(done, v, i, shared));
      ChargedNext(stb, st1, k.St(), pn, v, i, n, Each(shared), ok);
      if !ok {
        return;
      }
      cur, i := cur + 4096, i + 1;
    }
    Paid(stb, k.St(), pn, v, n, Each(shared));
    ok := true;
  }

  lemma ChildThere(st0: State, st1: State, po: nat, pn: nat, done: map<nat, bool>)
    requires CopiedPages(st0, st1, po, pn, done)
    ensures pn in st1.spaces
  {
  }

  lemma RoomForOne(st: State, po: nat, pn: nat, done: map<nat, bool>, v: nat, n: nat, i: nat, shared: bool)
    requires i < n && v + n <= PAGES && Room(st, po, WithRange(done, v, n, shared)) && pn in st.spaces
    requires forall u :: v <= u < v + n ==>
      u in st.spaces[po].pt && u !in st.spaces[pn].pt && u !in done && st.Managed(FrameOf(st.spaces[po].pt[u]))
    ensures Copyable(st, po, pn, WithRange(done, v, i, shared), v + i, shared)
  {
    hide Sharers;
    if shared {
      var f: nat, pt := FrameOf(st.spaces[po].pt[v + i]), st.spaces[po].pt;
      SharersMore(pt, WithRange(done, v, i, true), v + i, true, f);
      SharersMono(pt, WithRange(done, v, i, true)[v + i := true], WithRange(done, v, n, true), f);
    }
  }

  // ----- the life of a process ----------------------------------------------------------------

  datatype Made = Made | NoMemory | Panic

  /** The translation of a process that has no user page yet. */
  function Bare(tramp: nat, tf: nat): map<nat, Word> {
    map[TRAMPOLINE := Pte(tramp / 4096, LeafFlags(10)), TRAPFRAME := Pte(tf / 4096, LeafFlags(6))]
  }

  /** create_empty_user_pagetable */
  method EmptyTable(k: Kmem, ghost p: nat) returns (pagetable: nat)
    requires k.Valid() && p !in k.spaces
    modifies k, k.mem, k.refs
    ensures k.Valid() && k.held == old(k.held) && Kept(old(k.St()), k.St())
    ensures pagetable == 0 <==> old(k.free) == []
    ensures pagetable == 0 ==> k.free == [] && k.spaces == old(k.spaces)
    ensures pagetable != 0 ==> p in k.spaces && k.spaces[p].mid == map[] && k.spaces[p].low == map[] && |k.free| + 1 == |old(k.free)|
    ensures pagetable != 0 ==> p in k.spaces && k.spaces == old(k.spaces)[p := k.spaces[p]] && k.spaces[p].pt == map[]
                               && pagetable == Addr(k.spaces[p].root)
  {
    hide Listed, Trees, Accounts, Kept;
    ghost var st0 := k.St();
    pagetable := k.Alloc();
    if pagetable == 0 {
      KeptSame(st0);
      return;
    }
    ghost var f: nat := pagetable / 4096 - KERN_PPN;
    JustTaken(st0, f);
    k.Fill(pagetable / 4096 - KERN_PPN, Filled(0));
    ghost var st1 := k.St();
    FoundedKeeps(st1, p, f);
    FoundedFacts(st0, st1, p, f);
    k.spaces := k.spaces[p := Space(f, map[], map[], map[])];
    k.held := k.held - multiset{f};
    assert k.St() == Founded(st1, p, f);
  }

  lemma KeptSame(st: State)
    ensures Kept(st, st)
  {
  }

  /** The tables that the two top pages share. */
  ghost predicate TopTables(spaces: map<nat, Space>, p: nat) {
    p in spaces && spaces[p].mid.Keys == {255} && spaces[p].low.Keys == {0x1_FFFF}
  }

  lemma TopTogether(st: State, p: nat)
    ensures TopTables(st.spaces, p) ==> Lacks(st, p, TRAPFRAME) == 0
    ensures p in st.spaces && st.spaces[p].mid == map[] && st.spaces[p].low == map[] ==> Lacks(st, p, TRAMPOLINE) == 2
  {
    assert TRAPFRAME / 512 == TRAMPOLINE / 512 == 0x1_FFFF && 0x1_FFFF / 512 == 255;
  }

  lemma TopTabled(st3: State, st4: State, st5: State, p: nat)
    requires TopTables(st3.spaces, p) && st4.spaces == st3.spaces && Tabled(st4, st5, p, TRAPFRAME, 0)
    ensures TopTables(st5.spaces, p) && |st5.free| == |st4.free|
  {
    TopTogether(st4, p);
    assert {255} + {TRAPFRAME / 512 / 512} == {255} && {0x1_FFFF} + {TRAPFRAME / 512} == {0x1_FFFF};
  }

  lemma TopMade(st2: State, st3: State, p: nat)
    requires Tabled(st2, st3, p, TRAMPOLINE, 0) && st2.spaces[p].mid == map[] && st2.spaces[p].low == map[]
    ensures TopTables(st3.spaces, p) && |st3.free| + 2 == |st2.free|
  {
    TopTogether(st2, p);
    assert {} + {TRAMPOLINE / 512 / 512} == {255} && {} + {TRAMPOLINE / 512} == {0x1_FFFF};
  }

  /** The trap frame of proc_pagetable. */
  method MapTrapframe(k: Kmem, pagetable: nat, ghost p: nat, ghost st0: State, ghost tramp: nat) returns (tf: nat)
    requires k.Valid() && p in k.spaces && pagetable == Addr(k.spaces[p].root)
    requires k.spaces[p].pt == map[TRAMPOLINE := Pte(tramp / 4096, LeafFlags(10))] && p !in st0.spaces
    requires Kept(st0, k.St()) && k.spaces == st0.spaces[p := k.spaces[p]] && k.held == st0.held && TopTables(k.spaces, p)
    modifies k, k.mem, k.refs
    ensures k.Valid() && (tf == 0 ==> |k.free| == 0) && (tf == 0 <==> old(k.free) == [])
    ensures tf != 0 ==> TopTables(k.spaces, p) && |k.free| + 1 == |old(k.free)|
    ensures tf != 0 ==> p in k.spaces && k.spaces == st0.spaces[p := k.spaces[p]] && k.held == st0.held
    ensures tf != 0 ==> pagetable == Addr(k.spaces[p].root) && k.spaces[p].pt == Bare(tramp, tf) && Kept(st0, k.St())
    ensures tf != 0 ==> tf % 4096 == 0 && FrameAt(tf) in st0.free && FrameAt(tf) !in k.free && !IsTable(k.spaces, FrameAt(tf))
    ensures tf != 0 ==> k.St().Managed(FrameAt(tf))
  {
    hide Listed, Trees, Accounts, LeafFlags, Share, Kept, SpaceGrown, IsTable, Inv, Pte, Remapped, Lacks, Tabled, TopTables;
    ghost var st3 := k.St();
    TopTogether(st3, p);
    tf := k.Alloc();
    if tf == 0 {
      return;
    }
    ghost var g: nat := tf / 4096 - KERN_PPN;
    JustTaken(st3, g);
    ghost var st4 := k.St();
    LeafFlagsMean(6);
    PteMeans(tf / 4096, LeafFlags(6));
    LacksSame(st3, st4, p, TRAPFRAME);
    var ok := k.MapPage(pagetable, TRAPFRAME * 4096, tf, 6, p);
    assert ok;
    TopTabled(st3, st4, k.St(), p);
    SpaceIs(st4, k.St(), p, Bare(tramp, tf));
    MadeFacts(st0, st3, st4, k.St(), p, g, tramp, tf);
  }

  /** proc_pagetable: the trampoline and a new trap frame, for which it takes four frames.
      Without memory for the tables of the trampoline it gives everything back; without
      memory elsewhere it panics. */
  method ProcPagetable(k: Kmem, tramp: nat, ghost p: nat) returns (res: Made, pagetable: nat, tf: nat)
    requires k.Valid() && p !in k.spaces && tramp % 4096 == 0 && FrameAt(tramp) < k.first && FrameAt(tramp) < k.mem.Length
    modifies k, k.mem, k.refs
    ensures k.Valid()
    ensures res == NoMemory ==> k.spaces == old(k.spaces) && k.held == old(k.held)
    ensures res == Panic ==> k.free == []
    ensures res == Made ==> p in k.spaces && k.spaces == old(k.spaces)[p := k.spaces[p]] && k.held == old(k.held)
    ensures res == Made ==> pagetable == Addr(k.spaces[p].root) && k.spaces[p].pt == Bare(tramp, tf)
    ensures res == Made ==> tf % 4096 == 0 && FrameAt(tf) in old(k.free) && FrameAt(tf) !in k.free && !IsTable(k.spaces, FrameAt(tf))
    ensures res == Made ==> Kept(old(k.St()), k.St()) && k.St().Managed(FrameAt(tf))
    ensures res == Made <==> |old(k.free)| >= 4
    ensures res == NoMemory <==> 1 <= |old(k.free)| <= 2
    ensures res == Made ==> TopTables(k.spaces, p) && |k.free| + 4 == |old(k.free)|
  {
    hide Listed, Trees, Accounts, LeafFlags, Share, Kept, SpaceGrown, IsTable, Inv, Pte, Remapped, Lacks, Tabled, TopTables;
    ghost var st0 := k.St();
    tf := 0;
    pagetable := EmptyTable(k, p);
    if pagetable == 0 {
      return Panic, 0, 0;
    }
    ghost var st2 := k.St();
    LeafFlagsMean(10);
    PteMeans(tramp / 4096, LeafFlags(10));
    TopTogether(st2, p);
    var ok := k.MapPage(pagetable, TRAMPOLINE * 4096, tramp, 10, p);
    ghost var st3 := k.St();
    if !ok {
      GrownIs(st2, st3, p);
      RemapSpaces(st2, st3, p, map[]);
      FreeTree(k, pagetable, p);
      BackAgain(st0.spaces, st2.spaces, st3.spaces, p);
      return NoMemory, 0, 0;
    }
    RemapSpaces(st2, st3, p, map[TRAMPOLINE := Pte(tramp / 4096, LeafFlags(10))]);
    NoShare(st2, Pte(tramp / 4096, LeafFlags(10)));
    KeptTrans(st0, st2, st3);
    TopMade(st2, st3, p);
    tf := MapTrapframe(k, pagetable, p, st0, tramp);
    res := if tf == 0 then Panic else Made;
  }

  lemma RemapSpaces(st: State, st': State, p: nat, pt: map<nat, Word>)
    requires Remapped(st, st', p, pt)
    ensures p in st.spaces && p in st'.spaces && st'.spaces == st.spaces[p := st'.spaces[p]]
    ensures st'.spaces[p].pt == pt && st'.spaces[p].root == st.spaces[p].root && Kept(st, st')
    ensures st'.first == st.first && |st'.mem| == |st.mem|
  {
  }

  lemma NoShare(st: State, w: Word)
    requires !st.Managed(FrameOf(w))
    ensures Share(st, w) == multiset{}
  {
  }

  lemma OneShare(st: State, w: Word, f: nat)
    requires st.Managed(f) && FrameOf(w) == f
    ensures Share(st, w) == multiset{f}
  {
  }

  lemma FoundedFacts(st0: State, st1: State, p: nat, f: nat)
    requires Inv(st0) && st0.free != [] && f == st0.free[0] < |st0.mem| == |st0.refs| && st0.count > 0
    requires st1 == Replaced(Taken(st0), f, Filled(0)) && p !in st0.spaces
    ensures Kept(st0, Founded(st1, p, f)) && Founded(st1, p, f).held == st0.held
    ensures Founded(st1, p, f).spaces == st0.spaces[p := Space(f, map[], map[], map[])]
  {
    JustTaken(st0, f);
    TakenListed(st0);
    hide Inv;
    TablesMore(st0.spaces, p, Space(f, map[], map[], map[]), f);
    hide IsTable;
    assert st0.held + multiset{f} - multiset{f} == st0.held;
  }

  lemma BackAgain(s0: map<nat, Space>, s2: map<nat, Space>, s3: map<nat, Space>, p: nat)
    requires p !in s0 && p in s2 && p in s3 && s2 == s0[p := s2[p]] && s3 == s2[p := s3[p]]
    ensures s3 - {p} == s0
  {
  }

  /** The trap frame is a frame that was free, now named by the new space alone. */
  lemma MadeFacts(st0: State, st3: State, st4: State, st5: State, p: nat, g: nat, tramp: nat, tf: nat)
    requires Inv(st3) && Inv(st5) && Kept(st0, st3) && p !in st0.spaces && p in st3.spaces && st3.spaces == st0.spaces[p := st3.spaces[p]]
    requires st3.free != [] && g == st3.free[0] < |st3.mem| == |st3.refs| && st3.count > 0 && st4 == Taken(st3)
    requires Remapped(st4, st5, p, Bare(tramp, tf)) && tf == Addr(g) && st5.held == st4.held - Share(st4, Pte(tf / 4096, LeafFlags(6)))
    ensures Kept(st0, st5) && p in st5.spaces && st5.spaces == st0.spaces[p := st5.spaces[p]] && st5.held == st3.held
    ensures g in st0.free && g !in st5.free && !IsTable(st5.spaces, g) && st5.Managed(g)
  {
    hide Listed, Trees, Accounts, LeafFlags, IsTable, Share, SpaceGrown;
    JustTaken(st3, g);
    LeafFlagsMean(6);
    PteMeans(tf / 4096, LeafFlags(6));
    OneShare(st4, Pte(tf / 4096, LeafFlags(6)), g);
    assert st3.held + multiset{g} - multiset{g} == st3.held;
    assert Kept(st3, st4) by {
      TakenListed(st3);
    }
    KeptTrans(st0, st3, st4);
    KeptTrans(st0, st4, st5);
    SpaceIs(st4, st5, p, Bare(tramp, tf));
    NamedFrame(st5, p, TRAPFRAME, g);
  }

  // ----- teardown

  /** The pages of stretch `i` are mapped, and not among those of other stretches. */
  lemma SegMapped(st: State, p: nat, segs: seq<Seg>, i: nat)
    requires LaidOut(st, p, segs) && i < |segs|
    ensures p in st.spaces && forall u: nat :: InSeg(segs[i], u) ==>
      u in st.spaces[p].pt && st.Managed(FrameOf(st.spaces[p].pt[u])) && u < TRAPFRAME && u in Pages(segs)
    ensures forall j, u :: 0 <= j < |segs| && j != i && InSeg(segs[i], u) ==> !InSeg(segs[j], u)
  {
    forall u: nat | InSeg(segs[i], u)
      ensures u in st.spaces[p].pt && st.Managed(FrameOf(st.spaces[p].pt[u])) && u < TRAPFRAME && u in Pages(segs)
    {
      InPages(segs, u);
    }
  }

  /** One stretch of an address space that is being torn down. */
  method DropSeg(k: Kmem, pagetable: nat, va: nat, npages: nat, ghost p: nat, ghost st0: State, ghost segs: seq<Seg>, ghost i: nat,
                 ghost gone: set<nat>)
    requires k.Valid() && LaidOut(st0, p, segs) && i < |segs| && segs[i].v * 4096 == va && segs[i].n == npages
    requires pagetable == Addr(st0.spaces[p].root) && Unmapped(st0, k.St(), p, gone)
    requires forall u :: InSeg(segs[i], u) ==> u !in gone
    modifies k, k.mem, k.refs
    ensures k.Valid() && k.held == old(k.held) && Unmapped(st0, k.St(), p, gone + Range(segs[i].v, segs[i].n))
  {
    hide Inv, Unmapped, LaidOut;
    ghost var st1 := k.St();
    UnmappedSpace(st0, st1, p, gone);
    SegMapped(st0, p, segs, i);
    assert forall u :: va / 4096 <= u < va / 4096 + npages ==> InSeg(segs[i], u);
    k.UvmUnmap(pagetable, va, npages, true, p);
    UnmappedTrans(st0, st1, k.St(), p, gone, Range(segs[i].v, segs[i].n));
  }

  /** The two top pages, and those of the mmap regions before `i`. */
  ghost predicate Gone(gone: set<nat>, maps: seq<Seg>, i: nat)
    requires i <= |maps|
  {
    forall u :: u in gone <==> u == TRAMPOLINE || u == TRAPFRAME || exists j :: 0 <= j < i && InSeg(maps[j], u)
  }

  lemma TopPages(st: State, p: nat, segs: seq<Seg>)
    requires LaidOut(st, p, segs)
    ensures p in st.spaces && TRAMPOLINE in st.spaces[p].pt && TRAPFRAME in st.spaces[p].pt && st.Managed(FrameOf(st.spaces[p].pt[TRAPFRAME]))
    ensures LeafShares(st, st.spaces[p].pt, TRAMPOLINE, 1) == multiset{}
  {
    assert LeafShares(st, st.spaces[p].pt, TRAMPOLINE, 0) == multiset{};
  }

  lemma NextDropped(st: State, p: nat, total: nat, maps: seq<Seg>, gone: set<nat>, i: nat)
    requires total >= USTACK * 4096 && LaidOut(st, p, Segs(total, maps)) && i < |maps| && Gone(gone, maps, i)
    ensures Segs(total, maps)[i + 2] == maps[i]
    ensures forall u :: InSeg(maps[i], u) ==> u !in gone
    ensures Gone(gone + Range(maps[i].v, maps[i].n), maps, i + 1)
  {
    var segs := Segs(total, maps);
    SegMapped(st, p, segs, i + 2);
    hide LaidOut;
    forall u | InSeg(maps[i], u) ensures u !in gone {
      forall j | 0 <= j < i ensures !InSeg(maps[j], u) {
        assert segs[j + 2] == maps[j];
      }
    }
  }

  lemma RestDropped(st: State, p: nat, total: nat, maps: seq<Seg>, gone: set<nat>)
    requires total >= USTACK * 4096 && LaidOut(st, p, Segs(total, maps)) && Gone(gone, maps, |maps|)
    ensures var segs := Segs(total, maps);
      forall u :: InSeg(segs[0], u) || InSeg(segs[1], u) ==> u !in gone && !(InSeg(segs[0], u) && InSeg(segs[1], u))
  {
    var segs := Segs(total, maps);
    SegMapped(st, p, segs, 0);
    SegMapped(st, p, segs, 1);
    hide LaidOut;
    forall u | InSeg(segs[0], u) || InSeg(segs[1], u) ensures u !in gone {
      forall j | 0 <= j < |maps| ensures !InSeg(maps[j], u) {
        assert segs[j + 2] == maps[j];
      }
    }
  }

  lemma AllDropped(st: State, st': State, p: nat, total: nat, maps: seq<Seg>, gone: set<nat>)
    requires total >= USTACK * 4096 && LaidOut(st, p, Segs(total, maps)) && Gone(gone, maps, |maps|)
    requires var segs := Segs(total, maps);
      Unmapped(st, st', p, gone + Range(segs[0].v, segs[0].n) + Range(segs[1].v, segs[1].n))
    ensures p in st'.spaces && st'.spaces[p].pt == map[] && st'.spaces[p].root == st.spaces[p].root
    ensures st'.spaces - {p} == st.spaces - {p}
  {
    var segs := Segs(total, maps);
    var all := gone + Range(segs[0].v, segs[0].n) + Range(segs[1].v, segs[1].n);
    forall u | u in st.spaces[p].pt ensures u in all {
      InPages(segs, u);
      if i :| 0 <= i < |segs| && InSeg(segs[i], u) {
        if i >= 2 {
          assert InSeg(maps[i - 2], u);
        }
      }
    }
    assert st.spaces[p].pt - all == map[];
  }

  /** proc_free_mem_and_pagetable, without shared memory. */
  method Teardown(k: Kmem, pagetable: nat, total: nat, maps: seq<Seg>, ghost p: nat)
    requires k.Valid() && total >= USTACK * 4096 && LaidOut(k.St(), p, Segs(total, maps)) && pagetable == Addr(k.spaces[p].root)
    modifies k, k.mem, k.refs
    ensures k.Valid() && k.spaces == old(k.spaces) - {p} && k.held == old(k.held)
  {
    hide Inv, Unmapped, LaidOut, Gone;
    ghost var st0, segs := k.St(), Segs(total, maps);
    TopPages(st0, p, segs);
    k.UvmUnmap(pagetable, TRAMPOLINE * 4096, 1, false, p);
    ghost var st1 := k.St();
    UnmappedSpace(st0, st1, p, Range(TRAMPOLINE, 1));
    k.UvmUnmap(pagetable, TRAPFRAME * 4096, 1, true, p);
    UnmappedTrans(st0, st1, k.St(), p, Range(TRAMPOLINE, 1), Range(TRAPFRAME, 1));
    ghost var gone := Range(TRAMPOLINE, 1) + Range(TRAPFRAME, 1);
    TopGone(gone, maps);
    var i := 0;
    while i < |maps|
      invariant 0 <= i <= |maps| && k.Valid() && k.held == st0.held && Unmapped(st0, k.St(), p, gone) && Gone(gone, maps, i)
    {
      NextDropped(st0, p, total, maps, gone, i);
      DropSeg(k, pagetable, maps[i].v * 4096, maps[i].n, p, st0, segs, i + 2, gone);
      gone, i := gone + Range(maps[i].v, maps[i].n), i + 1;
    }
    RestDropped(st0, p, total, maps, gone);
    DropSeg(k, pagetable, STACK * 4096, USTACK, p, st0, segs, 0, gone);
    var rest := total - USTACK * 4096;
    DropSeg(k, pagetable, TEXT * 4096, PageUp(rest), p, st0, segs, 1, gone + Range(STACK, USTACK));
    AllDropped(st0, k.St(), p, total, maps, gone);
    FreeTree(k, pagetable, p);
  }

  lemma TopGone(gone: set<nat>, maps: seq<Seg>)
    requires gone == Range(TRAMPOLINE, 1) + Range(TRAPFRAME, 1)
    ensures Gone(gone, maps, 0)
  {
  }

  // ----- clone

  /** The tables of a space once these stretches have theirs. */
  function SegMids(mids: set<nat>, segs: seq<Seg>): set<nat> {
    if segs == [] then mids else var s := segs[|segs| - 1]; Mids(SegMids(mids, segs[..|segs| - 1]), s.v, s.n)
  }

  function SegLows(lows: set<nat>, segs: seq<Seg>): set<nat> {
    if segs == [] then lows else var s := segs[|segs| - 1]; Lows(SegLows(lows, segs[..|segs| - 1]), s.v, s.n)
  }

  /** The frames that copying the stretches takes. */
  function SegsCost(mids: set<nat>, lows: set<nat>, segs: seq<Seg>): nat {
    if segs == [] then 0
    else var s, rest := segs[|segs| - 1], segs[..|segs| - 1];
      SegsCost(mids, lows, rest) + Cost(SegMids(mids, rest), SegLows(lows, rest), s.v, s.n, Each(s.shared))
  }

  /** The pages that are not shared. */
  function OwnPages(segs: seq<Seg>): nat {
    if segs == [] then 0
    else OwnPages(segs[..|segs| - 1]) + if segs[|segs| - 1].shared then 0 else segs[|segs| - 1].n
  }

  /** A frame for each page that is not shared and for each table that is new. */
  lemma {:induction false} SegsCostIs(mids: set<nat>, lows: set<nat>, segs: seq<Seg>)
    ensures SegsCost(mids, lows, segs) == OwnPages(segs) + |SegMids(mids, segs) - mids| + |SegLows(lows, segs) - lows|
    ensures mids <= SegMids(mids, segs) && lows <= SegLows(lows, segs)
  {
    if segs != [] {
      var s, rest := segs[|segs| - 1], segs[..|segs| - 1];
      SegsCostIs(mids, lows, rest);
      CostIs(SegMids(mids, rest), SegLows(lows, rest), s.v, s.n, Each(s.shared));
      Additional(mids, SegMids(mids, rest), SegMids(mids, segs));
      Additional(lows, SegLows(lows, rest), SegLows(lows, segs));
      assert s.n * Each(s.shared) == if s.shared then 0 else s.n;
    }
  }

  lemma Additional(a: set<nat>, b: set<nat>, c: set<nat>)
    requires a <= b <= c
    ensures |c - a| == |b - a| + |c - b|
  {
    assert c - a == (b - a) + (c - b);
  }

  /** A table is there if it was, or if a page of some stretch lies in its part of the space. */
  lemma {:induction false} SegTables(mids: set<nat>, lows: set<nat>, segs: seq<Seg>, x: nat)
    ensures x in SegMids(mids, segs) <==> x in mids || exists i :: 0 <= i < |segs| && Reaches(segs[i], 0x4_0000, x)
    ensures x in SegLows(lows, segs) <==> x in lows || exists i :: 0 <= i < |segs| && Reaches(segs[i], 512, x)
  {
    if segs != [] {
      var m := |segs| - 1;
      SegTables(mids, lows, segs[..m], x);
      TablesNeeded(SegMids(mids, segs[..m]), SegLows(lows, segs[..m]), segs[m].v, segs[m].n, x);
      assert forall i :: 0 <= i < m ==> segs[..m][i] == segs[i];
    }
  }

  ghost predicate Reaches(s: Seg, size: nat, x: nat)
    requires size > 0
  {
    s.n > 0 && s.v / size <= x <= (s.v + s.n - 1) / size
  }

  lemma {:induction false} SegsCostGrows(mids: set<nat>, lows: set<nat>, segs: seq<Seg>, i: nat)
    requires i <= |segs|
    ensures SegsCost(mids, lows, segs[..i]) <= SegsCost(mids, lows, segs)
    decreases |segs| - i
  {
    if i < |segs| {
      assert segs[..i + 1][..i] == segs[..i];
      SegsCostGrows(mids, lows, segs, i + 1);
    } else {
      assert segs[..i] == segs;
    }
  }

  ghost function SegsCosts(st: State, p: nat, segs: seq<Seg>): nat {
    if p in st.spaces then SegsCost(st.spaces[p].mid.Keys, st.spaces[p].low.Keys, segs) else 0
  }

  /** The stretches have been paid for. */
  ghost predicate SegsCharged(st: State, st': State, p: nat, segs: seq<Seg>) {
    && p in st.spaces && p in st'.spaces
    && st'.spaces[p].mid.Keys == SegMids(st.spaces[p].mid.Keys, segs)
    && st'.spaces[p].low.Keys == SegLows(st.spaces[p].low.Keys, segs)
    && |st'.free| + SegsCosts(st, p, segs) == |st.free|
  }

  lemma SegsChargedNone(st: State, p: nat, segs: seq<Seg>)
    requires p in st.spaces
    ensures SegsCharged(st, st, p, segs[..0])
  {
  }

  /** One stretch more, or too few frames for all of them. */
  lemma SegsChargedNext(st: State, st1: State, st2: State, p: nat, segs: seq<Seg>, i: nat, ok: bool)
    requires i < |segs| && SegsCharged(st, st1, p, segs[..i])
    requires ok <==> |st1.free| >= Costs(st1, p, segs[i].v, segs[i].n, Each(segs[i].shared))
    requires ok ==> Charged(st1, st2, p, segs[i].v, segs[i].n, Each(segs[i].shared))
    ensures ok ==> SegsCharged(st, st2, p, segs[..i + 1])
    ensures !ok ==> |st.free| < SegsCosts(st, p, segs)
  {
    assert segs[..i + 1][..i] == segs[..i];
    SegsCostGrows(st.spaces[p].mid.Keys, st.spaces[p].low.Keys, segs, i + 1);
  }

  lemma SegsPaid(st: State, st': State, p: nat, segs: seq<Seg>)
    requires SegsCharged(st, st', p, segs)
    ensures |st.free| >= SegsCosts(st, p, segs)
  {
  }

  /** A write into a frame costs nothing. */
  lemma SegsChargedFilled(st: State, st': State, p: nat, segs: seq<Seg>, all: seq<Seg>, f: nat, page: Page)
    requires f < |st.mem| && f < |st'.mem|
    ensures SegsCharged(st, st', p, segs) ==> SegsCharged(Replaced(st, f, page), Replaced(st', f, page), p, segs)
    ensures SegsCosts(Replaced(st, f, page), p, all) == SegsCosts(st, p, all) && |Replaced(st, f, page).free| == |st.free|
  {
  }

  /** What a new process takes: four frames for the root, the top tables and the trap frame,
      and those for its pages. */
  ghost function CloneCost(segs: seq<Seg>): nat { 4 + SegsCost({255}, {0x1_FFFF}, segs) }

  lemma CloneCosts(st0: State, st1: State, p: nat, segs: seq<Seg>)
    requires TopTables(st1.spaces, p) && |st1.free| + 4 == |st0.free|
    ensures |st1.free| >= SegsCosts(st1, p, segs) <==> |st0.free| >= CloneCost(segs)
  {
  }

  lemma CloneCostsFour(segs: seq<Seg>)
    ensures CloneCost(segs) >= 4
  {
  }

  /** The stack alone takes 128 frames, so that with 4 to 131 of them free clone never returns. */
  lemma CloneDear(total: nat, maps: seq<Seg>)
    requires total >= 0x8_0000
    ensures CloneCost(Segs(total, maps)) >= 132
  {
    SegsCostIs({255}, {0x1_FFFF}, Segs(total, maps));
    OwnPagesGrow(Segs(total, maps), 1);
    assert Segs(total, maps)[..1] == [Seg(STACK, USTACK, false)];
    assert OwnPages([Seg(STACK, USTACK, false)]) == OwnPages([]) + USTACK;
  }

  lemma {:induction false} OwnPagesGrow(segs: seq<Seg>, i: nat)
    requires i <= |segs|
    ensures OwnPages(segs[..i]) <= OwnPages(segs)
    decreases |segs| - i
  {
    if i < |segs| {
      assert segs[..i + 1][..i] == segs[..i];
      OwnPagesGrow(segs, i + 1);
    } else {
      assert segs[..i] == segs;
    }
  }

  /** The child's space has the parent's stretches, each page copied or shared, the
      trampoline, and a trap frame of its own. */
  ghost predicate Cloned(st: State, st': State, po: nat, pn: nat, segs: seq<Seg>, tramp: nat, tf: nat) {
    && LaidOut(st', pn, segs) && st'.held == st.held && st'.spaces == st.spaces[pn := st'.spaces[pn]] && po in st.spaces
    && (forall u :: u in Pages(segs) ==> u in st.spaces[po].pt)
    && (forall u :: u in Pages(segs) ==> Copied(st, st', st.spaces[po].pt[u], st'.spaces[pn].pt[u], Pages(segs)[u]))
    && st'.spaces[pn].pt[TRAMPOLINE] == Pte(tramp / 4096, LeafFlags(10))
    && st'.spaces[pn].pt[TRAPFRAME] == Pte(tf / 4096, LeafFlags(6)) && st'.Managed(FrameAt(tf)) && FrameAt(tf) in st.free
  }

  /** A child made, with nothing copied yet. */
  ghost predicate Empty(st: State, st1: State, po: nat, pn: nat, segs: seq<Seg>, tramp: nat, tf: nat) {
    && LaidOut(st, po, segs) && Room(st, po, Pages(segs)) && po != pn && pn !in st.spaces && pn in st1.spaces
    && st1.spaces == st.spaces[pn := st1.spaces[pn]] && st1.held == st.held && Kept(st, st1)
    && st1.spaces[pn].pt == Bare(tramp, tf) && tf % 4096 == 0 && st1.Managed(FrameAt(tf)) && FrameAt(tramp) < st.first
  }

  /** All that CopyRange asks for, for stretch `i`. */
  lemma CloneRange(st: State, st1: State, po: nat, pn: nat, segs: seq<Seg>, i: nat, tramp: nat, tf: nat)
    requires Inv(st) && Inv(st1) && Empty(st, st1, po, pn, segs, tramp, tf) && i < |segs|
    ensures var done := Pages(segs[..i]); var s := segs[i];
      && s.v + s.n <= PAGES && Room(st1, po, WithRange(done, s.v, s.n, s.shared)) && pn in st1.spaces
      && (forall u :: s.v <= u < s.v + s.n ==>
            u in st1.spaces[po].pt && u !in st1.spaces[pn].pt && u !in done && st1.Managed(FrameOf(st1.spaces[po].pt[u])))
      && WithRange(done, s.v, s.n, s.shared) == Pages(segs[..i + 1])
  {
    hide Inv, Pages, WithSegs, WithRange, LeafFlags, IsTable;
    var s := segs[i];
    SegMapped(st, po, segs, i);
    PagesNext(segs, i);
    forall u: nat | InSeg(s, u) ensures u !in Pages(segs[..i]) {
      InPages(segs[..i], u);
      forall j | 0 <= j < i ensures !InSeg(segs[..i][j], u) {
        assert segs[..i][j] == segs[j];
      }
    }
    RoomLater(st, st1, po, pn, segs, i + 1, tramp, tf);
    forall u | s.v <= u < s.v + s.n
      ensures u in st1.spaces[po].pt && u !in st1.spaces[pn].pt && u !in Pages(segs[..i]) && st1.Managed(FrameOf(st1.spaces[po].pt[u]))
    {
      assert InSeg(s, u);
    }
  }

  lemma PagesNext(segs: seq<Seg>, i: nat)
    requires i < |segs|
    ensures WithRange(Pages(segs[..i]), segs[i].v, segs[i].n, segs[i].shared) == Pages(segs[..i + 1])
  {
    assert segs[..i + 1][..i] == segs[..i];
  }

  /** The pages of the first stretches keep their sharing among all. */
  lemma {:induction false} PagesPrefix(segs: seq<Seg>, i: nat, u: nat)
    requires Apart(segs) && i <= |segs| && u in Pages(segs[..i])
    ensures u in Pages(segs) && Pages(segs)[u] == Pages(segs[..i])[u]
    decreases |segs| - i
  {
    if i == |segs| {
      assert segs[..i] == segs;
    } else {
      InPages(segs[..i], u);
      var j :| 0 <= j < i && InSeg(segs[..i][j], u);
      assert InSeg(segs[j], u) && !InSeg(segs[i], u);
      PagesNext(segs, i);
      PagesPrefix(segs, i + 1, u);
    }
  }

  lemma RoomLater(st: State, st1: State, po: nat, pn: nat, segs: seq<Seg>, i: nat, tramp: nat, tf: nat)
    requires Inv(st) && Inv(st1) && Empty(st, st1, po, pn, segs, tramp, tf) && i <= |segs|
    ensures Room(st1, po, Pages(segs[..i]))
  {
    hide LeafFlags, Sharers, Pages, IsTable, Inv;
    var pt := st.spaces[po].pt;
    ListedManaged(st1, 0);
    forall u | u in Pages(segs[..i]) ensures u in Pages(segs) && Pages(segs)[u] == Pages(segs[..i])[u] {
      PagesPrefix(segs, i, u);
    }
    forall f | 0 <= f < |st1.refs| ensures st1.refs[f] + Sharers(pt, Pages(segs[..i]), f) <= 255 {
      SharersMono(pt, Pages(segs[..i]), Pages(segs), f);
      if f in st.free {
        ListedManaged(st, f);
        FreeNotShared(st, po, Pages(segs[..i]), f);
        SmallCount(st1, f);
      }
    }
  }

  lemma FreeNotShared(st: State, p: nat, done: map<nat, bool>, f: nat)
    requires Inv(st) && p in st.spaces && f in st.free
    ensures Sharers(st.spaces[p].pt, done, f) == 0
  {
    NotTableFree(st, f);
    forall u ensures u !in SharerSet(st.spaces[p].pt, done, f) {
      if u in SharerSet(st.spaces[p].pt, done, f) {
        NamedFrame(st, p, u, f);
      }
    }
    assert SharerSet(st.spaces[p].pt, done, f) == {};
  }

  lemma SmallCount(st: State, f: nat)
    requires Inv(st) && f < |st.refs|
    ensures st.first <= f ==> st.refs[f] <= 255
  {
    if st.first <= f {
      assert Counted(st, f);
    }
  }

  /** The child's trap frame: the parent's, but a system call there returns 0, and perhaps
      on another stack. */
  function TrapCopy(src: Page, cur: Page, sp: Word): Page {
    seq(512, j requires 0 <= j < 512 =>
      if j == 14 then 0 else if j == 6 && sp != 0 then sp else if j < 36 then src[j] else cur[j])
  }

  ghost predicate TrapCopied(st: State, st': State, oldtf: nat, tf: nat, sp: Word) {
    && 0 <= FrameAt(oldtf) < |st.mem| && 0 <= FrameAt(tf) < |st'.mem|
    && forall j :: 0 <= j < 36 ==>
         st'.mem[FrameAt(tf)][j] == if j == 14 then 0 else if j == 6 && sp != 0 then sp else st.mem[FrameAt(oldtf)][j]
  }

  /** A frame that only the child's trap frame names can be written: what was copied so far
      is copied from the state in which it was already written. */
  lemma Rebase(st1: State, st2: State, po: nat, pn: nat, done: map<nat, bool>, f: nat, page: Page)
    requires Inv(st1) && CopiedPages(st1, st2, po, pn, done) && f < |st1.mem| && f !in st1.free
    requires forall u :: u in st1.spaces[po].pt ==> FrameOf(st1.spaces[po].pt[u]) != f
    ensures f < |st2.mem| && CopiedPages(Replaced(st1, f, page), Replaced(st2, f, page), po, pn, done)
  {
    hide Inv, Sharers, IsTable, LeafFlags;
  }

  /** The trap frame of the new child is named by nobody else, and is no table. */
  lemma OwnTrapframe(st0: State, st1: State, po: nat, pn: nat, segs: seq<Seg>, tramp: nat, tf: nat, page: Page)
    requires Inv(st0) && Inv(st1) && Empty(st0, st1, po, pn, segs, tramp, tf) && FrameAt(tf) in st0.free
    requires FrameAt(tf) !in st1.free && !IsTable(st1.spaces, FrameAt(tf))
    ensures po in st1.spaces && FrameAt(tf) < |st1.mem|
    ensures forall u :: u in st1.spaces[po].pt ==> FrameOf(st1.spaces[po].pt[u]) != FrameAt(tf)
    ensures Inv(Replaced(st1, FrameAt(tf), page)) && Empty(st0, Replaced(st1, FrameAt(tf), page), po, pn, segs, tramp, tf)
  {
    hide Listed, Trees, Accounts, LaidOut, Room, IsTable, Pages, Bare;
    LaidOutSpace(st0, po, segs);
    var f: nat := FrameAt(tf);
    WrittenKeeps(st1, f, page);
    ListedManaged(st0, f);
    forall u | u in st1.spaces[po].pt ensures FrameOf(st1.spaces[po].pt[u]) != f {
      if FrameOf(st0.spaces[po].pt[u]) == f {
        NamedFrame(st0, po, u, f);
      }
    }
  }

  /** The loop over the mappings of clone. */
  method CloneMaps(k: Kmem, oldpt: nat, newpt: nat, total: nat, maps: seq<Seg>, ghost po: nat, ghost pn: nat, ghost st0: State,
                   ghost st3: State, ghost tramp: nat, ghost tf: nat) returns (ok: bool)
    requires k.Valid() && Inv(st0) && Inv(st3) && total >= USTACK * 4096 && Empty(st0, st3, po, pn, Segs(total, maps), tramp, tf)
    requires po in st3.spaces && pn in st3.spaces && oldpt == Addr(st3.spaces[po].root) && newpt == Addr(st3.spaces[pn].root)
    requires CopiedPages(st3, k.St(), po, pn, Pages(Segs(total, maps)[..2])) && SegsCharged(st3, k.St(), pn, Segs(total, maps)[..2])
    modifies k, k.mem, k.refs
    ensures k.Valid() && (ok ==> CopiedPages(st3, k.St(), po, pn, Pages(Segs(total, maps))))
    ensures ok <==> |st3.free| >= SegsCosts(st3, pn, Segs(total, maps))
  {
    hide Inv, Room, Empty, CopiedPages, Pages, WithRange, SegsCharged, SegsCosts, Charged, Costs;
    ghost var segs := Segs(total, maps);
    var i := 0;
    while i < |maps|
      invariant 0 <= i <= |maps| && k.Valid() && CopiedPages(st3, k.St(), po, pn, Pages(segs[..i + 2]))
      invariant SegsCharged(st3, k.St(), pn, segs[..i + 2])
    {
      ghost var st := k.St();
      CloneRange(st0, st3, po, pn, segs, i + 2, tramp, tf);
      ok := CopyRange(k, oldpt, newpt, maps[i].v * 4096, maps[i].n, maps[i].shared, po, pn, st3, Pages(segs[..i + 2]));
      SegsChargedNext(st3, st, k.St(), pn, segs, i + 2, ok);
      if !ok {
        return;
      }
      i := i + 1;
    }
    assert segs[..|maps| + 2] == segs;
    SegsPaid(st3, k.St(), pn, segs);
    ok := true;
  }

  /** alloc_proc's page table, uvmcopy, the trap frame and the loop over the mappings of clone;
      `sp` is the stack given by the caller, 0 for none.  Once the child has a page table, too
      few frames are a panic: the exits of the copying loops unmap a page that is not mapped,
      or return to where freeproc finds the trap frame still there. */
  method Clone(k: Kmem, oldpt: nat, oldtf: nat, total: nat, maps: seq<Seg>, tramp: nat, sp: Word, ghost po: nat, ghost pn: nat)
      returns (res: Made, newpt: nat, tf: nat)
    requires k.Valid() && total >= USTACK * 4096 && LaidOut(k.St(), po, Segs(total, maps)) && oldpt == Addr(k.spaces[po].root)
    requires pn !in k.spaces && tramp % 4096 == 0 && FrameAt(tramp) < k.first && FrameAt(tramp) < k.mem.Length
    requires FrameOf(k.spaces[po].pt[TRAPFRAME]) == FrameAt(oldtf)
    requires Room(k.St(), po, Pages(Segs(total, maps)))
    modifies k, k.mem, k.refs
    ensures k.Valid()
    ensures res == Made ==> Cloned(old(k.St()), k.St(), po, pn, Segs(total, maps), tramp, tf) && newpt == Addr(k.spaces[pn].root)
    ensures res == Made ==> TrapCopied(old(k.St()), k.St(), oldtf, tf, sp)
    ensures res == Made <==> |old(k.free)| >= CloneCost(Segs(total, maps))
    ensures res == NoMemory <==> 1 <= |old(k.free)| <= 2
    ensures res == NoMemory ==> k.spaces == old(k.spaces) && k.held == old(k.held)
  {
    hide Inv, LaidOut, Room, Cloned, Empty, CopiedPages, Pages, Kept, IsTable, LeafFlags, Bare, TrapCopied, TrapCopy,
      SegsCharged, SegsCosts, CloneCost, TopTables;
    ghost var st0, segs := k.St(), Segs(total, maps);
    LaidOutSpace(st0, po, segs);
    CloneCostsFour(segs);
    res, newpt, tf := ProcPagetable(k, tramp, pn);
    if res != Made {
      return;
    }
    ghost var st1 := k.St();
    CloneCosts(st0, st1, pn, segs);
    EmptyIs(st0, st1, po, pn, segs, tramp, tf);
    var ok := UvmCopy(k, oldpt, newpt, total, po, pn, st0, st1, maps, tramp, tf);
    if !ok {
      return Panic, 0, 0;
    }
    ghost var st2, f: nat := k.St(), FrameAt(tf);
    ghost var page := TrapCopy(st0.mem[FrameAt(oldtf)], st2.mem[f], sp);
    TrapSource(st0, st1, st2, po, pn, segs, tramp, oldtf, tf);
    k.Fill(tf / 4096 - KERN_PPN, TrapCopy(k.mem[oldtf / 4096 - KERN_PPN], k.mem[tf / 4096 - KERN_PPN], sp));
    OwnTrapframe(st0, st1, po, pn, segs, tramp, tf, page);
    Rebase(st1, st2, po, pn, Pages(segs[..2]), f, page);
    ghost var st3 := Replaced(st1, f, page);
    SegsChargedFilled(st1, st2, pn, segs[..2], segs, f, page);
    ok := CloneMaps(k, oldpt, newpt, total, maps, po, pn, st0, st3, tramp, tf);
    if !ok {
      return Panic, 0, 0;
    }
    ClonedIs(st0, st3, k.St(), po, pn, segs, tramp, tf);
    TrapIs(st0, st3, k.St(), po, pn, segs, oldtf, tf, sp, st2.mem[f]);
  }

  /** uvmcopy: the stack, then the program and its heap. */
  method UvmCopy(k: Kmem, oldpt: nat, newpt: nat, total: nat, ghost po: nat, ghost pn: nat, ghost st0: State, ghost st1: State,
                 ghost maps: seq<Seg>, ghost tramp: nat, ghost tf: nat) returns (ok: bool)
    requires k.Valid() && Inv(st0) && k.St() == st1 && total >= USTACK * 4096
    requires Empty(st0, st1, po, pn, Segs(total, maps), tramp, tf)
    requires po in st1.spaces && pn in st1.spaces && po != pn && oldpt == Addr(st1.spaces[po].root) && newpt == Addr(st1.spaces[pn].root)
    modifies k, k.mem, k.refs
    ensures k.Valid() && (ok ==> CopiedPages(st1, k.St(), po, pn, Pages(Segs(total, maps)[..2])))
    ensures ok ==> SegsCharged(st1, k.St(), pn, Segs(total, maps)[..2])
    ensures !ok ==> |st1.free| < SegsCosts(st1, pn, Segs(total, maps))
  {
    hide Inv, LaidOut, Room, Empty, CopiedPages, Pages, WithRange, SegsCharged, SegsCosts, Charged, Costs, PageUp;
    ghost var segs := Segs(total, maps);
    CopyStart(st1, po, pn);
    NoPages(segs);
    CloneRange(st0, st1, po, pn, segs, 0, tramp, tf);
    SegsChargedNone(st1, pn, segs);
    ok := CopyRange(k, oldpt, newpt, STACK * 4096, USTACK, false, po, pn, st1, Pages(segs[..0]));
    SegsChargedNext(st1, st1, k.St(), pn, segs, 0, ok);
    if ok {
      ghost var st2 := k.St();
      CloneRange(st0, st1, po, pn, segs, 1, tramp, tf);
      var rest := total - USTACK * 4096;
      ok := CopyRange(k, oldpt, newpt, TEXT * 4096, PageUp(rest), false, po, pn, st1, Pages(segs[..1]));
      SegsChargedNext(st1, st2, k.St(), pn, segs, 1, ok);
    }
  }

  lemma NoPages(segs: seq<Seg>)
    ensures Pages(segs[..0]) == map[]
  {
  }

  lemma LaidOutSpace(st: State, p: nat, segs: seq<Seg>)
    requires LaidOut(st, p, segs)
    ensures p in st.spaces && TRAPFRAME in st.spaces[p].pt && TRAMPOLINE in st.spaces[p].pt
    ensures st.Managed(FrameOf(st.spaces[p].pt[TRAPFRAME]))
  {
  }

  lemma EmptyIs(st: State, st1: State, po: nat, pn: nat, segs: seq<Seg>, tramp: nat, tf: nat)
    requires LaidOut(st, po, segs) && Room(st, po, Pages(segs)) && po in st.spaces && pn !in st.spaces && pn in st1.spaces
    requires st1.spaces == st.spaces[pn := st1.spaces[pn]] && st1.held == st.held && Kept(st, st1)
    requires st1.spaces[pn].pt == Bare(tramp, tf) && tf % 4096 == 0 && st1.Managed(FrameAt(tf)) && FrameAt(tramp) < st.first
    ensures Empty(st, st1, po, pn, segs, tramp, tf) && po != pn && po in st1.spaces && st1.spaces[po] == st.spaces[po]
  {
  }

  /** The parent's trap frame still has its contents, and the child's may be written. */
  lemma TrapSource(st0: State, st1: State, st2: State, po: nat, pn: nat, segs: seq<Seg>, tramp: nat, oldtf: nat, tf: nat)
    requires Inv(st0) && Inv(st1) && Inv(st2) && Empty(st0, st1, po, pn, segs, tramp, tf)
    requires |segs| >= 2 && CopiedPages(st1, st2, po, pn, Pages(segs[..2]))
    requires po in st0.spaces && TRAPFRAME in st0.spaces[po].pt && FrameOf(st0.spaces[po].pt[TRAPFRAME]) == FrameAt(oldtf)
    requires st0.Managed(FrameAt(oldtf)) && FrameAt(tf) !in st1.free && !IsTable(st1.spaces, FrameAt(tf))
    ensures FrameAt(oldtf) < |st2.mem| == |st0.mem| && st2.mem[FrameAt(oldtf)] == st0.mem[FrameAt(oldtf)]
    ensures 0 <= FrameAt(tf) < |st2.mem| && FrameAt(tf) !in st2.free && !IsTable(st2.spaces, FrameAt(tf))
  {
    hide LaidOut, Room, Pages, IsTable, Inv, CopiedPages;
    NamedFrame(st0, po, TRAPFRAME, FrameAt(oldtf));
    ListedManaged(st0, 0);
    KeptFrame(st0, st1, FrameAt(oldtf));
    NamedFrame(st1, po, TRAPFRAME, FrameAt(oldtf));
    CopyKeeps(st1, st2, po, pn, Pages(segs[..2]), FrameAt(oldtf));
    CopyKeeps(st1, st2, po, pn, Pages(segs[..2]), FrameAt(tf));
  }

  lemma KeptFrame(st: State, st': State, f: nat)
    requires Kept(st, st') && f < |st.mem| && f !in st.free && !IsTable(st.spaces, f)
    ensures |st'.mem| == |st.mem| && st'.mem[f] == st.mem[f] && st'.first == st.first
  {
  }

  /** Copying leaves alone what is neither free nor a table. */
  lemma CopyKeeps(st: State, st': State, po: nat, pn: nat, done: map<nat, bool>, f: nat)
    requires CopiedPages(st, st', po, pn, done) && f < |st.mem| && f !in st.free && !IsTable(st.spaces, f)
    ensures |st'.mem| == |st.mem| && st'.mem[f] == st.mem[f] && f !in st'.free && !IsTable(st'.spaces, f)
  {
    hide IsTable, Sharers, Copied, SpaceGrown;
  }

  lemma ClonedIs(st0: State, st3: State, st4: State, po: nat, pn: nat, segs: seq<Seg>, tramp: nat, tf: nat)
    requires Inv(st0) && Empty(st0, st3, po, pn, segs, tramp, tf) && CopiedPages(st3, st4, po, pn, Pages(segs))
    requires FrameAt(tf) in st0.free
    ensures Cloned(st0, st4, po, pn, segs, tramp, tf) && pn in st4.spaces && st4.spaces[pn].root == st3.spaces[pn].root
  {
    hide Inv, Room, Pages, IsTable, Sharers, LeafFlags, Pte;
    LaidOutSpace(st0, po, segs);
    CopiedSpaces(st3, st4, po, pn, Pages(segs));
    forall u | u in Pages(segs)
      ensures u in st0.spaces[po].pt && Copied(st0, st4, st0.spaces[po].pt[u], st4.spaces[pn].pt[u], Pages(segs)[u])
    {
      CopiedSince(st0, st3, st4, po, pn, Pages(segs), u);
    }
    ClonedLayout(st0, st3, st4, po, pn, segs, tramp, tf);
  }

  lemma CopiedSpaces(st: State, st': State, po: nat, pn: nat, done: map<nat, bool>)
    requires CopiedPages(st, st', po, pn, done)
    ensures po in st.spaces && pn in st.spaces && pn in st'.spaces && st'.spaces == st.spaces[pn := st'.spaces[pn]]
    ensures st'.held == st.held && st'.spaces[pn].root == st.spaces[pn].root && st'.first == st.first && |st'.mem| == |st.mem|
    ensures forall u :: u in st'.spaces[pn].pt <==> u in st.spaces[pn].pt || u in done
    ensures forall u :: u in st.spaces[pn].pt ==> st'.spaces[pn].pt[u] == st.spaces[pn].pt[u]
    ensures forall u :: u in done ==> u in st.spaces[po].pt
  {
  }

  /** A page copied since the child was made is copied since before. */
  lemma CopiedSince(st0: State, st3: State, st4: State, po: nat, pn: nat, done: map<nat, bool>, u: nat)
    requires Inv(st0) && CopiedPages(st3, st4, po, pn, done) && u in done && Kept(st0, st3)
    requires po in st0.spaces && po in st3.spaces && st3.spaces[po] == st0.spaces[po]
    ensures u in st0.spaces[po].pt && pn in st4.spaces && u in st4.spaces[pn].pt
    ensures Copied(st0, st4, st0.spaces[po].pt[u], st4.spaces[pn].pt[u], done[u])
  {
    hide Inv, IsTable, Sharers, LeafFlags;
    var w, w' := st3.spaces[po].pt[u], st4.spaces[pn].pt[u];
    assert Copied(st3, st4, w, w', done[u]);
    NamedFrame(st0, po, u, FrameOf(w));
    KeptFrame(st0, st3, FrameOf(w));
    CopiedEarlier(st0, st3, st4, w, w', done[u]);
  }

  lemma ClonedLayout(st0: State, st3: State, st4: State, po: nat, pn: nat, segs: seq<Seg>, tramp: nat, tf: nat)
    requires Empty(st0, st3, po, pn, segs, tramp, tf) && CopiedPages(st3, st4, po, pn, Pages(segs))
    requires pn in st4.spaces
    requires forall u :: u in Pages(segs) ==> u in st0.spaces[po].pt && u in st4.spaces[pn].pt
    requires forall u :: u in Pages(segs) ==> Copied(st0, st4, st0.spaces[po].pt[u], st4.spaces[pn].pt[u], Pages(segs)[u])
    ensures LaidOut(st4, pn, segs) && st4.spaces[pn].pt[TRAMPOLINE] == Pte(tramp / 4096, LeafFlags(10))
    ensures st4.spaces[pn].pt[TRAPFRAME] == Pte(tf / 4096, LeafFlags(6))
  {
    hide Room, Pages, IsTable, Sharers, LeafFlags, Pte, CopiedPages, Kept;
    CopiedSpaces(st3, st4, po, pn, Pages(segs));
    LeafFlagsMean(10);
    LeafFlagsMean(6);
    PteMeans(tramp / 4096, LeafFlags(10));
    PteMeans(tf / 4096, LeafFlags(6));
    KeptSizes(st0, st3);
    var pt := st4.spaces[pn].pt;
    assert Apart(segs);
    forall u ensures u in pt <==> u == TRAMPOLINE || u == TRAPFRAME || u in Pages(segs) {
    }
    CopiedManaged(st0, st3, st4, po, pn, segs);
    forall u | u in pt && u != TRAMPOLINE ensures st4.Managed(FrameOf(pt[u])) {
    }
  }

  lemma KeptSizes(st: State, st': State)
    requires Kept(st, st')
    ensures st'.first == st.first && |st'.mem| == |st.mem|
  {
  }

  lemma CopiedManaged(st0: State, st3: State, st4: State, po: nat, pn: nat, segs: seq<Seg>)
    requires po in st0.spaces && pn in st4.spaces
    requires forall u :: u in Pages(segs) ==> u in st0.spaces[po].pt && u in st4.spaces[pn].pt
    requires forall u :: u in Pages(segs) ==> Copied(st0, st4, st0.spaces[po].pt[u], st4.spaces[pn].pt[u], Pages(segs)[u])
    ensures forall u :: u in Pages(segs) ==> st4.Managed(FrameOf(st4.spaces[pn].pt[u]))
  {
    hide Pages, LeafFlags;
  }

  lemma TrapIs(st0: State, st3: State, st4: State, po: nat, pn: nat, segs: seq<Seg>, oldtf: nat, tf: nat, sp: Word, cur: Page)
    requires CopiedPages(st3, st4, po, pn, Pages(segs)) && 0 <= FrameAt(oldtf) < |st0.mem| && 0 <= FrameAt(tf) < |st3.mem|
    requires st3.mem[FrameAt(tf)] == TrapCopy(st0.mem[FrameAt(oldtf)], cur, sp)
    requires FrameAt(tf) !in st3.free && !IsTable(st3.spaces, FrameAt(tf))
    ensures TrapCopied(st0, st4, oldtf, tf, sp)
  {
    hide CopiedPages, IsTable;
    CopyKeeps(st3, st4, po, pn, Pages(segs), FrameAt(tf));
  }

  /** A child made by clone and torn down again leaves every frame where it was: the same
      frames are free, as many of them, and the others have the same counts. */
  method CloneThenTeardown(k: Kmem, oldpt: nat, oldtf: nat, total: nat, maps: seq<Seg>, tramp: nat, ghost po: nat, ghost pn: nat)
      returns (made: bool)
    requires k.Valid() && total >= USTACK * 4096 && LaidOut(k.St(), po, Segs(total, maps)) && oldpt == Addr(k.spaces[po].root)
    requires pn !in k.spaces && tramp % 4096 == 0 && FrameAt(tramp) < k.first && FrameAt(tramp) < k.mem.Length
    requires FrameOf(k.spaces[po].pt[TRAPFRAME]) == FrameAt(oldtf)
    requires Room(k.St(), po, Pages(Segs(total, maps)))
    modifies k, k.mem, k.refs
    ensures k.Valid()
    ensures made <==> |old(k.free)| >= CloneCost(Segs(total, maps))
    ensures made ==> k.spaces == old(k.spaces) && k.count == old(k.count)
    ensures made ==> forall f :: f in k.free <==> f in old(k.free)
    ensures made ==> forall f :: old(k.St()).Managed(f) && f < k.refs.Length ==> k.refs[f] == old(k.refs[f])
  {
    hide Inv, LaidOut, Room, Pages, TrapCopied;
    ghost var st0 := k.St();
    var res, newpt, tf := Clone(k, oldpt, oldtf, total, maps, tramp, 0, po, pn);
    made := res == Made;
    if made {
      ghost var st1 := k.St();
      ClonedSpace(st0, st1, po, pn, Segs(total, maps), tramp, tf);
      Teardown(k, newpt, total, maps, pn);
      assert k.spaces == st0.spaces;
      ListedManaged(st0, 0);
      Conserved(st0, k.St());
    }
  }

  lemma ClonedSpace(st: State, st': State, po: nat, pn: nat, segs: seq<Seg>, tramp: nat, tf: nat)
    requires Cloned(st, st', po, pn, segs, tramp, tf)
    ensures pn in st'.spaces && LaidOut(st', pn, segs) && st'.spaces == st.spaces[pn := st'.spaces[pn]] && st'.held == st.held
  {
  }
}
