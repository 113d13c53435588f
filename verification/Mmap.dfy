/** mmap and munmap: the table of regions and the page table change together, so that the
    regions cover exactly the pages that mmap has mapped and munmap has not removed. */
module Mmap {
  import opened Arith
  import opened Basics
  import opened Stretches
  import opened MapTable
  import opened VmState
  import opened VmKernel
  import opened VmProcess

  /** The pages of a process: the stretches `base` and the regions of its table. */
  ghost predicate Agrees(st: State, p: nat, base: seq<Seg>, l: seq<Seg>) {
    && LaidOut(st, p, base + l) && Sorted(l) && forall i :: 0 <= i < |base| ==> base[i].n > 0
  }

  lemma BothPages(base: seq<Seg>, l: seq<Seg>, u: nat)
    ensures u in Pages(base + l) <==> u in Pages(base) || u in Pages(l)
  {
    InPages(base, u);
    InPages(l, u);
    InPages(base + l, u);
    if i :| 0 <= i < |base| && InSeg(base[i], u) {
      assert (base + l)[i] == base[i];
    }
    if i :| 0 <= i < |l| && InSeg(l[i], u) {
      assert (base + l)[|base| + i] == l[i];
    }
  }

  /** Stretches keep apart when the pages they cover do. */
  lemma ApartByPages(base: seq<Seg>, l: seq<Seg>)
    requires (forall i :: 0 <= i < |base| ==> base[i].n > 0) && Sorted(l) && Apart(base)
    requires forall u :: u in Pages(l) ==> u < TRAPFRAME && u !in Pages(base)
    ensures Apart(base + l)
  {
    var s := base + l;
    forall i | 0 <= i < |l| ensures l[i].v + l[i].n <= TRAPFRAME {
      InPages(l, l[i].v + l[i].n - 1);
      assert InSeg(l[i], l[i].v + l[i].n - 1);
    }
    forall i, j | 0 <= i < |base| && 0 <= j < |l|
      ensures base[i].v + base[i].n <= l[j].v || l[j].v + l[j].n <= base[i].v
    {
      var u := if base[i].v < l[j].v then l[j].v else base[i].v;
      InPages(base, u);
      InPages(l, u);
      assert InSeg(base[i], u) && InSeg(l[j], u) ==> false;
    }
    hide Pages;
    forall i, j | 0 <= i < j < |s| ensures s[i].v + s[i].n <= s[j].v || s[j].v + s[j].n <= s[i].v {
      if j < |base| {
        assert s[i] == base[i] && s[j] == base[j];
      } else if i < |base| {
        assert s[i] == base[i] && s[j] == l[j - |base|];
      } else {
        assert s[i] == l[i - |base|] && s[j] == l[j - |base|];
      }
    }
  }

  lemma ApartPart(base: seq<Seg>, l: seq<Seg>)
    requires Apart(base + l)
    ensures Apart(base)
  {
    assert forall i :: 0 <= i < |base| ==> (base + l)[i] == base[i];
  }

  /** In a process that agrees, regions and other stretches share no page. */
  lemma AgreesPages(st: State, p: nat, base: seq<Seg>, l: seq<Seg>, u: nat)
    requires Agrees(st, p, base, l)
    ensures u in Pages(l) ==> u !in Pages(base) && u < TRAPFRAME && p in st.spaces && u in st.spaces[p].pt
    ensures u in Pages(l) ==> st.Managed(FrameOf(st.spaces[p].pt[u]))
  {
    InPages(base, u);
    InPages(l, u);
    BothPages(base, l, u);
    if j :| 0 <= j < |l| && InSeg(l[j], u) {
      SegMapped(st, p, base + l, |base| + j);
      assert (base + l)[|base| + j] == l[j];
      assert forall i :: 0 <= i < |base| ==> (base + l)[i] == base[i];
    }
  }

  lemma SplitsInside(l: seq<Seg>, u: nat)
    requires Splits(l, u)
    ensures Inside(l, u)
  {
  }

  /** A page that leaves the table and the page table leaves both agreeing. */
  lemma AgreesWithout(st: State, st': State, p: nat, base: seq<Seg>, l: seq<Seg>, l': seq<Seg>, u: nat)
    requires Agrees(st, p, base, l) && u in Pages(l) && Sorted(l') && Pages(l') == Pages(l) - {u}
    requires Unmapped(st, st', p, {u})
    ensures Agrees(st', p, base, l')
  {
    hide Pages, Sorted;
    forall x | x in Pages(l') ensures x < TRAPFRAME && x !in Pages(base) {
      AgreesPages(st, p, base, l, x);
    }
    ApartPart(base, l);
    ApartByPages(base, l');
    AgreesPages(st, p, base, l, u);
    forall x: nat ensures x in st'.spaces[p].pt <==> x == TRAMPOLINE || x == TRAPFRAME || x in Pages(base + l') {
      BothPages(base, l, x);
      BothPages(base, l', x);
    }
  }

  /** `len` bytes in pages, `npages` being a 32-bit number. */
  function PageCount(len: nat): nat { (len + 4095) / 4096 % 0x1_0000_0000 }

  /** As many as the length needs, up to 2^44 bytes; beyond, multiples of that do not count. */
  lemma PageCountIs(len: nat)
    ensures len <= 0xFFF_FFFF_F000 ==> len <= PageCount(len) * 4096 < len + 4096
    ensures PageCount(len + 0x1000_0000_0000) == PageCount(len)
  {
    assert (len + 0x1000_0000_0000 + 4095) / 4096 == (len + 4095) / 4096 + 0x1_0000_0000;
  }

  /** It is none for a positive length that ends less than a page before, or at, a multiple of
      2^44, and for no other. */
  lemma LengthLost(len: nat)
    requires 0 < len
    ensures PageCount(len) == 0 <==> (len + 4095) % 0x1000_0000_0000 < 4096
  {
    var q := (len + 4095) / 0x1000_0000_0000;
    assert (len + 4095) / 4096 == q * 0x1_0000_0000 + (len + 4095) % 0x1000_0000_0000 / 4096;
  }

  /** 64-bit addresses, in pages. */
  const ADDRESSES := 0x10_0000_0000_0000

  /** How many pages the loops from page `v` on go through: none when the end of the range
      wraps at 2^64. */
  function Reach(v: nat, npages: nat): nat { if v + Eff(npages) < ADDRESSES then Eff(npages) else 0 }

  /** The loops go through all pages of a range exactly when these are fewer than 2^20. */
  lemma PagesShort(v: nat, npages: nat)
    requires v + npages < ADDRESSES
    ensures Reach(v, npages) == npages <==> npages < WRAP
    ensures Reach(2, PageCount(WRAP * 4096)) == 0
  {
  }

  /** munmap: -1 unless some page was removed; a panic exactly when the table is full and the
      first page cuts a region in two. */
  method Munmap(k: Kmem, t: Table, pagetable: nat, start: nat, len: nat, ghost p: nat, ghost base: seq<Seg>) returns (res: int)
    requires k.Valid() && t.Valid() && Agrees(k.St(), p, base, t.used) && p in k.spaces && pagetable == Addr(k.spaces[p].root)
    requires t.maps as object !in {k.mem, k.refs} && start / 4096 < ADDRESSES
    modifies k, k.mem, k.refs, t, t.maps
    ensures var v, n := start / 4096, if start % 4096 == 0 then Reach(start / 4096, PageCount(len)) else 0;
      && (res == PANIC <==> |old(t.used)| == MAX_MAPPING && n > 0 && Splits(old(t.used), v))
      && (res != PANIC ==>
           && k.Valid() && t.Valid() && Agrees(k.St(), p, base, t.used)
           && Pages(t.used) == Pages(old(t.used)) - Range(v, n) && More(old(t.used), t.used, v, n)
           && res == (if Pages(old(t.used)).Keys * Range(v, n) != {} then 0 else -1)
           && OnlySpace(old(k.St()), k.St(), p, Pages(old(t.used)).Keys * Range(v, n)))
  {
    hide Agrees, Pages, Sorted, Inv, Spans, Splits;
    ghost var l0 := t.used;
    if start % 4096 != 0 {
      assert Range(start / 4096, 0) == {} && Pages(l0).Keys * {} == {};
      NothingGone(k.St(), p, Pages(l0));
      return -1;
    }
    var npages := PageCount(len);
    var removed, panicked := RemovePages(k, t, pagetable, start / 4096, Reach(start / 4096, npages), p, base);
    res := if panicked then PANIC else if removed then 0 else -1;
  }

  /** The translation of space `p` has lost these pages, and nothing else of who owns what
      has changed. */
  ghost predicate OnlySpace(st: State, st': State, p: nat, gone: set<nat>) {
    && p in st.spaces && st'.held == st.held
    && st'.spaces == st.spaces[p := st.spaces[p].(pt := st.spaces[p].pt - gone)]
    && forall f :: f in st.free ==> f in st'.free
  }

  /** There is one region more exactly when one goes on on both sides of the range. */
  ghost predicate More(l: seq<Seg>, l': seq<Seg>, v: nat, n: nat) {
    if n > 0 && Spans(l, v, n) then |l'| == |l| + 1 else |l'| <= |l|
  }

  lemma NothingGone(st: State, p: nat, pages: map<nat, bool>)
    requires p in st.spaces
    ensures OnlySpace(st, st, p, {}) && pages - {} == pages
  {
    assert st.spaces[p].pt - {} == st.spaces[p].pt;
    assert st.spaces[p := st.spaces[p]] == st.spaces;
  }

  lemma MoreGone(a: State, b: State, c: State, p: nat, x: set<nat>, y: set<nat>)
    requires OnlySpace(a, b, p, x) && OnlySpace(b, c, p, y)
    ensures OnlySpace(a, c, p, x + y)
  {
    assert a.spaces[p].pt - x - y == a.spaces[p].pt - (x + y);
  }

  /** The loop of munmap, and of mmap with MAP_FIXED: page by page out of both tables.  A
      region is split at most at the first page, so that one spare slot is enough. */
  method RemovePages(k: Kmem, t: Table, pagetable: nat, v: nat, n: nat, ghost p: nat, ghost base: seq<Seg>)
    returns (removed: bool, panicked: bool)
    requires k.Valid() && t.Valid() && Agrees(k.St(), p, base, t.used) && p in k.spaces && pagetable == Addr(k.spaces[p].root)
    requires t.maps as object !in {k.mem, k.refs}
    modifies k, k.mem, k.refs, t, t.maps
    ensures panicked <==> |old(t.used)| == MAX_MAPPING && n > 0 && Splits(old(t.used), v)
    ensures !panicked ==> k.Valid() && t.Valid() && Agrees(k.St(), p, base, t.used)
    ensures !panicked ==> Pages(t.used) == Pages(old(t.used)) - Range(v, n) && More(old(t.used), t.used, v, n)
    ensures !panicked ==> (removed <==> Pages(old(t.used)).Keys * Range(v, n) != {})
    ensures !panicked ==> OnlySpace(old(k.St()), k.St(), p, Pages(old(t.used)).Keys * Range(v, n))
  {
    hide Agrees, Pages, Sorted, Inv, Splits, Inside, OnlySpace, TakenOut, Spans, Parted;
    ghost var l0, i, st0 := t.used, 0, k.St();
    removed, panicked := false, false;
    AgreesSorted(st0, p, base, l0);
    var u := v;
    assert Pages(l0).Keys * Range(v, 0) == {};
    NothingGone(st0, p, Pages(l0));
    while u < v + n
      invariant k.Valid() && t.Valid() && u == v + i && i <= n && Agrees(k.St(), p, base, t.used)
      invariant p in k.spaces && pagetable == Addr(k.spaces[p].root) && Pages(t.used) == Pages(l0) - Range(v, i)
      invariant removed <==> Pages(l0).Keys * Range(v, i) != {}
      invariant OnlySpace(st0, k.St(), p, Pages(l0).Keys * Range(v, i))
      invariant !panicked && (i > 0 ==> !(|l0| == MAX_MAPPING && Splits(l0, v)))
      invariant if i == 0 then t.used == l0 else TakenOut(l0, t.used, v, i) && !Inside(t.used, u)
    {
      if i > 0 && Splits(t.used, u) {
        SplitsInside(t.used, u);
      }
      ghost var st1, l1 := k.St(), t.used;
      AgreesSorted(st1, p, base, l1);
      var r;
      r, panicked := RemovePage(k, t, pagetable, u, p, base);
      if panicked {
        return;
      }
      removed := removed || r;
      if i == 0 {
        TakenFirst(l0, t.used, v);
      } else {
        TakenNext(l0, l1, t.used, v, i);
      }
      NextGone(l0, l1, v, i);
      MoreGone(st0, st1, k.St(), p, Pages(l0).Keys * Range(v, i), Pages(l1).Keys * {u});
      u, i := u + 1, i + 1;
    }
    if n > 0 {
      TakenAll(l0, t.used, v, n);
    }
  }

  lemma NextGone(l0: seq<Seg>, l1: seq<Seg>, v: nat, i: nat)
    requires Pages(l1) == Pages(l0) - Range(v, i)
    ensures Pages(l0).Keys * Range(v, i) + Pages(l1).Keys * {v + i} == Pages(l0).Keys * Range(v, i + 1)
    ensures Pages(l1) - {v + i} == Pages(l0) - Range(v, i + 1)
  {
  }

  /** One turn of the loops of munmap and of mmap with MAP_FIXED. */
  method RemovePage(k: Kmem, t: Table, pagetable: nat, u: nat, ghost p: nat, ghost base: seq<Seg>)
    returns (removed: bool, panicked: bool)
    requires k.Valid() && t.Valid() && Agrees(k.St(), p, base, t.used) && p in k.spaces && pagetable == Addr(k.spaces[p].root)
    requires t.maps as object !in {k.mem, k.refs}
    modifies k, k.mem, k.refs, t, t.maps
    ensures panicked <==> Splits(old(t.used), u) && |old(t.used)| == MAX_MAPPING
    ensures !panicked ==> k.Valid() && t.Valid() && k.held == old(k.held) && Agrees(k.St(), p, base, t.used)
    ensures !panicked ==> Pages(t.used) == Pages(old(t.used)) - {u} && (removed <==> Pages(old(t.used)).Keys * {u} != {})
    ensures !panicked && u !in Pages(old(t.used)) ==> t.used == old(t.used)
    ensures !panicked ==> forall i :: 0 <= i < |old(t.used)| && InSeg(old(t.used)[i], u) ==> Parted(old(t.used), t.used, i, u)
    ensures !panicked ==> !Inside(t.used, u + 1) && OnlySpace(old(k.St()), k.St(), p, Pages(old(t.used)).Keys * {u})
  {
    hide Agrees, Pages, Sorted, Inv, Splits, Inside, Parted;
    removed, panicked := false, false;
    AgreesSorted(k.St(), p, base, t.used);
    NoneWithout(t.used, u);
    var r := t.TryRemovePage(u);
    if r == PANIC {
      return false, true;
    }
    if r == 0 {
      removed := true;
      ghost var st := k.St();
      AgreesPages(st, p, base, old(t.used), u);
      k.UvmUnmap(pagetable, u * 4096, 1, true, p);
      assert Range(u, 1) == {u} && Pages(old(t.used)).Keys * {u} == {u};
      AgreesWithout(st, k.St(), p, base, old(t.used), t.used, u);
    } else {
      assert Pages(old(t.used)).Keys * {u} == {};
      NothingGone(k.St(), p, Pages(t.used));
    }
    NotInside(t.used, u);
  }

  lemma NoneWithout(l: seq<Seg>, u: nat)
    ensures u !in Pages(l) ==> forall i :: 0 <= i < |l| ==> !InSeg(l[i], u)
  {
    InPages(l, u);
  }

  lemma NotInside(l: seq<Seg>, u: nat)
    requires u !in Pages(l)
    ensures !Inside(l, u + 1)
  {
    InPages(l, u);
    if i :| 0 <= i < |l| && l[i].v < u + 1 < l[i].v + l[i].n {
      assert InSeg(l[i], u);
    }
  }

  // ----- looking for room

  /** No page of the range is mapped, and the tables for its entries are there. */
  ghost predicate IsFreeAt(s: Space, v: nat, n: nat) {
    forall u :: v <= u < v + n ==> u !in s.pt && u / 512 in s.low
  }

  /** Walk to one page, and see whether its entry is in use. */
  method ProbePage(k: Kmem, pagetable: nat, u: nat, ghost p: nat) returns (found: bool, free: bool)
    requires k.Valid() && p in k.spaces && pagetable == Addr(k.spaces[p].root) && u < PAGES
    modifies k, k.mem, k.refs
    ensures k.Valid() && p in k.spaces && Grown(old(k.St()), k.St(), p)
    ensures !found ==> k.free == []
    ensures found ==> u / 512 in k.spaces[p].low && (free <==> u !in k.spaces[p].pt)
    ensures u / 512 in old(k.spaces[p].low) ==> found && k.St() == old(k.St())
  {
    hide Inv, Grown;
    assert u * 4096 / 4096 == u;
    var t: nat;
    free := false;
    ghost var st1 := k.St();
    found, t := k.Walk(pagetable, u * 4096, true, p);
    GrownSpace(st1, k.St(), p);
    if found {
      LeafMeans(k.St(), p, u);
      assert k.St().mem[t] == k.mem[t];
      free := k.mem[t][PX(0, u)] % 2 == 0;
    }
  }

  /** Some page of the range is mapped. */
  ghost predicate Occupied(pt: map<nat, Word>, v: nat, n: nat) { exists u :: v <= u < v + n && u in pt }

  /** is_free_range, which makes the tables that are missing.  Walk panics at a page past
      MAXVA, which a range that begins below it never gets to: the trampoline is before it. */
  method IsFreeRange(k: Kmem, pagetable: nat, v: nat, npages: nat, ghost p: nat) returns (b: bool, panicked: bool)
    requires k.Valid() && p in k.spaces && pagetable == Addr(k.spaces[p].root)
    modifies k, k.mem, k.refs
    ensures k.Valid() && p in k.spaces && Grown(old(k.St()), k.St(), p)
    ensures TRAMPOLINE in old(k.spaces[p].pt) ==> (panicked <==> PAGES <= v && Reach(v, npages) > 0)
    ensures panicked ==> !b && Reach(v, npages) > 0
    ensures Reach(v, npages) == 0 ==> b && k.St() == old(k.St())
    ensures b ==> IsFreeAt(k.spaces[p], v, Reach(v, npages)) && (Reach(v, npages) > 0 ==> v + Reach(v, npages) <= PAGES)
    ensures !b && !panicked ==> k.free == [] || Occupied(old(k.spaces[p].pt), v, Reach(v, npages))
    ensures Reach(v, npages) > 0 && v in old(k.spaces[p].pt) ==> !b && !panicked && k.St() == old(k.St())
    ensures v + Reach(v, npages) <= PAGES && IsFreeAt(old(k.spaces[p]), v, Reach(v, npages)) ==> b && k.St() == old(k.St())
  {
    hide Inv, Grown;
    ghost var st0 := k.St();
    GrownRefl(st0, p);
    MappedHome(st0, p, v);
    var u := v;
    while u < v + Reach(v, npages)
      invariant v <= u <= v + Reach(v, npages) && k.Valid() && p in k.spaces && Grown(st0, k.St(), p)
      invariant IsFreeAt(k.spaces[p], v, u - v) && (u > v ==> u <= PAGES && v !in st0.spaces[p].pt && u - 1 !in st0.spaces[p].pt)
      invariant u == v || IsFreeAt(st0.spaces[p], v, Reach(v, npages)) ==> k.St() == st0
    {
      if PAGES <= u {
        return false, true;
      }
      ghost var st1 := k.St();
      GrownSpace(st0, st1, p);
      var found, free := ProbePage(k, pagetable, u, p);
      GrownTrans(st0, st1, k.St(), p);
      GrownSpace(st1, k.St(), p);
      if !found || !free {
        return false, false;
      }
      u := u + 1;
    }
    b, panicked := true, false;
  }

  lemma MappedHome(st: State, p: nat, v: nat)
    requires Inv(st) && p in st.spaces
    ensures v in st.spaces[p].pt ==> v < PAGES && v / 512 in st.spaces[p].low
  {
    RootFrame(st, p);
    VmState.Parts(st.mem, st.spaces[p]);
  }

  lemma GrownSpace(st: State, st': State, p: nat)
    requires Grown(st, st', p)
    ensures p in st.spaces && p in st'.spaces && st'.spaces[p].root == st.spaces[p].root && st'.spaces[p].pt == st.spaces[p].pt
    ensures forall q :: q in st.spaces[p].low ==> q in st'.spaces[p].low
    ensures st'.held == st.held && st'.spaces == st.spaces[p := st'.spaces[p]]
  {
  }

  /** Where get_free_range looks: from the hint up if there is one, else from the stack down.
      The limits are computed in 32 bits. */
  predicate InWindow(npages: nat, hint: nat, c: nat) {
    if hint != 0 then hint <= c <= (STACK - (npages + 1)) % WRAP else TEXT < c <= (STACK - npages) % WRAP
  }

  /** By address, for a range that has room there: above the hint, with a page to spare below
      the stack, or above the first page, right up to the stack. */
  lemma WindowIs(npages: nat, hint: nat, c: nat)
    requires npages < 0xBFF80
    ensures hint != 0 ==> (InWindow(npages, hint, c) <==> hint <= c && 4096 * (c + npages + 1) <= 0xBFF8_0000)
    ensures hint == 0 ==> (InWindow(npages, hint, c) <==> 0x1000 < 4096 * c && 4096 * (c + npages) <= 0xBFF8_0000)
  {
  }

  /** It looks there before it looks at `v`, or there at all if `v` is 0. */
  predicate Passed(npages: nat, hint: nat, v: nat, c: nat) {
    InWindow(npages, hint, c) && (v == 0 || if hint != 0 then c < v else v < c)
  }

  ghost predicate AllOccupied(pt: map<nat, Word>, npages: nat, hint: nat, v: nat) {
    forall c :: Passed(npages, hint, v, c) ==> Occupied(pt, c, Eff(npages))
  }

  /** get_free_range: the first place with room, or 0. */
  method GetFreeRange(k: Kmem, pagetable: nat, npages: nat, hint: nat, ghost p: nat) returns (v: nat)
    requires k.Valid() && p in k.spaces && pagetable == Addr(k.spaces[p].root) && TRAMPOLINE in k.spaces[p].pt
    modifies k, k.mem, k.refs
    ensures k.Valid() && p in k.spaces && Grown(old(k.St()), k.St(), p) && (Eff(npages) == 0 ==> k.St() == old(k.St()))
    ensures v != 0 ==> InWindow(npages, hint, v) && v + Eff(npages) <= PAGES && IsFreeAt(k.spaces[p], v, Eff(npages))
    ensures (Eff(npages) > 0 && k.free == []) || AllOccupied(old(k.spaces[p].pt), npages, hint, v)
  {
    hide Inv, Grown, IsFreeAt, Occupied, AllOccupied;
    ghost var st0, pt := k.St(), k.spaces[p].pt;
    GrownRefl(st0, p);
    if hint != 0 {
      v := hint;
      NonePassed(pt, npages, hint, v);
      while v <= (STACK - (npages + 1)) % WRAP
        invariant k.Valid() && p in k.spaces && Grown(st0, k.St(), p) && v >= hint && (Eff(npages) == 0 ==> k.St() == st0)
        invariant (Eff(npages) > 0 && k.free == []) || AllOccupied(pt, npages, hint, v)
      {
        ghost var st1 := k.St();
        GrownSpace(st0, st1, p);
        var b, panicked := IsFreeRange(k, pagetable, v, npages, p);
        assert !panicked;
        GrownTrans(st0, st1, k.St(), p);
        GrownFree(st1, k.St(), p);
        if b {
          return;
        }
        OnePassed(pt, npages, hint, v, v + 1);
        v := v + 1;
      }
    } else {
      v := (STACK - npages) % WRAP;
      NonePassed(pt, npages, hint, v);
      while v > TEXT
        invariant k.Valid() && p in k.spaces && Grown(st0, k.St(), p) && (Eff(npages) == 0 ==> k.St() == st0)
        invariant v <= (STACK - npages) % WRAP && ((Eff(npages) > 0 && k.free == []) || AllOccupied(pt, npages, hint, v))
      {
        ghost var st1 := k.St();
        GrownSpace(st0, st1, p);
        var b, panicked := IsFreeRange(k, pagetable, v, npages, p);
        assert !panicked;
        GrownTrans(st0, st1, k.St(), p);
        GrownFree(st1, k.St(), p);
        if b {
          return;
        }
        OnePassed(pt, npages, hint, v, v - 1);
        v := v - 1;
      }
    }
    AllPassed(pt, npages, hint, v);
    v := 0;
  }

  lemma NonePassed(pt: map<nat, Word>, npages: nat, hint: nat, v: nat)
    requires if hint != 0 then v == hint else v == (STACK - npages) % WRAP
    ensures AllOccupied(pt, npages, hint, v)
  {
    hide Occupied;
  }

  lemma OnePassed(pt: map<nat, Word>, npages: nat, hint: nat, v: nat, v': nat)
    requires v' != 0 && v' == if hint != 0 then v + 1 else v - 1
    ensures AllOccupied(pt, npages, hint, v) && Occupied(pt, v, Eff(npages)) ==> AllOccupied(pt, npages, hint, v')
  {
    hide Occupied;
  }

  lemma AllPassed(pt: map<nat, Word>, npages: nat, hint: nat, v: nat)
    requires if hint != 0 then v > (STACK - (npages + 1)) % WRAP else v <= TEXT
    ensures AllOccupied(pt, npages, hint, v) ==> AllOccupied(pt, npages, hint, 0)
  {
    hide Occupied;
    forall c | Passed(npages, hint, 0, c)
      ensures Passed(npages, hint, v, c)
    {
    }
  }

  lemma GrownFree(st: State, st': State, p: nat)
    requires Grown(st, st', p)
    ensures st.free == [] ==> st'.free == []
  {
    if st'.free != [] {
      assert st'.free[0] in st'.free;
    }
  }

  // ----- the frames

  /** What the new pages hold: zeros, or pages of a file as far as it goes. */
  datatype Source = Anonymous | File(pages: seq<Page>)

  predicate HasPage(src: Source, i: nat) { src.Anonymous? || i < |src.pages| }

  /** There is a page for each of the first `n`. */
  predicate Supplied(src: Source, n: nat) { src.Anonymous? || n <= |src.pages| }

  function Content(src: Source, i: nat): Page
    requires HasPage(src, i)
  {
    match src
    case Anonymous => Filled(0)
    case File(pages) => pages[i]
  }

  /** Without a file every word is 0. */
  lemma ContentIs(src: Source, i: nat, k: nat)
    requires HasPage(src, i) && k < 512
    ensures Content(src, i)[k] == if src.Anonymous? then 0 else src.pages[i][k]
  {
    assert Filled(0)[k] == 0;
  }

  function Frames(pas: seq<nat>): multiset<nat> {
    if pas == [] then multiset{} else Frames(pas[..|pas| - 1]) + (if FrameAt(pas[|pas| - 1]) >= 0 then multiset{FrameAt(pas[|pas| - 1])} else multiset{})
  }

  /** A frame fetched since `st`: it was free, and now holds its page for mmap to map. */
  ghost predicate Ready(st: State, st': State, pa: nat, page: Page) {
    var f := FrameAt(pa);
    && pa % 4096 == 0 && 0 <= f < |st'.mem| && f < |st'.refs| && st'.Managed(f) && st'.refs[f] == 1
    && f in st.free && f !in st'.free && !IsTable(st'.spaces, f) && st'.mem[f] == page
  }

  ghost predicate Fetched(st: State, st': State, pas: seq<nat>, src: Source) {
    && st'.spaces == st.spaces && st'.held == st.held + Frames(pas) && Kept(st, st')
    && (forall i :: 0 <= i < |pas| ==> HasPage(src, i) && Ready(st, st', pas[i], Content(src, i)))
    && (forall i, j :: 0 <= i < j < |pas| ==> pas[i] != pas[j])
  }

  lemma FramesMore(pas: seq<nat>, pa: nat)
    requires FrameAt(pa) >= 0
    ensures Frames(pas + [pa]) == Frames(pas) + multiset{FrameAt(pa)}
  {
    assert (pas + [pa])[..|pas|] == pas;
  }

  /** One more frame. */
  lemma FetchedMore(st0: State, st1: State, pas: seq<nat>, src: Source, f: nat)
    requires Inv(st1) && Fetched(st0, st1, pas, src) && HasPage(src, |pas|)
    requires st1.free != [] && f == st1.free[0] < |st1.mem| == |st1.refs| && st1.count > 0
    ensures Fetched(st0, Replaced(Taken(st1), f, Content(src, |pas|)), pas + [Addr(f)], src)
  {
    var page := Content(src, |pas|);
    var st2 := Replaced(Taken(st1), f, page);
    JustTaken(st1, f);
    TakenListed(st1);
    FetchedIs(st0, st1, pas, src);
    FreshReady(st0, st1, f, page);
    TakenKept(st1, f, page);
    AllReady(st0, st1, pas, src, f, page);
    hide Inv, IsTable, Kept, Frames, Content, HasPage, Ready, Fetched;
    KeptTrans(st0, st1, st2);
    FramesMore(pas, Addr(f));
    assert st0.held + Frames(pas) + multiset{f} == st0.held + (Frames(pas) + multiset{f});
    FetchedMade(st0, st2, pas, Addr(f), src);
  }

  lemma FetchedIs(st: State, st': State, pas: seq<nat>, src: Source)
    requires Fetched(st, st', pas, src)
    ensures st'.spaces == st.spaces && st'.held == st.held + Frames(pas) && Kept(st, st')
    ensures forall i, j :: 0 <= i < j < |pas| ==> pas[i] != pas[j]
  {
  }

  lemma FetchedMade(st: State, st': State, pas: seq<nat>, pa: nat, src: Source)
    requires st'.spaces == st.spaces && st'.held == st.held + Frames(pas + [pa]) && Kept(st, st')
    requires forall i :: 0 <= i < |pas| ==> HasPage(src, i) && Ready(st, st', pas[i], Content(src, i)) && pas[i] != pa
    requires HasPage(src, |pas|) && Ready(st, st', pa, Content(src, |pas|))
    requires forall i, j :: 0 <= i < j < |pas| ==> pas[i] != pas[j]
    ensures Fetched(st, st', pas + [pa], src)
  {
    hide Ready, Kept, Frames, Content, HasPage;
    var pas' := pas + [pa];
    forall i | 0 <= i < |pas'| ensures HasPage(src, i) && Ready(st, st', pas'[i], Content(src, i)) {
      if i < |pas| {
        assert pas'[i] == pas[i];
      }
    }
  }

  lemma AllReady(st0: State, st1: State, pas: seq<nat>, src: Source, f: nat, page: Page)
    requires Fetched(st0, st1, pas, src)
    requires st1.free != [] && f == st1.free[0] < |st1.mem| == |st1.refs| && st1.count > 0
    ensures forall i :: 0 <= i < |pas| ==>
      HasPage(src, i) && Ready(st0, Replaced(Taken(st1), f, page), pas[i], Content(src, i)) && pas[i] != Addr(f)
  {
    forall i | 0 <= i < |pas|
      ensures HasPage(src, i) && Ready(st0, Replaced(Taken(st1), f, page), pas[i], Content(src, i)) && pas[i] != Addr(f)
    {
      hide Ready, Content, HasPage, Kept, Frames;
      ReadyStays(st0, st1, pas[i], Content(src, i), f, page);
    }
  }

  lemma ReadyStays(st0: State, st1: State, pa: nat, page: Page, f: nat, other: Page)
    requires Ready(st0, st1, pa, page) && st1.free != [] && f == st1.free[0] < |st1.mem| == |st1.refs| && st1.count > 0
    ensures Ready(st0, Replaced(Taken(st1), f, other), pa, page) && pa != Addr(f)
  {
    hide IsTable;
  }

  lemma FreshReady(st0: State, st1: State, f: nat, page: Page)
    requires Kept(st0, st1) && st1.free != [] && f == st1.free[0] < |st1.mem| == |st1.refs| && st1.count > 0
    requires st1.Managed(f) && !IsTable(st1.spaces, f) && f !in Taken(st1).free
    ensures Ready(st0, Replaced(Taken(st1), f, page), Addr(f), page)
  {
    hide IsTable;
  }

  lemma TakenKept(st1: State, f: nat, page: Page)
    requires st1.free != [] && f == st1.free[0] < |st1.mem| == |st1.refs| && st1.count > 0
    requires forall g :: g in Taken(st1).free ==> g in st1.free
    ensures Kept(st1, Replaced(Taken(st1), f, page))
  {
    hide IsTable;
  }

  /** The loops that allocate the frames of an mmap and fill them; what was taken goes back
      when a frame or a page of the file is missing. */
  method Fetch(k: Kmem, npages: nat, src: Source) returns (ok: bool, pas: seq<nat>)
    requires k.Valid()
    modifies k, k.mem, k.refs
    ensures k.Valid() && (ok ==> |pas| == npages && Fetched(old(k.St()), k.St(), pas, src))
    ensures !ok ==> k.spaces == old(k.spaces) && k.held == old(k.held)
    ensures !ok ==> |k.free| == |old(k.free)| && (npages > |k.free| || !Supplied(src, npages))
  {
    hide Inv, Fetched, Content;
    ghost var st0 := k.St();
    pas := [];
    FetchedNone(st0, src);
    while |pas| < npages
      invariant |pas| <= npages && k.Valid() && Fetched(st0, k.St(), pas, src) && |k.free| == |st0.free| - |pas|
    {
      ghost var st1 := k.St();
      var pa := 0;
      if HasPage(src, |pas|) {
        pa := k.Alloc();
      }
      if pa == 0 {
        GiveBack(k, pas, st0, src);
        SameFree(st0, k.St());
        return false, pas;
      }
      JustTaken(st1, pa / 4096 - KERN_PPN);
      k.Fill(pa / 4096 - KERN_PPN, Content(src, |pas|));
      FetchedMore(st0, st1, pas, src, pa / 4096 - KERN_PPN);
      pas := pas + [pa];
    }
    ok := true;
  }

  lemma SameFree(st: State, st': State)
    requires Inv(st) && Inv(st') && st'.spaces == st.spaces && st'.held == st.held
    requires st'.first == st.first && |st'.mem| == |st.mem|
    ensures |st'.free| == |st.free|
  {
    hide Inv;
    Conserved(st, st');
    MoreFree(st, st');
    MoreFree(st', st);
  }

  lemma FetchedNone(st: State, src: Source)
    ensures Fetched(st, st, [], src)
  {
  }

  lemma {:induction false} FramesPrefix(pas: seq<nat>, i: nat)
    requires i <= |pas|
    ensures Frames(pas[..i]) <= Frames(pas)
    decreases |pas| - i
  {
    if i == |pas| {
      assert pas[..i] == pas;
    } else {
      FramesPrefix(pas, i + 1);
      assert pas[..i + 1][..i] == pas[..i];
    }
  }

  /** The next frame is still held. */
  lemma NextHeld(st0: State, st1: State, st: State, pas: seq<nat>, src: Source, i: nat)
    requires Fetched(st0, st1, pas, src) && Inv(st) && i < |pas| && st.first == st1.first && |st.mem| == |st1.mem|
    requires st.held == st0.held + Frames(pas) - Frames(pas[..i])
    ensures pas[i] % 4096 == 0 && st.Managed(FrameAt(pas[i])) && st.held[FrameAt(pas[i])] > 0
    ensures FrameAt(pas[i]) < |st.refs| == |st.mem| && 0 < st.refs[FrameAt(pas[i])] < 256
    ensures st.held - multiset{FrameAt(pas[i])} == st0.held + Frames(pas) - Frames(pas[..i + 1])
  {
    hide Inv, Frames, Fetched;
    FetchedFrame(st0, st1, pas, src, i);
    HeldNext(st0.held, pas, i);
    HeldCount(st, FrameAt(pas[i]));
  }

  lemma FetchedFrame(st0: State, st1: State, pas: seq<nat>, src: Source, i: nat)
    requires Fetched(st0, st1, pas, src) && i < |pas|
    ensures pas[i] % 4096 == 0 && 0 <= FrameAt(pas[i]) && st1.Managed(FrameAt(pas[i]))
  {
    assert Ready(st0, st1, pas[i], Content(src, i));
  }

  lemma HeldNext(held: multiset<nat>, pas: seq<nat>, i: nat)
    requires i < |pas| && FrameAt(pas[i]) >= 0
    ensures (held + Frames(pas) - Frames(pas[..i]))[FrameAt(pas[i])] > 0
    ensures held + Frames(pas) - Frames(pas[..i]) - multiset{FrameAt(pas[i])} == held + Frames(pas) - Frames(pas[..i + 1])
  {
    hide Frames;
    FramesPrefix(pas, i + 1);
    assert pas[..i + 1] == pas[..i] + [pas[i]];
    FramesMore(pas[..i], pas[i]);
  }

  lemma HeldCount(st: State, f: nat)
    requires Inv(st) && st.Managed(f) && st.held[f] > 0
    ensures |st.refs| == |st.mem| && 0 < st.refs[f] < 256
  {
    hide Listed, Trees, Names, IsTable;
    assert Counted(st, f);
  }

  /** free_pages: the frames taken so far are put back. */
  method GiveBack(k: Kmem, pas: seq<nat>, ghost st0: State, ghost src: Source)
    requires k.Valid() && Fetched(st0, k.St(), pas, src)
    modifies k, k.mem, k.refs
    ensures k.Valid() && k.spaces == st0.spaces && k.held == st0.held
  {
    hide Inv, Fetched, Frames;
    ghost var st1 := k.St();
    var i := 0;
    FetchedHeld(st0, st1, pas, src);
    while i < |pas|
      invariant 0 <= i <= |pas| && k.Valid() && k.spaces == st0.spaces
      invariant k.held == st0.held + Frames(pas) - Frames(pas[..i])
    {
      NextHeld(st0, st1, k.St(), pas, src, i);
      k.Put(pas[i]);
      i := i + 1;
    }
    assert pas[..i] == pas;
  }

  lemma FetchedHeld(st0: State, st1: State, pas: seq<nat>, src: Source)
    requires Fetched(st0, st1, pas, src)
    ensures st1.spaces == st0.spaces && st1.held == st0.held + Frames(pas) - Frames(pas[..0])
    ensures st1.first == st0.first && |st1.mem| == |st0.mem| && forall i :: 0 <= i < |pas| ==> HasPage(src, i)
  {
  }

  // ----- the mapping

  /** A translation with pages from `v` on mapped to these frames. */
  function MapList(pt: map<nat, Word>, v: nat, pas: seq<nat>, n: nat, flags: nat): map<nat, Word>
    requires n <= |pas|
  {
    if n == 0 then pt else MapList(pt, v, pas, n - 1, flags)[v + n - 1 := Pte(pas[n - 1] / 4096, flags)]
  }

  lemma {:induction false} ListMeans(pt: map<nat, Word>, v: nat, pas: seq<nat>, n: nat, flags: nat, u: nat)
    requires n <= |pas|
    ensures u in MapList(pt, v, pas, n, flags) <==> u in pt || v <= u < v + n
    ensures v <= u < v + n ==> MapList(pt, v, pas, n, flags)[u] == Pte(pas[u - v] / 4096, flags)
    ensures u in pt && !(v <= u < v + n) ==> MapList(pt, v, pas, n, flags)[u] == pt[u]
  {
    if n > 0 {
      ListMeans(pt, v, pas, n - 1, flags, u);
    }
  }

  /** Page `i` of the new region at `v`: its flags, on a managed frame with the right contents. */
  ghost predicate NewRegionPage(st: State, p: nat, v: nat, i: nat, flags: nat, src: Source) {
    && p in st.spaces && v + i in st.spaces[p].pt && HasPage(src, i)
    && var w := st.spaces[p].pt[v + i];
       w % 1024 == flags && 0 <= FrameOf(w) < |st.mem| && st.Managed(FrameOf(w)) && st.mem[FrameOf(w)] == Content(src, i)
  }

  /** The loop of mmap that maps what was fetched; map1page cannot fail here. */
  method MapAll(k: Kmem, pagetable: nat, v: nat, pas: seq<nat>, perm: nat, ghost p: nat, ghost st0: State, ghost src: Source)
    requires k.Valid() && p in k.spaces && pagetable == Addr(k.spaces[p].root) && Fetched(st0, k.St(), pas, src)
    requires v + |pas| <= PAGES && IsFreeAt(k.spaces[p], v, |pas|) && 1 < perm < 1024
    modifies k, k.mem, k.refs
    ensures k.Valid() && p in k.spaces && k.held == st0.held
    ensures Remapped(old(k.St()), k.St(), p, MapList(old(k.spaces[p].pt), v, pas, |pas|, Or(perm, 1)))
    ensures forall i :: 0 <= i < |pas| ==> NewRegionPage(k.St(), p, v, i, Or(perm, 1), src)
  {
    hide Inv, Fetched, Frames, Remapped, Content, Pte;
    ghost var st1, i := k.St(), 0;
    ghost var pt := k.spaces[p].pt;
    var j := 0;
    FetchedHeld(st0, st1, pas, src);
    GrownRefl(st1, p);
    GrownIs(st1, st1, p);
    while j < |pas|
      invariant 0 <= j <= |pas| && k.Valid() && p in k.spaces
      invariant Remapped(st1, k.St(), p, MapList(pt, v, pas, j, Or(perm, 1)))
      invariant k.held == st0.held + Frames(pas) - Frames(pas[..j])
    {
      MapFetched(k, pagetable, v, pas, perm, p, st0, st1, src, j);
      j := j + 1;
    }
    assert pas[..j] == pas;
    RemapSpaces(st1, k.St(), p, MapList(pt, v, pas, |pas|, Or(perm, 1)));
    forall i | 0 <= i < |pas| ensures NewRegionPage(k.St(), p, v, i, Or(perm, 1), src) {
      ListMeans(pt, v, pas, |pas|, Or(perm, 1), v + i);
      RegionPage(st0, st1, k.St(), p, v, pas, src, perm, i);
    }
  }

  /** One turn of that loop. */
  method MapFetched(k: Kmem, pagetable: nat, v: nat, pas: seq<nat>, perm: nat, ghost p: nat, ghost st0: State, ghost st1: State,
                    ghost src: Source, j: nat)
    requires k.Valid() && p in k.spaces && p in st1.spaces && pagetable == Addr(st1.spaces[p].root) && Fetched(st0, st1, pas, src)
    requires v + |pas| <= PAGES && IsFreeAt(st1.spaces[p], v, |pas|) && 1 < perm < 1024 && j < |pas|
    requires Remapped(st1, k.St(), p, MapList(st1.spaces[p].pt, v, pas, j, Or(perm, 1)))
    requires k.held == st0.held + Frames(pas) - Frames(pas[..j])
    modifies k, k.mem, k.refs
    ensures k.Valid() && p in k.spaces && Remapped(st1, k.St(), p, MapList(st1.spaces[p].pt, v, pas, j + 1, Or(perm, 1)))
    ensures k.held == st0.held + Frames(pas) - Frames(pas[..j + 1])
  {
    hide Inv, Fetched, Frames, Remapped, Content, Pte, Share, IsFreeAt, Or;
    ghost var st2 := k.St();
    ghost var pt := MapList(st1.spaces[p].pt, v, pas, j, Or(perm, 1));
    RemapSpaces(st1, st2, p, pt);
    PageIsNew(st1, st2, p, v, pas, j, Or(perm, 1));
    FrameIsHeld(st0, st1, st2, pas, src, j, perm);
    assert (v + j) * 4096 / 4096 == v + j;
    var r := k.Map1Page(pagetable, (v + j) * 4096, pas[j], perm, p);
    assert r >= 0;  // otherwise it panics
    RemappedTrans(st1, st2, k.St(), p, pt, pt[v + j := Pte(pas[j] / 4096, Or(perm, 1))]);
  }

  /** The next page of the region is not mapped, and its table is there. */
  lemma PageIsNew(st1: State, st2: State, p: nat, v: nat, pas: seq<nat>, j: nat, flags: nat)
    requires p in st1.spaces && j < |pas| && IsFreeAt(st1.spaces[p], v, |pas|)
    requires Remapped(st1, st2, p, MapList(st1.spaces[p].pt, v, pas, j, flags))
    ensures v + j !in MapList(st1.spaces[p].pt, v, pas, j, flags) && p in st2.spaces && (v + j) / 512 in st2.spaces[p].low
  {
    hide MapList, Remapped;
    RemapLow(st1, st2, p, MapList(st1.spaces[p].pt, v, pas, j, flags));
    ListMeans(st1.spaces[p].pt, v, pas, j, flags, v + j);
  }

  /** Its frame is held, and mapping it takes just that reference. */
  lemma FrameIsHeld(st0: State, st1: State, st2: State, pas: seq<nat>, src: Source, j: nat, perm: nat)
    requires Fetched(st0, st1, pas, src) && Inv(st2) && j < |pas| && st2.first == st1.first && |st2.mem| == |st1.mem|
    requires st2.held == st0.held + Frames(pas) - Frames(pas[..j]) && 1 < perm < 1024
    ensures pas[j] % 4096 == 0 && st2.Managed(FrameAt(pas[j])) && st2.held[FrameAt(pas[j])] > 0 && FrameAt(pas[j]) < |st2.mem|
    ensures st2.held - Share(st2, Pte(pas[j] / 4096, Or(perm, 1))) == st0.held + Frames(pas) - Frames(pas[..j + 1])
  {
    hide Inv, Fetched, Frames, Pte, Share, Or;
    NextHeld(st0, st1, st2, pas, src, j);
    OrMeans(perm, 1, 1023);
    PteMeans(pas[j] / 4096, Or(perm, 1));
    OneShare(st2, Pte(pas[j] / 4096, Or(perm, 1)), FrameAt(pas[j]));
  }

  lemma RemapLow(st: State, st': State, p: nat, pt: map<nat, Word>)
    requires Remapped(st, st', p, pt)
    ensures p in st.spaces && p in st'.spaces && forall q :: q in st.spaces[p].low ==> q in st'.spaces[p].low
  {
  }

  lemma RegionPage(st0: State, st1: State, st2: State, p: nat, v: nat, pas: seq<nat>, src: Source, perm: nat, i: nat)
    requires Fetched(st0, st1, pas, src) && Kept(st1, st2) && i < |pas| && 1 < perm < 1024
    requires p in st2.spaces && v + i in st2.spaces[p].pt && st2.spaces[p].pt[v + i] == Pte(pas[i] / 4096, Or(perm, 1))
    ensures NewRegionPage(st2, p, v, i, Or(perm, 1), src)
  {
    hide IsTable, Frames, Content;
    assert Ready(st0, st1, pas[i], Content(src, i));
    OrMeans(perm, 1, 1023);
    PteMeans(pas[i] / 4096, Or(perm, 1));
  }

  // ----- mmap

  lemma AgreesGrown(st: State, st': State, p: nat, base: seq<Seg>, l: seq<Seg>)
    requires Agrees(st, p, base, l) && p in st'.spaces && st'.spaces[p].pt == st.spaces[p].pt
    requires st'.first == st.first && |st'.mem| == |st.mem|
    ensures Agrees(st', p, base, l)
  {
    hide Pages, Sorted;
  }

  lemma GrownSizes(st: State, st': State, p: nat)
    requires Grown(st, st', p)
    ensures st'.first == st.first && |st'.mem| == |st.mem|
  {
  }

  /** A free range overlaps no region and stays below the trap frame. */
  lemma RangeIsFree(st: State, p: nat, base: seq<Seg>, l: seq<Seg>, v: nat, n: nat)
    requires Agrees(st, p, base, l) && p in st.spaces && IsFreeAt(st.spaces[p], v, n) && n > 0 && v + n <= PAGES
    ensures Disjoint(l, Seg(v, n, false)) && v + n <= TRAPFRAME
    ensures forall i :: 0 <= i < |l| && l[i].v <= v ==> l[i].v + l[i].n <= v
    ensures forall u :: v <= u < v + n ==> u !in Pages(base) && u !in Pages(l) && u !in st.spaces[p].pt
  {
    forall u | v <= u < v + n ensures u !in Pages(base) && u !in Pages(l) {
      BothPages(base, l, u);
    }
    forall i | 0 <= i < |l| ensures l[i].v + l[i].n <= v || v + n <= l[i].v {
      var u := if l[i].v < v then v else l[i].v;
      InPages(l, u);
      if l[i].v <= u < l[i].v + l[i].n {
        assert InSeg(l[i], u);
      }
    }
    hide Pages;
    assert TRAPFRAME in st.spaces[p].pt && TRAMPOLINE in st.spaces[p].pt;
  }

  /** A new region in both tables leaves them agreeing. */
  lemma AgreesWith(st: State, st': State, p: nat, base: seq<Seg>, l: seq<Seg>, l': seq<Seg>, m: Seg)
    requires Agrees(st, p, base, l) && Sorted(l') && Joined(l, l', m) && p in st'.spaces && m.v + m.n <= TRAPFRAME
    requires forall u :: InSeg(m, u) ==> u !in Pages(base) && u !in Pages(l)
    requires st'.first == st.first && |st'.mem| == |st.mem|
    requires forall u :: u in st'.spaces[p].pt <==> u in st.spaces[p].pt || InSeg(m, u)
    requires forall u :: u in st.spaces[p].pt ==> st'.spaces[p].pt[u] == st.spaces[p].pt[u]
    requires forall u :: InSeg(m, u) ==> st'.Managed(FrameOf(st'.spaces[p].pt[u]))
    ensures Agrees(st', p, base, l')
  {
    hide Pages, Sorted, Joined, Apart;
    PagesWith(st, p, base, l, l', m);
    ApartPart(base, l);
    ApartByPages(base, l');
    TableWith(st, st', p, base, l, l', m);
    LaidOutWith(st, st', p, base + l, base + l', m);
  }

  lemma PagesWith(st: State, p: nat, base: seq<Seg>, l: seq<Seg>, l': seq<Seg>, m: Seg)
    requires Agrees(st, p, base, l) && Sorted(l') && Joined(l, l', m) && m.v + m.n <= TRAPFRAME
    requires forall u :: InSeg(m, u) ==> u !in Pages(base) && u !in Pages(l)
    ensures forall u: nat :: u in Pages(l') <==> u in Pages(l) || InSeg(m, u)
    ensures forall u :: u in Pages(l') ==> u < TRAPFRAME && u !in Pages(base)
  {
    var i :| 0 <= i <= |l| && l' == Inserted(l, i, m);
    hide Pages, Sorted, Inserted, Joined;
    forall u: nat ensures u in Pages(l') <==> u in Pages(l) || InSeg(m, u) {
      InsertedPages(l, i, m, u);
    }
    forall u | u in Pages(l') ensures u < TRAPFRAME && u !in Pages(base) {
      AgreesPages(st, p, base, l, u);
    }
  }

  lemma LaidOutWith(st: State, st': State, p: nat, s: seq<Seg>, s': seq<Seg>, m: Seg)
    requires LaidOut(st, p, s) && Apart(s') && p in st'.spaces && m.v + m.n <= TRAPFRAME
    requires st'.first == st.first && |st'.mem| == |st.mem|
    requires forall u :: u in st'.spaces[p].pt <==> u in st.spaces[p].pt || InSeg(m, u)
    requires forall u :: u in st.spaces[p].pt ==> st'.spaces[p].pt[u] == st.spaces[p].pt[u]
    requires forall u :: InSeg(m, u) ==> st'.Managed(FrameOf(st'.spaces[p].pt[u]))
    requires forall u: nat :: u in st'.spaces[p].pt <==> u == TRAMPOLINE || u == TRAPFRAME || u in Pages(s')
    ensures LaidOut(st', p, s')
  {
    hide Pages, Apart, FrameOf;
  }

  lemma TableWith(st: State, st': State, p: nat, base: seq<Seg>, l: seq<Seg>, l': seq<Seg>, m: Seg)
    requires Agrees(st, p, base, l) && p in st'.spaces
    requires forall u: nat :: u in Pages(l') <==> u in Pages(l) || InSeg(m, u)
    requires forall u :: u in st'.spaces[p].pt <==> u in st.spaces[p].pt || InSeg(m, u)
    ensures forall u: nat :: u in st'.spaces[p].pt <==> u == TRAMPOLINE || u == TRAPFRAME || u in Pages(base + l')
  {
    hide Pages, Sorted;
    forall u: nat ensures u in st'.spaces[p].pt <==> u == TRAMPOLINE || u == TRAPFRAME || u in Pages(base + l') {
      BothPages(base, l, u);
      BothPages(base, l', u);
    }
  }

  /** PTE_U and the permissions asked for. */
  function PageProt(prot: nat): nat {
    16 + (if prot % 2 == 1 then 2 else 0) + (if prot / 2 % 2 == 1 then 4 else 0) + (if prot / 4 % 2 == 1 then 8 else 0)
  }

  /** A leaf for user code with just the permissions asked for: valid, readable, writable and
      executable are bits 0 to 3, user is bit 4 (RISC-V Privileged Architecture, section 4.3). */
  predicate Permits(w: Word, prot: nat) {
    && w % 2 == 1 && (w / 2 % 2 == 1 <==> prot % 2 == 1) && (w / 4 % 2 == 1 <==> prot / 2 % 2 == 1)
    && (w / 8 % 2 == 1 <==> prot / 4 % 2 == 1) && w / 16 % 2 == 1 && w / 32 % 32 == 0
  }

  lemma ProtBits(w: Word, prot: nat)
    requires w % 1024 == Or(PageProt(prot), 1)
    ensures Permits(w, prot)
  {
    FlagBits(prot);
    LowBits(w / 1024, w % 1024);
  }

  lemma FlagBits(prot: nat)
    ensures Permits(Or(PageProt(prot), 1), prot) && Or(PageProt(prot), 1) < 32
  {
    var r, x, e := prot % 2 == 1, prot / 2 % 2 == 1, prot / 4 % 2 == 1;
    assert PageProt(prot) == 16 + (if r then 2 else 0) + (if x then 4 else 0) + (if e then 8 else 0);
  }

  /** The low bits of a word are those of its remainder by 1024. */
  lemma LowBits(q: nat, f: nat)
    requires f < 32
    ensures var w := 1024 * q + f;
      && w % 2 == f % 2 && w / 2 % 2 == f / 2 % 2 && w / 4 % 2 == f / 4 % 2 && w / 8 % 2 == f / 8 % 2 && w / 16 % 2 == f / 16 % 2
      && w / 32 % 32 == 0
  {
    var w := 1024 * q + f;
    SameBit(w, f, 1, 512 * q);
    SameBit(w, f, 2, 256 * q);
    SameBit(w, f, 4, 128 * q);
    SameBit(w, f, 8, 64 * q);
    SameBit(w, f, 16, 32 * q);
    DivModUnique(w, 32, 32 * q, f);
    DivModUnique(w / 32, 32, q, 0);
  }

  lemma SameBit(w: nat, f: nat, d: nat, q: nat)
    requires d > 0 && w == f + q * (2 * d)
    ensures w / d % 2 == f / d % 2
  {
    DivNat(f, d);
    var a, r := f / d, f % d;
    assert w == (a + 2 * q) * d + r;
    DivModUnique(w, d, a + 2 * q, r);
  }

  /** The pages of a new region permit what was asked for. */
  lemma RegionPermits(st: State, p: nat, m: Seg, prot: nat, src: Source)
    requires p in st.spaces && forall i :: 0 <= i < m.n ==> NewRegionPage(st, p, m.v, i, Or(PageProt(prot), 1), src)
    ensures forall u: nat :: InSeg(m, u) ==> u in st.spaces[p].pt && Permits(st.spaces[p].pt[u], prot)
  {
    hide Permits, PageProt, Content;
    forall u: nat | InSeg(m, u) ensures u in st.spaces[p].pt && Permits(st.spaces[p].pt[u], prot) {
      assert NewRegionPage(st, p, m.v, u - m.v, Or(PageProt(prot), 1), src);
      ProtBits(st.spaces[p].pt[u], prot);
    }
  }

  /** Other spaces, and what is held, are as before. */
  ghost predicate OthersSame(st: State, st': State, p: nat) {
    && p in st.spaces && p in st'.spaces && st'.held == st.held && st'.spaces[p].root == st.spaces[p].root
    && st'.spaces == st.spaces[p := st'.spaces[p]]
  }

  /** The tables are what they were but for the pages `gone`. */
  ghost predicate NotMapped(st: State, st': State, p: nat, l: seq<Seg>, l': seq<Seg>, gone: set<nat>) {
    OthersSame(st, st', p) && Pages(l') == Pages(l) - gone && st'.spaces[p].pt == st.spaces[p].pt - gone
  }

  /** The region `m` is in both tables, on pages of its own, in place of the pages `gone`. */
  ghost predicate IsMapped(st: State, st': State, p: nat, l: seq<Seg>, l': seq<Seg>, gone: set<nat>, m: Seg, prot: nat, src: Source) {
    && OthersSame(st, st', p)
    && (forall u :: u in Pages(l') <==> (u in Pages(l) && u !in gone) || InSeg(m, u))
    && (forall u :: u in Pages(l') ==> Pages(l')[u] == if InSeg(m, u) then m.shared else Pages(l)[u])
    && (forall u :: u in st'.spaces[p].pt <==> (u in st.spaces[p].pt && u !in gone) || InSeg(m, u))
    && (forall u :: u in st.spaces[p].pt && u !in gone ==> st'.spaces[p].pt[u] == st.spaces[p].pt[u])
    && (forall i :: 0 <= i < m.n ==> NewRegionPage(st', p, m.v, i, Or(PageProt(prot), 1), src))
    && (forall u :: InSeg(m, u) ==> Permits(st'.spaces[p].pt[u], prot))
  }

  /** The part of mmap behind the choice of the address: 0, -1 without memory or without a
      page of the file, or a panic in walk past MAXVA or in mapping_add on a full table. */
  method MapRegion(k: Kmem, t: Table, pagetable: nat, v: nat, npages: nat, prot: nat, shared: bool, src: Source,
                   ghost p: nat, ghost base: seq<Seg>) returns (res: int)
    requires k.Valid() && t.Valid() && Agrees(k.St(), p, base, t.used) && p in k.spaces && pagetable == Addr(k.spaces[p].root)
    requires t.maps as object !in {k.mem, k.refs} && k.mem.Length < WRAP
    requires 0 < v && 0 < npages && IsFreeAt(k.spaces[p], v, Reach(v, npages))
    modifies k, k.mem, k.refs, t, t.maps
    ensures res == PANIC ==> npages < WRAP && (v + npages > PAGES || |old(t.used)| == MAX_MAPPING)
    ensures res == 0 ==> v + npages <= PAGES && |old(t.used)| < MAX_MAPPING && |t.used| == |old(t.used)| + 1
    ensures res == 0 || res == -1 || res == PANIC
    ensures res == -1 ==> |k.free| == |old(k.free)| && (npages > |k.free| || !Supplied(src, npages))
    ensures res != PANIC ==> k.Valid() && t.Valid() && Agrees(k.St(), p, base, t.used)
    ensures res == 0 ==> IsMapped(old(k.St()), k.St(), p, old(t.used), t.used, {}, Seg(v, npages, shared), prot, src)
    ensures res == -1 ==> NotMapped(old(k.St()), k.St(), p, old(t.used), t.used, {}) && t.used == old(t.used)
  {
    hide Inv, Agrees, Pages, Sorted, IsFreeAt, Fetched, Disjoint, Content, Joined, Remapped, IsMapped, NewRegionPage,
      MapList;
    ghost var st0, l0 := k.St(), t.used;
    var ok, pas := Fetch(k, npages, src);
    if !ok {
      NotDone(st0, k.St(), p, l0);
      AgreesGrown(st0, k.St(), p, base, l0);
      return -1;
    }
    ghost var st1 := k.St();
    FewFrames(st0, st1, pas, src);
    if v + npages > PAGES {
      return PANIC;
    }
    FetchedHeld(st0, st1, pas, src);
    RangeIsFree(st0, p, base, l0, v, npages);
    ProtMeans(prot);
    MapAll(k, pagetable, v, pas, PageProt(prot), p, st0, src);
    var r := t.Add(v, npages, shared);
    if r == PANIC {
      return PANIC;
    }
    DisjointFlag(l0, v, npages, shared);
    assert r == 0;  // otherwise it panics
    JoinedSize(l0, t.used, Seg(v, npages, shared));
    Done(st0, st1, k.St(), p, base, l0, t.used, Seg(v, npages, shared), pas, prot, src);
    res := 0;
  }

  lemma JoinedSize(l: seq<Seg>, l': seq<Seg>, m: Seg)
    requires Joined(l, l', m)
    ensures |l'| == |l| + 1
  {
  }

  lemma ProtMeans(prot: nat)
    ensures 1 < PageProt(prot) < 1024
  {
  }

  lemma DisjointFlag(l: seq<Seg>, v: nat, n: nat, shared: bool)
    ensures Disjoint(l, Seg(v, n, false)) <==> Disjoint(l, Seg(v, n, shared))
  {
  }

  lemma NotDone(st: State, st': State, p: nat, l: seq<Seg>)
    requires p in st.spaces && st'.spaces == st.spaces && st'.held == st.held
    ensures NotMapped(st, st', p, l, l, {})
  {
    hide Pages;
    assert Pages(l) - {} == Pages(l) && st.spaces[p].pt - {} == st.spaces[p].pt;
  }

  /** There are fewer frames than the page count wraps at. */
  lemma FewFrames(st0: State, st1: State, pas: seq<nat>, src: Source)
    requires Fetched(st0, st1, pas, src) && |st1.mem| < WRAP
    ensures |pas| < WRAP && Eff(|pas|) == |pas|
  {
    forall i | 0 <= i < |pas| ensures 0 <= pas[i] / 4096 - KERN_PPN < |st1.mem| && pas[i] % 4096 == 0 {
      assert Ready(st0, st1, pas[i], Content(src, i));
    }
    var fs: seq<nat> := seq(|pas|, i requires 0 <= i < |pas| => pas[i] / 4096 - KERN_PPN);
    Distinct(fs);
    NumbersBelow(Elems(fs), |st1.mem|);
  }

  lemma Done(st0: State, st1: State, st2: State, p: nat, base: seq<Seg>, l: seq<Seg>, l': seq<Seg>, m: Seg, pas: seq<nat>, prot: nat,
             src: Source)
    requires Agrees(st0, p, base, l) && p in st0.spaces && st1.spaces == st0.spaces && st1.first == st0.first && |st1.mem| == |st0.mem|
    requires m.n == |pas| && m.v + m.n <= TRAPFRAME && Sorted(l') && Joined(l, l', m) && st2.held == st0.held
    requires Remapped(st1, st2, p, MapList(st0.spaces[p].pt, m.v, pas, |pas|, Or(PageProt(prot), 1)))
    requires forall u :: m.v <= u < m.v + m.n ==> u !in Pages(base) && u !in Pages(l) && u !in st0.spaces[p].pt
    requires forall i :: 0 <= i < |pas| ==> NewRegionPage(st2, p, m.v, i, Or(PageProt(prot), 1), src)
    ensures IsMapped(st0, st2, p, l, l', {}, m, prot, src) && Agrees(st2, p, base, l')
  {
    hide Agrees, Pages, Sorted, Joined, PageProt, Content, Kept, SpaceGrown, Permits;
    RegionPermits(st2, p, m, prot, src);
    var pt := st0.spaces[p].pt;
    RemapSpaces(st1, st2, p, MapList(pt, m.v, pas, |pas|, Or(PageProt(prot), 1)));
    forall u: nat ensures u in st2.spaces[p].pt <==> u in pt || InSeg(m, u) ensures u in pt ==> st2.spaces[p].pt[u] == pt[u] {
      ListMeans(pt, m.v, pas, |pas|, Or(PageProt(prot), 1), u);
    }
    forall u: nat | InSeg(m, u) ensures st2.Managed(FrameOf(st2.spaces[p].pt[u])) {
      assert NewRegionPage(st2, p, m.v, u - m.v, Or(PageProt(prot), 1), src);
    }
    AgreesWith(st0, st2, p, base, l, l', m);
    AgreesSorted(st0, p, base, l);
    forall u: nat ensures u in Pages(l') <==> u in Pages(l) || InSeg(m, u)
      ensures u in Pages(l') ==> Pages(l')[u] == if InSeg(m, u) then m.shared else Pages(l)[u]
    {
      JoinedPages(l, l', m, u);
    }
  }

  lemma AgreesSorted(st: State, p: nat, base: seq<Seg>, l: seq<Seg>)
    requires Agrees(st, p, base, l)
    ensures Sorted(l)
  {
  }

  lemma JoinedPages(l: seq<Seg>, l': seq<Seg>, m: Seg, u: nat)
    requires Sorted(l) && Sorted(l') && Joined(l, l', m)
    ensures u in Pages(l') <==> u in Pages(l) || InSeg(m, u)
    ensures InSeg(m, u) ==> Pages(l')[u] == m.shared && u !in Pages(l)
    ensures u in Pages(l) ==> Pages(l')[u] == Pages(l)[u]
  {
    hide Pages, Sorted;
    var i :| 0 <= i <= |l| && l' == Inserted(l, i, m);
    InsertedPages(l, i, m, u);
  }

  /** What a failed or first part of mmap with MAP_FIXED may have removed. */
  ghost function Evicted(l: seq<Seg>, v: nat, n: nat, fixed: bool): set<nat> {
    if fixed then Pages(l).Keys * Range(v, n) else {}
  }

  /** MAP_FIXED over the inside of a region when one slot is left: the rest of the region
      takes it. */
  ghost predicate Doomed(l: seq<Seg>, v: nat, n: nat) { |l| == MAX_MAPPING - 1 && n > 0 && Spans(l, v, n) }

  /** A call with MAP_FIXED that looks at its range. */
  predicate Tries(used: nat, start: nat, len: nat, fixed: bool) {
    fixed && used < MAX_MAPPING && PageCount(len) > 0 && start > 0 && start % 4096 == 0
  }

  /** The calls that cannot succeed: for a range beginning past MAXVA walk panics, and over
      the inside of a region with one slot left mapping_add does, unless memory or a page of a
      file lacks before. */
  ghost predicate MayPanic(l: seq<Seg>, start: nat, len: nat, fixed: bool) {
    && Tries(|l|, start, len, fixed)
    && (PAGES <= start / 4096 || Doomed(l, start / 4096, Reach(start / 4096, PageCount(len))))
  }

  /** Those among them that do panic: past MAXVA if the loops go through any page, and all of
      them if there are pages and memory enough. */
  ghost predicate MustPanic(l: seq<Seg>, start: nat, len: nat, fixed: bool, src: Source, free: nat) {
    && MayPanic(l, start, len, fixed)
    && ((PAGES <= start / 4096 && Reach(start / 4096, PageCount(len)) > 0) || Enough(src, len, free))
  }

  predicate Enough(src: Source, len: nat, free: nat) { Supplied(src, PageCount(len)) && PageCount(len) <= free }

  /** mmap says no before it looks for room. */
  predicate Refused(used: nat, start: nat, len: nat, fixed: bool) {
    used == MAX_MAPPING || len == 0 || (fixed && (start == 0 || start % 4096 != 0))
  }

  /** A page of the range is mapped, and by no region of mmap. */
  ghost predicate Blocked(pt: map<nat, Word>, l: seq<Seg>, v: nat, n: nat) {
    exists u :: v <= u < v + n && u in pt && u !in Pages(l)
  }

  /** With MAP_FIXED the range is blocked, else no place in the window has room. */
  ghost predicate NoPlace(pt: map<nat, Word>, l: seq<Seg>, start: nat, len: nat, fixed: bool) {
    if fixed then Blocked(pt, l, start / 4096, Reach(start / 4096, PageCount(len)))
    else AllOccupied(pt, PageCount(len), PageUp(start) % ADDRESSES, 0)
  }

  /** `n` regions of three pages each, one page apart, above a program of at most 62 pages. */
  function Rows(n: nat): seq<Seg> { seq(n, i requires 0 <= i => Seg(4 * i + 64, 3, false)) }

  /** The stack and a program of 16 pages. */
  function Base(): seq<Seg> { Segs((USTACK + 16) * 4096, []) }

  /** Each panic has a table and a call that lead to it: 127 regions and a page inside one of
      them, or any table and the first address past MAXVA. */
  lemma PanicsExist()
    ensures Sorted(Rows(127)) && Apart(Base() + Rows(127)) && MustPanic(Rows(127), 65 * 4096, 4096, true, Anonymous, 1)
    ensures MustPanic([], PAGES * 4096, 4096, true, Anonymous, 0)
  {
    assert Rows(127)[0] == Seg(64, 3, false) && Spans(Rows(127), 65, 1);
  }

  /** So does the one of munmap: 128 regions and a page inside one of them. */
  lemma MunmapPanicExists()
    ensures |Rows(128)| == MAX_MAPPING && Sorted(Rows(128)) && Apart(Base() + Rows(128))
    ensures Reach(65, PageCount(4096)) > 0 && Splits(Rows(128), 65)
  {
    assert Rows(128)[0] == Seg(64, 3, false);
  }

  /** And a length that is lost has: 2^44 bytes, with room at the foot of the stack. */
  lemma LostLengthExists()
    ensures PageCount(0x1000_0000_0000) == 0 && InWindow(PageCount(0x1000_0000_0000), 0, STACK)
  {
  }

  /** mmap.  Addresses and lengths are those of the caller, in bytes; -1 is MAP_FAILED. */
  method Mmap(k: Kmem, t: Table, pagetable: nat, start: nat, len: nat, prot: nat, fixed: bool, shared: bool, src: Source,
              ghost p: nat, ghost base: seq<Seg>) returns (res: int, ghost evicted: set<nat>)
    requires k.Valid() && t.Valid() && Agrees(k.St(), p, base, t.used) && p in k.spaces && pagetable == Addr(k.spaces[p].root)
    requires t.maps as object !in {k.mem, k.refs} && k.mem.Length < WRAP && start / 4096 < ADDRESSES
    modifies k, k.mem, k.refs, t, t.maps
    ensures res == PANIC ==> MayPanic(old(t.used), start, len, fixed)
    ensures MayPanic(old(t.used), start, len, fixed) ==> res == PANIC || res == -1
    ensures MustPanic(old(t.used), start, len, fixed, src, |old(k.free)|) ==> res == PANIC
    ensures Enough(src, len, |old(k.free)|) ==> (res == PANIC <==> MayPanic(old(t.used), start, len, fixed))
    ensures Refused(|old(t.used)|, start, len, fixed) || NoPlace(old(k.spaces[p].pt), old(t.used), start, len, fixed) ==> res == -1
    ensures res == -1 ==> Refused(|old(t.used)|, start, len, fixed) || NoPlace(old(k.spaces[p].pt), old(t.used), start, len, fixed)
                          || !Enough(src, len, |k.free|)
    ensures res == PANIC || res == -1 || (res > 0 && res % 4096 == 0 && if fixed then res == start
                                          else InWindow(PageCount(len), PageUp(start) % ADDRESSES, res / 4096))
    ensures res != PANIC && (res == -1 || PageCount(len) > 0) ==> k.Valid() && t.Valid() && Agrees(k.St(), p, base, t.used)
    ensures res != PANIC ==> evicted <= Evicted(old(t.used), start / 4096, Reach(start / 4096, PageCount(len)), fixed)
    ensures res == -1 ==> NotMapped(old(k.St()), k.St(), p, old(t.used), t.used, evicted)
    ensures res > 0 && PageCount(len) > 0 ==>
      IsMapped(old(k.St()), k.St(), p, old(t.used), t.used, evicted, Seg(res / 4096, PageCount(len), shared), prot, src)
    ensures res > 0 && PageCount(len) == 0 ==> OnlySlot(old(t.used), t.used, res / 4096, shared) && t.Holds() && k.St() == old(k.St())
    ensures res > 0 ==> |t.used| <= |old(t.used)| + 2
  {
    hide Inv, Agrees, Pages, Sorted, IsFreeAt, IsMapped, NotMapped, Evicted, Spans, NoPlace, OnlySlot, InWindow;
    ghost var st0, l0 := k.St(), t.used;
    NoEviction(l0, start / 4096, Reach(start / 4096, PageCount(len)), fixed);
    NotDone(st0, st0, p, l0);
    t.Slot(MAX_MAPPING - 1);
    if t.maps[MAX_MAPPING - 1].v != 0 || len == 0 || (fixed && (start == 0 || start % 4096 != 0)) {
      return -1, {};
    }
    var npages := PageCount(len);
    var v, panicked;
    v, panicked, evicted := Place(k, t, pagetable, start, len, fixed, p, base);
    if panicked {
      return PANIC, {};
    }
    if v == 0 {
      return -1, evicted;
    }
    if npages == 0 {  // none of the loops has a turn
      var _ := t.Add(v, 0, shared);
      EmptyCovers(l0, t.used, v, shared);
      return v * 4096, {};
    }
    ghost var st1, l1 := k.St(), t.used;
    var r := MapRegion(k, t, pagetable, v, npages, prot, shared, src, p, base);
    if r == PANIC {
      return PANIC, {};
    }
    Composed(st0, st1, k.St(), p, l0, l1, t.used, evicted, r == 0, Seg(v, npages, shared), prot, src);
    res := if r == 0 then v * 4096 else -1;
  }

  /** The part of mmap that finds a place: the page it begins at, or 0. */
  method Place(k: Kmem, t: Table, pagetable: nat, start: nat, len: nat, fixed: bool, ghost p: nat, ghost base: seq<Seg>)
    returns (v: nat, panicked: bool, ghost evicted: set<nat>)
    requires k.Valid() && t.Valid() && Agrees(k.St(), p, base, t.used) && p in k.spaces && pagetable == Addr(k.spaces[p].root)
    requires t.maps as object !in {k.mem, k.refs} && start / 4096 < ADDRESSES && !Refused(|t.used|, start, len, fixed)
    modifies k, k.mem, k.refs, t, t.maps
    ensures panicked <==> fixed && PAGES <= start / 4096 && Reach(start / 4096, PageCount(len)) > 0
    ensures panicked ==> !NoPlace(old(k.spaces[p].pt), old(t.used), start, len, fixed)
    ensures !panicked ==> k.Valid() && t.Valid() && Agrees(k.St(), p, base, t.used)
    ensures !panicked ==> p in k.spaces && pagetable == Addr(k.spaces[p].root)
    ensures !panicked ==> evicted <= Evicted(old(t.used), start / 4096, Reach(start / 4096, PageCount(len)), fixed)
    ensures !panicked ==> NotMapped(old(k.St()), k.St(), p, old(t.used), t.used, evicted)
    ensures !panicked && v == 0 ==> NoPlace(old(k.spaces[p].pt), old(t.used), start, len, fixed) || (PageCount(len) > 0 && k.free == [])
    ensures !panicked && v != 0 ==> !NoPlace(old(k.spaces[p].pt), old(t.used), start, len, fixed) && Placed(start, len, fixed, v)
    ensures !panicked && v != 0 ==> IsFreeAt(k.spaces[p], v, Reach(v, PageCount(len)))
    ensures !panicked ==> if fixed then More(old(t.used), t.used, start / 4096, Reach(start / 4096, PageCount(len))) else t.used == old(t.used)
    ensures !panicked && v != 0 && Reach(v, PageCount(len)) == 0 ==> k.St() == old(k.St()) && t.used == old(t.used) && evicted == {}
    ensures fixed && Doomed(old(t.used), start / 4096, Reach(start / 4096, PageCount(len))) && !panicked ==>
      v != 0 && |k.free| >= |old(k.free)|
    ensures fixed && Reach(start / 4096, PageCount(len)) == 0 ==> v != 0
  {
    hide Inv, Agrees, Pages, Sorted, IsFreeAt, NotMapped, Evicted, Spans, Occupied, AllOccupied, Blocked;
    ghost var st0, l0 := k.St(), t.used;
    var npages := PageCount(len);
    panicked, evicted := false, {};
    HasTrampoline(st0, p, base, l0);
    NoEviction(l0, start / 4096, Reach(start / 4096, npages), fixed);
    if fixed {
      v := start / 4096;
      BlockedBelow(st0, p, l0, v, Reach(v, npages));
      var ok;
      ok, panicked := MakeRoom(k, t, pagetable, v, npages, p, base);
      if panicked {
        return;
      }
      evicted := Pages(l0).Keys - Pages(t.used).Keys;
      RoomMade(st0, k.St(), p, l0, t.used, v, Reach(v, npages), evicted);
      if !ok {
        v := 0;
        return;
      }
      NotBlocked(st0, k.St(), p, l0, t.used, v, Reach(v, npages), evicted);
    } else {
      v := GetFreeRange(k, pagetable, npages, PageUp(start) % ADDRESSES, p);
      GrownSpace(st0, k.St(), p);
      GrownSizes(st0, k.St(), p);
      AgreesGrown(st0, k.St(), p, base, l0);
      SameTables(st0, k.St(), p, l0);
      if v != 0 {
        NotAllOccupied(k.St(), p, npages, PageUp(start) % ADDRESSES, v);
      }
    }
  }

  /** Where mmap may put `len` bytes. */
  predicate Placed(start: nat, len: nat, fixed: bool, v: nat) {
    var n := PageCount(len);
    if fixed then v == start / 4096 && start % 4096 == 0 && (Reach(v, n) > 0 ==> v + Reach(v, n) <= PAGES)
    else InWindow(n, PageUp(start) % ADDRESSES, v) && Reach(v, n) == Eff(n) && v + Eff(n) <= PAGES
  }

  lemma BlockedBelow(st: State, p: nat, l: seq<Seg>, v: nat, n: nat)
    requires Inv(st) && p in st.spaces
    ensures Blocked(st.spaces[p].pt, l, v, n) ==> v < PAGES
  {
    hide Inv, Pages;
    if Blocked(st.spaces[p].pt, l, v, n) {
      var u :| v <= u < v + n && u in st.spaces[p].pt && u !in Pages(l);
      MappedHome(st, p, u);
    }
  }

  lemma HasTrampoline(st: State, p: nat, base: seq<Seg>, l: seq<Seg>)
    requires Agrees(st, p, base, l)
    ensures p in st.spaces && TRAMPOLINE in st.spaces[p].pt
  {
  }

  /** A region without pages takes a slot and covers nothing. */
  ghost predicate OnlySlot(l: seq<Seg>, l': seq<Seg>, v: nat, shared: bool) {
    Joined(l, l', Seg(v, 0, shared)) && |l'| == |l| + 1 && Pages(l') == Pages(l)
  }

  lemma EmptyCovers(l: seq<Seg>, l': seq<Seg>, v: nat, shared: bool)
    requires Joined(l, l', Seg(v, 0, shared))
    ensures OnlySlot(l, l', v, shared)
  {
    var i :| 0 <= i <= |l| && l' == Inserted(l, i, Seg(v, 0, shared));
    EmptyAt(l, i, v, shared);
  }

  lemma {:induction false} EmptyAt(l: seq<Seg>, i: nat, v: nat, shared: bool)
    requires i <= |l|
    ensures Pages(Inserted(l, i, Seg(v, 0, shared))) == Pages(l)
    decreases |l|
  {
    var l' := Inserted(l, i, Seg(v, 0, shared));
    if i == |l| {
      assert l'[..|l|] == l;
    } else {
      var n := |l| - 1;
      assert l'[..|l|] == Inserted(l[..n], i, Seg(v, 0, shared));
      EmptyAt(l[..n], i, v, shared);
    }
  }

  lemma NotBlocked(st: State, st': State, p: nat, l: seq<Seg>, l': seq<Seg>, v: nat, n: nat, evicted: set<nat>)
    requires NotMapped(st, st', p, l, l', evicted) && IsFreeAt(st'.spaces[p], v, n) && evicted == Pages(l).Keys - Pages(l').Keys
    ensures !Blocked(st.spaces[p].pt, l, v, n)
  {
    hide Pages;
    forall u | v <= u < v + n && u in st.spaces[p].pt
      ensures u in Pages(l)
    {
      assert u !in st'.spaces[p].pt;
      assert u in evicted;
    }
  }

  lemma NotAllOccupied(st: State, p: nat, npages: nat, hint: nat, v: nat)
    requires p in st.spaces && InWindow(npages, hint, v) && IsFreeAt(st.spaces[p], v, Eff(npages))
    ensures !AllOccupied(st.spaces[p].pt, npages, hint, 0)
  {
    assert Passed(npages, hint, 0, v);
  }

  lemma NoEviction(l: seq<Seg>, v: nat, n: nat, fixed: bool)
    ensures {} <= Evicted(l, v, n, fixed)
  {
  }

  lemma SameTables(st: State, st': State, p: nat, l: seq<Seg>)
    requires Grown(st, st', p)
    ensures NotMapped(st, st', p, l, l, {})
  {
    hide Pages;
    assert Pages(l) - {} == Pages(l) && st.spaces[p].pt - {} == st.spaces[p].pt;
  }

  /** The part of mmap for MAP_FIXED: the regions in the way are removed page by page. */
  method MakeRoom(k: Kmem, t: Table, pagetable: nat, v: nat, npages: nat, ghost p: nat, ghost base: seq<Seg>)
    returns (ok: bool, panicked: bool)
    requires k.Valid() && t.Valid() && Agrees(k.St(), p, base, t.used) && p in k.spaces && pagetable == Addr(k.spaces[p].root)
    requires |t.used| < MAX_MAPPING && t.maps as object !in {k.mem, k.refs}
    modifies k, k.mem, k.refs, t, t.maps
    ensures panicked <==> PAGES <= v && Reach(v, npages) > 0
    ensures Reach(v, npages) == 0 ==> ok && k.St() == old(k.St()) && t.used == old(t.used)
    ensures !ok && !panicked ==> k.free == [] || Blocked(old(k.spaces[p].pt), old(t.used), v, Reach(v, npages))
    ensures !panicked ==> k.Valid() && t.Valid() && Agrees(k.St(), p, base, t.used) && p in k.spaces
    ensures !panicked ==> More(old(t.used), t.used, v, Reach(v, npages))
    ensures !panicked ==> exists gone :: gone <= Pages(old(t.used)).Keys * Range(v, Reach(v, npages))
                                         && NotMapped(old(k.St()), k.St(), p, old(t.used), t.used, gone)
    ensures ok && !panicked ==>
      IsFreeAt(k.spaces[p], v, Reach(v, npages)) && (Reach(v, npages) > 0 ==> v + Reach(v, npages) <= PAGES)
    ensures Spans(old(t.used), v, Reach(v, npages)) && Reach(v, npages) > 0 ==> ok && !panicked && |k.free| >= |old(k.free)|
  {
    hide Inv, Agrees, Pages, Sorted, IsFreeAt, NotMapped, Grown, OnlySpace, Spans, Splits, Occupied, Blocked;
    ghost var st0, l0 := k.St(), t.used;
    var n := Reach(v, npages);
    HasTrampoline(st0, p, base, l0);
    SpannedAreMapped(st0, p, base, l0, v, n);
    ok, panicked := IsFreeRange(k, pagetable, v, npages, p);
    if panicked {
      return;
    }
    ghost var st1 := k.St();
    GrownSpace(st0, st1, p);
    GrownSizes(st0, st1, p);
    AgreesGrown(st0, st1, p, base, l0);
    SameTables(st0, st1, p, l0);
    if !ok {
      var _, _ := RemovePages(k, t, pagetable, v, n, p, base);
      ghost var st2 := k.St();
      OnlySpaceIs(st1, st2, p, Pages(l0).Keys * Range(v, n));
      SpannedAreFree(st0, st1, st2, p, l0, v, n);
      HasTrampoline(st2, p, base, t.used);
      StillOccupied(st0, st1, st2, p, l0, v, n);
      ok, panicked := IsFreeRange(k, pagetable, v, npages, p);
      GrownSpace(st2, k.St(), p);
      GrownSizes(st2, k.St(), p);
      AgreesGrown(st2, k.St(), p, base, t.used);
      RemovedTables(st0, st1, st2, k.St(), p, l0, t.used, v, n);
      MoreFree(st1, st2);
    }
  }

  /** What still occupies the range was not mapped by mmap. */
  lemma StillOccupied(st: State, st1: State, st2: State, p: nat, l: seq<Seg>, v: nat, n: nat)
    requires p in st.spaces && p in st1.spaces && st1.spaces[p].pt == st.spaces[p].pt
    requires OnlySpace(st1, st2, p, Pages(l).Keys * Range(v, n))
    ensures p in st2.spaces && (Occupied(st2.spaces[p].pt, v, n) ==> Blocked(st.spaces[p].pt, l, v, n))
  {
    hide Pages;
    if Occupied(st2.spaces[p].pt, v, n) {
      var u :| v <= u < v + n && u in st2.spaces[p].pt;
      assert u in Range(v, n) && u in st.spaces[p].pt && u !in Pages(l);
    }
  }

  lemma OnlySpaceIs(st: State, st': State, p: nat, gone: set<nat>)
    requires OnlySpace(st, st', p, gone)
    ensures p in st'.spaces && st'.spaces[p].root == st.spaces[p].root
    ensures forall f :: f in st.free ==> f in st'.free
  {
  }

  /** The pages inside a region are mapped, on the tables they need. */
  lemma SpannedAreMapped(st: State, p: nat, base: seq<Seg>, l: seq<Seg>, v: nat, n: nat)
    requires Inv(st) && p in st.spaces && Agrees(st, p, base, l)
    ensures Spans(l, v, n) && n > 0 ==> Mapped(st, p, l, v, n) && v in st.spaces[p].pt
  {
    hide Inv, Agrees, Sorted, Pages;
    if Spans(l, v, n) && n > 0 {
      var i :| 0 <= i < |l| && l[i].v < v && v + n < l[i].v + l[i].n;
      forall u | v <= u < v + n
        ensures IsMappedPage(st, p, l, u)
      {
        assert InSeg(l[i], u);
        InPages(l, u);
        AgreesPages(st, p, base, l, u);
        MappedHome(st, p, u);
      }
      assert IsMappedPage(st, p, l, v);
    }
  }

  ghost predicate IsMappedPage(st: State, p: nat, l: seq<Seg>, u: nat) {
    u in Pages(l) && u < TRAPFRAME && p in st.spaces && u in st.spaces[p].pt && u / 512 in st.spaces[p].low
  }

  ghost predicate Mapped(st: State, p: nat, l: seq<Seg>, v: nat, n: nat) {
    forall u :: v <= u < v + n ==> IsMappedPage(st, p, l, u)
  }

  lemma SpannedAreFree(st: State, st1: State, st': State, p: nat, l: seq<Seg>, v: nat, n: nat)
    requires p in st.spaces && p in st1.spaces && forall q :: q in st.spaces[p].low ==> q in st1.spaces[p].low
    requires OnlySpace(st1, st', p, Pages(l).Keys * Range(v, n))
    ensures Mapped(st, p, l, v, n) && n > 0 ==> p in st'.spaces && IsFreeAt(st'.spaces[p], v, n) && v + n <= PAGES && v in st.spaces[p].pt
  {
    hide Pages;
    if Mapped(st, p, l, v, n) && n > 0 {
      assert IsMappedPage(st, p, l, v) && IsMappedPage(st, p, l, v + n - 1);
      forall u | v <= u < v + n
        ensures u !in st'.spaces[p].pt && u / 512 in st'.spaces[p].low
      {
        assert IsMappedPage(st, p, l, u);
      }
    }
  }

  lemma MoreFree(st: State, st': State)
    requires Inv(st) && Inv(st') && forall f :: f in st.free ==> f in st'.free
    ensures |st'.free| >= |st.free|
  {
    Distinct(st.free);
    Distinct(st'.free);
    SubsetSize(Elems(st.free), Elems(st'.free));
  }

  lemma RemovedTables(st0: State, st1: State, st2: State, st3: State, p: nat, l: seq<Seg>, l': seq<Seg>, v: nat, n: nat)
    requires Grown(st0, st1, p) && OnlySpace(st1, st2, p, Pages(l).Keys * Range(v, n)) && Grown(st2, st3, p)
    requires Pages(l') == Pages(l) - Range(v, n)
    ensures NotMapped(st0, st3, p, l, l', Pages(l).Keys * Range(v, n))
  {
    GrownSpace(st0, st1, p);
    GrownSpace(st2, st3, p);
    hide Grown;
    assert Pages(l) - Range(v, n) == Pages(l) - Pages(l).Keys * Range(v, n);
  }

  lemma RoomMade(st: State, st': State, p: nat, l: seq<Seg>, l': seq<Seg>, v: nat, n: nat, evicted: set<nat>)
    requires exists gone :: gone <= Pages(l).Keys * Range(v, n) && NotMapped(st, st', p, l, l', gone)
    requires evicted == Pages(l).Keys - Pages(l').Keys
    ensures evicted <= Evicted(l, v, n, true) && NotMapped(st, st', p, l, l', evicted)
    ensures p in st'.spaces && p in st.spaces && st'.spaces[p].root == st.spaces[p].root
  {
    var gone :| gone <= Pages(l).Keys * Range(v, n) && NotMapped(st, st', p, l, l', gone);
    hide Pages;
    assert evicted == gone;
  }

  lemma Composed(st0: State, st1: State, st2: State, p: nat, l0: seq<Seg>, l1: seq<Seg>, l2: seq<Seg>, gone: set<nat>, done: bool, m: Seg,
                 prot: nat, src: Source)
    requires NotMapped(st0, st1, p, l0, l1, gone)
    requires if done then IsMapped(st1, st2, p, l1, l2, {}, m, prot, src) else NotMapped(st1, st2, p, l1, l2, {})
    ensures if done then IsMapped(st0, st2, p, l0, l2, gone, m, prot, src) else NotMapped(st0, st2, p, l0, l2, gone)
  {
    hide Pages, NewRegionPage, PageProt, Permits;
  }
}
