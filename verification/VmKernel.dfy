/** The frame allocator of physical.c and the page-table functions of virtual.c, over one
    memory that holds both the free list and the tables. */
module VmKernel {
  import opened Arith
  import opened VmState

  /** `k` pages from `v` on have been added to space `p`, each on a frame of its own that was
      free and is cleared. */
  ghost predicate Extended(st: State, st': State, p: nat, v: nat, k: nat) {
    && p in st.spaces && p in st'.spaces && Remapped(st, st', p, st'.spaces[p].pt)
    && var pt, pt' := st.spaces[p].pt, st'.spaces[p].pt;
       (forall u :: u in pt' <==> u in pt || v <= u < v + k)
       && (forall u :: u in pt && !(v <= u < v + k) ==> pt'[u] == pt[u])
       && (forall u :: v <= u < v + k ==> NewPage(st, st', pt'[u]))
       && (forall u, w :: v <= u < w < v + k ==> FrameOf(pt'[u]) != FrameOf(pt'[w]))
  }

  /** A user page with all permissions on a cleared frame that was free. */
  ghost predicate NewPage(st: State, st': State, w: Word) {
    var f := FrameOf(w);
    0 <= f < |st'.mem| && st'.Managed(f) && w % 1024 == LeafFlags(30) && f in st.free && f !in st'.free && st'.mem[f] == Filled(0)
  }

  /** Whatever the page says is 0. */
  lemma NewPageZero(st: State, st': State, w: Word, i: nat)
    requires NewPage(st, st', w) && i < 512
    ensures 0 <= FrameOf(w) < |st'.mem| && st'.mem[FrameOf(w)][i] == 0
  {
    assert Filled(0)[i] == 0;
  }

  /** The old translation, and every frame but new tables as it was: free if it was free,
      else with its count and its contents. */
  ghost predicate Restored(st: State, st': State, p: nat) {
    && p in st.spaces && p in st'.spaces && st'.spaces == st.spaces[p := st'.spaces[p]]
    && SpaceGrown(st.spaces[p], st'.spaces[p], st.spaces[p].pt)
    && |st'.mem| == |st.mem| && |st'.refs| == |st.refs|
    && forall f :: 0 <= f < |st.mem| && f < |st.refs| && !IsTable(st'.spaces, f) ==>
         (f in st'.free <==> f in st.free) && (f !in st.free && f >= st.first ==> st'.refs[f] == st.refs[f])
         && (f !in st.free ==> st'.mem[f] == st.mem[f])
  }

  /** The same space with translation `pt`, perhaps with more tables. */
  ghost predicate SpaceGrown(s: Space, s': Space, pt: map<nat, Word>) {
    && s'.root == s.root && s'.pt == pt
    && (forall k :: k in s.mid ==> k in s'.mid && s'.mid[k] == s.mid[k])
    && (forall q :: q in s.low ==> q in s'.low && s'.low[q] == s.low[q])
  }

  /** Frames are only taken: those in use keep their counts, and their contents unless they
      are tables; new tables were free. */
  ghost predicate Kept(st: State, st': State) {
    && st'.first == st.first && |st'.mem| == |st.mem| && |st'.refs| == |st.refs|
    && (forall f :: f in st'.free ==> f in st.free)
    && (forall f :: IsTable(st'.spaces, f) ==> IsTable(st.spaces, f) || f in st.free)
    && (forall f :: 0 <= f < |st.refs| && f !in st.free ==> st'.refs[f] == st.refs[f])
    && (forall f :: 0 <= f < |st.mem| && f !in st.free && !IsTable(st.spaces, f) ==> st'.mem[f] == st.mem[f])
  }

  /** `st'` is `st` after work on space `p` that took frames and left the translation `pt`. */
  ghost predicate Remapped(st: State, st': State, p: nat, pt: map<nat, Word>) {
    && p in st.spaces && p in st'.spaces && st'.spaces == st.spaces[p := st'.spaces[p]]
    && SpaceGrown(st.spaces[p], st'.spaces[p], pt) && Kept(st, st')
  }

  /** No translation has changed, and nothing more is held. */
  ghost predicate Grown(st: State, st': State, p: nat) {
    p in st.spaces && Remapped(st, st', p, st.spaces[p].pt) && st'.held == st.held
  }

  /** How many tables page `v` still needs in a space with these tables. */
  function Missing(mids: set<nat>, lows: set<nat>, v: nat): nat {
    (if v / 512 / 512 in mids then 0 else 1) + (if v / 512 in lows then 0 else 1)
  }

  /** The same of a space. */
  ghost function Lacks(st: State, p: nat, v: nat): nat {
    if p in st.spaces then Missing(st.spaces[p].mid.Keys, st.spaces[p].low.Keys, v) else 0
  }

  /** The tables for page `v` are there, and have cost a frame each where they were missing;
      `n` frames more have gone. */
  ghost predicate Tabled(st: State, st': State, p: nat, v: nat, n: nat) {
    && p in st.spaces && p in st'.spaces
    && st'.spaces[p].mid.Keys == st.spaces[p].mid.Keys + {v / 512 / 512}
    && st'.spaces[p].low.Keys == st.spaces[p].low.Keys + {v / 512}
    && |st'.free| + Lacks(st, p, v) + n == |st.free|
  }

  /** The tables of a space once `n` pages from `v` on have theirs. */
  function Mids(mids: set<nat>, v: nat, n: nat): set<nat> {
    if n == 0 then mids else Mids(mids, v, n - 1) + {(v + n - 1) / 512 / 512}
  }

  function Lows(lows: set<nat>, v: nat, n: nat): set<nat> {
    if n == 0 then lows else Lows(lows, v, n - 1) + {(v + n - 1) / 512}
  }

  /** The frames for that, with `each` for the page itself. */
  function Cost(mids: set<nat>, lows: set<nat>, v: nat, n: nat, each: nat): nat {
    if n == 0 then 0
    else Cost(mids, lows, v, n - 1, each) + each + Missing(Mids(mids, v, n - 1), Lows(lows, v, n - 1), v + n - 1)
  }

  ghost function Costs(st: State, p: nat, v: nat, n: nat, each: nat): nat {
    if p in st.spaces then Cost(st.spaces[p].mid.Keys, st.spaces[p].low.Keys, v, n, each) else 0
  }

  /** `n` pages from `v` on have been paid for. */
  ghost predicate Charged(st: State, st': State, p: nat, v: nat, n: nat, each: nat) {
    && p in st.spaces && p in st'.spaces
    && st'.spaces[p].mid.Keys == Mids(st.spaces[p].mid.Keys, v, n)
    && st'.spaces[p].low.Keys == Lows(st.spaces[p].low.Keys, v, n)
    && |st'.free| + Costs(st, p, v, n, each) == |st.free|
  }

  /** Which tables these are: one of the lowest level for 512 pages, one above it for 512 of
      those. */
  lemma {:induction false} TablesNeeded(mids: set<nat>, lows: set<nat>, v: nat, n: nat, x: nat)
    ensures x in Mids(mids, v, n) <==> x in mids || (n > 0 && v / 0x4_0000 <= x <= (v + n - 1) / 0x4_0000)
    ensures x in Lows(lows, v, n) <==> x in lows || (n > 0 && v / 512 <= x <= (v + n - 1) / 512)
  {
    if n > 0 {
      TablesNeeded(mids, lows, v, n - 1, x);
    }
  }

  /** A frame for each page that needs one, and one for each new table. */
  lemma {:induction false} CostIs(mids: set<nat>, lows: set<nat>, v: nat, n: nat, each: nat)
    ensures Cost(mids, lows, v, n, each) == n * each + |Mids(mids, v, n) - mids| + |Lows(lows, v, n) - lows|
    ensures Cost(mids, lows, v, n, each) <= n * each + n + n
    ensures mids <= Mids(mids, v, n) && lows <= Lows(lows, v, n)
  {
    if n > 0 {
      CostIs(mids, lows, v, n - 1, each);
      OneTable(mids, Mids(mids, v, n - 1), (v + n - 1) / 512 / 512);
      OneTable(lows, Lows(lows, v, n - 1), (v + n - 1) / 512);
      assert n * each == (n - 1) * each + each;
    }
  }

  lemma OneTable(was: set<nat>, now: set<nat>, x: nat)
    requires was <= now
    ensures |now + {x} - was| == |now - was| + if x in now then 0 else 1
  {
    if x in now {
      assert now + {x} == now;
    } else {
      assert now + {x} - was == (now - was) + {x};
    }
  }

  lemma {:induction false} CostGrows(mids: set<nat>, lows: set<nat>, v: nat, k: nat, n: nat, each: nat)
    requires k <= n
    ensures Cost(mids, lows, v, k, each) <= Cost(mids, lows, v, n, each)
  {
    if k < n {
      CostGrows(mids, lows, v, k, n - 1, each);
    }
  }

  lemma NothingCharged(st: State, p: nat, v: nat, each: nat)
    requires p in st.spaces
    ensures Charged(st, st, p, v, 0, each)
  {
  }

  lemma OneCharged(st: State, st': State, p: nat, v: nat, each: nat)
    ensures p in st.spaces ==> Costs(st, p, v, 1, each) == each + Lacks(st, p, v)
    ensures Charged(st, st', p, v, 1, each) ==> Tabled(st, st', p, v, each)
  {
    if p in st.spaces {
      var mids, lows := st.spaces[p].mid.Keys, st.spaces[p].low.Keys;
      assert Mids(mids, v, 0) == mids && Lows(lows, v, 0) == lows && Cost(mids, lows, v, 0, each) == 0;
      assert Mids(mids, v, 1) == mids + {v / 512 / 512} && Lows(lows, v, 1) == lows + {v / 512};
    }
  }

  /** One page more, or too few frames for all of them. */
  lemma ChargedNext(st: State, st1: State, st2: State, p: nat, v: nat, k: nat, n: nat, each: nat, ok: bool)
    requires Charged(st, st1, p, v, k, each) && k < n && (ok <==> |st1.free| >= each + Lacks(st1, p, v + k))
    requires ok ==> Tabled(st1, st2, p, v + k, each)
    ensures ok ==> Charged(st, st2, p, v, k + 1, each)
    ensures !ok ==> |st.free| < Costs(st, p, v, n, each)
  {
    CostGrows(st.spaces[p].mid.Keys, st.spaces[p].low.Keys, v, k + 1, n, each);
  }

  lemma GrownRefl(st: State, p: nat)
    requires p in st.spaces
    ensures Grown(st, st, p)
  {
  }

  lemma KeptTrans(a: State, b: State, c: State)
    requires Kept(a, b) && Kept(b, c)
    ensures Kept(a, c)
  {
  }

  lemma RemappedTrans(a: State, b: State, c: State, p: nat, pt: map<nat, Word>, pt': map<nat, Word>)
    requires Remapped(a, b, p, pt) && Remapped(b, c, p, pt')
    ensures Remapped(a, c, p, pt')
  {
    KeptTrans(a, b, c);
    hide Kept;
    assert c.spaces == a.spaces[p := c.spaces[p]];
  }

  lemma GrownTrans(a: State, b: State, c: State, p: nat)
    requires Grown(a, b, p) && Grown(b, c, p)
    ensures Grown(a, c, p)
  {
    hide Kept;
    RemappedTrans(a, b, c, p, a.spaces[p].pt, b.spaces[p].pt);
  }

  /** The index of the entry for page `v` in a table of this level. */
  function PX(level: nat, v: nat): nat {
    if level == 2 then v / 512 / 512 % 512 else if level == 1 then v / 512 % 512 else v % 512
  }

  function Or(flags: nat, bit: nat): nat
    requires bit > 0
  {
    if flags / bit % 2 == 1 then flags else flags + bit
  }

  /** perm | PTE_V | PTE_A | PTE_D */
  function LeafFlags(perm: nat): nat { Or(Or(Or(perm, 1), 64), 128) }

  /** PA2PTE(pa) | flags */
  function Pte(ppn: nat, flags: nat): Word { ppn * 1024 + flags }

  lemma PteMeans(ppn: nat, flags: nat)
    requires flags < 1024 && flags % 2 == 1 && flags != 1
    ensures FrameOf(Pte(ppn, flags)) == ppn - KERN_PPN && IsValid(Pte(ppn, flags)) && IsLeaf(Pte(ppn, flags))
    ensures Pte(ppn, flags) % 1024 == flags
  {
    DivModUnique(Pte(ppn, flags), 1024, ppn, flags);
    DivModUnique(Pte(ppn, flags), 2, 512 * ppn + flags / 2, 1);
  }

  lemma LeafFlagsMean(perm: nat)
    requires perm < 1024
    ensures LeafFlags(perm) < 1024 && LeafFlags(perm) % 2 == 1 && LeafFlags(perm) != 1
  {
    OrMeans(perm, 1, 1023);
    OrMeans(Or(perm, 1), 64, 15);
    OrMeans(Or(Or(perm, 1), 64), 128, 7);
  }

  /** A leaf is valid, accessed and dirty; the other bits, R, W, X, U and G among them, are
      those of the permissions `v + 2 * p + 64 * a + 128 * d + 256 * s`. */
  lemma LeafBits(v: nat, p: nat, a: nat, d: nat, s: nat)
    requires v < 2 && p < 32 && a < 2 && d < 2 && s < 4
    ensures LeafFlags(v + 2 * p + 64 * a + 128 * d + 256 * s) == 1 + 2 * p + 64 + 128 + 256 * s
  {
    OrBit(v + 2 * p + 64 * a + 128 * d + 256 * s, 1, 0, v, p + 32 * a + 64 * d + 128 * s);
    OrBit(1 + 2 * p + 64 * a + 128 * d + 256 * s, 64, 1 + 2 * p, a, d + 2 * s);
    OrBit(1 + 2 * p + 64 + 128 * d + 256 * s, 128, 1 + 2 * p + 64, d, s);
  }

  lemma OrBit(flags: nat, bit: nat, low: nat, b: nat, high: nat)
    requires bit > 0 && low < bit && b < 2 && flags == low + (b + 2 * high) * bit
    ensures Or(flags, bit) == flags + (1 - b) * bit
  {
    DivModUnique(flags, bit, b + 2 * high, low);
  }

  lemma OrMeans(flags: nat, bit: nat, most: nat)
    requires flags < 1024 && (bit == 1 || bit == 64 || bit == 128)
    ensures flags <= Or(flags, bit) < 1024 && bit <= Or(flags, bit)
    ensures bit == 1 ==> Or(flags, bit) % 2 == 1
    ensures bit > 1 ==> Or(flags, bit) % 2 == flags % 2
  {
  }

  /** A translation with `n` pages from `v` on mapped to consecutive frames. */
  function MapRange(pt: map<nat, Word>, v: nat, n: nat, ppn: nat, flags: nat): map<nat, Word> {
    if n == 0 then pt else MapRange(pt, v, n - 1, ppn, flags)[v + n - 1 := Pte(ppn + n - 1, flags)]
  }

  /** The references of these frames. */
  function Shares(st: State, n: nat, ppn: nat, flags: nat): multiset<nat> {
    if n == 0 then multiset{} else Shares(st, n - 1, ppn, flags) + Share(st, Pte(ppn + n - 1, flags))
  }

  lemma {:induction false} RangeMeans(pt: map<nat, Word>, v: nat, n: nat, ppn: nat, flags: nat, u: nat)
    ensures u in MapRange(pt, v, n, ppn, flags) <==> u in pt || v <= u < v + n
    ensures v <= u < v + n ==> MapRange(pt, v, n, ppn, flags)[u] == Pte(ppn + (u - v), flags)
    ensures u in pt && !(v <= u < v + n) ==> MapRange(pt, v, n, ppn, flags)[u] == pt[u]
  {
    if n > 0 {
      RangeMeans(pt, v, n - 1, ppn, flags, u);
    }
  }

  lemma {:induction false} SharesBelow(st: State, n: nat, ppn: nat, flags: nat, f: nat)
    requires flags < 1024 && flags % 2 == 1 && flags != 1 && f >= ppn + n - KERN_PPN
    ensures Shares(st, n, ppn, flags)[f] == 0
  {
    if n > 0 {
      SharesBelow(st, n - 1, ppn, flags, f);
      PteMeans(ppn + n - 1, flags);
    }
  }

  /** How many pages `size` bytes from `va` on touch. */
  function Spanned(va: nat, size: nat): nat {
    if size == 0 then 0 else (va + size - 1) / 4096 - va / 4096 + 1
  }

  lemma SpannedMeans(va: nat, size: nat)
    requires size > 0
    ensures Spanned(va, size) > 0 && (va + size - 1) / 4096 == va / 4096 + Spanned(va, size) - 1
    ensures va % 4096 == 0 && size == 4096 ==> Spanned(va, size) == 1
  {
  }

  /** Entries may name these frames: each is in memory, and held if it is an allocated one. */
  ghost predicate MayName(st: State, ppn: nat, n: nat) {
    ppn + n - KERN_PPN <= |st.mem| && forall f :: ppn - KERN_PPN <= f < ppn + n - KERN_PPN && st.Managed(f) ==> st.held[f] > 0
  }

  /** A frame has become the table for `key`. */
  ghost predicate TableMade(st: State, st': State, p: nat, key: nat, f: nat, middle: bool) {
    && p in st.spaces && p in st'.spaces && |st'.free| + 1 == |st.free|
    && st'.spaces[p].mid.Keys == st.spaces[p].mid.Keys + (if middle then {key} else {})
    && st'.spaces[p].low.Keys == st.spaces[p].low.Keys + (if middle then {} else {key})
    && f < |st'.mem| && if middle then st'.spaces[p].mid[key] == f else st'.spaces[p].low[key] == f
  }

  ghost predicate Vacant(st: State, p: nat, v: nat, n: nat) {
    p in st.spaces && forall u :: v <= u < v + n ==> u !in st.spaces[p].pt
  }

  /** `k` pages from `v` on have been mapped to consecutive frames, whose references have
      passed to the leaves. */
  ghost predicate Mapped(st: State, st': State, p: nat, v: nat, k: nat, ppn: nat, perm: nat) {
    && p in st.spaces && p in st'.spaces
    && Remapped(st, st', p, MapRange(st.spaces[p].pt, v, k, ppn, LeafFlags(perm)))
    && st'.held == st.held - Shares(st, k, ppn, LeafFlags(perm))
  }

  lemma NothingMapped(st: State, p: nat, v: nat, ppn: nat, perm: nat)
    requires p in st.spaces
    ensures Mapped(st, st, p, v, 0, ppn, perm) && Charged(st, st, p, v, 0, 0)
  {
  }

  class Kmem {
    const first: nat
    const mem: array<Page>
    const refs: array<nat>
    var freelist: nat
    var count: nat
    ghost var free: seq<nat>
    ghost var spaces: map<nat, Space>
    ghost var held: multiset<nat>

    ghost function St(): State
      reads this, mem, refs
    {
      State(first, mem[..], refs[..], freelist, count, free, spaces, held)
    }

    ghost predicate Valid()
      reads this, mem, refs
    {
      Inv(St())
    }

    /** alloc_physical_page */
    method Alloc() returns (pa: nat)
      requires Valid()
      modifies this`freelist, this`count, this`free, this`held, mem, refs
      ensures Valid()
      ensures if old(free) == [] then pa == 0 && St() == old(St())
              else pa == Addr(old(free[0])) && St() == Taken(old(St()))
    {
      hide Trees, Accounts;
      ghost var st := St();
      pa := freelist;
      if pa != 0 {
        TakenKeeps(st);
        var f := pa / 4096 - KERN_PPN;
        freelist := mem[f][0];
        count := count - 1;
        refs[f] := 1;
        mem[f] := Filled(0x0505_0505_0505_0505);
        free := free[1..];
        held := held + multiset{f};
        assert St() == Taken(st);
      }
    }

    /** Fill a frame with junk and link it in front of the free list. */
    method PushFree(pa: nat)
      requires pa % 4096 == 0 && 0 <= FrameAt(pa) < mem.Length
      modifies this`freelist, this`count, this`free, mem
      ensures mem[..] == old(mem[..])[FrameAt(pa) := Junk(old(freelist))]
      ensures freelist == Addr(FrameAt(pa)) && count == old(count) + 1 && free == [FrameAt(pa)] + old(free)
    {
      var f: nat := pa / 4096 - KERN_PPN;
      mem[f] := Junk(freelist);
      freelist := pa;
      count := count + 1;
      free := [f] + free;
    }

    /** recycle_physical_page */
    method Recycle(pa: nat)
      requires Valid() && pa % 4096 == 0 && St().Managed(FrameAt(pa))
      requires held[FrameAt(pa)] > 0 && refs.Length == mem.Length && refs[FrameAt(pa)] == 1
      modifies this`freelist, this`count, this`free, this`held, mem, refs
      ensures Valid() && St() == Freed(old(St()), FrameAt(pa))
    {
      hide Listed, Trees, Accounts;
      ghost var st := St();
      var f: nat := pa / 4096 - KERN_PPN;
      FreedKeeps(st, f);
      PushFree(pa);
      refs[f] := 0;
      held := held - multiset{f};
      assert St() == Freed(st, f);
    }

    /** dup_physical_page */
    method Dup(pa: nat)
      requires Valid() && St().Managed(FrameAt(pa)) && refs.Length == mem.Length
      requires refs[FrameAt(pa)] < 255 && |Names(spaces, FrameAt(pa))| > 0
      modifies this`held, refs
      ensures Valid() && St() == Dupped(old(St()), FrameAt(pa))
    {
      hide Listed, Trees, Accounts;
      var f: nat := pa / 4096 - KERN_PPN;
      DuppedKeeps(St(), f);
      refs[f] := (refs[f] + 1) % 256;
      held := held + multiset{f};
    }

    /** put_physical_page */
    method Put(pa: nat)
      requires Valid() && pa % 4096 == 0 && St().Managed(FrameAt(pa))
      requires held[FrameAt(pa)] > 0 && refs.Length == mem.Length && 0 < refs[FrameAt(pa)] < 256
      modifies this`freelist, this`count, this`free, this`held, mem, refs
      ensures Valid()
      ensures St() == if old(refs[FrameAt(pa)]) == 1 then Freed(old(St()), FrameAt(pa)) else Dropped(old(St()), FrameAt(pa))
    {
      hide Inv, Listed, Trees, Accounts;
      ghost var st := St();
      var f: nat := pa / 4096 - KERN_PPN;
      refs[f] := (refs[f] + 255) % 256;
      held := held - multiset{f};
      if refs[f] == 0 {
        PushFree(pa);
        FreedKeeps(st, f);
      } else {
        DroppedKeeps(st, f);
      }
    }

    /** A frame that is neither a table nor free is filled. */
    method Fill(f: nat, page: Page)
      requires Valid() && f < mem.Length && f !in free && !IsTable(spaces, f)
      modifies mem
      ensures Valid() && St() == Replaced(old(St()), f, page)
    {
      hide Listed, Trees, Accounts;
      WrittenKeeps(St(), f, page);
      mem[f] := page;
    }

    /** walk makes a table: a frame is allocated, cleared and entered into table `t`. */
    method NewTable(t: nat, i: nat, ghost p: nat, ghost middle: bool, ghost key: nat) returns (f: nat, ok: bool)
      requires Valid() && p in spaces && i < 512 && t < mem.Length
      requires middle ==> t == spaces[p].root && i == key && key !in spaces[p].mid
      requires !middle ==> key / 512 in spaces[p].mid && t == spaces[p].mid[key / 512] && i == key % 512 && key !in spaces[p].low
      modifies this, mem, refs
      ensures Valid() && p in spaces && Grown(old(St()), St(), p)
      ensures !ok ==> old(free) == [] && St() == old(St())
      ensures ok ==> TableMade(old(St()), St(), p, key, f, middle)
    {
      hide Listed, Trees, Accounts, Grown, Inv, TableMade;
      ghost var st0 := St();
      f := 0;
      var pa := Alloc();
      if pa == 0 {
        ok := false;
        GrownRefl(st0, p);
        return;
      }
      ok := true;
      f := pa / 4096 - KERN_PPN;
      ghost var st1 := St();
      JustTaken(st0, f);
      Fill(f, Filled(0));
      ghost var st2 := St();
      Link(t, i, f, p, middle, key);
      TableAdded(st0, St(), p, key, f, middle);
    }

    /** An entry is made to point to a cleared table. */
    method Link(t: nat, i: nat, f: nat, ghost p: nat, ghost middle: bool, ghost key: nat)
      requires p in spaces && i < 512 && t < mem.Length && f < mem.Length && mem.Length == refs.Length
      requires middle ==> t == spaces[p].root && i == key && key !in spaces[p].mid
      requires !middle ==> key / 512 in spaces[p].mid && t == spaces[p].mid[key / 512] && i == key % 512 && key !in spaces[p].low
      requires held[f] == 1 && refs[f] == 1 && mem[f] == Filled(0) && Valid()
      modifies this`spaces, this`held, mem
      ensures Valid() && St() == if middle then LinkedMid(old(St()), p, key, f) else LinkedLow(old(St()), p, key, f)
    {
      hide Inv, Ptr;
      ghost var st2 := St();
      if middle {
        LinkedMidKeeps(st2, p, key, f);
      } else {
        LinkedLowKeeps(st2, p, key, f);
      }
      mem[t] := mem[t][i := Ptr(f)];
      spaces := spaces[p := if middle then spaces[p].(mid := spaces[p].mid[key := f]) else spaces[p].(low := spaces[p].low[key := f])];
      held := held - multiset{f};
      assert St() == if middle then LinkedMid(st2, p, key, f) else LinkedLow(st2, p, key, f);
    }

    /** walk: the table and the index of the entry for page `va`, if there is one. */
    method Walk(pagetable: nat, va: nat, alloc: bool, ghost p: nat) returns (found: bool, t: nat)
      requires Valid() && p in spaces && pagetable == Addr(spaces[p].root)
      requires va / 4096 < PAGES
      modifies this, mem, refs
      ensures Valid() && p in spaces && Grown(old(St()), St(), p)
      ensures found ==> va / 4096 / 512 in spaces[p].low && t == spaces[p].low[va / 4096 / 512] < mem.Length
      ensures !alloc ==> St() == old(St()) && (found <==> va / 4096 / 512 in spaces[p].low)
      ensures alloc && !found ==> free == []
      ensures alloc ==> (found <==> |old(free)| >= Lacks(old(St()), p, va / 4096))
      ensures alloc && found ==> Tabled(old(St()), St(), p, va / 4096, 0)
      ensures va / 4096 / 512 in old(spaces[p].low) ==> found && St() == old(St())
    {
      hide Listed, Trees, Accounts, Grown, Ptr, Inv, Rep;
      ghost var st0 := St();
      ghost var v := va / 4096;
      GrownRefl(st0, p);
      t := pagetable / 4096 - KERN_PPN;
      RootTable(St(), p);
      var level := 2;
      while level > 0
        invariant 0 <= level <= 2 && Valid() && Grown(st0, St(), p)
        invariant !alloc || v / 512 in st0.spaces[p].low ==> St() == st0
        invariant p in spaces && t < mem.Length
        invariant level == 2 ==> t == spaces[p].root && St() == st0
        invariant alloc && level == 1 ==> spaces[p].low.Keys == st0.spaces[p].low.Keys
        invariant alloc && level == 1 ==> spaces[p].mid.Keys == st0.spaces[p].mid.Keys + {v / 512 / 512}
        invariant alloc && level == 1 ==> |free| + (if v / 512 / 512 in st0.spaces[p].mid then 0 else 1) == |st0.free|
        invariant alloc && level == 0 ==> Tabled(st0, St(), p, v, 0)
        invariant level == 1 ==> v / 512 / 512 in spaces[p].mid && t == spaces[p].mid[v / 512 / 512]
        invariant level == 0 ==> v / 512 in spaces[p].low && t == spaces[p].low[v / 512]
      {
        var i := PX(level, va / 4096);
        if level == 2 {
          RootMeans(St(), p, v);
        } else {
          MidMeans(St(), p, v);
        }
        var pte := mem[t][i];
        assert pte == St().mem[t][i];
        if pte % 2 == 1 {
          t := pte / 1024 - KERN_PPN;
        } else {
          GrownLow(st0, St(), p);
          if !alloc {
            return false, t;
          }
          ghost var st1 := St();
          var f, ok := NewTable(t, i, p, level == 2, if level == 2 then v / 512 / 512 else v / 512);
          GrownTrans(st0, st1, St(), p);
          if !ok {
            return false, t;
          }
          t := f;
        }
        level := level - 1;
      }
      found := true;
    }

    /** *pte = w, for a page that is not mapped. */
    method SetLeaf(t: nat, va: nat, w: Word, ghost p: nat)
      requires Valid() && p in spaces && va / 4096 < PAGES && va / 4096 / 512 in spaces[p].low
      requires t == spaces[p].low[va / 4096 / 512] < mem.Length
      requires va / 4096 !in spaces[p].pt && IsValid(w) && IsLeaf(w) && FrameOf(w) < mem.Length
      requires St().Managed(FrameOf(w)) ==> held[FrameOf(w)] > 0
      modifies this`spaces, this`held, mem
      ensures Valid() && St() == LeafSet(old(St()), p, va / 4096, w)
    {
      hide Listed, Trees, Accounts, IsValid, IsLeaf, Share;
      LeafSetKeeps(St(), p, va / 4096, w);
      held := held - Share(St(), w);
      mem[t] := mem[t][PX(0, va / 4096) := w];
      spaces := spaces[p := spaces[p].(pt := spaces[p].pt[va / 4096 := w])];
    }

    /** *pte = 0; the reference of the leaf is now held. */
    method ClearLeaf(t: nat, va: nat, ghost p: nat)
      requires Valid() && p in spaces && va / 4096 < PAGES && va / 4096 / 512 in spaces[p].low
      requires t == spaces[p].low[va / 4096 / 512] < mem.Length
      requires va / 4096 in spaces[p].pt && FrameOf(spaces[p].pt[va / 4096]) < mem.Length
      modifies this`spaces, this`held, mem
      ensures Valid() && St() == LeafCleared(old(St()), p, va / 4096)
    {
      hide Listed, Trees, Accounts, Share;
      LeafClearedKeeps(St(), p, va / 4096);
      held := held + Share(St(), spaces[p].pt[va / 4096]);
      mem[t] := mem[t][PX(0, va / 4096) := 0];
      spaces := spaces[p := spaces[p].(pt := spaces[p].pt - {va / 4096})];
    }

    /** The body of the loop of mappages and of map1page: page `va` gets the entry `w`. */
    method MapOne(pagetable: nat, va: nat, w: Word, ghost p: nat) returns (ok: bool)
      requires Valid() && p in spaces && pagetable == Addr(spaces[p].root)
      requires va / 4096 < PAGES && va / 4096 !in spaces[p].pt
      requires IsValid(w) && IsLeaf(w) && FrameOf(w) < mem.Length
      requires St().Managed(FrameOf(w)) ==> held[FrameOf(w)] > 0
      modifies this, mem, refs
      ensures Valid() && p in spaces
      ensures ok ==> Remapped(old(St()), St(), p, old(spaces[p].pt)[va / 4096 := w]) && held == old(held) - Share(old(St()), w)
      ensures !ok ==> free == [] && Grown(old(St()), St(), p)
      ensures ok <==> |old(free)| >= Lacks(old(St()), p, va / 4096)
      ensures ok ==> Tabled(old(St()), St(), p, va / 4096, 0)
    {
      hide Listed, Trees, Accounts, Kept, IsValid, IsLeaf, Share;
      ghost var st0 := St();
      var t;
      ok, t := Walk(pagetable, va, true, p);
      if ok {
        ghost var st1 := St();
        SetLeaf(t, va, w, p);
        LeafRemaps(st1, p, va / 4096, w);
        RemappedTrans(st0, st1, St(), p, st0.spaces[p].pt, st0.spaces[p].pt[va / 4096 := w]);
        ShareSame(st0, st1, w);
      }
    }

    /** One turn of the loop of mappages: page `v + k`, after `k` of the `n` pages since `st0`. */
    method MapNext(pagetable: nat, va: nat, pa: nat, perm: nat, ghost p: nat, ghost st0: State, ghost v: nat, ghost k: nat,
                   ghost n: nat, ghost ppn: nat)
        returns (ok: bool)
      requires p in st0.spaces && pagetable == Addr(st0.spaces[p].root) && perm < 1024 && k < n && v + n <= PAGES
      requires va / 4096 == v + k && pa / 4096 == ppn + k && Vacant(st0, p, v, n) && MayName(st0, ppn, n)
      requires Valid() && Mapped(st0, St(), p, v, k, ppn, perm) && Charged(st0, St(), p, v, k, 0)
      modifies this, mem, refs
      ensures Valid() && Mapped(st0, St(), p, v, if ok then k + 1 else k, ppn, perm)
      ensures ok ==> Charged(st0, St(), p, v, k + 1, 0)
      ensures !ok ==> free == [] && |st0.free| < Costs(st0, p, v, n, 0)
    {
      hide Listed, Trees, Accounts, Inv, Kept, SpaceGrown, Share, Pte, LeafFlags, IsValid, IsLeaf, Remapped, Charged,
        Costs, Lacks, Tabled;
      ghost var st1, flags := St(), LeafFlags(perm);
      ghost var pt := MapRange(st0.spaces[p].pt, v, k, ppn, flags);
      SpaceIs(st0, st1, p, pt);
      LeafFlagsMean(perm);
      RangeMeans(st0.spaces[p].pt, v, k, ppn, flags, v + k);
      if ppn + k >= KERN_PPN {
        SharesBelow(st0, k, ppn, flags, ppn + k - KERN_PPN);
      }
      PteMeans(ppn + k, flags);
      ok := MapOne(pagetable, va, Pte(pa / 4096, LeafFlags(perm)), p);
      ChargedNext(st0, st1, St(), p, v, k, n, 0, ok);
      if ok {
        RemappedTrans(st0, st1, St(), p, pt, pt[v + k := Pte(ppn + k, flags)]);
        ShareSame(st0, st1, Pte(ppn + k, flags));
      } else {
        GrownIs(st1, St(), p);
        RemappedTrans(st0, st1, St(), p, pt, pt);
      }
    }

    /** mappages: page by page, until there is no frame for a table. */
    method MapPages(pagetable: nat, va: nat, size: nat, pa: nat, perm: nat, ghost p: nat) returns (ok: bool, ghost k: nat)
      requires Valid() && p in spaces && pagetable == Addr(spaces[p].root) && perm < 1024 && size > 0
      requires va / 4096 + Spanned(va, size) <= PAGES
      requires Vacant(St(), p, va / 4096, Spanned(va, size)) && MayName(St(), pa / 4096, Spanned(va, size))
      modifies this, mem, refs
      ensures Valid() && k <= Spanned(va, size) && (ok <==> k == Spanned(va, size))
      ensures Mapped(old(St()), St(), p, va / 4096, k, pa / 4096, perm)
      ensures !ok ==> free == []
      ensures ok <==> |old(free)| >= Costs(old(St()), p, va / 4096, Spanned(va, size), 0)
      ensures ok ==> Charged(old(St()), St(), p, va / 4096, k, 0)
    {
      hide Listed, Trees, Accounts, Inv, Mapped, Charged, Costs, Spanned, Vacant, MayName;
      var a, last, pa1 := va / 4096 * 4096, (va + size - 1) / 4096 * 4096, pa;
      ghost var st0, v, n, ppn := St(), va / 4096, Spanned(va, size), pa / 4096;
      SpannedMeans(va, size);
      NothingMapped(st0, p, v, ppn, perm);
      k := 0;
      while true
        invariant k < n && a == (v + k) * 4096 && last == (v + n - 1) * 4096 && pa1 == pa + 4096 * k
        invariant Valid() && Mapped(st0, St(), p, v, k, ppn, perm) && Charged(st0, St(), p, v, k, 0)
        decreases last - a
      {
        assert a / 4096 == v + k && pa1 / 4096 == ppn + k;
        ok := MapNext(pagetable, a, pa1, perm, p, st0, v, k, n, ppn);
        if !ok {
          return;
        }
        k := k + 1;
        if a == last {
          Paid(st0, St(), p, v, k, 0);
          break;
        }
        a := a + 4096;
        pa1 := pa1 + 4096;
      }
    }

    /** map1page, with the sizes and errors it returns. */
    method Map1Page(pagetable: nat, va: nat, pa: nat, perm: nat, ghost p: nat) returns (res: int)
      requires Valid() && p in spaces && pagetable == Addr(spaces[p].root) && 1 < perm < 1024 && va / 4096 < PAGES
      requires FrameAt(pa) < mem.Length && (St().Managed(FrameAt(pa)) ==> held[FrameAt(pa)] > 0)
      modifies this, mem, refs
      ensures Valid() && p in spaces && (res == -2 || res == -1 || res == 4096)
      ensures res == -2 ==> va / 4096 in old(spaces[p].pt)
      ensures va / 4096 in old(spaces[p].pt) ==> res < 0
      ensures res == -1 ==> free == [] && va / 4096 / 512 !in old(spaces[p].low)
      ensures res < 0 ==> Grown(old(St()), St(), p)
      ensures res == 4096 ==>
        && Remapped(old(St()), St(), p, old(spaces[p].pt)[va / 4096 := Pte(pa / 4096, Or(perm, 1))])
        && held == old(held) - Share(old(St()), Pte(pa / 4096, Or(perm, 1)))
    {
      hide Listed, Trees, Accounts, Kept, SpaceGrown, Share, Pte, IsValid, IsLeaf, Rep;
      ghost var st0, w := St(), Pte(pa / 4096, Or(perm, 1));
      OrMeans(perm, 1, 1023);
      PteMeans(pa / 4096, Or(perm, 1));
      var ok, t := Walk(pagetable, va, true, p);
      if !ok {
        return -1;
      }
      ghost var st1 := St();
      GrownIs(st0, st1, p);
      SpaceIs(st0, st1, p, st0.spaces[p].pt);
      LeafMeans(st1, p, va / 4096);
      if mem[t][PX(0, va / 4096)] % 2 == 1 {
        return -2;
      }
      SetLeaf(t, va, Pte(pa / 4096, Or(perm, 1)), p);
      LeafRemaps(st1, p, va / 4096, w);
      RemappedTrans(st0, st1, St(), p, st0.spaces[p].pt, st0.spaces[p].pt[va / 4096 := w]);
      ShareSame(st0, st1, w);
      res := 4096;
    }

    /** One turn of the loop of uvmunmap.  The entry is cleared before the frame is put back;
        the two touch different memory. */
    method UnmapOne(pagetable: nat, va: nat, doFree: bool, ghost p: nat)
      requires p in spaces && pagetable == Addr(spaces[p].root) && va / 4096 in spaces[p].pt && va / 4096 < PAGES
      requires doFree ==> St().Managed(FrameOf(spaces[p].pt[va / 4096]))
      requires Valid()
      modifies this, mem, refs
      ensures Valid() && Unmapped(old(St()), St(), p, {va / 4096})
      ensures held == if doFree then old(held) else old(held) + Share(old(St()), old(spaces[p].pt)[va / 4096])
    {
      hide Listed, Trees, Accounts, IsValid, IsLeaf, Rep;
      ghost var st0, v := St(), va / 4096;
      LeafHome(st0, p, v);
      var found, t := Walk(pagetable, va, false, p);
      LeafMeans(st0, p, v);
      var pte := mem[t][PX(0, va / 4096)];
      assert pte == st0.mem[t][v % 512];
      ClearLeaf(t, va, p);
      ghost var st1 := St();
      ClearUnmaps(st0, p, v);
      if doFree {
        var f := pte / 1024 - KERN_PPN;
        HeldOnce(st0, p, v, f);
        Put(Addr(f));
        PutUnmaps(st0, st1, St(), p, v, f);
      }
    }

    /** uvmunmap, of pages that are mapped; otherwise it panics. */
    method UvmUnmap(pagetable: nat, va: nat, npages: nat, doFree: bool, ghost p: nat)
      requires Valid() && p in spaces && pagetable == Addr(spaces[p].root) && va % 4096 == 0
      requires forall v :: va / 4096 <= v < va / 4096 + npages ==> v in spaces[p].pt
      requires doFree ==> forall v :: va / 4096 <= v < va / 4096 + npages ==> St().Managed(FrameOf(spaces[p].pt[v]))
      modifies this, mem, refs
      ensures Valid() && Unmapped(old(St()), St(), p, Range(va / 4096, npages))
      ensures held == if doFree then old(held) else old(held) + LeafShares(old(St()), old(spaces[p].pt), va / 4096, npages)
    {
      hide Listed, Trees, Accounts, Inv, Share, Unmapped, LeafShares;
      ghost var st0, v, n := St(), va / 4096, 0;
      var a := va;
      UnmappedRefl(st0, p, v);
      NoShares(st0, v);
      while a < va + npages * 4096
        invariant n <= npages && a == (v + n) * 4096
        invariant Valid() && Unmapped(st0, St(), p, Range(v, n))
        invariant held == if doFree then st0.held else st0.held + LeafShares(st0, st0.spaces[p].pt, v, n)
      {
        UnmapNext(pagetable, a, doFree, p, st0, v, n);
        a, n := a + 4096, n + 1;
      }
    }

    /** Page `v + n`, after `n` pages since `st0`. */
    method UnmapNext(pagetable: nat, va: nat, doFree: bool, ghost p: nat, ghost st0: State, ghost v: nat, ghost n: nat)
      requires Valid() && p in st0.spaces && pagetable == Addr(st0.spaces[p].root) && va == (v + n) * 4096
      requires Unmapped(st0, St(), p, Range(v, n)) && v + n in st0.spaces[p].pt
      requires doFree ==> st0.Managed(FrameOf(st0.spaces[p].pt[v + n]))
      requires held == if doFree then st0.held else st0.held + LeafShares(st0, st0.spaces[p].pt, v, n)
      modifies this, mem, refs
      ensures Valid() && Unmapped(st0, St(), p, Range(v, n + 1))
      ensures held == if doFree then st0.held else st0.held + LeafShares(st0, st0.spaces[p].pt, v, n + 1)
    {
      hide Listed, Trees, Accounts, Inv, Share, Unmapped;
      ghost var st1 := St();
      UnmappedSpace(st0, st1, p, Range(v, n));
      LeafHome(st1, p, v + n);
      assert va / 4096 == v + n;
      UnmapOne(pagetable, va, doFree, p);
      UnmappedTrans(st0, st1, St(), p, Range(v, n), {v + n});
      assert Range(v, n) + {v + n} == Range(v, n + 1);
      ShareSame(st0, st1, st0.spaces[p].pt[v + n]);
    }

    /** uvmdealloc */
    method UvmDealloc(pagetable: nat, oldsz: nat, newsz: nat, ghost p: nat) returns (sz: nat)
      requires Valid() && p in spaces && pagetable == Addr(spaces[p].root)
      requires forall v :: PageUp(newsz) <= v < PageUp(oldsz) ==> v in spaces[p].pt && St().Managed(FrameOf(spaces[p].pt[v]))
      modifies this, mem, refs
      ensures Valid() && sz == (if newsz < oldsz then newsz else oldsz) && held == old(held)
      ensures Unmapped(old(St()), St(), p, Range(PageUp(newsz), if newsz < oldsz then PageUp(oldsz) - PageUp(newsz) else 0))
    {
      hide Listed, Trees, Accounts, Inv;
      UnmappedRefl(St(), p, PageUp(newsz));
      if newsz >= oldsz {
        return oldsz;
      }
      if PageUp(newsz) * 4096 < PageUp(oldsz) * 4096 {
        var npages := (PageUp(oldsz) * 4096 - PageUp(newsz) * 4096) / 4096;
        UvmUnmap(pagetable, PageUp(newsz) * 4096, npages, true, p);
      }
      sz := newsz;
    }

    /** uvmalloc: every page of the new range on a frame of its own that was free and is
        cleared; or, when frames run out, the old translation and every data frame back. */
    method UvmAlloc(pagetable: nat, oldsz: nat, newsz: nat, ghost p: nat) returns (sz: nat, ghost ok: bool)
      requires Valid() && p in spaces && pagetable == Addr(spaces[p].root) && newsz <= PAGES * 4096
      requires forall v :: PageUp(oldsz) <= v < PageUp(newsz) ==> v !in spaces[p].pt
      modifies this, mem, refs
      ensures Valid() && p in spaces && held == old(held)
      ensures newsz < oldsz ==> ok && sz == oldsz && St() == old(St())
      ensures newsz >= oldsz ==> sz == if ok then newsz else 0
      ensures newsz >= oldsz && ok ==>
        Extended(old(St()), St(), p, PageUp(oldsz), NewPages(oldsz, newsz))
      ensures !ok ==> Restored(old(St()), St(), p)
      ensures newsz >= oldsz ==> (ok <==> |old(free)| >= Costs(old(St()), p, PageUp(oldsz), NewPages(oldsz, newsz), 1))
    {
      hide Listed, Trees, Accounts, Inv, Extended, Restored, LeafFlags, Share, Unmapped, Charged, Costs;
      ok := true;
      if newsz < oldsz {
        return oldsz, true;
      }
      ghost var st0, v, k := St(), PageUp(oldsz), 0;
      var start := PageUp(oldsz) * 4096;
      var a := start;
      ExtendedRefl(st0, p, v);
      NothingCharged(st0, p, v, 1);
      while a < newsz
        invariant a == (v + k) * 4096 && (k > 0 ==> v + k <= PageUp(newsz))
        invariant Valid() && p in spaces && held == st0.held && Extended(st0, St(), p, v, k) && Charged(st0, St(), p, v, k, 1)
      {
        ghost var st1 := St();
        ExtendedSpace(st0, st1, p, v, k);
        var grown := AllocPage(pagetable, a, p, st0, v, k);
        ChargedNext(st0, st1, St(), p, v, k, NewPages(oldsz, newsz), 1, grown);
        if !grown {
          ghost var st2 := St();
          ExtendedSpace(st0, st2, p, v, k);
          ExtendedManaged(st0, st2, p, v, k);
          assert PageUp(a) == v + k && PageUp(start) == v;
          var _ := UvmDealloc(pagetable, a, start, p);
          RollBack(st0, st2, St(), p, v, k);
          return 0, false;
        }
        a, k := a + 4096, k + 1;
      }
      Paid(st0, St(), p, v, k, 1);
      sz := newsz;
    }

    /** mappages of one page, as all callers but the boot code use it. */
    method MapPage(pagetable: nat, va: nat, pa: nat, perm: nat, ghost p: nat) returns (ok: bool)
      requires Valid() && p in spaces && pagetable == Addr(spaces[p].root) && perm < 1024
      requires va % 4096 == 0 && pa % 4096 == 0 && va / 4096 < PAGES && va / 4096 !in spaces[p].pt
      requires FrameAt(pa) < mem.Length && (St().Managed(FrameAt(pa)) ==> held[FrameAt(pa)] > 0)
      modifies this, mem, refs
      ensures Valid() && p in spaces
      ensures ok ==>
        && Remapped(old(St()), St(), p, old(spaces[p].pt)[va / 4096 := Pte(pa / 4096, LeafFlags(perm))])
        && held == old(held) - Share(old(St()), Pte(pa / 4096, LeafFlags(perm)))
      ensures !ok ==> free == [] && Grown(old(St()), St(), p)
      ensures ok <==> |old(free)| >= Lacks(old(St()), p, va / 4096)
      ensures ok ==> Tabled(old(St()), St(), p, va / 4096, 0)
    {
      hide Listed, Trees, Accounts, Inv, LeafFlags, Share, Remapped, Pte, Charged, Costs, Lacks, Tabled;
      ghost var st := St();
      SpannedMeans(va, 4096);
      ghost var n;
      ok, n := MapPages(pagetable, va, 4096, pa, perm, p);
      OneCharged(st, St(), p, va / 4096, 0);
      OnePage(st, st.spaces[p].pt, va / 4096, pa / 4096, LeafFlags(perm), n);
    }

    /** One turn of the loop of uvmalloc. */
    method AllocPage(pagetable: nat, va: nat, ghost p: nat, ghost st0: State, ghost v: nat, ghost k: nat) returns (ok: bool)
      requires Valid() && Inv(st0) && p in spaces && p in st0.spaces && pagetable == Addr(st0.spaces[p].root)
      requires va == (v + k) * 4096 && v + k < PAGES && v + k !in spaces[p].pt
      requires held == st0.held && Extended(st0, St(), p, v, k)
      modifies this, mem, refs
      ensures Valid() && p in spaces && held == st0.held && Extended(st0, St(), p, v, if ok then k + 1 else k)
      ensures ok <==> |old(free)| >= 1 + Lacks(old(St()), p, v + k)
      ensures ok ==> Tabled(old(St()), St(), p, v + k, 1)
    {
      hide Listed, Trees, Accounts, Inv, Extended, LeafFlags, Share, Remapped, Kept, IsTable, Pte;
      ghost var st1 := St();
      ExtendedSpace(st0, st1, p, v, k);
      var pa := Alloc();
      if pa == 0 {
        return false;
      }
      var f: nat := pa / 4096 - KERN_PPN;
      JustTaken(st1, f);
      Fill(f, Filled(0));
      ghost var st2 := St();
      assert va / 4096 == v + k && pa / 4096 == KERN_PPN + f;
      ok := MapPage(pagetable, va, pa, 30, p);
      if ok {
        PageAdded(st0, st1, St(), p, v, k, f);
      } else {
        ghost var st3 := St();
        GrownIs(st2, st3, p);
        StillHeld(st1, st2, st3, p, f);
        Recycle(pa);
        PageReturned(st0, st1, st3, St(), p, v, k, f);
      }
    }
  }

  /** How many pages growing to `newsz` bytes adds. */
  function NewPages(oldsz: nat, newsz: nat): nat { if PageUp(newsz) > PageUp(oldsz) then PageUp(newsz) - PageUp(oldsz) else 0 }

  /** They are the pages that begin at or behind the old end and before the new one. */
  lemma NewPagesBetween(oldsz: nat, newsz: nat, u: nat)
    ensures PageUp(oldsz) <= u < PageUp(oldsz) + NewPages(oldsz, newsz) <==> oldsz <= 4096 * u < newsz
  {
  }

  lemma Paid(st: State, st': State, p: nat, v: nat, n: nat, each: nat)
    requires Charged(st, st', p, v, n, each)
    ensures |st.free| >= Costs(st, p, v, n, each)
  {
  }

  function PageUp(sz: nat): nat { (sz + 4095) / 4096 }

  function Range(v: nat, n: nat): (r: set<nat>)
    ensures forall u :: u in r <==> v <= u < v + n
  {
    if n == 0 then {} else Range(v, n - 1) + {v + n - 1}
  }

  /** The references of the leaves of `n` mapped pages. */
  function LeafShares(st: State, pt: map<nat, Word>, v: nat, n: nat): multiset<nat> {
    if n == 0 then multiset{}
    else LeafShares(st, pt, v, n - 1) + (if v + n - 1 in pt then Share(st, pt[v + n - 1]) else multiset{})
  }

  lemma UnmappedRefl(st: State, p: nat, v: nat)
    requires Inv(st) && p in st.spaces
    ensures Unmapped(st, st, p, Range(v, 0))
  {
    hide Inv;
    assert st.spaces[p].pt - Range(v, 0) == st.spaces[p].pt;
  }

  lemma NoShares(st: State, v: nat)
    ensures forall pt :: LeafShares(st, pt, v, 0) == multiset{}
  {
  }

  lemma UnmappedSpace(st: State, st': State, p: nat, gone: set<nat>)
    requires Unmapped(st, st', p, gone)
    ensures p in st'.spaces && st'.spaces[p].pt == st.spaces[p].pt - gone && st'.spaces[p].root == st.spaces[p].root
    ensures st'.first == st.first && |st'.mem| == |st.mem|
  {
  }

  lemma UnmappedTrans(a: State, b: State, c: State, p: nat, x: set<nat>, y: set<nat>)
    requires Unmapped(a, b, p, x) && Unmapped(b, c, p, y)
    ensures Unmapped(a, c, p, x + y)
  {
    assert a.spaces[p].pt - x - y == a.spaces[p].pt - (x + y);
    TablesSame(a.spaces, p, b.spaces[p]);
  }

  /** `st'` is `st` after the pages `gone` of space `p` were unmapped. */
  ghost predicate Unmapped(st: State, st': State, p: nat, gone: set<nat>) {
    && p in st.spaces && p in st'.spaces && st'.first == st.first && |st'.mem| == |st.mem| && |st'.refs| == |st.refs|
    && st'.spaces == st.spaces[p := st.spaces[p].(pt := st.spaces[p].pt - gone)]
    && (forall f :: f in st.free ==> f in st'.free)
    && forall f :: 0 <= f < |st.mem| && f !in st'.free && !IsTable(st.spaces, f) ==> st'.mem[f] == st.mem[f]
  }

  lemma LeafHome(st: State, p: nat, v: nat)
    requires Inv(st) && p in st.spaces && v in st.spaces[p].pt
    ensures v / 512 in st.spaces[p].low && st.spaces[p].low[v / 512] < |st.mem| && v < PAGES
    ensures FrameOf(st.spaces[p].pt[v]) < |st.mem|
  {
    RootFrame(st, p);
  }

  /** The leaf entry of a page. */
  lemma LeafMeans(st: State, p: nat, v: nat)
    requires p in st.spaces && v / 512 in st.spaces[p].low && Inv(st)
    ensures LeafSays(st.mem, st.spaces[p], v)
  {
    hide Inv, Rep, LeafSays;
    TreeOf(st, p);
    LeafRead(st.mem, st.spaces[p], v);
  }

  /** The entry of page `v` is what the translation says. */
  ghost predicate LeafSays(m: seq<Page>, s: Space, v: nat) {
    && v / 512 in s.low && s.low[v / 512] < |m|
    && var w := m[s.low[v / 512]][PX(0, v)];
       if v in s.pt then w == s.pt[v] && w % 2 == 1 && w % 1024 != 1 else w % 2 == 0
  }

  lemma LeafRead(m: seq<Page>, s: Space, v: nat)
    requires v / 512 in s.low && Rep(m, s)
    ensures LeafSays(m, s, v)
  {
    hide Rep, Separate, Placed, RootOk, MidOk, LowOk;
    VmState.Parts(m, s);
    Digits(v, v / 512, v % 512);
    LowEntry(m, s, v / 512, v % 512);
  }

  lemma TreeOf(st: State, p: nat)
    requires p in st.spaces && Inv(st)
    ensures Rep(st.mem, st.spaces[p])
  {
  }

  lemma LowEntry(m: seq<Page>, s: Space, q: nat, j: nat)
    requires q in s.low && s.low[q] < |m| && LowOk(m, s, q) && j < 512
    ensures var w := m[s.low[q]][j];
      if Key(q, j) in s.pt then w == s.pt[Key(q, j)] && w % 2 == 1 && w % 1024 != 1 else w % 2 == 0
  {
    hide Key;
  }

  lemma ClearUnmaps(st: State, p: nat, v: nat)
    requires Inv(st) && p in st.spaces && v in st.spaces[p].pt && v / 512 in st.spaces[p].low && st.spaces[p].low[v / 512] < |st.mem|
    ensures Unmapped(st, LeafCleared(st, p, v), p, {v})
  {
    hide Inv;
    var s := st.spaces[p];
    assert s.low[v / 512] in s.low.Values && s.low[v / 512] in s.Tables();
    assert IsTable(st.spaces, s.low[v / 512]);
  }

  /** The frame of a cleared leaf can be put back. */
  lemma HeldOnce(st: State, p: nat, v: nat, f: nat)
    requires Inv(st) && p in st.spaces && v in st.spaces[p].pt && v / 512 in st.spaces[p].low && st.spaces[p].low[v / 512] < |st.mem|
    requires f == FrameOf(st.spaces[p].pt[v]) && st.Managed(f)
    ensures f < |st.refs| == |st.mem| && 0 < st.refs[f] < 256 && !IsTable(st.spaces, f) && f !in st.free
    ensures LeafCleared(st, p, v).held[f] > 0 && LeafCleared(st, p, v).refs == st.refs
    ensures LeafCleared(st, p, v).held - multiset{f} == st.held
  {
    hide Listed, Trees, IsTable;
    assert (p, v) in Names(st.spaces, f);
    assert Counted(st, f);
  }

  lemma PutUnmaps(st: State, st1: State, st2: State, p: nat, v: nat, f: nat)
    requires Unmapped(st, st1, p, {v}) && f < |st.mem| == |st.refs| && f !in st.free && !IsTable(st.spaces, f)
    requires st1.refs[f] > 0 && st1.free == st.free
    requires st2 == if st1.refs[f] == 1 then Freed(st1, f) else Dropped(st1, f)
    ensures Unmapped(st, st2, p, {v})
  {
  }

  lemma GrownLow(st: State, st': State, p: nat)
    requires Grown(st, st', p)
    ensures p in st.spaces && p in st'.spaces && forall q :: q in st.spaces[p].low ==> q in st'.spaces[p].low
  {
  }

  lemma GrownIs(st: State, st': State, p: nat)
    requires Grown(st, st', p)
    ensures p in st.spaces && Remapped(st, st', p, st.spaces[p].pt) && st'.held == st.held
  {
  }

  lemma SpaceIs(st: State, st': State, p: nat, pt: map<nat, Word>)
    requires Remapped(st, st', p, pt)
    ensures st'.spaces[p].pt == pt && st'.spaces[p].root == st.spaces[p].root
    ensures st'.first == st.first && |st'.mem| == |st.mem|
  {
  }

  lemma ShareSame(st: State, st': State, w: Word)
    requires st'.first == st.first && |st'.mem| == |st.mem|
    ensures Share(st', w) == Share(st, w)
  {
  }

  lemma LeafRemaps(st: State, p: nat, v: nat, w: Word)
    requires Inv(st) && p in st.spaces && v / 512 in st.spaces[p].low && st.spaces[p].low[v / 512] < |st.mem|
    ensures Remapped(st, LeafSet(st, p, v, w), p, st.spaces[p].pt[v := w])
  {
    hide Inv;
    var s, st' := st.spaces[p], LeafSet(st, p, v, w);
    assert s.low[v / 512] in s.low.Values && s.low[v / 512] in s.Tables();
    assert IsTable(st.spaces, s.low[v / 512]);
    TablesSame(st.spaces, p, st'.spaces[p]);
  }

  lemma RootTable(st: State, p: nat)
    requires Inv(st) && p in st.spaces
    ensures st.spaces[p].root < |st.mem|
  {
    RootFrame(st, p);
  }

  /** An entry points to the table in frame `f`, or is not valid. */
  predicate PointsTo(w: Word, there: bool, f: nat) { if there then w % 2 == 1 && w / 1024 - KERN_PPN == f else w % 2 == 0 }

  /** The entry a walk reads in the root points to the next table, or there is none. */
  ghost predicate RootSays(m: seq<Page>, s: Space, v: nat) {
    var k := v / 512 / 512;
    && s.root < |m| && PX(2, v) == k < 512 && (k !in s.mid ==> v / 512 !in s.low) && (k in s.mid ==> s.mid[k] < |m|)
    && PointsTo(m[s.root][k], k in s.mid, if k in s.mid then s.mid[k] else 0)
  }

  lemma RootMeans(st: State, p: nat, v: nat)
    requires p in st.spaces && v < PAGES && Inv(st)
    ensures RootSays(st.mem, st.spaces[p], v)
  {
    hide Inv, Rep, RootSays;
    TreeOf(st, p);
    RootRead(st.mem, st.spaces[p], v);
  }

  lemma RootRead(m: seq<Page>, s: Space, v: nat)
    requires v < PAGES && Rep(m, s)
    ensures RootSays(m, s, v)
  {
    hide Rep, Separate, MidOk, LowOk, RootOk, PX;
    VmState.Parts(m, s);
    SmallIndex(v);
    RootEntry(m, s, v / 512 / 512);
  }

  lemma SmallIndex(v: nat)
    requires v < PAGES
    ensures PX(2, v) == v / 512 / 512 < 256
  {
  }

  /** The same for a table of the middle level. */
  ghost predicate MidSays(m: seq<Page>, s: Space, v: nat) {
    var q := v / 512;
    && q / 512 in s.mid && s.mid[q / 512] < |m| && PX(1, v) == q % 512 && (q in s.low ==> s.low[q] < |m|)
    && PointsTo(m[s.mid[q / 512]][q % 512], q in s.low, if q in s.low then s.low[q] else 0)
  }

  lemma MidMeans(st: State, p: nat, v: nat)
    requires p in st.spaces && v / 512 / 512 in st.spaces[p].mid && Inv(st)
    ensures MidSays(st.mem, st.spaces[p], v)
  {
    hide Inv, Rep, MidSays;
    TreeOf(st, p);
    MidRead(st.mem, st.spaces[p], v);
  }

  lemma MidRead(m: seq<Page>, s: Space, v: nat)
    requires v / 512 / 512 in s.mid && Rep(m, s)
    ensures MidSays(m, s, v)
  {
    hide Rep, Separate, RootOk, MidOk, LowOk;
    VmState.Parts(m, s);
    Digits(v / 512, v / 512 / 512, v / 512 % 512);
    MidEntry(m, s, v / 512 / 512, v / 512 % 512);
  }

  lemma PtrMeans(f: nat)
    ensures Ptr(f) % 2 == 1 && Ptr(f) / 1024 - KERN_PPN == f
  {
    DivModUnique(Ptr(f), 1024, KERN_PPN + f, 1);
    DivModUnique(Ptr(f), 2, 512 * (KERN_PPN + f), 1);
  }

  lemma RootEntry(m: seq<Page>, s: Space, k: nat)
    requires s.root < |m| && RootOk(m, s) && k < 512
    ensures m[s.root][k] % 2 == 1 <==> k in s.mid
    ensures k in s.mid ==> m[s.root][k] / 1024 - KERN_PPN == s.mid[k]
  {
    hide Ptr;
    if k in s.mid {
      PtrMeans(s.mid[k]);
    }
  }

  lemma MidEntry(m: seq<Page>, s: Space, k: nat, j: nat)
    requires k in s.mid && s.mid[k] < |m| && MidOk(m, s, k) && j < 512
    ensures m[s.mid[k]][j] % 2 == 1 <==> Key(k, j) in s.low
    ensures Key(k, j) in s.low ==> m[s.mid[k]][j] / 1024 - KERN_PPN == s.low[Key(k, j)]
  {
    hide Ptr, Key;
    if Key(k, j) in s.low {
      PtrMeans(s.low[Key(k, j)]);
    }
  }

  /** A frame just allocated is held once, for nothing else. */
  lemma JustTaken(st: State, f: nat)
    requires Inv(st) && st.free != [] && f == st.free[0]
    ensures f < |st.mem| == |st.refs| && st.refs[f] == 0 && st.held[f] == 0 && !IsTable(st.spaces, f) && st.Managed(f)
    ensures f !in Taken(st).free && Taken(st).held[f] == 1 && Taken(st).refs[f] == 1
  {
    TakenListed(st);
    NotTableFree(st, f);
  }

  lemma NotTableFree(st: State, f: nat)
    requires Inv(st) && f in st.free
    ensures st.Managed(f) && st.refs[f] == 0 && st.held[f] == 0 && !IsTable(st.spaces, f) && Names(st.spaces, f) == {}
  {
    var i :| 0 <= i < |st.free| && st.free[i] == f;
    assert Counted(st, f);
  }

  /** Allocating, clearing and linking a frame grows the space. */
  lemma TableAdded(st0: State, st3: State, p: nat, key: nat, f: nat, middle: bool)
    requires p in st0.spaces && st0.free != [] && f == st0.free[0] < |st0.mem| == |st0.refs| && st0.count > 0
    requires var st2 := Replaced(Taken(st0), f, Filled(0));
      if middle then st2.spaces[p].root < |st2.mem| && key < 512 && key !in st2.spaces[p].mid && st3 == LinkedMid(st2, p, key, f)
      else key / 512 in st2.spaces[p].mid && st2.spaces[p].mid[key / 512] < |st2.mem| && key !in st2.spaces[p].low
           && st3 == LinkedLow(st2, p, key, f)
    ensures Grown(st0, st3, p) && TableMade(st0, st3, p, key, f, middle)
  {
    hide Ptr, Kept, SpaceGrown, IsTable;
    var st2 := Replaced(Taken(st0), f, Filled(0));
    var t := if middle then st2.spaces[p].root else st2.spaces[p].mid[key / 512];
    var s := st0.spaces[p];
    assert st0.held + multiset{f} - multiset{f} == st0.held;
    assert t in s.Tables() by {
      if !middle {
        assert t in s.mid.Values;
      }
    }
    AddedGrows(s, key, f, middle);
    forall g | IsTable(st3.spaces, g) ensures IsTable(st0.spaces, g) || g in st0.free {
      AddedTable(st0.spaces, p, key, f, middle, g);
    }
    AddedKept(st0, st3, p, t, f);
  }

  lemma AddedGrows(s: Space, key: nat, f: nat, middle: bool)
    requires if middle then key !in s.mid else key !in s.low
    ensures SpaceGrown(s, if middle then s.(mid := s.mid[key := f]) else s.(low := s.low[key := f]), s.pt)
  {
  }

  /** Only the first free frame and a table have changed. */
  lemma AddedKept(st: State, st': State, p: nat, t: nat, f: nat)
    requires p in st.spaces && t in st.spaces[p].Tables() && st.free != [] && f == st.free[0] && st'.free == st.free[1..]
    requires st'.first == st.first && |st'.mem| == |st.mem| && |st'.refs| == |st.refs|
    requires forall g :: IsTable(st'.spaces, g) ==> IsTable(st.spaces, g) || g in st.free
    requires forall g :: 0 <= g < |st.refs| && g != f ==> st'.refs[g] == st.refs[g]
    requires forall g :: 0 <= g < |st.mem| && g != f && g != t ==> st'.mem[g] == st.mem[g]
    ensures Kept(st, st')
  {
    assert IsTable(st.spaces, t);
    assert f in st.free && forall g :: g in st'.free ==> g in st.free;
  }

  lemma AddedTable(spaces: map<nat, Space>, p: nat, key: nat, f: nat, middle: bool, g: nat)
    requires p in spaces
    requires var s := spaces[p];
      IsTable(spaces[p := if middle then s.(mid := s.mid[key := f]) else s.(low := s.low[key := f])], g)
    ensures IsTable(spaces, g) || g == f
  {
    var s := spaces[p];
    var spaces' := spaces[p := if middle then s.(mid := s.mid[key := f]) else s.(low := s.low[key := f])];
    var q :| q in spaces' && g in spaces'[q].Tables();
    if g != f {
      assert g in spaces[q].Tables();
    }
  }

  // ----- lemmas about uvmalloc

  lemma ExtendedRefl(st: State, p: nat, v: nat)
    requires p in st.spaces
    ensures Extended(st, st, p, v, 0)
  {
  }

  lemma ExtendedSpace(st: State, st': State, p: nat, v: nat, k: nat)
    requires Extended(st, st', p, v, k)
    ensures p in st.spaces && p in st'.spaces && st'.spaces[p].root == st.spaces[p].root
    ensures forall u :: u in st'.spaces[p].pt <==> u in st.spaces[p].pt || v <= u < v + k
    ensures st'.first == st.first && |st'.mem| == |st.mem|
  {
  }

  lemma ExtendedManaged(st: State, st': State, p: nat, v: nat, k: nat)
    requires Extended(st, st', p, v, k)
    ensures forall u :: v <= u < v + k ==> u in st'.spaces[p].pt && st'.Managed(FrameOf(st'.spaces[p].pt[u]))
  {
    forall u | v <= u < v + k ensures u in st'.spaces[p].pt && st'.Managed(FrameOf(st'.spaces[p].pt[u])) {
      assert NewPage(st, st', st'.spaces[p].pt[u]);
    }
  }

  /** What mapping a single page comes to. */
  lemma OnePage(st: State, pt: map<nat, Word>, v: nat, ppn: nat, flags: nat, n: nat)
    requires n <= 1
    ensures MapRange(pt, v, n, ppn, flags) == if n == 1 then pt[v := Pte(ppn, flags)] else pt
    ensures Shares(st, n, ppn, flags) == if n == 1 then Share(st, Pte(ppn, flags)) else multiset{}
  {
    hide Pte, Share;
    assert MapRange(pt, v, 0, ppn, flags) == pt && Shares(st, 0, ppn, flags) == multiset{};
  }

  /** A frame that a leaf names is neither free nor a table. */
  lemma NamedFrame(st: State, p: nat, u: nat, f: nat)
    requires Inv(st) && p in st.spaces && u in st.spaces[p].pt && FrameOf(st.spaces[p].pt[u]) == f && st.Managed(f)
    ensures f !in st.free && !IsTable(st.spaces, f)
  {
    hide Listed, Trees, IsTable;
    assert (p, u) in Names(st.spaces, f);
    assert Counted(st, f);
  }

  /** Pages added before stay what they are while more frames are taken. */
  lemma PagesStay(st0: State, st1: State, st4: State, p: nat, v: nat, k: nat, pt: map<nat, Word>, u: nat)
    requires Inv(st1) && Extended(st0, st1, p, v, k) && Remapped(st1, st4, p, pt) && v <= u < v + k
    ensures NewPage(st0, st4, st1.spaces[p].pt[u])
  {
    hide Inv, LeafFlags, SpaceGrown;
    assert NewPage(st0, st1, st1.spaces[p].pt[u]);
    NamedFrame(st1, p, u, FrameOf(st1.spaces[p].pt[u]));
  }

  lemma ExtendedThen(st0: State, st1: State, st4: State, p: nat, v: nat, k: nat, pt: map<nat, Word>, w: Word)
    requires Inv(st1) && Extended(st0, st1, p, v, k) && Remapped(st1, st4, p, pt) && v + k !in st1.spaces[p].pt
    requires pt == st1.spaces[p].pt || (pt == st1.spaces[p].pt[v + k := w] && NewPage(st1, st4, w))
    ensures Extended(st0, st4, p, v, if pt == st1.spaces[p].pt then k else k + 1)
  {
    hide Inv, LeafFlags, Kept;
    RemappedTrans(st0, st1, st4, p, st1.spaces[p].pt, pt);
    SpaceIs(st1, st4, p, pt);
    forall u | v <= u < v + k ensures NewPage(st0, st4, st1.spaces[p].pt[u]) {
      PagesStay(st0, st1, st4, p, v, k, pt, u);
    }
    if pt != st1.spaces[p].pt {
      StillNew(st0, st1, st4, p, v, k, w);
    }
  }

  /** A page new since `st1` is new since `st0`, on a frame no earlier page has. */
  lemma StillNew(st0: State, st1: State, st4: State, p: nat, v: nat, k: nat, w: Word)
    requires Extended(st0, st1, p, v, k) && NewPage(st1, st4, w) && st4.first == st1.first
    ensures NewPage(st0, st4, w)
    ensures forall u :: v <= u < v + k ==> FrameOf(st1.spaces[p].pt[u]) != FrameOf(w)
  {
    hide LeafFlags, SpaceGrown;
    forall u | v <= u < v + k ensures FrameOf(st1.spaces[p].pt[u]) != FrameOf(w) {
      assert NewPage(st0, st1, st1.spaces[p].pt[u]);
    }
  }

  /** Taking a frame and clearing it changes no space. */
  lemma TakenRemaps(st: State, p: nat)
    requires Listed(st) && p in st.spaces && st.free != []
    ensures st.free[0] < |st.mem| == |st.refs| && st.count > 0
    ensures Remapped(st, Replaced(Taken(st), st.free[0], Filled(0)), p, st.spaces[p].pt)
  {
    hide IsTable;
    TakenListed(st);
    assert st.spaces == st.spaces[p := st.spaces[p]];
  }

  lemma PageAdded(st0: State, st1: State, st4: State, p: nat, v: nat, k: nat, f: nat)
    requires Inv(st1) && Extended(st0, st1, p, v, k) && v + k !in st1.spaces[p].pt
    requires st1.free != [] && f == st1.free[0] < |st1.mem| == |st1.refs| && st1.count > 0
    requires Remapped(Replaced(Taken(st1), f, Filled(0)), st4, p, st1.spaces[p].pt[v + k := Pte(KERN_PPN + f, LeafFlags(30))])
    ensures Extended(st0, st4, p, v, k + 1)
    ensures Share(Replaced(Taken(st1), f, Filled(0)), Pte(KERN_PPN + f, LeafFlags(30))) == multiset{f}
  {
    hide Extended, LeafFlags, Pte, Listed, Trees, Accounts, IsTable;
    var st2, w := Replaced(Taken(st1), f, Filled(0)), Pte(KERN_PPN + f, LeafFlags(30));
    TakenRemaps(st1, p);
    JustTaken(st1, f);
    LeafFlagsMean(30);
    PteMeans(KERN_PPN + f, LeafFlags(30));
    NewPageIs(st1, st2, st4, p, f, st1.spaces[p].pt[v + k := w], w);
    hide Remapped, Kept;
    RemappedTrans(st1, st2, st4, p, st1.spaces[p].pt, st1.spaces[p].pt[v + k := w]);
    ExtendedThen(st0, st1, st4, p, v, k, st1.spaces[p].pt[v + k := w], w);
  }

  lemma NewPageIs(st1: State, st2: State, st4: State, p: nat, f: nat, pt: map<nat, Word>, w: Word)
    requires Remapped(st2, st4, p, pt) && FrameOf(w) == f && w % 1024 == LeafFlags(30)
    requires f < |st1.mem| == |st2.mem| && st1.Managed(f) && st2.first == st1.first
    requires f in st1.free && f !in st2.free && !IsTable(st2.spaces, f) && st2.mem[f] == Filled(0)
    ensures NewPage(st1, st4, w)
  {
    hide IsTable, LeafFlags, SpaceGrown;
  }

  lemma StillHeld(st1: State, st2: State, st3: State, p: nat, f: nat)
    requires Inv(st1) && st1.free != [] && f == st1.free[0] < |st1.mem| == |st1.refs| && st1.count > 0
    requires st2 == Replaced(Taken(st1), f, Filled(0)) && p in st2.spaces
    requires Remapped(st2, st3, p, st2.spaces[p].pt) && st3.held == st2.held
    ensures st3.held[f] > 0 && |st3.refs| == |st3.mem| && f < |st3.refs| && st3.refs[f] == 1 && st3.Managed(f)
    ensures st3.held - multiset{f} == st1.held
  {
    JustTaken(st1, f);
    hide Inv;
  }

  lemma PageReturned(st0: State, st1: State, st3: State, st4: State, p: nat, v: nat, k: nat, f: nat)
    requires Inv(st1) && Extended(st0, st1, p, v, k) && v + k !in st1.spaces[p].pt
    requires st1.free != [] && f == st1.free[0] < |st1.mem| == |st1.refs| && st1.count > 0
    requires Remapped(Replaced(Taken(st1), f, Filled(0)), st3, p, st1.spaces[p].pt)
    requires f < |st3.mem| == |st3.refs| && st4 == Freed(st3, f)
    ensures Extended(st0, st4, p, v, k)
  {
    hide Extended, Listed, Trees, Accounts, IsTable;
    var st2 := Replaced(Taken(st1), f, Filled(0));
    TakenRemaps(st1, p);
    RemappedTrans(st1, st2, st3, p, st1.spaces[p].pt, st1.spaces[p].pt);
    FreedRemaps(st1, st3, p, f, st1.spaces[p].pt);
    hide Remapped, Kept;
    ExtendedThen(st0, st1, st4, p, v, k, st1.spaces[p].pt, 0);
  }

  /** A frame taken since `st` may be freed again. */
  lemma FreedRemaps(st: State, st': State, p: nat, f: nat, pt: map<nat, Word>)
    requires Remapped(st, st', p, pt) && f in st.free && f < |st'.mem| == |st'.refs|
    ensures Remapped(st, Freed(st', f), p, pt)
  {
    hide IsTable, SpaceGrown;
  }

  /** Who owns a frame decides its count and whether it is free. */
  lemma OwnersDecide(st0: State, st4: State, p: nat, f: nat)
    requires Inv(st0) && Inv(st4) && p in st0.spaces && p in st4.spaces && st4.spaces == st0.spaces[p := st4.spaces[p]]
    requires st4.spaces[p].pt == st0.spaces[p].pt && st4.held == st0.held
    requires st4.first == st0.first && |st4.mem| == |st0.mem| && f < |st0.mem|
    requires !IsTable(st4.spaces, f) && !IsTable(st0.spaces, f)
    ensures |st0.refs| == |st4.refs| == |st0.mem| && (f in st4.free <==> f in st0.free)
    ensures f >= st0.first ==> st4.refs[f] == st0.refs[f]
  {
    ListedManaged(st0, f);
    ListedManaged(st4, f);
    if f >= st0.first {
      hide Listed, Trees, IsTable, Names, Counted;
      NamesSame(st0.spaces, p, st4.spaces[p]);
      CountDecides(st0, st4, f);
    }
  }

  lemma CountDecides(st0: State, st4: State, f: nat)
    requires Accounts(st0) && Accounts(st4) && st0.Managed(f) && st4.Managed(f)
    requires Names(st4.spaces, f) == Names(st0.spaces, f) && st4.held == st0.held
    requires !IsTable(st4.spaces, f) && !IsTable(st0.spaces, f)
    ensures st4.refs[f] == st0.refs[f] && (f in st4.free <==> f in st0.free)
  {
    assert Counted(st0, f) && Counted(st4, f);
  }

  lemma ListedManaged(st: State, f: nat)
    requires Inv(st)
    ensures |st.refs| == |st.mem| && (f in st.free ==> st.Managed(f))
  {
  }

  /** Unmapping what was added restores the translation and every data frame. */
  lemma RollBack(st0: State, st2: State, st4: State, p: nat, v: nat, k: nat)
    requires Inv(st0) && Inv(st4) && Extended(st0, st2, p, v, k) && Unmapped(st2, st4, p, Range(v, k))
    requires st4.held == st0.held && forall u :: v <= u < v + k ==> u !in st0.spaces[p].pt
    ensures p in st4.spaces && Restored(st0, st4, p)
  {
    hide Inv, LeafFlags, NewPage, IsTable;
    var s0, s4 := st0.spaces[p], st4.spaces[p];
    assert s4.pt == s0.pt;
    assert st4.spaces == st0.spaces[p := s4] && s4.Tables() == st2.spaces[p].Tables();
    TablesSame(st2.spaces, p, s4);
    SpaceTables(s0, st2.spaces[p], st2.spaces[p].pt);
    forall f: nat | f < |st0.mem| && f < |st0.refs| && !IsTable(st4.spaces, f)
      ensures (f in st4.free <==> f in st0.free) && (f !in st0.free && f >= st0.first ==> st4.refs[f] == st0.refs[f])
      ensures f !in st0.free ==> st4.mem[f] == st0.mem[f]
    {
      if IsTable(st0.spaces, f) {
        TablesStay(st0, st4, p, f);
      }
      OwnersDecide(st0, st4, p, f);
    }
  }

  lemma TablesStay(st: State, st': State, p: nat, f: nat)
    requires p in st.spaces && p in st'.spaces && st'.spaces == st.spaces[p := st'.spaces[p]]
    requires st.spaces[p].Tables() <= st'.spaces[p].Tables() && IsTable(st.spaces, f)
    ensures IsTable(st'.spaces, f)
  {
    var q :| q in st.spaces && f in st.spaces[q].Tables();
    assert q in st'.spaces && f in st'.spaces[q].Tables();
  }

  lemma SpaceTables(s: Space, s': Space, pt: map<nat, Word>)
    requires SpaceGrown(s, s', pt)
    ensures s.Tables() <= s'.Tables()
  {
    forall f | f in s.Tables() ensures f in s'.Tables() {
      if f in s.mid.Values {
        var k :| k in s.mid && s.mid[k] == f;
        assert s'.mid[k] == f;
      } else if f in s.low.Values {
        var q :| q in s.low && s.low[q] == f;
        assert s'.low[q] == f;
      }
    }
  }
}
