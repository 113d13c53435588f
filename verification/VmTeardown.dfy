/** free_pagetable_pages: the recursion over the frames of a tree without leaves gives every
    table back to the free list, once. */
module VmTeardown {
  import opened Arith
  import opened VmState
  import opened VmKernel

  /** The table of a subtree: the lowest one number `key`, the middle one, or the root. */
  ghost predicate IsSub(s: Space, level: nat, key: nat) {
    if level == 0 then key in s.low else if level == 1 then key in s.mid else level == 2 && key == 0
  }

  function TableOf(s: Space, level: nat, key: nat): nat
    requires IsSub(s, level, key)
  {
    if level == 0 then s.low[key] else if level == 1 then s.mid[key] else s.root
  }

  /** The tables below the first `i` entries. */
  ghost function Below(s: Space, level: nat, key: nat, i: nat): set<nat> {
    if level == 0 then {}
    else if level == 1 then set q | q in s.low && q / 512 == key && q % 512 < i :: s.low[q]
    else (set k | k in s.mid && k < i :: s.mid[k]) + (set q | q in s.low && q / 512 < i :: s.low[q])
  }

  ghost function SubTables(s: Space, level: nat, key: nat): set<nat>
    requires IsSub(s, level, key)
  {
    {TableOf(s, level, key)} + Below(s, level, key, 512)
  }

  /** The memory holds this subtree, and no leaf in it. */
  ghost predicate Sub(m: seq<Page>, s: Space, level: nat, key: nat) {
    && IsSub(s, level, key) && TableOf(s, level, key) < |m|
    && (level == 0 ==> forall j :: 0 <= j < 512 ==> !IsValid(m[s.low[key]][j]))
    && (level == 1 ==> MidOk(m, s, key) && forall q :: q in s.low && q / 512 == key ==> Sub(m, s, 0, q))
    && (level == 2 ==> RootOk(m, s) && forall k :: k in s.mid ==> Sub(m, s, 1, k))
  }

  /** The subtree under entry `i`, if there is one. */
  ghost predicate HasChild(s: Space, level: nat, key: nat, i: nat) {
    (level == 1 && Key(key, i) in s.low) || (level == 2 && i in s.mid)
  }

  ghost function ChildKey(level: nat, key: nat, i: nat): nat { if level == 1 then Key(key, i) else i }

  /** Every low table hangs under a middle one of small number. */
  ghost predicate Hung(s: Space) {
    && Separate(s) && (forall q :: q in s.low ==> q / 512 in s.mid) && forall k :: k in s.mid ==> k < 512
  }

  lemma BelowNext(s: Space, level: nat, key: nat, i: nat)
    requires IsSub(s, level, key) && i < 512 && Hung(s)
    ensures HasChild(s, level, key, i) ==> level > 0 && IsSub(s, level - 1, ChildKey(level, key, i))
    ensures HasChild(s, level, key, i) ==>
      Below(s, level, key, i + 1) == Below(s, level, key, i) + SubTables(s, level - 1, ChildKey(level, key, i))
    ensures !HasChild(s, level, key, i) ==> Below(s, level, key, i + 1) == Below(s, level, key, i)
    ensures Below(s, level, key, 0) == {}
  {
    hide Key, Separate;
    if level == 1 {
      Digits(Key(key, i), key, i);
      forall q | q in s.low && q / 512 == key && q % 512 == i ensures q == Key(key, i) {
        Digits(q, key, i);
      }
    } else if level == 2 {
      forall q | q in s.low && q / 512 == i ensures i in s.mid && s.low[q] in Below(s, 1, i, 512) {
      }
    }
  }

  /** The tables of a child are none of those before it, and not its parent. */
  lemma ChildApart(s: Space, level: nat, key: nat, i: nat)
    requires IsSub(s, level, key) && i < 512 && Hung(s) && HasChild(s, level, key, i)
    requires level > 0 && IsSub(s, level - 1, ChildKey(level, key, i))
    ensures SubTables(s, level - 1, ChildKey(level, key, i)) !! Below(s, level, key, i)
    ensures TableOf(s, level, key) !in SubTables(s, level - 1, ChildKey(level, key, i))
  {
    hide Key;
    if level == 1 {
      Digits(Key(key, i), key, i);
    }
  }

  lemma TableApart(s: Space, level: nat, key: nat, i: nat)
    requires IsSub(s, level, key) && Hung(s)
    ensures TableOf(s, level, key) !in Below(s, level, key, i)
  {
  }

  lemma SubKept(m: seq<Page>, m': seq<Page>, s: Space, level: nat, key: nat)
    requires Sub(m, s, level, key) && |m'| == |m| && Hung(s)
    requires forall f :: f in SubTables(s, level, key) && f < |m| ==> m'[f] == m[f]
    ensures Sub(m', s, level, key)
    decreases level
  {
    if level == 1 {
      forall q | q in s.low && q / 512 == key ensures Sub(m', s, 0, q) {
        assert s.low[q] in Below(s, 1, key, 512);
      }
    } else if level == 2 {
      forall k | k in s.mid ensures Sub(m', s, 1, k) {
        assert SubTables(s, 1, k) <= SubTables(s, 2, 0);
        SubKept(m, m', s, 1, k);
      }
    }
  }

  /** What free_pagetable_pages reads at entry `i`. */
  lemma ChildEntry(m: seq<Page>, s: Space, level: nat, key: nat, i: nat)
    requires Sub(m, s, level, key) && i < 512 && Hung(s)
    ensures var w := m[TableOf(s, level, key)][i];
      if HasChild(s, level, key, i)
      then level > 0 && Sub(m, s, level - 1, ChildKey(level, key, i)) && w % 2 == 1 && w / 2 % 8 == 0
           && w / 1024 - KERN_PPN == TableOf(s, level - 1, ChildKey(level, key, i))
      else w % 2 == 0
  {
    hide Key, Ptr;
    if level == 1 {
      Digits(Key(key, i), key, i);
      if Key(key, i) in s.low {
        PtrBits(s.low[Key(key, i)]);
      }
    } else if level == 2 && i in s.mid {
      PtrBits(s.mid[i]);
    }
  }

  lemma PtrBits(f: nat)
    ensures Ptr(f) % 2 == 1 && Ptr(f) / 2 % 8 == 0 && Ptr(f) / 1024 - KERN_PPN == f
  {
    PtrMeans(f);
    DivModUnique(Ptr(f), 2, 512 * (KERN_PPN + f), 1);
    DivModUnique(Ptr(f) / 2, 8, 64 * (KERN_PPN + f), 0);
  }

  /** The frames `fs` have been given back; `also` may have been written. */
  ghost predicate Returned(st: State, st': State, fs: set<nat>, also: set<nat>) {
    && st'.spaces == st.spaces && st'.first == st.first && |st'.mem| == |st.mem| && |st'.refs| == |st.refs|
    && st'.held == st.held - multiset(fs)
    && (forall f :: 0 <= f < |st.refs| && f !in fs ==> st'.refs[f] == st.refs[f])
    && forall f :: 0 <= f < |st.mem| && f !in fs && f !in also ==> st'.mem[f] == st.mem[f]
  }

  ghost predicate Ready(st: State, fs: set<nat>) {
    forall f :: f in fs ==> st.Managed(f) && f < |st.refs| && st.refs[f] == 1 && st.held[f] == 1
  }

  lemma ReturnedTrans(a: State, b: State, c: State, x: set<nat>, y: set<nat>, also: set<nat>)
    requires Returned(a, b, x, also) && Returned(b, c, y, also) && x !! y
    ensures Returned(a, c, x + y, also)
  {
    assert multiset(x + y) == multiset(x) + multiset(y);
  }

  lemma ReturnedMore(a: State, b: State, x: set<nat>, also: set<nat>, more: set<nat>)
    requires Returned(a, b, x, also) && also <= more
    ensures Returned(a, b, x, more)
  {
  }

  lemma StillReady(a: State, b: State, x: set<nat>, also: set<nat>, fs: set<nat>)
    requires Returned(a, b, x, also) && Ready(a, fs) && fs !! x
    ensures Ready(b, fs)
  {
  }

  /** A frame held and counted once is neither free nor a table. */
  lemma HeldFrame(st: State, f: nat)
    requires Inv(st) && st.Managed(f) && st.held[f] > 0
    ensures f !in st.free && !IsTable(st.spaces, f) && f < |st.refs| == |st.mem|
  {
    NotTable(st, f);
    assert Counted(st, f);
  }

  lemma BelowSub(s: Space, level: nat, key: nat, i: nat)
    requires IsSub(s, level, key) && i <= 512
    ensures Below(s, level, key, i) <= SubTables(s, level, key)
  {
  }

  lemma ReturnedStart(st: State, s: Space, level: nat, key: nat, f: nat)
    ensures Returned(st, st, Below(s, level, key, 0), {f})
  {
    assert Below(s, level, key, 0) == {};
  }

  /** What is ready can be recycled. */
  lemma ReadyFrame(st: State, fs: set<nat>, f: nat)
    requires Ready(st, fs) && f in fs
    ensures st.Managed(f) && f < |st.refs| && st.refs[f] == 1 && st.held[f] == 1
  {
  }

  /** Recycling the table itself ends the work on its subtree. */
  lemma ReturnedAll(st0: State, st1: State, fs: set<nat>, f: nat)
    requires Returned(st0, st1, fs, {f}) && f !in fs && f < |st1.mem| == |st1.refs|
    ensures Returned(st0, Freed(st1, f), {f} + fs, {})
  {
    assert multiset({f} + fs) == multiset(fs) + multiset{f};
  }

  lemma ReturnedWritten(st0: State, st1: State, fs: set<nat>, f: nat, page: Page)
    requires Returned(st0, st1, fs, {f}) && f < |st1.mem|
    ensures Returned(st0, Replaced(st1, f, page), fs, {f})
  {
  }

  lemma ReturnedSame(st0: State, st1: State, fs: set<nat>, also: set<nat>, g: nat)
    requires Returned(st0, st1, fs, also) && g < |st0.mem| && g !in fs && g !in also
    ensures |st1.mem| == |st0.mem| && st1.mem[g] == st0.mem[g]
  {
  }

  lemma SubSizes(m: seq<Page>, s: Space, level: nat, key: nat)
    requires Sub(m, s, level, key)
    ensures IsSub(s, level, key) && TableOf(s, level, key) < |m|
  {
  }

  /** The child under entry `i` is as it was when the work on its parent began. */
  lemma ChildReady(st0: State, st1: State, s: Space, level: nat, key: nat, i: nat)
    requires Sub(st0.mem, s, level, key) && Hung(s) && i < 512 && HasChild(s, level, key, i) && level > 0
    requires IsSub(s, level, key) && Sub(st0.mem, s, level - 1, ChildKey(level, key, i))
    requires Returned(st0, st1, Below(s, level, key, i), {TableOf(s, level, key)})
    requires Ready(st0, SubTables(s, level, key))
    ensures IsSub(s, level - 1, ChildKey(level, key, i)) && Sub(st1.mem, s, level - 1, ChildKey(level, key, i))
    ensures Ready(st1, SubTables(s, level - 1, ChildKey(level, key, i)))
    ensures SubTables(s, level - 1, ChildKey(level, key, i)) !! Below(s, level, key, i)
  {
    hide Sub, Below, Returned, Ready, Hung;
    var c := ChildKey(level, key, i);
    SubSizes(st0.mem, s, level - 1, c);
    BelowNext(s, level, key, i);
    BelowSub(s, level, key, i + 1);
    ChildApart(s, level, key, i);
    var fs := SubTables(s, level - 1, c);
    forall f | f in fs && f < |st0.mem| ensures |st1.mem| == |st0.mem| && st1.mem[f] == st0.mem[f] {
      ReturnedSame(st0, st1, Below(s, level, key, i), {TableOf(s, level, key)}, f);
    }
    ReturnedSizes(st0, st1, Below(s, level, key, i), {TableOf(s, level, key)});
    SubKept(st0.mem, st1.mem, s, level - 1, c);
    ReadyPart(st0, SubTables(s, level, key), fs);
    StillReady(st0, st1, Below(s, level, key, i), {TableOf(s, level, key)}, fs);
  }

  lemma ReadyPart(st: State, fs: set<nat>, part: set<nat>)
    requires Ready(st, fs) && part <= fs
    ensures Ready(st, part)
  {
  }

  lemma ReturnedSizes(st0: State, st1: State, fs: set<nat>, also: set<nat>)
    requires Returned(st0, st1, fs, also)
    ensures |st1.mem| == |st0.mem| && |st1.refs| == |st0.refs| && st1.first == st0.first && st1.spaces == st0.spaces
  {
  }

  /** free_pagetable_pages */
  method FreePages(k: Kmem, pa: nat, ghost s: Space, ghost level: nat, ghost key: nat)
    requires k.Valid() && Hung(s) && Sub(k.St().mem, s, level, key) && pa == Addr(TableOf(s, level, key))
    requires Ready(k.St(), SubTables(s, level, key))
    modifies k, k.mem, k.refs
    ensures k.Valid() && Returned(old(k.St()), k.St(), SubTables(s, level, key), {})
    decreases level, 1
  {
    hide Inv, Sub, Below, Returned, Ready, Hung;
    ghost var st0 := k.St();
    SubSizes(st0.mem, s, level, key);
    var f: nat := pa / 4096 - KERN_PPN;
    var i := 0;
    ReturnedStart(st0, s, level, key, f);
    while i < 512
      invariant 0 <= i <= 512 && f < k.mem.Length && k.Valid()
      invariant Returned(st0, k.St(), Below(s, level, key, i), {f})
      invariant forall j :: i <= j < 512 ==> k.mem[f][j] == st0.mem[f][j]
    {
      var pte := k.mem[f][i];
      ChildEntry(st0.mem, s, level, key, i);
      BelowNext(s, level, key, i);
      if pte % 2 == 1 && pte / 2 % 8 == 0 {
        FreeChild(k, f, i, pte, s, level, key, st0);
      } else {
        assert pte % 2 == 0;  // otherwise it panics
      }
      i := i + 1;
    }
    TableApart(s, level, key, 512);
    ReadyPart(st0, SubTables(s, level, key), {f});
    StillReady(st0, k.St(), Below(s, level, key, 512), {f}, {f});
    ReadyFrame(k.St(), {f}, f);
    ReturnedSizes(st0, k.St(), Below(s, level, key, 512), {f});
    HeldFrame(k.St(), f);
    ReturnedAll(st0, k.St(), Below(s, level, key, 512), f);
    k.Recycle(pa);
  }

  /** A pointer to a lower table: that table is freed first, then the entry is cleared. */
  method FreeChild(k: Kmem, f: nat, i: nat, pte: Word, ghost s: Space, ghost level: nat, ghost key: nat, ghost st0: State)
    requires k.Valid() && Hung(s) && Sub(st0.mem, s, level, key) && IsSub(s, level, key) && f == TableOf(s, level, key) < k.mem.Length
    requires i < 512 && level > 0 && HasChild(s, level, key, i) && IsSub(s, level - 1, ChildKey(level, key, i))
    requires pte / 1024 - KERN_PPN == TableOf(s, level - 1, ChildKey(level, key, i))
    requires Sub(st0.mem, s, level - 1, ChildKey(level, key, i)) && Ready(st0, SubTables(s, level, key))
    requires Returned(st0, k.St(), Below(s, level, key, i), {f})
    modifies k, k.mem, k.refs
    ensures k.Valid() && Returned(st0, k.St(), Below(s, level, key, i + 1), {f})
    ensures forall j :: i < j < 512 ==> k.mem[f][j] == old(k.mem[f][j])
    decreases level, 0
  {
    hide Inv, Sub, Below, Returned, Ready, Hung;
    ghost var st1, c := k.St(), ChildKey(level, key, i);
    ghost var fs := SubTables(s, level - 1, c);
    ChildReady(st0, st1, s, level, key, i);
    ChildApart(s, level, key, i);
    TableApart(s, level, key, i);
    FreePages(k, (pte / 1024) * 4096, s, level - 1, c);
    ghost var st2 := k.St();
    ReturnedSame(st1, st2, fs, {}, f);
    ReturnedMore(st1, st2, fs, {}, {f});
    ReturnedTrans(st0, st1, st2, Below(s, level, key, i), fs, {f});
    BelowNext(s, level, key, i);
    BelowSub(s, level, key, i + 1);
    TableApart(s, level, key, i + 1);
    ReadyPart(st0, SubTables(s, level, key), {f});
    StillReady(st0, st2, Below(s, level, key, i + 1), {f}, {f});
    ReadyFrame(st2, {f}, f);
    HeldFrame(st2, f);
    ReturnedWritten(st0, st2, Below(s, level, key, i + 1), f, k.mem[f][i := 0]);
    k.Fill(f, k.mem[f][i := 0]);
  }

  lemma TreeIsSub(m: seq<Page>, s: Space)
    requires Rep(m, s) && s.pt == map[]
    ensures Sub(m, s, 2, 0) && Hung(s)
  {
    VmState.Parts(m, s);
    Homes(m, s);
    hide Key;
    forall k | k in s.mid ensures Sub(m, s, 1, k) {
      forall q | q in s.low && q / 512 == k ensures Sub(m, s, 0, q) {
        assert LowOk(m, s, q);
      }
    }
  }

  lemma AllTables(s: Space)
    requires Hung(s)
    ensures SubTables(s, 2, 0) == s.Tables()
  {
    assert (set k | k in s.mid && k < 512 :: s.mid[k]) == s.mid.Values;
    assert (set q | q in s.low && q / 512 < 512 :: s.low[q]) == s.low.Values;
  }

  lemma TablesReady(st: State, p: nat)
    requires Inv(st) && p in st.spaces
    ensures Ready(Dismantled(st, p), st.spaces[p].Tables())
  {
    hide Inv, IsTable, Names;
    forall f | f in st.spaces[p].Tables()
      ensures st.Managed(f) && f < |st.refs| && st.refs[f] == 1 && Dismantled(st, p).held[f] == 1
    {
      TableFrame(st, p, f);
    }
  }

  lemma TableFrame(st: State, p: nat, f: nat)
    requires Inv(st) && p in st.spaces && f in st.spaces[p].Tables()
    ensures st.Managed(f) && f < |st.refs| && st.refs[f] == 1 && st.held[f] == 0
  {
    TablesUsed(st, p, f);
    ListedManaged(st, f);
  }

  lemma HeldBack(held: multiset<nat>, fs: set<nat>)
    ensures held + multiset(fs) - multiset(fs) == held
  {
  }

  lemma ReturnedIs(st: State, st': State, fs: set<nat>)
    requires Returned(st, st', fs, {})
    ensures st'.spaces == st.spaces && st'.first == st.first && |st'.mem| == |st.mem| && st'.held == st.held - multiset(fs)
    ensures forall f :: 0 <= f < |st.mem| && f !in fs ==> st'.mem[f] == st.mem[f]
  {
  }

  /** free_pagetable_pages on the root of a space without leaves. */
  method FreeTree(k: Kmem, pagetable: nat, ghost p: nat)
    requires k.Valid() && p in k.spaces && k.spaces[p].pt == map[] && pagetable == Addr(k.spaces[p].root)
    modifies k, k.mem, k.refs
    ensures k.Valid() && k.spaces == old(k.spaces) - {p} && k.held == old(k.held)
    ensures forall f :: 0 <= f < k.mem.Length && f !in old(k.spaces[p].Tables()) ==> k.mem[f] == old(k.mem[f])
  {
    hide Listed, Trees, Accounts, Rep, Sub, Hung, Ready, Returned, Below, Inv, Separate;
    ghost var st, s := k.St(), k.spaces[p];
    TreeAt(st, p);
    TreeIsSub(st.mem, s);
    AllTables(s);
    TablesReady(st, p);
    DismantledKeeps(st, p);
    HeldBack(st.held, s.Tables());
    k.spaces := k.spaces - {p};
    k.held := k.held + multiset(s.Tables());
    ghost var st1 := k.St();
    assert st1 == Dismantled(st, p);
    FreePages(k, pagetable, s, 2, 0);
    ReturnedIs(st1, k.St(), s.Tables());
    forall f | 0 <= f < k.mem.Length && f !in s.Tables() ensures k.mem[f] == old(k.mem[f]) {
      assert k.St().mem[f] == st1.mem[f];
    }
  }

  lemma TreeAt(st: State, p: nat)
    requires Inv(st) && p in st.spaces
    ensures Rep(st.mem, st.spaces[p])
  {
  }
}
