/** Physical frames, the page tables inside them and the reference counts, as values:
    what a well-formed state is, and how each elementary change keeps it so.
    Page tables follow Sv39 (RISC-V Privileged Architecture, section 4.4). */
module VmState {
  type Word = nat
  type Page = s: seq<Word> | |s| == 512 witness seq(512, _ => 0)

  /** The physical page number of frame 0, at KERNBASE, and the virtual pages below MAXVA. */
  const KERN_PPN := 0x8_0200
  const PAGES := 0x400_0000

  function Addr(f: nat): nat { (KERN_PPN + f) * 4096 }

  function FrameAt(pa: nat): int { pa / 4096 - KERN_PPN }

  /** A pointer to the table in frame `f`: PA2PTE and PTE_V. */
  function Ptr(f: nat): Word { (KERN_PPN + f) * 1024 + 1 }

  /** PTE2PA, as a frame. */
  function FrameOf(w: Word): int { w / 1024 - KERN_PPN }

  predicate IsValid(w: Word) { w % 2 == 1 }

  /** More flags than PTE_V alone. */
  predicate IsLeaf(w: Word) { w % 1024 != 1 }

  /** The page, or the table, that entry `j` of the table number `q` is about. */
  function Key(q: nat, j: nat): nat { q * 512 + j }

  function Filled(x: Word): Page { seq(512, _ => x) }

  /** A page of ones that starts with a link. */
  function Junk(next: Word): Page { Filled(0x0101_0101_0101_0101)[0 := next] }

  /** An address space: the root table, the tables of the middle and the lowest level by
      the page numbers they serve, and the translation they amount to. */
  datatype Space = Space(root: nat, mid: map<nat, nat>, low: map<nat, nat>, pt: map<nat, Word>)
  {
    function Tables(): set<nat> { {root} + mid.Values + low.Values }
  }

  /** Everything of the kernel's memory that paging is about.  `held` are the references a
      kernel function has taken and not yet put into a table. */
  datatype State = State(
    first: nat, mem: seq<Page>, refs: seq<nat>, freelist: nat, count: nat, free: seq<nat>,
    spaces: map<nat, Space>, held: multiset<nat>)
  {
    predicate Managed(f: int) { first <= f < |mem| }
  }

  // ----- one tree -----------------------------------------------------------------------

  /** No table serves two purposes. */
  ghost predicate Separate(s: Space) {
    && (forall a, b :: a in s.mid && b in s.mid && s.mid[a] == s.mid[b] ==> a == b)
    && (forall a, b :: a in s.low && b in s.low && s.low[a] == s.low[b] ==> a == b)
    && (forall a, b :: a in s.mid && b in s.low ==> s.mid[a] != s.low[b])
    && (forall a :: a in s.mid ==> s.mid[a] != s.root)
    && (forall a :: a in s.low ==> s.low[a] != s.root)
  }

  ghost predicate Placed(m: seq<Page>, s: Space) {
    && s.root < |m|
    && (forall k :: k in s.mid ==> k < 512 && s.mid[k] < |m|)
    && (forall q :: q in s.low ==> q / 512 in s.mid && s.low[q] < |m|)
    && (forall v :: v in s.pt ==> v < PAGES && v / 512 in s.low)
  }

  ghost predicate RootOk(m: seq<Page>, s: Space)
    requires s.root < |m|
  {
    forall k :: 0 <= k < 512 ==> if k in s.mid then m[s.root][k] == Ptr(s.mid[k]) else !IsValid(m[s.root][k])
  }

  ghost predicate MidOk(m: seq<Page>, s: Space, k: nat)
    requires k in s.mid && s.mid[k] < |m|
  {
    forall j :: 0 <= j < 512 ==>
      if Key(k, j) in s.low then m[s.mid[k]][j] == Ptr(s.low[Key(k, j)]) else !IsValid(m[s.mid[k]][j])
  }

  ghost predicate LowOk(m: seq<Page>, s: Space, q: nat)
    requires q in s.low && s.low[q] < |m|
  {
    forall j :: 0 <= j < 512 ==>
      if Key(q, j) in s.pt then m[s.low[q]][j] == s.pt[Key(q, j)] && IsValid(m[s.low[q]][j]) && IsLeaf(m[s.low[q]][j])
      else !IsValid(m[s.low[q]][j])
  }

  /** The frames hold the tree of `s`, and the tree amounts to its translation. */
  ghost predicate Rep(m: seq<Page>, s: Space) {
    && Separate(s) && Placed(m, s) && RootOk(m, s)
    && (forall k :: k in s.mid ==> MidOk(m, s, k))
    && (forall q :: q in s.low ==> LowOk(m, s, q))
  }

  /** The leaves that name frame `f`. */
  function Names(spaces: map<nat, Space>, f: nat): set<(nat, nat)> {
    set p, v | p in spaces && v in spaces[p].pt && FrameOf(spaces[p].pt[v]) == f :: (p, v)
  }

  ghost predicate IsTable(spaces: map<nat, Space>, f: nat) {
    exists p :: p in spaces && f in spaces[p].Tables()
  }

  // ----- the whole ----------------------------------------------------------------------

  function Next(st: State, i: nat): nat { if i < |st.free| then Addr(st.free[i]) else 0 }

  /** The free list: its frames are distinct, linked through their first words, counted. */
  ghost predicate Listed(st: State) {
    && |st.refs| == |st.mem| && st.count == |st.free| && st.freelist == Next(st, 0)
    && (forall i :: 0 <= i < |st.free| ==> st.Managed(st.free[i]) && st.mem[st.free[i]][0] == Next(st, i + 1))
    && (forall i, j :: 0 <= i < j < |st.free| ==> st.free[i] != st.free[j])
  }

  /** Its tables are managed frames, its leaves name frames. */
  ghost predicate Within(s: Space, first: nat, n: nat) {
    && (forall f :: f in s.Tables() ==> first <= f < n)
    && (forall v :: v in s.pt ==> FrameOf(s.pt[v]) < n)
  }

  ghost predicate Trees(st: State) {
    && (forall p :: p in st.spaces ==> Rep(st.mem, st.spaces[p]))
    && (forall p :: p in st.spaces ==> Within(st.spaces[p], st.first, |st.mem|))
    && (forall p, q :: p in st.spaces && q in st.spaces && p != q ==> st.spaces[p].Tables() !! st.spaces[q].Tables())
  }

  /** One reference for a table, one for each leaf that names the frame, one for each held;
      a frame is free exactly when there is none. */
  ghost predicate Counted(st: State, f: nat)
    requires f < |st.refs|
  {
    && st.refs[f] < 256
    && st.refs[f] == |Names(st.spaces, f)| + st.held[f] + (if IsTable(st.spaces, f) then 1 else 0)
    && (f in st.free <==> st.refs[f] == 0)
    && (IsTable(st.spaces, f) ==> st.refs[f] == 1)
  }

  ghost predicate Accounts(st: State) {
    && |st.refs| == |st.mem|
    && (forall f :: st.first <= f < |st.mem| ==> Counted(st, f))
    && (forall f :: f in st.held ==> st.Managed(f))
  }

  ghost predicate Inv(st: State) { Listed(st) && Trees(st) && Accounts(st) }

  // ----- elementary changes ---------------------------------------------------------------

  /** A tree does not notice what happens outside its tables. */
  lemma RepKept(m: seq<Page>, m': seq<Page>, s: Space)
    requires Rep(m, s) && |m'| == |m| && forall f :: f in s.Tables() && f < |m| ==> m'[f] == m[f]
    ensures Rep(m', s)
  {
    forall k | k in s.mid ensures MidOk(m', s, k) {
      assert s.mid[k] in s.mid.Values;
    }
    forall q | q in s.low ensures LowOk(m', s, q) {
      assert s.low[q] in s.low.Values;
    }
  }

  /** The trees keep when only frames outside all of them change. */
  lemma TreesKept(st: State, st': State)
    requires Trees(st) && st'.spaces == st.spaces && |st'.mem| == |st.mem| && st'.first == st.first
    requires forall p, f :: p in st.spaces && f in st.spaces[p].Tables() && f < |st.mem| ==> st'.mem[f] == st.mem[f]
    ensures Trees(st')
  {
    hide Rep;
    forall p | p in st'.spaces ensures Rep(st'.mem, st'.spaces[p]) {
      RepKept(st.mem, st'.mem, st.spaces[p]);
    }
  }

  /** Counts that concern one frame only. */
  lemma OneCount(st: State, st': State, f: nat)
    requires Accounts(st) && st'.first == st.first && |st'.mem| == |st.mem| && f < |st.mem|
    requires |st'.refs| == |st.refs| && forall g :: 0 <= g < |st.refs| && g != f ==> st'.refs[g] == st.refs[g]
    requires forall g :: g != f ==> (g in st'.free <==> g in st.free) && st'.held[g] == st.held[g]
    requires forall g :: g != f ==> Names(st'.spaces, g) == Names(st.spaces, g)
    requires forall g :: g != f ==> (IsTable(st'.spaces, g) <==> IsTable(st.spaces, g))
    requires st.Managed(f) ==> Counted(st', f)
    requires st'.held[f] > 0 ==> st.Managed(f)
    ensures Accounts(st')
  {
    forall g | st'.first <= g < |st'.mem| ensures Counted(st', g) {
      if g != f {
        assert Counted(st, g);
      }
    }
    forall g | g in st'.held ensures st'.Managed(g) {
      if g != f {
        assert g in st.held;
      }
    }
  }

  lemma ListedSame(st: State, st': State)
    requires Listed(st) && st'.free == st.free && st'.freelist == st.freelist && st'.count == st.count && st'.first == st.first
    requires |st'.mem| == |st.mem| && |st'.refs| == |st.refs|
    requires forall f :: f in st.free && f < |st.mem| ==> st'.mem[f] == st.mem[f]
    ensures Listed(st')
  {
  }

  /** The head of the free list, taken. */
  function Taken(st: State): State
    requires st.free != [] && st.free[0] < |st.mem| == |st.refs| && st.count > 0
  {
    var f := st.free[0];
    st.(mem := st.mem[f := Filled(0x0505_0505_0505_0505)], refs := st.refs[f := 1], freelist := st.mem[f][0],
        count := st.count - 1, free := st.free[1..], held := st.held + multiset{f})
  }

  lemma TakenListed(st: State)
    requires Listed(st) && st.free != []
    ensures Listed(Taken(st)) && st.Managed(st.free[0])
    ensures forall g :: g in Taken(st).free <==> g in st.free && g != st.free[0]
  {
    var st' := Taken(st);
    assert forall i :: 0 <= i < |st'.free| ==> st'.free[i] == st.free[i + 1];
  }

  lemma TakenKeeps(st: State)
    requires Inv(st) && st.free != []
    ensures Inv(Taken(st))
  {
    var st', f := Taken(st), st.free[0];
    TakenListed(st);
    hide Listed;
    assert Counted(st, f);
    NotTable(st, f);
    TreesKept(st, st');
    hide Trees;
    OneCount(st, st', f);
  }

  /** A frame without a reference of its own for it is no table. */
  lemma NotTable(st: State, f: nat)
    requires Inv(st) && st.Managed(f) && (st.refs[f] == 0 || st.held[f] > 0)
    ensures forall p :: p in st.spaces ==> f !in st.spaces[p].Tables()
    ensures |Names(st.spaces, f)| + st.held[f] == st.refs[f] && !IsTable(st.spaces, f)
  {
    assert Counted(st, f);
    if IsTable(st.spaces, f) {
      assert false;
    }
    forall p | p in st.spaces ensures f !in st.spaces[p].Tables() {
    }
  }

  /** A frame pushed on the free list. */
  function Freed(st: State, f: nat): State
    requires f < |st.mem| == |st.refs|
  {
    st.(mem := st.mem[f := Junk(st.freelist)], refs := st.refs[f := 0], freelist := Addr(f),
        count := st.count + 1, free := [f] + st.free, held := st.held - multiset{f})
  }

  lemma FreedListed(st: State, f: nat)
    requires Listed(st) && st.Managed(f) && f !in st.free
    ensures Listed(Freed(st, f))
    ensures forall g :: g in Freed(st, f).free <==> g in st.free || g == f
  {
    var st' := Freed(st, f);
    assert forall i :: 0 < i < |st'.free| ==> st'.free[i] == st.free[i - 1];
    assert st'.free[0] == f;
  }

  lemma FreedKeeps(st: State, f: nat)
    requires Inv(st) && st.held[f] > 0 && f < |st.refs| == |st.mem| && st.refs[f] == 1
    ensures Inv(Freed(st, f))
  {
    var st' := Freed(st, f);
    assert f in st.held && Counted(st, f);
    FreedListed(st, f);
    hide Listed;
    NotTable(st, f);
    TreesKept(st, st');
    hide Trees;
    OneCount(st, st', f);
  }

  /** put_physical_page of a frame with further references. */
  function Dropped(st: State, f: nat): State
    requires f < |st.refs| && st.refs[f] > 0
  {
    st.(refs := st.refs[f := st.refs[f] - 1], held := st.held - multiset{f})
  }

  lemma DroppedKeeps(st: State, f: nat)
    requires Inv(st) && st.held[f] > 0 && f < |st.refs| == |st.mem| && st.refs[f] > 1
    ensures Inv(Dropped(st, f))
  {
    var st' := Dropped(st, f);
    ListedSame(st, st');
    hide Listed;
    assert f in st.held && Counted(st, f);
    NotTable(st, f);
    TreesKept(st, st');
    hide Trees;
    OneCount(st, st', f);
  }

  /** dup_physical_page */
  function Dupped(st: State, f: nat): State
    requires f < |st.refs|
  {
    st.(refs := st.refs[f := st.refs[f] + 1], held := st.held + multiset{f})
  }

  lemma DuppedCount(st: State, f: nat)
    requires Accounts(st) && st.Managed(f) && st.refs[f] < 255 && |Names(st.spaces, f)| > 0
    ensures Counted(Dupped(st, f), f)
  {
    hide IsTable, Names;
    assert Counted(st, f);
  }

  lemma DuppedAccounts(st: State, f: nat)
    requires Accounts(st) && st.Managed(f) && st.refs[f] < 255 && |Names(st.spaces, f)| > 0
    ensures Accounts(Dupped(st, f))
  {
    DuppedCount(st, f);
    hide IsTable, Names, Counted;
    OneCount(st, Dupped(st, f), f);
  }

  lemma DuppedKeeps(st: State, f: nat)
    requires Inv(st) && f < |st.refs| == |st.mem| && st.Managed(f) && st.refs[f] < 255 && |Names(st.spaces, f)| > 0
    ensures Inv(Dupped(st, f))
  {
    hide Accounts, IsTable, Names, Rep;
    DuppedAccounts(st, f);
    ListedSame(st, Dupped(st, f));
    hide Listed;
    TreesKept(st, Dupped(st, f));
  }

  /** The contents of a frame that is neither a table nor free. */
  function Replaced(st: State, f: nat, page: Page): State
    requires f < |st.mem|
  {
    st.(mem := st.mem[f := page])
  }

  lemma WrittenKeeps(st: State, f: nat, page: Page)
    requires Inv(st) && f < |st.mem| && f !in st.free && !IsTable(st.spaces, f)
    ensures Inv(Replaced(st, f, page))
  {
    var st' := Replaced(st, f, page);
    ListedSame(st, st');
    hide Listed;
    TreesKept(st, st');
    SameAccounts(st, st');
  }

  lemma SameAccounts(st: State, st': State)
    requires Accounts(st) && st'.refs == st.refs && st'.spaces == st.spaces && st'.held == st.held && st'.free == st.free
    requires st'.first == st.first && |st'.mem| == |st.mem|
    ensures Accounts(st')
  {
    forall g | st'.first <= g < |st'.mem| ensures Counted(st', g) {
      assert Counted(st, g);
    }
  }

  // ----- changes of one tree

  lemma Digits(v: nat, q: nat, j: nat)
    requires j < 512
    ensures Key(q, j) == v <==> q == v / 512 && j == v % 512
  {
  }

  /** Where the entries of one table lead. */
  lemma Keys(q: nat)
    ensures forall j :: 0 <= j < 512 ==> Key(q, j) / 512 == q && Key(q, j) % 512 == j
  {
    forall j | 0 <= j < 512 ensures Key(q, j) / 512 == q && Key(q, j) % 512 == j {
      Digits(Key(q, j), q, j);
    }
  }

  lemma Elsewhere(s: Space, f: nat)
    requires f !in s.Tables()
    ensures f != s.root && (forall a :: a in s.mid ==> s.mid[a] != f) && forall a :: a in s.low ==> s.low[a] != f
  {
    assert forall a :: a in s.mid ==> s.mid[a] in s.mid.Values;
    assert forall a :: a in s.low ==> s.low[a] in s.low.Values;
  }

  lemma RootLinked(m: seq<Page>, m': seq<Page>, s: Space, k: nat, f: nat)
    requires s.root < |m| == |m'| && RootOk(m, s) && k < 512 && m'[s.root] == m[s.root][k := Ptr(f)]
    ensures RootOk(m', s.(mid := s.mid[k := f]))
  {
  }

  /** A table whose entries and whose share of the translation stay. */
  lemma LowSame(m: seq<Page>, m': seq<Page>, s: Space, s': Space, r: nat)
    requires r in s.low && s.low[r] < |m| && LowOk(m, s, r) && r in s'.low && s'.low[r] == s.low[r] < |m'|
    requires m'[s.low[r]] == m[s.low[r]]
    requires forall j :: 0 <= j < 512 ==> (Key(r, j) in s'.pt <==> Key(r, j) in s.pt)
    requires forall j :: 0 <= j < 512 && Key(r, j) in s.pt ==> s'.pt[Key(r, j)] == s.pt[Key(r, j)]
    ensures LowOk(m', s', r)
  {
  }

  lemma LowLeaf(m: seq<Page>, m': seq<Page>, s: Space, s': Space, v: nat, w: Word)
    requires v / 512 in s.low && s.low[v / 512] < |m| == |m'| && LowOk(m, s, v / 512) && s'.low == s.low
    requires m'[s.low[v / 512]] == m[s.low[v / 512]][v % 512 := w]
    requires (s'.pt == s.pt[v := w] && IsValid(w) && IsLeaf(w)) || (s'.pt == s.pt - {v} && w == 0)
    ensures LowOk(m', s', v / 512)
  {
    hide Key;
    Keys(v / 512);
    Digits(v, v / 512, v % 512);
  }

  lemma Parts(m: seq<Page>, s: Space)
    requires Rep(m, s)
    ensures Separate(s) && Placed(m, s) && RootOk(m, s)
    ensures forall k :: k in s.mid ==> s.mid[k] < |m| && MidOk(m, s, k)
    ensures forall q :: q in s.low ==> s.low[q] < |m| && LowOk(m, s, q)
  {
  }

  lemma MidSame(m: seq<Page>, m': seq<Page>, s: Space, s': Space, k: nat)
    requires k in s.mid && s.mid[k] < |m| && MidOk(m, s, k) && k in s'.mid && s'.mid[k] == s.mid[k] < |m'|
    requires m'[s.mid[k]] == m[s.mid[k]]
    requires forall j :: 0 <= j < 512 ==> (Key(k, j) in s'.low <==> Key(k, j) in s.low)
    requires forall j :: 0 <= j < 512 && Key(k, j) in s.low ==> s'.low[Key(k, j)] == s.low[Key(k, j)]
    ensures MidOk(m', s', k)
  {
  }

  lemma MidNew(m: seq<Page>, s: Space, k: nat)
    requires k in s.mid && s.mid[k] < |m| && m[s.mid[k]] == Filled(0) && forall q :: q in s.low ==> q / 512 != k
    ensures MidOk(m, s, k)
  {
    hide Key;
    Keys(k);
  }

  lemma LowNew(m: seq<Page>, s: Space, q: nat)
    requires q in s.low && s.low[q] < |m| && m[s.low[q]] == Filled(0) && forall v :: v in s.pt ==> v / 512 != q
    ensures LowOk(m, s, q)
  {
    hide Key;
    Keys(q);
  }

  lemma MidLinked(m: seq<Page>, m': seq<Page>, s: Space, s': Space, q: nat, f: nat)
    requires q / 512 in s.mid && s.mid[q / 512] < |m| && MidOk(m, s, q / 512)
    requires s' == s.(low := s.low[q := f]) && s.mid[q / 512] < |m'|
    requires m'[s.mid[q / 512]] == m[s.mid[q / 512]][q % 512 := Ptr(f)]
    ensures MidOk(m', s', q / 512)
  {
    hide Key, Ptr;
    Keys(q / 512);
    Digits(q, q / 512, q % 512);
  }

  lemma PlacedMid(m: seq<Page>, s: Space, k: nat, f: nat)
    requires Separate(s) && Placed(m, s) && k < 512 && k !in s.mid && f < |m| && f !in s.Tables()
    ensures Separate(s.(mid := s.mid[k := f])) && Placed(m, s.(mid := s.mid[k := f]))
    ensures f != s.root && (forall a :: a in s.mid ==> s.mid[a] != f) && forall a :: a in s.low ==> s.low[a] != f
  {
    hide Separate, Placed;
    Elsewhere(s, f);
    SeparateMid(s, k, f);
    MidPlaced(m, s, k, f);
  }

  lemma SeparateMid(s: Space, k: nat, f: nat)
    requires Separate(s) && k !in s.mid && f != s.root
    requires (forall a :: a in s.mid ==> s.mid[a] != f) && forall a :: a in s.low ==> s.low[a] != f
    ensures Separate(s.(mid := s.mid[k := f]))
  {
  }

  lemma MidPlaced(m: seq<Page>, s: Space, k: nat, f: nat)
    requires Placed(m, s) && k < 512 && f < |m|
    ensures Placed(m, s.(mid := s.mid[k := f]))
  {
  }

  lemma PlacedLow(m: seq<Page>, s: Space, q: nat, f: nat)
    requires Separate(s) && Placed(m, s) && q / 512 in s.mid && q !in s.low && f < |m| && f !in s.Tables()
    ensures Separate(s.(low := s.low[q := f])) && Placed(m, s.(low := s.low[q := f]))
    ensures f != s.root && (forall a :: a in s.mid ==> s.mid[a] != f) && forall a :: a in s.low ==> s.low[a] != f
  {
    hide Separate, Placed;
    Elsewhere(s, f);
    SeparateLow(s, q, f);
    LowPlaced(m, s, q, f);
  }

  lemma SeparateLow(s: Space, q: nat, f: nat)
    requires Separate(s) && q !in s.low && f != s.root
    requires (forall a :: a in s.mid ==> s.mid[a] != f) && forall a :: a in s.low ==> s.low[a] != f
    ensures Separate(s.(low := s.low[q := f]))
  {
  }

  lemma LowPlaced(m: seq<Page>, s: Space, q: nat, f: nat)
    requires Placed(m, s) && q / 512 in s.mid && f < |m|
    ensures Placed(m, s.(low := s.low[q := f]))
  {
  }

  lemma PlacedSame(m: seq<Page>, m': seq<Page>, s: Space)
    requires Placed(m, s) && |m'| == |m|
    ensures Placed(m', s)
  {
  }

  /** Different tables are different frames. */
  lemma TablesApart(s: Space)
    requires Separate(s)
    ensures forall a :: a in s.mid ==> s.mid[a] != s.root
    ensures forall a :: a in s.low ==> s.low[a] != s.root
    ensures forall a, b :: a in s.mid && b in s.low ==> s.mid[a] != s.low[b]
    ensures forall a, b :: a in s.mid && b in s.mid && a != b ==> s.mid[a] != s.mid[b]
    ensures forall a, b :: a in s.low && b in s.low && a != b ==> s.low[a] != s.low[b]
  {
  }

  lemma Homes(m: seq<Page>, s: Space)
    requires Placed(m, s)
    ensures s.root < |m|
    ensures forall q :: q in s.low ==> q / 512 in s.mid
    ensures forall v :: v in s.pt ==> v / 512 in s.low
  {
  }

  lemma RepLinkMid(m: seq<Page>, s: Space, k: nat, f: nat)
    requires Rep(m, s) && k < 512 && k !in s.mid && f < |m| && f !in s.Tables() && m[f] == Filled(0)
    ensures Rep(m[s.root := m[s.root][k := Ptr(f)]], s.(mid := s.mid[k := f]))
  {
    hide Key, Ptr, MidOk, LowOk, RootOk, Separate;
    var m', s' := m[s.root := m[s.root][k := Ptr(f)]], s.(mid := s.mid[k := f]);
    Parts(m, s);
    PlacedMid(m, s, k, f);
    RootLinked(m, m', s, k, f);
    PlacedSame(m, m', s');
    Homes(m, s);
    TablesApart(s);
    forall i | i in s'.mid ensures MidOk(m', s', i) {
      if i != k {
        MidSame(m, m', s, s', i);
      } else {
        MidNew(m', s', k);
      }
    }
    forall q | q in s'.low ensures LowOk(m', s', q) {
      LowSame(m, m', s, s', q);
    }
  }

  lemma RepLinkLow(m: seq<Page>, s: Space, q: nat, f: nat)
    requires Rep(m, s) && q / 512 in s.mid && q !in s.low && f < |m| && f !in s.Tables() && m[f] == Filled(0)
    ensures var t := s.mid[q / 512]; t < |m| && Rep(m[t := m[t][q % 512 := Ptr(f)]], s.(low := s.low[q := f]))
  {
    hide Key, Ptr, RootOk, MidOk, LowOk, Separate, Placed;
    var t := s.mid[q / 512];
    Parts(m, s);
    var m', s' := m[t := m[t][q % 512 := Ptr(f)]], s.(low := s.low[q := f]);
    PlacedLow(m, s, q, f);
    PlacedSame(m, m', s');
    Homes(m, s);
    TablesApart(s);
    RootSame(m, m', s, s');
    forall i | i in s'.mid ensures MidOk(m', s', i) {
      if i != q / 512 {
        Keys(i);
        MidSame(m, m', s, s', i);
      } else {
        MidLinked(m, m', s, s', q, f);
      }
    }
    forall r | r in s'.low ensures LowOk(m', s', r) {
      if r != q {
        LowSame(m, m', s, s', r);
      } else {
        LowNew(m', s', q);
      }
    }
  }

  lemma RootSame(m: seq<Page>, m': seq<Page>, s: Space, s': Space)
    requires s.root < |m| && RootOk(m, s) && s'.root == s.root < |m'| && s'.mid == s.mid && m'[s.root] == m[s.root]
    ensures RootOk(m', s')
  {
  }

  lemma PlacedLeaf(m: seq<Page>, m': seq<Page>, s: Space, v: nat, pt': map<nat, Word>)
    requires Separate(s) && Placed(m, s) && |m'| == |m| && v < PAGES && v / 512 in s.low
    requires forall u :: u in pt' ==> u in s.pt || u == v
    ensures Separate(s.(pt := pt')) && Placed(m', s.(pt := pt'))
  {
  }

  /** Writing leaf `v`: an entry for it, or 0 to remove it. */
  lemma RepLeaf(m: seq<Page>, s: Space, v: nat, w: Word, pt': map<nat, Word>)
    requires Rep(m, s) && v < PAGES && v / 512 in s.low
    requires (pt' == s.pt[v := w] && IsValid(w) && IsLeaf(w)) || (pt' == s.pt - {v} && w == 0)
    ensures var t := s.low[v / 512]; t < |m| && Rep(m[t := m[t][v % 512 := w]], s.(pt := pt'))
  {
    hide Key, Ptr, MidOk, LowOk;
    var t := s.low[v / 512];
    Parts(m, s);
    var m', s' := m[t := m[t][v % 512 := w]], s.(pt := pt');
    PlacedLeaf(m, m', s, v, pt');
    TablesApart(s);
    hide Separate, Placed;
    RootSame(m, m', s, s');
    hide RootOk, IsValid, IsLeaf;
    forall i | i in s'.mid ensures MidOk(m', s', i) {
      MidSame(m, m', s, s', i);
    }
    forall r | r in s'.low ensures LowOk(m', s', r) {
      LeafLow(m, m', s, s', v, w, r);
    }
  }

  lemma LeafLow(m: seq<Page>, m': seq<Page>, s: Space, s': Space, v: nat, w: Word, r: nat)
    requires v / 512 in s.low && r in s.low && s.low[v / 512] < |m| == |m'| && s.low[r] < |m| && LowOk(m, s, r)
    requires s'.low == s.low && (r != v / 512 ==> s.low[r] != s.low[v / 512])
    requires m' == m[s.low[v / 512] := m[s.low[v / 512]][v % 512 := w]]
    requires (s'.pt == s.pt[v := w] && IsValid(w) && IsLeaf(w)) || (s'.pt == s.pt - {v} && w == 0)
    ensures LowOk(m', s', r)
  {
    hide Key, LowOk, IsValid, IsLeaf;
    if r == v / 512 {
      LowLeaf(m, m', s, s', v, w);
    } else {
      Keys(r);
      LowSame(m, m', s, s', r);
    }
  }

  // ----- changes of one address space -------------------------------------------------------

  /** Space `p` becomes `s`: a sound tree, over its old tables or frames that were none. */
  lemma TreesRespaced(st: State, st': State, p: nat, s: Space)
    requires Trees(st) && st'.spaces == st.spaces[p := s] && |st'.mem| == |st.mem| && st'.first == st.first
    requires Rep(st'.mem, s) && Within(s, st.first, |st.mem|)
    requires forall f :: f in s.Tables() ==> (p in st.spaces && f in st.spaces[p].Tables()) || !IsTable(st.spaces, f)
    requires forall q, f :: q in st.spaces && q != p && f in st.spaces[q].Tables() && f < |st.mem| ==> st'.mem[f] == st.mem[f]
    ensures Trees(st')
  {
    hide Rep, Within;
    forall q | q in st'.spaces ensures Rep(st'.mem, st'.spaces[q]) {
      if q != p {
        RepKept(st.mem, st'.mem, st.spaces[q]);
      }
    }
    forall q | q in st.spaces && q != p ensures st.spaces[q].Tables() !! s.Tables() {
      forall f | f in s.Tables() ensures f !in st.spaces[q].Tables() {
      }
    }
  }

  /** The tables of other spaces are not among the tables of `p`. */
  lemma OthersApart(st: State, p: nat)
    requires Trees(st) && p in st.spaces
    ensures forall q, f :: q in st.spaces && q != p && f in st.spaces[q].Tables() ==> f !in st.spaces[p].Tables()
  {
  }

  lemma NamesSame(spaces: map<nat, Space>, p: nat, s: Space)
    requires if p in spaces then s.pt == spaces[p].pt else s.pt == map[]
    ensures forall f :: Names(spaces[p := s], f) == Names(spaces, f)
  {
    forall f ensures Names(spaces[p := s], f) == Names(spaces, f) {
    }
  }

  lemma NamesSet(spaces: map<nat, Space>, p: nat, v: nat, w: Word, f: nat)
    requires p in spaces && v !in spaces[p].pt
    ensures var s := spaces[p].(pt := spaces[p].pt[v := w]);
      Names(spaces[p := s], f) == Names(spaces, f) + (if FrameOf(w) == f then {(p, v)} else {})
    ensures (p, v) !in Names(spaces, f)
  {
  }

  lemma NamesCleared(spaces: map<nat, Space>, p: nat, v: nat, f: nat)
    requires p in spaces && v in spaces[p].pt
    ensures var s := spaces[p].(pt := spaces[p].pt - {v});
      Names(spaces[p := s], f) == Names(spaces, f) - {(p, v)}
    ensures (p, v) in Names(spaces, f) <==> FrameOf(spaces[p].pt[v]) == f
  {
  }

  lemma TablesSame(spaces: map<nat, Space>, p: nat, s: Space)
    requires p in spaces && s.Tables() == spaces[p].Tables()
    ensures forall f :: IsTable(spaces[p := s], f) <==> IsTable(spaces, f)
  {
    forall f ensures IsTable(spaces[p := s], f) <==> IsTable(spaces, f) {
      if IsTable(spaces, f) {
        var q :| q in spaces && f in spaces[q].Tables();
        assert q in spaces[p := s] && f in spaces[p := s][q].Tables();
      }
      if IsTable(spaces[p := s], f) {
        var q :| q in spaces[p := s] && f in spaces[p := s][q].Tables();
        assert q in spaces && f in spaces[q].Tables();
      }
    }
  }

  /** Space `p` gains the table `f`. */
  lemma TablesMore(spaces: map<nat, Space>, p: nat, s: Space, f: nat)
    requires if p in spaces then s.Tables() == spaces[p].Tables() + {f} else s.Tables() == {f}
    ensures forall g :: IsTable(spaces[p := s], g) <==> IsTable(spaces, g) || g == f
  {
    forall g ensures IsTable(spaces[p := s], g) <==> IsTable(spaces, g) || g == f {
      if IsTable(spaces, g) {
        var q :| q in spaces && g in spaces[q].Tables();
        assert q in spaces[p := s] && g in spaces[p := s][q].Tables();
      }
      if g == f {
        assert p in spaces[p := s] && g in spaces[p := s][p].Tables();
      }
      if IsTable(spaces[p := s], g) && g != f {
        var q :| q in spaces[p := s] && g in spaces[p := s][q].Tables();
        assert q in spaces && g in spaces[q].Tables();
      }
    }
  }

  /** A held frame becomes a table of space `p`: its one reference is now that. */
  lemma TableAccounts(st: State, st': State, p: nat, s: Space, f: nat)
    requires Accounts(st) && st.Managed(f) && st.held[f] == 1 && st.refs[f] == 1 && !IsTable(st.spaces, f)
    requires if p in st.spaces then s.Tables() == st.spaces[p].Tables() + {f} else s.Tables() == {f}
    requires if p in st.spaces then s.pt == st.spaces[p].pt else s.pt == map[]
    requires st' == st.(mem := st'.mem, spaces := st.spaces[p := s], held := st.held - multiset{f}) && |st'.mem| == |st.mem|
    ensures Accounts(st')
  {
    NamesSame(st.spaces, p, s);
    TablesMore(st.spaces, p, s, f);
    assert Counted(st, f);
    hide Names, IsTable;
    assert Counted(st', f);
    hide Counted;
    OneCount(st, st', f);
  }

  /** create_empty_user_pagetable: a held page of zeros becomes the root of a space. */
  function Founded(st: State, p: nat, f: nat): State {
    st.(spaces := st.spaces[p := Space(f, map[], map[], map[])], held := st.held - multiset{f})
  }

  lemma FoundedKeeps(st: State, p: nat, f: nat)
    requires Inv(st) && p !in st.spaces && f < |st.mem| == |st.refs| && st.held[f] == 1 && st.refs[f] == 1 && st.mem[f] == Filled(0)
    ensures Inv(Founded(st, p, f))
  {
    hide Rep, Within, Separate, RootOk;
    var st', s := Founded(st, p, f), Space(f, map[], map[], map[]);
    assert f in st.held;
    NotTable(st, f);
    ListedSame(st, st');
    hide Listed;
    BareRep(st.mem, st.first, f);
    TableAccounts(st, st', p, s, f);
    hide Accounts;
    TreesRespaced(st, st', p, s);
  }

  lemma BareRep(m: seq<Page>, first: nat, f: nat)
    requires first <= f < |m| && m[f] == Filled(0)
    ensures var s := Space(f, map[], map[], map[]); s.Tables() == {f} && Rep(m, s) && Within(s, first, |m|)
  {
  }

  /** walk links a held page of zeros as the middle table number `k`. */
  function LinkedMid(st: State, p: nat, k: nat, f: nat): State
    requires p in st.spaces && st.spaces[p].root < |st.mem| && k < 512
  {
    var s := st.spaces[p];
    st.(mem := st.mem[s.root := st.mem[s.root][k := Ptr(f)]], spaces := st.spaces[p := s.(mid := s.mid[k := f])],
        held := st.held - multiset{f})
  }

  lemma LinkedMidKeeps(st: State, p: nat, k: nat, f: nat)
    requires Inv(st) && p in st.spaces && st.spaces[p].root < |st.mem| && k < 512 && k !in st.spaces[p].mid
    requires f < |st.mem| == |st.refs| && st.held[f] == 1 && st.refs[f] == 1 && st.mem[f] == Filled(0)
    ensures Inv(LinkedMid(st, p, k, f))
  {
    hide Rep, Within, Separate, RootOk, Ptr;
    var st', s := LinkedMid(st, p, k, f), st.spaces[p];
    var s' := s.(mid := s.mid[k := f]);
    assert f in st.held;
    NotTable(st, f);
    RootFrame(st, p);
    RepLinkMid(st.mem, s, k, f);
    MoreTables(s, s', k, f, st.first, |st.mem|);
    LinkedKeeps(st, st', p, s', f, s.root);
  }

  /** The part common to linking a table at either level. */
  lemma LinkedKeeps(st: State, st': State, p: nat, s': Space, f: nat, t: nat)
    requires Inv(st) && p in st.spaces && t in st.spaces[p].Tables() && t < |st.mem| && f < |st.mem| == |st.refs|
    requires st.held[f] == 1 && st.refs[f] == 1 && !IsTable(st.spaces, f) && st.Managed(f)
    requires s'.pt == st.spaces[p].pt && s'.Tables() == st.spaces[p].Tables() + {f}
    requires |st'.mem| == |st.mem| && forall g :: 0 <= g < |st.mem| && g != t ==> st'.mem[g] == st.mem[g]
    requires st' == st.(mem := st'.mem, spaces := st.spaces[p := s'], held := st.held - multiset{f})
    requires Rep(st'.mem, s') && Within(s', st.first, |st.mem|)
    ensures Inv(st')
  {
    hide Rep, Within;
    TablesUsed(st, p, t);
    OthersApart(st, p);
    ListedSame(st, st');
    hide Listed;
    TableAccounts(st, st', p, s', f);
    hide Accounts;
    TreesRespaced(st, st', p, s');
  }

  lemma RootFrame(st: State, p: nat)
    requires Trees(st) && p in st.spaces
    ensures var s := st.spaces[p]; Rep(st.mem, s) && Within(s, st.first, |st.mem|) && s.root < |st.mem|
  {
  }

  /** A table is no free frame. */
  lemma TablesUsed(st: State, p: nat, t: nat)
    requires Trees(st) && Accounts(st) && p in st.spaces && t in st.spaces[p].Tables()
    ensures t !in st.free && st.Managed(t) && t < |st.refs| && st.refs[t] == 1 && st.held[t] == 0 && Names(st.spaces, t) == {}
    ensures IsTable(st.spaces, t)
  {
    assert Within(st.spaces[p], st.first, |st.mem|);
    assert Counted(st, t);
  }

  lemma MoreTables(s: Space, s': Space, k: nat, f: nat, first: nat, n: nat)
    requires Within(s, first, n) && first <= f < n
    requires (k !in s.mid && s' == s.(mid := s.mid[k := f])) || (k !in s.low && s' == s.(low := s.low[k := f]))
    ensures s'.Tables() == s.Tables() + {f} && Within(s', first, n)
  {
    if k !in s.mid && s' == s.(mid := s.mid[k := f]) {
      MoreValues(s.mid, k, f);
    } else {
      MoreValues(s.low, k, f);
    }
  }

  lemma MoreValues(m: map<nat, nat>, k: nat, f: nat)
    requires k !in m
    ensures m[k := f].Values == m.Values + {f}
  {
    var m' := m[k := f];
    assert m'[k] == f && f in m'.Values;
    forall v | v in m.Values ensures v in m'.Values {
      var a :| a in m && m[a] == v;
      assert m'[a] == v;
    }
  }

  /** walk links a held page of zeros as the lowest table number `q`. */
  function LinkedLow(st: State, p: nat, q: nat, f: nat): State
    requires p in st.spaces && q / 512 in st.spaces[p].mid && st.spaces[p].mid[q / 512] < |st.mem|
  {
    var s := st.spaces[p];
    var t := s.mid[q / 512];
    st.(mem := st.mem[t := st.mem[t][q % 512 := Ptr(f)]], spaces := st.spaces[p := s.(low := s.low[q := f])],
        held := st.held - multiset{f})
  }

  lemma LinkedLowKeeps(st: State, p: nat, q: nat, f: nat)
    requires Inv(st) && p in st.spaces && q / 512 in st.spaces[p].mid && q !in st.spaces[p].low
    requires st.spaces[p].mid[q / 512] < |st.mem|
    requires f < |st.mem| == |st.refs| && st.held[f] == 1 && st.refs[f] == 1 && st.mem[f] == Filled(0)
    ensures Inv(LinkedLow(st, p, q, f))
  {
    hide Rep, Within, Separate, RootOk, Ptr;
    var st', s := LinkedLow(st, p, q, f), st.spaces[p];
    var s' := s.(low := s.low[q := f]);
    assert f in st.held;
    NotTable(st, f);
    RootFrame(st, p);
    RepLinkLow(st.mem, s, q, f);
    MoreTables(s, s', q, f, st.first, |st.mem|);
    assert s.mid[q / 512] in s.mid.Values;
    LinkedKeeps(st, st', p, s', f, s.mid[q / 512]);
  }

  /** The reference that a leaf stands for, when its frame is managed. */
  function Share(st: State, w: Word): multiset<nat> {
    if st.Managed(FrameOf(w)) then multiset{FrameOf(w)} else multiset{}
  }

  /** A leaf is written; its frame's held reference is now the leaf's. */
  function LeafSet(st: State, p: nat, v: nat, w: Word): State
    requires p in st.spaces && v / 512 in st.spaces[p].low && st.spaces[p].low[v / 512] < |st.mem|
  {
    var s := st.spaces[p];
    var t := s.low[v / 512];
    st.(mem := st.mem[t := st.mem[t][v % 512 := w]], spaces := st.spaces[p := s.(pt := s.pt[v := w])],
        held := st.held - Share(st, w))
  }

  /** A leaf is removed; its reference is held until it is put back. */
  function LeafCleared(st: State, p: nat, v: nat): State
    requires p in st.spaces && v in st.spaces[p].pt && v / 512 in st.spaces[p].low && st.spaces[p].low[v / 512] < |st.mem|
  {
    var s := st.spaces[p];
    var t := s.low[v / 512];
    st.(mem := st.mem[t := st.mem[t][v % 512 := 0]], spaces := st.spaces[p := s.(pt := s.pt - {v})],
        held := st.held + Share(st, s.pt[v]))
  }

  /** A reference passes between a leaf and the holder. */
  lemma CountMoved(st: State, st': State, f: nat)
    requires Accounts(st) && st.Managed(f) && |st'.refs| == |st.refs| && st'.refs[f] == st.refs[f] && st'.free == st.free
    requires |Names(st'.spaces, f)| + st'.held[f] == |Names(st.spaces, f)| + st.held[f]
    requires |Names(st.spaces, f)| + st.held[f] > 0
    requires IsTable(st'.spaces, f) <==> IsTable(st.spaces, f)
    ensures Counted(st', f)
  {
    assert Counted(st, f);
  }

  lemma LeafSetAccounts(st: State, st': State, p: nat, v: nat, w: Word)
    requires Accounts(st) && p in st.spaces && v !in st.spaces[p].pt && FrameOf(w) < |st.mem|
    requires st.Managed(FrameOf(w)) ==> st.held[FrameOf(w)] > 0
    requires var s := st.spaces[p].(pt := st.spaces[p].pt[v := w]);
      st' == st.(mem := st'.mem, spaces := st.spaces[p := s], held := st.held - Share(st, w)) && |st'.mem| == |st.mem|
    ensures Accounts(st')
  {
    var s := st.spaces[p].(pt := st.spaces[p].pt[v := w]);
    TablesSame(st.spaces, p, s);
    forall f ensures Names(st'.spaces, f) == Names(st.spaces, f) + (if FrameOf(w) == f then {(p, v)} else {}) {
      NamesSet(st.spaces, p, v, w, f);
    }
    if st.Managed(FrameOf(w)) {
      var f: nat := FrameOf(w);
      NamesSet(st.spaces, p, v, w, f);
      hide Names, IsTable;
      CountMoved(st, st', f);
      hide Counted;
      OneCount(st, st', f);
    } else {
      hide Names, IsTable;
      SameCounts(st, st');
    }
  }

  /** The counts of all managed frames stay. */
  lemma SameCounts(st: State, st': State)
    requires Accounts(st) && st' == st.(mem := st'.mem, spaces := st'.spaces) && |st'.mem| == |st.mem|
    requires forall g :: st.first <= g < |st.mem| ==> Names(st'.spaces, g) == Names(st.spaces, g)
    requires forall g :: IsTable(st'.spaces, g) <==> IsTable(st.spaces, g)
    ensures Accounts(st')
  {
    forall g | st'.first <= g < |st'.mem| ensures Counted(st', g) {
      assert Counted(st, g);
    }
  }

  lemma LeafClearedAccounts(st: State, st': State, p: nat, v: nat)
    requires Accounts(st) && p in st.spaces && v in st.spaces[p].pt && FrameOf(st.spaces[p].pt[v]) < |st.mem|
    requires var s := st.spaces[p].(pt := st.spaces[p].pt - {v});
      st' == st.(mem := st'.mem, spaces := st.spaces[p := s], held := st.held + Share(st, st.spaces[p].pt[v]))
      && |st'.mem| == |st.mem|
    ensures Accounts(st')
  {
    var s, w := st.spaces[p].(pt := st.spaces[p].pt - {v}), st.spaces[p].pt[v];
    TablesSame(st.spaces, p, s);
    forall f ensures Names(st'.spaces, f) == Names(st.spaces, f) - (if FrameOf(w) == f then {(p, v)} else {}) {
      NamesCleared(st.spaces, p, v, f);
    }
    if st.Managed(FrameOf(w)) {
      var f: nat := FrameOf(w);
      NamesCleared(st.spaces, p, v, f);
      hide Names, IsTable;
      CountMoved(st, st', f);
      hide Counted;
      OneCount(st, st', f);
    } else {
      hide Names, IsTable;
      SameCounts(st, st');
    }
  }

  /** The part common to setting and clearing a leaf. */
  lemma LeafKeeps(st: State, st': State, p: nat, v: nat, w: Word, s': Space)
    requires Inv(st) && p in st.spaces && v < PAGES && v / 512 in st.spaces[p].low && st.spaces[p].low[v / 512] < |st.mem|
    requires (s'.pt == st.spaces[p].pt[v := w] && IsValid(w) && IsLeaf(w) && FrameOf(w) < |st.mem|)
          || (s'.pt == st.spaces[p].pt - {v} && w == 0)
    requires s' == st.spaces[p].(pt := s'.pt)
    requires var t := st.spaces[p].low[v / 512];
      st' == st.(mem := st.mem[t := st.mem[t][v % 512 := w]], spaces := st.spaces[p := s'], held := st'.held)
    ensures Listed(st') && Trees(st')
  {
    hide Rep, Accounts;
    var s := st.spaces[p];
    var t := s.low[v / 512];
    RootFrame(st, p);
    assert t in s.low.Values;
    TablesUsed(st, p, t);
    OthersApart(st, p);
    RepLeaf(st.mem, s, v, w, s'.pt);
    assert Within(s', st.first, |st.mem|);
    hide Within;
    ListedSame(st, st');
    hide Listed;
    TreesRespaced(st, st', p, s');
  }

  lemma LeafSetKeeps(st: State, p: nat, v: nat, w: Word)
    requires Inv(st) && p in st.spaces && v < PAGES && v / 512 in st.spaces[p].low && st.spaces[p].low[v / 512] < |st.mem|
    requires v !in st.spaces[p].pt && IsValid(w) && IsLeaf(w) && FrameOf(w) < |st.mem|
    requires st.Managed(FrameOf(w)) ==> st.held[FrameOf(w)] > 0
    ensures Inv(LeafSet(st, p, v, w))
  {
    hide Listed, Trees, Accounts, Share;
    var st' := LeafSet(st, p, v, w);
    LeafSetAccounts(st, st', p, v, w);
    LeafKeeps(st, st', p, v, w, st'.spaces[p]);
  }

  lemma LeafClearedKeeps(st: State, p: nat, v: nat)
    requires Inv(st) && p in st.spaces && v in st.spaces[p].pt && v < PAGES
    requires v / 512 in st.spaces[p].low && st.spaces[p].low[v / 512] < |st.mem| && FrameOf(st.spaces[p].pt[v]) < |st.mem|
    ensures Inv(LeafCleared(st, p, v))
  {
    hide Listed, Trees, Accounts, Share;
    var st' := LeafCleared(st, p, v);
    LeafClearedAccounts(st, st', p, v);
    LeafKeeps(st, st', p, v, 0, st'.spaces[p]);
  }

  /** A space without leaves is given up: its tables are held. */
  function Dismantled(st: State, p: nat): State
    requires p in st.spaces
  {
    st.(spaces := st.spaces - {p}, held := st.held + multiset(st.spaces[p].Tables()))
  }

  lemma DismantledTables(st: State, p: nat, f: nat)
    requires Trees(st) && p in st.spaces
    ensures IsTable(st.spaces - {p}, f) <==> IsTable(st.spaces, f) && f !in st.spaces[p].Tables()
  {
    hide Rep, Within;
    OthersApart(st, p);
    hide Trees;
    if IsTable(st.spaces - {p}, f) {
      var q :| q in st.spaces - {p} && f in st.spaces[q].Tables();
      assert q in st.spaces && q != p;
    }
    if IsTable(st.spaces, f) && f !in st.spaces[p].Tables() {
      var q :| q in st.spaces && f in st.spaces[q].Tables();
      assert q in st.spaces - {p};
    }
  }

  lemma DismantledKeeps(st: State, p: nat)
    requires Inv(st) && p in st.spaces && st.spaces[p].pt == map[]
    ensures Inv(Dismantled(st, p))
  {
    hide Rep, Within, Accounts;
    var st' := Dismantled(st, p);
    ListedSame(st, st');
    hide Listed;
    DismantledAccounts(st, p);
    assert Trees(st');
  }

  lemma DismantledAccounts(st: State, p: nat)
    requires Inv(st) && p in st.spaces && st.spaces[p].pt == map[]
    ensures Accounts(Dismantled(st, p))
  {
    hide Listed, Trees, Counted;
    var st' := Dismantled(st, p);
    forall f | f in st'.held ensures st'.Managed(f) {
      if f in st.spaces[p].Tables() {
        TablesUsed(st, p, f);
      } else {
        assert f in st.held;
      }
    }
    forall f | st'.first <= f < |st'.mem| ensures Counted(st', f) {
      DismantledCount(st, p, f);
    }
  }

  lemma DismantledCount(st: State, p: nat, f: nat)
    requires Inv(st) && p in st.spaces && st.spaces[p].pt == map[] && st.Managed(f)
    ensures Counted(Dismantled(st, p), f)
  {
    hide Listed, Trees, IsTable;
    DismantledTables(st, p, f);
    assert Counted(st, f);
    assert Names(st.spaces - {p}, f) == Names(st.spaces, f);
    hide Names;
    if f in st.spaces[p].Tables() {
      TablesUsed(st, p, f);
    }
  }

  // ----- conservation -------------------------------------------------------------------------

  /** What is free follows from who owns what: two states with the same spaces and nothing
      held otherwise have the same counts, the same free frames and as many of them. */
  lemma Conserved(st: State, st': State)
    requires Inv(st) && Inv(st') && st'.spaces == st.spaces && st'.held == st.held
    requires st'.first == st.first && |st'.mem| == |st.mem|
    ensures forall f :: st.Managed(f) ==> st'.refs[f] == st.refs[f]
    ensures forall f :: f in st'.free <==> f in st.free
    ensures st'.count == st.count
  {
    forall f: nat | st.Managed(f) ensures st'.refs[f] == st.refs[f] && (f in st'.free <==> f in st.free) {
      assert Counted(st, f) && Counted(st', f);
    }
    forall f ensures f in st'.free <==> f in st.free {
      if f in st.free {
        var i :| 0 <= i < |st.free| && st.free[i] == f;
      }
      if f in st'.free {
        var i :| 0 <= i < |st'.free| && st'.free[i] == f;
      }
    }
    SameLength(st.free, st'.free);
  }

  function Elems(a: seq<nat>): set<nat> { set f | f in a }

  lemma SameLength(a: seq<nat>, b: seq<nat>)
    requires forall i, j :: 0 <= i < j < |a| ==> a[i] != a[j]
    requires forall i, j :: 0 <= i < j < |b| ==> b[i] != b[j]
    requires forall f :: f in a <==> f in b
    ensures |a| == |b|
  {
    Distinct(a);
    Distinct(b);
    assert Elems(a) == Elems(b);
  }

  lemma {:induction false} Distinct(a: seq<nat>)
    requires forall i, j :: 0 <= i < j < |a| ==> a[i] != a[j]
    ensures |Elems(a)| == |a|
  {
    if a != [] {
      Distinct(a[1..]);
      assert forall i :: 0 < i < |a| ==> a[1..][i - 1] == a[i];
      assert a[0] !in Elems(a[1..]);
      assert Elems(a) == Elems(a[1..]) + {a[0]};
    }
  }
}
