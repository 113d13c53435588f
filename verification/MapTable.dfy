/** The table of mmap regions of a process: a sorted list of disjoint stretches at the front
    of a fixed array, edited in place (mapping_add, mapping_remove_fixed,
    mapping_try_remove_page).  Addresses are counted in pages; all of them are aligned. */
module MapTable {
  import opened Basics
  import opened Stretches

  const MAX_MAPPING := 128

  /** npages * PGSIZE is computed in 32 bits: so many pages it wraps at. */
  const WRAP := 0x10_0000

  const NONE := Seg(0, 0, false)

  /** The result of a call that ends in a kernel panic. */
  const PANIC := -2

  function Eff(n: nat): nat { n % WRAP }

  /** Sorted, disjoint and not empty. */
  ghost predicate Sorted(l: seq<Seg>) {
    && (forall i :: 0 <= i < |l| ==> l[i].v > 0 && 0 < l[i].n < WRAP)
    && (forall i, j :: 0 <= i < j < |l| ==> l[i].v + l[i].n <= l[j].v)
  }

  ghost predicate Disjoint(l: seq<Seg>, m: Seg) {
    forall i :: 0 <= i < |l| ==> l[i].v + l[i].n <= m.v || m.v + m.n <= l[i].v
  }

  /** A region has pages before and behind page `u`, so that taking `u` out leaves two. */
  ghost predicate Splits(l: seq<Seg>, u: nat) { exists i :: 0 <= i < |l| && l[i].v < u < l[i].v + l[i].n - 1 }

  /** A region goes on both before and behind the `n` pages from `v` on. */
  ghost predicate Spans(l: seq<Seg>, v: nat, n: nat) { exists i :: 0 <= i < |l| && l[i].v < v && v + n < l[i].v + l[i].n }

  /** A region begins at page `u` and ends before page `e`. */
  ghost predicate RestAt(l: seq<Seg>, u: nat, e: nat) { exists i :: 0 <= i < |l| && l[i].v == u && l[i].v + l[i].n == e }

  /** What taking page `u` out makes of region `i`, which has it: up to two regions. */
  ghost predicate Parted(l: seq<Seg>, l': seq<Seg>, i: nat, u: nat)
    requires i < |l|
  {
    && |l'| == |l| - 1 + (if l[i].v < u then 1 else 0) + (if u + 1 < l[i].v + l[i].n then 1 else 0)
    && (u + 1 < l[i].v + l[i].n ==> RestAt(l', u + 1, l[i].v + l[i].n))
  }

  /** A region has pages on both sides of the start of page `u`. */
  ghost predicate Inside(l: seq<Seg>, u: nat) { exists i :: 0 <= i < |l| && l[i].v < u < l[i].v + l[i].n }

  function Inserted(l: seq<Seg>, i: nat, m: Seg): seq<Seg> requires i <= |l| { l[..i] + [m] + l[i..] }

  ghost predicate Joined(l: seq<Seg>, l': seq<Seg>, m: Seg) { exists k :: 0 <= k <= |l| && l' == Inserted(l, k, m) }

  // ----- what the list covers -------------------------------------------------------------

  lemma InsertedSorted(l: seq<Seg>, i: nat, m: Seg)
    requires Sorted(l) && i <= |l| && 0 < m.v && 0 < m.n < WRAP && Disjoint(l, m)
    requires (forall j :: 0 <= j < i ==> l[j].v <= m.v) && (i < |l| ==> l[i].v > m.v)
    ensures Sorted(Inserted(l, i, m))
  {
  }

  lemma WithoutSorted(l: seq<Seg>, i: nat)
    requires Sorted(l) && i < |l|
    ensures Sorted(Without(l, i)) && Disjoint(Without(l, i), l[i])
  {
  }

  /** In a sorted list the page decides the region. */
  lemma OneRegion(l: seq<Seg>, i: nat, u: nat)
    requires Sorted(l) && i < |l| && InSeg(l[i], u)
    ensures u in Pages(l) && Pages(l)[u] == l[i].shared && forall j :: 0 <= j < |l| && j != i ==> !InSeg(l[j], u)
  {
    PagesFlag(l, i, u);
  }

  /** One more region covers its own pages besides. */
  lemma InsertedPages(l: seq<Seg>, i: nat, m: Seg, u: nat)
    requires i <= |l| && Sorted(l) && Sorted(Inserted(l, i, m))
    ensures u in Pages(Inserted(l, i, m)) <==> u in Pages(l) || InSeg(m, u)
    ensures InSeg(m, u) ==> Pages(Inserted(l, i, m))[u] == m.shared && u !in Pages(l)
    ensures u in Pages(l) ==> Pages(Inserted(l, i, m))[u] == Pages(l)[u]
  {
    hide Pages, Sorted;
    var l' := Inserted(l, i, m);
    InPages(l, u);
    InPages(l', u);
    if InSeg(m, u) {
      InsertedFlag(l, i, m, u);
    } else if j :| 0 <= j < |l| && InSeg(l[j], u) {
      var k := if j < i then j else j + 1;
      assert l'[k] == l[j];
      OneRegion(l, j, u);
      OneRegion(l', k, u);
    } else {
      forall k | 0 <= k < |l'| ensures !InSeg(l'[k], u) {
        assert l'[k] == if k < i then l[k] else if k == i then m else l[k - 1];
      }
    }
  }

  lemma InsertedFlag(l: seq<Seg>, i: nat, m: Seg, u: nat)
    requires i <= |l| && Sorted(Inserted(l, i, m)) && InSeg(m, u)
    ensures u in Pages(Inserted(l, i, m)) && Pages(Inserted(l, i, m))[u] == m.shared
    ensures forall j :: 0 <= j < |l| ==> !InSeg(l[j], u)
  {
    hide Pages, Sorted;
    var l' := Inserted(l, i, m);
    assert l'[i] == m;
    OneRegion(l', i, u);
    forall j | 0 <= j < |l| ensures !InSeg(l[j], u) {
      assert l[j] == l'[if j < i then j else j + 1];
    }
  }

  /** A region less covers all but its pages. */
  lemma WithoutPages(l: seq<Seg>, i: nat, u: nat)
    requires i < |l| && Sorted(l)
    ensures u in Pages(Without(l, i)) <==> u in Pages(l) && !InSeg(l[i], u)
    ensures u in Pages(Without(l, i)) ==> Pages(Without(l, i))[u] == Pages(l)[u]
    ensures InSeg(l[i], u) ==> u in Pages(l) && Pages(l)[u] == l[i].shared
  {
    hide Pages;
    WithoutSorted(l, i);
    assert Inserted(Without(l, i), i, l[i]) == l;
    InsertedPages(Without(l, i), i, l[i], u);
  }

  class Table {
    const maps: array<Seg>
    ghost var used: seq<Seg>

    ghost predicate Valid()
      reads this, maps
    {
      Holds() && Sorted(used)
    }

    /** The entries in use come first. */
    ghost predicate Holds()
      reads this, maps
    {
      && maps.Length == MAX_MAPPING && |used| <= MAX_MAPPING && maps[..|used|] == used
      && forall i :: |used| <= i < MAX_MAPPING ==> maps[i] == NONE
    }

    constructor ()
      ensures Valid() && used == [] && fresh(maps)
    {
      maps := new Seg[MAX_MAPPING](_ => NONE);
      used := [];
    }

    lemma Slot(i: nat)
      requires Valid() && i < MAX_MAPPING
      ensures maps[i] == if i < |used| then used[i] else NONE
      ensures i < |used| ==> maps[i].v > 0 && 0 < maps[i].n < WRAP
    {
      assert i < |used| ==> maps[..|used|][i] == maps[i];
    }

    /** mapping_add, which panics on a full table.  It looks for an overlap on one side only,
        and takes a region without pages as well, which can leave the table unsorted. */
    method Add(v: nat, n: nat, shared: bool) returns (res: int)
      requires Valid() && v > 0 && n < WRAP
      requires n > 0 ==> forall i :: 0 <= i < |used| && used[i].v <= v ==> used[i].v + used[i].n <= v
      modifies this`used, maps
      ensures Holds() && (n > 0 ==> Valid()) && (res == PANIC <==> |old(used)| == MAX_MAPPING)
      ensures res == 0 <==> |old(used)| < MAX_MAPPING && (n > 0 ==> Disjoint(old(used), Seg(v, n, shared)))
      ensures res == -1 || res == PANIC || res == 0
      ensures res != 0 ==> used == old(used)
      ensures res == 0 ==> Joined(old(used), used, Seg(v, n, shared))
    {
      Slot(MAX_MAPPING - 1);
      if maps[MAX_MAPPING - 1].v != 0 {
        return PANIC;
      }
      var i := 0;
      while i < MAX_MAPPING && !(maps[i].v > v || maps[i].v == 0)
        modifies {}
        invariant 0 <= i <= |used| && forall j :: 0 <= j < i ==> used[j].v <= v
      {
        Slot(i);
        i := i + 1;
      }
      Slot(if i < MAX_MAPPING then i else 0);
      assert i <= |used| && (i < |used| ==> used[i].v > v);
      if maps[i].v != 0 && v + Eff(n) > maps[i].v {
        return -1;
      }
      if n > 0 {
        InsertedSorted(used, i, Seg(v, n, shared));
      }
      OpenGap(i, Seg(v, n, shared));
      res := 0;
    }

    /** The entries from entry `i` on move up by one to make room for `m`. */
    method OpenGap(i: nat, m: Seg)
      requires Holds() && i <= |used| < MAX_MAPPING
      modifies this`used, maps
      ensures Holds() && used == Inserted(old(used), i, m)
    {
      hide Inserted;
      ghost var was := maps[..];
      var j := MAX_MAPPING - 1;
      while j > i
        modifies maps
        invariant i <= j < MAX_MAPPING
        invariant forall k :: 0 <= k <= j ==> maps[k] == was[k]
        invariant forall k :: j < k < MAX_MAPPING ==> maps[k] == was[k - 1]
      {
        maps[j] := maps[j - 1];
        j := j - 1;
      }
      maps[i] := m;
      used := Inserted(used, i, m);
      Opened(was, maps[..], old(used), used, i);
    }

    static lemma Opened(a: seq<Seg>, b: seq<Seg>, l: seq<Seg>, l': seq<Seg>, i: nat)
      requires |a| == |b| == MAX_MAPPING && |l| < MAX_MAPPING && i <= |l| && a[..|l|] == l
      requires forall k :: |l| <= k < MAX_MAPPING ==> a[k] == NONE
      requires (forall k :: 0 <= k < i ==> b[k] == a[k]) && forall k :: i < k < MAX_MAPPING ==> b[k] == a[k - 1]
      requires l' == Inserted(l, i, b[i])
      ensures |l'| <= |b| && b[..|l'|] == l' && forall k :: |l'| <= k < MAX_MAPPING ==> b[k] == NONE
    {
      forall k | 0 <= k < |l'| ensures b[k] == l'[k] {
        if k > i {
          assert a[k - 1] == a[..|l|][k - 1];
        } else if k < i {
          assert a[k] == a[..|l|][k];
        }
      }
    }

    /** mapping_remove_fixed */
    method RemoveFixed(v: nat, n: nat) returns (res: int)
      requires Valid() && v > 0
      modifies this`used, maps
      ensures Valid() && (res == 0 || res == -1)
      ensures res == -1 ==> used == old(used) && forall i :: 0 <= i < |used| ==> used[i].v != v || used[i].n != n
      ensures res == 0 ==>
        exists i :: 0 <= i < |old(used)| && old(used)[i].v == v && old(used)[i].n == n && used == Without(old(used), i)
    {
      var i := 0;
      while i < MAX_MAPPING && !(maps[i].v == v && maps[i].n == n)
        modifies {}
        invariant 0 <= i <= MAX_MAPPING && forall j :: 0 <= j < i && j < |used| ==> used[j].v != v || used[j].n != n
      {
        Slot(i);
        i := i + 1;
      }
      if i == MAX_MAPPING {
        return -1;
      }
      Slot(i);
      WithoutSorted(used, i);
      CloseGap(i);
      res := 0;
    }

    /** The entries behind entry `i` move down by one. */
    method CloseGap(i: nat)
      requires Holds() && i < |used|
      modifies this`used, maps
      ensures Holds() && used == Without(old(used), i)
    {
      var j := i;
      while j < MAX_MAPPING - 1
        modifies maps
        invariant i <= j < MAX_MAPPING
        invariant forall k :: 0 <= k < i ==> maps[k] == old(maps[k])
        invariant forall k :: i <= k < j ==> maps[k] == old(maps[k + 1])
        invariant forall k :: j <= k < MAX_MAPPING ==> maps[k] == old(maps[k])
      {
        maps[j] := maps[j + 1];
        j := j + 1;
      }
      maps[MAX_MAPPING - 1] := NONE;
      used := Without(used, i);
      Closed(old(maps[..]), maps[..], old(used), used, i);
    }

    static lemma Closed(a: seq<Seg>, b: seq<Seg>, l: seq<Seg>, l': seq<Seg>, i: nat)
      requires |a| == |b| == MAX_MAPPING && i < |l| <= MAX_MAPPING && a[..|l|] == l
      requires forall k :: |l| <= k < MAX_MAPPING ==> a[k] == NONE
      requires (forall k :: 0 <= k < i ==> b[k] == a[k]) && forall k :: i <= k < MAX_MAPPING - 1 ==> b[k] == a[k + 1]
      requires b[MAX_MAPPING - 1] == NONE && l' == Without(l, i)
      ensures b[..|l'|] == l' && forall k :: |l'| <= k < MAX_MAPPING ==> b[k] == NONE
    {
      forall k | 0 <= k < |l'| ensures b[k] == l'[k] {
        if k >= i {
          assert a[k + 1] == a[..|l|][k + 1];
        } else {
          assert a[k] == a[..|l|][k];
        }
      }
    }

    /** mapping_try_remove_page: page `u` leaves the table; the region it was in shrinks,
        goes, or becomes two, which is a panic when no slot is spare. */
    method TryRemovePage(u: nat) returns (res: int)
      requires Valid()
      modifies this`used, maps
      ensures Valid() && (res == PANIC <==> Splits(old(used), u) && |old(used)| == MAX_MAPPING)
      ensures res != PANIC ==> res == (if u in Pages(old(used)) then 0 else -1) && Pages(used) == Pages(old(used)) - {u}
      ensures res == -1 ==> used == old(used)
      ensures res == 0 ==> forall i :: 0 <= i < |old(used)| && InSeg(old(used)[i], u) ==> Parted(old(used), used, i, u)
    {
      var i := 0;
      while i < MAX_MAPPING && !(maps[i].v <= u < maps[i].v + Eff(maps[i].n))
        modifies {}
        invariant 0 <= i <= MAX_MAPPING && forall j :: 0 <= j < i && j < |used| ==> !InSeg(used[j], u)
      {
        Slot(i);
        i := i + 1;
      }
      InPages(used, u);
      if i == MAX_MAPPING {
        assert Pages(used) - {u} == Pages(used);
        if Splits(used, u) {
          SplitInPages(used, u);
        }
        return -1;
      }
      Slot(i);
      OneRegion(used, i, u);
      hide Pages, Parted, Splits;
      var ok := Break(i, u);
      res := if ok then 0 else PANIC;
    }

    /** The region of entry `i`, which has page `u`, gives way to what is left of it. */
    method Break(i: nat, u: nat) returns (ok: bool)
      requires Valid() && i < |used| && InSeg(used[i], u)
      modifies this`used, maps
      ensures Valid() && (ok <==> !(Splits(old(used), u) && |old(used)| == MAX_MAPPING))
      ensures ok ==> Pages(used) == Pages(old(used)) - {u} && Parted(old(used), used, i, u)
    {
      ghost var l0 := used;
      Slot(i);
      var m := maps[i];
      var left, right := u - m.v, m.v + m.n - (u + 1);
      SplitsAt(l0, i, u);
      hide Pages, Sorted, Disjoint, Joined, Splits, Without, Parted;
      TakeOut(i, m);
      ghost var l1 := used;
      ok := AddPart(m.v, left, m.shared, m);
      ghost var l2 := used;
      LeftIn(l1, l2, m, left, right, u);
      ok := AddPart(u + 1, right, m.shared, Seg(u + 1, right, m.shared));
      if !ok {
        return;
      }
      BrokenInto(l0, l1, l2, used, i, m, left, right, u);
      Broken(l0, l1, l2, used, i, m, left, right, u);
    }

    static lemma Sizes(l: seq<Seg>, i: nat)
      requires i < |l|
      ensures |Without(l, i)| == |l| - 1
    {
    }

    /** The region is there, so that it is taken out. */
    method TakeOut(i: nat, m: Seg)
      requires Valid() && i < |used| && m == used[i]
      modifies this`used, maps
      ensures Valid() && used == Without(old(used), i) && |used| == |old(used)| - 1 && Disjoint(used, m)
    {
      ghost var l0 := used;
      Slot(i);
      hide Sorted, Without, Disjoint;
      var r := RemoveFixed(m.v, m.n);
      Found(l0, used, i, m, r);
      WithoutSorted(l0, i);
      Sizes(l0, i);
    }

    /** A part that is left, if there is one, goes back into the table. */
    method AddPart(v: nat, n: nat, shared: bool, ghost m: Seg) returns (ok: bool)
      requires Valid() && 0 < v && n < WRAP
      requires (m.n > 0 ==> Disjoint(used, m)) && m.v <= v && v + n <= m.v + m.n
      modifies this`used, maps
      ensures Valid() && (ok <==> n == 0 || |old(used)| < MAX_MAPPING)
      ensures if n > 0 && ok then Joined(old(used), used, Seg(v, n, shared)) else used == old(used)
    {
      hide Sorted;
      ok := true;
      Beside(used, m, Seg(v, n, shared));
      if n > 0 {
        var r := Add(v, n, shared);
        ok := r == 0;
      }
    }

    static lemma Found(l0: seq<Seg>, l1: seq<Seg>, i: nat, m: Seg, r: int)
      requires Sorted(l0) && i < |l0| && l0[i] == m && (r == 0 || r == -1)
      requires r == -1 ==> l1 == l0 && forall k :: 0 <= k < |l1| ==> l1[k].v != m.v || l1[k].n != m.n
      requires r == 0 ==> exists k :: 0 <= k < |l0| && l0[k].v == m.v && l0[k].n == m.n && l1 == Without(l0, k)
      ensures r == 0 && l1 == Without(l0, i)
    {
    }
  }

  /** A region takes the place of what is left of it. */
  lemma BrokenInto(l0: seq<Seg>, l1: seq<Seg>, l2: seq<Seg>, l3: seq<Seg>, i: nat, m: Seg, left: nat, right: nat, u: nat)
    requires i < |l0| && l0[i] == m && l1 == Without(l0, i) && m.v + left == u && u + 1 + right == m.v + m.n
    requires if left > 0 then Joined(l1, l2, Seg(m.v, left, m.shared)) else l2 == l1
    requires if right > 0 then Joined(l2, l3, Seg(u + 1, right, m.shared)) else l3 == l2
    ensures Parted(l0, l3, i, u)
  {
    if right > 0 {
      var k :| 0 <= k <= |l2| && l3 == Inserted(l2, k, Seg(u + 1, right, m.shared));
      assert l3[k] == Seg(u + 1, right, m.shared);
    }
  }

  lemma SplitInPages(l: seq<Seg>, u: nat)
    requires Splits(l, u)
    ensures u in Pages(l)
  {
    InPages(l, u);
    hide Pages;
    var i :| 0 <= i < |l| && l[i].v < u < l[i].v + l[i].n - 1;
    assert InSeg(l[i], u);
  }

  lemma SplitsAt(l: seq<Seg>, i: nat, u: nat)
    requires Sorted(l) && i < |l| && InSeg(l[i], u)
    ensures Splits(l, u) <==> l[i].v < u < l[i].v + l[i].n - 1
    ensures 0 < l[i].n < WRAP && l[i].v > 0
  {
  }

  /** What lies in a free stretch overlaps nothing. */
  lemma Beside(l: seq<Seg>, m: Seg, part: Seg)
    requires m.n > 0 ==> Disjoint(l, m)
    requires m.v <= part.v && part.v + part.n <= m.v + m.n
    ensures part.n > 0 ==> Disjoint(l, part) && forall i :: 0 <= i < |l| && l[i].v <= part.v ==> l[i].v + l[i].n <= part.v
  {
  }

  /** The rest on the left is in, and leaves room for the rest on the right. */
  lemma LeftIn(l1: seq<Seg>, l2: seq<Seg>, m: Seg, left: nat, right: nat, u: nat)
    requires Disjoint(l1, m) && m.v + left == u && u + 1 + right == m.v + m.n
    requires if left > 0 then Joined(l1, l2, Seg(m.v, left, m.shared)) else l2 == l1
    requires m.n > 0
    ensures right > 0 ==> Disjoint(l2, Seg(u + 1, right, m.shared))
    ensures |l2| == |l1| + if left > 0 then 1 else 0
  {
  }

  lemma Broken(l0: seq<Seg>, l1: seq<Seg>, l2: seq<Seg>, l3: seq<Seg>, i: nat, m: Seg, left: nat, right: nat, u: nat)
    requires Sorted(l0) && Sorted(l1) && Sorted(l2) && Sorted(l3) && i < |l0| && l0[i] == m && l1 == Without(l0, i)
    requires m.v + left == u && u + 1 + right == m.v + m.n
    requires if left > 0 then Joined(l1, l2, Seg(m.v, left, m.shared)) else l2 == l1
    requires if right > 0 then Joined(l2, l3, Seg(u + 1, right, m.shared)) else l3 == l2
    ensures Pages(l3) == Pages(l0) - {u}
  {
    hide Sorted, Pages, Without, Joined;
    forall x: nat ensures x in Pages(l3) <==> x in Pages(l0) && x != u
      ensures x in Pages(l3) ==> Pages(l3)[x] == Pages(l0)[x]
    {
      BrokenPage(l0, l1, l2, l3, i, m, left, right, u, x);
    }
  }

  lemma BrokenPage(l0: seq<Seg>, l1: seq<Seg>, l2: seq<Seg>, l3: seq<Seg>, i: nat, m: Seg, left: nat, right: nat, u: nat, x: nat)
    requires Sorted(l0) && Sorted(l1) && Sorted(l2) && Sorted(l3) && i < |l0| && l0[i] == m && l1 == Without(l0, i)
    requires m.v + left == u && u + 1 + right == m.v + m.n
    requires if left > 0 then Joined(l1, l2, Seg(m.v, left, m.shared)) else l2 == l1
    requires if right > 0 then Joined(l2, l3, Seg(u + 1, right, m.shared)) else l3 == l2
    ensures x in Pages(l3) <==> x in Pages(l0) && x != u
    ensures x in Pages(l3) ==> Pages(l3)[x] == Pages(l0)[x]
  {
    hide Sorted, Pages, Without, Inserted;
    WithoutPages(l0, i, x);
    if left > 0 {
      var k :| 0 <= k <= |l1| && l2 == Inserted(l1, k, Seg(m.v, left, m.shared));
      InsertedPages(l1, k, Seg(m.v, left, m.shared), x);
    }
    if right > 0 {
      var k :| 0 <= k <= |l2| && l3 == Inserted(l2, k, Seg(u + 1, right, m.shared));
      InsertedPages(l2, k, Seg(u + 1, right, m.shared), x);
    }
  }

  // ----- taking out a range -----------------------------------------------------------------

  /** `l` is `l0` with `i > 0` pages from `v` on taken out one by one: there is one region more
      exactly while what was behind the range of a region cut at `v` is left. */
  ghost predicate TakenOut(l0: seq<Seg>, l: seq<Seg>, v: nat, i: nat) {
    && (!Inside(l0, v) ==> |l| <= |l0|)
    && forall r :: 0 <= r < |l0| && l0[r].v < v < l0[r].v + l0[r].n ==>
         if v + i < l0[r].v + l0[r].n then |l| == |l0| + 1 && RestAt(l, v + i, l0[r].v + l0[r].n) else |l| <= |l0|
  }

  /** The first page. */
  lemma TakenFirst(l0: seq<Seg>, l: seq<Seg>, v: nat)
    requires Sorted(l0)
    requires forall i :: 0 <= i < |l0| && InSeg(l0[i], v) ==> Parted(l0, l, i, v)
    requires v !in Pages(l0) ==> l == l0
    ensures TakenOut(l0, l, v, 1)
  {
    InPages(l0, v);
    hide Pages, RestAt;
    forall r | 0 <= r < |l0| && l0[r].v < v < l0[r].v + l0[r].n
      ensures if v + 1 < l0[r].v + l0[r].n then |l| == |l0| + 1 && RestAt(l, v + 1, l0[r].v + l0[r].n) else |l| <= |l0|
    {
      assert InSeg(l0[r], v) && Parted(l0, l, r, v);
    }
    if !Inside(l0, v) && v in Pages(l0) {
      var r :| 0 <= r < |l0| && InSeg(l0[r], v);
      assert Parted(l0, l, r, v);
    }
  }

  /** One more page: the one before it is gone, so that a region with this page begins here. */
  lemma TakenNext(l0: seq<Seg>, l: seq<Seg>, l': seq<Seg>, v: nat, i: nat)
    requires TakenOut(l0, l, v, i) && Sorted(l) && !Inside(l, v + i)
    requires forall j :: 0 <= j < |l| && InSeg(l[j], v + i) ==> Parted(l, l', j, v + i)
    requires v + i !in Pages(l) ==> l' == l
    ensures TakenOut(l0, l', v, i + 1)
  {
    hide Pages, Sorted;
    var u := v + i;
    InPages(l, u);
    assert |l'| <= |l| by {
      if u in Pages(l) {
        var j :| 0 <= j < |l| && InSeg(l[j], u);
        assert Parted(l, l', j, u);
      }
    }
    forall r | 0 <= r < |l0| && l0[r].v < v < l0[r].v + l0[r].n && u < l0[r].v + l0[r].n
      ensures var e := l0[r].v + l0[r].n; if u + 1 < e then |l'| == |l0| + 1 && RestAt(l', u + 1, e) else |l'| <= |l0|
    {
      var e := l0[r].v + l0[r].n;
      var j :| 0 <= j < |l| && l[j].v == u && l[j].v + l[j].n == e;
      assert InSeg(l[j], u) && Parted(l, l', j, u);
    }
  }

  /** The whole range: one region more exactly when one went on on both sides. */
  lemma TakenAll(l0: seq<Seg>, l: seq<Seg>, v: nat, n: nat)
    requires TakenOut(l0, l, v, n) && n > 0
    ensures if Spans(l0, v, n) then |l| == |l0| + 1 else |l| <= |l0|
  {
    if Spans(l0, v, n) {
      var r :| 0 <= r < |l0| && l0[r].v < v && v + n < l0[r].v + l0[r].n;
      assert l0[r].v < v < l0[r].v + l0[r].n;
    } else if Inside(l0, v) {
      var r :| 0 <= r < |l0| && l0[r].v < v < l0[r].v + l0[r].n;
      assert v + n >= l0[r].v + l0[r].n;
    }
  }
}
