/** Cluster chains in a file allocation table.

    A table `t` maps each cluster in 2..|t| to 0 (free), to the next cluster of its
    chain, or to an end mark, any value of at least |t|. */
module FatChain {

  predicate InRange(t: seq<nat>, c: int) { 2 <= c < |t| }

  /** The clusters of one chain from some cluster to the end mark. */
  ghost predicate IsChain(t: seq<nat>, s: seq<nat>) {
    && 0 < |s|
    && (forall i :: 0 <= i < |s| ==> InRange(t, s[i]))
    && (forall i :: 0 <= i < |s| - 1 ==> t[s[i]] == s[i + 1])
    && t[s[|s| - 1]] >= |t|
  }

  ghost predicate HasChain(t: seq<nat>, c: int) {
    exists s :: IsChain(t, s) && s[0] == c
  }

  /** No cluster has two predecessors. */
  ghost predicate Injective(t: seq<nat>) {
    forall c, d :: InRange(t, c) && InRange(t, d) && t[c] == t[d] && InRange(t, t[c]) ==> c == d
  }

  /** The table is a set of disjoint chains, each reaching an end mark. */
  ghost predicate Chains(t: seq<nat>) {
    && Injective(t)
    && forall c :: InRange(t, c) && t[c] != 0 ==> HasChain(t, c)
  }

  /** Nothing links to `c`. */
  ghost predicate IsHead(t: seq<nat>, c: nat) {
    forall d :: InRange(t, d) ==> t[d] != c
  }

  function FreeSet(t: seq<nat>): set<nat> {
    set c: nat | c < |t| && InRange(t, c) && t[c] == 0
  }

  function UsedSet(t: seq<nat>): set<nat> {
    set c: nat | c < |t| && InRange(t, c) && t[c] != 0
  }

  /** A free-cluster count that is out of range (unknown) or exact. */
  ghost predicate CountExact(free: nat, t: seq<nat>) {
    free > |t| - 2 || free == |FreeSet(t)|
  }

  lemma FreeBound(t: seq<nat>)
    requires 2 <= |t|
    ensures |FreeSet(t)| + |UsedSet(t)| == |t| - 2
  {
    var all := set c: nat | c < |t| && InRange(t, c);
    RangeSize(|t|, all);
    assert all == FreeSet(t) + UsedSet(t) && FreeSet(t) !! UsedSet(t);
  }

  lemma {:induction false} RangeSize(n: nat, all: set<nat>)
    requires 2 <= n && forall c: nat :: c in all <==> 2 <= c < n
    ensures |all| == n - 2
  {
    if n == 2 {
      assert all == {};
    } else {
      RangeSize(n - 1, all - {n - 1});
    }
  }

  lemma EmptyCount(free: nat, t: seq<nat>)
    requires free == 0 && 2 <= |t|
    ensures CountExact(free, t) ==> FreeSet(t) == {}
  {
  }

  lemma CountFreed(free: nat, t: seq<nat>, c: nat)
    requires InRange(t, c) && t[c] != 0 && CountExact(free, t)
    ensures CountExact(if free < |t| - 2 then free + 1 else free, t[c := 0])
  {
    FreeBound(t);
    assert c in UsedSet(t);
    assert FreeSet(t[c := 0]) == FreeSet(t) + {c};
  }

  lemma CountKept(free: nat, t: seq<nat>, c: nat, e: nat)
    requires InRange(t, c) && t[c] != 0 && e != 0
    ensures CountExact(free, t[c := e]) == CountExact(free, t)
  {
    assert FreeSet(t[c := e]) == FreeSet(t);
  }

  lemma CountLinked(free: nat, t: seq<nat>, clst: nat, ncl: nat, eoc: nat)
    requires InRange(t, ncl) && t[ncl] == 0 && eoc >= |t|
    requires clst == 0 || (InRange(t, clst) && t[clst] >= |t|)
    requires CountExact(free, t) && free != 0
    ensures CountExact(if free <= |t| - 2 then free - 1 else free, Linked(t, clst, ncl, eoc))
  {
    FreeBound(t);
    LinkedFree(t, clst, ncl, eoc);
  }

  // ------------------------------------------------------------------ chains

  lemma ChainTail(t: seq<nat>, s: seq<nat>, i: nat)
    requires IsChain(t, s) && i < |s|
    ensures IsChain(t, s[i..])
  {
  }

  /** The clusters of a chain are in use, and only the last holds an end mark. */
  lemma ChainUsed(t: seq<nat>, s: seq<nat>)
    requires IsChain(t, s)
    ensures forall c :: c in s ==> InRange(t, c) && t[c] != 0
    ensures forall c :: c in s && t[c] >= |t| ==> c == s[|s| - 1]
  {
    forall c | c in s ensures t[c] != 0 && (t[c] >= |t| ==> c == s[|s| - 1]) {
      var i :| 0 <= i < |s| && s[i] == c;
      assert i < |s| - 1 ==> t[s[i]] == s[i + 1] && InRange(t, s[i + 1]);
    }
  }

  /** The chain from a cluster is determined by that cluster. */
  lemma {:induction false} ChainUnique(t: seq<nat>, s: seq<nat>, s': seq<nat>)
    requires IsChain(t, s) && IsChain(t, s') && s[0] == s'[0]
    ensures s == s'
  {
    assert |s| > 1 ==> t[s[0]] == s[1] && InRange(t, s[1]);
    assert |s'| > 1 ==> t[s'[0]] == s'[1] && InRange(t, s'[1]);
    if |s| > 1 {
      ChainTail(t, s, 1);
      ChainTail(t, s', 1);
      ChainUnique(t, s[1..], s'[1..]);
      assert s == [s[0]] + s[1..] && s' == [s'[0]] + s'[1..];
    }
  }

  /** A chain visits no cluster twice. */
  lemma ChainDistinct(t: seq<nat>, s: seq<nat>)
    requires IsChain(t, s)
    ensures forall i, j :: 0 <= i < j < |s| ==> s[i] != s[j]
  {
    forall i, j | 0 <= i < j < |s| ensures s[i] != s[j] {
      if s[i] == s[j] {
        ChainTail(t, s, i);
        ChainTail(t, s, j);
        ChainUnique(t, s[i..], s[j..]);
      }
    }
  }

  /** Chains that start at two different heads share no cluster. */
  lemma {:induction false} HeadsDisjoint(t: seq<nat>, s: seq<nat>, s': seq<nat>, i: nat, j: nat)
    requires Injective(t) && IsChain(t, s) && IsChain(t, s')
    requires IsHead(t, s[0]) && IsHead(t, s'[0])
    requires i < |s| && j < |s'| && s[i] == s'[j]
    ensures s == s'
  {
    assert i > 0 ==> t[s[i - 1]] == s[i];
    assert j > 0 ==> t[s'[j - 1]] == s'[j];
    if i == 0 && j == 0 {
      ChainUnique(t, s, s');
    } else if i > 0 && j > 0 {
      HeadsDisjoint(t, s, s', i - 1, j - 1);
    }
  }

  /** A chain survives any change that leaves its own entries alone. */
  lemma ChainFrame(t: seq<nat>, u: seq<nat>, s: seq<nat>)
    requires IsChain(t, s) && |u| == |t|
    requires forall c :: c in s ==> u[c] == t[c]
    ensures IsChain(u, s)
  {
  }

  // ------------------------------------------------------------------ allocation

  /** The table after create_chain took the free cluster `ncl` to follow `clst`
      (0: to start a chain), `eoc` being the end mark. */
  function Linked(t: seq<nat>, clst: nat, ncl: nat, eoc: nat): seq<nat>
    requires InRange(t, ncl) && (clst == 0 || InRange(t, clst))
  {
    if clst == 0 then t[ncl := eoc] else t[ncl := eoc][clst := ncl]
  }

  /** Taking a free cluster keeps the chains disjoint: a chain ending in `clst` grows by
      that cluster, every other stays. */
  lemma LinkedChain(t: seq<nat>, clst: nat, ncl: nat, eoc: nat, s: seq<nat>)
    requires IsChain(t, s) && InRange(t, ncl) && t[ncl] == 0 && eoc >= |t|
    requires clst == 0 || (InRange(t, clst) && t[clst] >= |t|)
    ensures var u := Linked(t, clst, ncl, eoc);
      IsChain(u, if clst == s[|s| - 1] then s + [ncl] else s)
  {
    var u := Linked(t, clst, ncl, eoc);
    ChainUsed(t, s);
    ChainDistinct(t, s);
    if clst == s[|s| - 1] {
      var s' := s + [ncl];
      assert forall i :: 0 <= i < |s'| - 1 ==> u[s'[i]] == s'[i + 1];
    } else {
      ChainFrame(t, u, s);
    }
  }

  lemma NothingLinksToFree(t: seq<nat>, c: nat, d: nat)
    requires Chains(t) && InRange(t, c) && InRange(t, d) && t[d] == 0
    ensures t[c] != d
  {
    if t[c] != 0 {
      var s :| IsChain(t, s) && s[0] == c;
      ChainUsed(t, s);
      assert |s| > 1 ==> s[1] in s;
    }
  }

  lemma LinkedHasChain(t: seq<nat>, clst: nat, ncl: nat, eoc: nat, c: nat)
    requires HasChain(t, c) && InRange(t, ncl) && t[ncl] == 0 && eoc >= |t|
    requires clst == 0 || (InRange(t, clst) && t[clst] >= |t|)
    ensures HasChain(Linked(t, clst, ncl, eoc), c)
  {
    var s :| IsChain(t, s) && s[0] == c;
    LinkedChain(t, clst, ncl, eoc, s);
    assert (s + [ncl])[0] == c;
  }

  lemma LinkedChains(t: seq<nat>, clst: nat, ncl: nat, eoc: nat)
    requires Chains(t) && InRange(t, ncl) && t[ncl] == 0 && eoc >= |t|
    requires clst == 0 || (InRange(t, clst) && t[clst] >= |t|)
    ensures Chains(Linked(t, clst, ncl, eoc))
  {
    hide HasChain;
    var u := Linked(t, clst, ncl, eoc);
    forall c | InRange(u, c) && u[c] != 0 ensures HasChain(u, c) {
      if c == ncl {
        SingleChain(u, ncl);
      } else {
        LinkedHasChain(t, clst, ncl, eoc, c);
      }
    }
    forall c | InRange(t, c) ensures t[c] != ncl {
      NothingLinksToFree(t, c, ncl);
    }
  }

  lemma SingleChain(t: seq<nat>, c: nat)
    requires InRange(t, c) && t[c] >= |t|
    ensures HasChain(t, c)
  {
    assert IsChain(t, [c]);
  }

  /** The entries other than those two stay, and only `ncl` stops being free. */
  lemma LinkedEntries(t: seq<nat>, clst: nat, ncl: nat, eoc: nat)
    requires InRange(t, ncl) && t[ncl] == 0 && eoc >= |t|
    requires clst == 0 || (InRange(t, clst) && t[clst] >= |t|)
    ensures var u := Linked(t, clst, ncl, eoc);
      && |u| == |t|
      && (forall c :: InRange(t, c) && c != ncl ==> (u[c] == 0 <==> t[c] == 0))
      && (forall c :: InRange(t, c) && c != ncl && c != clst ==> u[c] == t[c])
  {
  }

  /** A head stays a head, and a cluster taken to start a chain becomes one. */
  lemma LinkedIsHead(t: seq<nat>, clst: nat, ncl: nat, eoc: nat, h: nat)
    requires Chains(t) && InRange(t, ncl) && t[ncl] == 0 && eoc >= |t|
    requires clst == 0 || (InRange(t, clst) && t[clst] >= |t|)
    requires if clst == 0 then h == ncl else InRange(t, h) && h != ncl && IsHead(t, h)
    ensures IsHead(Linked(t, clst, ncl, eoc), h)
  {
    hide Chains;
    if clst == 0 {
      forall d | InRange(t, d) ensures t[d] != ncl { NothingLinksToFree(t, d, ncl); }
    }
  }

  lemma LinkedFree(t: seq<nat>, clst: nat, ncl: nat, eoc: nat)
    requires InRange(t, ncl) && t[ncl] == 0 && eoc >= |t|
    requires clst == 0 || (InRange(t, clst) && t[clst] >= |t|)
    ensures FreeSet(Linked(t, clst, ncl, eoc)) == FreeSet(t) - {ncl}
    ensures ncl in FreeSet(t)
  {
  }

  // ------------------------------------------------------------------ removal

  /** What remove_chain makes of any table from `c` on, and whether it ends without
      meeting the reserved value 1.  Each step frees a used entry, so that it ends on
      every table, a cyclic one included. */
  function Removed(t: seq<nat>, c: nat): (r: (seq<nat>, bool))
    requires InRange(t, c)
    ensures |r.0| == |t|
    decreases |UsedSet(t)|
  {
    if t[c] == 0 then (t, true)
    else if t[c] == 1 then (t, false)
    else
      var u := t[c := 0];
      UsedSetShrinks(t, c);
      if t[c] < |t| then Removed(u, t[c]) else (u, true)
  }

  lemma RemovedStep(t: seq<nat>, c: nat)
    requires InRange(t, c)
    ensures t[c] < 2 ==> Removed(t, c) == (t, t[c] == 0)
    ensures t[c] >= |t| ==> Removed(t, c) == (t[c := 0], true)
    ensures 2 <= t[c] < |t| ==> Removed(t, c) == Removed(t[c := 0], t[c])
    ensures t[c] != 0 ==> |UsedSet(t[c := 0])| < |UsedSet(t)|
  {
    if t[c] != 0 {
      UsedSetShrinks(t, c);
    }
  }

  lemma UsedSetShrinks(t: seq<nat>, c: nat)
    requires InRange(t, c) && t[c] != 0
    ensures UsedSet(t[c := 0]) == UsedSet(t) - {c}
    ensures |UsedSet(t[c := 0])| < |UsedSet(t)|
  {
    assert UsedSet(t[c := 0]) == UsedSet(t) - {c};
  }

  /** `t` with the clusters of `s` freed. */
  function Cleared(t: seq<nat>, s: seq<nat>): (u: seq<nat>)
    ensures |u| == |t|
  {
    seq(|t|, c requires 0 <= c < |t| => if c in s then 0 else t[c])
  }

  /** On a chain, remove_chain frees exactly its clusters. */
  lemma {:induction false} RemovedChain(t: seq<nat>, s: seq<nat>)
    requires IsChain(t, s)
    ensures Removed(t, s[0]) == (Cleared(t, s), true)
    decreases |s|
  {
    var u := t[s[0] := 0];
    if |s| == 1 {
      assert u == Cleared(t, s);
    } else {
      ChainDistinct(t, s);
      ChainTail(t, s, 1);
      ChainFrame(t, u, s[1..]);
      RemovedChain(u, s[1..]);
      assert s == [s[0]] + s[1..];
      assert Cleared(u, s[1..]) == Cleared(t, s);
    }
  }

  /** Cutting a chain after `keep` clusters leaves two chains. */
  lemma CutChain(t: seq<nat>, s: seq<nat>, keep: nat, eoc: nat)
    requires IsChain(t, s) && 0 < keep < |s| && eoc >= |t|
    ensures var u := t[s[keep - 1] := eoc];
      && IsChain(u, s[..keep]) && IsChain(u, s[keep..])
      && IsChain(Cleared(u, s[keep..]), s[..keep])
  {
    ChainDistinct(t, s);
    var u := t[s[keep - 1] := eoc];
    ChainTail(t, s, keep);
    ChainFrame(t, u, s[keep..]);
    forall c | c in s[..keep] ensures c !in s[keep..] {
    }
    ChainFrame(u, Cleared(u, s[keep..]), s[..keep]);
  }

  /** The table after removing the last clusters `s[keep..]` of a chain. */
  function Truncated(t: seq<nat>, s: seq<nat>, keep: nat, eoc: nat): (u: seq<nat>)
    requires keep <= |s| && forall i :: 0 <= i < |s| ==> s[i] < |t|
    ensures |u| == |t|
  {
    Cleared(if keep == 0 then t else t[s[keep - 1] := eoc], s[keep..])
  }

  /** `u` is `t` with exactly the clusters `s[keep..]` of the chain `s` freed, what is before
      them being its new end. */
  ghost predicate FreedFrom(t: seq<nat>, u: seq<nat>, s: seq<nat>, keep: nat, eoc: nat) {
    && keep <= |s| && (forall i :: 0 <= i < |s| ==> s[i] < |t|)
    && u == if keep < |s| then Truncated(t, s, keep, eoc) else t
  }

  lemma ChainCons(t: seq<nat>, c: nat, s: seq<nat>)
    requires InRange(t, c) && IsChain(t, s) && t[c] == s[0]
    ensures IsChain(t, [c] + s)
  {
    var r := [c] + s;
    assert forall i :: 0 <= i < |r| - 1 ==> t[r[i]] == r[i + 1];
  }

  /** What links into the suffix of a chain is the cluster before it or in it. */
  lemma PredecessorInSuffix(t: seq<nat>, s: seq<nat>, keep: nat, c: nat)
    requires Injective(t) && IsChain(t, s) && keep < |s|
    requires keep == 0 ==> IsHead(t, s[0])
    requires InRange(t, c) && t[c] in s[keep..]
    ensures c in s[keep..] || (keep > 0 && c == s[keep - 1])
  {
    var i :| keep <= i < |s| && s[i] == t[c];
    if i > 0 {
      assert t[s[i - 1]] == s[i];
      assert i > keep ==> s[keep..][i - 1 - keep] == s[i - 1];
    }
  }

  /** A chain of another cluster, seen after the removal: cut at the new end mark. */
  lemma {:induction false} TruncatedOther(
      t: seq<nat>, s: seq<nat>, keep: nat, eoc: nat, other: seq<nat>) returns (r: seq<nat>)
    requires Injective(t) && IsChain(t, s) && keep < |s| && eoc >= |t|
    requires keep == 0 ==> IsHead(t, s[0])
    requires IsChain(t, other) && other[0] !in s[keep..]
    ensures IsChain(Truncated(t, s, keep, eoc), r) && r[0] == other[0]
    ensures (forall c :: c in other ==> c !in s) ==> r == other
    decreases |other|
  {
    ChainDistinct(t, s);
    var u := Truncated(t, s, keep, eoc);
    var c := other[0];
    if keep > 0 && c == s[keep - 1] {
      assert c in s && c in other;
      r := [c];
    } else if |other| == 1 {
      r := other;
    } else {
      var d := other[1];
      assert t[c] == d;
      if d in s[keep..] {
        PredecessorInSuffix(t, s, keep, c);
      }
      ChainTail(t, other, 1);
      var r' := TruncatedOther(t, s, keep, eoc, other[1..]);
      assert u[c] == d;
      r := [c] + r';
      ChainCons(u, c, r');
      assert other == [c] + other[1..];
    }
  }

  /** Removing the end of a chain, or a whole chain from its head, keeps the chains
      disjoint. */
  lemma TruncatedChains(t: seq<nat>, s: seq<nat>, keep: nat, eoc: nat)
    requires Chains(t) && IsChain(t, s) && keep < |s| && eoc >= |t|
    requires keep == 0 ==> IsHead(t, s[0])
    ensures Chains(Truncated(t, s, keep, eoc))
  {
    hide HasChain, IsHead;
    var u := Truncated(t, s, keep, eoc);
    TruncatedLinks(t, s, keep, eoc);
    forall c | InRange(u, c) && u[c] != 0 ensures HasChain(u, c) {
      TruncatedHasChain(t, s, keep, eoc, c);
    }
  }

  /** The links that remain are old ones, and what remains in use was in use. */
  lemma TruncatedLinks(t: seq<nat>, s: seq<nat>, keep: nat, eoc: nat)
    requires IsChain(t, s) && keep < |s| && eoc >= |t|
    ensures var u := Truncated(t, s, keep, eoc);
      && (forall c :: InRange(u, c) && InRange(u, u[c]) ==> u[c] == t[c])
      && (forall c :: InRange(u, c) && u[c] != 0 ==> t[c] != 0)
  {
    ChainUsed(t, s);
  }

  lemma TruncatedHasChain(t: seq<nat>, s: seq<nat>, keep: nat, eoc: nat, c: nat)
    requires Chains(t) && IsChain(t, s) && keep < |s| && eoc >= |t|
    requires keep == 0 ==> IsHead(t, s[0])
    requires InRange(t, c) && Truncated(t, s, keep, eoc)[c] != 0
    ensures HasChain(Truncated(t, s, keep, eoc), c)
  {
    ChainUsed(t, s);
    var other :| IsChain(t, other) && other[0] == c;
    var r := TruncatedOther(t, s, keep, eoc, other);
  }

  /** remove_chain from `s[keep]` after `s[keep - 1]` was made the end: exactly the suffix
      is freed. */
  lemma RemovedSuffix(t: seq<nat>, s: seq<nat>, keep: nat, eoc: nat)
    requires IsChain(t, s) && keep < |s| && eoc >= |t|
    ensures Removed(if keep == 0 then t else t[s[keep - 1] := eoc], s[keep])
      == (Truncated(t, s, keep, eoc), true)
  {
    if keep == 0 {
      assert s[0..] == s;
      RemovedChain(t, s);
    } else {
      CutChain(t, s, keep, eoc);
      RemovedChain(t[s[keep - 1] := eoc], s[keep..]);
    }
  }

  // ------------------------------------------------------------------ create_chain

  /** What create_chain may return for `clst` on the table `t`, and the table it leaves. */
  ghost predicate Created(t: seq<nat>, clst: nat, r: nat, u: seq<nat>, eoc: nat) {
    if clst != 0 && !InRange(t, clst) then r == 1 && u == t
    else if clst != 0 && t[clst] < 2 then r == 1 && u == t
    else if clst != 0 && t[clst] < |t| then r == t[clst] && u == t
    else
      || (r == 0 && u == t)
      || (r == 1 && u == t && exists c :: InRange(t, c) && t[c] == 1)
      || (InRange(t, r) && t[r] == 0 && u == Linked(t, clst, r, eoc))
  }

  /** Entries first, last included, are all in use. */
  ghost predicate AllUsed(t: seq<nat>, first: nat, last: nat) {
    forall c :: first <= c <= last && InRange(t, c) ==> t[c] != 0
  }

  /** Cluster `ncl` is the first free one behind `scl`, cluster 2 following the last. */
  ghost predicate FirstAfter(t: seq<nat>, scl: nat, ncl: nat) {
    && InRange(t, ncl) && t[ncl] == 0
    && if scl < ncl then AllUsed(t, scl + 1, ncl - 1) else AllUsed(t, scl + 1, |t|) && AllUsed(t, 2, ncl - 1)
  }

  /** Which free cluster create_chain takes: the next one if that is free, else the first one
      behind the cluster last taken. */
  ghost predicate Chosen(t: seq<nat>, clst: nat, last: nat, ncl: nat) {
    if clst == 0 then FirstAfter(t, if 1 <= last < |t| then last else 1, ncl)
    else
      var next := if clst + 1 < |t| then clst + 1 else 2;
      if InRange(t, next) && t[next] == 0 then ncl == next
      else FirstAfter(t, if 2 <= last < |t| then last else clst, ncl)
  }

  // ------------------------------------------------------------------ f_getfree

  /** The entries from `lo` up to `hi` that hold 0. */
  function ZeroSet(t: seq<nat>, lo: nat, hi: nat): set<nat> {
    set c: nat | lo <= c < hi && c < |t| && t[c] == 0
  }

  lemma EmptyZeroSet(t: seq<nat>, lo: nat)
    ensures |ZeroSet(t, lo, lo)| == 0
  {
    assert ZeroSet(t, lo, lo) == {};
  }

  lemma ZeroSetStep(t: seq<nat>, lo: nat, hi: nat)
    requires lo <= hi < |t|
    ensures |ZeroSet(t, lo, hi + 1)| == |ZeroSet(t, lo, hi)| + (if t[hi] == 0 then 1 else 0)
  {
    if t[hi] == 0 {
      assert ZeroSet(t, lo, hi + 1) == ZeroSet(t, lo, hi) + {hi};
    } else {
      assert ZeroSet(t, lo, hi + 1) == ZeroSet(t, lo, hi);
    }
  }

  /** A scan over all entries counts the free clusters exactly when neither reserved entry
      is zero; one that starts at cluster 2 always does. */
  lemma ScanIsFreeCount(t: seq<nat>)
    requires 2 <= |t|
    ensures ZeroSet(t, 2, |t|) == FreeSet(t)
    ensures |ZeroSet(t, 0, |t|)| == |FreeSet(t)| <==> t[0] != 0 && t[1] != 0
  {
    assert ZeroSet(t, 2, |t|) == FreeSet(t);
    var low := ZeroSet(t, 0, 2);
    assert ZeroSet(t, 0, |t|) == FreeSet(t) + low && FreeSet(t) !! low;
    assert low == {} <==> t[0] != 0 && t[1] != 0 by {
      assert t[0] == 0 ==> 0 in low;
      assert t[1] == 0 ==> 1 in low;
    }
  }

  /** With a reserved entry of 0 the scan can count a free cluster that is none: a full FAT16
      table, of 0xFF6 clusters, whose first entry is 0. */
  lemma ScanCanBeWrong()
    ensures var t := [0] + seq(0xFF7, _ => 0xFFFF); !CountExact(|ZeroSet(t, 0, |t|)|, t)
  {
    var t := [0] + seq(0xFF7, _ => 0xFFFF);
    assert ZeroSet(t, 0, |t|) == {0};
    assert FreeSet(t) == {};
  }
}
