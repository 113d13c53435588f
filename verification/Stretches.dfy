/** Stretches of pages: what the stack, the program and the mmap regions of a process are to
    paging, and the pages a list of them amounts to. */
module Stretches {
  /** A stretch of user pages: the stack, the program, or an mmap region. */
  datatype Seg = Seg(v: nat, n: nat, shared: bool)

  /** `done`, and `n` pages from `v` on. */
  function WithRange(done: map<nat, bool>, v: nat, n: nat, shared: bool): (r: map<nat, bool>)
    ensures forall u :: u in r <==> u in done || v <= u < v + n
    ensures forall u :: u in r ==> r[u] == if v <= u < v + n then shared else done[u]
  {
    if n == 0 then done else WithRange(done, v, n - 1, shared)[v + n - 1 := shared]
  }

  function WithSegs(done: map<nat, bool>, segs: seq<Seg>): map<nat, bool> {
    if segs == [] then done
    else
      var s := segs[|segs| - 1];
      WithRange(WithSegs(done, segs[..|segs| - 1]), s.v, s.n, s.shared)
  }

  /** The pages of some stretches, each with its sharing. */
  function Pages(segs: seq<Seg>): map<nat, bool> { WithSegs(map[], segs) }

  predicate InSeg(s: Seg, u: nat) { s.v <= u < s.v + s.n }

  lemma {:induction false} InPages(segs: seq<Seg>, u: nat)
    ensures u in Pages(segs) <==> exists i :: 0 <= i < |segs| && InSeg(segs[i], u)
  {
    if segs != [] {
      var n := |segs| - 1;
      InPages(segs[..n], u);
      if i :| 0 <= i < |segs| && InSeg(segs[i], u) {
        if i < n {
          assert segs[..n][i] == segs[i];
        }
      }
      if i :| 0 <= i < n && InSeg(segs[..n][i], u) {
        assert InSeg(segs[i], u);
      }
    }
  }

  /** With at most one stretch over each page, that stretch says how the page is shared. */
  lemma {:induction false} PagesFlag(segs: seq<Seg>, i: nat, u: nat)
    requires i < |segs| && InSeg(segs[i], u) && forall j :: 0 <= j < |segs| && j != i ==> !InSeg(segs[j], u)
    ensures u in Pages(segs) && Pages(segs)[u] == segs[i].shared
  {
    var n := |segs| - 1;
    if i < n {
      assert InSeg(segs[..n][i], u) && !InSeg(segs[n], u);
      PagesFlag(segs[..n], i, u);
    }
  }
}
