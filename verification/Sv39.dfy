/** What the hardware makes of the kernel's page tables: the walk of Sv39 (RISC-V Privileged
    Architecture, sections 4.3.2 and 4.4) through the words of memory finds exactly the
    translation that the model keeps beside them. */
module Sv39 {
  import opened VmState

  /** The eight bytes at physical address `a` hold the word `w`; frame 0 begins at KERNBASE. */
  ghost predicate Reads(m: seq<Page>, a: nat, w: Word) {
    exists f, i :: 0 <= f < |m| && 0 <= i < 512 && a == 0x8020_0000 + 4096 * f + 8 * i && m[f][i] == w
  }

  /** A valid entry without R, W and X points to the next table, whose page number it has in
      the bits from 10 on. */
  predicate IsPointer(w: Word) { w % 16 == 1 }

  function Target(w: Word): nat { w / 0x400 * 0x1000 }

  /** The walk for the page numbers `i2`, `i1` and `i0` of an address (its bits from 30, 21
      and 12 on), from the table at `a`: it ends at the valid entry `w` of the lowest level. */
  ghost predicate Finds(m: seq<Page>, a: nat, i2: nat, i1: nat, i0: nat, w: Word) {
    exists e :: Reads(m, a + 8 * i2, e) && IsPointer(e) && FindsBelow(m, Target(e), i1, i0, w)
  }

  ghost predicate FindsBelow(m: seq<Page>, a: nat, i1: nat, i0: nat, w: Word) {
    exists e :: Reads(m, a + 8 * i1, e) && IsPointer(e) && FindsLeaf(m, Target(e), i0, w)
  }

  ghost predicate FindsLeaf(m: seq<Page>, a: nat, i0: nat, w: Word) { Reads(m, a + 8 * i0, w) && w % 2 == 1 }

  /** A word of a frame, and nothing else, is read at its address. */
  lemma ReadsOne(m: seq<Page>, f: nat, i: nat, a: nat)
    requires f < |m| && i < 512 && a == Addr(f) + 8 * i
    ensures forall w :: Reads(m, a, w) <==> w == m[f][i]
  {
    assert Reads(m, a, m[f][i]);
    forall w | Reads(m, a, w) ensures w == m[f][i] {
      var g, j :| 0 <= g < |m| && 0 <= j < 512 && a == 0x8020_0000 + 4096 * g + 8 * j && m[g][j] == w;
      assert g == f && j == i;
    }
  }

  lemma PtrIs(f: nat)
    ensures IsPointer(Ptr(f)) && Target(Ptr(f)) == Addr(f)
  {
    assert Ptr(f) / 0x400 == KERN_PPN + f;
  }

  lemma LeafWalk(m: seq<Page>, s: Space, q: nat, i0: nat, w: Word)
    requires q in s.low && s.low[q] < |m| && LowOk(m, s, q) && i0 < 512
    ensures FindsLeaf(m, Addr(s.low[q]), i0, w) <==> Key(q, i0) in s.pt && s.pt[Key(q, i0)] == w
  {
    hide Reads, Addr, Key;
    ReadsOne(m, s.low[q], i0, Addr(s.low[q]) + 8 * i0);
  }

  lemma MidWalk(m: seq<Page>, s: Space, k: nat, i1: nat, i0: nat, w: Word)
    requires k in s.mid && s.mid[k] < |m| && MidOk(m, s, k) && i1 < 512 && i0 < 512
    requires forall q :: q in s.low ==> s.low[q] < |m| && LowOk(m, s, q)
    ensures FindsBelow(m, Addr(s.mid[k]), i1, i0, w)
      <==> Key(k, i1) in s.low && Key(Key(k, i1), i0) in s.pt && s.pt[Key(Key(k, i1), i0)] == w
  {
    hide Reads, Addr, Key, Ptr, Target, FindsLeaf, LowOk;
    ReadsOne(m, s.mid[k], i1, Addr(s.mid[k]) + 8 * i1);
    if Key(k, i1) in s.low {
      PtrIs(s.low[Key(k, i1)]);
      LeafWalk(m, s, Key(k, i1), i0, w);
    }
  }

  lemma RootWalk(m: seq<Page>, s: Space, i2: nat, i1: nat, i0: nat, w: Word)
    requires Rep(m, s) && i2 < 512 && i1 < 512 && i0 < 512
    ensures Finds(m, Addr(s.root), i2, i1, i0, w)
      <==> i2 in s.mid && Key(i2, i1) in s.low && Key(Key(i2, i1), i0) in s.pt && s.pt[Key(Key(i2, i1), i0)] == w
  {
    hide Reads, Addr, Key, Ptr, Target, FindsBelow, LowOk, MidOk, Rep;
    RootEntry(m, s, i2);
    ReadsOne(m, s.root, i2, Addr(s.root) + 8 * i2);
    if i2 in s.mid {
      PtrIs(s.mid[i2]);
      MidWalk(m, s, i2, i1, i0, w);
    }
  }

  lemma RootEntry(m: seq<Page>, s: Space, i2: nat)
    requires Rep(m, s) && i2 < 512
    ensures s.root < |m| && if i2 in s.mid then m[s.root][i2] == Ptr(s.mid[i2]) else !IsPointer(m[s.root][i2])
    ensures i2 in s.mid ==> s.mid[i2] < |m| && MidOk(m, s, i2)
    ensures forall q :: q in s.low ==> s.low[q] < |m| && LowOk(m, s, q)
  {
    hide MidOk, LowOk, Separate;
    assert !IsValid(m[s.root][i2]) ==> !IsPointer(m[s.root][i2]);
  }

  /** The walk finds a page exactly when it is mapped, and then its entry. */
  lemma HardwareWalk(st: State, p: nat, i2: nat, i1: nat, i0: nat, w: Word)
    requires Inv(st) && p in st.spaces && i2 < 512 && i1 < 512 && i0 < 512
    ensures var s, v := st.spaces[p], (i2 * 512 + i1) * 512 + i0;
      Finds(st.mem, 0x8020_0000 + 4096 * s.root, i2, i1, i0, w) <==> v in s.pt && s.pt[v] == w
  {
    hide Inv, Finds, Rep;
    TreeWithin(st, p);
    RootWalk(st.mem, st.spaces[p], i2, i1, i0, w);
    Nested(i2, i1, i0);
  }

  lemma TreeWithin(st: State, p: nat)
    requires Inv(st) && p in st.spaces
    ensures Rep(st.mem, st.spaces[p])
    ensures forall v :: v in st.spaces[p].pt ==> v / 512 in st.spaces[p].low && v / 512 / 512 in st.spaces[p].mid
  {
  }

  lemma Nested(i2: nat, i1: nat, i0: nat)
    requires i1 < 512 && i0 < 512
    ensures ((i2 * 512 + i1) * 512 + i0) / 512 == i2 * 512 + i1 && (i2 * 512 + i1) / 512 == i2
  {
  }
}
