/** The circular doubly linked list of buffers: what it is to hold a sequence of buffers
    between a head and itself, and the two changes of links that move one. */
module LruList {
  import opened Basics
  import opened FatLayout

  datatype Buf = Buf(valid: bool, dev: nat, blockno: nat, refcnt: nat, prev: nat, next: nat, data: Sector)

  /** The node at place `i` of the list; the head, number `n`, is before and after all others. */
  function At(order: seq<nat>, n: nat, i: int): nat { if 0 <= i < |order| then order[i] else n }

  ghost predicate Hooked(bs: seq<Buf>, n: nat, order: seq<nat>, i: int)
    requires |bs| == n + 1 && Nodes(n, order)
  {
    bs[At(order, n, i)].next == At(order, n, i + 1) && bs[At(order, n, i + 1)].prev == At(order, n, i)
  }

  ghost predicate Nodes(n: nat, order: seq<nat>) {
    && (forall i :: 0 <= i < |order| ==> order[i] < n)
    && (forall i, j :: 0 <= i < j < |order| ==> order[i] != order[j])
  }

  /** Following `next` from the head visits `order`, following `prev` its reverse. */
  ghost predicate Linked(bs: seq<Buf>, n: nat, order: seq<nat>) {
    && |bs| == n + 1 && Nodes(n, order)
    && forall i :: -1 <= i < |order| ==> Hooked(bs, n, order, i)
  }

  predicate SameBut(a: Buf, b: Buf) { a == b.(next := a.next, prev := a.prev) }

  /** Nothing but links differs. */
  ghost predicate OnlyLinks(a: seq<Buf>, b: seq<Buf>) {
    |a| == |b| && forall i :: 0 <= i < |a| ==> SameBut(a[i], b[i])
  }

  /** The other way around: nothing but contents differs. */
  predicate SameLinks(a: Buf, b: Buf) { a.next == b.next && a.prev == b.prev }

  function SetNext(bs: seq<Buf>, x: nat, y: nat): seq<Buf>
    requires x < |bs|
  {
    bs[x := bs[x].(next := y)]
  }

  function SetPrev(bs: seq<Buf>, x: nat, y: nat): seq<Buf>
    requires x < |bs|
  {
    bs[x := bs[x].(prev := y)]
  }

  lemma LinkedElse(a: seq<Buf>, b: seq<Buf>, n: nat, order: seq<nat>)
    requires Linked(a, n, order) && |b| == |a| && forall i :: 0 <= i < |a| ==> SameLinks(a[i], b[i])
    ensures Linked(b, n, order)
  {
    forall i | -1 <= i < |order|
      ensures Hooked(b, n, order, i)
    {
      assert Hooked(a, n, order, i);
      assert SameLinks(a[At(order, n, i)], b[At(order, n, i)]);
      assert SameLinks(a[At(order, n, i + 1)], b[At(order, n, i + 1)]);
    }
  }

  /** `b->next->prev = b->prev; b->prev->next = b->next`. */
  function Unlink(bs: seq<Buf>, x: nat): seq<Buf>
    requires x < |bs| && bs[x].next < |bs| && bs[x].prev < |bs|
  {
    var b1 := SetPrev(bs, bs[x].next, bs[x].prev);
    if b1[x].prev < |bs| then SetNext(b1, b1[x].prev, b1[x].next) else b1
  }

  /** Taking the node at place `i` out. */
  lemma Unlinked(bs: seq<Buf>, n: nat, order: seq<nat>, i: nat)
    requires Linked(bs, n, order) && i < |order|
    ensures bs[order[i]].next <= n && bs[order[i]].prev <= n
    ensures var b2 := Unlink(bs, order[i]); Linked(b2, n, Without(order, i)) && OnlyLinks(b2, bs)
  {
    hide Hooked, Unlink, SetNext, SetPrev, At;
    UnlinkIs(bs, n, order, i);
    var rest, b2 := Without(order, i), Unlink(bs, order[i]);
    assert forall k :: 0 <= k < |rest| ==> rest[k] == order[if k < i then k else k + 1];
    forall k | -1 <= k < |rest|
      ensures Hooked(b2, n, rest, k)
    {
      UnlinkedAt(bs, n, order, i, k);
    }
  }

  lemma UnlinkIs(bs: seq<Buf>, n: nat, order: seq<nat>, i: nat)
    requires Linked(bs, n, order) && i < |order|
    ensures bs[order[i]].next <= n && bs[order[i]].prev <= n && At(order, n, i + 1) <= n && At(order, n, i - 1) <= n
    ensures Unlink(bs, order[i])
      == SetNext(SetPrev(bs, At(order, n, i + 1), At(order, n, i - 1)), At(order, n, i - 1), At(order, n, i + 1))
    ensures OnlyLinks(Unlink(bs, order[i]), bs)
  {
    assert Hooked(bs, n, order, i) && Hooked(bs, n, order, i - 1);
  }

  lemma UnlinkedAt(bs: seq<Buf>, n: nat, order: seq<nat>, i: nat, k: int)
    requires Linked(bs, n, order) && i < |order| && -1 <= k < |order| - 1
    requires Nodes(n, Without(order, i))
    ensures Hooked(SetNext(SetPrev(bs, At(order, n, i + 1), At(order, n, i - 1)), At(order, n, i - 1), At(order, n, i + 1)),
                   n, Without(order, i), k)
  {
    assert Hooked(bs, n, order, k) && Hooked(bs, n, order, k + 1);
    var rest := Without(order, i);
    assert At(rest, n, k) == At(order, n, if k < i then k else k + 1);
    assert At(rest, n, k + 1) == At(order, n, if k + 1 < i then k + 1 else k + 2);
  }

  /** `b->next = head.next; b->prev = &head; head.next->prev = b; head.next = b`. */
  function Push(bs: seq<Buf>, n: nat, x: nat): seq<Buf>
    requires |bs| == n + 1 && x < n && bs[n].next <= n
  {
    var b1 := SetPrev(SetNext(bs, x, bs[n].next), x, n);
    SetNext(SetPrev(b1, bs[n].next, x), n, x)
  }

  /** Putting a node that is not in the list in front. */
  lemma Pushed(bs: seq<Buf>, n: nat, order: seq<nat>, x: nat)
    requires Linked(bs, n, order) && x < n && x !in order
    ensures bs[n].next <= n && bs[n].next != x
    ensures var b2 := Push(bs, n, x); Linked(b2, n, [x] + order) && OnlyLinks(b2, bs)
  {
    assert Hooked(bs, n, order, -1);
    var b2, all := Push(bs, n, x), [x] + order;
    forall k | -1 <= k < |all|
      ensures Hooked(b2, n, all, k)
    {
      if k >= 1 {
        assert Hooked(bs, n, order, k - 1);
        assert At(all, n, k) == At(order, n, k - 1) && At(all, n, k + 1) == At(order, n, k);
      }
    }
  }
}
