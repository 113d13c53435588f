/** The stride scheduler on one hart: the pick over the pool, and how far the strides of
    processes that are always runnable can drift apart. */
module Stride {
  const BIGSTRIDE := 0x7FFF_FFFF
  const WORD64 := 0x1_0000_0000_0000_0000

  datatype Proc = Proc(runnable: bool, locked: bool, stride: nat, priority: nat)

  /** What one turn adds to a stride. */
  function Pass(p: Proc): nat
    requires p.priority > 0
  {
    BIGSTRIDE / p.priority
  }

  /** The largest number that the priority divides 2^31 - 1 into. */
  lemma PassIs(p: Proc)
    requires p.priority > 0
    ensures Pass(p) * p.priority <= 0x7FFF_FFFF < (Pass(p) + 1) * p.priority
  {
    assert 0x7FFF_FFFF == Pass(p) * p.priority + 0x7FFF_FFFF % p.priority;
  }

  /** May be picked: its stride is below the largest number of 64 bits. */
  predicate Ready(p: Proc) { p.runnable && !p.locked && p.stride < WORD64 - 1 }

  /** Ready, with the least stride of all that are, and the first of those that have it. */
  ghost predicate IsPick(ps: seq<Proc>, c: nat) {
    && c < |ps| && Ready(ps[c])
    && (forall i :: 0 <= i < |ps| && Ready(ps[i]) ==> ps[c].stride <= ps[i].stride)
    && (forall i :: 0 <= i < c && Ready(ps[i]) ==> ps[c].stride < ps[i].stride)
  }

  /** What a process has been given in `turns` turns: the larger its priority, the more
      turns make up the same amount. */
  function Amount(p: Proc, turns: nat): nat { if p.priority > 0 then turns * Pass(p) else 0 }

  /** No process has been given more than the largest pass more than another. */
  ghost predicate Shared(ps: seq<Proc>, turns: seq<nat>, most: nat) {
    |ps| == |turns| && forall i, j :: 0 <= i < |ps| && 0 <= j < |ps| ==> Amount(ps[i], turns[i]) <= Amount(ps[j], turns[j]) + most
  }

  predicate Same(p: Proc, q: Proc) { p == q.(stride := p.stride) }

  ghost predicate OnlyStrides(ps: seq<Proc>, qs: seq<Proc>) {
    |ps| == |qs| && forall i :: 0 <= i < |ps| ==> Same(ps[i], qs[i])
  }

  /** A process of a set that is always runnable. */
  predicate Fair(p: Proc, most: nat) {
    p.runnable && !p.locked && p.priority > 0 && Pass(p) <= most
  }

  /** After `k` turns: strides count turns, and no stride is ahead of another by more than
      the largest pass. */
  ghost predicate Level(ps: seq<Proc>, turns: seq<nat>, start: nat, most: nat, k: nat) {
    && |ps| == |turns|
    && (forall i :: 0 <= i < |ps| ==> Fair(ps[i], most) && turns[i] <= k && ps[i].stride == start + Amount(ps[i], turns[i]))
    && forall i, j :: 0 <= i < |ps| && 0 <= j < |ps| ==> ps[i].stride <= ps[j].stride + most
  }

  function Sum(turns: seq<nat>): nat {
    if turns == [] then 0 else Sum(turns[..|turns| - 1]) + turns[|turns| - 1]
  }

  lemma {:induction false} SumNext(turns: seq<nat>, c: nat)
    requires c < |turns|
    ensures Sum(turns[c := turns[c] + 1]) == Sum(turns) + 1
  {
    var more, last := turns[c := turns[c] + 1], |turns| - 1;
    if c == last {
      assert more[..last] == turns[..last];
    } else {
      assert more[..last] == turns[..last][c := turns[c] + 1];
      SumNext(turns[..last], c);
    }
  }

  lemma NoWrap(n: nat, k: nat, most: nat)
    requires k <= n
    ensures k * most <= n * most
  {
    assert n * most == k * most + (n - k) * most;
  }

  lemma Bounded(turns: nat, k: nat, pass: nat, most: nat)
    requires turns <= k && pass <= most
    ensures turns * pass <= k * most
  {
    assert k * most == turns * pass + (k - turns) * pass + k * (most - pass);
  }

  lemma AllReady(ps: seq<Proc>, turns: seq<nat>, start: nat, most: nat, k: nat)
    requires Level(ps, turns, start, most, k) && start + k * most < WORD64 - 1
    ensures forall i :: 0 <= i < |ps| ==> Ready(ps[i]) && ps[i].priority > 0
  {
    forall i | 0 <= i < |ps|
      ensures Ready(ps[i]) && ps[i].priority > 0
    {
      assert Fair(ps[i], most);
      Bounded(turns[i], k, Pass(ps[i]), most);
    }
  }

  lemma LevelNext(ps: seq<Proc>, turns: seq<nat>, start: nat, most: nat, k: nat, c: nat)
    requires Level(ps, turns, start, most, k) && IsPick(ps, c) && start + (k + 1) * most < WORD64 - 1
    requires forall i :: 0 <= i < |ps| ==> Ready(ps[i])
    ensures ps[c].priority > 0
    ensures Level(ps[c := ps[c].(stride := (ps[c].stride + Pass(ps[c])) % WORD64)], turns[c := turns[c] + 1], start, most, k + 1)
  {
    hide Amount, Pass;
    assert Fair(ps[c], most);
    OneTurn(ps[c], turns[c], start, most, k);
  }

  /** A turn adds one pass, and the stride does not wrap. */
  lemma OneTurn(p: Proc, turns: nat, start: nat, most: nat, k: nat)
    requires Fair(p, most) && turns <= k && p.stride == start + Amount(p, turns) && start + (k + 1) * most < WORD64 - 1
    ensures p.stride + Pass(p) < WORD64 && p.stride + Pass(p) == start + Amount(p, turns + 1)
    ensures forall s: nat :: Fair(p.(stride := s), most) && Amount(p.(stride := s), turns + 1) == Amount(p, turns + 1)
  {
    Bounded(turns + 1, k + 1, Pass(p), most);
    assert (turns + 1) * Pass(p) == turns * Pass(p) + Pass(p);
  }

  lemma LevelEmpty(ps: seq<Proc>, turns: seq<nat>, start: nat, most: nat, k: nat)
    requires Level(ps, turns, start, most, k) && NoneReady(ps) && (|ps| > 0 ==> Ready(ps[0]))
    ensures Level(ps, turns, start, most, k + 1) && |ps| == 0
  {
  }

  lemma Given(ps: seq<Proc>, turns: seq<nat>, start: nat, most: nat, k: nat)
    requires Level(ps, turns, start, most, k)
    ensures Shared(ps, turns, most)
  {
    forall i, j | 0 <= i < |ps| && 0 <= j < |ps|
      ensures Amount(ps[i], turns[i]) <= Amount(ps[j], turns[j]) + most
    {
      assert ps[i].stride <= ps[j].stride + most;
    }
  }

  ghost predicate NoneReady(ps: seq<Proc>) { forall i :: 0 <= i < |ps| ==> !Ready(ps[i]) }

  class Pool {
    const procs: array<Proc>
    /** How often each process has been picked. */
    ghost var turns: seq<nat>

    constructor (procs: array<Proc>)
      ensures this.procs == procs && turns == seq(procs.Length, _ => 0)
    {
      this.procs, turns := procs, seq(procs.Length, _ => 0);
    }

    /** The scan under pool_lock; the number of processes stands for none. */
    method Pick() returns (next: nat)
      ensures next <= procs.Length && (next < procs.Length ==> IsPick(procs[..], next))
      ensures next == procs.Length ==> NoneReady(procs[..])
    {
      var least := WORD64 - 1;
      next := procs.Length;
      var i := 0;
      while i < procs.Length
        invariant i <= procs.Length && (next < i || next == procs.Length)
        invariant next == procs.Length ==> least == WORD64 - 1 && forall k :: 0 <= k < i ==> !Ready(procs[k])
        invariant next < procs.Length ==> least == procs[next].stride && IsPick(procs[..i], next)
      {
        if procs[i].runnable && !procs[i].locked {
          if procs[i].stride < least {
            least := procs[i].stride;
            next := i;
          }
        }
        i := i + 1;
      }
      assert procs[..i] == procs[..];
    }

    /** One turn: the pick runs until it yields. */
    method Turn() returns (next: nat)
      requires |turns| == procs.Length && forall i :: 0 <= i < procs.Length ==> procs[i].priority > 0
      modifies this, procs
      ensures next <= procs.Length && (next == procs.Length ==> NoneReady(procs[..]) && procs[..] == old(procs[..]) && turns == old(turns))
      ensures next < procs.Length ==> IsPick(old(procs[..]), next) && turns == old(turns)[next := old(turns)[next] + 1]
      ensures next < procs.Length ==>
        procs[..] == old(procs[..])[next := old(procs[next]).(stride := (old(procs[next]).stride + Pass(old(procs[next]))) % WORD64)]
    {
      next := Pick();
      if next < procs.Length {
        procs[next] := procs[next].(stride := (procs[next].stride + Pass(procs[next])) % WORD64);
        turns := turns[next := turns[next] + 1];
      }
    }

    /** From equal strides, any number of turns later no stride is ahead of another by more
        than the largest pass; so neither is what any two processes have been given. */
    method Run(n: nat, start: nat, most: nat)
      requires |turns| == procs.Length && Level(procs[..], turns, start, most, 0)
      requires start + n * most < WORD64 - 1
      modifies this, procs
      ensures |turns| == procs.Length && Level(procs[..], turns, start, most, n) && Shared(procs[..], turns, most)
      ensures Sum(turns) == old(Sum(turns)) + if procs.Length > 0 then n else 0
      ensures OnlyStrides(old(procs[..]), procs[..])
    {
      hide Level, Shared;
      var k := 0;
      while k < n
        invariant k <= n && |turns| == procs.Length && Level(procs[..], turns, start, most, k)
        invariant Sum(turns) == old(Sum(turns)) + if procs.Length > 0 then k else 0
        invariant OnlyStrides(old(procs[..]), procs[..])
      {
        NoWrap(n, k, most);
        NoWrap(n, k + 1, most);
        ghost var ps, ts := procs[..], turns;
        AllReady(ps, ts, start, most, k);
        var next := Turn();
        if next < procs.Length {
          LevelNext(ps, ts, start, most, k, next);
          SumNext(ts, next);
        } else {
          LevelEmpty(ps, ts, start, most, k);
        }
        k := k + 1;
      }
      Given(procs[..], turns, start, most, n);
    }
  }
}
