/** The pipe: a ring of 2048 bytes between two 32-bit counters that only go up, and wrap.
    A section is what a reader or writer does from getting the lock until it returns or
    sleeps; an interleaving is any sequence of sections. */
module Pipe {
  import opened Basics
  import opened FatLayout

  const SIZE := 2048

  datatype State = State(data: seq<Byte>, nread: nat, nwrite: nat, readopen: bool, writeopen: bool)

  datatype Outcome = Returns | Sleeps | Fails

  /** `nwrite - nread` as an unsigned number. */
  function Count(s: State): nat
    requires s.nread < WORD
  {
    (s.nwrite + WORD - s.nread) % WORD
  }

  predicate Ok(s: State) { |s.data| == SIZE && s.nread < WORD && s.nwrite < WORD && Count(s) <= SIZE }

  /** The bytes in the pipe, the next to be read first. */
  function Content(s: State): (c: seq<Byte>)
    requires Ok(s)
    ensures |c| == Count(s)
  {
    seq(Count(s), k requires 0 <= k => s.data[(s.nread + k) % SIZE])
  }

  /** How much of `n` bytes a writer that may write gets in. */
  function Room(s: State, n: nat): nat
    requires Ok(s)
  {
    Least(n, SIZE - Count(s))
  }

  /** The array after `bytes` have gone in at the writing end. */
  function Filled(s: State, bytes: seq<Byte>): seq<Byte>
    requires Ok(s)
  {
    seq(SIZE, x requires 0 <= x < SIZE =>
      if (x + SIZE - s.nwrite % SIZE) % SIZE < |bytes| then bytes[(x + SIZE - s.nwrite % SIZE) % SIZE] else s.data[x])
  }

  function Put(s: State, bytes: seq<Byte>): State
    requires Ok(s)
  {
    s.(data := Filled(s, bytes), nwrite := (s.nwrite + |bytes|) % WORD)
  }

  function Taken(s: State, n: nat): State
    requires Ok(s)
  {
    s.(nread := (s.nread + n) % WORD)
  }

  /** Bytes put in come after those in the pipe, across the wrap of the counter and of the
      array. */
  lemma PutContent(s: State, bytes: seq<Byte>)
    requires Ok(s) && Count(s) + |bytes| <= SIZE
    ensures Ok(Put(s, bytes)) && Content(Put(s, bytes)) == Content(s) + bytes
  {
    var s' := Put(s, bytes);
    Counted(s.nread, s.nwrite, Count(s), |bytes|);
    forall k | 0 <= k < Count(s')
      ensures Content(s')[k] == (Content(s) + bytes)[k]
    {
      PlaceOf(s.nread, s.nwrite, Count(s), k);
    }
  }

  /** Byte `k` of the pipe in terms of the writing end. */
  lemma PlaceOf(r: nat, w: nat, n: nat, k: nat)
    requires r < WORD && w < WORD && n <= SIZE && k < SIZE && n == (w + WORD - r) % WORD
    ensures ((r + k) % SIZE + SIZE - w % SIZE) % SIZE == if k < n then k + SIZE - n else k - n
  {
    assert w == r + n || w == r + n - WORD;
    assert w % SIZE == (r + n) % SIZE;
    AddMod(r, n);
    AddMod(r, k);
    Reduce((r + k) % SIZE + SIZE - w % SIZE);
  }

  lemma AddMod(x: nat, k: nat)
    requires k <= SIZE
    ensures (x + k) % SIZE == if x % SIZE + k < SIZE then x % SIZE + k else x % SIZE + k - SIZE
  {
  }

  lemma Reduce(x: nat)
    requires x < 2 * SIZE
    ensures x % SIZE == if x < SIZE then x else x - SIZE
  {
  }

  lemma Counted(r: nat, w: nat, n: nat, m: nat)
    requires r < WORD && w < WORD && n + m <= SIZE && n == (w + WORD - r) % WORD
    ensures ((w + m) % WORD + WORD - r) % WORD == n + m
  {
    assert w == r + n || w == r + n - WORD;
  }

  lemma Uncounted(r: nat, w: nat, n: nat, m: nat)
    requires r < WORD && w < WORD && m <= n <= SIZE && n == (w + WORD - r) % WORD
    ensures (w + WORD - (r + m) % WORD) % WORD == n - m
  {
    assert w == r + n || w == r + n - WORD;
  }

  lemma SamePlace(r: nat, n: nat, k: nat)
    requires r < WORD && n <= SIZE && k <= SIZE
    ensures ((r + n) % WORD + k) % SIZE == (r + (n + k)) % SIZE
  {
    assert (r + n) % WORD == r + n || (r + n) % WORD == r + n - WORD;
  }

  lemma TakenContent(s: State, n: nat)
    requires Ok(s) && n <= Count(s)
    ensures Ok(Taken(s, n)) && Content(s) == Content(s)[..n] + Content(Taken(s, n))
  {
    var s' := Taken(s, n);
    Uncounted(s.nread, s.nwrite, Count(s), n);
    forall k | 0 <= k < Count(s')
      ensures Content(s')[k] == Content(s)[n + k]
    {
      SamePlace(s.nread, n, k);
    }
  }

  // ----- sections ---------------------------------------------------------------------------

  /** `k0` and `k1` say whether the process is marked killed when it looks for the first and
      for the second time. */
  datatype Section =
    | Write(left: seq<Byte>, k0: bool, k1: bool)
    | Read(n: nat, k0: bool)
    | Close(writable: bool)

  /** How many bytes a section of `pipewrite` puts in. */
  function Accepts(s: State, x: Section): (m: nat)
    requires Ok(s)
    ensures x.Write? ==> m <= |x.left| && Count(s) + m <= SIZE
  {
    if x.Write? && s.readopen && !x.k0 then Room(s, |x.left|) else 0
  }

  /** How many bytes a section of `piperead` takes out. */
  function Delivers(s: State, x: Section): (m: nat)
    requires Ok(s)
    ensures m <= Count(s)
  {
    if x.Read? then Least(x.n, Count(s)) else 0
  }

  function In(s: State, x: Section): seq<Byte>
    requires Ok(s)
  {
    if x.Write? then x.left[..Accepts(s, x)] else []
  }

  function Out(s: State, x: Section): seq<Byte>
    requires Ok(s)
  {
    Content(s)[..Delivers(s, x)]
  }

  function Next(s: State, x: Section): State
    requires Ok(s)
  {
    match x
    case Write(_, _, _) => Put(s, In(s, x))
    case Read(_, _) => Taken(s, Delivers(s, x))
    case Close(writable) => if writable then s.(writeopen := false) else s.(readopen := false)
  }

  /** A writer returns when all is in, fails when it may not go on, and otherwise sleeps with
      the pipe full; a reader sleeps only when it is empty and a writer may come. */
  function Result(s: State, x: Section): Outcome
    requires Ok(s)
  {
    match x
    case Write(left, k0, k1) =>
      if left == [] then Returns
      else if !s.readopen || k0 then Fails
      else if Accepts(s, x) == |left| then Returns
      else if Accepts(s, x) > 0 && k1 then Fails
      else Sleeps
    case Read(_, k0) => if Count(s) > 0 || !s.writeopen then Returns else if k0 then Fails else Sleeps
    case Close(_) => Returns
  }

  lemma PutNothing(s: State)
    requires Ok(s)
    ensures Put(s, []) == s
  {
  }

  lemma WhenFull(r: nat, w: nat)
    requires r < WORD && w < WORD
    ensures w == (r + SIZE) % WORD <==> (w + WORD - r) % WORD == SIZE
  {
  }

  lemma FilledOn(s: State, bytes: seq<Byte>, j: nat)
    requires Ok(s) && j < |bytes| && |bytes| <= SIZE
    ensures Filled(s, bytes[..j + 1]) == Filled(s, bytes[..j])[(s.nwrite + j) % WORD % SIZE := bytes[j]]
  {
    var p := (s.nwrite + j) % WORD % SIZE;
    var b := s.nwrite % SIZE;
    assert p == (s.nwrite + j) % SIZE;
    AddMod(s.nwrite, j);
    var before, after := Filled(s, bytes[..j]), Filled(s, bytes[..j + 1]);
    forall x | 0 <= x < SIZE
      ensures after[x] == before[p := bytes[j]][x]
    {
      Reduce(x + SIZE - b);
    }
  }

  /** The first turn of a writer has put in all it could: more to write means a full pipe. */
  ghost predicate Accepted(s: State, s': State, src: seq<Byte>, i: nat, i': nat, k0: bool, k1: bool)
    requires Ok(s) && Ok(s')
  {
    && i < i' <= |src| && s.readopen && !k0 && (i' < |src| ==> Count(s') == SIZE)
    && i' == i + Accepts(s, Write(src[i..], k0, k1)) && s' == Next(s, Write(src[i..], k0, k1))
  }

  lemma TakeOne(s: State, i: nat)
    requires Ok(s) && i < Count(s)
    ensures s.data[Taken(s, i).nread % SIZE] == Content(s)[i]
    ensures (Taken(s, i).nread + 1) % WORD == Taken(s, i + 1).nread
    ensures Content(s)[..i + 1] == Content(s)[..i] + [Content(s)[i]]
  {
    SamePlace(s.nread, i, 0);
    NextCounter(s.nread, i);
  }

  lemma NextCounter(r: nat, i: nat)
    requires r < WORD && i < SIZE
    ensures ((r + i) % WORD + 1) % WORD == (r + (i + 1)) % WORD
  {
  }

  class Pipe {
    const data: array<Byte>
    var nread: nat
    var nwrite: nat
    var readopen: bool
    var writeopen: bool

    function Value(): State
      reads this, data
    {
      State(data[..], nread, nwrite, readopen, writeopen)
    }

    ghost predicate Valid()
      reads this, data
    {
      Ok(Value())
    }

    constructor ()
      ensures Valid() && fresh(data) && Content(Value()) == [] && readopen && writeopen
    {
      data := new Byte[SIZE](_ => 0);
      readopen, writeopen, nwrite, nread := true, true, 0, 0;
    }

    method PipeClose(writable: bool)
      requires Valid()
      modifies this
      ensures Valid() && Value() == Next(old(Value()), Close(writable))
    {
      if writable {
        writeopen := false;
      } else {
        readopen := false;
      }
    }

    /** Copy bytes in at the writing end. */
    method Store(bytes: seq<Byte>)
      requires Valid() && Count(Value()) + |bytes| <= SIZE
      modifies this`nwrite, data
      ensures Valid() && Value() == Put(old(Value()), bytes)
    {
      ghost var s := Value();
      PutContent(s, bytes);
      var j := 0;
      while j < |bytes|
        invariant j <= |bytes| && data[..] == Filled(s, bytes[..j])
        modifies data
      {
        FilledOn(s, bytes, j);
        data[(nwrite + j) % WORD % SIZE] := bytes[j];
        j := j + 1;
      }
      assert bytes[..j] == bytes;
      nwrite := (nwrite + |bytes|) % WORD;
    }

    /** From getting the lock, at first or after a sleep, on; `i` bytes of `src` are in. */
    method PipeWrite(src: seq<Byte>, i: nat, k0: bool, k1: bool) returns (i': nat, out: Outcome)
      requires Valid() && i <= |src|
      modifies this`nwrite, data
      ensures var x := Write(src[i..], k0, k1);
        && Valid() && Value() == Next(old(Value()), x) && out == Result(old(Value()), x)
        && i' == i + |In(old(Value()), x)|
    {
      ghost var s := Value();
      i' := i;
      var first := true;
      PutNothing(s);
      while i' < |src|
        invariant i <= i' <= |src| && Valid()
        invariant first ==> i' == i && Value() == s
        invariant !first ==> Accepted(s, Value(), src, i, i', k0, k1)
        decreases |src| - i'
      {
        if !readopen || (if first then k0 else k1) {
          return i', Fails;
        }
        WhenFull(nread, nwrite);
        if nwrite == (nread + SIZE) % WORD {
          return i', Sleeps;
        }
        var size := Least(|src| - i', SIZE - (nwrite + WORD - nread) % WORD);
        PutContent(s, src[i..i + size]);
        assert src[i..][..size] == src[i..i + size];
        Store(src[i'..i' + size]);
        i' := i' + size;
        first := false;
      }
      out := Returns;
    }

    /** From getting the lock, at first or after a sleep, on. */
    method PipeRead(n: nat, k0: bool) returns (buf: seq<Byte>, out: Outcome)
      requires Valid()
      modifies this`nread
      ensures Valid() && Value() == Next(old(Value()), Read(n, k0)) && out == Result(old(Value()), Read(n, k0))
      ensures buf == Out(old(Value()), Read(n, k0))
    {
      buf := [];
      if nread == nwrite && writeopen {
        return buf, if k0 then Fails else Sleeps;
      }
      ghost var s := Value();
      var size := Least(n, (nwrite + WORD - nread) % WORD);
      var i := 0;
      while i < size
        invariant i <= size && nread == Taken(s, i).nread && buf == Content(s)[..i]
        modifies this`nread
      {
        TakeOne(s, i);
        buf := buf + [data[nread % SIZE]];
        nread := (nread + 1) % WORD;
        i := i + 1;
      }
      TakenContent(s, size);
      out := Returns;
    }

    /** `pipe_readable`, which compares the counters as they are. */
    method PipeReadable() returns (yes: bool)
      requires Valid()
      ensures yes == (nread < nwrite)
    {
      yes := nread < nwrite;
    }

    method PipeWriteable() returns (yes: bool)
      requires Valid()
      ensures yes == (Count(Value()) < SIZE)
    {
      WhenFull(nread, nwrite);
      yes := nwrite != (nread + SIZE) % WORD;
    }
  }

  /** It is right when, and only when, the writing counter has not wrapped before the other. */
  lemma ReadableRight(s: State)
    requires Ok(s)
    ensures ((s.nread < s.nwrite) <==> Content(s) != []) <==> s.nread <= s.nwrite
  {
  }

  /** A pipe with one byte in it that it does not report: the writing counter has wrapped. */
  lemma ReadableWrong()
    ensures var s := State(seq(SIZE, _ => 0), WORD - 1, 0, true, true);
      Ok(s) && Content(s) == [0] && !(s.nread < s.nwrite)
  {
    var s := State(seq(SIZE, _ => 0), WORD - 1, 0, true, true);
    assert Count(s) == 1;
  }

  // ----- every interleaving -----------------------------------------------------------------

  /** The pipe after sections of any readers, writers and closers, what they put in, and what
      they got out. */
  function After(s: State, xs: seq<Section>): State
    requires Ok(s)
    decreases |xs|
  {
    if xs == [] then s else NextOk(s, xs[0]); After(Next(s, xs[0]), xs[1..])
  }

  function AllIn(s: State, xs: seq<Section>): seq<Byte>
    requires Ok(s)
    decreases |xs|
  {
    if xs == [] then [] else NextOk(s, xs[0]); In(s, xs[0]) + AllIn(Next(s, xs[0]), xs[1..])
  }

  function AllOut(s: State, xs: seq<Section>): seq<Byte>
    requires Ok(s)
    decreases |xs|
  {
    if xs == [] then [] else NextOk(s, xs[0]); Out(s, xs[0]) + AllOut(Next(s, xs[0]), xs[1..])
  }

  /** What was in and what goes in is what comes out and what is left, in order. */
  lemma NextOk(s: State, x: Section)
    requires Ok(s)
    ensures Ok(Next(s, x)) && Content(s) + In(s, x) == Out(s, x) + Content(Next(s, x))
  {
    match x
    case Write(_, _, _) => PutContent(s, In(s, x));
    case Read(n, _) => TakenContent(s, Delivers(s, x));
    case Close(_) =>
      assert Content(s) == Content(Next(s, x));
  }

  /** In every interleaving the bytes read, then those in the pipe, are the bytes written, in
      order, and never more than the array holds are in the pipe. */
  lemma {:induction false} BytesInOrder(s: State, xs: seq<Section>)
    requires Ok(s)
    ensures Ok(After(s, xs))
    ensures Content(s) + AllIn(s, xs) == AllOut(s, xs) + Content(After(s, xs))
    decreases |xs|
  {
    if xs == [] {
    } else {
      var x := xs[0];
      NextOk(s, x);
      var s1 := Next(s, x);
      BytesInOrder(s1, xs[1..]);
      Chain(Content(s), In(s, x), Out(s, x), Content(s1), AllIn(s1, xs[1..]), AllOut(s1, xs[1..]), Content(After(s1, xs[1..])));
    }
  }

  lemma Chain(c: seq<Byte>, i: seq<Byte>, o: seq<Byte>, c1: seq<Byte>, i1: seq<Byte>, o1: seq<Byte>, c2: seq<Byte>)
    requires c + i == o + c1 && c1 + i1 == o1 + c2
    ensures c + (i + i1) == o + o1 + c2
  {
    assert c + (i + i1) == o + c1 + i1;
    assert o + c1 + i1 == o + (c1 + i1);
  }

  /** A section that sleeps could have done nothing: the pipe is full, or empty with a writer
      still there. */
  lemma SleepsOnlyWhenStuck(s: State, x: Section)
    requires Ok(s) && Result(s, x).Sleeps?
    ensures Ok(Next(s, x))
    ensures x.Write? ==> Count(Next(s, x)) == SIZE && Accepts(s, x) < |x.left|
    ensures x.Read? ==> Content(s) == [] && s.writeopen && Next(s, x) == s
  {
    NextOk(s, x);
  }
}
