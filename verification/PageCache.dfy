/** The page cache over the files of the file system: the list of cached pages by recency,
    acquiring a page with eviction, and reading and writing a file through it. */
module PageCache {
  import opened Basics
  import opened FatLayout
  import opened PageState

  const NONE := -1

  /** `lru` holds `list` and then no more. */
  ghost predicate Lists(lru: seq<int>, list: seq<nat>) {
    |list| <= |lru| && forall i :: 0 <= i < |lru| ==> lru[i] == if i < |list| then list[i] else NONE
  }

  ghost predicate Distinct(list: seq<nat>) {
    forall i, j :: 0 <= i < j < |list| ==> list[i] != list[j]
  }

  /** The list is exactly the valid pages, those acquired later in front. */
  ghost predicate Recent(list: seq<nat>, es: seq<Entry>, used: seq<nat>, now: nat) {
    && |used| == |es| && Distinct(list)
    && (forall c :: 0 <= c < |es| ==> (es[c].valid <==> c in list) && used[c] < now)
    && (forall i :: 0 <= i < |list| ==> list[i] < |es|)
    && forall i, j :: 0 <= i < j < |list| && list[i] < |es| && list[j] < |es| ==> used[list[i]] > used[list[j]]
  }

  lemma ShiftedOut(was: seq<int>, lru: seq<int>, list: seq<nat>, i: nat)
    requires Lists(was, list) && i < |list| && |was| == |lru| && lru[|lru| - 1] == NONE
    requires (forall k :: 0 <= k < i ==> lru[k] == was[k]) && forall k :: i <= k < |lru| - 1 ==> lru[k] == was[k + 1]
    ensures Lists(lru, Without(list, i))
  {
  }

  lemma ShiftedIn(was: seq<int>, lru: seq<int>, list: seq<nat>, c: nat)
    requires Lists(was, list) && |list| < |was| == |lru| && lru[0] == c
    requires forall k :: 0 < k < |lru| ==> lru[k] == was[k - 1]
    ensures Lists(lru, [c] + list)
  {
  }

  predicate SaysAll(p: seq<Told>, bytes: seq<Byte>) {
    |p| == |bytes| && forall k :: 0 <= k < |p| ==> Says(p[k], bytes[k])
  }

  lemma FirstBytes(page: Page, s: seq<Byte>, offset: nat, m: nat)
    requires offset + m <= |s| && m <= 4096 && page[..m] == s[offset..offset + m] && (m < 4096 ==> offset + m == |s|)
    ensures IsLoad(page, s, offset)
  {
    forall k | 0 <= k < 4096 && offset + k < |s|
      ensures page[k] == s[offset + k]
    {
      assert page[k] == page[..m][k];
    }
  }

  lemma SizeOf(es: seq<Entry>, files: seq<seq<Byte>>, plain: seq<seq<Told>>, f: nat)
    requires Agree(es, files, plain)
    ensures |files| == |plain| && (f < |files| ==> |files[f]| == |plain[f]|)
  {
  }

  /** How much of `n` bytes at `off` a file of `size` bytes has, as `readi` computes it. */
  function ReadLength(size: nat, off: nat, n: nat): nat
    requires off < size
  {
    if size < (off + n) % WORD then size - off else n
  }

  /** It does when, and only when, the end of the stretch is a number of 32 bits. */
  lemma ReadLengthRight(size: nat, off: nat, n: nat)
    requires off < size < WORD && n < WORD
    ensures ReadLength(size, off, n) == Least(n, size - off) <==> off + n < WORD
  {
  }

  /** So a read of a file of two bytes from its second on can have nearly 4 GiB. */
  lemma ReadLengthWrong()
    ensures ReadLength(2, 1, 0xFFFF_FFFF) == 0xFFFF_FFFF && Least(0xFFFF_FFFF, 2 - 1) == 1
  {
  }

  /** These bytes are those of the file from `at` on, as far as it goes. */
  predicate SaysAt(p: seq<Told>, at: nat, bytes: seq<Byte>) {
    forall k :: 0 <= k < |bytes| && at + k < |p| ==> Says(p[at + k], bytes[k])
  }

  /** The bytes a page gives are those the file should have. */
  lemma PageSays(e: Entry, plain: seq<seq<Told>>, at: nat, m: nat)
    requires PageOk(e, plain) && e.valid && e.offset <= at && at + m <= e.offset + 4096
    ensures SaysAt(plain[e.host], at, e.page[at - e.offset..at - e.offset + m])
  {
    var p, bytes := plain[e.host], e.page[at - e.offset..at - e.offset + m];
    forall k | 0 <= k < |bytes| && at + k < |p|
      ensures Says(p[at + k], bytes[k])
    {
      assert Says(p[e.offset + (at - e.offset + k)], e.page[at - e.offset + k]);
    }
  }

  /** The `n` bytes from `off` on, with positions of 32 bits: behind the last there is the
      first, and what the file does not have is unspecified. */
  function Around(p: seq<Told>, off: nat, n: nat): (q: seq<Told>)
    ensures |q| == n
  {
    seq(n, k requires 0 <= k < n => var x := (off + k) % WORD; if x < |p| then p[x] else Unspecified)
  }

  /** Within the file these are just its bytes. */
  lemma AroundWithin(p: seq<Told>, off: nat, n: nat)
    requires off + n <= |p| < WORD
    ensures Around(p, off, n) == p[off..off + n]
  {
  }

  /** `n` bytes from `off` on have been read, the rest of the destination is as it was. */
  ghost predicate ReadFrom(p: seq<Told>, off: nat, n: nat, was: seq<Byte>, dst: seq<Byte>) {
    n <= |dst| == |was| && dst[n..] == was[n..] && SaysAll(Around(p, off, n), dst[..n])
  }

  /** A page more.  The file may have become longer meanwhile. */
  lemma ReadOn(p: seq<Told>, p': seq<Told>, off: nat, done: nat, at: nat, m: nat, was: seq<Byte>, mid: seq<Byte>, dst: seq<Byte>)
    requires ReadFrom(p, off, done, was, mid) && |mid| == |dst| && done + m <= |dst| && p <= p'
    requires at == (off + done) % WORD && at + m <= WORD
    requires mid[..done] == dst[..done] && mid[done + m..] == dst[done + m..]
    requires SaysAt(p', at, dst[done..done + m])
    ensures ReadFrom(p, off, done + m, was, dst)
  {
    forall k | 0 <= k < done + m
      ensures Says(Around(p, off, done + m)[k], dst[k])
    {
      if k < done {
        assert mid[..done][k] == dst[..done][k] && Says(Around(p, off, done)[k], mid[..done][k]);
      } else {
        NextAround(off, done, at, k - done);
        assert dst[done..done + m][k - done] == dst[k];
      }
    }
    forall k | done + m <= k < |dst|
      ensures dst[k] == was[k]
    {
      assert mid[done + m..][k - done - m] == dst[done + m..][k - done - m];
      assert mid[done..][k - done] == was[done..][k - done];
    }
  }

  lemma NextAround(off: nat, done: nat, at: nat, k: nat)
    requires at == (off + done) % WORD && at + k < WORD
    ensures (off + (done + k)) % WORD == at + k
  {
  }

  /** The page up to whose begin a file is extended by reading. */
  function Reached(off: nat, done: nat): nat
    requires off < WORD
  {
    LastBase(off, Least(done, WORD - off))
  }

  lemma ReadNone(p: seq<Told>, off: nat, dst: seq<Byte>)
    requires off < WORD
    ensures ReadFrom(p, off, 0, dst, dst) && Reached(off, 0) == 0
  {
  }

  lemma LongerMeans(p: seq<Told>, size: nat)
    ensures p <= Longer(p, size) && |Longer(p, size)| == if size <= |p| then |p| else size
    ensures size <= |p| ==> Longer(p, size) == p
  {
  }

  lemma ReadWithin(p: seq<Told>, off: nat, n: nat)
    requires off < |p| < WORD && n < WORD
    ensures ReadLength(|p|, off, n) <= n
    ensures off + n < WORD ==> ReadLength(|p|, off, n) == Least(n, |p| - off)
    ensures off + n < WORD ==> Longer(p, Reached(off, ReadLength(|p|, off, n))) == p
  {
    ReadLengthRight(|p|, off, n);
    if off + n < WORD {
      assert Reached(off, ReadLength(|p|, off, n)) <= |p|;
    }
  }

  lemma NextReached(p: seq<Told>, off: nat, done: nat, m: nat)
    requires off < WORD && 0 < m
    requires var at := (off + done) % WORD; m <= 4096 - at % 4096 && off + done < 2 * WORD
    ensures Longer(Longer(p, Reached(off, done)), (off + done) % WORD / 4096 * 4096) == Longer(p, Reached(off, done + m))
  {
    var base := (off + done) % WORD / 4096 * 4096;
    ReachedBases(off, done, m);
    hide Reached, Longer;
    if off + done < WORD {
      LongerTwice(p, Reached(off, done), base);
    } else {
      LongerMeans(Longer(p, Reached(off, done)), base);
      LongerMeans(p, Reached(off, done));
    }
  }

  lemma ReachedBases(off: nat, done: nat, m: nat)
    requires off < WORD && 0 < m && off + done < 2 * WORD && m <= 4096 - (off + done) % WORD % 4096
    ensures off + done < WORD ==> Reached(off, done) <= (off + done) % WORD / 4096 * 4096 == Reached(off, done + m)
    ensures off + done >= WORD ==>
      Reached(off, done) == WORD - 4096 == Reached(off, done + m) && (off + done) % WORD / 4096 * 4096 <= WORD - 4096
  {
    if off + done < WORD {
      Bases(off, done, m);
    } else {
      assert LastBase(off, WORD - off) == WORD - 4096;
    }
  }

  /** The next page follows the one just left. */
  lemma NextAt(off: nat, done: nat, m: nat)
    requires off < WORD && off + done < 2 * WORD
    ensures var at := (off + done) % WORD;
      m == 4096 - at % 4096 ==> (off + done + m) % WORD == (at / 4096 * 4096 + 4096) % WORD
  {
    var at := (off + done) % WORD;
    if m == 4096 - at % 4096 {
      assert at + m == at / 4096 * 4096 + 4096 <= WORD;
      if off + done < WORD {
        assert off + done + m == at + m;
      } else {
        assert off + done + m == at + m + WORD;
      }
    }
  }

  /** A cached page does not begin past the end. */
  lemma CachedWithin(es: seq<Entry>, files: seq<seq<Byte>>, plain: seq<seq<Told>>, c: nat)
    requires Agree(es, files, plain) && c < |es| && es[c].valid
    ensures es[c].host < |plain| && Longer(plain[es[c].host], es[c].offset) == plain[es[c].host]
  {
    assert PageOk(es[c], plain);
  }

  lemma PastedNone(p: seq<Told>, off: nat, src: seq<Byte>)
    requires off < WORD && |src| < WORD
    ensures Pasted(p, off, src, 0) == p
  {
    assert src[..0] == [];
  }

  /** What was written is what is read at the same place. */
  lemma ReadBack(p: seq<Told>, off: nat, src: seq<Byte>, was: seq<Byte>, dst: seq<Byte>)
    requires ReadFrom(Patched(p, off, src), off, |src|, was, dst) && off + |src| < WORD
    ensures dst[..|src|] == src
  {
    var q := Patched(p, off, src);
    forall k | 0 <= k < |src|
      ensures dst[k] == src[k]
    {
      assert Says(Around(q, off, |src|)[k], dst[..|src|][k]);
    }
  }

  /** A write leaves every other byte of the file what it was. */
  lemma ReadElsewhere(p: seq<Told>, off: nat, src: seq<Byte>, x: nat)
    requires x < |p| && !(off <= x < off + |src|)
    ensures Patched(p, off, src)[x] == p[x]
  {
  }

  ghost predicate AllValid(es: seq<Entry>) { forall d :: 0 <= d < |es| ==> es[d].valid }

  /** What acquiring a page does to the list. */
  ghost predicate Turned(was: seq<nat>, list: seq<nat>, c: nat, hit: bool, full: bool) {
    if hit then exists i :: 0 <= i < |was| && was[i] == c && list == [c] + Without(was, i)
    else if full then |was| > 0 && list == [c] + was[..|was| - 1]
    else list == [c] + was
  }

  lemma StillNotCached(was: seq<Entry>, es: seq<Entry>, d: nat, f: nat, offset: nat)
    requires d < |was| && es == was[d := EMPTY] && !Cached(was, f, offset)
    ensures !Cached(es, f, offset)
  {
    forall c | 0 <= c < |es|
      ensures !Caches(es[c], f, offset)
    {
      assert !Caches(was[c], f, offset);
    }
  }

  /** The numbers below `n` but for `c`. */
  function Others(n: nat, c: nat): (s: set<nat>)
    ensures forall d: nat :: d in s <==> d < n && d != c
    ensures |s| == if c < n then n - 1 else n
  {
    if n == 0 then {} else if n - 1 == c then Others(n - 1, c) else Others(n - 1, c) + {n - 1}
  }

  /** Fewer entries are listed than there are, if one is not. */
  lemma {:induction false} HasRoom(list: seq<nat>, all: set<nat>, n: nat)
    requires Distinct(list) && (forall i :: 0 <= i < |list| ==> list[i] in all) && |all| == n
    ensures |list| <= n
  {
    if list != [] {
      var last := list[|list| - 1];
      HasRoom(list[..|list| - 1], all - {last}, n - 1);
    }
  }

  lemma AddedIsRecent(list: seq<nat>, es: seq<Entry>, used: seq<nat>, now: nat, c: nat, e: Entry)
    requires Recent(list, es, used, now) && c < |es| && !es[c].valid && e.valid
    ensures |list| < |es| == |used| && Recent([c] + list, es[c := e], used[c := now], now + 1)
  {
    assert c !in list;
    HasRoom(list, Others(|es|, c), |es| - 1);
  }

  lemma TouchedIsRecent(list: seq<nat>, es: seq<Entry>, used: seq<nat>, now: nat, c: nat)
    requires Recent(list, es, used, now) && c < |es| && es[c].valid
    ensures c in list && |used| == |es| && Distinct(list)
    ensures forall i :: 0 <= i < |list| && list[i] == c ==> Recent([c] + Without(list, i), es, used[c := now], now + 1)
  {
    forall i | 0 <= i < |list| && list[i] == c
      ensures Recent([c] + Without(list, i), es, used[c := now], now + 1)
    {
      RemovedIsRecent(list, es, used, now, i);
      AddedIsRecent(Without(list, i), es[c := EMPTY], used, now, c, es[c]);
      assert es[c := EMPTY][c := es[c]] == es;
    }
  }

  lemma WithoutFalls(list: seq<nat>, used: seq<nat>, i: nat)
    requires Distinct(list) && i < |list| && (forall k :: 0 <= k < |list| ==> list[k] < |used|)
    requires forall i, j :: 0 <= i < j < |list| && list[i] < |used| && list[j] < |used| ==> used[list[i]] > used[list[j]]
    ensures Distinct(Without(list, i)) && list[i] !in Without(list, i)
    ensures var r := Without(list, i);
      forall k, l :: 0 <= k < l < |r| && r[k] < |used| && r[l] < |used| ==> used[r[k]] > used[r[l]]
  {
    var r := Without(list, i);
    assert forall k :: 0 <= k < |r| ==> r[k] == list[if k < i then k else k + 1];
  }

  lemma RemovedIsRecent(list: seq<nat>, es: seq<Entry>, used: seq<nat>, now: nat, i: nat)
    requires Recent(list, es, used, now) && i < |list|
    ensures list[i] < |es| && es[list[i]].valid && Recent(Without(list, i), es[list[i] := EMPTY], used, now)
  {
    var c, rest := list[i], Without(list, i);
    assert c in list && es[c].valid;
    WithoutFalls(list, used, i);
    StillListed(list, i);
    hide Without, Distinct;
    assert forall d :: 0 <= d < |es| ==> (es[c := EMPTY][d].valid <==> d in rest);
  }

  lemma StillListed(list: seq<nat>, i: nat)
    requires Distinct(list) && i < |list|
    ensures forall d :: d in Without(list, i) <==> d in list && d != list[i]
  {
    var rest := Without(list, i);
    forall d | d in list && d != list[i]
      ensures d in rest
    {
      var k :| 0 <= k < |list| && list[k] == d;
      assert rest[if k < i then k else k - 1] == d;
    }
    forall d | d in rest
      ensures d in list && d != list[i]
    {
      var k :| 0 <= k < |rest| && rest[k] == d;
      assert d == list[if k < i then k else k + 1];
    }
  }

  lemma RemovedEach(list: seq<nat>, es: seq<Entry>, used: seq<nat>, now: nat, c: nat)
    requires Recent(list, es, used, now) && c < |es| && es[c].valid
    ensures c in list
    ensures forall i :: 0 <= i < |list| && list[i] == c ==> Recent(Without(list, i), es[c := EMPTY], used, now)
  {
    forall i | 0 <= i < |list| && list[i] == c
      ensures Recent(Without(list, i), es[c := EMPTY], used, now)
    {
      RemovedIsRecent(list, es, used, now, i);
    }
  }

  /** A file without a cached page is on the disk as it should be. */
  lemma NothingDirty(es: seq<Entry>, files: seq<seq<Byte>>, plain: seq<seq<Told>>, f: nat)
    requires Agree(es, files, plain) && f < |files| && forall c :: 0 <= c < |es| ==> !es[c].valid || es[c].host != f
    ensures f < |plain| && SaysAll(plain[f], files[f])
  {
    forall x | 0 <= x < |plain[f]|
      ensures Says(plain[f][x], files[f][x])
    {
      assert FileOk(es, files, plain, f, x);
    }
  }

  lemma SameValidity(list: seq<nat>, es: seq<Entry>, es': seq<Entry>, used: seq<nat>, now: nat)
    requires Recent(list, es, used, now) && |es| == |es'| && forall c :: 0 <= c < |es| ==> es[c].valid == es'[c].valid
    ensures Recent(list, es', used, now)
  {
  }

  /** What the pages so far have made of a file that was `p`, `done` bytes from `off` on having
      been written: a page past the end extends the file to where it begins, and the bytes
      behind the end are lost.  Positions have 32 bits, so that the last page is followed by
      the first. */
  function Pasted(p: seq<Told>, off: nat, src: seq<Byte>, done: nat): seq<Told>
    requires off < WORD && done <= |src| < WORD
  {
    if off + done <= WORD then Longer(Overlaid(p, off, src[..done]), LastBase(off, done))
    else Overlaid(Pasted(p, off, src, WORD - off), 0, src[WORD - off..done])
  }

  /** Where the last page touched by `done` bytes from `off` on begins. */
  function LastBase(off: nat, done: nat): nat { if done == 0 then 0 else (off + done - 1) / 4096 * 4096 }

  /** What `writei` makes of a file.  It extends the file to the end of the stretch as 32 bits
      have it. */
  function AfterWrite(p: seq<Told>, off: nat, src: seq<Byte>): seq<Told>
    requires off < WORD && |src| < WORD
  {
    Pasted(Longer(p, (off + |src|) % WORD), off, src, |src|)
  }

  /** That is what a write should make of it if and only if the end of the stretch is a number
      of 32 bits. */
  lemma WriteRight(p: seq<Told>, off: nat, src: seq<Byte>)
    requires off < WORD && |src| < WORD && |p| < WORD
    ensures AfterWrite(p, off, src) == Patched(p, off, src) <==> off + |src| < WORD
    ensures |AfterWrite(p, off, src)| < WORD
  {
    var p1 := Longer(p, (off + |src|) % WORD);
    PastedSize(p1, off, src, |src|);
    if off + |src| < WORD {
      assert src[..|src|] == src;
      assert Longer(Overlaid(p1, off, src), LastBase(off, |src|)) == Overlaid(p1, off, src);
    }
  }

  lemma PastedSize(p: seq<Told>, off: nat, src: seq<Byte>, done: nat)
    requires off < WORD && done <= |src| < WORD
    ensures |Pasted(p, off, src, done)| == if |p| < Reached(off, done) then Reached(off, done) else |p|
    ensures Reached(off, done) < WORD && (off + done >= WORD ==> Reached(off, done) == WORD - 4096)
  {
    if off + done >= WORD {
      assert LastBase(off, WORD - off) == WORD - 4096;
    }
  }

  /** Two pages at the end of 4 GiB into an empty file: nothing of the first is kept, and the
      second goes to the front. */
  lemma WriteWrong(src: seq<Byte>)
    requires |src| == 8192
    ensures var p := AfterWrite([], WORD - 4096, src); |p| == WORD - 4096 && p[0] == Told(src[4096])
  {
    PastedSize(Longer([], 4096), WORD - 4096, src, 8192);
  }

  /** The next page. */
  lemma PasteOn(p: seq<Told>, off: nat, src: seq<Byte>, done: nat, m: nat)
    requires off < WORD && done + m <= |src| < WORD && m > 0
    requires var at := (off + done) % WORD; m <= 4096 - at % 4096
    ensures var at := (off + done) % WORD;
      Overlaid(Longer(Pasted(p, off, src, done), at / 4096 * 4096), at, src[done..done + m]) == Pasted(p, off, src, done + m)
  {
    hide Pasted, Longer, Overlaid;
    if off + done < WORD {
      PasteFirst(p, off, src, done, m);
    } else {
      PasteAgain(p, off, src, done, m);
    }
  }

  /** Where a page begins that is no page of the last bytes before. */
  lemma Bases(off: nat, done: nat, m: nat)
    requires 0 < m <= 4096 - (off + done) % 4096
    ensures LastBase(off, done) <= (off + done) / 4096 * 4096 == LastBase(off, done + m)
    ensures off + done < WORD ==> off + done + m <= WORD
  {
  }

  lemma LongerTwice(p: seq<Told>, a: nat, b: nat)
    requires a <= b
    ensures Longer(Longer(p, a), b) == Longer(p, b)
  {
  }

  /** Two pieces side by side. */
  lemma OverlaidTwice(p: seq<Told>, off: nat, src: seq<Byte>, at: nat, lo: nat, done: nat, m: nat)
    requires lo <= done && done + m <= |src| && at == off + (done - lo)
    ensures Overlaid(Overlaid(p, off, src[lo..done]), at, src[done..done + m]) == Overlaid(p, off, src[lo..done + m])
  {
  }

  /** A piece in a page begins past the end if the page does. */
  lemma OverlaidLonger(p: seq<Told>, base: nat, at: nat, src: seq<Byte>)
    requires base <= at
    ensures Overlaid(Longer(p, base), at, src) == Longer(Overlaid(p, at, src), base)
  {
  }

  lemma PasteFirst(p: seq<Told>, off: nat, src: seq<Byte>, done: nat, m: nat)
    requires off + done < WORD && done + m <= |src| < WORD && 0 < m <= 4096 - (off + done) % 4096
    ensures off + done + m <= WORD
    ensures var base := (off + done) / 4096 * 4096;
      Overlaid(Longer(Pasted(p, off, src, done), base), off + done, src[done..done + m]) == Pasted(p, off, src, done + m)
  {
    hide Longer, Overlaid, LastBase;
    var base := (off + done) / 4096 * 4096;
    Bases(off, done, m);
    LongerTwice(Overlaid(p, off, src[..done]), LastBase(off, done), base);
    OverlaidLonger(Overlaid(p, off, src[..done]), base, off + done, src[done..done + m]);
    OverlaidTwice(p, off, src, off + done, 0, done, m);
  }

  lemma PasteAgain(p: seq<Told>, off: nat, src: seq<Byte>, done: nat, m: nat)
    requires off < WORD <= off + done && done + m <= |src| < WORD && 0 < m
    ensures var at := off + done - WORD;
      Overlaid(Longer(Pasted(p, off, src, done), at / 4096 * 4096), at, src[done..done + m]) == Pasted(p, off, src, done + m)
  {
    hide Longer, LastBase, Reached;
    var at, first := off + done - WORD, Pasted(p, off, src, WORD - off);
    PastedSize(p, off, src, WORD - off);
    assert at < off && at / 4096 * 4096 <= WORD - 4096;
    assert Overlaid(first, 0, []) == first;
    LongerMeans(Pasted(p, off, src, done), at / 4096 * 4096);
    OverlaidTwice(first, 0, src, at, WORD - off, done, m);
  }

  function AsTold(s: seq<Byte>): seq<Told> { seq(|s|, x requires 0 <= x < |s| => Told(s[x])) }

  class Cache {
    const cache: array<Entry>
    const lru: array<int>
    var files: seq<seq<Byte>>
    ghost var plain: seq<seq<Told>>
    ghost var list: seq<nat>
    ghost var used: seq<nat>
    ghost var now: nat

    ghost predicate Valid()
      reads this, cache, lru
    {
      && cache.Length == lru.Length && Lists(lru[..], list)
      && Recent(list, cache[..], used, now) && Agree(cache[..], files, plain)
    }

    /** Nothing is cached at the start. */
    constructor (n: nat, files: seq<seq<Byte>>)
      ensures Valid() && fresh(cache) && fresh(lru) && cache.Length == n && this.files == files && list == []
      ensures |plain| == |files| && forall f :: 0 <= f < |files| ==> plain[f] == AsTold(files[f])
    {
      cache := new Entry[n](_ => EMPTY);
      lru := new int[n](_ => NONE);
      this.files, list, used, now := files, [], seq(n, _ => 0), 1;
      plain := seq(|files|, f requires 0 <= f < |files| => AsTold(files[f]));
    }

    /** Take place `i` out of the list. */
    method ShiftOut(i: nat)
      requires i < |list| && Lists(lru[..], list)
      modifies lru, this`list
      ensures Lists(lru[..], list) && list == Without(old(list), i)
    {
      var j := i;
      while j < lru.Length - 1
        invariant i <= j < lru.Length
        invariant forall k :: 0 <= k < i || j <= k < lru.Length ==> lru[k] == old(lru[..])[k]
        invariant forall k :: i <= k < j ==> lru[k] == old(lru[..])[k + 1]
        modifies lru
      {
        lru[j] := lru[j + 1];
        j := j + 1;
      }
      lru[lru.Length - 1] := NONE;
      list := Without(list, i);
      ShiftedOut(old(lru[..]), lru[..], old(list), i);
    }

    /** `ctable_lru_adjust`: a listed page to the front. */
    method LruAdjust(c: nat) returns (found: bool)
      requires Lists(lru[..], list) && Distinct(list)
      modifies lru, this`list
      ensures Lists(lru[..], list) && found == (c in old(list))
      ensures if found then exists i :: 0 <= i < |old(list)| && old(list)[i] == c && list == [c] + Without(old(list), i)
              else list == old(list)
    {
      var i := 0;
      while i < lru.Length
        invariant i <= lru.Length && forall k :: 0 <= k < i && k < |list| ==> list[k] != c
        invariant lru[..] == old(lru[..]) && list == old(list)
      {
        if lru[i] == c {
          var j := i;
          while j > 0
            invariant 0 <= j <= i < lru.Length
            invariant forall k :: 0 <= k < lru.Length ==> lru[k] == old(lru[if j < k <= i then k - 1 else k])
            modifies lru
          {
            lru[j] := lru[j - 1];
            j := j - 1;
          }
          lru[0] := c;
          list := [c] + Without(list, i);
          return true;
        }
        i := i + 1;
      }
      found := false;
    }

    /** `ctable_lru_remove`. */
    method LruRemove(c: nat) returns (found: bool)
      requires Lists(lru[..], list)
      modifies lru, this`list
      ensures Lists(lru[..], list) && found == (c in old(list))
      ensures if found then exists i :: 0 <= i < |old(list)| && old(list)[i] == c && list == Without(old(list), i)
              else list == old(list)
    {
      var i := 0;
      while i < lru.Length
        invariant i <= lru.Length && forall k :: 0 <= k < i && k < |list| ==> list[k] != c
        invariant lru[..] == old(lru[..]) && list == old(list)
      {
        if lru[i] == c {
          ShiftOut(i);
          return true;
        }
        i := i + 1;
      }
      found := false;
    }

    /** `ctable_lru_add`: there is room, so the eviction it could do is not needed. */
    method LruAdd(c: nat)
      requires Lists(lru[..], list) && |list| < lru.Length
      modifies lru, this`list
      ensures Lists(lru[..], list) && list == [c] + old(list)
    {
      var i := lru.Length - 1;
      while i > 0
        invariant 0 <= i < lru.Length
        invariant forall k :: 0 <= k <= i ==> lru[k] == old(lru[..])[k]
        invariant forall k :: i < k < lru.Length ==> lru[k] == old(lru[..])[k - 1]
        modifies lru
      {
        lru[i] := lru[i - 1];
        i := i - 1;
      }
      lru[0] := c;
      list := [c] + list;
      ShiftedIn(old(lru[..]), lru[..], old(list), c);
    }

    /** `cache_writeback`. */
    method Writeback(c: nat)
      requires c < cache.Length && cache[c].host < |files| && cache[c].offset <= |files[cache[c].host]|
      modifies this`files
      ensures files == Flushed(old(files), cache[c])
    {
      var e := cache[c];
      var s := files[e.host];
      var n := if |s| - e.offset < 4096 then |s| - e.offset else 4096;
      files := files[e.host := s[..e.offset] + e.page[..n] + s[e.offset + n..]];
    }

    /** Clear an entry, written back if it is dirty. */
    method Clear(c: nat)
      requires c < cache.Length && cache[c].valid && Agree(cache[..], files, plain)
      modifies cache, this`files
      ensures cache[..] == old(cache[..])[c := EMPTY] && Agree(cache[..], files, plain)
    {
      Evicted(cache[..], files, plain, c);
      if cache[c].dirty {
        Writeback(c);
      }
      cache[c] := EMPTY;
    }

    /** `ctable_lru_evict`: the page acquired longest ago goes. */
    method Evict() returns (ok: bool)
      requires Valid()
      modifies cache, lru, this`files, this`list
      ensures Valid() && ok == (|old(list)| > 0)
      ensures if ok then list == old(list)[..|old(list)| - 1] && cache[..] == old(cache[..])[old(list)[|old(list)| - 1] := EMPTY]
              else list == old(list) && cache[..] == old(cache[..])
    {
      var i := lru.Length - 1;
      while i >= 0
        invariant -1 <= i < lru.Length && |list| <= i + 1
        invariant lru[..] == old(lru[..]) && cache[..] == old(cache[..]) && list == old(list) && Valid()
      {
        if lru[i] != NONE {
          var c := lru[i];
          RemovedIsRecent(list, cache[..], used, now, i);
          Clear(c);
          ShiftOut(i);
          assert list == old(list)[..|old(list)| - 1];
          return true;
        }
        i := i - 1;
      }
      ok := false;
    }

    /** The entry that caches the page, or the number of entries. */
    method FindCached(f: nat, offset: nat) returns (c: nat)
      ensures c <= cache.Length && (c < cache.Length ==> Caches(cache[c], f, offset))
      ensures c == cache.Length ==> !Cached(cache[..], f, offset)
    {
      c := 0;
      while c < cache.Length
        invariant c <= cache.Length && forall d :: 0 <= d < c ==> !Caches(cache[d], f, offset)
      {
        if cache[c].valid && cache[c].host == f && cache[c].offset == offset {
          return;
        }
        c := c + 1;
      }
    }

    method FindEmpty() returns (c: nat)
      ensures c <= cache.Length && (c < cache.Length ==> !cache[c].valid)
      ensures c == cache.Length ==> AllValid(cache[..])
    {
      c := 0;
      while c < cache.Length
        invariant c <= cache.Length && forall d :: 0 <= d < c ==> cache[d].valid
      {
        if !cache[c].valid {
          return;
        }
        c := c + 1;
      }
    }

    /** Fill an empty entry with a page of a file: zeros, and over them what the file has.
        Seeking there extends a file that is shorter. */
    method Load(c: nat, f: nat, offset: nat, junk: nat -> Byte)
      requires Valid() && c < cache.Length && !cache[c].valid && !Cached(cache[..], f, offset)
      requires f < |files| && offset % 4096 == 0
      modifies cache, lru, this`files, this`plain, this`list, this`used, this`now
      ensures Valid() && list == [c] + old(list) && used == old(used)[c := old(now)] && now == old(now) + 1
      ensures f < |old(plain)| && plain == old(plain)[f := Longer(old(plain[f]), offset)]
      ensures Caches(cache[c], f, offset) && forall d :: 0 <= d < cache.Length && d != c ==> cache[d] == old(cache[d])
    {
      hide Recent, Lists, Agree, Longer, IsLoad;
      SizeOf(cache[..], files, plain, f);
      LongerMeans(plain[f], offset);
      if |files[f]| < offset {
        Grow(f, offset, junk);
      }
      var s := files[f];
      var m := if |s| - offset < 4096 then |s| - offset else 4096;
      var zeros: Page := seq(4096, _ => 0);
      var page: Page := s[offset..offset + m] + zeros[m..];
      FirstBytes(page, s, offset, m);
      Loaded(cache[..], files, plain, c, f, offset, page);
      AddedIsRecent(list, cache[..], used, now, c, Entry(true, false, f, offset, page));
      cache[c] := Entry(true, false, f, offset, page);
      assert cache[..] == old(cache[..])[c := Entry(true, false, f, offset, page)];
      LruAdd(c);
      used, now := used[c := now], now + 1;
    }

    /** Seek past the end of a file to extend it. */
    method Grow(f: nat, size: nat, junk: nat -> Byte)
      requires Valid() && f < |files| && |files[f]| <= size
      modifies this`files, this`plain
      ensures Valid() && f < |old(plain)| && plain == old(plain)[f := Longer(old(plain[f]), size)]
      ensures |files| == |old(files)| && |files[f]| == size
    {
      var s := files[f];
      var more: seq<Byte> := seq(size - |s|, i requires 0 <= i => junk(|s| + i));
      SizeOf(cache[..], files, plain, f);
      Extended(cache[..], files, plain, f, more);
      files := files[f := s + more];
      plain := plain[f := Longer(plain[f], size)];
    }

    /** A cached page is used again. */
    method Touch(c: nat)
      requires Valid() && c < cache.Length && cache[c].valid
      modifies lru, this`list, this`used, this`now
      ensures Valid() && exists i :: 0 <= i < |old(list)| && old(list)[i] == c && list == [c] + Without(old(list), i)
    {
      hide Recent, Lists, Agree, Without;
      assert cache[..][c].valid;
      TouchedIsRecent(list, cache[..], used, now, c);
      var found := LruAdjust(c);
      used, now := used[c := now], now + 1;
    }

    /** The second try of ctable_acquire, all entries being valid. */
    method MakeEmpty(ghost f: nat, ghost offset: nat) returns (c: nat)
      requires Valid() && cache.Length > 0 && AllValid(cache[..]) && !Cached(cache[..], f, offset)
      modifies cache, lru, this`files, this`list
      ensures Valid() && c < cache.Length && !cache[c].valid && !Cached(cache[..], f, offset)
      ensures |old(list)| > 0 && list == old(list)[..|old(list)| - 1]
      ensures |files| == |old(files)| && forall g :: 0 <= g < |files| ==> |files[g]| == |old(files)[g]|
    {
      assert cache[..][0].valid;
      ghost var was := list;
      var evicted := Evict();
      StillNotCached(old(cache[..]), cache[..], was[|was| - 1], f, offset);
      c := FindEmpty();
      assert !cache[..][was[|was| - 1]].valid;
    }

    /** `ctable_acquire`: the entry of the page, cached or loaded, if need be in place of the
        page acquired longest ago. */
    method Acquire(f: nat, offset: nat, junk: nat -> Byte) returns (ok: bool, c: nat)
      requires Valid() && f < |files| && offset % 4096 == 0
      modifies cache, lru, this`files, this`plain, this`list, this`used, this`now
      ensures Valid() && ok == (cache.Length > 0) && f < |old(plain)|
      ensures plain == if ok then old(plain)[f := Longer(old(plain[f]), offset)] else old(plain)
      ensures ok ==> c < cache.Length && Caches(cache[c], f, offset)
      ensures ok ==> Turned(old(list), list, c, Cached(old(cache[..]), f, offset), AllValid(old(cache[..])))
    {
      hide Agree, Recent, Lists, Longer;
      SizeOf(cache[..], files, plain, f);
      c := FindCached(f, offset);
      if c < cache.Length {
        CachedWithin(cache[..], files, plain, c);
        Touch(c);
        return true, c;
      }
      c := FindEmpty();
      if c == cache.Length {
        if cache.Length == 0 {
          return false, c;
        }
        c := MakeEmpty(f, offset);
      }
      Load(c, f, offset, junk);
      ok := true;
    }

    /** Copy `m` bytes of a cached page out. */
    method CopyOut(c: nat, at: nat, m: nat, dst: array<Byte>, done: nat)
      requires Valid() && c < cache.Length && cache[c].valid && cache[c].offset <= at && at + m <= cache[c].offset + 4096
      requires cache[c].host < |plain| && done + m <= dst.Length
      modifies dst
      ensures SaysAt(plain[cache[c].host], at, dst[done..done + m])
      ensures dst[..done] == old(dst[..done]) && dst[done + m..] == old(dst[done + m..])
    {
      assert PageOk(cache[..][c], plain);
      PageSays(cache[c], plain, at, m);
      forall k | 0 <= k < m {
        dst[done + k] := cache[c].page[at - cache[c].offset + k];
      }
      assert dst[done..done + m] == cache[c].page[at - cache[c].offset..at - cache[c].offset + m];
    }

    /** One turn of the loop of `readi`. */
    method ReadPage(f: nat, dst: array<Byte>, off: nat, at: nat, done: nat, total: nat, junk: nat -> Byte,
                    ghost p: seq<Told>, ghost was: seq<Byte>) returns (m: nat)
      requires Valid() && f < |files| && cache.Length > 0 && f < |plain| && done < total <= dst.Length && total < WORD && off < WORD
      requires at == (off + done) % WORD && plain[f] == Longer(p, Reached(off, done)) && ReadFrom(p, off, done, was, dst[..])
      modifies cache, lru, this`files, this`plain, this`list, this`used, this`now, dst
      ensures Valid() && m == Least(4096 - at % 4096, total - done) && plain == old(plain)[f := Longer(p, Reached(off, done + m))]
      ensures ReadFrom(p, off, done + m, was, dst[..]) && |files| == |plain|
    {
      hide Agree, Recent, Lists, Longer, Around, ReadFrom, Reached;
      var base := at / 4096 * 4096;
      var ok, c := Acquire(f, base, junk);
      m := 4096 - (at - base);
      if m > total - done {
        m := total - done;
      }
      NextReached(p, off, done, m);
      ghost var mid := dst[..];
      CopyOut(c, at, m, dst, done);
      LongerMeans(p, Reached(off, done + m));
      ReadOn(p, plain[f], off, done, at, m, was, mid, dst[..]);
      SizeOf(cache[..], files, plain, f);
    }

    /** `readi`: the bytes at `off` as they were last written, as far as the file goes.  When
        the end of the stretch is no number of 32 bits it goes on from the front instead, and
        the file is extended to its last page. */
    method ReadI(f: nat, dst: array<Byte>, off: nat, n: nat, junk: nat -> Byte) returns (total: nat)
      requires Valid() && f < |files| && cache.Length > 0 && |files[f]| < WORD && off < WORD && n < WORD && n <= dst.Length
      modifies cache, lru, this`files, this`plain, this`list, this`used, this`now, dst
      ensures Valid() && f < |old(plain)| && total == if off < |old(plain[f])| then ReadLength(|old(plain[f])|, off, n) else 0
      ensures off < |old(plain[f])| && off + n < WORD ==> total == Least(n, |old(plain[f])| - off)
      ensures ReadFrom(old(plain[f]), off, total, old(dst[..]), dst[..])
      ensures plain == old(plain)[f := Longer(old(plain[f]), Reached(off, total))] && (off + n < WORD ==> plain == old(plain))
    {
      hide Agree, Recent, Lists, Longer, Around, ReadFrom, Reached, ReadLength;
      SizeOf(cache[..], files, plain, f);
      ghost var p := plain[f];
      LongerMeans(p, 0);
      ReadNone(p, off, dst[..]);
      var size := |files[f]|;
      if size <= off {
        return 0;
      }
      var len := ReadLength(size, off, n);
      ReadWithin(p, off, n);
      total := len;
      var at, done := off, 0;
      while done < total
        invariant done <= total <= n && (done < total ==> at == (off + done) % WORD) && Valid()
        invariant f < |files| == |plain| == |old(plain)| && plain == old(plain)[f := Longer(p, Reached(off, done))]
        invariant ReadFrom(p, off, done, old(dst[..]), dst[..])
      {
        var m := ReadPage(f, dst, off, at, done, total, junk, p, old(dst[..]));
        NextAt(off, done, m);
        done := done + m;
        at := (at / 4096 * 4096 + 4096) % WORD;
      }
    }

    /** Copy into a cached page, which is dirty then. */
    method CopyIn(c: nat, at: nat, src: seq<Byte>)
      requires Valid() && c < cache.Length && cache[c].valid && cache[c].offset <= at && at + |src| <= cache[c].offset + 4096
      requires cache[c].host < |plain|
      modifies cache, this`plain
      ensures Valid() && plain == old(plain)[old(cache[c].host) := Overlaid(old(plain[cache[c].host]), at, src)]
    {
      var k := at - cache[c].offset;
      Stored(cache[..], files, plain, c, k, src);
      ghost var es, host := cache[..], cache[c].host;
      cache[c] := cache[c].(page := cache[c].page[..k] + src + cache[c].page[k + |src|..]);
      cache[c] := cache[c].(dirty := true);
      plain := plain[host := Overlaid(plain[host], at, src)];
      SameValidity(list, es, cache[..], used, now);
      assert cache[..] == es[c := cache[c]];
    }

    /** One turn of the loop of `writei`. */
    method WritePage(f: nat, src: seq<Byte>, off: nat, at: nat, done: nat, junk: nat -> Byte, ghost p: seq<Told>) returns (m: nat)
      requires Valid() && f < |files| && cache.Length > 0 && f < |plain| && done < |src| < WORD && off < WORD
      requires at == (off + done) % WORD && plain[f] == Pasted(p, off, src, done)
      modifies cache, lru, this`files, this`plain, this`list, this`used, this`now
      ensures Valid() && m == Least(4096 - at % 4096, |src| - done) && plain == old(plain)[f := Pasted(p, off, src, done + m)]
      ensures |files| == |plain|
    {
      hide Agree, Recent, Lists, Longer, Overlaid, Pasted;
      var base := at / 4096 * 4096;
      var ok, c := Acquire(f, base, junk);
      m := 4096 - (at - base);
      if m > |src| - done {
        m := |src| - done;
      }
      CopyIn(c, at, src[done..done + m]);
      PasteOn(p, off, src, done, m);
      SizeOf(cache[..], files, plain, f);
    }

    /** `writei`.  `junk` is what the disk has where the file grows. */
    method WriteI(f: nat, src: seq<Byte>, off: nat, junk: nat -> Byte) returns (total: nat)
      requires Valid() && f < |files| && cache.Length > 0 && |files[f]| < WORD && off < WORD && |src| < WORD
      modifies cache, lru, this`files, this`plain, this`list, this`used, this`now
      ensures Valid() && total == |src| && f < |old(plain)|
      ensures plain == old(plain)[f := AfterWrite(old(plain[f]), off, src)]
      ensures off + |src| < WORD ==> plain == old(plain)[f := Patched(old(plain[f]), off, src)]
    {
      hide Agree, Recent, Lists, Patched, Longer, Overlaid, Pasted;
      SizeOf(cache[..], files, plain, f);
      ghost var p := Longer(plain[f], (off + |src|) % WORD);
      LongerMeans(plain[f], (off + |src|) % WORD);
      if (off + |src|) % WORD > |files[f]| {
        Grow(f, (off + |src|) % WORD, junk);
      }
      PastedNone(p, off, src);
      total := |src|;
      var at, done := off, 0;
      while done < total
        invariant done <= total && (done < total ==> at == (off + done) % WORD) && Valid()
        invariant f < |files| == |plain| == |old(plain)| && plain == old(plain)[f := Pasted(p, off, src, done)]
      {
        var m := WritePage(f, src, off, at, done, junk, p);
        NextAt(off, done, m);
        done := done + m;
        at := (at / 4096 * 4096 + 4096) % WORD;
      }
      WriteRight(old(plain[f]), off, src);
    }

    /** `ctable_release`: all pages of a file, or of all files, go back to the disk. */
    method Release(f: nat, all: bool)
      requires Valid()
      modifies cache, lru, this`files, this`list
      ensures Valid() && forall c :: 0 <= c < cache.Length ==>
        cache[c] == if old(cache[c]).valid && (all || old(cache[c]).host == f) then EMPTY else old(cache[c])
      ensures forall g :: 0 <= g < |files| && (all || g == f) ==> SaysAll(plain[g], files[g])
    {
      var c := 0;
      while c < cache.Length
        invariant c <= cache.Length && Valid()
        invariant forall d :: 0 <= d < cache.Length ==>
          cache[d] == if d < c && old(cache[d]).valid && (all || old(cache[d]).host == f) then EMPTY else old(cache[d])
      {
        if cache[c].valid && (cache[c].host == f || all) {
          RemovedEach(list, cache[..], used, now, c);
          Clear(c);
          var found := LruRemove(c);
        }
        c := c + 1;
      }
      forall g | 0 <= g < |files| && (all || g == f)
        ensures SaysAll(plain[g], files[g])
      {
        NothingDirty(cache[..], files, plain, g);
      }
    }
  }
}
