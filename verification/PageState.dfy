/** Cached pages over files, as values: what a cached page has to do with its file, and how
    loading, writing and evicting a page and extending a file keep it so. */
module PageState {
  import opened Basics
  import opened FatLayout

  type Page = s: seq<Byte> | |s| == 4096 witness seq(4096, _ => 0)

  datatype Entry = Entry(valid: bool, dirty: bool, host: nat, offset: nat, page: Page)

  /** A byte of a file as its writer sees it: bytes added by seeking past the end are
      unspecified until written. */
  datatype Told = Unspecified | Told(value: Byte)

  predicate Says(t: Told, b: Byte) { t.Told? ==> t.value == b }

  predicate Caches(e: Entry, f: nat, offset: nat) { e.valid && e.host == f && e.offset == offset }

  predicate Covers(e: Entry, f: nat, x: nat) { e.valid && e.host == f && e.offset <= x < e.offset + 4096 }

  ghost predicate Cached(es: seq<Entry>, f: nat, offset: nat) {
    exists c :: 0 <= c < |es| && Caches(es[c], f, offset)
  }

  /** A page says what the file should say, as far as the file goes.  A page that was asked
      for past the end begins where the file then ended. */
  ghost predicate PageOk(e: Entry, plain: seq<seq<Told>>) {
    e.valid ==>
      && e.host < |plain| && e.offset % 4096 == 0 && e.offset <= |plain[e.host]|
      && forall k :: 0 <= k < 4096 && e.offset + k < |plain[e.host]| ==> Says(plain[e.host][e.offset + k], e.page[k])
  }

  ghost predicate DirtyAt(es: seq<Entry>, f: nat, x: nat) {
    exists c :: 0 <= c < |es| && Covers(es[c], f, x) && es[c].dirty
  }

  /** The file itself says what it should, except under a dirty page. */
  ghost predicate FileOk(es: seq<Entry>, files: seq<seq<Byte>>, plain: seq<seq<Told>>, f: nat, x: nat) {
    f < |plain| && x < |plain[f]| ==>
      f < |files| && x < |files[f]| && (DirtyAt(es, f, x) || Says(plain[f][x], files[f][x]))
  }

  ghost predicate Sizes(files: seq<seq<Byte>>, plain: seq<seq<Told>>) {
    |files| == |plain| && forall f :: 0 <= f < |files| ==> |files[f]| == |plain[f]|
  }

  /** No page is cached twice. */
  ghost predicate Once(es: seq<Entry>) {
    forall c, d :: 0 <= c < |es| && 0 <= d < |es| && es[d].valid && Caches(es[c], es[d].host, es[d].offset) ==> c == d
  }

  ghost predicate Agree(es: seq<Entry>, files: seq<seq<Byte>>, plain: seq<seq<Told>>) {
    && Sizes(files, plain) && Once(es)
    && (forall c :: 0 <= c < |es| ==> PageOk(es[c], plain))
    && (forall f: nat, x: nat :: FileOk(es, files, plain, f, x))
  }

  const EMPTY := Entry(false, false, 0, 0, seq(4096, _ => 0))

  /** `cache_writeback`: the page over the file, as far as the file goes. */
  function Flushed(files: seq<seq<Byte>>, e: Entry): seq<seq<Byte>>
    requires e.host < |files| && e.offset <= |files[e.host]|
  {
    var s := files[e.host];
    var n := Least(|s| - e.offset, 4096);
    files[e.host := s[..e.offset] + e.page[..n] + s[e.offset + n..]]
  }

  lemma FlushedAt(files: seq<seq<Byte>>, e: Entry, x: nat)
    requires e.host < |files| && e.offset <= |files[e.host]| && x < |files[e.host]|
    ensures |Flushed(files, e)[e.host]| == |files[e.host]|
    ensures Flushed(files, e)[e.host][x] == if e.offset <= x < e.offset + 4096 then e.page[x - e.offset] else files[e.host][x]
  {
  }

  /** Evicting a page, written back if it is dirty, loses nothing. */
  lemma Evicted(es: seq<Entry>, files: seq<seq<Byte>>, plain: seq<seq<Told>>, c: nat)
    requires Agree(es, files, plain) && c < |es| && es[c].valid
    ensures es[c].host < |files| && es[c].offset <= |files[es[c].host]|
    ensures Agree(es[c := EMPTY], if es[c].dirty then Flushed(files, es[c]) else files, plain)
  {
    var e := es[c];
    assert PageOk(e, plain);
    var es', files' := es[c := EMPTY], if e.dirty then Flushed(files, e) else files;
    forall f: nat, x: nat
      ensures FileOk(es', files', plain, f, x)
    {
      EvictedAt(es, files, plain, c, f, x);
    }
  }

  lemma EvictedAt(es: seq<Entry>, files: seq<seq<Byte>>, plain: seq<seq<Told>>, c: nat, f: nat, x: nat)
    requires c < |es| && es[c].valid && PageOk(es[c], plain) && FileOk(es, files, plain, f, x) && Sizes(files, plain)
    requires es[c].host < |files| && es[c].offset <= |files[es[c].host]|
    ensures FileOk(es[c := EMPTY], if es[c].dirty then Flushed(files, es[c]) else files, plain, f, x)
  {
    var e := es[c];
    if f < |plain| && x < |plain[f]| {
      if f == e.host {
        FlushedAt(files, e, x);
      }
      if Covers(e, f, x) {
        assert Says(plain[f][e.offset + (x - e.offset)], e.page[x - e.offset]);
      }
      if d :| 0 <= d < |es| && Covers(es[d], f, x) && es[d].dirty && d != c {
        assert Covers(es[c := EMPTY][d], f, x);
      }
    }
  }

  /** The page as `f_read` fills it over zeros. */
  predicate IsLoad(page: Page, file: seq<Byte>, offset: nat) {
    forall k :: 0 <= k < 4096 && offset + k < |file| ==> page[k] == file[offset + k]
  }

  lemma CoveredIsCached(es: seq<Entry>, plain: seq<seq<Told>>, c: nat, f: nat, offset: nat, x: nat)
    requires c < |es| && PageOk(es[c], plain) && Covers(es[c], f, x) && offset % 4096 == 0 && offset <= x < offset + 4096
    ensures Caches(es[c], f, offset)
  {
  }

  /** Loading a page that is not cached into an empty entry. */
  lemma Loaded(es: seq<Entry>, files: seq<seq<Byte>>, plain: seq<seq<Told>>, c: nat, f: nat, offset: nat, page: Page)
    requires Agree(es, files, plain) && c < |es| && !es[c].valid && !Cached(es, f, offset)
    requires f < |files| && offset % 4096 == 0 && offset <= |files[f]| && IsLoad(page, files[f], offset)
    ensures Agree(es[c := Entry(true, false, f, offset, page)], files, plain)
  {
    var e := Entry(true, false, f, offset, page);
    var es' := es[c := e];
    forall k | 0 <= k < 4096 && offset + k < |plain[f]|
      ensures Says(plain[f][offset + k], page[k])
    {
      assert FileOk(es, files, plain, f, offset + k);
      if d :| 0 <= d < |es| && Covers(es[d], f, offset + k) && es[d].dirty {
        CoveredIsCached(es, plain, d, f, offset, offset + k);
      }
    }
    assert PageOk(e, plain);
    forall g: nat, x: nat
      ensures FileOk(es', files, plain, g, x)
    {
      assert FileOk(es, files, plain, g, x);
      StillDirty(es, es', g, x);
    }
  }

  /** Entries that were dirty are. */
  lemma StillDirty(es: seq<Entry>, es': seq<Entry>, f: nat, x: nat)
    requires |es| == |es'|
    requires forall d :: 0 <= d < |es| && es[d].valid && es[d].dirty ==>
      Caches(es'[d], es[d].host, es[d].offset) && es'[d].dirty
    ensures DirtyAt(es, f, x) ==> DirtyAt(es', f, x)
  {
    if d :| 0 <= d < |es| && Covers(es[d], f, x) && es[d].dirty {
      assert Covers(es'[d], f, x);
    }
  }

  /** A file of `size` bytes or more, the new ones unspecified. */
  function Longer(p: seq<Told>, size: nat): seq<Told> {
    if size <= |p| then p else p + seq(size - |p|, _ => Unspecified)
  }

  /** `src` at `at` over what the file has there, as far as it goes. */
  function Overlaid(p: seq<Told>, at: nat, src: seq<Byte>): (p': seq<Told>)
    ensures |p'| == |p|
  {
    seq(|p|, x requires 0 <= x < |p| => if at <= x < at + |src| then Told(src[x - at]) else p[x])
  }

  /** What a write of `src` at `off` should make of a file. */
  function Patched(p: seq<Told>, off: nat, src: seq<Byte>): (p': seq<Told>)
    ensures |p'| == if off + |src| <= |p| then |p| else off + |src|
  {
    Overlaid(Longer(p, off + |src|), off, src)
  }

  /** Extending a file by seeking, whatever the new bytes are on the disk. */
  lemma Extended(es: seq<Entry>, files: seq<seq<Byte>>, plain: seq<seq<Told>>, f: nat, junk: seq<Byte>)
    requires Agree(es, files, plain) && f < |files|
    ensures Agree(es, files[f := files[f] + junk], plain[f := Longer(plain[f], |plain[f]| + |junk|)])
  {
    var files', plain' := files[f := files[f] + junk], plain[f := Longer(plain[f], |plain[f]| + |junk|)];
    forall c | 0 <= c < |es|
      ensures PageOk(es[c], plain')
    {
      assert PageOk(es[c], plain);
    }
    forall g: nat, x: nat
      ensures FileOk(es, files', plain', g, x)
    {
      assert FileOk(es, files, plain, g, x);
    }
  }

  /** Writing `src` into a cached page, which becomes dirty. */
  lemma Stored(es: seq<Entry>, files: seq<seq<Byte>>, plain: seq<seq<Told>>, c: nat, at: nat, src: seq<Byte>)
    requires Agree(es, files, plain) && c < |es| && es[c].valid
    requires at + |src| <= 4096 && es[c].host < |plain|
    ensures var e := es[c];
      Agree(es[c := e.(dirty := true, page := e.page[..at] + src + e.page[at + |src|..])], files,
            plain[e.host := Overlaid(plain[e.host], e.offset + at, src)])
  {
    var e := es[c];
    var e' := e.(dirty := true, page := e.page[..at] + src + e.page[at + |src|..]);
    var es', plain' := es[c := e'], plain[e.host := Overlaid(plain[e.host], e.offset + at, src)];
    assert PageOk(e, plain);
    StoredPage(e, plain, at, src);
    forall d | 0 <= d < |es'|
      ensures PageOk(es'[d], plain')
    {
      if d != c {
        assert PageOk(es[d], plain);
        OtherPage(es, plain, c, d, at, src);
      }
    }
    forall g: nat, x: nat
      ensures FileOk(es', files, plain', g, x)
    {
      assert FileOk(es, files, plain, g, x);
      StillDirty(es, es', g, x);
      if g == e.host && e.offset + at <= x < e.offset + at + |src| {
        assert Covers(es'[c], g, x);
      }
    }
  }

  lemma StoredPage(e: Entry, plain: seq<seq<Told>>, at: nat, src: seq<Byte>)
    requires PageOk(e, plain) && e.valid && at + |src| <= 4096
    ensures PageOk(e.(dirty := true, page := e.page[..at] + src + e.page[at + |src|..]),
                   plain[e.host := Overlaid(plain[e.host], e.offset + at, src)])
  {
    var page, plain' := e.page[..at] + src + e.page[at + |src|..], plain[e.host := Overlaid(plain[e.host], e.offset + at, src)];
    forall k | 0 <= k < 4096 && e.offset + k < |plain'[e.host]|
      ensures Says(plain'[e.host][e.offset + k], page[k])
    {
      assert Says(plain[e.host][e.offset + k], e.page[k]);
    }
  }

  /** Another page of the same file is elsewhere. */
  lemma OtherPage(es: seq<Entry>, plain: seq<seq<Told>>, c: nat, d: nat, at: nat, src: seq<Byte>)
    requires c < |es| && d < |es| && c != d && es[c].valid && Once(es) && PageOk(es[c], plain) && PageOk(es[d], plain)
    requires at + |src| <= 4096 && es[c].host < |plain|
    ensures PageOk(es[d], plain[es[c].host := Overlaid(plain[es[c].host], es[c].offset + at, src)])
  {
    var e, e2 := es[c], es[d];
    if e2.valid && e2.host == e.host && e2.offset == e.offset {
      OnceAt(es, c, d);
    }
  }

  lemma OnceAt(es: seq<Entry>, c: nat, d: nat)
    requires Once(es) && c < |es| && d < |es| && es[d].valid && Caches(es[c], es[d].host, es[d].offset)
    ensures c == d
  {
  }
}
