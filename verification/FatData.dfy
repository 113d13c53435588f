/** The data area of a FAT volume: which sector holds which byte of a file, and what a
    sector write does to the bytes of the file. */
module FatData {
  import opened Arith
  import opened FatLayout
  import opened FatChain

  /** Sector `j` of cluster `c` (clst2sect plus an offset in the cluster). */
  function SectorOf(g: Geometry, c: nat, j: nat): nat
    requires 2 <= c
  {
    g.database + (c - 2) * g.csize + j
  }

  lemma SectorInCluster(g: Geometry, c: nat, j: nat)
    requires 2 <= c
    ensures SectorOf(g, c, j) == SectorOf(g, c, 0) + j
  {
  }

  /** Clusters lie one after the other from the start of the data area, cluster 2 first. */
  lemma ClustersInOrder(g: Geometry, c: nat)
    requires 2 <= c
    ensures SectorOf(g, 2, 0) == g.database
    ensures SectorOf(g, c + 1, 0) == SectorOf(g, c, 0) + g.csize
  {
    assert (c + 1 - 2) * g.csize == (c - 2) * g.csize + g.csize;
  }

  /** The cluster a sector belongs to, 0 for a sector outside the data area. */
  function Owner(g: Geometry, s: nat): nat
    requires 0 < g.csize && 2 < g.nFatent
  {
    if g.database <= s < g.database + (g.nFatent - 2) * g.csize
    then (s - g.database) / g.csize + 2 else 0
  }

  lemma SectorOwner(g: Geometry, size: nat, c: nat, j: nat)
    requires g.DataFits(size) && g.InRange(c) && j < g.csize
    ensures Owner(g, SectorOf(g, c, j)) == c
    ensures (SectorOf(g, c, j) - g.database) % g.csize == j
    ensures SectorOf(g, c, j) < size && !g.InFatArea(SectorOf(g, c, j)) && SectorOf(g, c, j) != 0
  {
    RowCol(c - 2, j, g.csize, g.nFatent - 2);
    assert 0 <= (c - 2) * g.csize;
  }

  lemma OwnedInData(g: Geometry, size: nat, s: nat)
    requires g.DataFits(size) && Owner(g, s) != 0
    ensures s < size && !g.InFatArea(s) && g.InRange(Owner(g, s)) && s != 0
    ensures s == SectorOf(g, Owner(g, s), (s - g.database) % g.csize)
  {
    RowColOf(s - g.database, g.csize, g.nFatent - 2);
  }

  /** The clusters of a file. */
  ghost predicate Clusters(g: Geometry, chain: seq<nat>) {
    && (forall i :: 0 <= i < |chain| ==> 2 <= chain[i] < g.nFatent)
    && (forall i, j :: 0 <= i < j < |chain| ==> chain[i] != chain[j])
  }

  /** Which cluster of a file holds its sector `k`, and where in that cluster. */
  function ClusterIndex(g: Geometry, k: nat): (q: nat)
    requires 0 < g.csize
    ensures k == q * g.csize + k % g.csize && 0 <= k % g.csize < g.csize
  {
    DivNat(k, g.csize);
    k / g.csize
  }

  function ClusterOffset(g: Geometry, k: nat): (r: nat)
    requires 0 < g.csize
    ensures r < g.csize && k == ClusterIndex(g, k) * g.csize + r
  {
    DivNat(k, g.csize);
    k % g.csize
  }

  lemma ClusterIndexUnique(g: Geometry, k: nat, q: nat, r: nat)
    requires k == q * g.csize + r && r < g.csize
    ensures ClusterIndex(g, k) == q && ClusterOffset(g, k) == r
  {
    DivModUnique(k, g.csize, q, r);
  }

  /** Where sector `k` of a file lies on the disk. */
  function FileSector(g: Geometry, chain: seq<nat>, k: nat): nat
    requires 0 < g.csize && ClusterIndex(g, k) < |chain|
    requires forall i :: 0 <= i < |chain| ==> 2 <= chain[i] < g.nFatent
  {
    SectorOf(g, chain[ClusterIndex(g, k)], ClusterOffset(g, k))
  }

  lemma FileSectorOwned(g: Geometry, size: nat, chain: seq<nat>, k: nat)
    requires g.DataFits(size) && Clusters(g, chain) && ClusterIndex(g, k) < |chain|
    ensures var s := FileSector(g, chain, k);
      Owner(g, s) == chain[ClusterIndex(g, k)] && s < size && !g.InFatArea(s) && s != 0
  {
    SectorOwner(g, size, chain[ClusterIndex(g, k)], ClusterOffset(g, k));
  }

  /** Two sectors of a file never share a place on the disk. */
  lemma FileSectorInjective(g: Geometry, size: nat, chain: seq<nat>, k: nat, l: nat)
    requires g.DataFits(size) && Clusters(g, chain)
    requires ClusterIndex(g, k) < |chain| && ClusterIndex(g, l) < |chain|
    requires FileSector(g, chain, k) == FileSector(g, chain, l)
    ensures k == l
  {
    SectorOwner(g, size, chain[ClusterIndex(g, k)], ClusterOffset(g, k));
    SectorOwner(g, size, chain[ClusterIndex(g, l)], ClusterOffset(g, l));
    assert ClusterIndex(g, k) == ClusterIndex(g, l) && ClusterOffset(g, k) == ClusterOffset(g, l);
  }

  /** Consecutive sectors of one cluster are consecutive on the disk. */
  lemma FileSectorRun(g: Geometry, chain: seq<nat>, k: nat, j: nat)
    requires 0 < g.csize && ClusterIndex(g, k) < |chain|
    requires forall i :: 0 <= i < |chain| ==> 2 <= chain[i] < g.nFatent
    requires ClusterOffset(g, k) + j < g.csize
    ensures ClusterIndex(g, k + j) == ClusterIndex(g, k)
    ensures FileSector(g, chain, k + j) == FileSector(g, chain, k) + j
  {
    ClusterIndexUnique(g, k + j, ClusterIndex(g, k), ClusterOffset(g, k) + j);
  }

  /** Bytes per cluster. */
  function ClusterBytes(g: Geometry): nat { g.csize * 512 }

  /** Byte `j` of the `q`-th cluster. */
  lemma ByteOfCluster(g: Geometry, q: nat, j: nat)
    requires 0 < g.csize && j < ClusterBytes(g)
    ensures ClusterIndex(g, (q * ClusterBytes(g) + j) / 512) == q
    ensures ClusterOffset(g, (q * ClusterBytes(g) + j) / 512) == j / 512
    ensures (q * ClusterBytes(g) + j) % 512 == j % 512
  {
    var i := q * ClusterBytes(g) + j;
    assert i == (q * g.csize + j / 512) * 512 + j % 512;
    DivModUnique(i, 512, q * g.csize + j / 512, j % 512);
    ClusterIndexUnique(g, i / 512, q, j / 512);
  }

  /** Which cluster holds a byte, by dividing by the cluster size, and the mask that cuts
      an offset down to a cluster boundary. */
  lemma ClusterOfByte(g: Geometry, i: nat)
    requires 0 < g.csize
    ensures i / ClusterBytes(g) == ClusterIndex(g, i / 512)
    ensures PowerOfTwo(g.csize) ==> i - And(i, ClusterBytes(g) - 1) == ClusterIndex(g, i / 512) * ClusterBytes(g)
    ensures 0 <= i - ClusterIndex(g, i / 512) * ClusterBytes(g) < ClusterBytes(g)
  {
    var bcs := ClusterBytes(g);
    SplitMod(i, 512, g.csize);
    assert bcs == 512 * g.csize;
    DivNat(i, bcs);
    if PowerOfTwo(g.csize) {
      Power512(g.csize);
      MaskIsMod(i, bcs);
    }
  }

  /** A whole number of clusters and up to one more. */
  lemma ClustersFit(g: Geometry, q: nat, n: nat, j: nat)
    requires 0 < g.csize && q < n && j <= ClusterBytes(g)
    ensures q * ClusterBytes(g) + j <= n * g.csize * 512
    ensures (q * ClusterBytes(g) + j) % 512 == j % 512
    ensures (q + 1) * ClusterBytes(g) == q * ClusterBytes(g) + ClusterBytes(g)
    ensures q + 1 == n ==> n * g.csize * 512 == q * ClusterBytes(g) + ClusterBytes(g)
  {
    var bcs := g.csize * 512;
    MulOrder(q, n, bcs);
    assert n * g.csize * 512 == n * bcs;
    assert q * bcs == (q * g.csize) * 512;
    DivModUnique(q * bcs + j, 512, q * g.csize + j / 512, j % 512);
  }

  lemma Power512(p: nat)
    requires PowerOfTwo(p)
    ensures PowerOfTwo(p * 512)
  {
    hide PowerOfTwo;
    Doubled(p);
    Doubled(p * 2);
    Doubled(p * 4);
    Doubled(p * 8);
    Doubled(p * 16);
    Doubled(p * 32);
    Doubled(p * 64);
    Doubled(p * 128);
    Doubled(p * 256);
  }

  lemma Doubled(p: nat)
    requires PowerOfTwo(p)
    ensures PowerOfTwo(p * 2)
  {
  }

  /** A file of `n` bytes fits its clusters. */
  ghost predicate Fits(g: Geometry, chain: seq<nat>, n: nat) {
    n <= |chain| * g.csize * 512
  }

  lemma FitsIndex(g: Geometry, chain: seq<nat>, n: nat, i: nat)
    requires 0 < g.csize && Fits(g, chain, n) && i < n
    ensures ClusterIndex(g, i / 512) < |chain|
  {
    RowColOf(i / 512, g.csize, |chain|);
  }

  lemma IndexFits(g: Geometry, chain: seq<nat>, k: nat)
    requires 0 < g.csize && ClusterIndex(g, k) < |chain|
    ensures Fits(g, chain, (k + 1) * 512)
  {
    RowCol(ClusterIndex(g, k), ClusterOffset(g, k), g.csize, |chain|);
  }

  /** The bytes of a file of `n` bytes, `v` being the disk. */
  function FileBytes(g: Geometry, v: seq<Sector>, chain: seq<nat>, n: nat): (b: seq<Byte>)
    requires g.DataFits(|v|) && Clusters(g, chain) && Fits(g, chain, n)
    ensures |b| == n
  {
    seq(n, i requires 0 <= i < n =>
      FitsIndex(g, chain, n, i);
      FileSectorOwned(g, |v|, chain, i / 512);
      v[FileSector(g, chain, i / 512)][i % 512])
  }

  lemma FileByteAt(g: Geometry, v: seq<Sector>, chain: seq<nat>, n: nat, i: nat)
    requires g.DataFits(|v|) && Clusters(g, chain) && Fits(g, chain, n) && i < n
    ensures ClusterIndex(g, i / 512) < |chain| && FileSector(g, chain, i / 512) < |v|
    ensures FileBytes(g, v, chain, n)[i] == v[FileSector(g, chain, i / 512)][i % 512]
  {
    FitsIndex(g, chain, n, i);
    FileSectorOwned(g, |v|, chain, i / 512);
  }

  /** Where byte `b` of sector `j` of the `q`-th cluster of a file lies. */
  lemma BytePlace(g: Geometry, v: seq<Sector>, chain: seq<nat>, n: nat, q: nat, j: nat, b: nat)
    requires g.DataFits(|v|) && Clusters(g, chain) && Fits(g, chain, n)
    requires q < |chain| && j < g.csize && b < 512 && (q * g.csize + j) * 512 + b < n
    ensures 0 <= g.database + (chain[q] - 2) * g.csize + j < |v|
    ensures FileBytes(g, v, chain, n)[(q * g.csize + j) * 512 + b] == v[g.database + (chain[q] - 2) * g.csize + j][b]
  {
    var k := q * g.csize + j;
    ClusterIndexUnique(g, k, q, j);
    DivModUnique(k * 512 + b, 512, k, b);
    FileByteAt(g, v, chain, n, k * 512 + b);
    SectorOwner(g, |v|, chain[q], j);
  }

  /** A file on consecutive clusters is a stretch of the disk. */
  lemma ContiguousFile(g: Geometry, v: seq<Sector>, chain: seq<nat>, n: nat)
    requires g.DataFits(|v|) && Clusters(g, chain) && Fits(g, chain, n) && chain != []
    requires forall i :: 0 <= i < |chain| ==> chain[i] == chain[0] + i
    ensures var s := g.database + (chain[0] - 2) * g.csize;
      0 <= s && s + |chain| * g.csize <= |v| && n <= 512 * (|chain| * g.csize)
      && FileBytes(g, v, chain, n) == GetSectors(v, s, |chain| * g.csize)[..n]
  {
    var s := g.database + (chain[0] - 2) * g.csize;
    ClusterRun(g, |v|, chain[0], |chain|, chain[|chain| - 1]);
    hide Clusters, Fits;
    assert n <= 512 * (|chain| * g.csize) by {
      LengthFits(g, chain, n);
    }
    forall i | 0 <= i < n ensures FileBytes(g, v, chain, n)[i] == GetSectors(v, s, |chain| * g.csize)[i] {
      FitsIndex(g, chain, n, i);
      ConsecutiveSector(g, chain, i / 512);
    }
  }

  lemma LengthFits(g: Geometry, chain: seq<nat>, n: nat)
    requires Fits(g, chain, n)
    ensures n <= 512 * (|chain| * g.csize)
  {
  }

  lemma ClusterRun(g: Geometry, size: nat, first: nat, k: nat, last: nat)
    requires g.DataFits(size) && 2 <= first <= last < g.nFatent && last == first + k - 1
    ensures 0 <= g.database + (first - 2) * g.csize && g.database + (first - 2) * g.csize + k * g.csize <= size
  {
    SectorOwner(g, size, last, g.csize - 1);
    AddedRows(first - 2, k, last - 2, g.csize);
  }

  lemma AddedRows(a: nat, k: nat, b: nat, d: nat)
    requires b + 1 == a + k
    ensures a * d + k * d == b * d + d && 0 <= a * d
  {
    assert (a + k) * d == a * d + k * d;
  }

  lemma ConsecutiveSector(g: Geometry, chain: seq<nat>, k: nat)
    requires 0 < g.csize && ClusterIndex(g, k) < |chain| && forall i :: 0 <= i < |chain| ==> 2 <= chain[i] < g.nFatent
    requires forall i :: 0 <= i < |chain| ==> chain[i] == chain[0] + i
    ensures FileSector(g, chain, k) == g.database + (chain[0] - 2) * g.csize + k
  {
    var q := ClusterIndex(g, k);
    assert (chain[0] + q - 2) * g.csize == (chain[0] - 2) * g.csize + q * g.csize;
  }

  /** The file depends on the sectors of its own clusters only, and a longer chain keeps
      what was there. */
  lemma FileBytesFrame(g: Geometry, v: seq<Sector>, w: seq<Sector>, chain: seq<nat>, longer: seq<nat>, n: nat)
    requires g.DataFits(|v|) && |w| == |v| && Clusters(g, chain) && Clusters(g, longer)
    requires chain <= longer && Fits(g, chain, n) && Fits(g, longer, n)
    requires forall s: nat :: s < |v| && Owner(g, s) in chain ==> w[s] == v[s]
    ensures FileBytes(g, w, longer, n) == FileBytes(g, v, chain, n)
  {
    forall i | 0 <= i < n
      ensures FileBytes(g, w, longer, n)[i] == FileBytes(g, v, chain, n)[i]
    {
      FileByteAt(g, v, chain, n, i);
      FileByteAt(g, w, longer, n, i);
      FileSectorOwned(g, |v|, chain, i / 512);
    }
  }

  lemma LongerFits(g: Geometry, chain: seq<nat>, longer: seq<nat>, n: nat)
    requires Fits(g, chain, n) && chain <= longer
    ensures Fits(g, longer, n)
  {
    assert |chain| * g.csize <= |longer| * g.csize by {
      if |chain| < |longer| && 0 < g.csize {
        MulOrder(|chain|, |longer|, g.csize);
      }
    }
  }

  /** `c` with `data` written over it from `pos` on, longer if the data ends later. */
  function Written(c: seq<Byte>, pos: nat, data: seq<Byte>): (r: seq<Byte>)
    requires pos <= |c|
    ensures |r| == if pos + |data| > |c| then pos + |data| else |c|
  {
    c[..pos] + data + (if pos + |data| < |c| then c[pos + |data|..] else [])
  }

  lemma WrittenAt(c: seq<Byte>, pos: nat, data: seq<Byte>)
    requires pos <= |c|
    ensures pos + |data| <= |Written(c, pos, data)| && Written(c, pos, data)[pos..pos + |data|] == data
  {
  }

  lemma PrefixPart(a: seq<Byte>, b: seq<Byte>, from: nat, n: nat)
    requires from + n <= |a| <= |b| && b[..|a|] == a
    ensures b[from..from + n] == a[from..from + n]
  {
    var x, y := b[from..from + n], a[from..from + n];
    forall i | 0 <= i < n ensures x[i] == y[i] {
      assert b[..|a|][from + i] == a[from + i];
    }
  }

  lemma WrittenNothing(c: seq<Byte>, pos: nat)
    requires pos <= |c|
    ensures Written(c, pos, []) == c
  {
  }

  /** Writing in two pieces is writing at once. */
  lemma WrittenTwice(c: seq<Byte>, pos: nat, a: seq<Byte>, b: seq<Byte>)
    requires pos <= |c|
    ensures Written(Written(c, pos, a), pos + |a|, b) == Written(c, pos, a + b)
  {
  }

  lemma WrittenMore(c: seq<Byte>, pos: nat, data: seq<Byte>, done: nat, end: nat, more: nat)
    requires pos <= |c| && done + more <= end <= |data|
    ensures Written(Written(c, pos, data[..done]), pos + done, data[done..end][..more]) == Written(c, pos, data[..done + more])
  {
    WrittenTwice(c, pos, data[..done], data[done..end][..more]);
    assert data[..done] + data[done..end][..more] == data[..done + more];
  }

  /** A change of the disk that puts `data` at byte `pos` of the file, and of the other
      bytes may change only those past its end `n`, is a write to the file. */
  lemma WriteBytes(
      g: Geometry, v: seq<Sector>, w: seq<Sector>, chain: seq<nat>, n: nat, pos: nat, data: seq<Byte>)
    requires g.DataFits(|v|) && |w| == |v| && Clusters(g, chain)
    requires pos <= n && Fits(g, chain, n) && Fits(g, chain, pos + |data|)
    requires forall i: nat :: i < n && !(pos <= i < pos + |data|) && ClusterIndex(g, i / 512) < |chain| && FileSector(g, chain, i / 512) < |v| ==>
      w[FileSector(g, chain, i / 512)][i % 512] == v[FileSector(g, chain, i / 512)][i % 512]
    requires forall i: nat :: pos <= i < pos + |data| && ClusterIndex(g, i / 512) < |chain| && FileSector(g, chain, i / 512) < |v| ==>
      w[FileSector(g, chain, i / 512)][i % 512] == data[i - pos]
    ensures FileBytes(g, w, chain, if pos + |data| > n then pos + |data| else n)
      == Written(FileBytes(g, v, chain, n), pos, data)
  {
    var m := if pos + |data| > n then pos + |data| else n;
    var l, r := FileBytes(g, w, chain, m), Written(FileBytes(g, v, chain, n), pos, data);
    forall i: nat | i < m ensures l[i] == r[i] {
      FileByteAt(g, w, chain, m, i);
      if i < n {
        FileByteAt(g, v, chain, n, i);
      }
    }
  }

  // ------------------------------------------------------------------ sector transfers

  /** `v` with `data`, whole sectors, put from sector `sect` on. */
  function PutSectors(v: seq<Sector>, sect: nat, data: seq<Byte>): (w: seq<Sector>)
    requires |data| % 512 == 0 && sect + |data| / 512 <= |v|
    ensures |w| == |v|
    ensures forall s :: 0 <= s < |v| && !(sect <= s < sect + |data| / 512) ==> w[s] == v[s]
    ensures forall s :: sect <= s < sect + |data| / 512 ==>
      w[s] == data[512 * (s - sect)..512 * (s - sect) + 512]
  {
    seq(|v|, s requires 0 <= s < |v| =>
      if sect <= s < sect + |data| / 512
      then data[512 * (s - sect)..512 * (s - sect) + 512] else v[s])
  }

  /** `cc` sectors from `sect` on, end to end. */
  function GetSectors(v: seq<Sector>, sect: nat, cc: nat): (data: seq<Byte>)
    requires sect + cc <= |v|
    ensures |data| == 512 * cc
  {
    seq(512 * cc, i requires 0 <= i < 512 * cc => v[sect + i / 512][i % 512])
  }

  lemma PutSectorsKeepsTables(g: Geometry, v: seq<Sector>, sect: nat, data: seq<Byte>)
    requires g.FatFits(|v|) && |data| % 512 == 0 && sect + |data| / 512 <= |v|
    requires forall s: nat :: sect <= s < sect + |data| / 512 ==> !g.InFatArea(s)
    ensures var w := PutSectors(v, sect, data);
      && Table(g, w) == Table(g, v)
      && (Mirrored(g, v) ==> Mirrored(g, w))
      && (forall s: nat :: g.InFatArea(s) ==> w[s] == v[s])
  {
    var w := PutSectors(v, sect, data);
    forall s: nat | g.InFat1(s) ensures w[s] == v[s] {
      assert g.InFatArea(s);
    }
    SameFatSameTable(g, v, w);
    if Mirrored(g, v) && g.nFats == 2 {
      forall s: nat | g.InFat1(s) ensures w[s + g.fsize] == w[s] {
        assert g.InFatArea(s) && g.InFatArea(s + g.fsize);
      }
    }
  }

  /** A run of sectors inside one cluster shows the bytes of the file there. */
  lemma RunBytes(g: Geometry, v: seq<Sector>, chain: seq<nat>, n: nat, k: nat, cc: nat)
    requires g.DataFits(|v|) && Clusters(g, chain) && Fits(g, chain, n)
    requires 0 < cc && 512 * (k + cc) <= n && ClusterOffset(g, k) + cc <= g.csize
    ensures ClusterIndex(g, k) < |chain| && FileSector(g, chain, k) + cc <= |v|
    ensures GetSectors(v, FileSector(g, chain, k), cc) == FileBytes(g, v, chain, n)[512 * k..512 * (k + cc)]
  {
    FitsIndex(g, chain, n, 512 * k);
    var s := FileSector(g, chain, k);
    FileSectorRun(g, chain, k, cc - 1);
    FileSectorOwned(g, |v|, chain, k + (cc - 1));
    var b := FileBytes(g, v, chain, n)[512 * k..512 * (k + cc)];
    forall i | 0 <= i < 512 * cc ensures GetSectors(v, s, cc)[i] == b[i] {
      FileByteAt(g, v, chain, n, 512 * k + i);
      FileSectorRun(g, chain, k, i / 512);
      assert (512 * k + i) / 512 == k + i / 512 && (512 * k + i) % 512 == i % 512;
    }
  }

  /** A piece of one sector shows the bytes of the file there. */
  lemma PieceBytes(g: Geometry, v: seq<Sector>, chain: seq<nat>, n: nat, pos: nat, cnt: nat)
    requires g.DataFits(|v|) && Clusters(g, chain) && Fits(g, chain, n)
    requires 0 < cnt && pos + cnt <= n && pos % 512 + cnt <= 512
    ensures ClusterIndex(g, pos / 512) < |chain| && FileSector(g, chain, pos / 512) < |v|
    ensures v[FileSector(g, chain, pos / 512)][pos % 512..pos % 512 + cnt]
      == FileBytes(g, v, chain, n)[pos..pos + cnt]
  {
    FileByteAt(g, v, chain, n, pos);
    var sec := v[FileSector(g, chain, pos / 512)];
    var b := FileBytes(g, v, chain, n)[pos..pos + cnt];
    forall i | 0 <= i < cnt ensures sec[pos % 512..pos % 512 + cnt][i] == b[i] {
      FileByteAt(g, v, chain, n, pos + i);
      assert (pos + i) / 512 == pos / 512 && (pos + i) % 512 == pos % 512 + i;
    }
  }

  /** Positions inside one sector, and the one just after it. */
  lemma InOneSector(pos: nat, cnt: nat)
    requires 0 < cnt && pos % 512 + cnt <= 512
    ensures (pos + cnt - 1) / 512 == pos / 512
    ensures (pos + cnt) % 512 != 0 ==> (pos + cnt) / 512 == pos / 512
  {
    DivModUnique(pos + cnt - 1, 512, pos / 512, pos % 512 + cnt - 1);
    if pos % 512 + cnt == 512 {
      DivModUnique(pos + cnt, 512, pos / 512 + 1, 0);
    } else {
      DivModUnique(pos + cnt, 512, pos / 512, pos % 512 + cnt);
    }
  }

  /** The last position of a run of whole sectors. */
  lemma RunEnd(pos: nat, n: nat)
    requires pos % 512 == 0 && n % 512 == 0 && 0 < n
    ensures (pos + n - 1) / 512 == pos / 512 + n / 512 - 1 && (pos + n) % 512 == 0
    ensures (pos + n) / 512 == pos / 512 + n / 512
  {
    DivModUnique(pos + n, 512, pos / 512 + n / 512, 0);
    DivModUnique(pos + n - 1, 512, pos / 512 + n / 512 - 1, 511);
  }

  /** Where the byte before a sector lies: in the cluster before it at a cluster
      boundary, else in the same cluster. */
  lemma PreviousByte(g: Geometry, pos: nat)
    requires 0 < g.csize && 0 < pos
    ensures pos % 512 != 0 ==> (pos - 1) / 512 == pos / 512
    ensures pos % 512 == 0 ==> 0 < pos / 512 && (pos - 1) / 512 == pos / 512 - 1
    ensures pos % 512 == 0 && ClusterOffset(g, pos / 512) == 0 ==>
      0 < ClusterIndex(g, pos / 512) && ClusterIndex(g, (pos - 1) / 512) == ClusterIndex(g, pos / 512) - 1
    ensures pos % 512 == 0 && ClusterOffset(g, pos / 512) != 0 ==>
      ClusterIndex(g, (pos - 1) / 512) == ClusterIndex(g, pos / 512)
  {
    if pos % 512 == 0 {
      var k := pos / 512;
      var q, r := ClusterIndex(g, k), ClusterOffset(g, k);
      if r == 0 {
        assert (q - 1) * g.csize == q * g.csize - g.csize;
        assert q == 0 ==> k == 0;
        ClusterIndexUnique(g, k - 1, q - 1, g.csize - 1);
      } else {
        ClusterIndexUnique(g, k - 1, q, r - 1);
      }
    }
  }

  lemma PutOneSector(v: seq<Sector>, sect: nat, data: seq<Byte>)
    requires |data| == 512 && sect < |v|
    ensures PutSectors(v, sect, data) == v[sect := data]
  {
    assert data[0..512] == data;
    var w := PutSectors(v, sect, data);
    assert w[sect] == data[512 * (sect - sect)..512 * (sect - sect) + 512];
    assert forall s :: 0 <= s < |v| ==> w[s] == v[sect := data][s];
  }

  /** `b` with the bytes from `off` on replaced by `data`. */
  function Spliced(b: seq<Byte>, off: nat, data: seq<Byte>): (r: seq<Byte>)
    requires off + |data| <= |b|
    ensures |r| == |b|
  {
    b[..off] + data + b[off + |data|..]
  }

  /** The bytes of `b` between two positions, laid into a buffer at `off`. */
  ghost predicate Gives(b: seq<Byte>, from: nat, to: nat, was: seq<Byte>, now: seq<Byte>, off: nat) {
    from <= to <= |b| && off + (to - from) <= |was| && now == Spliced(was, off, b[from..to])
  }

  /** Reading a run of sectors and laying the one held elsewhere over it reads the disk
      that has that sector in place. */
  lemma RunOverlaid(v: seq<Sector>, s: nat, cc: nat, held: nat, sec: Sector)
    requires s + cc <= |v| && held < |v|
    ensures GetSectors(v[held := sec], s, cc)
      == if s <= held < s + cc then Spliced(GetSectors(v, s, cc), 512 * (held - s), sec) else GetSectors(v, s, cc)
  {
    hide GetSectors;
    var w := v[held := sec];
    var r := if s <= held < s + cc then Spliced(GetSectors(v, s, cc), 512 * (held - s), sec) else GetSectors(v, s, cc);
    forall i | 0 <= i < 512 * cc ensures GetSectors(w, s, cc)[i] == r[i] {
      ByteOverlaid(i, held - s);
      GetSectorsAt(v, s, cc, i);
      GetSectorsAt(w, s, cc, i);
    }
  }

  lemma GetSectorsAt(v: seq<Sector>, s: nat, cc: nat, i: nat)
    requires s + cc <= |v| && i < 512 * cc
    ensures GetSectors(v, s, cc)[i] == v[s + i / 512][i % 512]
  {
  }

  lemma ByteOverlaid(i: nat, k: int)
    ensures i / 512 == k <==> 512 * k <= i < 512 * k + 512
    ensures i / 512 == k ==> i - 512 * k == i % 512
  {
  }

  lemma GetOneSector(v: seq<Sector>, s: nat)
    requires s < |v|
    ensures GetSectors(v, s, 1) == v[s]
  {
  }

  lemma SplicedRead(b: seq<Byte>, r: seq<Byte>, off: nat, data: seq<Byte>)
    requires off + |data| <= |b| == |r|
    requires r[off..off + |data|] == data && r[..off] == b[..off] && r[off + |data|..] == b[off + |data|..]
    ensures r == Spliced(b, off, data)
  {
    assert r == r[..off] + r[off..off + |data|] + r[off + |data|..];
  }

  lemma SplicedWhole(b: seq<Byte>, data: seq<Byte>)
    requires |data| <= |b|
    ensures Spliced(b, 0, data)[..|data|] == data && Spliced(b, 0, data)[|data|..] == b[|data|..]
    ensures data == [] ==> Spliced(b, 0, data) == b
  {
  }

  lemma SplicedTwice(b: seq<Byte>, off: nat, data: seq<Byte>, at: nat, sec: seq<Byte>)
    requires off + |data| <= |b| && at + |sec| <= |data|
    ensures Spliced(Spliced(b, off, data), off + at, sec) == Spliced(b, off, Spliced(data, at, sec))
  {
  }

  lemma SplicedNext(b: seq<Byte>, off: nat, data: seq<Byte>, more: seq<Byte>)
    requires off + |data| + |more| <= |b|
    ensures Spliced(Spliced(b, off, data), off + |data|, more) == Spliced(b, off, data + more)
  {
  }

  lemma SameSectors(v: seq<Sector>, w: seq<Sector>, s: nat, cc: nat)
    requires s + cc <= |v| == |w| && forall i: nat :: s <= i < s + cc ==> v[i] == w[i]
    ensures GetSectors(v, s, cc) == GetSectors(w, s, cc)
  {
  }
}
