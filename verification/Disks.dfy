/** An image seen as its areas, and the byte-level image file underneath. */
module Disks {
  import opened Bytes

  /** Where the areas of an image lie; see BiosParameterBlock for how the parameter block determines it. */
  datatype Geometry = Geometry(fatOffset: nat, rootOffset: nat, dataStart: nat, clusterSize: nat, dataClusters: nat)

  /** `clusters[i]` holds the bytes of cluster number `i + 2`. */
  datatype Disk = Disk(boot: seq<Byte>, fats: seq<Byte>, root: seq<Byte>, clusters: seq<seq<Byte>>, tail: seq<Byte>)

  /** `n` blocks of `size` bytes; equal to `n * size`, see SpanIsProduct. */
  function Span(n: nat, size: nat): nat {
    if n == 0 then 0 else Span(n - 1, size) + size
  }

  lemma {:induction false} SpanIsProduct(n: nat, size: nat)
    ensures Span(n, size) == n * size
  {
    if n > 0 {
      SpanIsProduct(n - 1, size);
      assert (n - 1) * size + size == n * size;
    }
  }

  lemma {:induction false} SpanAdds(m: nat, n: nat, size: nat)
    ensures Span(m + n, size) == Span(m, size) + Span(n, size)
  {
    if n > 0 {
      SpanAdds(m, n - 1, size);
    }
  }

  /** `n` groups of `k` blocks are `n` blocks of the size of a group. */
  lemma {:induction false} SpanOfSpan(n: nat, k: nat, size: nat)
    ensures Span(Span(n, k), size) == Span(n, Span(k, size))
  {
    if n > 0 {
      SpanOfSpan(n - 1, k, size);
      SpanAdds(Span(n - 1, k), k, size);
    }
  }

  lemma {:induction false} SpanGrows(m: nat, n: nat, size: nat)
    requires m < n
    ensures Span(m, size) + size <= Span(n, size)
  {
    if m < n - 1 {
      SpanGrows(m, n - 1, size);
    }
  }

  function ClusterStart(g: Geometry, i: nat): nat {
    g.dataStart + Span(i, g.clusterSize)
  }

  ghost predicate Ordered(g: Geometry) {
    62 <= g.fatOffset <= g.rootOffset <= g.dataStart && 0 < g.clusterSize
  }

  ghost predicate Holds(g: Geometry, b: seq<Byte>) {
    Ordered(g) && ClusterStart(g, g.dataClusters) <= |b|
  }

  lemma ClusterInside(g: Geometry, b: seq<Byte>, i: nat)
    requires Holds(g, b) && i < g.dataClusters
    ensures ClusterStart(g, i) + g.clusterSize <= |b|
  {
    SpanGrows(i, g.dataClusters, g.clusterSize);
  }

  ghost function ClusterBytes(g: Geometry, b: seq<Byte>, i: nat): (c: seq<Byte>)
    requires Holds(g, b) && i < g.dataClusters
    ensures |c| == g.clusterSize
  {
    ClusterInside(g, b, i);
    b[ClusterStart(g, i)..ClusterStart(g, i) + g.clusterSize]
  }

  ghost function View(g: Geometry, b: seq<Byte>): Disk
    requires Holds(g, b)
  {
    Disk(b[..g.fatOffset], b[g.fatOffset..g.rootOffset], b[g.rootOffset..g.dataStart],
         seq(g.dataClusters, i requires 0 <= i < g.dataClusters => ClusterBytes(g, b, i)),
         b[ClusterStart(g, g.dataClusters)..])
  }

  /** The areas of a disk have the sizes that the geometry gives them. */
  ghost predicate Fits(g: Geometry, d: Disk) {
    && |d.boot| == g.fatOffset && |d.fats| == g.rootOffset - g.fatOffset && |d.root| == g.dataStart - g.rootOffset
    && |d.clusters| == g.dataClusters && forall i :: 0 <= i < |d.clusters| ==> |d.clusters[i]| == g.clusterSize
  }

  lemma ViewFits(g: Geometry, b: seq<Byte>)
    requires Holds(g, b)
    ensures Fits(g, View(g, b))
  {
  }

  lemma SpliceOutside(b: seq<Byte>, at: nat, d: seq<Byte>, lo: nat, hi: nat)
    requires at + |d| <= |b| && lo <= hi <= |b|
    requires hi <= at || at + |d| <= lo
    ensures Splice(b, at, d)[lo..hi] == b[lo..hi]
  {
  }

  lemma SpliceInside(b: seq<Byte>, at: nat, d: seq<Byte>, lo: nat, hi: nat)
    requires lo <= at && at + |d| <= hi <= |b|
    ensures Splice(b, at, d)[lo..hi] == Splice(b[lo..hi], at - lo, d)
  {
  }

  /** Two adjacent writes are one. */
  lemma SpliceTwice(b: seq<Byte>, at: nat, d: seq<Byte>, e: seq<Byte>)
    requires at + |d| + |e| <= |b|
    ensures Splice(Splice(b, at, d), at + |d|, e) == Splice(b, at, d + e)
  {
  }

  lemma ClusterUntouched(g: Geometry, b: seq<Byte>, at: nat, d: seq<Byte>, i: nat)
    requires Holds(g, b) && at + |d| <= |b| && i < g.dataClusters
    requires at + |d| <= ClusterStart(g, i) || ClusterStart(g, i) + g.clusterSize <= at
    ensures ClusterBytes(g, Splice(b, at, d), i) == ClusterBytes(g, b, i)
  {
    ClusterInside(g, b, i);
    SpliceOutside(b, at, d, ClusterStart(g, i), ClusterStart(g, i) + g.clusterSize);
  }

  /** Writing in front of the data area leaves all clusters alone. */
  lemma ClustersUntouched(g: Geometry, b: seq<Byte>, at: nat, d: seq<Byte>)
    requires Holds(g, b) && at + |d| <= g.dataStart
    ensures View(g, Splice(b, at, d)).clusters == View(g, b).clusters
    ensures View(g, Splice(b, at, d)).tail == View(g, b).tail
  {
    forall i | 0 <= i < g.dataClusters ensures ClusterBytes(g, Splice(b, at, d), i) == ClusterBytes(g, b, i) {
      ClusterUntouched(g, b, at, d, i);
    }
    SpliceOutside(b, at, d, ClusterStart(g, g.dataClusters), |b|);
  }

  lemma ViewBootWrite(g: Geometry, b: seq<Byte>, at: nat, d: seq<Byte>)
    requires Holds(g, b) && at + |d| <= g.fatOffset
    ensures View(g, Splice(b, at, d)) == View(g, b).(boot := Splice(View(g, b).boot, at, d))
  {
    ClustersUntouched(g, b, at, d);
    SpliceInside(b, at, d, 0, g.fatOffset);
    SpliceOutside(b, at, d, g.fatOffset, g.rootOffset);
    SpliceOutside(b, at, d, g.rootOffset, g.dataStart);
  }

  lemma ViewFatWrite(g: Geometry, b: seq<Byte>, at: nat, d: seq<Byte>)
    requires Holds(g, b) && g.fatOffset <= at && at + |d| <= g.rootOffset
    ensures View(g, Splice(b, at, d)) == View(g, b).(fats := Splice(View(g, b).fats, at - g.fatOffset, d))
  {
    ClustersUntouched(g, b, at, d);
    SpliceInside(b, at, d, g.fatOffset, g.rootOffset);
    SpliceOutside(b, at, d, 0, g.fatOffset);
    SpliceOutside(b, at, d, g.rootOffset, g.dataStart);
  }

  lemma ViewRootWrite(g: Geometry, b: seq<Byte>, d: seq<Byte>)
    requires Holds(g, b) && |d| == g.dataStart - g.rootOffset
    ensures View(g, Splice(b, g.rootOffset, d)) == View(g, b).(root := d)
  {
    ClustersUntouched(g, b, g.rootOffset, d);
    SpliceOutside(b, g.rootOffset, d, 0, g.fatOffset);
    SpliceOutside(b, g.rootOffset, d, g.fatOffset, g.rootOffset);
  }

  lemma ViewClusterWrite(g: Geometry, b: seq<Byte>, i: nat, d: seq<Byte>)
    requires Holds(g, b) && i < g.dataClusters && |d| == g.clusterSize
    ensures ClusterStart(g, i) + |d| <= |b|
    ensures View(g, Splice(b, ClusterStart(g, i), d)) == View(g, b).(clusters := View(g, b).clusters[i := d])
  {
    var at := ClusterStart(g, i);
    ClusterInside(g, b, i);
    SpliceOutside(b, at, d, 0, g.fatOffset);
    SpliceOutside(b, at, d, g.fatOffset, g.rootOffset);
    SpliceOutside(b, at, d, g.rootOffset, g.dataStart);
    SpanGrows(i, g.dataClusters, g.clusterSize);
    SpliceOutside(b, at, d, ClusterStart(g, g.dataClusters), |b|);
    forall j | 0 <= j < g.dataClusters && j != i ensures ClusterBytes(g, Splice(b, at, d), j) == ClusterBytes(g, b, j) {
      SpanGrows(if i < j then i else j, if i < j then j else i, g.clusterSize);
      ClusterUntouched(g, b, at, d, j);
    }
    assert ClusterBytes(g, Splice(b, at, d), i) == d;
  }

  /** The image file: its bytes and the position of the next read or write. */
  class Image {
    var contents: seq<Byte>
    var position: nat

    method Seek(offset: nat)
      modifies this`position
      ensures position == offset
    {
      position := offset;
    }

    method Read(n: nat) returns (d: seq<Byte>)
      requires position + n <= |contents|
      modifies this`position
      ensures d == contents[old(position)..old(position) + n] && position == old(position) + n
    {
      d := contents[position..position + n];
      position := position + n;
    }

    method Write(d: seq<Byte>)
      requires position + |d| <= |contents|
      modifies this
      ensures contents == Splice(old(contents), old(position), d) && position == old(position) + |d|
    {
      contents := Splice(contents, position, d);
      position := position + |d|;
    }

    ghost function Disk(g: Geometry): Disk
      requires Holds(g, contents)
      reads this
    {
      View(g, contents)
    }
  }
}
