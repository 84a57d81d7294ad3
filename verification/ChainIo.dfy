/** Reading, writing and erasing the clusters of a chain (src/libfat12/io.c). */
module ChainIo {
  import opened Bytes
  import opened Disks
  import M = Multiplication
  import opened Errors
  import opened Fat
  import opened BiosParameterBlock

  // ----- what the loops compute, on disks -----

  /** The bytes of the clusters `s` one after the other. */
  ghost function ChainData(d: Disk, s: seq<int>): seq<Byte>
    requires InData(d, s)
  {
    if s == [] then [] else d.clusters[s[0] - 2] + ChainData(d, s[1..])
  }

  /** All clusters of `s` lie in the data area. */
  ghost predicate InData(d: Disk, s: seq<int>) {
    forall i :: 0 <= i < |s| ==> 2 <= s[i] < |d.clusters| + 2
  }

  ghost predicate Distinct(s: seq<int>) {
    forall i, j :: 0 <= i < j < |s| ==> s[i] != s[j]
  }

  /** `d` with `block` in cluster `c`. */
  ghost function PutCluster(d: Disk, c: int, block: seq<Byte>): Disk
    requires 2 <= c < |d.clusters| + 2
  {
    d.(clusters := d.clusters[c - 2 := block])
  }

  /** `d` with the consecutive blocks of `data` in the clusters `s`. */
  ghost function WriteChain(d: Disk, s: seq<int>, data: seq<Byte>, size: nat): (r: Disk)
    requires InData(d, s) && |data| == Span(|s|, size)
    ensures r == d.(clusters := r.clusters) && |r.clusters| == |d.clusters|
    decreases |s|
  {
    if s == [] then d
    else WriteChain(PutCluster(d, s[0], data[..size]), s[1..], data[size..], size)
  }

  /** `d` with zeros in the clusters `s`. */
  ghost function EraseChain(d: Disk, s: seq<int>, size: nat): (r: Disk)
    requires InData(d, s)
    decreases |s|
  {
    if s == [] then d else EraseChain(PutCluster(d, s[0], Zeros(size)), s[1..], size)
  }

  lemma {:induction false} ChainDataLength(g: Geometry, d: Disk, s: seq<int>)
    requires Fits(g, d) && InData(d, s)
    ensures |ChainData(d, s)| == Span(|s|, g.clusterSize)
  {
    if s != [] {
      ChainDataLength(g, d, s[1..]);
    }
  }

  /** Clusters outside the chain keep their bytes; every other area is untouched by definition. */
  lemma {:induction false} WriteChainFrame(d: Disk, s: seq<int>, data: seq<Byte>, size: nat, c: int)
    requires InData(d, s) && |data| == Span(|s|, size) && 2 <= c < |d.clusters| + 2 && c !in s
    ensures WriteChain(d, s, data, size).clusters[c - 2] == d.clusters[c - 2]
    decreases |s|
  {
    if s != [] {
      WriteChainFrame(PutCluster(d, s[0], data[..size]), s[1..], data[size..], size, c);
    }
  }

  lemma {:induction false} WriteChainFits(g: Geometry, d: Disk, s: seq<int>, data: seq<Byte>)
    requires Fits(g, d) && InData(d, s) && |data| == Span(|s|, g.clusterSize)
    ensures Fits(g, WriteChain(d, s, data, g.clusterSize))
    decreases |s|
  {
    if s != [] {
      var size := g.clusterSize;
      WriteChainFits(g, PutCluster(d, s[0], data[..size]), s[1..], data[size..]);
    }
  }

  /** Two disks that agree on the clusters of a chain hold the same data in it. */
  lemma {:induction false} ChainDataFrame(d: Disk, d': Disk, s: seq<int>)
    requires InData(d, s) && |d.clusters| == |d'.clusters|
    requires forall c :: c in s ==> d'.clusters[c - 2] == d.clusters[c - 2]
    ensures ChainData(d', s) == ChainData(d, s)
  {
    if s != [] {
      assert s[0] in s && forall c :: c in s[1..] ==> c in s;
      ChainDataFrame(d, d', s[1..]);
    }
  }

  /** What was written to a chain is read back. */
  lemma {:induction false} ChainRoundTrip(d: Disk, s: seq<int>, data: seq<Byte>, size: nat)
    requires InData(d, s) && Distinct(s) && |data| == Span(|s|, size)
    ensures ChainData(WriteChain(d, s, data, size), s) == data
    decreases |s|
  {
    if s != [] {
      var d1 := PutCluster(d, s[0], data[..size]);
      ChainRoundTrip(d1, s[1..], data[size..], size);
      WriteChainFrame(d1, s[1..], data[size..], size, s[0]);
      assert data == data[..size] + data[size..];
    }
  }

  lemma ChainIsDistinct(fat: Table, s: seq<int>)
    requires Indexable(fat) && IsChain(fat, s)
    ensures Distinct(s)
  {
    forall i, j | 0 <= i < j < |s| ensures s[i] != s[j] {
      ChainIsAcyclic(fat, s, i, j);
    }
  }

  /** Writing back what a chain holds changes nothing. */
  lemma {:induction false} WriteOwnData(d: Disk, s: seq<int>, size: nat)
    requires InData(d, s) && forall i :: 0 <= i < |s| ==> |d.clusters[s[i] - 2]| == size
    ensures |ChainData(d, s)| == Span(|s|, size) && WriteChain(d, s, ChainData(d, s), size) == d
    decreases |s|
  {
    if s != [] {
      WriteOwnData(d, s[1..], size);
      assert PutCluster(d, s[0], ChainData(d, s)[..size]) == d by {
        assert ChainData(d, s)[..size] == d.clusters[s[0] - 2];
        assert d.clusters[s[0] - 2 := d.clusters[s[0] - 2]] == d.clusters;
      }
      assert ChainData(d, s)[size..] == ChainData(d, s[1..]);
    }
  }

  // ----- the code -----

  /** A sound parameter block and an image that is large enough for it. */
  ghost predicate Mounted(p: Bpb, contents: seq<Byte>) {
    Sound(p) && ImageSize(p) <= |contents| && Holds(Areas(p), contents)
  }

  /** A complete chain inside the data area. */
  ghost predicate DataChain(fat: Table, first: int, clusters: nat) {
    Indexable(fat) && HasChain(fat, first) && forall i :: 0 <= i < |ChainOf(fat, first)| ==> ChainOf(fat, first)[i] < clusters + 2
  }

  method ReadCluster(img: Image, p: Bpb, cluster: U16) returns (data: seq<Byte>)
    requires Mounted(p, img.contents) && 2 <= cluster < Limit(p)
    modifies img`position
    ensures data == img.Disk(Areas(p)).clusters[cluster - 2]
  {
    OffsetIsClusterStart(p, cluster);
    ClusterInside(Areas(p), img.contents, cluster - 2);
    img.Seek(ClusterOffset(p, cluster));
    data := img.Read(ClusterSize(p));
  }

  /** Writes `count` zeros byte by byte. */
  method WriteZeros(img: Image, count: nat)
    requires img.position + count <= |img.contents|
    modifies img
    ensures img.contents == Splice(old(img.contents), old(img.position), Zeros(count))
  {
    ghost var before, at := img.contents, img.position;
    for i := 0 to count
      invariant img.position == at + i && img.contents == Splice(before, at, Zeros(i))
    {
      SpliceTwice(before, at, Zeros(i), [0]);
      assert Zeros(i) + [0] == Zeros(i + 1);
      img.Write([0]);
    }
  }

  lemma BlockWrite(g: Geometry, b: seq<Byte>, i: nat, data: seq<Byte>, pad: seq<Byte>)
    requires Holds(g, b) && i < g.dataClusters && |data| + |pad| == g.clusterSize
    ensures ClusterStart(g, i) + |data + pad| <= |b|
    ensures var b' := Splice(Splice(b, ClusterStart(g, i), data), ClusterStart(g, i) + |data|, pad);
            |b'| == |b| && View(g, b') == PutCluster(View(g, b), i + 2, data + pad)
  {
    ClusterInside(g, b, i);
    SpliceTwice(b, ClusterStart(g, i), data, pad);
    ViewClusterWrite(g, b, i, data + pad);
  }

  lemma ClusterPlace(p: Bpb, cluster: int)
    requires Sound(p) && 2 <= cluster < Limit(p)
    ensures cluster - 2 < Areas(p).dataClusters && Areas(p).clusterSize == ClusterSize(p)
    ensures ClusterOffset(p, cluster) == ClusterStart(Areas(p), cluster - 2)
  {
    OffsetIsClusterStart(p, cluster);
  }

  /** Writing `data` and `pad` at the offset of a cluster replaces exactly that cluster. */
  lemma ClusterWrite(p: Bpb, b: seq<Byte>, cluster: int, data: seq<Byte>, pad: seq<Byte>)
    requires Mounted(p, b) && 2 <= cluster < Limit(p) && |data| + |pad| == ClusterSize(p)
    ensures 0 <= ClusterOffset(p, cluster) <= |b| - |data + pad|
    ensures var at := ClusterOffset(p, cluster);
            var b' := Splice(Splice(b, at, data), at + |data|, pad);
            Mounted(p, b') && View(Areas(p), b') == PutCluster(View(Areas(p), b), cluster, data + pad)
  {
    ClusterPlace(p, cluster);
    BlockWrite(Areas(p), b, cluster - 2, data, pad);
  }

  /** Writes `data` and zeros up to the end of the cluster. */
  method WriteCluster(img: Image, p: Bpb, cluster: U16, data: seq<Byte>)
    requires Mounted(p, img.contents) && 2 <= cluster < Limit(p) && |data| <= ClusterSize(p)
    modifies img
    ensures Mounted(p, img.contents)
    ensures img.Disk(Areas(p)) ==
            PutCluster(old(img.Disk(Areas(p))), cluster, data + Zeros(ClusterSize(p) - |data|))
  {
    ClusterWrite(p, img.contents, cluster, data, Zeros(ClusterSize(p) - |data|));
    img.Seek(ClusterOffset(p, cluster));
    img.Write(data);
    WriteZeros(img, ClusterSize(p) - |data|);
  }

  /** The chain ends at its first cluster or goes on with the chain of the rest. */
  lemma ChainStep(fat: Table, s: seq<int>)
    requires Indexable(fat) && IsChain(fat, s)
    ensures fat[s[0]] == END_OF_CHAIN <==> |s| == 1
    ensures |s| > 1 ==> fat[s[0]] == s[1] && IsChain(fat, s[1..])
  {
  }

  /** The state of the read loop: `data` is read, the clusters of `rest` after the first are to be read. */
  ghost predicate Loading(fat: Table, d: Disk, s: seq<int>, rest: seq<int>, data: seq<Byte>) {
    && Indexable(fat) && IsChain(fat, rest) && InData(d, rest) && InData(d, s)
    && data + ChainData(d, rest[1..]) == ChainData(d, s)
  }

  lemma LoadNext(fat: Table, d: Disk, s: seq<int>, rest: seq<int>, data: seq<Byte>)
    requires Loading(fat, d, s, rest, data) && rest != [] && 0 <= rest[0] < |fat| && fat[rest[0]] != END_OF_CHAIN
    ensures |rest| > 1 && fat[rest[0]] == rest[1] && 2 <= rest[1] < |d.clusters| + 2
    ensures Loading(fat, d, s, rest[1..], data + d.clusters[rest[1] - 2])
  {
    ChainStep(fat, rest);
    var block, more := d.clusters[rest[1] - 2], ChainData(d, rest[1..][1..]);
    assert ChainData(d, rest[1..]) == block + more;
    assert data + (block + more) == (data + block) + more;
  }

  lemma LoadEnd(fat: Table, d: Disk, s: seq<int>, rest: seq<int>, data: seq<Byte>)
    requires Loading(fat, d, s, rest, data) && rest != [] && 0 <= rest[0] < |fat| && fat[rest[0]] == END_OF_CHAIN
    ensures data == ChainData(d, s)
  {
    ChainStep(fat, rest);
    assert rest[1..] == [] && data + [] == data;
  }

  lemma LoadStart(fat: Table, d: Disk, first: int)
    requires DataChain(fat, first, |d.clusters|)
    ensures var s := ChainOf(fat, first);
            s != [] && s[0] == first && 2 <= first < |d.clusters| + 2 && Loading(fat, d, s, s, d.clusters[first - 2])
  {
    var s := ChainOf(fat, first);
    assert ChainData(d, s) == d.clusters[first - 2] + ChainData(d, s[1..]);
  }

  lemma LoadPlace(fat: Table, d: Disk, s: seq<int>, rest: seq<int>, data: seq<Byte>)
    requires Loading(fat, d, s, rest, data)
    ensures rest != [] && 2 <= rest[0] < |fat| && rest[0] < |d.clusters| + 2
  {
  }

  /** load_cluster_chain */
  method LoadClusterChain(img: Image, p: Bpb, fat: array<U16>, marker: U16, start: U16) returns (data: seq<Byte>)
    requires marker == END_OF_CHAIN && Mounted(p, img.contents) && DataChain(fat[..], start, DataClusters(p))
    modifies img`position
    ensures data == ChainData(img.Disk(Areas(p)), ChainOf(fat[..], start))
  {
    hide Loading;
    ghost var d, s := img.Disk(Areas(p)), ChainOf(fat[..], start);
    ghost var rest := s;
    var current := start;
    LoadStart(fat[..], d, start);
    data := ReadCluster(img, p, current);
    while true
      invariant rest != [] && Loading(fat[..], d, s, rest, data) && current == rest[0]
      decreases |rest|
    {
      LoadPlace(fat[..], d, s, rest, data);
      assert fat[current] == fat[..][current];
      current := fat[current];
      if current == marker {
        LoadEnd(fat[..], d, s, rest, data);
        break;
      }
      LoadNext(fat[..], d, s, rest, data);
      LoadPlace(fat[..], d, s, rest[1..], data + d.clusters[current - 2]);
      rest := rest[1..];
      var block := ReadCluster(img, p, current);
      data := data + block;
    }
  }

  /** erase_cluster_chain */
  method EraseClusterChain(img: Image, p: Bpb, fat: array<U16>, marker: U16, start: U16)
    requires marker == END_OF_CHAIN && Mounted(p, img.contents) && DataChain(fat[..], start, DataClusters(p))
    modifies img
    ensures Mounted(p, img.contents)
    ensures img.Disk(Areas(p)) == EraseChain(old(img.Disk(Areas(p))), ChainOf(fat[..], start), ClusterSize(p))
  {
    ghost var d := img.Disk(Areas(p));
    ghost var s, rest := ChainOf(fat[..], start), ChainOf(fat[..], start);
    var current := start;
    while true
      invariant Mounted(p, img.contents) && IsChain(fat[..], rest) && current == rest[0]
      invariant InData(img.Disk(Areas(p)), rest) && InData(d, s)
      invariant EraseChain(img.Disk(Areas(p)), rest, ClusterSize(p)) == EraseChain(d, s, ClusterSize(p))
      decreases |rest|
    {
      ChainStep(fat[..], rest);
      assert fat[current] == fat[..][current];
      WriteCluster(img, p, current, Zeros(ClusterSize(p)));
      assert Zeros(ClusterSize(p)) + Zeros(0) == Zeros(ClusterSize(p));
      current := fat[current];
      if current == marker {
        break;
      }
      rest := rest[1..];
    }
  }

  ghost function ChainBytes(fat: Table, first: int, size: nat): nat
    requires HasChain(fat, first)
  {
    Span(|ChainOf(fat, first)|, size)
  }

  /** _lf12_get_cluster_chain_size */
  method ChainSize(p: Bpb, fat: array<U16>, marker: U16, first: U16) returns (size: nat)
    requires marker == END_OF_CHAIN && Indexable(fat[..]) && HasChain(fat[..], first)
    ensures size == ChainBytes(fat[..], first, ClusterSize(p))
  {
    var length := ChainLength(fat, marker, first);
    SpanIsProduct(length, ClusterSize(p));
    size := length * ClusterSize(p);
  }

  /** The size check on a 16-bit chain size rejects every write that needs a chain of 64 KiB or more. */
  lemma TruncatedSizeCheck(size: nat, cluster: nat, bytes: nat)
    requires 0 < cluster < 0x1_0000 && (size < 0x1_0000 || size < bytes + cluster)
    ensures SizeCheck(size, cluster, bytes) <==> size < 0x1_0000 && bytes <= size < bytes + cluster
  {
    if size >= 0x1_0000 {
      assert size % 0x1_0000 <= size - 0x1_0000;
    }
  }

  /** The two comparisons with the chain size, which is cut to 16 bits. */
  predicate SizeCheck(size: nat, cluster: nat, bytes: nat) {
    bytes <= size % 0x1_0000 < bytes + cluster
  }

  /** The number of blocks that the bytes take. */
  function Blocks(bytes: nat, cluster: nat): (n: nat)
    requires 0 < cluster
    ensures bytes <= Span(n, cluster) < bytes + cluster
  {
    if bytes == 0 then 0 else if bytes <= cluster then 1 else 1 + Blocks(bytes - cluster, cluster)
  }

  /** No other number of blocks has room for the bytes without an unused block. */
  lemma BlocksOnly(bytes: nat, cluster: nat, n: nat)
    requires 0 < cluster && bytes <= Span(n, cluster) < bytes + cluster
    ensures Blocks(bytes, cluster) == n
  {
    var k := Blocks(bytes, cluster);
    if k < n {
      SpanGrows(k, n, cluster);
    } else if n < k {
      SpanGrows(n, k, cluster);
    }
  }

  /** `data` and the zeros that fill the chain. */
  function Padded(data: seq<Byte>, size: nat): (r: seq<Byte>)
    requires |data| <= size
    ensures |r| == size
  {
    data + Zeros(size - |data|)
  }

  /** One turn of the write loop on the remaining clusters `rest` and the remaining bytes. */
  lemma WriteStep(d: Disk, rest: seq<int>, padded: seq<Byte>, size: nat)
    requires InData(d, rest) && rest != [] && |padded| == Span(|rest|, size)
    ensures |padded[size..]| == Span(|rest[1..]|, size)
    ensures WriteChain(d, rest, padded, size) ==
            WriteChain(PutCluster(d, rest[0], padded[..size]), rest[1..], padded[size..], size)
  {
  }

  /** After the size check, the chain has clusters for all blocks. */
  lemma BlocksInChain(s: seq<int>, cluster: nat, bytes: nat)
    requires 0 < cluster && SizeCheck(Span(|s|, cluster), cluster, bytes)
    ensures Blocks(bytes, cluster) <= |s|
  {
    var k, size := Blocks(bytes, cluster), Span(|s|, cluster);
    assert size % 0x1_0000 <= size;
    if |s| < k {
      SpanGrows(|s|, k, cluster);
    }
  }

  /** Where clusters make up 64 KiB exactly, the bytes written after a passed size check are counted right. */
  lemma CountedRight(n: nat, cluster: nat, q: nat, bytes: nat)
    requires 0 < cluster && q * cluster == 0x1_0000 && SizeCheck(Span(n, cluster), cluster, bytes)
    ensures Span(Blocks(bytes, cluster), cluster) < 0x1_0000
  {
    var size := Span(n, cluster);
    var t := size / 0x1_0000;
    SpanIsProduct(n, cluster);
    M.Associates(t, q, cluster);
    M.Distributes(n - t * q, t * q, cluster);
    assert (n - t * q) * cluster == size % 0x1_0000;
    Positive(n - t * q, cluster);
    SpanIsProduct(n - t * q, cluster);
    BlocksOnly(bytes, cluster, n - t * q);
  }

  /** Where they do not, a write can pass the size check and wrap the counter: 85 clusters of 1536 bytes. */
  lemma CounterWraps()
    ensures SizeCheck(Span(85, 1536), 1536, 65024) && 0x1_0000 <= Span(Blocks(65024, 1536), 1536)
  {
    SpanIsProduct(85, 1536);
    SpanIsProduct(43, 1536);
    BlocksOnly(65024, 1536, 43);
  }

  lemma Positive(a: int, b: nat)
    requires 0 < b && 0 <= a * b
    ensures 0 <= a
  {
    if a < 0 {
      M.Spaced(a, 0, b);
    }
  }

  /** Where the chain is as long as the data needs, all of it is written. */
  lemma WholeChain(s: seq<int>, cluster: nat, bytes: nat)
    requires 0 < cluster && bytes <= Span(|s|, cluster) < bytes + cluster
    ensures Blocks(bytes, cluster) == |s| && s[..Blocks(bytes, cluster)] == s
  {
    BlocksOnly(bytes, cluster, |s|);
  }

  /**
   write_to_cluster_chain. It succeeds exactly when the size check passes, and writes the data and zeros to as many
   clusters of the chain as the data needs; otherwise it writes nothing. Since the written bytes are counted in 16
   bits too, they must stay below 64 KiB; see CountedRight, and TruncatedSizeCheck with WholeChain for chains that are as
   long as the data needs.
   */
  method WriteToClusterChain(img: Image, p: Bpb, fat: array<U16>, marker: U16, data: seq<Byte>, first: U16)
    returns (err: Error)
    requires marker == END_OF_CHAIN && Mounted(p, img.contents) && DataChain(fat[..], first, DataClusters(p))
    requires SizeCheck(ChainBytes(fat[..], first, ClusterSize(p)), ClusterSize(p), |data|) ==>
               Span(Blocks(|data|, ClusterSize(p)), ClusterSize(p)) < 0x1_0000
    modifies img
    ensures Mounted(p, img.contents)
    ensures err == if SizeCheck(ChainBytes(fat[..], first, ClusterSize(p)), ClusterSize(p), |data|) then Success else LogicError
    ensures err == Success ==>
              var n, s := Blocks(|data|, ClusterSize(p)), ChainOf(fat[..], first);
              && n <= |s| && InData(old(img.Disk(Areas(p))), s[..n])
              && img.Disk(Areas(p)) ==
                 WriteChain(old(img.Disk(Areas(p))), s[..n], Padded(data, Span(n, ClusterSize(p))), ClusterSize(p))
    ensures err != Success ==> img.contents == old(img.contents)
  {
    ghost var s := ChainOf(fat[..], first);
    var fullSize := ChainSize(p, fat, marker, first);
    var chainSize := fullSize % 0x1_0000;
    if |data| > chainSize || |data| + ClusterSize(p) <= chainSize {
      return LogicError;
    }
    BlocksInChain(s, ClusterSize(p), |data|);
    WriteLoop(img, p, fat, data, first, s, Blocks(|data|, ClusterSize(p)));
    return Success;
  }

  /** The block of `data` that is written at `at`. */
  function Block(data: seq<Byte>, at: nat, cluster: nat): (r: seq<Byte>)
    requires at <= |data|
    ensures |r| <= cluster
  {
    if |data| - at < cluster then data[at..] else data[at..at + cluster]
  }

  lemma PaddedBlock(data: seq<Byte>, at: nat, cluster: nat, size: nat)
    requires at <= |data| <= size && at + cluster <= size
    requires |data| < at + cluster ==> at + cluster == size
    ensures Block(data, at, cluster) + Zeros(cluster - |Block(data, at, cluster)|) ==
            Padded(data, size)[at..at + cluster]
  {
  }

  /** On to the next cluster of the chain. */
  lemma NextBlock(fat: Table, s: seq<int>, n: nat, j: nat)
    requires IsChain(fat, s) && j < n <= |s|
    ensures s[j..n] != [] && s[j..n][0] == s[j] && s[j..n][1..] == s[j + 1..n]
    ensures j + 1 < n ==> fat[s[j]] == s[j + 1] && s[j + 1..n][0] == s[j + 1]
  {
  }

  /** The write loop on the first `n` clusters of the chain `s`. */
  method WriteLoop(img: Image, p: Bpb, fat: array<U16>, data: seq<Byte>, first: U16, ghost s: seq<int>, ghost n: nat)
    requires Mounted(p, img.contents) && DataChain(fat[..], first, DataClusters(p)) && s == ChainOf(fat[..], first)
    requires n <= |s| && Span(n, ClusterSize(p)) < 0x1_0000
    requires |data| <= Span(n, ClusterSize(p)) < |data| + ClusterSize(p)
    modifies img
    ensures Mounted(p, img.contents) && InData(old(img.Disk(Areas(p))), s[..n])
    ensures img.Disk(Areas(p)) == WriteChain(old(img.Disk(Areas(p))), s[..n],
                                             Padded(data, Span(n, ClusterSize(p))), ClusterSize(p))
  {
    ghost var d, size, j := img.Disk(Areas(p)), Span(n, ClusterSize(p)), 0;
    ghost var todo, rest := Padded(data, size), s[..n];
    var written: U16, current := 0, first;
    while written < |data|
      invariant Mounted(p, img.contents) && InData(img.Disk(Areas(p)), rest)
      invariant j <= n && rest == s[j..n] && (j < n ==> current == s[j])
      invariant written + |todo| == size && |todo| == Span(|rest|, ClusterSize(p)) && todo == Padded(data, size)[written..]
      invariant written < |data| <==> rest != []
      invariant WriteChain(img.Disk(Areas(p)), rest, todo, ClusterSize(p)) ==
                WriteChain(d, s[..n], Padded(data, size), ClusterSize(p))
    {
      NextBlock(fat[..], s, n, j);
      WriteStep(img.Disk(Areas(p)), rest, todo, ClusterSize(p));
      PaddedBlock(data, written, ClusterSize(p), size);
      assert todo[..ClusterSize(p)] == Padded(data, size)[written..written + ClusterSize(p)];
      WriteCluster(img, p, current, Block(data, written, ClusterSize(p)));
      todo := todo[ClusterSize(p)..];
      rest, j := rest[1..], j + 1;
      written := written + ClusterSize(p);
      current := fat[current];
    }
  }
}
