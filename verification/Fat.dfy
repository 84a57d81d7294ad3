/** The file allocation table in memory: cluster chains and the first-fit allocator. */
module Fat {
  import opened Bytes

  /** end_of_chain_marker as f12 writes it; cluster numbers stay below it. */
  const END_OF_CHAIN: U16 := 0xfff

  type Table = seq<U16>

  // ----- chains -----

  /** `s` lists the clusters from `s[0]` to the one that holds the end marker. */
  ghost predicate IsChain(fat: Table, s: seq<int>) {
    && |s| > 0
    && (forall i :: 0 <= i < |s| ==> 2 <= s[i] < |fat|)
    && (forall i :: 0 <= i < |s| - 1 ==> fat[s[i]] == s[i + 1])
    && fat[s[|s| - 1]] == END_OF_CHAIN
  }

  ghost predicate StartsChain(fat: Table, first: int, s: seq<int>) {
    IsChain(fat, s) && s[0] == first
  }

  ghost predicate HasChain(fat: Table, first: int) {
    exists s :: StartsChain(fat, first, s)
  }

  ghost function ChainOf(fat: Table, first: int): (s: seq<int>)
    requires HasChain(fat, first)
    ensures StartsChain(fat, first, s)
  {
    var s :| StartsChain(fat, first, s); s
  }

  /** The clusters of the chain, none for a broken chain. */
  ghost function Clusters(fat: Table, first: int): set<int> {
    if HasChain(fat, first) then set c | c in ChainOf(fat, first) else {}
  }

  /** A table in which a cluster number is never taken for the end marker. */
  ghost predicate Indexable(fat: Table) {
    |fat| <= END_OF_CHAIN
  }

  lemma {:induction false} ChainIsUnique(fat: Table, s: seq<int>, t: seq<int>)
    requires Indexable(fat) && IsChain(fat, s) && IsChain(fat, t) && s[0] == t[0]
    ensures s == t
  {
    assert |s| > 1 ==> fat[s[0]] == s[1];
    assert |t| > 1 ==> fat[t[0]] == t[1];
    if |s| > 1 && |t| > 1 {
      ChainIsUnique(fat, s[1..], t[1..]);
      assert s == [s[0]] + s[1..] && t == [t[0]] + t[1..];
    }
  }

  lemma ChainOfIs(fat: Table, s: seq<int>)
    requires Indexable(fat) && IsChain(fat, s)
    ensures HasChain(fat, s[0]) && ChainOf(fat, s[0]) == s
    ensures Clusters(fat, s[0]) == set c | c in s
  {
    assert StartsChain(fat, s[0], s);
    ChainIsUnique(fat, s, ChainOf(fat, s[0]));
  }

  /** A chain never visits a cluster twice. */
  lemma ChainIsAcyclic(fat: Table, s: seq<int>, i: nat, j: nat)
    requires Indexable(fat) && IsChain(fat, s) && i < j < |s|
    ensures s[i] != s[j]
  {
    if s[i] == s[j] {
      ChainIsUnique(fat, s[i..], s[j..]);
    }
  }

  lemma {:induction false} DistinctBounded(s: seq<int>, n: nat)
    requires forall i :: 0 <= i < |s| ==> 0 <= s[i] < n
    requires forall i, j :: 0 <= i < j < |s| ==> s[i] != s[j]
    ensures |s| <= n
  {
    if |s| > 0 {
      assert 0 <= s[0] < n;
      if k :| 0 <= k < |s| && s[k] == n - 1 {
        DistinctBounded(s[..k] + s[k + 1..], n - 1);
      } else {
        DistinctBounded(s, n - 1);
      }
    }
  }

  lemma ChainLengthBound(fat: Table, s: seq<int>)
    requires Indexable(fat) && IsChain(fat, s)
    ensures |s| <= |fat| <= END_OF_CHAIN
  {
    forall i, j | 0 <= i < j < |s| ensures s[i] != s[j] {
      ChainIsAcyclic(fat, s, i, j);
    }
    DistinctBounded(s, |fat|);
  }

  /** `after` differs from `before` only in entries that were free. */
  ghost predicate Extends(before: Table, after: Table) {
    |before| == |after| && forall c :: 2 <= c < |before| && before[c] != 0 ==> after[c] == before[c]
  }

  lemma ChainSurvives(before: Table, after: Table, s: seq<int>)
    requires Extends(before, after) && IsChain(before, s)
    ensures IsChain(after, s)
  {
  }

  lemma ClustersSurvive(before: Table, after: Table, first: int)
    requires Extends(before, after) && Indexable(before) && HasChain(before, first)
    ensures HasChain(after, first) && ChainOf(after, first) == ChainOf(before, first)
    ensures Clusters(after, first) == Clusters(before, first)
  {
    var s := ChainOf(before, first);
    ChainSurvives(before, after, s);
    ChainOfIs(after, s);
  }

  /** No cluster of a chain is free. */
  lemma ChainIsAllocated(fat: Table, first: int, c: int)
    requires c in Clusters(fat, first)
    ensures 2 <= c < |fat| && fat[c] != 0
  {
    var s := ChainOf(fat, first);
    var i :| 0 <= i < |s| && s[i] == c;
    assert i < |s| - 1 ==> fat[s[i]] == s[i + 1];
  }

  /** _lf12_get_cluster_chain_length */
  method ChainLength(fat: array<U16>, marker: U16, start: U16) returns (length: U16)
    requires marker == END_OF_CHAIN && Indexable(fat[..]) && HasChain(fat[..], start)
    ensures length == |ChainOf(fat[..], start)|
  {
    ghost var s := ChainOf(fat[..], start);
    ChainLengthBound(fat[..], s);
    var current := start;
    length := 1;
    while fat[current] != marker
      invariant 1 <= length <= |s| && current == s[length - 1]
      invariant length < |s| ==> fat[current] == s[length]
      decreases |s| - length
    {
      assert length < |s|;
      current := fat[current];
      length := length + 1;
    }
  }

  // ----- allocation -----

  /** The free clusters from 2 up to, not including, `n` in increasing order. */
  ghost function FreeUpTo(fat: Table, n: nat): (s: seq<int>)
    requires n <= |fat|
    ensures forall i :: 0 <= i < |s| ==> 2 <= s[i] < n && fat[s[i]] == 0
  {
    if n <= 2 then []
    else if fat[n - 1] == 0 then FreeUpTo(fat, n - 1) + [n - 1]
    else FreeUpTo(fat, n - 1)
  }

  lemma {:induction false} FreeUpToIncreases(fat: Table, n: nat)
    requires n <= |fat|
    ensures Increasing(FreeUpTo(fat, n))
  {
    if n > 2 {
      FreeUpToIncreases(fat, n - 1);
    }
  }

  ghost predicate Increasing(s: seq<int>) {
    forall i, j :: 0 <= i < j < |s| ==> s[i] < s[j]
  }

  ghost function FreeClusters(fat: Table): seq<int> {
    FreeUpTo(fat, |fat|)
  }

  lemma {:induction false} FreeUpToComplete(fat: Table, n: nat, c: int)
    requires n <= |fat| && 2 <= c < n && fat[c] == 0
    ensures c in FreeUpTo(fat, n)
  {
    if c < n - 1 {
      FreeUpToComplete(fat, n - 1, c);
    }
  }

  lemma {:induction false} FreeUpToPrefix(fat: Table, m: nat, n: nat)
    requires m <= n <= |fat|
    ensures FreeUpTo(fat, m) <= FreeUpTo(fat, n)
  {
    if m < n {
      FreeUpToPrefix(fat, m, n - 1);
    }
  }

  /** Clusters of the table. */
  ghost predicate Linkable(fat: Table, s: seq<int>) {
    Indexable(fat) && forall i :: 0 <= i < |s| ==> 2 <= s[i] < |fat|
  }

  /** `fat` with each cluster of `s` but the last pointing to its successor. */
  ghost function Link(fat: Table, s: seq<int>): (r: Table)
    requires Linkable(fat, s)
    ensures |r| == |fat|
  {
    if |s| <= 1 then fat else Link(fat, s[..|s| - 1])[s[|s| - 2] := s[|s| - 1]]
  }

  lemma {:induction false} LinkEntries(fat: Table, s: seq<int>)
    requires Linkable(fat, s)
    requires Increasing(s)
    ensures forall i :: 0 <= i < |s| - 1 ==> Link(fat, s)[s[i]] == s[i + 1]
    ensures forall c :: 0 <= c < |fat| && c !in s ==> Link(fat, s)[c] == fat[c]
    ensures |s| > 0 ==> Link(fat, s)[s[|s| - 1]] == fat[s[|s| - 1]]
  {
    if |s| > 1 {
      var t := s[..|s| - 1];
      assert forall i :: 0 <= i < |t| ==> t[i] == s[i];
      LinkEntries(fat, t);
      var l := Link(fat, t);
      forall c | 0 <= c < |fat| && c !in s ensures Link(fat, s)[c] == fat[c] {
        assert c !in t;
      }
      assert s[|s| - 1] !in t;
    }
  }

  /**
   _lf12_create_cluster_chain: nothing when fewer than `count` clusters are free, otherwise a chain of the
   `count` lowest free clusters. A request for no cluster links all free clusters and still answers 0.
   */
  ghost function Allocate(fat: Table, count: nat): (r: (U16, Table))
    requires Indexable(fat)
    ensures |r.1| == |fat|
  {
    var free := FreeClusters(fat);
    if |free| < count then (0, fat)
    else if count == 0 then (0, Link(fat, free))
    else (free[0], Link(fat, free[..count])[free[count - 1] := END_OF_CHAIN])
  }

  lemma LinkedIsChain(fat: Table, s: seq<int>, after: Table)
    requires Linkable(fat, s) && Increasing(s) && s != [] && after == Link(fat, s)[s[|s| - 1] := END_OF_CHAIN]
    ensures IsChain(after, s) && forall c :: 0 <= c < |fat| && c !in s ==> after[c] == fat[c]
  {
    LinkEntries(fat, s);
    assert forall i :: 0 <= i < |s| - 1 ==> s[i] < s[|s| - 1];
  }

  /** A satisfied request yields exactly the lowest free clusters as a chain and touches nothing else. */
  lemma AllocateFirstFit(fat: Table, count: nat)
    requires Indexable(fat) && 1 <= count <= |FreeClusters(fat)|
    ensures var s := FreeClusters(fat)[..count]; var (first, after) := Allocate(fat, count);
            && first == s[0] && IsChain(after, s) && HasChain(after, first) && ChainOf(after, first) == s
            && forall c :: 0 <= c < |fat| && c !in s ==> after[c] == fat[c]
    ensures Extends(fat, Allocate(fat, count).1)
  {
    var s, after := FreeClusters(fat)[..count], Allocate(fat, count).1;
    FreeUpToIncreases(fat, |fat|);
    LinkedIsChain(fat, s, after);
    ChainOfIs(after, s);
    assert forall c :: c in s ==> fat[c] == 0;
  }

  /** The request fails exactly when too few clusters are free (or none was requested). */
  lemma AllocateFails(fat: Table, count: nat)
    requires Indexable(fat)
    ensures Allocate(fat, count).0 == 0 <==> count == 0 || |FreeClusters(fat)| < count
    ensures |FreeClusters(fat)| < count ==> Allocate(fat, count).1 == fat
    ensures count > 0 ==> Extends(fat, Allocate(fat, count).1)
  {
    if 1 <= count <= |FreeClusters(fat)| {
      AllocateFirstFit(fat, count);
    }
  }

  /** Afterwards the free clusters are the remaining ones, in the same order. */
  lemma AllocateUsesUp(fat: Table, count: nat)
    requires Indexable(fat) && 1 <= count <= |FreeClusters(fat)|
    ensures FreeClusters(Allocate(fat, count).1) == FreeClusters(fat)[count..]
  {
    FreeAfterAllocate(fat, count, |fat|);
  }

  lemma FreeAfterAllocate(fat: Table, count: nat, n: nat)
    requires Indexable(fat) && 1 <= count <= |FreeClusters(fat)| && n <= |fat|
    ensures FreeUpTo(Allocate(fat, count).1, n) == FreeUpTo(fat, n)[Least(count, |FreeUpTo(fat, n)|)..]
  {
    AllocateFirstFit(fat, count);
    var s := FreeClusters(fat)[..count];
    var after := Allocate(fat, count).1;
    forall c | c in s ensures after[c] != 0 {
      ChainOfIs(after, s);
      ChainIsAllocated(after, s[0], c);
    }
    FreeAfter(fat, after, s, n);
  }

  function Least(a: nat, b: nat): nat {
    if a < b then a else b
  }

  lemma {:induction false} FreeAfter(fat: Table, after: Table, s: seq<int>, n: nat)
    requires n <= |fat| == |after| && s <= FreeClusters(fat)
    requires forall c :: c in s ==> 2 <= c < |fat| && after[c] != 0
    requires forall c :: 0 <= c < |fat| && c !in s ==> after[c] == fat[c]
    ensures FreeUpTo(after, n) == FreeUpTo(fat, n)[Least(|s|, |FreeUpTo(fat, n)|)..]
  {
    if n > 2 {
      FreeAfter(fat, after, s, n - 1);
      var f := FreeUpTo(fat, n);
      if fat[n - 1] == 0 {
        FreeUpToPrefix(fat, n, |fat|);
        FreeUpToIncreases(fat, |fat|);
        SharedPrefix(f, FreeClusters(fat), s, |f| - 1);
      } else {
        assert n - 1 !in s;
      }
    }
  }

  /** The element at `i` of the increasing list `all` belongs to its prefix `s` exactly when `i < |s|`. */
  lemma SharedPrefix(f: seq<int>, all: seq<int>, s: seq<int>, i: nat)
    requires f <= all && s <= all && i < |f|
    requires Increasing(all)
    ensures f[i] in s <==> i < |s|
  {
    if i < |s| {
      assert s[i] == f[i];
    } else {
      assert forall j :: 0 <= j < |s| ==> s[j] == all[j] < all[i];
    }
  }

  /** With enough free clusters below `limit`, first fit stays below it. */
  lemma AllocateBelow(fat: Table, count: nat, limit: nat)
    requires Indexable(fat) && limit <= |fat| && 1 <= count <= |FreeUpTo(fat, limit)|
    ensures count <= |FreeClusters(fat)|
    ensures forall c :: c in FreeClusters(fat)[..count] ==> c < limit
    ensures |FreeUpTo(Allocate(fat, count).1, limit)| == |FreeUpTo(fat, limit)| - count
  {
    FreeUpToPrefix(fat, limit, |fat|);
    FreeAfterAllocate(fat, count, limit);
  }

  /** First fit stays below `limit` exactly when that many clusters are free below it. */
  lemma AllocateBelowIff(fat: Table, count: nat, limit: nat)
    requires limit <= |fat| && 1 <= count <= |FreeClusters(fat)|
    ensures (forall i :: 0 <= i < count ==> FreeClusters(fat)[i] < limit) <==> count <= |FreeUpTo(fat, limit)|
  {
    var all, low := FreeClusters(fat), FreeUpTo(fat, limit);
    FreeUpToPrefix(fat, limit, |fat|);
    FreeUpToIncreases(fat, |fat|);
    if |low| < count {
      var c := all[count - 1];
      assert forall i :: 0 <= i < |low| ==> low[i] == all[i] < c;
      if c < limit {
        FreeUpToComplete(fat, limit, c);
      }
    } else {
      assert forall i :: 0 <= i < count ==> all[i] == low[i];
    }
  }

  /** So the allocated chain stays below `limit` exactly then. */
  lemma ChainBelowIff(fat: Table, count: nat, limit: nat)
    requires Indexable(fat) && limit <= |fat| && Allocate(fat, count).0 != 0
    ensures var (first, after) := Allocate(fat, count);
            && HasChain(after, first)
            && ((forall i :: 0 <= i < |ChainOf(after, first)| ==> ChainOf(after, first)[i] < limit) <==>
                count <= |FreeUpTo(fat, limit)|)
  {
    AllocateFails(fat, count);
    AllocateFirstFit(fat, count);
    AllocateBelowIff(fat, count, limit);
    assert forall i :: 0 <= i < count ==> FreeClusters(fat)[..count][i] == FreeClusters(fat)[i];
  }

  lemma LinkStep(fat: Table, s: seq<int>)
    requires Linkable(fat, s) && |s| > 1
    ensures Linkable(fat, s[..|s| - 1])
    ensures Link(fat, s) == Link(fat, s[..|s| - 1])[s[|s| - 2] := s[|s| - 1]]
  {
  }

  lemma OneMoreLinkable(fat: Table, s: seq<int>, j: nat)
    requires Linkable(fat, s) && 2 <= j < |fat|
    ensures Linkable(fat, s + [j])
  {
  }

  lemma LinkOneMore(fat: Table, s: seq<int>, j: nat)
    requires Linkable(fat, s) && Linkable(fat, s + [j]) && 2 <= j < |fat|
    ensures Link(fat, s + [j]) == if |s| > 0 then Link(fat, s)[s[|s| - 1] := j] else fat
  {
    if |s| > 0 {
      LinkStep(fat, s + [j]);
      assert (s + [j])[..|s|] == s;
    }
  }

  lemma LinkLeaves(fat: Table, s: seq<int>, j: nat)
    requires Linkable(fat, s) && Increasing(s) && j < |fat| && j !in s
    ensures Link(fat, s)[j] == fat[j]
  {
    LinkEntries(fat, s);
  }

  /** One step of the allocator's loop: the links so far and the next cluster. */
  lemma LinkNext(fat: Table, j: nat)
    requires Indexable(fat) && 2 <= j < |fat|
    ensures Linkable(fat, FreeUpTo(fat, j))
    ensures Link(fat, FreeUpTo(fat, j))[j] == fat[j]
    ensures fat[j] == 0 ==> FreeUpTo(fat, j + 1) == FreeUpTo(fat, j) + [j]
    ensures fat[j] == 0 ==> var s := FreeUpTo(fat, j);
                            Linkable(fat, s + [j]) &&
                            Link(fat, s + [j]) == if |s| > 0 then Link(fat, s)[s[|s| - 1] := j] else fat
  {
    var s := FreeUpTo(fat, j);
    FreeUpToIncreases(fat, j);
    LinkLeaves(fat, s, j);
    OneMoreLinkable(fat, s, j);
    LinkOneMore(fat, s, j);
  }

  /** The allocator may stop as soon as it has seen `count` free clusters. */
  lemma AllocatePrefix(fat: Table, j: nat)
    requires Indexable(fat) && j <= |fat| && |FreeUpTo(fat, j)| > 0
    ensures Allocate(fat, |FreeUpTo(fat, j)|) ==
            var s := FreeUpTo(fat, j); (s[0], Link(fat, s)[s[|s| - 1] := END_OF_CHAIN])
  {
    FreeUpToPrefix(fat, j, |fat|);
    assert FreeClusters(fat)[..|FreeUpTo(fat, j)|] == FreeUpTo(fat, j);
  }

  /** Entries are below 0x1000, as the packed table can hold. */
  ghost predicate TwelveBit(fat: Table) {
    forall i :: 0 <= i < |fat| ==> fat[i] < 0x1000
  }

  /** `after` has the entries of `fat` in front of the data clusters and from `limit` on. */
  ghost predicate KeptOutside(limit: nat, fat: Table, after: Table) {
    && |after| == |fat| && (TwelveBit(fat) ==> TwelveBit(after))
    && forall c :: 0 <= c < |fat| && (c < 2 || limit <= c) ==> after[c] == fat[c]
  }

  lemma {:induction false} LinkTwelveBit(fat: Table, s: seq<int>)
    requires Linkable(fat, s)
    requires TwelveBit(fat)
    ensures TwelveBit(Link(fat, s))
  {
    if |s| > 1 {
      assert forall i :: 0 <= i < |s| - 1 ==> s[..|s| - 1][i] == s[i];
      LinkTwelveBit(fat, s[..|s| - 1]);
    }
  }

  lemma AllocateKeptOutside(fat: Table, count: nat, limit: nat)
    requires Indexable(fat) && limit <= |fat| && 1 <= count <= |FreeUpTo(fat, limit)|
    ensures KeptOutside(limit, fat, Allocate(fat, count).1)
  {
    AllocateBelow(fat, count, limit);
    AllocateFirstFit(fat, count);
    if TwelveBit(fat) {
      LinkTwelveBit(fat, FreeClusters(fat)[..count]);
    }
    var s := FreeClusters(fat)[..count];
    assert forall c :: c in s ==> 2 <= c < limit;
  }

  method CountFreeClusters(fat: array<U16>) returns (free: nat)
    ensures free == |FreeClusters(fat[..])|
  {
    free := 0;
    var cluster := 2;
    while cluster < fat.Length
      invariant 2 <= cluster && (cluster <= fat.Length || fat.Length < 2)
      invariant free == |FreeUpTo(fat[..], Least(cluster, fat.Length))|
    {
      if fat[cluster] == 0 {
        free := free + 1;
      }
      cluster := cluster + 1;
    }
  }

  /** The linking loop from its state (table, j, i, first_cluster, last_cluster) on. */
  ghost function LinkLoop(fat: Table, j: nat, i: nat, first: U16, last: U16, count: nat): (U16, Table)
    requires |fat| <= END_OF_CHAIN && (i > 0 ==> last < |fat|)
    decreases |fat| - j
  {
    if j >= |fat| then (0, fat)
    else if fat[j] != 0 then LinkLoop(fat, j + 1, i, first, last, count)
    else
      var linked := if i > 0 then fat[last := j] else fat;
      var head := if i > 0 then first else j;
      if i + 1 == count then (head, linked[j := END_OF_CHAIN])
      else LinkLoop(linked, j + 1, i + 1, head, j, count)
  }

  /** The loop state (i, first_cluster, last_cluster) that belongs to the linked clusters `s`. */
  ghost predicate LoopState(s: seq<int>, first: U16, last: U16) {
    |s| > 0 ==> first == s[0] && last == s[|s| - 1]
  }

  /** The rest of the loop when the free clusters below `j` are linked. */
  ghost function LoopFrom(fat: Table, j: nat, first: U16, last: U16, count: nat): (U16, Table)
    requires Indexable(fat) && j <= |fat| && LoopState(FreeUpTo(fat, j), first, last)
  {
    FreeUpToIncreases(fat, j);
    LinkLoop(Link(fat, FreeUpTo(fat, j)), j, |FreeUpTo(fat, j)|, first, last, count)
  }

  /** A cluster that is in use is skipped. */
  lemma LoopSkips(fat: Table, j: nat, first: U16, last: U16, count: nat)
    requires Indexable(fat) && 2 <= j < |fat| && fat[j] != 0 && LoopState(FreeUpTo(fat, j), first, last)
    ensures FreeUpTo(fat, j + 1) == FreeUpTo(fat, j)
    ensures LoopFrom(fat, j, first, last, count) == LoopFrom(fat, j + 1, first, last, count)
  {
    LinkNext(fat, j);
  }

  /** A free cluster is linked. */
  lemma LoopLinks(fat: Table, j: nat, first: U16, last: U16, count: nat)
    requires Indexable(fat) && 2 <= j < |fat| && fat[j] == 0 && LoopState(FreeUpTo(fat, j), first, last)
    requires |FreeUpTo(fat, j)| + 1 != count
    ensures var head: U16 := if |FreeUpTo(fat, j)| > 0 then first else j;
            && FreeUpTo(fat, j + 1) == FreeUpTo(fat, j) + [j] && LoopState(FreeUpTo(fat, j + 1), head, j)
            && LoopFrom(fat, j, first, last, count) == LoopFrom(fat, j + 1, head, j, count)
  {
    LinkNext(fat, j);
  }

  /** What the loop answers when cluster `j` is the last requested one. */
  lemma LoopAnswer(fat: Table, j: nat, first: U16, last: U16, count: nat)
    requires Indexable(fat) && 2 <= j < |fat| && fat[j] == 0 && LoopState(FreeUpTo(fat, j), first, last)
    requires |FreeUpTo(fat, j)| + 1 == count
    ensures var s := FreeUpTo(fat, j) + [j];
            Linkable(fat, s) && LoopFrom(fat, j, first, last, count) == (s[0], Link(fat, s)[j := END_OF_CHAIN])
  {
    LinkNext(fat, j);
    LoopStep(Link(fat, FreeUpTo(fat, j)), j, |FreeUpTo(fat, j)|, first, last, count);
  }

  lemma AllocateAnswer(fat: Table, j: nat)
    requires Indexable(fat) && 2 <= j < |fat| && fat[j] == 0
    ensures var s := FreeUpTo(fat, j) + [j];
            Linkable(fat, s) && Allocate(fat, |s|) == (s[0], Link(fat, s)[j := END_OF_CHAIN])
  {
    LinkNext(fat, j);
    AllocatePrefix(fat, j + 1);
  }

  /** The last requested cluster ends the chain. */
  lemma LoopStops(fat: Table, j: nat, first: U16, last: U16, count: nat)
    requires Indexable(fat) && 2 <= j < |fat| && fat[j] == 0 && LoopState(FreeUpTo(fat, j), first, last)
    requires |FreeUpTo(fat, j)| + 1 == count
    ensures LoopFrom(fat, j, first, last, count) == Allocate(fat, count)
  {
    LoopAnswer(fat, j, first, last, count);
    AllocateAnswer(fat, j);
  }

  lemma LoopStep(fat: Table, j: nat, i: nat, first: U16, last: U16, count: nat)
    requires |fat| <= END_OF_CHAIN && (i > 0 ==> last < |fat|) && j < |fat| && fat[j] == 0 && i + 1 == count
    ensures LinkLoop(fat, j, i, first, last, count) ==
            (if i > 0 then first else j, (if i > 0 then fat[last := j] else fat)[j := END_OF_CHAIN])
  {
  }

  /** The loop has come to the end without finding as many clusters as were requested. */
  lemma LoopEnds(fat: Table, first: U16, last: U16, count: nat)
    requires Indexable(fat) && count <= |FreeClusters(fat)| && LoopState(FreeClusters(fat), first, last)
    requires count > 0 ==> |FreeClusters(fat)| < count
    ensures LoopFrom(fat, |fat|, first, last, count) == Allocate(fat, count)
  {
    FreeUpToIncreases(fat, |fat|);
  }

  lemma {:induction false} LoopAllocates(fat: Table, j: nat, first: U16, last: U16, count: nat)
    requires Indexable(fat) && 2 <= j <= |fat| && count <= |FreeClusters(fat)|
    requires LoopState(FreeUpTo(fat, j), first, last) && (count > 0 ==> |FreeUpTo(fat, j)| < count)
    ensures LoopFrom(fat, j, first, last, count) == Allocate(fat, count)
    decreases |fat| - j
  {
    if j == |fat| {
      LoopEnds(fat, first, last, count);
    } else if fat[j] != 0 {
      LoopSkips(fat, j, first, last, count);
      LoopAllocates(fat, j + 1, first, last, count);
    } else if |FreeUpTo(fat, j)| + 1 == count {
      LoopStops(fat, j, first, last, count);
    } else {
      LoopLinks(fat, j, first, last, count);
      LoopAllocates(fat, j + 1, if |FreeUpTo(fat, j)| > 0 then first else j, j, count);
    }
  }

  method CreateClusterChain(fat: array<U16>, marker: U16, count: nat) returns (first: U16)
    requires marker == END_OF_CHAIN && 2 <= fat.Length && Indexable(fat[..])
    modifies fat
    ensures (first, fat[..]) == Allocate(old(fat[..]), count)
  {
    var free := CountFreeClusters(fat);
    if count > free {
      return 0;
    }
    LoopAllocates(fat[..], 2, 0, 0, count);
    var i: U16, j: U16, last: U16 := 0, 2, 0;
    first := 0;
    while j < fat.Length
      invariant 2 <= j <= fat.Length <= END_OF_CHAIN && i < j && (i > 0 ==> last < j)
      invariant LinkLoop(fat[..], j, i, first, last, count) == Allocate(old(fat[..]), count)
    {
      if fat[j] == 0 {
        if i > 0 {
          fat[last] := j;
        } else {
          first := j;
        }
        last := j;
        i := i + 1;
        if i == count {
          fat[j] := marker;
          return;
        }
      }
      j := j + 1;
    }
    return 0;
  }
}
