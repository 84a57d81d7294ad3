/**
 The packed table on the image: two 12-bit entries share three bytes
 (section "FAT Data Structure" of fatgen103).
 */
module FatPacking {
  import opened Bytes
  import opened Fat

  /** Bytes that `n` entries take up. */
  function PackedSize(n: nat): nat {
    (3 * n + 1) / 2
  }

  /** First of the two bytes that hold entry `i`. */
  function EntryOffset(i: nat): nat {
    i * 3 / 2
  }

  /** _lf12_read_fat_entry */
  function ReadFatEntry(fat: seq<Byte>, n: nat): (r: U16)
    requires EntryOffset(n) + 2 <= |fat|
    ensures r < 0x1000
  {
    ReadWord(n % 2 == 1, U16At(fat, EntryOffset(n)))
  }

  function ReadWord(odd: bool, word: U16): (r: U16)
    ensures r < 0x1000
  {
    if odd then word / 0x10 else word % 0x1000
  }

  /** The word that create_fat stores for entry `i`: an odd entry carries the top of its neighbour. */
  function EntryWord(fat: Table, i: nat): U16
    requires i < |fat|
  {
    if i % 2 == 1 then OddWord(fat[i - 1], fat[i]) else fat[i]
  }

  function OddWord(even: U16, odd: U16): U16 {
    ((odd as int) * 0x10 + (even as int) / 0x100) % 0x1_0000
  }

  lemma OddWordFacts(even: U16, odd: U16)
    requires even < 0x1000 && odd < 0x1000
    ensures OddWord(even, odd) / 0x10 == odd
    ensures OddWord(even, odd) % 0x10 == even / 0x100
    ensures OddWord(even, odd) % 0x100 % 0x10 == even / 0x100
  {
    assert OddWord(even, odd) == odd as int * 0x10 + even / 0x100;
  }

  /** The upper byte of an even entry only counts with its low nibble. */
  lemma EvenReadsNibble(lo: Byte, hi: Byte)
    ensures ReadWord(false, (lo as int) + (hi as int) * 0x100) == (lo as int) + (hi as int) % 0x10 * 0x100
  {
  }

  lemma OffsetsGrow(i: nat, n: nat)
    requires i < n
    ensures EntryOffset(i) + 1 <= EntryOffset(n)
    ensures !(n % 2 == 1 && i == n - 1) ==> EntryOffset(i) + 2 <= EntryOffset(n)
    ensures n % 2 == 1 ==> EntryOffset(n - 1) + 1 == EntryOffset(n)
  {
  }

  lemma OffsetFits(i: nat, n: nat)
    requires i < n
    ensures EntryOffset(i) + 2 <= PackedSize(n) && PackedSize(i) <= PackedSize(n)
    ensures i == n - 1 ==> EntryOffset(i) + 2 == PackedSize(n)
  {
  }

  /** The two bytes of `word` stored at `at`. */
  function Store(b: seq<Byte>, at: nat, word: U16): (r: seq<Byte>)
    requires at + 2 <= |b|
    ensures |r| == |b|
  {
    b[at := word % 0x100][at + 1 := word / 0x100]
  }

  /** The buffer after the first `n` entries were stored. */
  ghost function Packed(fat: Table, n: nat, size: nat): (b: seq<Byte>)
    requires n <= |fat| && PackedSize(n) <= size
    ensures |b| == size
  {
    if n == 0 then Zeros(size)
    else
      OffsetFits(n - 1, n);
      Store(Packed(fat, n - 1, size), EntryOffset(n - 1), EntryWord(fat, n - 1))
  }

  /** Every store of the loop stays inside the buffer exactly when all entries fit. */
  lemma StoresInBounds(n: nat, size: nat)
    ensures (forall i: nat :: i < n ==> EntryOffset(i) + 2 <= size) <==> n == 0 || PackedSize(n) <= size
  {
    if n > 0 {
      OffsetFits(n - 1, n);
      forall i: nat | i < n ensures EntryOffset(i) + 2 <= PackedSize(n) {
        OffsetFits(i, n);
      }
    }
  }

  lemma StoreReads(b: seq<Byte>, at: nat, word: U16)
    requires at + 2 <= |b|
    ensures U16At(Store(b, at, word), at) == word
  {
  }

  /** Storing a word leaves the words before it alone. */
  lemma StoreKeeps(b: seq<Byte>, at: nat, word: U16, other: nat)
    requires other + 2 <= at && at + 2 <= |b|
    ensures U16At(Store(b, at, word), other) == U16At(b, other)
  {
  }

  /** The byte shared with the even neighbour is rewritten with the same low nibble. */
  lemma StoreKeepsNeighbour(b: seq<Byte>, at: nat, even: U16, odd: U16)
    requires even < 0x1000 && odd < 0x1000 && 1 <= at && at + 2 <= |b|
    requires ReadWord(false, U16At(b, at - 1)) == even
    ensures ReadWord(false, U16At(Store(b, at, OddWord(even, odd)), at - 1)) == even
  {
    var word := OddWord(even, odd);
    OddWordFacts(even, odd);
    EvenReadsNibble(b[at - 1], b[at]);
    EvenReadsNibble(b[at - 1], word % 0x100);
  }

  lemma EntryIsRead(b: seq<Byte>, fat: Table, n: nat)
    requires TwelveBit(fat) && n < |fat| && EntryOffset(n) + 2 <= |b|
    ensures ReadFatEntry(Store(b, EntryOffset(n), EntryWord(fat, n)), n) == fat[n]
  {
    StoreReads(b, EntryOffset(n), EntryWord(fat, n));
    if n % 2 == 1 {
      OddWordFacts(fat[n - 1], fat[n]);
    }
  }

  lemma EntryIsKept(b: seq<Byte>, fat: Table, n: nat, i: nat)
    requires TwelveBit(fat) && i < n < |fat| && EntryOffset(n) + 2 <= |b|
    requires EntryOffset(i) + 2 <= |b| && ReadFatEntry(b, i) == fat[i]
    ensures ReadFatEntry(Store(b, EntryOffset(n), EntryWord(fat, n)), i) == fat[i]
  {
    OffsetsGrow(i, n);
    if n % 2 == 1 && i == n - 1 {
      StoreKeepsNeighbour(b, EntryOffset(n), fat[i], fat[n]);
    } else {
      StoreKeeps(b, EntryOffset(n), EntryWord(fat, n), EntryOffset(i));
    }
  }

  /** Reading entry `i` of the packed table gives entry `i` back, for every table of 12-bit entries. */
  lemma {:induction false} PackingRoundTrip(fat: Table, n: nat, size: nat, i: nat)
    requires TwelveBit(fat) && i < n <= |fat| && PackedSize(n) <= size
    ensures EntryOffset(i) + 2 <= size && ReadFatEntry(Packed(fat, n, size), i) == fat[i]
  {
    OffsetFits(i, n);
    OffsetFits(n - 1, n);
    if i == n - 1 {
      EntryIsRead(Packed(fat, i, size), fat, i);
    } else {
      PackingRoundTrip(fat, n - 1, size, i);
      EntryIsKept(Packed(fat, n - 1, size), fat, n - 1, i);
    }
  }

  /** One turn of the loop of create_fat. */
  method PackEntry(fat: array<Byte>, entries: array<U16>, i: nat)
    requires i < entries.Length && EntryOffset(i) + 2 <= fat.Length
    modifies fat
    ensures fat[..] == Store(old(fat[..]), EntryOffset(i), EntryWord(entries[..], i))
  {
    var cluster: U16;
    if i % 2 == 1 {
      cluster := OddWord(entries[i - 1], entries[i]);
    } else {
      cluster := entries[i];
    }
    fat[EntryOffset(i)] := cluster % 0x100;
    fat[EntryOffset(i) + 1] := cluster / 0x100;
  }

  /** create_fat */
  method CreateFat(entries: array<U16>, size: nat, count: nat) returns (fat: array<Byte>)
    requires count <= entries.Length && PackedSize(count) <= size
    ensures fat[..] == Packed(entries[..], count, size)
  {
    fat := new Byte[size](i => 0);
    assert fat[..] == Packed(entries[..], 0, size);
    for i := 0 to count
      invariant entries[..] == old(entries[..]) && fat.Length == size
      invariant PackedSize(i) <= size && fat[..] == Packed(entries[..], i, size)
    {
      OffsetFits(i, i + 1);
      PackEntry(fat, entries, i);
    }
  }

  /** The loop of read_fat_entries: `count` entries are unpacked, the rest of the table keeps its value. */
  method UnpackFat(fat: seq<Byte>, entries: array<U16>, count: nat)
    requires count <= entries.Length && PackedSize(count) <= |fat|
    modifies entries
    ensures forall i :: 0 <= i < count ==> entries[i] == ReadFatEntry(fat, i)
    ensures forall i :: count <= i < entries.Length ==> entries[i] == old(entries[i])
  {
    for i := 0 to count
      invariant forall j :: 0 <= j < i ==> entries[j] == ReadFatEntry(fat, j)
      invariant forall j :: i <= j < entries.Length ==> entries[j] == old(entries[j])
    {
      entries[i] := ReadFatEntry(fat, i);
    }
  }
}
