/** Packing 12-bit FAT entries into bytes (SetFat12Entry, WriteFat12Entries and
    LinkClusterChain in UefiSupport.cs). */
module Fat12Table {
  import opened Bytes
  import opened Splices

  /** Entry `i` as the FAT specification reads it: the 16-bit word at `i + i/2`, its low
      twelve bits for an even entry and its high twelve bits for an odd one. */
  function Entry(fat: seq<byte>, i: nat): (r: nat)
    requires i + i / 2 + 1 < |fat|
    ensures r < 4096
  {
    var word := Read16(fat, i + i / 2);
    if i % 2 == 0 then word % 4096 else word / 16
  }

  function WithEntry(fat: seq<byte>, index: nat, value: nat): (r: seq<byte>)
    requires index + index / 2 + 1 < |fat|
    ensures |r| == |fat|
  {
    var v := value % 4096;
    var at := index + index / 2;
    if index % 2 == 0 then
      fat[at := v % 256][at + 1 := fat[at + 1] / 16 * 16 + v / 256]
    else
      fat[at := fat[at] % 16 + v % 16 * 16][at + 1 := v / 16]
  }

  lemma WordBits(lo: int, hi: int)
    requires 0 <= lo < 256 && 0 <= hi < 256
    ensures (lo + 256 * hi) / 16 == lo / 16 + 16 * hi
    ensures (lo + 256 * hi) % 4096 == lo + 256 * (hi % 16)
  {
    var q, r, a, b := hi / 16, hi % 16, lo / 16, lo % 16;
    assert lo + 256 * hi == 16 * (a + 16 * hi) + b;
    assert lo + 256 * hi == (lo + 256 * r) + 4096 * q;
  }

  /** Entry `i` in terms of its two bytes: which bits of each byte belong to it. */
  lemma EntryBits(fat: seq<byte>, i: nat)
    requires i + i / 2 + 1 < |fat|
    ensures var lo, hi := fat[i + i / 2] as int, fat[i + i / 2 + 1] as int;
            Entry(fat, i) == if i % 2 == 0 then lo + hi % 16 * 256 else lo / 16 + hi * 16
  {
    WordBits(fat[i + i / 2], fat[i + i / 2 + 1]);
  }

  lemma Nibbles(b: int, v: int)
    requires 0 <= b < 256 && 0 <= v < 4096
    ensures (b / 16 * 16 + v / 256) % 16 == v / 256 && (b / 16 * 16 + v / 256) / 16 == b / 16
    ensures (b % 16 + v % 16 * 16) / 16 == v % 16 && (b % 16 + v % 16 * 16) % 16 == b % 16
  {
  }

  /** A write sets its own entry to the low twelve bits and leaves every other entry alone,
      the neighbour that shares a byte included. */
  lemma WithEntryRead(fat: seq<byte>, index: nat, value: nat, j: nat)
    requires index + index / 2 + 1 < |fat| && j + j / 2 + 1 < |fat|
    ensures Entry(WithEntry(fat, index, value), j) == if j == index then value % 4096 else Entry(fat, j)
  {
    hide Entry;
    EntryBits(WithEntry(fat, index, value), j);
    EntryBits(fat, j);
    if j == index {
      OwnNibbles(fat, index, value);
    } else if (j == index + 1 && index % 2 == 0) || (index == j + 1 && j % 2 == 0) {
      NeighbourNibbles(fat, index, value);
    } else {
      assert j + j / 2 + 1 < index + index / 2 || index + index / 2 + 1 < j + j / 2;
    }
  }

  /** The two bytes written hold the value. */
  lemma OwnNibbles(fat: seq<byte>, index: nat, value: nat)
    requires index + index / 2 + 1 < |fat|
    ensures var after, at := WithEntry(fat, index, value), index + index / 2;
            value % 4096 == if index % 2 == 0 then after[at] as int + after[at + 1] as int % 16 * 256
                            else after[at] as int / 16 + after[at + 1] as int * 16
  {
    var at, v := index + index / 2, value % 4096;
    if index % 2 == 0 { Nibbles(fat[at + 1], v); } else { Nibbles(fat[at], v); }
  }

  /** In the byte shared with a neighbour, the neighbour's half stays. */
  lemma NeighbourNibbles(fat: seq<byte>, index: nat, value: nat)
    requires index + index / 2 + 1 < |fat|
    ensures var after, at := WithEntry(fat, index, value), index + index / 2;
            if index % 2 == 0 then after[at + 1] as int / 16 == fat[at + 1] as int / 16
            else after[at] as int % 16 == fat[at] as int % 16
  {
    var at, v := index + index / 2, value % 4096;
    if index % 2 == 0 { Nibbles(fat[at + 1], v); } else { Nibbles(fat[at], v); }
  }

  method SetFat12Entry(fat: array<byte>, index: nat, value: nat)
    requires index + index / 2 + 1 < fat.Length
    modifies fat
    ensures fat[..] == WithEntry(old(fat[..]), index, value)
  {
    var v := value % 4096;
    var offset := index + index / 2;
    if index % 2 == 0 {
      fat[offset] := v % 256;
      fat[offset + 1] := fat[offset + 1] / 16 * 16 + v / 256;
    } else {
      fat[offset] := fat[offset] % 16 + v % 16 * 16;
      fat[offset + 1] := v / 16;
    }
  }

  /** Any sequence of writes: each entry ends with the last value written to it. */
  function Written(fat: seq<byte>, writes: seq<(nat, nat)>): (r: seq<byte>)
    requires forall w <- writes :: w.0 + w.0 / 2 + 1 < |fat|
    ensures |r| == |fat|
  {
    if writes == [] then fat else
      var last := writes[|writes| - 1];
      assert last in writes;
      WithEntry(Written(fat, writes[..|writes| - 1]), last.0, last.1)
  }

  function LastWritten(fat: seq<byte>, writes: seq<(nat, nat)>, j: nat): nat
    requires j + j / 2 + 1 < |fat|
  {
    if writes == [] then Entry(fat, j)
    else if writes[|writes| - 1].0 == j then writes[|writes| - 1].1 % 4096
    else LastWritten(fat, writes[..|writes| - 1], j)
  }

  lemma {:induction false} WrittenRead(fat: seq<byte>, writes: seq<(nat, nat)>, j: nat)
    requires forall w <- writes :: w.0 + w.0 / 2 + 1 < |fat|
    requires j + j / 2 + 1 < |fat|
    ensures Entry(Written(fat, writes), j) == LastWritten(fat, writes, j)
  {
    if writes != [] {
      var last := writes[|writes| - 1];
      assert last in writes;
      WrittenRead(fat, writes[..|writes| - 1], j);
      WithEntryRead(Written(fat, writes[..|writes| - 1]), last.0, last.1, j);
    }
  }

  lemma ZeroEntry(fat: seq<byte>, j: nat)
    requires j + j / 2 + 1 < |fat|
    requires forall i | 0 <= i < |fat| :: fat[i] == 0
    ensures Entry(fat, j) == 0
  {
  }

  /** After WriteFat12Entries the table reads back entry by entry, with zeros after it. */
  method WriteFat12Entries(fatBytes: array<byte>, entries: seq<nat>)
    requires 2 <= |entries| && |entries| + |entries| / 2 + 1 < fatBytes.Length
    modifies fatBytes
    ensures forall j: nat | j + j / 2 + 1 < fatBytes.Length ::
              Entry(fatBytes[..], j) == if j < |entries| then entries[j] % 4096 else 0
  {
    CopyTo(fatBytes, 0, Zeros(fatBytes.Length));
    forall j: nat | j + j / 2 + 1 < fatBytes.Length ensures Entry(fatBytes[..], j) == 0 {
      ZeroEntry(fatBytes[..], j);
    }
    Step(fatBytes, entries, 0);
    Step(fatBytes, entries, 1);
    var i := 2;
    while i < |entries|
      invariant 2 <= i <= |entries|
      invariant forall j: nat | j + j / 2 + 1 < fatBytes.Length ::
                  Entry(fatBytes[..], j) == if j < i then entries[j] % 4096 else 0
    {
      if entries[i] != 0 {
        Step(fatBytes, entries, i);
      }
      i := i + 1;
    }
  }

  method Step(fatBytes: array<byte>, entries: seq<nat>, i: nat)
    requires i < |entries| && |entries| + |entries| / 2 + 1 < fatBytes.Length
    requires forall j: nat | j + j / 2 + 1 < fatBytes.Length ::
               Entry(fatBytes[..], j) == if j < i then entries[j] % 4096 else 0
    modifies fatBytes
    ensures forall j: nat | j + j / 2 + 1 < fatBytes.Length ::
              Entry(fatBytes[..], j) == if j < i + 1 then entries[j] % 4096 else 0
  {
    ghost var before := fatBytes[..];
    SetFat12Entry(fatBytes, i, entries[i]);
    forall j: nat | j + j / 2 + 1 < fatBytes.Length
      ensures Entry(fatBytes[..], j) == if j < i + 1 then entries[j] % 4096 else 0
    {
      WithEntryRead(before, i, entries[i], j);
    }
  }

  /** Value of the FAT entry at position `k` of a chain of `count` clusters from `start`. */
  function LinkAt(start: nat, count: nat, k: nat): nat {
    if k + 1 == count then 0xFFF else start + k + 1
  }

  method LinkClusterChain(fatEntries: array<nat>, start: nat, count: nat)
    requires start + count <= fatEntries.Length
    modifies fatEntries
    ensures forall k | 0 <= k < count :: fatEntries[start + k] == LinkAt(start, count, k)
    ensures forall c | 0 <= c < fatEntries.Length && !(start <= c < start + count) ::
              fatEntries[c] == old(fatEntries[c])
  {
    var i := 0;
    while i < count
      invariant 0 <= i <= count
      invariant forall k | 0 <= k < i :: fatEntries[start + k] == LinkAt(start, count, k)
      invariant forall c | 0 <= c < fatEntries.Length && !(start <= c < start + count) ::
                  fatEntries[c] == old(fatEntries[c])
    {
      var cluster := start + i;
      fatEntries[cluster] := if i == count - 1 then 0xFFF else cluster + 1;
      i := i + 1;
    }
  }
}
