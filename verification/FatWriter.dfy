/** Writing the partition image in place: boot sector, both FATs, the root directory,
    sub-directory clusters and file clusters (UefiSupport.cs). */
module FatWriter {
  import opened Bytes
  import opened Splices
  import opened ShortNames
  import opened FatTree
  import opened FatLayout
  import opened Fat12Table

  const DiskBytes := TotalSectors * BytesPerSector
  const FatBytes := SectorsPerFat * BytesPerSector
  const Fat1Offset := ReservedSectors * BytesPerSector
  const Fat2Offset := Fat1Offset + FatBytes
  const RootOffset := (ReservedSectors + FatCount * SectorsPerFat) * BytesPerSector
  const RootBytes := RootDirectorySectors * BytesPerSector
  const DataOffset := FirstDataSector * BytesPerSector

  /** Byte offset of a data cluster. */
  function ClusterOffset(cluster: nat): nat
    requires cluster >= 2
  {
    (FirstDataSector + (cluster - 2) * SectorsPerCluster) * BytesPerSector
  }

  // ---- directory entries ----

  function AsciiByte(c: char): byte {
    if c as int < 128 then c as int else 63
  }

  /** A name field: upper-cased, cut to `width`, padded with spaces. */
  function FieldBytes(s: string, width: nat): (r: seq<byte>)
    ensures |r| == width
  {
    seq(width, i requires 0 <= i < width => if i < |s| then AsciiByte(Upper(s[i])) else 32)
  }

  function EntryBytes(short: ShortName, attributes: byte, cluster: nat, size: nat): (r: seq<byte>)
    ensures |r| == 32
  {
    FieldBytes(short.name, 8) + FieldBytes(short.extension, 3) + [attributes] + Zeros(14) + Le16(cluster) + Le32(size)
  }

  function SpecialEntryBytes(second: byte, cluster: nat): (r: seq<byte>)
    ensures |r| == 32
  {
    [46, second] + Zeros(9) + [0x10] + Zeros(14) + Le16(cluster) + Zeros(4)
  }

  function NodeEntry(n: Node): (r: seq<byte>)
    ensures |r| == 32
  {
    if n.Directory? then EntryBytes(n.Short(), 0x10, n.startCluster, 0)
    else EntryBytes(n.Short(), 0x20, n.startCluster, |n.data|)
  }

  /** The bytes of an entry one by one: the name in eight, the extension in three, the
      attribute, fourteen zeros, the cluster and the size. */
  lemma EntryLayout(n: Node, i: nat)
    requires i < 32
    ensures var e := NodeEntry(n);
            var size := if n.File? then |n.data| else 0;
            e[i] as int == if i < 8 then if i < |n.Short().name| then AsciiByte(Upper(n.Short().name[i])) else 0x20
                           else if i < 11 then
                             if i < 8 + |n.Short().extension| then AsciiByte(Upper(n.Short().extension[i - 8]))
                             else 0x20
                           else if i == 11 then if n.File? then 0x20 else 0x10
                           else if i < 26 then 0
                           else if i == 26 then n.startCluster % 256
                           else if i == 27 then n.startCluster / 256 % 256
                           else if i == 28 then size % 256
                           else if i == 29 then size / 256 % 256
                           else if i == 30 then size / 65536 % 256
                           else size / 16777216 % 256
  {
    hide FieldBytes;
    if i < 11 { EntryText(n.Short(), i); }
  }

  lemma EntryText(short: ShortName, i: nat)
    requires i < 11
    ensures i < 8 ==> FieldBytes(short.name, 8)[i] == if i < |short.name| then AsciiByte(Upper(short.name[i])) else 0x20
    ensures i >= 8 ==>
              FieldBytes(short.extension, 3)[i - 8]
                == if i - 8 < |short.extension| then AsciiByte(Upper(short.extension[i - 8])) else 0x20
  {
  }

  /** The bytes of a `.` or `..` entry. */
  lemma SpecialLayout(second: byte, cluster: nat)
    ensures var e := SpecialEntryBytes(second, cluster);
            && e[0] == 0x2E && e[1] == second && e[2..11] == Zeros(9) && e[11] == 0x10 && e[12..26] == Zeros(14)
            && e[26] == cluster % 256 && e[27] == cluster / 256 % 256 && e[28..32] == Zeros(4)
  {
  }

  /** The six fields of an entry, each laid over a cleared entry. */
  lemma EntryBuilt(short: ShortName, attributes: byte, cluster: nat, size: nat)
    ensures var e1 := Splice(Zeros(32), 0, FieldBytes(short.name, 8));
            var e2 := Splice(e1, 8, FieldBytes(short.extension, 3));
            var e3 := Splice(e2, 11, [attributes]);
            var e4 := Splice(e3, 26, Le16(cluster));
            Splice(e4, 28, Le32(size)) == EntryBytes(short, attributes, cluster, size)
  {
    var e2 := FieldBytes(short.name, 8) + FieldBytes(short.extension, 3) + Zeros(21);
    assert Splice(Splice(Zeros(32), 0, FieldBytes(short.name, 8)), 8, FieldBytes(short.extension, 3)) == e2;
    var e4 := FieldBytes(short.name, 8) + FieldBytes(short.extension, 3) + [attributes] + Zeros(14) + Le16(cluster)
      + Zeros(4);
    assert Splice(Splice(e2, 11, [attributes]), 26, Le16(cluster)) == e4;
    assert Splice(e4, 28, Le32(size)) == EntryBytes(short, attributes, cluster, size);
  }

  method WriteDirectoryEntry(buffer: array<byte>, at: nat, short: ShortName, attributes: byte, cluster: nat, size: nat)
    requires at + 32 <= buffer.Length
    modifies buffer
    ensures buffer[..] == Splice(old(buffer[..]), at, EntryBytes(short, attributes, cluster, size))
  {
    hide Splice, FieldBytes, EntryBytes, Le16, Le32;
    ghost var e := Zeros(32);
    CopyTo(buffer, at, Zeros(32));
    e := Amend(buffer, at, old(buffer[..]), e, 0, FieldBytes(short.name, 8));
    e := Amend(buffer, at, old(buffer[..]), e, 8, FieldBytes(short.extension, 3));
    e := Amend(buffer, at, old(buffer[..]), e, 11, [attributes]);
    e := Amend(buffer, at, old(buffer[..]), e, 26, Le16(cluster));
    e := Amend(buffer, at, old(buffer[..]), e, 28, Le32(size));
    EntryBuilt(short, attributes, cluster, size);
  }

  /** Writes one field of the entry at `at`, keeping track of the entry so far. */
  method Amend(buffer: array<byte>, at: nat, ghost base: seq<byte>, ghost entry: seq<byte>, k: nat, field: seq<byte>)
    returns (ghost e: seq<byte>)
    requires |base| == buffer.Length && at + |entry| <= buffer.Length && k + |field| <= |entry|
    requires buffer[..] == Splice(base, at, entry)
    modifies buffer
    ensures e == Splice(entry, k, field) && buffer[..] == Splice(base, at, e)
  {
    SpliceNested(base, at, entry, k, field);
    CopyTo(buffer, at + k, field);
    e := Splice(entry, k, field);
  }

  lemma SpecialEntryBuilt(second: byte, cluster: nat)
    ensures var e1 := Splice(Zeros(32), 0, [46]);
            var e2 := Splice(e1, 1, [second]);
            var e3 := Splice(e2, 11, [0x10]);
            Splice(e3, 26, Le16(cluster)) == SpecialEntryBytes(second, cluster)
  {
    var e2 := [46, second] + Zeros(30);
    assert Splice(Splice(Zeros(32), 0, [46]), 1, [second]) == e2;
    assert Splice(e2, 11, [0x10]) == [46, second] + Zeros(9) + [0x10] + Zeros(20);
  }

  method WriteSpecialDirectoryEntry(buffer: array<byte>, at: nat, name: string, cluster: nat)
    requires at + 32 <= buffer.Length && (name == "." || name == "..")
    modifies buffer
    ensures buffer[..] == Splice(old(buffer[..]), at, SpecialEntryBytes(if name == "." then 32 else 46, cluster))
  {
    hide Splice, SpecialEntryBytes, Le16;
    ghost var e := Zeros(32);
    CopyTo(buffer, at, Zeros(32));
    e := Amend(buffer, at, old(buffer[..]), e, 0, [46]);
    if name == "." {
      e := Amend(buffer, at, old(buffer[..]), e, 1, [32]);
    } else {
      e := Amend(buffer, at, old(buffer[..]), e, 1, [46]);
    }
    e := Amend(buffer, at, old(buffer[..]), e, 11, [0x10]);
    e := Amend(buffer, at, old(buffer[..]), e, 26, Le16(cluster));
    SpecialEntryBuilt(if name == "." then 32 else 46, cluster);
  }

  method WriteNodeEntry(buffer: array<byte>, at: nat, n: Node)
    requires at + 32 <= buffer.Length
    modifies buffer
    ensures buffer[..] == Splice(old(buffer[..]), at, NodeEntry(n))
  {
    if n.Directory? {
      WriteDirectoryEntry(buffer, at, n.Short(), 0x10, n.startCluster, 0);
    } else {
      WriteDirectoryEntry(buffer, at, n.Short(), 0x20, n.startCluster, |n.data|);
    }
  }

  /** From offset `at`, `bytes` holds one entry per child in order, and nothing but zeros
      after the last. */
  ghost predicate HoldsEntries(bytes: seq<byte>, at: nat, nodes: seq<Node>, children: seq<nat>)
    requires Within(children, |nodes|)
  {
    && at + 32 * |children| <= |bytes|
    && (forall k :: 0 <= k < |children| ==> EntryAt(bytes, at, k) == NodeEntry(nodes[children[k]]))
    && (forall i :: at + 32 * |children| <= i < |bytes| ==> bytes[i] == 0)
  }

  function EntryAt(bytes: seq<byte>, at: nat, k: nat): seq<byte>
    requires at + 32 * k + 32 <= |bytes|
  {
    bytes[at + 32 * k..at + 32 * k + 32]
  }

  lemma EntriesStep(bytes: seq<byte>, at: nat, nodes: seq<Node>, children: seq<nat>, c: nat)
    requires Within(children, |nodes|) && c < |nodes| && HoldsEntries(bytes, at, nodes, children)
    requires at + 32 * |children| + 32 <= |bytes|
    ensures HoldsEntries(Splice(bytes, at + 32 * |children|, NodeEntry(nodes[c])), at, nodes, children + [c])
  {
    var after := Splice(bytes, at + 32 * |children|, NodeEntry(nodes[c]));
    forall k | 0 <= k < |children| + 1
      ensures EntryAt(after, at, k) == NodeEntry(nodes[(children + [c])[k]])
    {
      if k < |children| {
        SpliceFrame(bytes, at + 32 * |children|, NodeEntry(nodes[c]), at + 32 * k, at + 32 * k + 32);
        assert EntryAt(after, at, k) == EntryAt(bytes, at, k);
      } else {
        SpliceRead(bytes, at + 32 * |children|, NodeEntry(nodes[c]));
      }
    }
  }

  // ---- directories and files ----

  /** Where the `..` entry of directory `d` points: 0 for a child of the root. */
  function ParentCluster(nodes: seq<Node>, d: nat): nat
    requires WellFormed(nodes) && IsDirectory(nodes, d) && d > Root && nodes[d].parent.Some?
    requires IsDirectory(nodes, nodes[d].parent.value)
  {
    var p := nodes[d].parent.value;
    if nodes[p].parent.None? then 0 else nodes[p].startCluster
  }

  ghost predicate HasParent(nodes: seq<Node>, d: nat) {
    WellFormed(nodes) && IsDirectory(nodes, d) && d > Root && nodes[d].parent.Some?
      && IsDirectory(nodes, nodes[d].parent.value)
  }

  /** Two header entries naming the clusters `self` and `parent`, then those of `children`. */
  ghost predicate Listing(bytes: seq<byte>, self: nat, parent: nat, nodes: seq<Node>, children: seq<nat>)
    requires Within(children, |nodes|)
  {
    && |bytes| >= 64
    && bytes[0..32] == SpecialEntryBytes(32, self)
    && bytes[32..64] == SpecialEntryBytes(46, parent)
    && HoldsEntries(bytes, 64, nodes, children)
  }

  /** What the clusters of a sub-directory hold. */
  ghost predicate DirectoryContents(bytes: seq<byte>, nodes: seq<Node>, d: nat)
    requires HasParent(nodes, d)
  {
    assert InRange(nodes, d);
    Listing(bytes, nodes[d].startCluster, ParentCluster(nodes, d), nodes, nodes[d].children)
  }

  /** `data` cut or zero-filled to exactly `n` bytes. */
  function Fitted(data: seq<byte>, n: nat): (r: seq<byte>)
    ensures |r| == n
  {
    if n <= |data| then data[..n] else PadTo(data, n)
  }

  /** The cluster of `data` that starts at byte `from`, zero-filled. */
  function Chunk(data: seq<byte>, from: nat): (r: seq<byte>)
    ensures |r| == ClusterSizeBytes
  {
    Fitted(if from < |data| then data[from..] else [], ClusterSizeBytes)
  }

  lemma FittedSnoc(data: seq<byte>, n: nat)
    ensures Fitted(data, n) + Chunk(data, n) == Fitted(data, n + ClusterSizeBytes)
  {
  }

  method WriteCluster(disk: array<byte>, at: nat, data: seq<byte>, sourceOffset: nat)
    requires at + ClusterSizeBytes <= disk.Length
    modifies disk
    ensures disk[..] == Splice(old(disk[..]), at, Chunk(data, sourceOffset))
  {
    CopyTo(disk, at, Zeros(ClusterSizeBytes));
    if sourceOffset >= |data| {
      assert Zeros(ClusterSizeBytes) == Chunk(data, sourceOffset);
      return;
    }
    var chunkLength := if ClusterSizeBytes < |data| - sourceOffset then ClusterSizeBytes else |data| - sourceOffset;
    var piece := data[sourceOffset..sourceOffset + chunkLength];
    SpliceNested(old(disk[..]), at, Zeros(ClusterSizeBytes), 0, piece);
    CopyTo(disk, at, piece);
    assert Splice(Zeros(ClusterSizeBytes), 0, piece) == Chunk(data, sourceOffset);
  }

  lemma NothingFitted(disk: seq<byte>, at: nat, data: seq<byte>)
    requires at <= |disk|
    ensures disk == Splice(disk, at, Fitted(data, 0))
  {
  }

  /** One more cluster of the chain. */
  lemma ChunkStep(before: seq<byte>, data: seq<byte>, start: nat, i: nat, count: nat)
    requires start >= 2 && i < count && ClusterOffset(start) + count * ClusterSizeBytes <= |before|
    ensures var now := Splice(before, ClusterOffset(start), Fitted(data, i * ClusterSizeBytes));
            && ClusterOffset(start + i) + ClusterSizeBytes <= |before|
            && Splice(now, ClusterOffset(start + i), Chunk(data, i * ClusterSizeBytes))
               == Splice(before, ClusterOffset(start), Fitted(data, (i + 1) * ClusterSizeBytes))
  {
    hide Splice, Fitted, Chunk;
    var n := i * ClusterSizeBytes;
    ClusterOffsetStep(start, i, count);
    SpliceAppend(before, ClusterOffset(start), Fitted(data, n), Chunk(data, n));
    FittedSnoc(data, n);
  }

  lemma ClusterOffsetStep(start: nat, i: nat, count: nat)
    requires start >= 2 && i < count
    ensures ClusterOffset(start + i) == ClusterOffset(start) + i * ClusterSizeBytes
    ensures (i + 1) * ClusterSizeBytes == i * ClusterSizeBytes + ClusterSizeBytes <= count * ClusterSizeBytes
  {
  }

  method WriteFileToClusterChain(disk: array<byte>, data: seq<byte>, start: nat, count: nat)
    requires start >= 2 && ClusterOffset(start) + count * ClusterSizeBytes <= disk.Length
    modifies disk
    ensures disk[..] == Splice(old(disk[..]), ClusterOffset(start), Fitted(data, count * ClusterSizeBytes))
  {
    ghost var before := disk[..];
    var i := 0;
    NothingFitted(before, ClusterOffset(start), data);
    while i < count
      invariant 0 <= i <= count
      invariant disk[..] == Splice(before, ClusterOffset(start), Fitted(data, i * ClusterSizeBytes))
    {
      hide Splice, Fitted, Chunk, ClusterOffset;
      ChunkStep(before, data, start, i, count);
      WriteCluster(disk, ClusterOffset(start + i), data, i * ClusterSizeBytes);
      i := i + 1;
    }
  }

  /** The bytes of a sub-directory, built in a fresh buffer. */
  method DirectoryBytes(nodes: seq<Node>, d: nat) returns (bytes: array<byte>)
    requires HasParent(nodes, d)
    requires (|nodes[d].children| + 2) * 32 <= nodes[d].clusterCount * ClusterSizeBytes
    ensures fresh(bytes) && bytes.Length == nodes[d].clusterCount * ClusterSizeBytes
    ensures DirectoryContents(bytes[..], nodes, d)
  {
    var n := nodes[d];
    assert InRange(nodes, d);
    hide WellFormed, Listing;
    bytes := new byte[n.clusterCount * ClusterSizeBytes](_ => 0);
    WriteListing(bytes, n.startCluster, ParentCluster(nodes, d), nodes, n.children);
  }

  method WriteListing(bytes: array<byte>, self: nat, parent: nat, nodes: seq<Node>, children: seq<nat>)
    requires Within(children, |nodes|) && (|children| + 2) * 32 <= bytes.Length
    requires forall k :: 0 <= k < bytes.Length ==> bytes[k] == 0
    modifies bytes
    ensures Listing(bytes[..], self, parent, nodes, children)
  {
    hide Splice, SpecialEntryBytes, NodeEntry, Listing;
    ghost var blank := bytes[..];
    WriteSpecialDirectoryEntry(bytes, 0, ".", self);
    WriteSpecialDirectoryEntry(bytes, 32, "..", parent);
    HeaderWritten(blank, self, parent, nodes);
    var i := 0;
    while i < |children|
      invariant 0 <= i <= |children| && Listing(bytes[..], self, parent, nodes, children[..i])
    {
      ListingStep(bytes[..], self, parent, nodes, children, i);
      WriteNodeEntry(bytes, 64 + i * 32, nodes[children[i]]);
      i := i + 1;
    }
    assert children[..i] == children;
  }

  /** One more child. */
  lemma ListingStep(bytes: seq<byte>, self: nat, parent: nat, nodes: seq<Node>, children: seq<nat>, i: nat)
    requires Within(children, |nodes|) && i < |children| && 64 + i * 32 + 32 <= |bytes|
    requires Listing(bytes, self, parent, nodes, children[..i])
    ensures Listing(Splice(bytes, 64 + i * 32, NodeEntry(nodes[children[i]])), self, parent, nodes, children[..i + 1])
  {
    hide Splice, SpecialEntryBytes, NodeEntry, HoldsEntries;
    var e := NodeEntry(nodes[children[i]]);
    EntriesStep(bytes, 64, nodes, children[..i], children[i]);
    SpliceFrame(bytes, 64 + i * 32, e, 0, 32);
    SpliceFrame(bytes, 64 + i * 32, e, 32, 64);
    assert children[..i + 1] == children[..i] + [children[i]];
  }

  /** The two header entries over a cleared buffer. */
  lemma HeaderWritten(blank: seq<byte>, self: nat, parent: nat, nodes: seq<Node>)
    requires |blank| >= 64 && forall k :: 0 <= k < |blank| ==> blank[k] == 0
    ensures Listing(Splice(Splice(blank, 0, SpecialEntryBytes(32, self)), 32, SpecialEntryBytes(46, parent)), self,
                    parent, nodes, [])
  {
    hide SpecialEntryBytes;
    var dot, dotDot := SpecialEntryBytes(32, self), SpecialEntryBytes(46, parent);
    var first := Splice(blank, 0, dot);
    SpliceRead(blank, 0, dot);
    SpliceRead(first, 32, dotDot);
    SpliceFrame(first, 32, dotDot, 0, 32);
    forall k | 64 <= k < |blank| ensures Splice(first, 32, dotDot)[k] == 0 {
      SpliceAt(first, 32, dotDot, k);
      SpliceAt(blank, 0, dot, k);
    }
    hide Splice;
  }

  method WriteDirectoryClusters(disk: array<byte>, nodes: seq<Node>, d: nat)
    requires HasParent(nodes, d) && nodes[d].startCluster >= 2
    requires (|nodes[d].children| + 2) * 32 <= nodes[d].clusterCount * ClusterSizeBytes
    requires ClusterOffset(nodes[d].startCluster) + nodes[d].clusterCount * ClusterSizeBytes <= disk.Length
    modifies disk
    ensures exists payload: seq<byte> ::
              |payload| == nodes[d].clusterCount * ClusterSizeBytes && DirectoryContents(payload, nodes, d)
              && disk[..] == Splice(old(disk[..]), ClusterOffset(nodes[d].startCluster), payload)
  {
    hide WellFormed, Splice, DirectoryContents;
    var bytes := DirectoryBytes(nodes, d);
    ghost var payload := bytes[..];
    assert Fitted(payload, |payload|) == payload;
    WriteFileToClusterChain(disk, bytes[..], nodes[d].startCluster, nodes[d].clusterCount);
  }

  /** The root area holds the entries of `children`; what lies around it is as before. */
  ghost predicate RootHolds(now: seq<byte>, before: seq<byte>, nodes: seq<Node>, children: seq<nat>)
    requires |now| == |before| == DiskBytes && Within(children, |nodes|)
  {
    && HoldsEntries(now[RootOffset..DataOffset], 0, nodes, children)
    && now[..RootOffset] == before[..RootOffset] && now[DataOffset..] == before[DataOffset..]
  }

  lemma RootCleared(before: seq<byte>, nodes: seq<Node>)
    requires |before| == DiskBytes
    ensures RootHolds(Splice(before, RootOffset, Zeros(RootBytes)), before, nodes, [])
  {
    SpliceRead(before, RootOffset, Zeros(RootBytes));
    SpliceWindow(before, RootOffset, Zeros(RootBytes), RootOffset, DataOffset);
    hide Splice;
  }

  /** One more entry in the root area. */
  lemma RootEntryStep(now: seq<byte>, before: seq<byte>, nodes: seq<Node>, children: seq<nat>, i: nat)
    requires |now| == |before| == DiskBytes && Within(children, |nodes|) && i < |children| && i < RootEntryCount
    requires RootHolds(now, before, nodes, children[..i])
    ensures RootHolds(Splice(now, RootOffset + i * 32, NodeEntry(nodes[children[i]])), before, nodes, children[..i + 1])
  {
    hide NodeEntry, Splice, HoldsEntries;
    EntriesStep(now[RootOffset..DataOffset], 0, nodes, children[..i], children[i]);
    assert children[..i + 1] == children[..i] + [children[i]];
    SpliceWindow(now, RootOffset + i * 32, NodeEntry(nodes[children[i]]), RootOffset, DataOffset);
  }

  /** Fails, as slicing past the 224-entry area does, exactly when the root holds more. */
  method WriteRootDirectory(disk: array<byte>, nodes: seq<Node>) returns (ok: bool)
    requires WellFormed(nodes) && disk.Length == DiskBytes
    modifies disk
    ensures ok <==> |nodes[Root].children| <= RootEntryCount
    ensures disk[..RootOffset] == old(disk[..RootOffset]) && disk[DataOffset..] == old(disk[DataOffset..])
    ensures ok ==>
              assert InRange(nodes, Root);
              HoldsEntries(disk[RootOffset..DataOffset], 0, nodes, nodes[Root].children)
  {
    hide HoldsEntries;
    assert InRange(nodes, Root);
    hide WellFormed;
    ok := WriteRootEntries(disk, nodes, nodes[Root].children);
  }

  method WriteRootEntries(disk: array<byte>, nodes: seq<Node>, children: seq<nat>) returns (ok: bool)
    requires Within(children, |nodes|) && disk.Length == DiskBytes
    modifies disk
    ensures ok <==> |children| <= RootEntryCount
    ensures exists written :: written <= children && (ok ==> written == children)
              && RootHolds(disk[..], old(disk[..]), nodes, written)
  {
    hide HoldsEntries, NodeEntry, RootHolds, Splice;
    ghost var before := disk[..];
    RootCleared(before, nodes);
    CopyTo(disk, RootOffset, Zeros(RootBytes));
    var i := 0;
    while i < |children|
      invariant 0 <= i <= |children| && i <= RootEntryCount && RootHolds(disk[..], before, nodes, children[..i])
    {
      if i * 32 + 32 > RootBytes {
        return false;
      }
      RootEntryStep(disk[..], before, nodes, children, i);
      WriteNodeEntry(disk, RootOffset + i * 32, nodes[children[i]]);
      i := i + 1;
    }
    assert children[..|children|] == children;
    return true;
  }

  // ---- boot sector and FATs ----

  function AsciiPadded(s: string, width: nat): (r: seq<byte>)
    ensures |r| == width
  {
    seq(width, i requires 0 <= i < width => if i < |s| then AsciiByte(s[i]) else 32)
  }

  /** The fields of the boot sector in the order they are written, as (offset, bytes). */
  const BootFields: seq<(nat, seq<byte>)> := [
    (0, Le8(0xEB)), (1, Le8(0x3C)), (2, Le8(0x90)), (3, AsciiPadded("MSWIN4.1", 8)),
    (11, Le16(BytesPerSector)), (13, Le8(SectorsPerCluster)), (14, Le16(ReservedSectors)), (16, Le8(FatCount)),
    (17, Le16(RootEntryCount)), (19, Le16(TotalSectors)), (21, Le8(0xF0)), (22, Le16(SectorsPerFat)),
    (24, Le16(18)), (26, Le16(2)), (36, Le8(0)), (38, Le8(0x29)), (39, Le32(0x12345678)),
    (43, AsciiPadded("DRAGON_OS", 11)), (54, AsciiPadded("FAT12", 8)), (510, Le8(0x55)), (511, Le8(0xAA))]

  lemma BootFieldsFit()
    ensures Ascending(BootFields)
    ensures forall f <- BootFields :: f.0 + |f.1| <= 512
  {
    hide AsciiPadded, Le8, Le16, Le32;
    BootFieldsAscend();
    hide BootFields;
    var n := |BootFields|;
    forall f | f in BootFields ensures f.0 + |f.1| <= 512 {
      var k :| 0 <= k < n && BootFields[k] == f;
      if k < n - 1 { AscendingApart(BootFields, k, n - 1); }
    }
  }

  lemma BootFieldsAscend()
    ensures Ascending(BootFields) && |BootFields| == 21
    ensures BootFields[20].0 + |BootFields[20].1| == 512
  {
    hide AsciiPadded, Le8, Le16, Le32;
  }

  method WriteBootSector(disk: array<byte>)
    requires disk.Length == DiskBytes
    modifies disk
    ensures BootFieldsHold(disk[..])
    ensures disk[512..] == old(disk[512..])
    ensures BootGapsAgree(disk[..], old(disk[..]))
  {
    hide BootFields, BootGapsAgree;
    BootFieldsFit();
    ghost var before := disk[..];
    WriteFields(disk, BootFields);
    forall k | 0 <= k < |BootFields|
      ensures BootFields[k].0 + |BootFields[k].1| <= 512
      ensures disk[BootFields[k].0..BootFields[k].0 + |BootFields[k].1|] == BootFields[k].1
    {
      assert BootFields[k] in BootFields;
      OverlaidRead(before, BootFields, k);
    }
    OverlaidTail(before, BootFields, 512);
    BootGapsKept(before);
  }

  /** The bytes of the boot sector that belong to no field. */
  ghost predicate BootGapsAgree(a: seq<byte>, b: seq<byte>)
    requires |a| >= 512 && |b| >= 512
  {
    a[28..36] == b[28..36] && a[37..38] == b[37..38] && a[62..510] == b[62..510]
  }

  lemma BootGapsKept(s: seq<byte>)
    requires |s| >= 512 && forall f <- BootFields :: f.0 + |f.1| <= |s|
    ensures BootGapsAgree(Overlaid(s, BootFields), s)
  {
    hide BootFields, Overlaid, AsciiPadded, Le8, Le16, Le32, Ascending;
    BootFieldsAscend();
    BootGapPlaces();
    AscendingGap(BootFields, 13);
    OverlaidGap(s, BootFields, 28, 36);
    AscendingGap(BootFields, 14);
    OverlaidGap(s, BootFields, 37, 38);
    AscendingGap(BootFields, 18);
    OverlaidGap(s, BootFields, 62, 510);
  }

  lemma BootGapPlaces()
    ensures |BootFields| == 21
    ensures BootFields[13].0 + |BootFields[13].1| == 28 && BootFields[14].0 == 36
    ensures BootFields[14].0 + |BootFields[14].1| == 37 && BootFields[15].0 == 38
    ensures BootFields[18].0 + |BootFields[18].1| == 62 && BootFields[19].0 == 510
  {
    hide AsciiPadded, Le8, Le16, Le32;
  }

  /** The first sector of `s` byte by byte: jump, OEM name, volume parameters, serial number,
      label and type, zeros, signature. */
  ghost predicate IsBootSector(s: seq<byte>) {
    && |s| >= 512
    && s[0..3] == [0xEB, 0x3C, 0x90] && s[3..11] == [0x4D, 0x53, 0x57, 0x49, 0x4E, 0x34, 0x2E, 0x31]
    && s[11..13] == [0, 2] && s[13] == 16 && s[14..16] == [1, 0] && s[16] == 2 && s[17..19] == [224, 0]
    && s[19..21] == [0, 128] && s[21] == 0xF0 && s[22..24] == [16, 0] && s[24..26] == [18, 0] && s[26..28] == [2, 0]
    && s[28..38] == Zeros(10) && s[38] == 0x29 && s[39..43] == [0x78, 0x56, 0x34, 0x12]
    && s[43..54] == [0x44, 0x52, 0x41, 0x47, 0x4F, 0x4E, 0x5F, 0x4F, 0x53, 0x20, 0x20]
    && s[54..62] == [0x46, 0x41, 0x54, 0x31, 0x32, 0x20, 0x20, 0x20]
    && s[62..510] == Zeros(448) && s[510] == 0x55 && s[511] == 0xAA
  }

  /** The three texts of the boot sector. */
  lemma BootTexts()
    ensures AsciiPadded("MSWIN4.1", 8) == [0x4D, 0x53, 0x57, 0x49, 0x4E, 0x34, 0x2E, 0x31]
    ensures AsciiPadded("DRAGON_OS", 11) == [0x44, 0x52, 0x41, 0x47, 0x4F, 0x4E, 0x5F, 0x4F, 0x53, 0x20, 0x20]
    ensures AsciiPadded("FAT12", 8) == [0x46, 0x41, 0x54, 0x31, 0x32, 0x20, 0x20, 0x20]
  {
  }

  ghost predicate BootFieldsHold(disk: seq<byte>) {
    |disk| >= 512 && forall k :: 0 <= k < |BootFields| ==>
      BootFields[k].0 + |BootFields[k].1| <= 512
        && disk[BootFields[k].0..BootFields[k].0 + |BootFields[k].1|] == BootFields[k].1
  }

  /** Over a cleared sector the fields make the boot sector. */
  lemma BootSectorIs(disk: seq<byte>, blank: seq<byte>)
    requires |disk| >= 512 && |blank| >= 512 && blank[..512] == Zeros(512)
    requires BootFieldsHold(disk) && BootGapsAgree(disk, blank)
    ensures IsBootSector(disk)
  {
    hide BootFieldsHold, BootGapsAgree, BootFields, AsciiPadded;
    BootGapsBlank(disk, blank);
    BootTexts();
    BootFieldsRead(disk);
    assert disk[28..38] == disk[28..36] + [disk[36], disk[37]] == Zeros(10);
    assert Le32(0x12345678) == [0x78, 0x56, 0x34, 0x12];
    assert disk[0..3] == [disk[0], disk[1], disk[2]];
  }

  lemma BootGapsBlank(disk: seq<byte>, blank: seq<byte>)
    requires |disk| >= 512 && |blank| >= 512 && blank[..512] == Zeros(512) && BootGapsAgree(disk, blank)
    ensures disk[28..36] == Zeros(8) && disk[37] == 0 && disk[62..510] == Zeros(448)
  {
    forall i | 0 <= i < 512 ensures blank[i] == 0 { assert blank[i] == blank[..512][i]; }
    assert disk[37] == disk[37..38][0] == blank[37..38][0];
  }

  /** Every field at its offset. */
  lemma BootFieldsRead(disk: seq<byte>)
    requires BootFieldsHold(disk)
    ensures disk[0] == 0xEB && disk[1] == 0x3C && disk[2] == 0x90 && disk[3..11] == AsciiPadded("MSWIN4.1", 8)
    ensures disk[11..13] == Le16(512) && disk[13] == 16 && disk[14..16] == Le16(1) && disk[16] == 2
    ensures disk[17..19] == Le16(224) && disk[19..21] == Le16(32768) && disk[21] == 0xF0 && disk[22..24] == Le16(16)
    ensures disk[24..26] == Le16(18) && disk[26..28] == Le16(2) && disk[36] == 0 && disk[38] == 0x29
    ensures disk[39..43] == Le32(0x12345678) && disk[43..54] == AsciiPadded("DRAGON_OS", 11)
    ensures disk[54..62] == AsciiPadded("FAT12", 8) && disk[510] == 0x55 && disk[511] == 0xAA
  {
    hide BootFieldsHold, AsciiPadded;
    BootFieldAt(disk, 0); BootFieldAt(disk, 1); BootFieldAt(disk, 2); BootFieldAt(disk, 3); BootFieldAt(disk, 4);
    BootFieldAt(disk, 5); BootFieldAt(disk, 6); BootFieldAt(disk, 7); BootFieldAt(disk, 8); BootFieldAt(disk, 9);
    BootFieldAt(disk, 10); BootFieldAt(disk, 11); BootFieldAt(disk, 12); BootFieldAt(disk, 13); BootFieldAt(disk, 14);
    BootFieldAt(disk, 15); BootFieldAt(disk, 16); BootFieldAt(disk, 17); BootFieldAt(disk, 18); BootFieldAt(disk, 19);
    BootFieldAt(disk, 20);
  }

  lemma BootFieldAt(disk: seq<byte>, k: nat)
    requires BootFieldsHold(disk) && k < |BootFields|
    ensures var f := BootFields[k];
            f.0 + |f.1| <= 512 && disk[f.0..f.0 + |f.1|] == f.1 && (|f.1| == 1 ==> disk[f.0] == f.1[0])
  {
    hide BootFields;
    var f := BootFields[k];
    if |f.1| == 1 { assert disk[f.0..f.0 + 1][0] == f.1[0]; }
  }

  method WriteFatCopies(disk: array<byte>, entries: seq<nat>)
    requires disk.Length == DiskBytes && 2 <= |entries| <= 2048
    modifies disk
    ensures disk[..Fat1Offset] == old(disk[..Fat1Offset]) && disk[RootOffset..] == old(disk[RootOffset..])
    ensures disk[Fat1Offset..Fat2Offset] == disk[Fat2Offset..RootOffset]
    ensures forall j: nat | j + j / 2 + 1 < FatBytes ::
              Entry(disk[Fat1Offset..Fat2Offset], j) == if j < |entries| then entries[j] % 4096 else 0
  {
    var fatBytes := new byte[FatBytes](_ => 0);
    WriteFat12Entries(fatBytes, entries);
    hide Entry, Splice;
    ghost var fat, before := fatBytes[..], disk[..];
    CopyTo(disk, Fat1Offset, fatBytes[..]);
    CopyTo(disk, Fat2Offset, fatBytes[..]);
    TwoCopies(before, fat);
  }

  lemma TwoCopies(before: seq<byte>, fat: seq<byte>)
    requires |before| == DiskBytes && |fat| == FatBytes
    ensures var after := Splice(Splice(before, Fat1Offset, fat), Fat2Offset, fat);
            && after[Fat1Offset..Fat2Offset] == fat == after[Fat2Offset..RootOffset]
            && after[..Fat1Offset] == before[..Fat1Offset] && after[RootOffset..] == before[RootOffset..]
  {
    var first := Splice(before, Fat1Offset, fat);
    SpliceRead(before, Fat1Offset, fat);
    SpliceRead(first, Fat2Offset, fat);
    SpliceFrame(first, Fat2Offset, fat, Fat1Offset, Fat2Offset);
    SpliceWindow(before, Fat1Offset, fat, Fat1Offset, RootOffset);
    SpliceWindow(first, Fat2Offset, fat, Fat1Offset, RootOffset);
  }
}
