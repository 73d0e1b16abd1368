/** BuildEfiSystemPartition and what a reader finds on the image it returns. */
module FatImage {
  import opened Bytes
  import opened Splices
  import opened ShortNames
  import opened FatTree
  import opened FatLayout
  import opened Fat12Table
  import opened FatWriter
  import opened FatReader

  datatype BuildError = OutOfSpace | RootDirectoryFull

  /** The clusters handed out fit the data area. */
  ghost predicate Fits(nodes: seq<Node>)
    requires WellFormed(nodes)
  {
    FirstDataSector + (FirstFree(nodes) - 2) * SectorsPerCluster <= TotalSectors
  }

  /** The first cluster not handed out: 2 plus the clusters every node needs. */
  ghost function FirstFree(nodes: seq<Node>): (r: nat)
    requires WellFormed(nodes)
    ensures r >= 2
  {
    OrderFacts(nodes);
    StartOf(nodes, Order(nodes), |Order(nodes)|)
  }

  /** The FAT marks exactly the clusters handed out as used, so no cluster is lost; its first
      two entries are the media descriptor and an end mark. */
  ghost predicate Accounted(disk: seq<byte>, firstFree: nat)
    requires |disk| == DiskBytes
  {
    var fat := disk[Fat1Offset..Fat2Offset];
    && Entry(fat, 0) == 0xFF0 && Entry(fat, 1) == 0xFFF
    && forall c: nat :: 2 <= c < ClusterEnd ==> (Entry(fat, c) != 0 <==> c < firstFree)
  }

  // ---- what a finished image holds ----

  ghost predicate InData(cluster: nat, count: nat) {
    cluster >= 2 && cluster + count <= ClusterEnd
  }

  lemma ClusterOffsetBounds(cluster: nat, count: nat)
    requires InData(cluster, count)
    ensures DataOffset <= ClusterOffset(cluster)
    ensures ClusterOffset(cluster) + count * ClusterSizeBytes == ClusterOffset(cluster + count) <= DiskBytes
  {
  }

  /** The clusters of node `id` hold its payload. */
  ghost predicate Placed(disk: seq<byte>, nodes: seq<Node>, id: nat)
    requires |disk| == DiskBytes && WellFormed(nodes) && id < |nodes|
  {
    var n := nodes[id];
    InData(n.startCluster, n.clusterCount) && (
      ClusterOffsetBounds(n.startCluster, n.clusterCount);
      var payload := disk[ClusterOffset(n.startCluster)..ClusterOffset(n.startCluster + n.clusterCount)];
      if n.Directory? then HasParent(nodes, id) && DirectoryContents(payload, nodes, id)
      else payload == Fitted(n.data, n.clusterCount * ClusterSizeBytes))
  }

  ghost predicate Linked(fat: seq<byte>, start: nat, count: nat)
    requires |fat| == FatBytes && InData(start, count)
  {
    forall k :: 0 <= k < count ==> LinkedAt(fat, start, count, k)
  }

  ghost predicate LinkedAt(fat: seq<byte>, start: nat, count: nat, k: nat)
    requires |fat| == FatBytes && InData(start, count) && k < count
  {
    Entry(fat, start + k) == LinkAt(start, count, k)
  }

  ghost predicate Finished(disk: seq<byte>, nodes: seq<Node>) {
    && |disk| == DiskBytes && WellFormed(nodes)
    && BootFieldsHold(disk)
    && disk[Fat1Offset..Fat2Offset] == disk[Fat2Offset..RootOffset]
    && InRange(nodes, Root) && |nodes[Root].children| <= RootEntryCount
    && HoldsEntries(disk[RootOffset..DataOffset], 0, nodes, nodes[Root].children)
    && |Order(nodes)| <= ClusterEnd - 2
    && forall i :: 0 <= i < |Order(nodes)| ==> Stored(disk, nodes, Order(nodes)[i])
  }

  /** Node `id` has an extent of the size it needs, linked in the FAT and filled. */
  ghost predicate Stored(disk: seq<byte>, nodes: seq<Node>, id: nat)
    requires |disk| == DiskBytes && WellFormed(nodes)
  {
    && id < |nodes| && nodes[id].clusterCount == ClustersNeeded(nodes[id])
    && InData(nodes[id].startCluster, nodes[id].clusterCount)
    && Linked(disk[Fat1Offset..Fat2Offset], nodes[id].startCluster, nodes[id].clusterCount)
    && Placed(disk, nodes, id)
  }

  // ---- the tree a reader should find ----

  /** The children of `d` from position `k` on, as directory listings. */
  function View(nodes: seq<Node>, d: nat, k: nat): seq<Item>
    requires WellFormed(nodes) && IsDirectory(nodes, d) && k <= |nodes[d].children|
    decreases |nodes| - d, |nodes[d].children| - k
  {
    if k == |nodes[d].children| then [] else
      var c := Child(nodes, d, k);
      [if nodes[c].Directory? then Folder(nodes[c].Short(), View(nodes, c, 0))
       else Document(nodes[c].Short(), nodes[c].data)] + View(nodes, d, k + 1)
  }

  /** Looking a path up in the tree read back is looking it up in the tree that was built. */
  lemma {:induction false} FindPathView(nodes: seq<Node>, d: nat, p: ShortPath)
    requires WellFormed(nodes) && IsDirectory(nodes, d)
    ensures FindPath(View(nodes, d, 0), p) == Lookup(nodes, d, p)
    decreases |p.folders|
  {
    hide WellFormed;
    assert InRange(nodes, d);
    FindInView(nodes, d, 0, p.file, if p.folders == [] then "" else p.folders[0]);
    assert nodes[d].children[0..] == nodes[d].children;
    if p.folders != [] {
      var c := FindDirectory(nodes, nodes[d].children, p.folders[0]);
      if c.Some? {
        FindPathView(nodes, c.value, p.(folders := p.folders[1..]));
      }
    }
  }

  /** The search for a file among the children from position `k` on. */
  function FileFrom(nodes: seq<Node>, d: nat, k: nat, short: ShortName): Option<seq<byte>>
    requires InRange(nodes, d) && k <= |nodes[d].children|
  {
    FileIn(nodes, nodes[d].children[k..], short)
  }

  /** The search for a directory among them: its view. */
  function FolderFrom(nodes: seq<Node>, d: nat, k: nat, name: string): Option<seq<Item>>
    requires WellFormed(nodes) && InRange(nodes, d) && k <= |nodes[d].children|
  {
    var c := FindDirectory(nodes, nodes[d].children[k..], name);
    if c.Some? then Some(View(nodes, c.value, 0)) else None
  }

  lemma {:induction false} FindInView(nodes: seq<Node>, d: nat, k: nat, short: ShortName, name: string)
    requires WellFormed(nodes) && InRange(nodes, d) && k <= |nodes[d].children|
    ensures FindDocument(View(nodes, d, k), short) == FileFrom(nodes, d, k, short)
    ensures FindFolder(View(nodes, d, k), name) == FolderFrom(nodes, d, k, name)
    decreases |nodes[d].children| - k
  {
    ViewStep(nodes, d, k);
    SearchStep(nodes, d, k, short, name);
    hide WellFormed, InRange, View, FileFrom, FolderFrom;
    if k < |nodes[d].children| {
      hide FindDocument, FindFolder;
      FindInView(nodes, d, k + 1, short, name);
      FindFirst(View(nodes, d, k)[0], View(nodes, d, k + 1), short, name);
    }
  }

  lemma SearchStep(nodes: seq<Node>, d: nat, k: nat, short: ShortName, name: string)
    requires WellFormed(nodes) && InRange(nodes, d) && k <= |nodes[d].children|
    ensures k == |nodes[d].children| ==> FileFrom(nodes, d, k, short) == None && FolderFrom(nodes, d, k, name) == None
    ensures k < |nodes[d].children| ==>
              var c := Child(nodes, d, k);
              && FileFrom(nodes, d, k, short)
                == (if IsFileNamed(nodes[c], short) then Some(nodes[c].data) else FileFrom(nodes, d, k + 1, short))
              && FolderFrom(nodes, d, k, name)
                == if IsFolderNamed(nodes[c], name) then Some(View(nodes, c, 0)) else FolderFrom(nodes, d, k + 1, name)
  {
    hide View, WellFormed;
    if k < |nodes[d].children| {
      hide FileIn, FindDirectory;
      assert nodes[d].children[k..] == [Child(nodes, d, k)] + nodes[d].children[k + 1..];
      SearchFirst(nodes, Child(nodes, d, k), nodes[d].children[k + 1..], short, name);
    }
  }

  lemma FindFirst(item: Item, rest: seq<Item>, short: ShortName, name: string)
    ensures FindDocument([item] + rest, short)
            == if item.Document? && item.name == short then Some(item.data) else FindDocument(rest, short)
    ensures FindFolder([item] + rest, name) ==
            if item.Folder? && item.name == ShortName(name, "") then Some(item.contents) else FindFolder(rest, name)
  {
    assert ([item] + rest)[1..] == rest;
  }

  lemma SearchFirst(nodes: seq<Node>, c: nat, rest: seq<nat>, short: ShortName, name: string)
    requires c < |nodes| && Within([c] + rest, |nodes|) && Within(rest, |nodes|)
    ensures FileIn(nodes, [c] + rest, short)
            == if IsFileNamed(nodes[c], short) then Some(nodes[c].data) else FileIn(nodes, rest, short)
    ensures FindDirectory(nodes, [c] + rest, name)
            == if IsFolderNamed(nodes[c], name) then Some(c) else FindDirectory(nodes, rest, name)
  {
    assert ([c] + rest)[1..] == rest;
  }

  /** No two items of a directory share an 8.3 name, all the way down. */
  ghost predicate NamesDistinct(items: seq<Item>) {
    && (forall i, j :: 0 <= i < j < |items| ==> items[i].name != items[j].name)
    && (forall i :: 0 <= i < |items| && items[i].Folder? ==> NamesDistinct(items[i].contents))
  }

  lemma {:induction false} ViewItem(nodes: seq<Node>, d: nat, k: nat, i: nat)
    requires WellFormed(nodes) && IsDirectory(nodes, d) && k <= |nodes[d].children| && i < |nodes[d].children| - k
    ensures |View(nodes, d, k)| == |nodes[d].children| - k
    ensures var c := Child(nodes, d, k + i); var item := View(nodes, d, k)[i];
            && item.name == nodes[c].Short()
            && (item.Folder? ==> nodes[c].Directory? && item.contents == View(nodes, c, 0))
    decreases i
  {
    hide WellFormed, View;
    ViewLength(nodes, d, k);
    ViewStep(nodes, d, k);
    if i > 0 {
      ViewItem(nodes, d, k + 1, i - 1);
      assert View(nodes, d, k)[i] == View(nodes, d, k + 1)[i - 1];
    }
  }

  lemma {:induction false} ViewLength(nodes: seq<Node>, d: nat, k: nat)
    requires WellFormed(nodes) && IsDirectory(nodes, d) && k <= |nodes[d].children|
    ensures |View(nodes, d, k)| == |nodes[d].children| - k
    decreases |nodes[d].children| - k
  {
    hide WellFormed, View;
    ViewStep(nodes, d, k);
    if k < |nodes[d].children| { ViewLength(nodes, d, k + 1); }
  }

  lemma {:induction false} ViewNamesDistinct(nodes: seq<Node>, d: nat)
    requires WellFormed(nodes) && IsDirectory(nodes, d)
    ensures NamesDistinct(View(nodes, d, 0))
    decreases |nodes| - d
  {
    hide WellFormed, View;
    var items := View(nodes, d, 0);
    ViewLength(nodes, d, 0);
    forall i, j | 0 <= i < j < |items| ensures items[i].name != items[j].name {
      ViewItem(nodes, d, 0, i);
      ViewItem(nodes, d, 0, j);
      SiblingNames(nodes, d, i, j);
    }
    forall i | 0 <= i < |items| && items[i].Folder? ensures NamesDistinct(items[i].contents) {
      ViewItem(nodes, d, 0, i);
      ViewNamesDistinct(nodes, Child(nodes, d, i));
    }
  }

  lemma SiblingNames(nodes: seq<Node>, d: nat, i: nat, j: nat)
    requires WellFormed(nodes) && IsDirectory(nodes, d) && i < j < |nodes[d].children|
    ensures nodes[Child(nodes, d, i)].Short() != nodes[Child(nodes, d, j)].Short()
  {
    assert DistinctNames(nodes, nodes[d].children);
  }

  // ---- reading it back ----

  ghost predicate Mounted(v: Volume, disk: seq<byte>)
    ensures Mounted(v, disk) ==> |disk| == DiskBytes && v.IsFat12() && v.Clusters() == ClusterEnd - 2
  {
    v == Volume(disk, 512, 16, 1, 2, 224, 32768, 16) && |disk| == DiskBytes && v.IsFat12()
    && v.FirstRootSector() == 33 && v.RootSectors() == 14 && v.FirstDataSector() == 47 && v.Clusters() == ClusterEnd - 2
  }

  lemma Mounts(disk: seq<byte>)
    requires |disk| == DiskBytes && BootFieldsHold(disk)
    requires disk[Fat1Offset..Fat2Offset] == disk[Fat2Offset..RootOffset]
    ensures disk[510] == 0x55 && disk[511] == 0xAA && Mounted(ParseBootSector(disk), disk)
  {
    hide BootFieldsHold, ParseBootSector, Mounted, Le16, Le32, AsciiPadded;
    BootFieldsRead(disk);
    ParsedFields(disk);
    StandardVolume(disk);
  }

  /** A disk with these parameters and two equal FATs is a FAT12 volume. */
  lemma StandardVolume(disk: seq<byte>)
    requires |disk| == DiskBytes && disk[Fat1Offset..Fat2Offset] == disk[Fat2Offset..RootOffset]
    ensures Mounted(Volume(disk, 512, 16, 1, 2, 224, 32768, 16), disk)
  {
    var v := Volume(disk, 512, 16, 1, 2, 224, 32768, 16);
    assert v.Fat(0) == Some(disk[Fat1Offset..Fat2Offset]) && v.Fat(1) == Some(disk[Fat2Offset..RootOffset]);
    assert v.IsFat12();
  }

  lemma ParsedFields(disk: seq<byte>)
    requires |disk| >= 512
    requires disk[11..13] == Le16(512) && disk[13] == 16 && disk[14..16] == Le16(1) && disk[16] == 2
    requires disk[17..19] == Le16(224) && disk[19..21] == Le16(32768) && disk[22..24] == Le16(16)
    ensures ParseBootSector(disk) == Volume(disk, 512, 16, 1, 2, 224, 32768, 16)
  {
    HalfRead(disk, 11, 512);
    HalfRead(disk, 14, 1);
    HalfRead(disk, 17, 224);
    HalfRead(disk, 19, 32768);
    HalfRead(disk, 22, 16);
  }

  lemma MountedFat(v: Volume, disk: seq<byte>, cluster: nat)
    requires Mounted(v, disk) && cluster < ClusterEnd
    ensures v.FatEntry(cluster) == Some(Entry(disk[Fat1Offset..Fat2Offset], cluster))
  {
    assert v.Fat(0) == Some(disk[Fat1Offset..Fat2Offset]);
  }

  lemma MountedCluster(v: Volume, disk: seq<byte>, cluster: nat)
    requires Mounted(v, disk) && InData(cluster, 1)
    ensures v.Cluster(cluster) == Some(disk[ClusterOffset(cluster)..ClusterOffset(cluster + 1)])
  {
    ClusterOffsetBounds(cluster, 1);
  }

  /** `n` clusters from `from` on, in order. */
  function Clusters(from: nat, n: nat): (r: seq<nat>)
    ensures |r| == n
    decreases n
  {
    if n == 0 then [] else [from] + Clusters(from + 1, n - 1)
  }

  lemma {:induction false} ChainVisits(v: Volume, disk: seq<byte>, start: nat, count: nat, k: nat, limit: nat)
    requires Mounted(v, disk) && InData(start, count) && k < count
    requires Linked(disk[Fat1Offset..Fat2Offset], start, count) && limit >= count - k
    ensures v.Chain(start + k, limit) == Some(Clusters(start + k, count - k))
    decreases count - k
  {
    hide Entry;
    MountedFat(v, disk, start + k);
    assert LinkedAt(disk[Fat1Offset..Fat2Offset], start, count, k);
    assert Clusters(start + k, count - k) == [start + k] + Clusters(start + (k + 1), count - (k + 1));
    if k + 1 < count {
      ChainVisits(v, disk, start, count, k + 1, limit - 1);
      assert v.Chain(start + k + 1, limit - 1) == Some(Clusters(start + (k + 1), count - (k + 1)));
    } else {
      assert Clusters(start + k, count - k) == [start + k];
    }
  }

  lemma {:induction false} ExtentGathered(v: Volume, disk: seq<byte>, from: nat, n: nat)
    requires Mounted(v, disk) && InData(from, n)
    ensures DataOffset <= ClusterOffset(from) <= ClusterOffset(from + n) <= DiskBytes
    ensures v.Gather(Clusters(from, n)) == Some(disk[ClusterOffset(from)..ClusterOffset(from + n)])
    decreases n
  {
    hide Volume.Cluster;
    ClusterOffsetBounds(from, n);
    if n > 0 {
      MountedCluster(v, disk, from);
      ExtentGathered(v, disk, from + 1, n - 1);
      hide Mounted;
      assert Clusters(from, n)[1..] == Clusters(from + 1, n - 1);
      SliceJoin(disk, ClusterOffset(from), ClusterOffset(from + 1), ClusterOffset(from + n));
    } else {
      assert Clusters(from, n) == [] && disk[ClusterOffset(from)..ClusterOffset(from + n)] == [];
    }
  }

  /** A linked extent is one chain: it visits its clusters in order, ends at 0xFFF after
      exactly `count` of them, and its bytes are the extent's bytes. */
  lemma ChainReads(v: Volume, disk: seq<byte>, start: nat, count: nat, limit: nat)
    requires Mounted(v, disk) && InData(start, count) && 0 < count <= limit
    requires Linked(disk[Fat1Offset..Fat2Offset], start, count)
    ensures v.Chain(start, limit) == Some(Clusters(start, count))
    ensures DataOffset <= ClusterOffset(start) <= ClusterOffset(start + count) <= DiskBytes
    ensures v.Gather(v.Chain(start, limit).value) == Some(disk[ClusterOffset(start)..ClusterOffset(start + count)])
  {
    hide Linked, Volume.Chain, Volume.Gather, Clusters;
    ChainVisits(v, disk, start, count, 0, limit);
    ExtentGathered(v, disk, start, count);
  }

  // ---- entries ----

  lemma {:induction false} FieldTextOf(s: string, width: nat)
    requires |s| <= width && forall c <- s :: IsShortChar(c)
    ensures FieldText(FieldBytes(s, width)) == s
  {
    var f := FieldBytes(s, width);
    if width > 0 && |s| < width {
      assert f[..width - 1] == FieldBytes(s, width - 1);
      FieldTextOf(s, width - 1);
    } else if width > 0 {
      assert IsShortChar(s[width - 1]);
      forall i | 0 <= i < width ensures f[i] as char == s[i] { assert IsShortChar(s[i]); }
    }
  }

  /** An encoded entry read back: name, extension, attribute, cluster and size. */
  lemma EntryDecodes(short: ShortName, attributes: byte, cluster: nat, size: nat)
    requires IsShortName(short.name, 8) && (short.extension == "" || IsShortName(short.extension, 3))
    requires cluster < 65536 && size < 4294967296
    ensures var e := EntryBytes(short, attributes, cluster, size);
            e[0] != 0 && e[0] != 0xE5 && FieldText(e[0..8]) == short.name && FieldText(e[8..11]) == short.extension
            && e[11] == attributes && Read16(e, 26) == cluster && Read32(e, 28) == size
  {
    var e := EntryBytes(short, attributes, cluster, size);
    assert e[0..8] == FieldBytes(short.name, 8) && e[8..11] == FieldBytes(short.extension, 3);
    FieldTextOf(short.name, 8);
    FieldTextOf(short.extension, 3);
    assert IsShortChar(short.name[0]);
    EntrySlices(short, attributes, cluster, size);
    HalfRead(e, 26, cluster);
    assert Read32(e, 28) == Read32(e[28..32], 0);
    WordRead(e, 28, size);
  }

  lemma EntrySlices(short: ShortName, attributes: byte, cluster: nat, size: nat)
    ensures var e := EntryBytes(short, attributes, cluster, size); e[26..28] == Le16(cluster) && e[28..32] == Le32(size)
  {
    hide FieldBytes, Le16, Le32;
    var front := FieldBytes(short.name, 8) + FieldBytes(short.extension, 3) + [attributes] + Zeros(14) + Le16(cluster);
    assert EntryBytes(short, attributes, cluster, size) == front + Le32(size);
    assert (front + Le32(size))[28..32] == Le32(size);
  }

  lemma NodeEntryDecodes(n: Node)
    requires NamedNode(n) && n.startCluster < 65536 && (n.File? ==> |n.data| < 4294967296)
    ensures var e := NodeEntry(n);
            e[0] != 0 && e[0] != 0xE5 && ShortName(FieldText(e[0..8]), FieldText(e[8..11])) == n.Short()
            && Read16(e, 26) == n.startCluster
            && ((e[11] as int) / 16 % 2 == 1 <==> n.Directory?) && (e[11] as int) / 8 % 2 == 0
            && (n.File? ==> Read32(e, 28) == |n.data|)
  {
    hide EntryBytes;
    EntryDecodes(n.Short(), if n.Directory? then 0x10 else 0x20, n.startCluster, if n.Directory? then 0 else |n.data|);
  }

  lemma ContentsHoldEntries(content: seq<byte>, nodes: seq<Node>, d: nat)
    requires HasParent(nodes, d) && DirectoryContents(content, nodes, d)
    ensures InRange(nodes, d) && HoldsEntries(content, 64, nodes, nodes[d].children)
  {
  }

  lemma SpecialCluster(second: byte, cluster: nat)
    ensures SpecialEntryBytes(second, cluster)[26..28] == Le16(cluster)
  {
  }

  lemma HeaderDecodes(content: seq<byte>, nodes: seq<Node>, d: nat)
    requires HasParent(nodes, d) && DirectoryContents(content, nodes, d)
    requires nodes[d].startCluster < 65536 && ParentCluster(nodes, d) < 65536
    ensures forall v: Volume :: v.FolderHeader(content, nodes[d].startCluster, ParentCluster(nodes, d))
  {
    assert InRange(nodes, d);
    hide WellFormed, HoldsEntries;
    HeaderEntries(content, nodes[d].startCluster, ParentCluster(nodes, d));
  }

  lemma HeaderEntries(content: seq<byte>, self: nat, parent: nat)
    requires |content| >= 64 && self < 65536 && parent < 65536
    requires content[0..32] == SpecialEntryBytes(32, self) && content[32..64] == SpecialEntryBytes(46, parent)
    ensures forall v: Volume :: v.FolderHeader(content, self, parent)
  {
    SpecialFields(content, 0, 32, self);
    SpecialFields(content, 32, 46, parent);
    hide SpecialEntryBytes, Read16;
  }

  lemma SpecialFields(content: seq<byte>, at: nat, second: byte, cluster: nat)
    requires at + 32 <= |content| && content[at..at + 32] == SpecialEntryBytes(second, cluster) && cluster < 65536
    ensures content[at] == 46 && content[at + 1] == second && content[at + 11] == 0x10
    ensures Read16(content, at + 26) == cluster
  {
    var e := SpecialEntryBytes(second, cluster);
    assert content[at] == e[0] && content[at + 1] == e[1] && content[at + 11] == e[11];
    SpecialCluster(second, cluster);
    hide SpecialEntryBytes, Le16, Read16;
    SliceOfSlice(content, at, 32, 26, 28);
    HalfRead(content, at + 26, cluster);
  }

  /** The bytes a reader gathers for a stored node are its payload. */
  lemma StoredBytes(v: Volume, disk: seq<byte>, nodes: seq<Node>, id: nat)
    requires Mounted(v, disk) && WellFormed(nodes) && Stored(disk, nodes, id)
    ensures var n := nodes[id]; var bytes := v.ChainBytes(n.startCluster);
            bytes.Some? && n.startCluster < 65536
            && (if n.Directory? then HasParent(nodes, id) && DirectoryContents(bytes.value, nodes, id)
                else
                  bytes.value == Fitted(n.data, n.clusterCount * ClusterSizeBytes)
                  && |n.data| <= |bytes.value| < 4294967296)
  {
    hide WellFormed, DirectoryContents, Linked, Mounted, Volume.IsFat12, Volume.Chain, Volume.Gather;
    var n := nodes[id];
    ChainReads(v, disk, n.startCluster, n.clusterCount, ClusterEnd - 2);
    assert n.startCluster + 0 == n.startCluster;
    var bytes := disk[ClusterOffset(n.startCluster)..ClusterOffset(n.startCluster + n.clusterCount)];
    assert v.ChainBytes(n.startCluster) == Some(bytes);
    ClusterOffsetBounds(n.startCluster, n.clusterCount);
  }

  /** What `..` records inside the children of `d`. */
  function SelfCluster(nodes: seq<Node>, d: nat): nat
    requires d < |nodes| && nodes[d].Directory?
  {
    if nodes[d].parent.None? then 0 else nodes[d].startCluster
  }

  ghost predicate AllStored(disk: seq<byte>, nodes: seq<Node>, d: nat, k: nat)
    requires |disk| == DiskBytes && WellFormed(nodes) && IsDirectory(nodes, d) && k <= |nodes[d].children|
  {
    && (forall x :: x in DirsFrom(nodes, d, k) ==> Stored(disk, nodes, x))
    && (forall x :: x in FilesFrom(nodes, d, k) ==> Stored(disk, nodes, x))
  }

  /** Reading the entries of a directory from child `k` on gives the view of those children,
      down to every file below them. */
  lemma {:induction false} EntriesRead(v: Volume, disk: seq<byte>, nodes: seq<Node>, d: nat, k: nat, bytes: seq<byte>,
                                       base: nat, depth: nat)
    requires Mounted(v, disk) && WellFormed(nodes) && InRange(nodes, d) && k <= |nodes[d].children|
    requires HoldsEntries(bytes, base, nodes, nodes[d].children) && AllStored(disk, nodes, d, k)
    requires depth >= |DirsFrom(nodes, d, k)| && SelfCluster(nodes, d) < 65536
    ensures v.ReadEntries(bytes, base + 32 * k, SelfCluster(nodes, d), depth) == Some(View(nodes, d, k))
    decreases |nodes| - d, |nodes[d].children| - k
  {
    hide WellFormed, Stored, Mounted, Volume.IsFat12, Volume.ReadEntry, AllStored, Volume.ChainBytes,
         DirectoryContents, DirsFrom, View, Volume.ReadEntries, HoldsEntries;
    ViewStep(nodes, d, k);
    ZeroBehind(bytes, base, nodes, nodes[d].children);
    if k == |nodes[d].children| {
      EntriesEnd(v, bytes, base + 32 * k, SelfCluster(nodes, d), depth);
    } else {
      hide NodeEntry, FieldText;
      var c := Child(nodes, d, k);
      ChildStored(disk, nodes, d, k);
      EntriesRead(v, disk, nodes, d, k + 1, bytes, base, depth);
      if nodes[c].Directory? {
        StoredBytes(v, disk, nodes, c);
        assert HoldsEntries(v.ChainBytes(nodes[c].startCluster).value, 64, nodes, nodes[c].children) by {
          ContentsHoldEntries(v.ChainBytes(nodes[c].startCluster).value, nodes, c);
        }
        EntriesRead(v, disk, nodes, c, 0, v.ChainBytes(nodes[c].startCluster).value, 64, depth - 1);
      }
      ItemReads(v, disk, nodes, d, k, bytes, base, depth);
      EntriesCons(v, bytes, base + 32 * k, SelfCluster(nodes, d), depth);
    }
  }

  lemma ZeroBehind(bytes: seq<byte>, base: nat, nodes: seq<Node>, children: seq<nat>)
    requires Within(children, |nodes|) && HoldsEntries(bytes, base, nodes, children)
    ensures var at := base + 32 * |children|; at <= |bytes| && (at < |bytes| ==> bytes[at] == 0)
  {
  }

  lemma ViewStep(nodes: seq<Node>, d: nat, k: nat)
    requires WellFormed(nodes) && IsDirectory(nodes, d) && k <= |nodes[d].children|
    ensures View(nodes, d, k) ==
            if k == |nodes[d].children| then [] else
              var c := Child(nodes, d, k);
              [if nodes[c].Directory? then Folder(nodes[c].Short(), View(nodes, c, 0))
               else Document(nodes[c].Short(), nodes[c].data)] + View(nodes, d, k + 1)
  {
  }

  lemma EntriesEnd(v: Volume, bytes: seq<byte>, at: nat, self: nat, depth: nat)
    requires v.IsFat12() && (at < |bytes| ==> bytes[at] == 0)
    ensures v.ReadEntries(bytes, at, self, depth) == Some([])
  {
    hide Volume.IsFat12;
  }

  lemma EntriesCons(v: Volume, bytes: seq<byte>, at: nat, self: nat, depth: nat)
    requires v.IsFat12() && at + 32 <= |bytes| && bytes[at] != 0 && !v.Skipped(bytes, at)
    requires v.ReadEntry(bytes, at, self, depth).Some? && v.ReadEntries(bytes, at + 32, self, depth).Some?
    ensures v.ReadEntries(bytes, at, self, depth) ==
            Some([v.ReadEntry(bytes, at, self, depth).value] + v.ReadEntries(bytes, at + 32, self, depth).value)
  {
    hide Volume.IsFat12, Volume.ReadEntry;
  }

  /** The clusters of directory `c` read back as its view. */
  ghost predicate ReadsAs(v: Volume, nodes: seq<Node>, c: nat, depth: nat)
    requires v.IsFat12() && WellFormed(nodes) && IsDirectory(nodes, c)
  {
    depth > 0 && v.ChainBytes(nodes[c].startCluster).Some?
    && v.ReadEntries(v.ChainBytes(nodes[c].startCluster).value, 64, nodes[c].startCluster, depth - 1)
      == Some(View(nodes, c, 0))
  }

  /** One entry, given that the directory it may name reads back. */
  lemma ItemReads(v: Volume, disk: seq<byte>, nodes: seq<Node>, d: nat, k: nat, bytes: seq<byte>, base: nat, depth: nat)
    requires Mounted(v, disk) && WellFormed(nodes) && InRange(nodes, d) && k < |nodes[d].children|
    requires HoldsEntries(bytes, base, nodes, nodes[d].children) && SelfCluster(nodes, d) < 65536
    requires var c := Child(nodes, d, k);
             Stored(disk, nodes, c) && NamedNode(nodes[c])
             && (nodes[c].Directory? ==> ReadsAs(v, nodes, c, depth))
    ensures bytes[base + 32 * k] != 0 && !v.Skipped(bytes, base + 32 * k)
    ensures var c := Child(nodes, d, k);
            v.ReadEntry(bytes, base + 32 * k, SelfCluster(nodes, d), depth) ==
            Some(if nodes[c].Directory? then Folder(nodes[c].Short(), View(nodes, c, 0))
                 else Document(nodes[c].Short(), nodes[c].data))
  {
    hide WellFormed, Stored, Mounted, Volume.IsFat12, NodeEntry, ParentCluster, Volume.ChainBytes, FieldText, View,
         DirectoryContents;
    var c := Child(nodes, d, k);
    var at := base + 32 * k;
    assert EntryAt(bytes, base, k) == NodeEntry(nodes[c]);
    assert bytes[at] == bytes[at..at + 32][0] && bytes[at + 11] == bytes[at..at + 32][11];
    StoredBytes(v, disk, nodes, c);
    NodeEntryDecodes(nodes[c]);
    if nodes[c].Directory? {
      ParentOfChild(nodes, d, c);
      HeaderDecodes(v.ChainBytes(nodes[c].startCluster).value, nodes, c);
    } else {
      FittedPrefix(nodes[c].data, nodes[c].clusterCount * ClusterSizeBytes);
    }
  }

  lemma FittedPrefix(data: seq<byte>, n: nat)
    requires |data| <= n
    ensures Fitted(data, n)[..|data|] == data
  {
  }

  lemma ParentOfChild(nodes: seq<Node>, d: nat, c: nat)
    requires HasParent(nodes, c) && nodes[c].parent == Some(d)
    ensures ParentCluster(nodes, c) == SelfCluster(nodes, d)
  {
  }

  lemma ChildStored(disk: seq<byte>, nodes: seq<Node>, d: nat, k: nat)
    requires |disk| == DiskBytes && WellFormed(nodes) && InRange(nodes, d) && k < |nodes[d].children|
    requires AllStored(disk, nodes, d, k)
    ensures AllStored(disk, nodes, d, k + 1) && |DirsFrom(nodes, d, k + 1)| <= |DirsFrom(nodes, d, k)|
    ensures var c := Child(nodes, d, k);
            Stored(disk, nodes, c) && NamedNode(nodes[c])
            && (nodes[c].Directory? ==>
                  && InRange(nodes, c) && AllStored(disk, nodes, c, 0)
                  && |DirsFrom(nodes, c, 0)| < |DirsFrom(nodes, d, k)|)
  {
    hide Stored;
    var c := Child(nodes, d, k);
    if nodes[c].Directory? { assert c in DirsUnder(nodes, c); }
  }

  lemma AllOrderedStored(disk: seq<byte>, nodes: seq<Node>)
    requires |disk| == DiskBytes && WellFormed(nodes)
    requires forall i :: 0 <= i < |Order(nodes)| ==> Stored(disk, nodes, Order(nodes)[i])
    ensures AllStored(disk, nodes, Root, 0)
  {
    hide WellFormed, Stored, DirsFrom, FilesFrom;
    forall x | x in DirsFrom(nodes, Root, 0) || x in FilesFrom(nodes, Root, 0) ensures Stored(disk, nodes, x) {
      assert x in Order(nodes);
      var i :| 0 <= i < |Order(nodes)| && Order(nodes)[i] == x;
    }
  }

  /** A reader run on a finished image recovers the tree. */
  lemma ImageReads(disk: seq<byte>, nodes: seq<Node>)
    requires Finished(disk, nodes)
    ensures ReadVolume(disk) == Some(View(nodes, Root, 0))
  {
    hide WellFormed, Stored, Mounted, BootFieldsHold, HoldsEntries, Volume.IsFat12, Volume.ReadRoot, View, AllStored,
         DirsFrom, FilesFrom, DirsUnder, InRange;
    Mounts(disk);
    RootHasNoParent(nodes);
    RootEntriesRead(ParseBootSector(disk), disk, nodes);
  }

  lemma RootEntriesRead(v: Volume, disk: seq<byte>, nodes: seq<Node>)
    requires Mounted(v, disk) && Finished(disk, nodes) && nodes[Root].parent.None?
    ensures v.IsFat12() && v.ReadRoot() == Some(View(nodes, Root, 0))
  {
    hide WellFormed, Stored, Mounted, BootFieldsHold, HoldsEntries, Volume.IsFat12, Volume.ReadRoot, View, AllStored,
         DirsFrom, FilesFrom, NoRepeats;
    RootReads(v, disk);
    OrderFits(nodes);
    AllOrderedStored(disk, nodes);
    EntriesRead(v, disk, nodes, Root, 0, disk[RootOffset..DataOffset], 0, ClusterEnd - 2);
  }

  lemma OrderFits(nodes: seq<Node>)
    requires WellFormed(nodes)
    ensures |DirsFrom(nodes, Root, 0)| <= |Order(nodes)|
  {
    hide WellFormed, DirsFrom, FilesFrom;
  }

  /** The root area of a mounted volume lies between the FATs and the data. */
  lemma RootReads(v: Volume, disk: seq<byte>)
    requires Mounted(v, disk)
    ensures v.ReadRoot() == v.ReadEntries(disk[RootOffset..DataOffset], 0, 0, ClusterEnd - 2)
  {
    hide Volume.ReadEntries, Volume.IsFat12;
  }

  lemma RootHasNoParent(nodes: seq<Node>)
    requires WellFormed(nodes)
    ensures nodes[Root].parent.None?
  {
  }

  // ---- building it ----

  /** The two allocation loops: sub-directories first, then files. */
  method AssignClusters(tree: Tree, dirs: seq<nat>, files: seq<nat>) returns (next: nat)
    requires tree.Valid()
    requires dirs == DirsUnder(tree.nodes, Root) && files == FilesFrom(tree.nodes, Root, 0)
    modifies tree
    ensures tree.Valid() && SameShape(old(tree.nodes), tree.nodes)
    ensures Order(tree.nodes) == dirs[1..] + files && Within(Order(tree.nodes), |tree.nodes|)
    ensures Allocated(tree.nodes, Order(tree.nodes), |Order(tree.nodes)|)
    ensures next == StartOf(tree.nodes, Order(tree.nodes), |Order(tree.nodes)|)
  {
    hide WellFormed, Allocated, ClustersNeeded, StartOf, SameShape;
    ghost var nodes0 := tree.nodes;
    ghost var order := Order(nodes0);
    OrderFacts(nodes0);
    assert dirs[1..] == DirsFrom(nodes0, Root, 0) && order == dirs[1..] + files;
    hide DirsFrom, FilesFrom;
    SameShapeRefl(nodes0);
    AllocatedNone(nodes0, order);
    RootComesFirst(nodes0);
    assert order[..|dirs| - 1] == dirs[1..];
    next := AssignDirectories(tree, dirs, nodes0, order);
    next := AssignFiles(tree, files, next, nodes0, order, |dirs| - 1);
    OrderKept(nodes0, tree.nodes);
  }

  /** The first allocation loop: the directories that have a parent. */
  method AssignDirectories(tree: Tree, dirs: seq<nat>, ghost nodes0: seq<Node>, ghost order: seq<nat>)
    returns (next: nat)
    requires RootFirst(nodes0, dirs) && NoRepeats(order) && |dirs| - 1 <= |order| && order[..|dirs| - 1] == dirs[1..]
    requires SameShape(nodes0, tree.nodes) && |tree.nodes| == |nodes0| && Within(order, |tree.nodes|)
    requires Allocated(tree.nodes, order, 0) && StartOf(tree.nodes, order, 0) == 2
    modifies tree
    ensures SameShape(nodes0, tree.nodes) && |tree.nodes| == |nodes0| && Within(order, |tree.nodes|)
    ensures Allocated(tree.nodes, order, |dirs| - 1) && next == StartOf(tree.nodes, order, |dirs| - 1)
  {
    hide Allocated, StartOf, SameShape, NoRepeats, RootFirst, Within;
    next := 2;
    var i := 0;
    ghost var given := 0;
    while i < |dirs|
      invariant 0 <= i <= |dirs| && given == if i == 0 then 0 else i - 1
      invariant SameShape(nodes0, tree.nodes) && |tree.nodes| == |nodes0| && Within(order, |tree.nodes|)
      invariant Allocated(tree.nodes, order, given) && next == StartOf(tree.nodes, order, given)
    {
      DirParent(nodes0, tree.nodes, dirs, order, i);
      if tree.nodes[dirs[i]].parent.Some? {
        next := AssignNext(tree, dirs[i], next, nodes0, order, given);
        given := given + 1;
      }
      i := i + 1;
    }
  }

  /** The second allocation loop: files from position `from` of the order. */
  method AssignFiles(tree: Tree, files: seq<nat>, first: nat, ghost nodes0: seq<Node>, ghost order: seq<nat>,
                     ghost from: nat) returns (next: nat)
    requires NoRepeats(order) && from + |files| == |order| && order[from..] == files
    requires SameShape(nodes0, tree.nodes) && |tree.nodes| == |nodes0| && Within(order, |tree.nodes|)
    requires Allocated(tree.nodes, order, from) && first == StartOf(tree.nodes, order, from)
    modifies tree
    ensures SameShape(nodes0, tree.nodes) && |tree.nodes| == |nodes0| && Within(order, |tree.nodes|)
    ensures Allocated(tree.nodes, order, |order|) && next == StartOf(tree.nodes, order, |order|)
  {
    hide Allocated, ClustersNeeded, StartOf, SameShape, NoRepeats;
    next := first;
    var i := 0;
    while i < |files|
      invariant 0 <= i <= |files|
      invariant SameShape(nodes0, tree.nodes) && |tree.nodes| == |nodes0| && Within(order, |tree.nodes|)
      invariant Allocated(tree.nodes, order, from + i)
      invariant next == StartOf(tree.nodes, order, from + i)
    {
      assert files[i] == order[from..][i] == order[from + i];
      next := AssignNext(tree, files[i], next, nodes0, order, from + i);
      i := i + 1;
    }
  }

  lemma OrderKept(a: seq<Node>, b: seq<Node>)
    requires SameShape(a, b) && WellFormed(a)
    ensures WellFormed(b) && Order(b) == Order(a)
  {
    hide WellFormed, DirsFrom, FilesFrom;
    SameShapeWellFormed(a, b);
    RootSame(a, b);
    SameShapeDirs(a, b, Root, 0);
  }

  lemma RootSame(a: seq<Node>, b: seq<Node>)
    requires SameShape(a, b) && WellFormed(a)
    ensures WellFormed(b) && IsDirectory(a, Root)
  {
    SameShapeWellFormed(a, b);
  }

  lemma SameShapeRefl(nodes: seq<Node>)
    ensures SameShape(nodes, nodes)
  {
  }

  lemma AllocatedNone(nodes: seq<Node>, order: seq<nat>)
    requires Within(order, |nodes|)
    ensures Allocated(nodes, order, 0) && StartOf(nodes, order, 0) == 2
  {
  }

  /** Directories of which the first, and no other, has no parent. */
  ghost predicate RootFirst(nodes: seq<Node>, dirs: seq<nat>)
    ensures RootFirst(nodes, dirs) ==> |dirs| > 0
  {
    |dirs| > 0 && forall i :: 0 <= i < |dirs| ==>
      dirs[i] < |nodes| && nodes[dirs[i]].Directory? && (nodes[dirs[i]].parent.Some? <==> i > 0)
  }

  lemma RootComesFirst(nodes: seq<Node>)
    requires WellFormed(nodes)
    ensures RootFirst(nodes, DirsUnder(nodes, Root))
  {
    OrderFacts(nodes);
    RootHasNoParent(nodes);
    hide WellFormed, DirsFrom;
    var dirs := DirsUnder(nodes, Root);
    forall i | 0 < i < |dirs| ensures dirs[i] in DirsFrom(nodes, Root, 0) {
      assert dirs[i] == DirsFrom(nodes, Root, 0)[i - 1];
    }
  }

  lemma DirParent(nodes0: seq<Node>, nodes: seq<Node>, dirs: seq<nat>, order: seq<nat>, i: nat)
    requires RootFirst(nodes0, dirs) && SameShape(nodes0, nodes) && i < |dirs|
    requires |dirs| - 1 <= |order| && order[..|dirs| - 1] == dirs[1..]
    ensures dirs[i] < |nodes| && nodes[dirs[i]].Directory? && (nodes[dirs[i]].parent.Some? <==> i > 0)
    ensures i > 0 ==> order[i - 1] == dirs[i]
  {
    if i > 0 { assert order[i - 1] == order[..|dirs| - 1][i - 1] == dirs[1..][i - 1]; }
  }

  /** One step of either loop: the next node takes the next clusters. */
  method AssignNext(tree: Tree, id: nat, next: nat, ghost nodes0: seq<Node>, ghost order: seq<nat>, ghost i: nat)
    returns (following: nat)
    requires i < |order| && order[i] == id && Within(order, |tree.nodes|) && NoRepeats(order)
    requires SameShape(nodes0, tree.nodes) && Allocated(tree.nodes, order, i) && next == StartOf(tree.nodes, order, i)
    modifies tree
    ensures SameShape(nodes0, tree.nodes) && |tree.nodes| == old(|tree.nodes|)
    ensures Allocated(tree.nodes, order, i + 1) && following == StartOf(tree.nodes, order, i + 1)
  {
    hide Allocated, ClustersNeeded;
    ghost var before := tree.nodes;
    AssignedStep(before, order, i);
    var count := ClustersNeeded(tree.nodes[id]);
    tree.nodes := tree.nodes[id := tree.nodes[id].(startCluster := next, clusterCount := count)];
    SameShapeStart(before, tree.nodes, order, i);
    SameNeed(before, tree.nodes, id);
    following := next + count;
  }

  /** Extents of allocated nodes: sizes, bounds and disjointness, by position in the order. */
  lemma ExtentFacts(nodes: seq<Node>, order: seq<nat>, i: nat)
    requires Within(order, |nodes|) && Allocated(nodes, order, |order|) && i < |order|
    requires StartOf(nodes, order, |order|) <= ClusterEnd
    ensures InData(nodes[order[i]].startCluster, nodes[order[i]].clusterCount)
    ensures nodes[order[i]].clusterCount == ClustersNeeded(nodes[order[i]]) && nodes[order[i]].startCluster >= 2
    ensures forall j | 0 <= j < i ::
              nodes[order[j]].startCluster + nodes[order[j]].clusterCount <= nodes[order[i]].startCluster
    ensures nodes[order[i]].startCluster + nodes[order[i]].clusterCount <= StartOf(nodes, order, |order|)
  {
    hide ClustersNeeded;
    StartsIncrease(nodes, order, i, |order|);
    forall j | 0 <= j < i
      ensures nodes[order[j]].startCluster + nodes[order[j]].clusterCount <= nodes[order[i]].startCluster
    {
      StartsIncrease(nodes, order, j, i);
    }
  }

  // ---- linking ----

  ghost predicate LinkedIn(entries: seq<nat>, start: nat, count: nat)
    requires start + count <= |entries|
  {
    forall k :: 0 <= k < count ==> entries[start + k] == LinkAt(start, count, k)
  }

  method LinkAll(nodes: seq<Node>, order: seq<nat>, next: nat) returns (entries: seq<nat>)
    requires Within(order, |nodes|) && Allocated(nodes, order, |order|)
    requires next == StartOf(nodes, order, |order|) && next <= ClusterEnd
    ensures |entries| == next + 1 && entries[0] == 0xFF0 && entries[1] == 0xFFF && entries[next] == 0
    ensures forall c | 2 <= c < next :: 0 < entries[c] < 4096
    ensures forall i | 0 <= i < |order| :: nodes[order[i]].startCluster + nodes[order[i]].clusterCount <= next
              && LinkedIn(entries, nodes[order[i]].startCluster, nodes[order[i]].clusterCount)
  {
    hide Allocated, StartOf, InData;
    var fatEntries := new nat[next + 1](_ => 0);
    fatEntries[0] := 0xFF0;
    fatEntries[1] := 0xFFF;
    var i := 0;
    while i < |order|
      invariant 0 <= i <= |order|
      invariant fatEntries[0] == 0xFF0 && fatEntries[1] == 0xFFF && fatEntries[next] == 0
      invariant forall j | 0 <= j < i :: nodes[order[j]].startCluster + nodes[order[j]].clusterCount <= next
                  && LinkedIn(fatEntries[..], nodes[order[j]].startCluster, nodes[order[j]].clusterCount)
    {
      ExtentFacts(nodes, order, i);
      ghost var before := fatEntries[..];
      LinkClusterChain(fatEntries, nodes[order[i]].startCluster, nodes[order[i]].clusterCount);
      forall j | 0 <= j < i
        ensures LinkedIn(fatEntries[..], nodes[order[j]].startCluster, nodes[order[j]].clusterCount)
      {
        assert LinkedIn(before, nodes[order[j]].startCluster, nodes[order[j]].clusterCount);
      }
      i := i + 1;
    }
    entries := fatEntries[..];
    forall c | 2 <= c < next ensures 0 < entries[c] < 4096 {
      ClusterLinked(nodes, order, entries, c);
    }
  }

  lemma ClusterLinked(nodes: seq<Node>, order: seq<nat>, entries: seq<nat>, c: nat)
    requires Within(order, |nodes|) && Allocated(nodes, order, |order|) && StartOf(nodes, order, |order|) <= ClusterEnd
    requires 2 <= c < StartOf(nodes, order, |order|) <= |entries|
    requires forall i | 0 <= i < |order| :: nodes[order[i]].startCluster + nodes[order[i]].clusterCount <= |entries|
               && LinkedIn(entries, nodes[order[i]].startCluster, nodes[order[i]].clusterCount)
    ensures 0 < entries[c] < 4096
  {
    hide ClustersNeeded, StartOf, LinkedIn, InData;
    ExtentsTile(nodes, order, |order|, c);
    var i :| 0 <= i < |order|
      && StartOf(nodes, order, i) <= c < StartOf(nodes, order, i) + ClustersNeeded(nodes[order[i]]);
    assert nodes[order[i]].startCluster == StartOf(nodes, order, i);
    ExtentFacts(nodes, order, i);
    hide Allocated;
    LinkedEntry(entries, nodes[order[i]].startCluster, nodes[order[i]].clusterCount, c);
  }

  lemma LinkedEntry(entries: seq<nat>, start: nat, count: nat, c: nat)
    requires 2 <= start <= c < start + count <= |entries| && start + count < 4096 && LinkedIn(entries, start, count)
    ensures 0 < entries[c] < 4096
  {
    assert entries[start + (c - start)] == LinkAt(start, count, c - start);
  }

  lemma AccountedBy(disk: seq<byte>, entries: seq<nat>, next: nat)
    requires |disk| == DiskBytes && 2 <= next <= ClusterEnd && |entries| == next + 1
    requires entries[0] == 0xFF0 && entries[1] == 0xFFF && entries[next] == 0
    requires forall c | 2 <= c < next :: 0 < entries[c] < 4096
    requires forall j: nat | j + j / 2 + 1 < FatBytes ::
               Entry(disk[Fat1Offset..Fat2Offset], j) == if j < |entries| then entries[j] % 4096 else 0
    ensures Accounted(disk, next)
  {
    hide Entry;
    var fat := disk[Fat1Offset..Fat2Offset];
    assert Entry(fat, 0) == 0xFF0 && Entry(fat, 1) == 0xFFF;
    forall c: nat | 2 <= c < ClusterEnd ensures Entry(fat, c) != 0 <==> c < next {
      assert c + c / 2 + 1 < FatBytes;
    }
  }

  lemma LinkedInFat(entries: seq<nat>, fat: seq<byte>, start: nat, count: nat)
    requires |fat| == FatBytes && InData(start, count) && start + count <= |entries| && LinkedIn(entries, start, count)
    requires forall j: nat | j + j / 2 + 1 < FatBytes :: Entry(fat, j) == if j < |entries| then entries[j] % 4096 else 0
    ensures Linked(fat, start, count)
  {
    hide Entry;
    forall k | 0 <= k < count ensures LinkedAt(fat, start, count, k) {
      assert entries[start + k] == LinkAt(start, count, k);
    }
  }

  // ---- filling ----

  /** A write outside the extent of a placed node leaves it placed. */
  lemma PlacedFrame(disk: seq<byte>, nodes: seq<Node>, id: nat, at: nat, b: seq<byte>)
    requires |disk| == DiskBytes && WellFormed(nodes) && id < |nodes| && Placed(disk, nodes, id)
    requires at + |b| <= DiskBytes
    requires ClusterOffset(nodes[id].startCluster + nodes[id].clusterCount) <= at
    ensures Placed(Splice(disk, at, b), nodes, id)
  {
    hide WellFormed, DirectoryContents, Splice;
    var n := nodes[id];
    ClusterOffsetBounds(n.startCluster, n.clusterCount);
    SpliceFrame(disk, at, b, ClusterOffset(n.startCluster), ClusterOffset(n.startCluster + n.clusterCount));
  }

  lemma PlacedHere(disk: seq<byte>, nodes: seq<Node>, id: nat, payload: seq<byte>)
    requires |disk| == DiskBytes && WellFormed(nodes) && id < |nodes|
    requires InData(nodes[id].startCluster, nodes[id].clusterCount)
    requires |payload| == nodes[id].clusterCount * ClusterSizeBytes
    requires if nodes[id].Directory? then HasParent(nodes, id) && DirectoryContents(payload, nodes, id)
             else payload == Fitted(nodes[id].data, |payload|)
    ensures ClusterOffset(nodes[id].startCluster) + |payload| <= DiskBytes
    ensures Placed(Splice(disk, ClusterOffset(nodes[id].startCluster), payload), nodes, id)
  {
    hide WellFormed, DirectoryContents, Splice;
    var n := nodes[id];
    ClusterOffsetBounds(n.startCluster, n.clusterCount);
    SpliceRead(disk, ClusterOffset(n.startCluster), payload);
  }

  /** One node of either writing loop. */
  method WriteNode(disk: array<byte>, nodes: seq<Node>, order: seq<nat>, i: nat)
    requires disk.Length == DiskBytes && WellFormed(nodes) && Within(order, |nodes|) && Allocated(nodes, order, |order|)
    requires StartOf(nodes, order, |order|) <= ClusterEnd && i < |order|
    requires nodes[order[i]].Directory? ==> HasParent(nodes, order[i])
    requires forall j | 0 <= j < i :: Placed(disk[..], nodes, order[j])
    modifies disk
    ensures forall j | 0 <= j <= i :: Placed(disk[..], nodes, order[j])
    ensures disk[..DataOffset] == old(disk[..DataOffset])
  {
    hide WellFormed, DirectoryContents, Splice, Placed, Allocated, StartOf, HasParent, ClusterOffset;
    ghost var before := disk[..];
    var n := nodes[order[i]];
    ExtentFacts(nodes, order, i);
    ClusterOffsetBounds(n.startCluster, n.clusterCount);
    ghost var payload: seq<byte>;
    if n.Directory? {
      WriteDirectoryClusters(disk, nodes, order[i]);
      payload :| |payload| == n.clusterCount * ClusterSizeBytes && DirectoryContents(payload, nodes, order[i])
        && disk[..] == Splice(before, ClusterOffset(n.startCluster), payload);
    } else {
      WriteFileToClusterChain(disk, n.data, n.startCluster, n.clusterCount);
      payload := Fitted(n.data, n.clusterCount * ClusterSizeBytes);
    }
    PlacedHere(before, nodes, order[i], payload);
    forall j | 0 <= j < i ensures Placed(disk[..], nodes, order[j]) {
      EarlierEnds(nodes, order, j, i);
      PlacedFrame(before, nodes, order[j], ClusterOffset(n.startCluster), payload);
    }
    SpliceWindow(before, ClusterOffset(n.startCluster), payload, DataOffset, DiskBytes);
  }

  lemma EarlierEnds(nodes: seq<Node>, order: seq<nat>, j: nat, i: nat)
    requires Within(order, |nodes|) && Allocated(nodes, order, |order|) && j < i < |order|
    requires StartOf(nodes, order, |order|) <= ClusterEnd
    ensures InData(nodes[order[j]].startCluster, nodes[order[j]].clusterCount) && nodes[order[i]].startCluster >= 2
    ensures var end := nodes[order[j]].startCluster + nodes[order[j]].clusterCount;
            ClusterOffset(end) <= ClusterOffset(nodes[order[i]].startCluster)
  {
    ExtentFacts(nodes, order, i);
    ExtentFacts(nodes, order, j);
  }

  /** Extents do not matter for what fits and for what a reader should find. */
  lemma {:induction false} SameShapeView(a: seq<Node>, b: seq<Node>, d: nat, k: nat)
    requires SameShape(a, b) && WellFormed(a) && WellFormed(b) && IsDirectory(a, d) && k <= |a[d].children|
    ensures View(b, d, k) == View(a, d, k)
    decreases |a| - d, |a[d].children| - k
  {
    hide WellFormed, View;
    ViewStep(a, d, k);
    ViewStep(b, d, k);
    if k < |a[d].children| {
      var c := Child(a, d, k);
      assert Child(b, d, k) == c;
      if a[c].Directory? { SameShapeView(a, b, c, 0); }
      SameShapeView(a, b, d, k + 1);
    }
  }

  lemma SameShapeFits(a: seq<Node>, b: seq<Node>)
    requires SameShape(a, b) && WellFormed(a) && WellFormed(b)
    ensures Fits(b) == Fits(a) && FirstFree(b) == FirstFree(a) && |b[Root].children| == |a[Root].children|
  {
    hide WellFormed, SameShape, StartOf;
    OrderKept(a, b);
    OrderFacts(a);
    OrderFacts(b);
    SameShapeStart(a, b, Order(a), |Order(a)|);
    RootChildren(a, b);
  }

  lemma RootChildren(a: seq<Node>, b: seq<Node>)
    requires SameShape(a, b) && WellFormed(a) && WellFormed(b)
    ensures b[Root].children == a[Root].children
  {
    hide WellFormed;
  }

  /** Everything written to the disk once clusters are assigned. */
  method WriteImage(tree: Tree, order: seq<nat>, next: nat) returns (r: Result<array<byte>, BuildError>)
    requires tree.Valid() && order == Order(tree.nodes) && Within(order, |tree.nodes|) && Fits(tree.nodes)
    requires Allocated(tree.nodes, order, |order|) && next == StartOf(tree.nodes, order, |order|)
    ensures r == Err(RootDirectoryFull) <==> |tree.nodes[Root].children| > RootEntryCount
    ensures r.Err? ==> r.error == RootDirectoryFull
    ensures r.Ok? ==> fresh(r.value) && r.value.Length == DiskBytes
    ensures r.Ok? ==> ReadVolume(r.value[..]) == Some(View(tree.nodes, Root, 0))
    ensures r.Ok? ==> Accounted(r.value[..], next)
    ensures r.Ok? ==> IsBootSector(r.value[..])
  {
    hide WellFormed, Allocated, StartOf, Placed, LinkedIn, Linked, Splice, HoldsEntries, BootFieldsHold, DirsFrom,
         FilesFrom, NoRepeats, View, Accounted, Entry, IsBootSector, BootGapsAgree;
    var disk := new byte[DiskBytes](_ => 0);
    var nodes := tree.nodes;
    OrderFacts(nodes);
    var entries := LinkAll(nodes, order, next);
    ghost var blank := disk[..];
    WriteBootSector(disk);
    ghost var booted := disk[..];
    BootSectorIs(booted, blank);
    WriteFatCopies(disk, entries);
    ghost var fatted := disk[..];
    var ok := WriteRootDirectory(disk, nodes);
    if !ok {
      return Err(RootDirectoryFull);
    }
    ghost var rooted := disk[..];
    var i := 0;
    while i < |order|
      invariant 0 <= i <= |order|
      invariant forall j | 0 <= j < i :: Placed(disk[..], nodes, order[j])
      invariant disk[..DataOffset] == rooted[..DataOffset]
    {
      ChildHasParent(nodes, i);
      WriteNode(disk, nodes, order, i);
      i := i + 1;
    }
    Assemble(booted, fatted, rooted, disk[..], nodes, entries);
    AccountedBy(disk[..], entries, next);
    BootSectorKept(booted, fatted, rooted, disk[..]);
    ImageReads(disk[..], nodes);
    return Ok(disk);
  }

  /** Builds the image of the tree the files stand for. It fails when the clusters do not fit,
      and then when the root holds more than 224 entries; otherwise a reader finds exactly that
      tree: every path with the bytes last added under it, and no other path. */
  method BuildEfiSystemPartition(bootx64: seq<byte>, runtimeFiles: seq<RuntimeFile>)
    returns (r: Result<array<byte>, BuildError>)
    ensures r == Err(OutOfSpace) <==> !Fits(TreeOf(bootx64, runtimeFiles))
    ensures r == Err(RootDirectoryFull) <==>
              Fits(TreeOf(bootx64, runtimeFiles)) && |TreeOf(bootx64, runtimeFiles)[Root].children| > RootEntryCount
    ensures r.Ok? ==> fresh(r.value) && r.value.Length == DiskBytes
    ensures r.Ok? ==> ReadVolume(r.value[..]) == Some(View(TreeOf(bootx64, runtimeFiles), Root, 0))
    ensures r.Ok? ==> Accounted(r.value[..], FirstFree(TreeOf(bootx64, runtimeFiles)))
    ensures r.Ok? ==> IsBootSector(r.value[..])
    ensures r.Ok? ==> forall p :: FindPath(ReadVolume(r.value[..]).value, p) == Contents(bootx64, runtimeFiles, p)
    ensures NamesDistinct(View(TreeOf(bootx64, runtimeFiles), Root, 0))
  {
    hide WellFormed, Allocated, StartOf, SameShape, DirsFrom, FilesFrom, View, Fits, FirstFree, TreeOf, Contents,
         Lookup, NamesDistinct, Accounted, IsBootSector;
    var tree := BuildTree(bootx64, runtimeFiles);
    ghost var built := tree.nodes;
    var dirs := CollectDirectories(tree.nodes, Root, []);
    var files := CollectFiles(tree.nodes, Root, []);
    var next := AssignClusters(tree, dirs, files);
    SameShapeFits(built, tree.nodes);
    SameShapeView(built, tree.nodes, Root, 0);
    forall p ensures FindPath(View(built, Root, 0), p) == Contents(bootx64, runtimeFiles, p) {
      FindPathView(built, Root, p);
    }
    ViewNamesDistinct(built, Root);
    FitsWhen(tree.nodes, next);
    if FirstDataSector + (next - 2) * SectorsPerCluster > TotalSectors {
      return Err(OutOfSpace);
    }
    // Sub-directories, then files, in every loop below.
    r := WriteImage(tree, dirs[1..] + files, next);
  }

  lemma FitsWhen(nodes: seq<Node>, next: nat)
    requires WellFormed(nodes) && Within(Order(nodes), |nodes|) && next == StartOf(nodes, Order(nodes), |Order(nodes)|)
    ensures FirstFree(nodes) == next
    ensures Fits(nodes) <==> FirstDataSector + (next - 2) * SectorsPerCluster <= TotalSectors
  {
    hide WellFormed, StartOf, Order;
  }

  /** Nothing after the boot sector is written into it. */
  lemma BootSectorKept(booted: seq<byte>, fatted: seq<byte>, rooted: seq<byte>, disk: seq<byte>)
    requires |booted| == |fatted| == |rooted| == |disk| == DiskBytes && IsBootSector(booted)
    requires fatted[..Fat1Offset] == booted[..Fat1Offset] && rooted[..RootOffset] == fatted[..RootOffset]
    requires disk[..DataOffset] == rooted[..DataOffset]
    ensures IsBootSector(disk)
  {
    hide IsBootSector;
    PrefixesAgree(disk, rooted, DataOffset, 0, 512);
    PrefixesAgree(rooted, fatted, RootOffset, 0, 512);
    PrefixesAgree(fatted, booted, Fat1Offset, 0, 512);
    SameBootSector(booted, disk);
  }

  lemma SameBootSector(a: seq<byte>, b: seq<byte>)
    requires IsBootSector(a) && |b| >= 512 && a[0..512] == b[0..512]
    ensures IsBootSector(b)
  {
    forall i | 0 <= i < 512 ensures a[i] == b[i] { assert a[i] == a[0..512][i]; }
  }

  lemma BootFieldsKept(a: seq<byte>, b: seq<byte>)
    requires BootFieldsHold(a) && |a| == |b| && a[..512] == b[..512]
    ensures BootFieldsHold(b)
  {
    hide BootFields;
    forall k | 0 <= k < |BootFields|
      ensures BootFields[k].0 + |BootFields[k].1| <= 512
      ensures b[BootFields[k].0..BootFields[k].0 + |BootFields[k].1|] == BootFields[k].1
    {
      var lo, hi := BootFields[k].0, BootFields[k].0 + |BootFields[k].1|;
      PrefixSlice(a, 512, lo, hi);
      PrefixSlice(b, 512, lo, hi);
    }
  }

  /** The regions of the image, written one after the other, are all in place at the end. */
  lemma Assemble(booted: seq<byte>, fatted: seq<byte>, rooted: seq<byte>, disk: seq<byte>, nodes: seq<Node>,
                 entries: seq<nat>)
    requires |booted| == |fatted| == |rooted| == |disk| == DiskBytes && WellFormed(nodes)
    requires BootFieldsHold(booted) && fatted[..Fat1Offset] == booted[..Fat1Offset]
    requires fatted[Fat1Offset..Fat2Offset] == fatted[Fat2Offset..RootOffset]
    requires forall j: nat | j + j / 2 + 1 < FatBytes ::
               Entry(fatted[Fat1Offset..Fat2Offset], j) == if j < |entries| then entries[j] % 4096 else 0
    requires rooted[..RootOffset] == fatted[..RootOffset] && disk[..DataOffset] == rooted[..DataOffset]
    requires InRange(nodes, Root) && |nodes[Root].children| <= RootEntryCount
    requires HoldsEntries(rooted[RootOffset..DataOffset], 0, nodes, nodes[Root].children)
    requires Within(Order(nodes), |nodes|) && Allocated(nodes, Order(nodes), |Order(nodes)|)
    requires StartOf(nodes, Order(nodes), |Order(nodes)|) <= ClusterEnd
    requires forall i | 0 <= i < |Order(nodes)| ::
               nodes[Order(nodes)[i]].startCluster + nodes[Order(nodes)[i]].clusterCount <= |entries|
               && LinkedIn(entries, nodes[Order(nodes)[i]].startCluster, nodes[Order(nodes)[i]].clusterCount)
    requires forall i | 0 <= i < |Order(nodes)| :: Placed(disk, nodes, Order(nodes)[i])
    ensures Finished(disk, nodes) && disk[Fat1Offset..Fat2Offset] == fatted[Fat1Offset..Fat2Offset]
  {
    hide WellFormed, Allocated, Placed, LinkedIn, Linked, HoldsEntries, BootFieldsHold, DirsFrom, FilesFrom,
         ClustersNeeded, Entry;
    PrefixesAgree(disk, rooted, DataOffset, RootOffset, DataOffset);
    PrefixesAgree(disk, rooted, DataOffset, 0, RootOffset);
    assert disk[..RootOffset] == disk[0..RootOffset] && rooted[..RootOffset] == rooted[0..RootOffset];
    PrefixesAgree(disk, fatted, RootOffset, Fat1Offset, Fat2Offset);
    PrefixesAgree(disk, fatted, RootOffset, Fat2Offset, RootOffset);
    PrefixesAgree(disk, fatted, RootOffset, 0, Fat1Offset);
    assert disk[..512] == disk[0..Fat1Offset] == fatted[..Fat1Offset] == booted[..512];
    BootFieldsKept(booted, disk);
    forall i | 0 <= i < |Order(nodes)| ensures Stored(disk, nodes, Order(nodes)[i]) {
      ExtentFacts(nodes, Order(nodes), i);
      LinkedInFat(entries, disk[Fat1Offset..Fat2Offset], nodes[Order(nodes)[i]].startCluster,
                  nodes[Order(nodes)[i]].clusterCount);
    }
  }

  /** Every sub-directory of the order has a parent directory. */
  lemma ChildHasParent(nodes: seq<Node>, i: nat)
    requires WellFormed(nodes) && i < |Order(nodes)|
    ensures Within(Order(nodes), |nodes|)
    ensures nodes[Order(nodes)[i]].Directory? ==> HasParent(nodes, Order(nodes)[i])
  {
    hide DirsFrom, FilesFrom, NoRepeats;
    OrderFacts(nodes);
    var dirs := DirsFrom(nodes, Root, 0);
    var x := Order(nodes)[i];
    if i < |dirs| {
      assert x == dirs[i] && x in dirs;
      DirsFromAreUnder(nodes, Root, 0, x);
    } else {
      assert x == FilesFrom(nodes, Root, 0)[i - |dirs|] && x in FilesFrom(nodes, Root, 0);
    }
  }
}
