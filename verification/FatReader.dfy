/** A FAT12 reader written from the FAT specification, sections "Boot Sector and BPB
    Structure", "FAT Data Structure" and "FAT Directory Structure". It takes every number it
    needs from the boot sector and knows nothing about how the image was built. */
module FatReader {
  import opened Bytes
  import opened ShortNames
  import Fat12Table

  datatype Item =
    | Folder(name: ShortName, contents: seq<Item>)
    | Document(name: ShortName, data: seq<byte>)

  /** The bytes `[at, at+n)` of the disk, when they exist. */
  function Window(disk: seq<byte>, at: nat, n: nat): (r: Option<seq<byte>>)
    ensures r.Some? ==> |r.value| == n
  {
    if at + n <= |disk| then Some(disk[at..at + n]) else None
  }

  datatype Volume = Volume(disk: seq<byte>, bytesPerSector: nat, sectorsPerCluster: nat, reservedSectors: nat,
                           fatCount: nat, rootEntries: nat, totalSectors: nat, sectorsPerFat: nat)
  {
    function FatBytes(): nat { sectorsPerFat * bytesPerSector }

    function Fat(copy: nat): Option<seq<byte>> {
      Window(disk, (reservedSectors + copy * sectorsPerFat) * bytesPerSector, FatBytes())
    }

    function RootSectors(): nat
      requires bytesPerSector > 0
    {
      CeilDiv(rootEntries * 32, bytesPerSector)
    }

    function FirstRootSector(): nat { reservedSectors + fatCount * sectorsPerFat }

    function FirstDataSector(): nat
      requires bytesPerSector > 0
    {
      FirstRootSector() + RootSectors()
    }

    function Clusters(): nat
      requires bytesPerSector > 0 && sectorsPerCluster > 0 && FirstDataSector() <= totalSectors
    {
      (totalSectors - FirstDataSector()) / sectorsPerCluster
    }

    predicate IsFat12() {
      && bytesPerSector > 0 && sectorsPerCluster > 0
      && FirstDataSector() <= totalSectors
      && Clusters() < 4085
      && fatCount > 0
      && Fat(0).Some?
      && forall k :: 0 < k < fatCount ==> Fat(k) == Fat(0)
    }

    function FatEntry(cluster: nat): Option<nat> {
      match Fat(0)
      case None => None
      case Some(fat) => if cluster + cluster / 2 + 1 < |fat| then Some(Fat12Table.Entry(fat, cluster)) else None
    }

    /** The clusters of a chain, at most `limit` of them; a chain that leaves the data area or
        does not end is an error. */
    function Chain(cluster: nat, limit: nat): Option<seq<nat>>
      requires IsFat12()
      decreases limit
    {
      if limit == 0 || cluster < 2 || cluster >= Clusters() + 2 then None else
        match FatEntry(cluster)
        case None => None
        case Some(next) =>
          if next >= 0xFF8 then Some([cluster]) else
            match Chain(next, limit - 1)
            case None => None
            case Some(rest) => Some([cluster] + rest)
    }

    function Cluster(cluster: nat): Option<seq<byte>>
      requires bytesPerSector > 0 && cluster >= 2
    {
      Window(disk, (FirstDataSector() + (cluster - 2) * sectorsPerCluster) * bytesPerSector,
             sectorsPerCluster * bytesPerSector)
    }

    function Gather(chain: seq<nat>): Option<seq<byte>>
      requires IsFat12()
    {
      if chain == [] then Some([])
      else if chain[0] < 2 then None
      else
        match (Cluster(chain[0]), Gather(chain[1..]))
        case (Some(first), Some(rest)) => Some(first + rest)
        case _ => None
    }

    /** All bytes of the chain that starts at `cluster`. */
    function ChainBytes(cluster: nat): Option<seq<byte>>
      requires IsFat12()
    {
      match Chain(cluster, Clusters())
      case None => None
      case Some(chain) => Gather(chain)
    }

    /** The entries of a directory from byte `at`, up to a zero first byte or the end. */
    function ReadEntries(bytes: seq<byte>, at: nat, self: nat, depth: nat): Option<seq<Item>>
      requires IsFat12()
      decreases depth, |bytes| - at, 1
    {
      if at + 32 > |bytes| || bytes[at] == 0 then Some([])
      else if Skipped(bytes, at) then ReadEntries(bytes, at + 32, self, depth)
      else
        match (ReadEntry(bytes, at, self, depth), ReadEntries(bytes, at + 32, self, depth))
        case (Some(first), Some(rest)) => Some([first] + rest)
        case _ => None
    }

    /** A deleted entry, or one with the volume-label attribute; long-name entries carry it too. */
    predicate Skipped(bytes: seq<byte>, at: nat)
      requires at + 32 <= |bytes|
    {
      bytes[at] == 0xE5 || (bytes[at + 11] as int) / 8 % 2 == 1
    }

    function ReadEntry(bytes: seq<byte>, at: nat, self: nat, depth: nat): Option<Item>
      requires IsFat12() && at + 32 <= |bytes|
      decreases depth, |bytes| - at, 0
    {
      var e := bytes[at..at + 32];
      var name := ShortName(FieldText(e[0..8]), FieldText(e[8..11]));
      var cluster := Read16(e, 26);
      var size := Read32(e, 28);
      match ChainBytes(cluster)
      case None => None
      case Some(content) =>
        if (e[11] as int) / 16 % 2 == 1 then
          if depth == 0 || !FolderHeader(content, cluster, self) then None else
            match ReadEntries(content, 64, cluster, depth - 1)
            case None => None
            case Some(contents) => Some(Folder(name, contents))
        else if size > |content| then None
        else Some(Document(name, content[..size]))
    }

    /** A sub-directory starts with `.`, which names its own cluster, and `..`, which names its
        parent's (0 for the root). The two are known by position and first bytes. */
    predicate FolderHeader(content: seq<byte>, self: nat, parent: nat) {
      && |content| >= 64
      && content[0] == 46 && content[1] != 46 && (content[11] as int) / 16 % 2 == 1 && Read16(content, 26) == self
      && content[32] == 46 && content[33] == 46 && (content[43] as int) / 16 % 2 == 1 && Read16(content, 58) == parent
    }

    /** The tree on the volume. No valid tree is deeper than there are clusters. */
    function ReadRoot(): Option<seq<Item>>
      requires IsFat12()
    {
      match Window(disk, FirstRootSector() * bytesPerSector, RootSectors() * bytesPerSector)
      case None => None
      case Some(root) => ReadEntries(root, 0, 0, Clusters())
    }
  }

  /** A name field without its trailing spaces. */
  function FieldText(field: seq<byte>): string {
    if field == [] then ""
    else if field[|field| - 1] == 32 then FieldText(field[..|field| - 1])
    else seq(|field|, i requires 0 <= i < |field| => field[i] as char)
  }

  function ParseBootSector(disk: seq<byte>): Volume
    requires |disk| >= 512
  {
    Volume(disk, Read16(disk, 11), disk[13], Read16(disk, 14), disk[16], Read16(disk, 17), Read16(disk, 19),
           Read16(disk, 22))
  }

  function ReadVolume(disk: seq<byte>): Option<seq<Item>> {
    if |disk| < 512 || disk[510] != 0x55 || disk[511] != 0xAA then None else
      var v := ParseBootSector(disk);
      if v.IsFat12() then v.ReadRoot() else None
  }

  /** The contents of the first file called `name` in a list of entries. */
  function FindDocument(entries: seq<Item>, name: ShortName): Option<seq<byte>> {
    if entries == [] then None
    else if entries[0].Document? && entries[0].name == name then Some(entries[0].data)
    else FindDocument(entries[1..], name)
  }

  function FindFolder(entries: seq<Item>, name: string): Option<seq<Item>> {
    if entries == [] then None
    else if entries[0].Folder? && entries[0].name == ShortName(name, "") then Some(entries[0].contents)
    else FindFolder(entries[1..], name)
  }

  /** The contents found by descending `p` through the tree that was read. */
  function FindPath(entries: seq<Item>, p: ShortPath): Option<seq<byte>>
    decreases |p.folders|
  {
    if p.folders == [] then FindDocument(entries, p.file) else
      match FindFolder(entries, p.folders[0])
      case None => None
      case Some(contents) => FindPath(contents, p.(folders := p.folders[1..]))
  }
}
