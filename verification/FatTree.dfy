/** The directory tree of the EFI system partition (FatDirectoryNode, FatFileNode and
    AddRuntimeFile in UefiSupport.cs).

    Nodes live in one table and refer to each other by index, so two references to the same
    node are the same index and an update through one is seen through the other. */
module FatTree {
  import opened Bytes
  import opened ShortNames

  datatype Node =
    | Directory(name: string, parent: Option<nat>, children: seq<nat>, startCluster: nat, clusterCount: nat)
    | File(name: string, fileExtension: string, data: seq<byte>, startCluster: nat, clusterCount: nat)
  {
    function Short(): ShortName {
      ShortName(name, if Directory? then "" else fileExtension)
    }
  }

  const Root: nat := 0

  ghost predicate IsDirectory(nodes: seq<Node>, d: nat) {
    d < |nodes| && nodes[d].Directory?
  }

  ghost predicate ChildOf(nodes: seq<Node>, d: nat, c: nat) {
    IsDirectory(nodes, d) && c in nodes[d].children
  }

  ghost predicate NamedNode(n: Node) {
    IsShortName(n.name, 8) && (n.File? ==> IsShortName(n.fileExtension, 3))
  }

  predicate Within(children: seq<nat>, n: nat) {
    forall i :: 0 <= i < |children| ==> children[i] < n
  }

  /** No two children of one directory share an 8.3 name. */
  ghost predicate DistinctNames(nodes: seq<Node>, children: seq<nat>)
    requires Within(children, |nodes|)
  {
    forall i, j :: 0 <= i < j < |children| ==> nodes[children[i]].Short() != nodes[children[j]].Short()
  }

  /** Every reference points to a later node, parents agree with children, every node has at
      most one owner, and names are legal and pairwise distinct inside a directory. */
  ghost predicate WellFormed(nodes: seq<Node>)
    ensures WellFormed(nodes) ==> IsDirectory(nodes, Root)
    ensures WellFormed(nodes) ==> forall d: nat :: IsDirectory(nodes, d) ==> InRange(nodes, d)
  {
    && |nodes| > 0 && nodes[Root].Directory? && nodes[Root].parent == None
    && (forall d: nat, c: nat :: ChildOf(nodes, d, c) ==> d < c < |nodes|)
    && (forall d: nat, c: nat :: ChildOf(nodes, d, c) && nodes[c].Directory? ==> nodes[c].parent == Some(d))
    && (forall d: nat, e: nat, c: nat :: ChildOf(nodes, d, c) && ChildOf(nodes, e, c) ==> d == e)
    && (forall n :: 0 <= n < |nodes| ==> NamedNode(nodes[n]))
    && (forall d: nat :: IsDirectory(nodes, d) ==> InRange(nodes, d) && DistinctNames(nodes, nodes[d].children))
  }

  ghost predicate InRange(nodes: seq<Node>, d: nat) {
    IsDirectory(nodes, d) && Within(nodes[d].children, |nodes|)
  }

  // ---- what a directory holds ----

  predicate IsFolderNamed(n: Node, name: string) {
    n.Directory? && n.name == name
  }

  predicate IsFileNamed(n: Node, short: ShortName) {
    n.File? && n.name == short.name && n.fileExtension == short.extension
  }

  /** The first child directory called `name`. */
  function FindDirectory(nodes: seq<Node>, children: seq<nat>, name: string): (r: Option<nat>)
    requires Within(children, |nodes|)
    ensures r.Some? ==> r.value in children && IsFolderNamed(nodes[r.value], name)
    ensures r.None? ==> forall c <- children :: !IsFolderNamed(nodes[c], name)
  {
    if children == [] then None
    else if IsFolderNamed(nodes[children[0]], name) then Some(children[0])
    else FindDirectory(nodes, children[1..], name)
  }

  /** The contents of the first child file called `short`. */
  function FileIn(nodes: seq<Node>, children: seq<nat>, short: ShortName): (r: Option<seq<byte>>)
    requires Within(children, |nodes|)
    ensures r.None? <==> forall c <- children :: !IsFileNamed(nodes[c], short)
  {
    if children == [] then None
    else if IsFileNamed(nodes[children[0]], short) then Some(nodes[children[0]].data)
    else FileIn(nodes, children[1..], short)
  }

  /** The directory reached from `d` by descending through `path`. */
  function Walk(nodes: seq<Node>, d: nat, path: seq<string>): (r: Option<nat>)
    requires WellFormed(nodes) && IsDirectory(nodes, d)
    ensures r.Some? ==> IsDirectory(nodes, r.value)
    decreases |path|
  {
    if path == [] then Some(d) else
      assert InRange(nodes, d);
      match FindDirectory(nodes, nodes[d].children, path[0])
      case None => None
      case Some(c) => Walk(nodes, c, path[1..])
  }

  /** The contents stored under a short path, starting at directory `d`. */
  function Lookup(nodes: seq<Node>, d: nat, p: ShortPath): Option<seq<byte>>
    requires WellFormed(nodes) && IsDirectory(nodes, d)
  {
    match Walk(nodes, d, p.folders)
    case None => None
    case Some(x) => assert InRange(nodes, x); FileIn(nodes, nodes[x].children, p.file)
  }

  lemma {:induction false} WalkSnoc(nodes: seq<Node>, d: nat, path: seq<string>, name: string)
    requires WellFormed(nodes) && IsDirectory(nodes, d)
    ensures Walk(nodes, d, path + [name]) ==
            match Walk(nodes, d, path)
            case None => None
            case Some(x) => assert InRange(nodes, x); FindDirectory(nodes, nodes[x].children, name)
    decreases |path|
  {
    assert InRange(nodes, d);
    if path == [] {
      assert (path + [name])[0] == name && (path + [name])[1..] == [];
    } else {
      assert (path + [name])[0] == path[0] && (path + [name])[1..] == path[1..] + [name];
      var c := FindDirectory(nodes, nodes[d].children, path[0]);
      if c.Some? {
        WalkSnoc(nodes, c.value, path[1..], name);
      }
    }
  }

  /** A directory other than the start is reached only through its parent and its own name. */
  lemma WalkLast(nodes: seq<Node>, path: seq<string>)
    requires WellFormed(nodes) && path != [] && Walk(nodes, Root, path).Some?
    ensures var d := Walk(nodes, Root, path).value;
            d > Root && nodes[d].parent.Some? && nodes[d].name == path[|path| - 1]
            && Walk(nodes, Root, path[..|path| - 1]) == nodes[d].parent && nodes[d].parent.value < d
            && ChildOf(nodes, nodes[d].parent.value, d)
  {
    assert path == path[..|path| - 1] + [path[|path| - 1]];
    WalkSnoc(nodes, Root, path[..|path| - 1], path[|path| - 1]);
    var x := Walk(nodes, Root, path[..|path| - 1]).value;
    assert InRange(nodes, x);
    assert ChildOf(nodes, x, Walk(nodes, Root, path).value);
  }

  /** Two paths from the root that reach the same directory are the same path. */
  lemma {:induction false} WalkInjective(nodes: seq<Node>, p: seq<string>, q: seq<string>)
    requires WellFormed(nodes)
    requires Walk(nodes, Root, p).Some? && Walk(nodes, Root, p) == Walk(nodes, Root, q)
    ensures p == q
    decreases |p|
  {
    hide WellFormed, Walk;
    WalkNowhere(nodes, Root);
    if p != [] { WalkLast(nodes, p); }
    if q != [] { WalkLast(nodes, q); }
    if p != [] && q != [] {
      WalkInjective(nodes, p[..|p| - 1], q[..|q| - 1]);
      assert p == p[..|p| - 1] + [p[|p| - 1]] && q == q[..|q| - 1] + [q[|q| - 1]];
    }
  }

  // ---- adding a node ----

  /** A new node behind the others, entered at the end of directory `d`, which keeps the
      children `kept`. */
  function Extended(nodes: seq<Node>, d: nat, kept: seq<nat>, n: Node): (r: seq<Node>)
    requires d < |nodes| && nodes[d].Directory?
    ensures |r| == |nodes| + 1
  {
    nodes[d := nodes[d].(children := kept + [|nodes|])] + [n]
  }

  /** A legal addition: `kept` are children of `d` without a namesake of the new node. */
  ghost predicate Addable(nodes: seq<Node>, d: nat, kept: seq<nat>, n: Node) {
    && WellFormed(nodes) && IsDirectory(nodes, d) && NamedNode(n)
    && (n.Directory? ==> n.parent == Some(d) && n.children == [])
    && Within(kept, |nodes|) && DistinctNames(nodes, kept)
    && (forall i :: 0 <= i < |kept| ==> kept[i] in nodes[d].children && nodes[kept[i]].Short() != n.Short())
  }

  lemma ExtendedNode(nodes: seq<Node>, d: nat, kept: seq<nat>, n: Node, c: nat)
    requires Addable(nodes, d, kept, n) && c < |nodes|
    ensures var after := Extended(nodes, d, kept, n)[c];
            && after.Short() == nodes[c].Short() && after.Directory? == nodes[c].Directory? && NamedNode(after)
            && (after.Directory? ==> after.parent == nodes[c].parent)
            && (after.Directory? && c != d ==> after.children == nodes[c].children)
  {
    hide ChildOf, DistinctNames, Within, InRange;
    assert NamedNode(nodes[c]);
  }

  lemma ChildRange(nodes: seq<Node>, d: nat, c: nat)
    requires WellFormed(nodes) && ChildOf(nodes, d, c)
    ensures d < c < |nodes|
  {
  }

  lemma ExtendedChild(nodes: seq<Node>, d: nat, kept: seq<nat>, n: Node, e: nat, c: nat)
    requires Addable(nodes, d, kept, n) && ChildOf(Extended(nodes, d, kept, n), e, c)
    ensures (ChildOf(nodes, e, c) && e < c < |nodes|) || (e == d && c == |nodes|)
  {
    hide WellFormed, DistinctNames, NamedNode, Extended;
    NewChildren(nodes, d, kept, n);
    if e < |nodes| { ExtendedNode(nodes, d, kept, n, e); }
    if e == d && c != |nodes| {
      var i :| 0 <= i < |kept| && kept[i] == c;
      ChildRange(nodes, d, c);
    } else if e != d {
      ChildRange(nodes, e, c);
    }
  }

  lemma ExtendedNames(nodes: seq<Node>, d: nat, kept: seq<nat>, n: Node, e: nat)
    requires Addable(nodes, d, kept, n) && IsDirectory(Extended(nodes, d, kept, n), e)
    ensures var after := Extended(nodes, d, kept, n); InRange(after, e) && DistinctNames(after, after[e].children)
  {
    var after := Extended(nodes, d, kept, n);
    hide ChildOf, NamedNode, Extended;
    if e < |nodes| {
      ExtendedNode(nodes, d, kept, n, e);
      assert InRange(nodes, e) && DistinctNames(nodes, nodes[e].children);
      forall c | 0 <= c < |nodes| ensures after[c].Short() == nodes[c].Short() {
        ExtendedNode(nodes, d, kept, n, c);
      }
      NewChildren(nodes, d, kept, n);
    } else {
      NewChildren(nodes, d, kept, n);
    }
  }

  lemma NewChildren(nodes: seq<Node>, d: nat, kept: seq<nat>, n: Node)
    requires d < |nodes| && nodes[d].Directory?
    ensures var after := Extended(nodes, d, kept, n);
            after[d].Directory? && after[d].children == kept + [|nodes|] && after[|nodes|] == n
  {
  }

  lemma ExtendedWellFormed(nodes: seq<Node>, d: nat, kept: seq<nat>, n: Node)
    requires Addable(nodes, d, kept, n)
    ensures WellFormed(Extended(nodes, d, kept, n))
  {
    var after := Extended(nodes, d, kept, n);
    hide Extended, DistinctNames, NamedNode, ChildOf, Within;
    NewChildren(nodes, d, kept, n);
    forall c: nat | c < |after| ensures NamedNode(after[c]) {
      if c < |nodes| { ExtendedNode(nodes, d, kept, n, c); }
    }
    ExtendedNode(nodes, d, kept, n, Root);
    forall e: nat, c: nat | ChildOf(after, e, c)
      ensures e < c < |after| && (after[c].Directory? ==> after[c].parent == Some(e))
      ensures (ChildOf(nodes, e, c) && c < |nodes|) || (e == d && c == |nodes|)
    {
      ExtendedChild(nodes, d, kept, n, e, c);
      if c < |nodes| { ExtendedNode(nodes, d, kept, n, c); }
    }
    forall e: nat | IsDirectory(after, e) ensures InRange(after, e) && DistinctNames(after, after[e].children) {
      ExtendedNames(nodes, d, kept, n, e);
    }
  }

  // ---- GetOrAddDirectory ----

  function WithNewDirectory(nodes: seq<Node>, d: nat, name: string): seq<Node>
    requires d < |nodes| && nodes[d].Directory?
  {
    Extended(nodes, d, nodes[d].children, Directory(name, Some(d), [], 0, 0))
  }

  lemma NewDirectoryWellFormed(nodes: seq<Node>, d: nat, name: string)
    requires WellFormed(nodes) && IsDirectory(nodes, d) && IsShortName(name, 8)
    requires InRange(nodes, d) && FindDirectory(nodes, nodes[d].children, name).None?
    ensures WellFormed(WithNewDirectory(nodes, d, name))
  {
    hide Extended;
    var children, n := nodes[d].children, Directory(name, Some(d), [], 0, 0);
    assert DistinctNames(nodes, children);
    forall i | 0 <= i < |children| ensures nodes[children[i]].Short() != n.Short() {
      assert !IsFolderNamed(nodes[children[i]], name);
      NamesDiffer(nodes[children[i]], n);
    }
    ExtendedWellFormed(nodes, d, children, n);
  }

  /** Short names tell files, whose extension is never empty, from directories. */
  lemma NamesDiffer(a: Node, b: Node)
    requires NamedNode(a) && NamedNode(b)
    requires b.Directory? ==> !IsFolderNamed(a, b.name)
    requires b.File? ==> !IsFileNamed(a, b.Short())
    ensures a.Short() != b.Short()
  {
  }

  lemma {:induction false} FindAppended(nodes: seq<Node>, after: seq<Node>, children: seq<nat>, extra: nat,
                                        name: string)
    requires Within(children, |nodes|) && |nodes| <= |after|
    requires forall i :: 0 <= i < |children| ==>
               (IsFolderNamed(nodes[children[i]], name) <==> IsFolderNamed(after[children[i]], name))
    requires extra < |after|
    ensures FindDirectory(after, children + [extra], name) ==
            if FindDirectory(nodes, children, name).Some? then FindDirectory(nodes, children, name)
            else if IsFolderNamed(after[extra], name) then Some(extra) else None
  {
    if children == [] {
      assert (children + [extra])[1..] == [];
    } else {
      assert (children + [extra])[1..] == children[1..] + [extra];
      FindAppended(nodes, after, children[1..], extra, name);
    }
  }

  lemma {:induction false} FileInAppended(nodes: seq<Node>, after: seq<Node>, children: seq<nat>, extra: nat,
                                          short: ShortName)
    requires Within(children, |nodes|) && |nodes| <= |after|
    requires forall i :: 0 <= i < |children| ==>
               (IsFileNamed(nodes[children[i]], short) <==> IsFileNamed(after[children[i]], short))
    requires forall i :: 0 <= i < |children| ==>
               (nodes[children[i]].File? && after[children[i]].File? ==>
                nodes[children[i]].data == after[children[i]].data)
    requires extra < |after|
    ensures FileIn(after, children + [extra], short) ==
            if FileIn(nodes, children, short).Some? then FileIn(nodes, children, short)
            else if IsFileNamed(after[extra], short) then Some(after[extra].data) else None
  {
    if children == [] {
      assert (children + [extra])[1..] == [];
    } else {
      assert (children + [extra])[1..] == children[1..] + [extra];
      FileInAppended(nodes, after, children[1..], extra, short);
    }
  }

  /** Searching a list of children gives the same answer when those children keep their
      names, kinds and contents. */
  lemma {:induction false} SearchSame(nodes: seq<Node>, after: seq<Node>, children: seq<nat>, name: string,
                                      short: ShortName)
    requires Within(children, |nodes|) && Within(children, |after|)
    requires forall i :: 0 <= i < |children| ==>
               (IsFolderNamed(nodes[children[i]], name) <==> IsFolderNamed(after[children[i]], name))
    requires forall i :: 0 <= i < |children| ==>
               (IsFileNamed(nodes[children[i]], short) <==> IsFileNamed(after[children[i]], short))
    requires forall i :: 0 <= i < |children| ==>
               (nodes[children[i]].File? && after[children[i]].File? ==>
                nodes[children[i]].data == after[children[i]].data)
    ensures FindDirectory(after, children, name) == FindDirectory(nodes, children, name)
    ensures FileIn(after, children, short) == FileIn(nodes, children, short)
  {
    if children != [] {
      SearchSame(nodes, after, children[1..], name, short);
    }
  }

  /** An existing directory stays where it is when a new empty one is added. */
  lemma {:induction false} NewDirectoryWalk(nodes: seq<Node>, d: nat, name: string, from: nat, path: seq<string>)
    requires WellFormed(nodes) && IsDirectory(nodes, d) && IsDirectory(nodes, from)
    requires WellFormed(WithNewDirectory(nodes, d, name))
    ensures var before := Walk(nodes, from, path);
            var after := Walk(WithNewDirectory(nodes, d, name), from, path);
            if before.Some? then after == before else after.None? || after.value == |nodes|
    decreases |path|
  {
    var nodes' := WithNewDirectory(nodes, d, name);
    if path != [] {
      assert InRange(nodes, from) && InRange(nodes', from);
      if from == d {
        FindAppended(nodes, nodes', nodes[d].children, |nodes|, path[0]);
      } else {
        SearchSame(nodes, nodes', nodes[from].children, path[0], ShortName("", ""));
      }
      var c := FindDirectory(nodes', nodes'[from].children, path[0]);
      if c.Some? && c.value < |nodes| {
        NewDirectoryWalk(nodes, d, name, c.value, path[1..]);
      }
    }
  }

  /** Adding a directory changes the contents of no path. */
  lemma NewDirectoryLookup(nodes: seq<Node>, d: nat, name: string, p: ShortPath)
    requires WellFormed(nodes) && IsDirectory(nodes, d)
    requires WellFormed(WithNewDirectory(nodes, d, name))
    ensures Lookup(WithNewDirectory(nodes, d, name), Root, p) == Lookup(nodes, Root, p)
  {
    var nodes' := WithNewDirectory(nodes, d, name);
    NewDirectoryWalk(nodes, d, name, Root, p.folders);
    var x := Walk(nodes, Root, p.folders);
    if x.Some? {
      assert InRange(nodes, x.value) && InRange(nodes', x.value);
      if x.value == d {
        FileInAppended(nodes, nodes', nodes[d].children, |nodes|, p.file);
      } else {
        SearchSame(nodes, nodes', nodes[x.value].children, "", p.file);
      }
    }
  }

  // ---- AddFile ----

  /** `children` without the files called `short`. */
  function DropFiles(nodes: seq<Node>, children: seq<nat>, short: ShortName): (r: seq<nat>)
    requires Within(children, |nodes|)
    ensures Within(r, |nodes|)
    ensures forall c :: c in r ==> c in children && !IsFileNamed(nodes[c], short)
  {
    if children == [] then []
    else (if IsFileNamed(nodes[children[0]], short) then [] else [children[0]]) + DropFiles(nodes, children[1..], short)
  }

  function WithFile(nodes: seq<Node>, d: nat, short: ShortName, data: seq<byte>): seq<Node>
    requires d < |nodes| && nodes[d].Directory? && Within(nodes[d].children, |nodes|)
  {
    Extended(nodes, d, DropFiles(nodes, nodes[d].children, short), File(short.name, short.extension, data, 0, 0))
  }

  lemma {:induction false} DropFilesDistinct(nodes: seq<Node>, children: seq<nat>, short: ShortName)
    requires Within(children, |nodes|)
    requires DistinctNames(nodes, children)
    ensures DistinctNames(nodes, DropFiles(nodes, children, short))
  {
    if children != [] {
      var rest := children[1..];
      DropFilesDistinct(nodes, rest, short);
      var r := DropFiles(nodes, rest, short);
      forall j | 0 <= j < |r| ensures nodes[children[0]].Short() != nodes[r[j]].Short() {
        assert r[j] in rest;
        var k :| 0 <= k < |rest| && rest[k] == r[j];
        assert children[k + 1] == r[j];
      }
    }
  }

  lemma WithFileWellFormed(nodes: seq<Node>, d: nat, short: ShortName, data: seq<byte>)
    requires WellFormed(nodes) && InRange(nodes, d)
    requires IsShortName(short.name, 8) && IsShortName(short.extension, 3)
    ensures WellFormed(WithFile(nodes, d, short, data))
  {
    hide Extended;
    var kept, n := DropFiles(nodes, nodes[d].children, short), File(short.name, short.extension, data, 0, 0);
    assert DistinctNames(nodes, nodes[d].children);
    DropFilesDistinct(nodes, nodes[d].children, short);
    forall i | 0 <= i < |kept| ensures nodes[kept[i]].Short() != n.Short() {
      assert kept[i] in kept;
      NamesDiffer(nodes[kept[i]], n);
    }
    ExtendedWellFormed(nodes, d, kept, n);
  }

  lemma DropStep(nodes: seq<Node>, children: seq<nat>, short: ShortName)
    requires Within(children, |nodes|) && children != []
    ensures var kept := DropFiles(nodes, children, short);
            if IsFileNamed(nodes[children[0]], short) then kept == DropFiles(nodes, children[1..], short)
            else kept != [] && kept[0] == children[0] && kept[1..] == DropFiles(nodes, children[1..], short)
  {
  }

  lemma {:induction false} FindDropped(nodes: seq<Node>, children: seq<nat>, short: ShortName, name: string)
    requires Within(children, |nodes|)
    ensures FindDirectory(nodes, DropFiles(nodes, children, short), name) == FindDirectory(nodes, children, name)
  {
    if children != [] {
      FindDropped(nodes, children[1..], short, name);
      DropStep(nodes, children, short);
    }
  }

  lemma {:induction false} FileInDropped(nodes: seq<Node>, children: seq<nat>, short: ShortName, other: ShortName)
    requires Within(children, |nodes|)
    ensures FileIn(nodes, DropFiles(nodes, children, short), other) ==
            if other == short then None else FileIn(nodes, children, other)
  {
    if children != [] {
      FileInDropped(nodes, children[1..], short, other);
      DropStep(nodes, children, short);
    }
  }

  lemma {:induction false} WithFileWalk(nodes: seq<Node>, d: nat, short: ShortName, data: seq<byte>, from: nat,
                                        path: seq<string>)
    requires WellFormed(nodes) && InRange(nodes, d) && IsDirectory(nodes, from)
    requires WellFormed(WithFile(nodes, d, short, data))
    ensures Walk(WithFile(nodes, d, short, data), from, path) == Walk(nodes, from, path)
    decreases |path|
  {
    hide DropFiles, FindDirectory, WellFormed;
    var nodes' := WithFile(nodes, d, short, data);
    if path != [] {
      assert InRange(nodes, from) && InRange(nodes', from);
      if from == d {
        FindDropped(nodes, nodes[d].children, short, path[0]);
        FindAppended(nodes, nodes', DropFiles(nodes, nodes[d].children, short), |nodes|, path[0]);
      } else {
        SearchSame(nodes, nodes', nodes[from].children, path[0], ShortName("", ""));
      }
      var c := FindDirectory(nodes, nodes[from].children, path[0]);
      if c.Some? {
        WithFileWalk(nodes, d, short, data, c.value, path[1..]);
      }
    }
  }

  /** Adding a file changes one name of one directory. */
  lemma WithFileFileIn(nodes: seq<Node>, d: nat, short: ShortName, data: seq<byte>, x: nat, other: ShortName)
    requires InRange(nodes, d) && InRange(nodes, x)
    ensures InRange(WithFile(nodes, d, short, data), x)
    ensures FileIn(WithFile(nodes, d, short, data), WithFile(nodes, d, short, data)[x].children, other) ==
            if x == d && other == short then Some(data) else FileIn(nodes, nodes[x].children, other)
  {
    hide DropFiles, FileIn;
    var nodes' := WithFile(nodes, d, short, data);
    if x == d {
      var kept := DropFiles(nodes, nodes[d].children, short);
      FileInDropped(nodes, nodes[d].children, short, other);
      FileInAppended(nodes, nodes', kept, |nodes|, other);
    } else {
      SearchSame(nodes, nodes', nodes[x].children, "", other);
    }
  }

  /** Adding a file at the directory that `folders` leads to sets exactly that path. */
  lemma WithFileLookup(nodes: seq<Node>, d: nat, short: ShortName, data: seq<byte>, folders: seq<string>, p: ShortPath)
    requires WellFormed(nodes) && InRange(nodes, d)
    requires WellFormed(WithFile(nodes, d, short, data))
    requires Walk(nodes, Root, folders) == Some(d)
    ensures Lookup(WithFile(nodes, d, short, data), Root, p) ==
            if p == ShortPath(folders, short) then Some(data) else Lookup(nodes, Root, p)
  {
    hide WellFormed;
    WithFileWalk(nodes, d, short, data, Root, p.folders);
    var x := Walk(nodes, Root, p.folders);
    if x.Some? {
      WithFileFileIn(nodes, d, short, data, x.value, p.file);
      if x.value == d {
        WalkInjective(nodes, folders, p.folders);
      }
    }
  }

  // ---- the tree as it is built ----

  datatype RuntimeFile = RuntimeFile(relativePath: string, data: seq<byte>)

  /** The path of `file` normalises to `p`; a path without segments is no path at all. */
  predicate AddedAs(file: RuntimeFile, p: ShortPath) {
    var segments := Segments(file.relativePath);
    segments != [] && ShortPathOf(segments) == p
  }

  /** `path` is the pieces with separators of either kind between them, at least one not empty. */
  ghost predicate WrittenAs(path: string, pieces: seq<Piece>, separators: string) {
    && |pieces| == |separators| + 1 && path == WrittenPath(pieces, separators) && NamesOf(pieces) != []
    && (forall p <- pieces :: p.Plain()) && forall c <- separators :: c == '\\' || c == '/'
  }

  /** The short path of a list of names: the last one is the file's. */
  ghost predicate ShortForm(p: ShortPath, names: seq<string>) {
    && |names| == |p.folders| + 1 && p.file == NormalizeFile(names[|p.folders|])
    && forall i | 0 <= i < |p.folders| :: p.folders[i] == NormalizeName(names[i]).name
  }

  /** A file belongs under the short form of the names its path is written from, and nowhere else. */
  lemma AddedUnderNames(file: RuntimeFile, pieces: seq<Piece>, separators: string, p: ShortPath)
    requires WrittenAs(file.relativePath, pieces, separators)
    ensures AddedAs(file, p) <==> ShortForm(p, NamesOf(pieces))
  {
    hide Segments, NormalizeName, NormalizeFile, Spells;
    WrittenSplits(pieces, separators);
    var names := NamesOf(pieces);
    if ShortForm(p, names) {
      assert p.folders == ShortFolders(names[..|names| - 1]);
    }
  }

  lemma UnderNames(file: RuntimeFile)
    ensures forall pieces, separators, p ::
              WrittenAs(file.relativePath, pieces, separators) && ShortForm(p, NamesOf(pieces)) ==> AddedAs(file, p)
  {
    hide *;
    forall pieces, separators, p | WrittenAs(file.relativePath, pieces, separators) && ShortForm(p, NamesOf(pieces))
      ensures AddedAs(file, p)
    {
      AddedUnderNames(file, pieces, separators, p);
    }
  }

  lemma AddedWhen(file: RuntimeFile)
    ensures var segments := Segments(file.relativePath);
            forall p :: AddedAs(file, p) <==> segments != [] && ShortPathOf(segments) == p
  {
  }

  /** A path of the builder's own. */
  lemma ManifestPlace(data: seq<byte>)
    ensures AddedAs(RuntimeFile("DRAGON\\MANIFEST.TXT", data), ShortPath(["DRAGON"], ShortName("MANIFEST", "TXT")))
  {
    hide Segments, NormalizeName, NormalizeFile, Sanitized, Kept, IsWhiteSpace;
    var pieces := [Piece("", "DRAGON", ""), Piece("", "MANIFEST.TXT", "")];
    var p := ShortPath(["DRAGON"], ShortName("MANIFEST", "TXT"));
    ManifestWritten(pieces);
    SpelledName("DRAGON", "DRAGON", 8);
    SpelledName("MANIFEST", "MANIFEST", 8);
    SpelledName("TXT", "TXT", 3);
    FileNameSplits("MANIFEST", "TXT");
    assert "MANIFEST" + "." + "TXT" == "MANIFEST.TXT";
    NameOfFolder("DRAGON");
    AddedUnderNames(RuntimeFile("DRAGON\\MANIFEST.TXT", data), pieces, "\\", p);
  }

  lemma NameOfFolder(raw: string)
    ensures NormalizeName(raw) == ShortName(Sanitized(raw, 8), "")
  {
  }

  lemma ManifestWritten(pieces: seq<Piece>)
    requires pieces == [Piece("", "DRAGON", ""), Piece("", "MANIFEST.TXT", "")]
    ensures NamesOf(pieces) == ["DRAGON", "MANIFEST.TXT"] && WrittenAs("DRAGON\\MANIFEST.TXT", pieces, "\\")
  {
    hide IsWhiteSpace, WrittenAs, NamesOf, PlainName;
    PlainNames();
    TwoNames("DRAGON", "MANIFEST.TXT");
    assert "DRAGON" + ['\\'] + "MANIFEST.TXT" == "DRAGON\\MANIFEST.TXT";
  }

  lemma TwoNames(a: string, b: string)
    requires a != "" && b != "" && PlainName(a) && PlainName(b)
    ensures var pieces := [Piece("", a, ""), Piece("", b, "")];
            NamesOf(pieces) == [a, b] && WrittenAs(a + ['\\'] + b, pieces, ['\\'])
  {
    hide IsWhiteSpace, PlainName;
    var first, second := Piece("", a, ""), Piece("", b, "");
    assert [first, second][1..] == [second] && [second][1..] == [] && ['\\'][1..] == "";
    assert first.Text() == a && second.Text() == b;
    assert Blank("") && first.Plain() && second.Plain();
    assert NamesOf([second]) == [b] + NamesOf([]) == [b];
    assert NamesOf([first, second]) == [a] + NamesOf([second]);
    assert WrittenPath([second], "") == b;
    assert WrittenPath([first, second], ['\\']) == a + ['\\'] + WrittenPath([second], "");
  }

  lemma PlainNames()
    ensures PlainName("DRAGON") && PlainName("MANIFEST.TXT")
  {
  }

  /** The contents of the last package file whose path normalises to `p`. */
  function LastAdded(files: seq<RuntimeFile>, p: ShortPath): Option<seq<byte>> {
    if files == [] then None else
      var f := files[|files| - 1];
      if AddedAs(f, p) then Some(f.data) else LastAdded(files[..|files| - 1], p)
  }

  const BootPath := ShortPath(["EFI", "BOOT"], ShortName("BOOTX64", "EFI"))

  /** What a volume holds under `p`: the last package file added there, else the boot loader. */
  function Contents(bootx64: seq<byte>, files: seq<RuntimeFile>, p: ShortPath): Option<seq<byte>> {
    var added := LastAdded(files, p);
    if added.Some? then added else if p == BootPath then Some(bootx64) else None
  }

  /** Where firmware looks for the boot loader, it is, unless a package file takes the place. */
  lemma {:induction false} BootLoaderPlace(bootx64: seq<byte>, files: seq<RuntimeFile>)
    requires forall f <- files :: !AddedAs(f, ShortPath(["EFI", "BOOT"], ShortName("BOOTX64", "EFI")))
    ensures Contents(bootx64, files, ShortPath(["EFI", "BOOT"], ShortName("BOOTX64", "EFI"))) == Some(bootx64)
  {
    hide AddedAs;
    if files != [] {
      assert files[|files| - 1] in files && forall f <- files[..|files| - 1] :: f in files;
      BootLoaderPlace(bootx64, files[..|files| - 1]);
    }
  }

  /** Entering a directory by its short name: the child of that name, or a new one. */
  ghost function Entered(nodes: seq<Node>, d: nat, name: string): (r: (seq<Node>, nat))
    requires WellFormed(nodes) && IsDirectory(nodes, d) && IsShortName(name, 8)
    ensures WellFormed(r.0) && IsDirectory(r.0, r.1)
  {
    assert InRange(nodes, d);
    var found := FindDirectory(nodes, nodes[d].children, name);
    if found.Some? then (nodes, found.value) else
      NewDirectoryWellFormed(nodes, d, name);
      (WithNewDirectory(nodes, d, name), |nodes|)
  }

  ghost predicate AllShort(names: seq<string>) {
    forall i :: 0 <= i < |names| ==> IsShortName(names[i], 8)
  }

  ghost function EnteredAll(nodes: seq<Node>, d: nat, names: seq<string>): (r: (seq<Node>, nat))
    requires WellFormed(nodes) && IsDirectory(nodes, d) && AllShort(names)
    ensures WellFormed(r.0) && IsDirectory(r.0, r.1)
    decreases |names|
  {
    if names == [] then (nodes, d) else
      var s := Entered(nodes, d, names[0]);
      EnteredAll(s.0, s.1, names[1..])
  }

  lemma EnteredStep(nodes: seq<Node>, d: nat, names: seq<string>, i: nat)
    requires WellFormed(nodes) && IsDirectory(nodes, d) && AllShort(names) && i <= |names|
    ensures AllShort(names[i..])
    ensures i == |names| ==> EnteredAll(nodes, d, names[i..]) == (nodes, d)
    ensures i < |names| ==>
              var s := Entered(nodes, d, names[i]);
              AllShort(names[i + 1..]) && EnteredAll(nodes, d, names[i..]) == EnteredAll(s.0, s.1, names[i + 1..])
  {
    hide WellFormed, Entered;
    if i < |names| { assert names[i..][0] == names[i] && names[i..][1..] == names[i + 1..]; }
  }

  /** The tree with one file stored under `folders`. */
  ghost function WithFileAt(nodes: seq<Node>, folders: seq<string>, short: ShortName, data: seq<byte>): (r: seq<Node>)
    requires WellFormed(nodes) && AllShort(folders) && IsShortName(short.name, 8) && IsShortName(short.extension, 3)
    ensures WellFormed(r)
  {
    var s := EnteredAll(nodes, Root, folders);
    assert InRange(s.0, s.1);
    WithFileWellFormed(s.0, s.1, short, data);
    WithFile(s.0, s.1, short, data)
  }

  ghost function WithRuntimeFile(nodes: seq<Node>, file: RuntimeFile): (r: seq<Node>)
    requires WellFormed(nodes)
    ensures WellFormed(r)
  {
    var segments := Segments(file.relativePath);
    if segments == [] then nodes else
      var p := ShortPathOf(segments);
      WithFileAt(nodes, p.folders, p.file, file.data)
  }

  /** The tree a list of package files stands for. */
  ghost function TreeOf(bootx64: seq<byte>, files: seq<RuntimeFile>): (r: seq<Node>)
    ensures WellFormed(r)
  {
    if files == [] then
      BootPathShort();
      WithFileAt([Directory("X", None, [], 0, 0)], BootPath.folders, BootPath.file, bootx64)
    else WithRuntimeFile(TreeOf(bootx64, files[..|files| - 1]), files[|files| - 1])
  }

  lemma BootPathShort()
    ensures AllShort(BootPath.folders)
    ensures IsShortName(BootPath.file.name, 8) && IsShortName(BootPath.file.extension, 3)
  {
  }

  class Tree {
    var nodes: seq<Node>

    ghost predicate Valid()
      reads this
    {
      WellFormed(nodes)
    }

    constructor ()
      ensures Valid() && nodes == [Directory("X", None, [], 0, 0)]
      ensures forall p :: Lookup(nodes, Root, p) == None
    {
      nodes := [Directory("X", None, [], 0, 0)];
    }

    method GetOrAddDirectory(d: nat, rawName: string, ghost folders: seq<string>) returns (r: nat)
      requires Valid() && IsDirectory(nodes, d) && Walk(nodes, Root, folders) == Some(d)
      modifies this
      ensures Valid() && IsDirectory(nodes, r)
      ensures Walk(nodes, Root, folders + [NormalizeName(rawName).name]) == Some(r)
      ensures forall p :: Lookup(nodes, Root, p) == Lookup(old(nodes), Root, p)
      ensures (nodes, r) == Entered(old(nodes), d, NormalizeName(rawName).name)
    {
      var normalized := NormalizeName(rawName);
      assert InRange(nodes, d);
      WalkSnoc(nodes, Root, folders, normalized.name);
      var existing := FindDirectory(nodes, nodes[d].children, normalized.name);
      if existing.Some? {
        return existing.value;
      }
      r := |nodes|;
      NewDirectoryWellFormed(nodes, d, normalized.name);
      forall p ensures Lookup(WithNewDirectory(nodes, d, normalized.name), Root, p) == Lookup(nodes, Root, p) {
        NewDirectoryLookup(nodes, d, normalized.name, p);
      }
      NewDirectoryWalk(nodes, d, normalized.name, Root, folders);
      FindAppended(nodes, WithNewDirectory(nodes, d, normalized.name), nodes[d].children, |nodes|, normalized.name);
      nodes := nodes[d := nodes[d].(children := nodes[d].children + [r])]
        + [Directory(normalized.name, Some(d), [], 0, 0)];
      WalkSnoc(nodes, Root, folders, normalized.name);
      assert InRange(nodes, d);
    }

    method AddFile(d: nat, rawName: string, data: seq<byte>, ghost folders: seq<string>)
      requires Valid() && IsDirectory(nodes, d) && Walk(nodes, Root, folders) == Some(d)
      modifies this
      ensures Valid()
      ensures forall p :: Lookup(nodes, Root, p) ==
                if p == ShortPath(folders, NormalizeFile(rawName)) then Some(data) else Lookup(old(nodes), Root, p)
      ensures (assert InRange(old(nodes), d); nodes == WithFile(old(nodes), d, NormalizeFile(rawName), data))
    {
      var short := NormalizeFile(rawName);
      assert InRange(nodes, d);
      WithFileWellFormed(nodes, d, short, data);
      forall p ensures Lookup(WithFile(nodes, d, short, data), Root, p) ==
                       if p == ShortPath(folders, short) then Some(data) else Lookup(nodes, Root, p) {
        WithFileLookup(nodes, d, short, data, folders, p);
      }
      nodes := nodes[d := nodes[d].(children := DropFiles(nodes, nodes[d].children, short) + [|nodes|])]
        + [File(short.name, short.extension, data, 0, 0)];
    }

    /** A path without segments is ignored; otherwise exactly its own path changes. */
    method AddRuntimeFile(file: RuntimeFile)
      requires Valid()
      modifies this
      ensures Valid()
      ensures forall p ::
                Lookup(nodes, Root, p) == if AddedAs(file, p) then Some(file.data) else Lookup(old(nodes), Root, p)
      ensures nodes == WithRuntimeFile(old(nodes), file)
      ensures forall pieces, separators, p ::
                WrittenAs(file.relativePath, pieces, separators) && ShortForm(p, NamesOf(pieces)) ==>
                  Lookup(nodes, Root, p) == Some(file.data)
    {
      hide WellFormed, EnteredAll, Lookup, WithFile, AddedAs, WrittenAs, ShortForm;
      UnderNames(file);
      var segments := Segments(file.relativePath);
      AddedWhen(file);
      if |segments| == 0 {
        return;
      }
      ghost var folders := ShortFolders(segments[..|segments| - 1]);
      var directory := EnterDirectories(segments[..|segments| - 1]);
      AddFile(directory, segments[|segments| - 1], file.data, folders);
    }

    /** The loop over the directory names of a path: enters each, adding what is missing. */
    method EnterDirectories(names: seq<string>) returns (directory: nat)
      requires Valid()
      modifies this
      ensures Valid() && IsDirectory(nodes, directory) && Walk(nodes, Root, ShortFolders(names)) == Some(directory)
      ensures forall p :: Lookup(nodes, Root, p) == Lookup(old(nodes), Root, p)
      ensures (nodes, directory) == EnteredAll(old(nodes), Root, ShortFolders(names))
    {
      hide WellFormed, Entered, EnteredAll, Lookup, Walk, NormalizeName;
      directory := Root;
      ghost var short := ShortFolders(names);
      EnteredStep(nodes, Root, short, 0);
      WalkNowhere(nodes, Root);
      assert short[0..] == short && short[..0] == [];
      for i := 0 to |names|
        invariant Valid() && IsDirectory(nodes, directory)
        invariant Walk(nodes, Root, short[..i]) == Some(directory)
        invariant forall p :: Lookup(nodes, Root, p) == Lookup(old(nodes), Root, p)
        invariant EnteredAll(nodes, directory, short[i..]) == EnteredAll(old(nodes), Root, short)
      {
        EnteredStep(nodes, directory, short, i);
        assert short[..i + 1] == short[..i] + [NormalizeName(names[i]).name];
        directory := GetOrAddDirectory(directory, names[i], short[..i]);
      }
      EnteredStep(nodes, directory, short, |names|);
      assert short[..|names|] == short;
    }
  }

  lemma WalkNowhere(nodes: seq<Node>, d: nat)
    requires WellFormed(nodes) && IsDirectory(nodes, d)
    ensures Walk(nodes, d, []) == Some(d)
  {
  }

  lemma BootNames()
    ensures NormalizeName("EFI").name == "EFI" && NormalizeName("BOOT").name == "BOOT"
    ensures NormalizeFile("BOOTX64.EFI") == ShortName("BOOTX64", "EFI")
  {
    hide Kept, LastDot;
    BootPathShort();
    assert BootPath.folders[0] == "EFI" && BootPath.folders[1] == "BOOT";
    KeptOfShort("EFI");
    KeptOfShort("BOOT");
    KeptOfShort("BOOTX64");
    var raw := "BOOTX64.EFI";
    BootDot();
    assert raw[..7] == "BOOTX64" && raw[8..] == "EFI";
  }

  lemma BootDot()
    ensures LastDot("BOOTX64.EFI") == 7
  {
    var raw := "BOOTX64.EFI";
    assert raw[7] == '.' && raw[8] != '.' && raw[9] != '.' && raw[10] != '.';
  }

  /** The boot loader goes in first, under its fixed path. */
  method AddBootLoader(tree: Tree, bootx64: seq<byte>)
    requires tree.Valid() && tree.nodes == [Directory("X", None, [], 0, 0)]
    requires forall p :: Lookup(tree.nodes, Root, p) == None
    modifies tree
    ensures tree.Valid() && tree.nodes == TreeOf(bootx64, [])
    ensures forall p :: Lookup(tree.nodes, Root, p) == Contents(bootx64, [], p)
  {
    hide WellFormed, Lookup, NormalizeName, NormalizeFile, Entered, Walk, WithFile;
    BootNames();
    WalkNowhere(tree.nodes, Root);
    assert [] + ["EFI"] == ["EFI"] && ["EFI"] + ["BOOT"] == ["EFI", "BOOT"];
    EnteredStep(tree.nodes, Root, BootPath.folders, 0);
    var efiDir := tree.GetOrAddDirectory(Root, "EFI", []);
    EnteredStep(tree.nodes, efiDir, BootPath.folders, 1);
    var bootDir := tree.GetOrAddDirectory(efiDir, "BOOT", ["EFI"]);
    EnteredStep(tree.nodes, bootDir, BootPath.folders, 2);
    tree.AddFile(bootDir, "BOOTX64.EFI", bootx64, ["EFI", "BOOT"]);
  }

  lemma AddedLast(bootx64: seq<byte>, files: seq<RuntimeFile>, i: nat)
    requires i < |files|
    ensures TreeOf(bootx64, files[..i + 1]) == WithRuntimeFile(TreeOf(bootx64, files[..i]), files[i])
    ensures forall p :: Contents(bootx64, files[..i + 1], p) ==
              if AddedAs(files[i], p) then Some(files[i].data) else Contents(bootx64, files[..i], p)
  {
    hide WithRuntimeFile, WithFileAt, AddedAs;
    assert files[..i + 1][..i] == files[..i];
  }

  /** The whole tree: the boot loader under EFI\BOOT, then every runtime file in order. */
  method BuildTree(bootx64: seq<byte>, runtimeFiles: seq<RuntimeFile>) returns (tree: Tree)
    ensures fresh(tree) && tree.Valid() && tree.nodes == TreeOf(bootx64, runtimeFiles)
    ensures forall p :: Lookup(tree.nodes, Root, p) == Contents(bootx64, runtimeFiles, p)
  {
    hide WellFormed, Lookup, Contents, TreeOf, WithRuntimeFile, AddedAs;
    tree := new Tree();
    AddBootLoader(tree, bootx64);
    var i := 0;
    while i < |runtimeFiles|
      invariant 0 <= i <= |runtimeFiles|
      invariant tree.Valid()
      invariant tree.nodes == TreeOf(bootx64, runtimeFiles[..i])
      invariant forall p :: Lookup(tree.nodes, Root, p) == Contents(bootx64, runtimeFiles[..i], p)
    {
      tree.AddRuntimeFile(runtimeFiles[i]);
      AddedLast(bootx64, runtimeFiles, i);
      i := i + 1;
    }
    assert runtimeFiles[..i] == runtimeFiles;
  }
}
