/** Walking the tree and giving every directory and file its clusters (CollectDirectories,
    CollectFiles and the allocation part of BuildEfiSystemPartition in UefiSupport.cs). */
module FatLayout {
  import opened Bytes
  import opened FatTree

  const BytesPerSector := 512
  const TotalSectors := 32768
  const ReservedSectors := 1
  const FatCount := 2
  const RootEntryCount := 224
  const SectorsPerFat := 16
  const SectorsPerCluster := 16
  const ClusterSizeBytes := BytesPerSector * SectorsPerCluster
  const RootDirectorySectors := 14
  const FirstDataSector := ReservedSectors + FatCount * SectorsPerFat + RootDirectorySectors
  /** Clusters are numbered from 2; this is the first number behind the last of them. */
  const ClusterEnd := 2 + (TotalSectors - FirstDataSector) / SectorsPerCluster

  // ---- the two collections ----

  /** Directory `d` and every directory below it, parents first. */
  function DirsUnder(nodes: seq<Node>, d: nat): seq<nat>
    requires WellFormed(nodes) && IsDirectory(nodes, d)
    decreases |nodes| - d, |nodes[d].children| + 1
  {
    [d] + DirsFrom(nodes, d, 0)
  }

  function DirsFrom(nodes: seq<Node>, d: nat, k: nat): seq<nat>
    requires WellFormed(nodes) && IsDirectory(nodes, d) && k <= |nodes[d].children|
    decreases |nodes| - d, |nodes[d].children| - k
  {
    if k == |nodes[d].children| then [] else
      var c := Child(nodes, d, k);
      (if nodes[c].Directory? then DirsUnder(nodes, c) else []) + DirsFrom(nodes, d, k + 1)
  }

  /** Every file in and below directory `d`, in the order the children lists give. */
  function FilesFrom(nodes: seq<Node>, d: nat, k: nat): seq<nat>
    requires WellFormed(nodes) && IsDirectory(nodes, d) && k <= |nodes[d].children|
    decreases |nodes| - d, |nodes[d].children| - k
  {
    if k == |nodes[d].children| then [] else
      var c := Child(nodes, d, k);
      (if nodes[c].Directory? then FilesFrom(nodes, c, 0) else [c]) + FilesFrom(nodes, d, k + 1)
  }

  function Child(nodes: seq<Node>, d: nat, k: nat): (c: nat)
    requires WellFormed(nodes) && IsDirectory(nodes, d) && k < |nodes[d].children|
    ensures d < c < |nodes| && ChildOf(nodes, d, c)
    ensures nodes[c].Directory? ==> nodes[c].parent == Some(d)
  {
    assert ChildOf(nodes, d, nodes[d].children[k]);
    nodes[d].children[k]
  }

  lemma DirsStep(nodes: seq<Node>, d: nat, k: nat)
    requires WellFormed(nodes) && IsDirectory(nodes, d) && k < |nodes[d].children|
    ensures var c := Child(nodes, d, k);
            DirsFrom(nodes, d, k) == (if nodes[c].Directory? then DirsUnder(nodes, c) else [])
              + DirsFrom(nodes, d, k + 1)
  {
    hide WellFormed;
  }

  lemma FilesStep(nodes: seq<Node>, d: nat, k: nat)
    requires WellFormed(nodes) && IsDirectory(nodes, d) && k < |nodes[d].children|
    ensures var c := Child(nodes, d, k);
            FilesFrom(nodes, d, k) == (if nodes[c].Directory? then FilesFrom(nodes, c, 0) else [c])
              + FilesFrom(nodes, d, k + 1)
  {
    hide WellFormed;
  }

  lemma Regroup(a: seq<nat>, b: seq<nat>, c: seq<nat>)
    ensures (a + b) + c == a + (b + c) && a + [] == a
  {
  }

  lemma DirsEnd(nodes: seq<Node>, d: nat)
    requires WellFormed(nodes) && IsDirectory(nodes, d)
    ensures DirsFrom(nodes, d, |nodes[d].children|) == [] && FilesFrom(nodes, d, |nodes[d].children|) == []
  {
    hide WellFormed;
  }

  ghost predicate InDirs(nodes: seq<Node>, d: nat, k: nat, y: nat)
    requires WellFormed(nodes) && IsDirectory(nodes, d) && k <= |nodes[d].children|
  {
    y in DirsFrom(nodes, d, k)
  }

  ghost predicate InFiles(nodes: seq<Node>, d: nat, k: nat, y: nat)
    requires WellFormed(nodes) && IsDirectory(nodes, d) && k <= |nodes[d].children|
  {
    y in FilesFrom(nodes, d, k)
  }

  /** Membership in the two collections, one child at a time. */
  lemma CollectedStep(nodes: seq<Node>, d: nat, k: nat, y: nat)
    requires WellFormed(nodes) && IsDirectory(nodes, d) && k < |nodes[d].children|
    ensures var c := Child(nodes, d, k);
            && (InDirs(nodes, d, k, y) <==>
                (nodes[c].Directory? && (y == c || InDirs(nodes, c, 0, y))) || InDirs(nodes, d, k + 1, y))
            && (InFiles(nodes, d, k, y) <==>
                (if nodes[c].Directory? then InFiles(nodes, c, 0, y) else y == c) || InFiles(nodes, d, k + 1, y))
  {
    hide WellFormed, DirsFrom, FilesFrom;
    DirsStep(nodes, d, k);
    FilesStep(nodes, d, k);
    var c := Child(nodes, d, k);
    if nodes[c].Directory? { assert y in [c] + DirsFrom(nodes, c, 0) <==> y == c || y in DirsFrom(nodes, c, 0); }
  }

  method CollectDirectories(nodes: seq<Node>, d: nat, output: seq<nat>) returns (r: seq<nat>)
    requires WellFormed(nodes) && IsDirectory(nodes, d)
    ensures r == output + DirsUnder(nodes, d)
    decreases |nodes| - d
  {
    DirsEnd(nodes, d);
    hide WellFormed, DirsFrom;
    r := output + [d];
    var k := 0;
    while k < |nodes[d].children|
      invariant 0 <= k <= |nodes[d].children|
      invariant r + DirsFrom(nodes, d, k) == output + DirsUnder(nodes, d)
    {
      ghost var before := r;
      var c := Child(nodes, d, k);
      DirsStep(nodes, d, k);
      if nodes[c].Directory? {
        r := CollectDirectories(nodes, c, r);
      }
      Regroup(before, if nodes[c].Directory? then DirsUnder(nodes, c) else [], DirsFrom(nodes, d, k + 1));
      k := k + 1;
    }
  }

  method CollectFiles(nodes: seq<Node>, d: nat, output: seq<nat>) returns (r: seq<nat>)
    requires WellFormed(nodes) && IsDirectory(nodes, d)
    ensures r == output + FilesFrom(nodes, d, 0)
    decreases |nodes| - d
  {
    DirsEnd(nodes, d);
    hide WellFormed, FilesFrom;
    r := output;
    var k := 0;
    while k < |nodes[d].children|
      invariant 0 <= k <= |nodes[d].children|
      invariant r + FilesFrom(nodes, d, k) == output + FilesFrom(nodes, d, 0)
    {
      var c := Child(nodes, d, k);
      ghost var before := r;
      FilesStep(nodes, d, k);
      if nodes[c].Directory? {
        r := CollectFiles(nodes, c, r);
      } else {
        r := r + [c];
      }
      Regroup(before, if nodes[c].Directory? then FilesFrom(nodes, c, 0) else [c], FilesFrom(nodes, d, k + 1));
      k := k + 1;
    }
  }

  // ---- each reachable node is collected exactly once ----

  /** `x` is `d` or lies below it, following parent links. */
  ghost predicate Under(nodes: seq<Node>, x: nat, d: nat)
    decreases x
  {
    x < |nodes| && nodes[x].Directory?
    && (x == d || (nodes[x].parent.Some? && nodes[x].parent.value < x && Under(nodes, nodes[x].parent.value, d)))
  }

  lemma {:induction false} UnderAbove(nodes: seq<Node>, x: nat, d: nat)
    requires Under(nodes, x, d)
    ensures d <= x
  {
    if x != d { UnderAbove(nodes, nodes[x].parent.value, d); }
  }

  lemma {:induction false} UnderChild(nodes: seq<Node>, x: nat, c: nat, d: nat)
    requires Under(nodes, x, c) && c < |nodes| && nodes[c].Directory? && nodes[c].parent == Some(d) && d < c
    requires d < |nodes| && nodes[d].Directory?
    ensures Under(nodes, x, d)
  {
    if x != c { UnderChild(nodes, nodes[x].parent.value, c, d); }
  }

  /** The subtrees of two children of one directory share no directory. */
  lemma {:induction false} SiblingsApart(nodes: seq<Node>, x: nat, c: nat, e: nat, d: nat)
    requires Under(nodes, x, c) && Under(nodes, x, e) && c != e
    requires c < |nodes| && nodes[c].Directory? && nodes[c].parent == Some(d) && d < c
    requires e < |nodes| && nodes[e].Directory? && nodes[e].parent == Some(d) && d < e
    ensures false
  {
    if x == c {
      UnderAbove(nodes, d, e);
    } else if x == e {
      UnderAbove(nodes, d, c);
    } else {
      SiblingsApart(nodes, nodes[x].parent.value, c, e, d);
    }
  }

  /** Every directory collected from child `k` on lies below one of those children. */
  lemma {:induction false} DirsFromAreUnder(nodes: seq<Node>, d: nat, k: nat, x: nat)
    requires WellFormed(nodes) && IsDirectory(nodes, d) && k <= |nodes[d].children|
    requires x in DirsFrom(nodes, d, k)
    ensures exists j ::
              && k <= j < |nodes[d].children| && Under(nodes, x, Child(nodes, d, j))
              && nodes[Child(nodes, d, j)].Directory?
    ensures Under(nodes, x, d) && x > d
    decreases |nodes| - d, |nodes[d].children| - k
  {
    hide WellFormed;
    var c := Child(nodes, d, k);
    if nodes[c].Directory? && x in DirsUnder(nodes, c) {
      if x != c { DirsFromAreUnder(nodes, c, 0, x); }
      UnderChild(nodes, x, c, d);
      UnderAbove(nodes, x, c);
      assert Under(nodes, x, Child(nodes, d, k));
    } else {
      DirsFromAreUnder(nodes, d, k + 1, x);
    }
  }

  /** The directory that owns file `f`, below child `j` or `d` itself. */
  ghost predicate OwnedUnder(nodes: seq<Node>, f: nat, d: nat) {
    exists x: nat :: Under(nodes, x, d) && ChildOf(nodes, x, f)
  }

  lemma {:induction false} FilesFromAreUnder(nodes: seq<Node>, d: nat, k: nat, f: nat)
    requires WellFormed(nodes) && IsDirectory(nodes, d) && k <= |nodes[d].children|
    requires f in FilesFrom(nodes, d, k)
    ensures f < |nodes| && nodes[f].File? && OwnedUnder(nodes, f, d)
    ensures exists j :: k <= j < |nodes[d].children|
              && var c := Child(nodes, d, j); (f == c || (nodes[c].Directory? && OwnedUnder(nodes, f, c)))
    decreases |nodes| - d, |nodes[d].children| - k
  {
    hide WellFormed;
    var c := Child(nodes, d, k);
    if nodes[c].Directory? && f in FilesFrom(nodes, c, 0) {
      FilesFromAreUnder(nodes, c, 0, f);
      var x: nat :| Under(nodes, x, c) && ChildOf(nodes, x, f);
      UnderChild(nodes, x, c, d);
      assert nodes[Child(nodes, d, k)].Directory? && OwnedUnder(nodes, f, Child(nodes, d, k));
    } else if f == c && nodes[c].File? {
      assert Under(nodes, d, d) && ChildOf(nodes, d, f);
      assert f == Child(nodes, d, k);
    } else {
      FilesFromAreUnder(nodes, d, k + 1, f);
    }
  }

  ghost predicate NoRepeats(s: seq<nat>) {
    forall i, j :: 0 <= i < j < |s| ==> s[i] != s[j]
  }

  lemma NoRepeatsConcat(a: seq<nat>, b: seq<nat>)
    requires NoRepeats(a) && NoRepeats(b)
    requires forall x :: x in a && x in b ==> false
    ensures NoRepeats(a + b)
  {
    forall i, j | 0 <= i < j < |a + b| ensures (a + b)[i] != (a + b)[j] {
      if i < |a| <= j { assert (a + b)[i] in a && (a + b)[j] in b; }
    }
  }

  /** The directories under one child and those under later ones. */
  lemma BranchesApart(nodes: seq<Node>, d: nat, k: nat, x: nat)
    requires WellFormed(nodes) && IsDirectory(nodes, d) && k < |nodes[d].children|
    requires nodes[Child(nodes, d, k)].Directory?
    requires x in DirsUnder(nodes, Child(nodes, d, k)) && x in DirsFrom(nodes, d, k + 1)
    ensures false
  {
    var c := Child(nodes, d, k);
    hide WellFormed, DirsFrom;
    if x != c { DirsFromAreUnder(nodes, c, 0, x); }
    DirsFromAreUnder(nodes, d, k + 1, x);
    var j :| k + 1 <= j < |nodes[d].children| && Under(nodes, x, Child(nodes, d, j))
      && nodes[Child(nodes, d, j)].Directory?;
    ChildrenDiffer(nodes, d, k, j);
    SiblingsApart(nodes, x, c, Child(nodes, d, j), d);
  }

  lemma {:induction false} DirsOnce(nodes: seq<Node>, d: nat, k: nat)
    requires WellFormed(nodes) && IsDirectory(nodes, d) && k <= |nodes[d].children|
    ensures NoRepeats(DirsFrom(nodes, d, k)) && NoRepeats([d] + DirsFrom(nodes, d, k))
    decreases |nodes| - d, |nodes[d].children| - k
  {
    hide WellFormed, DirsFrom, NoRepeats;
    if k < |nodes[d].children| {
      var c := Child(nodes, d, k);
      DirsStep(nodes, d, k);
      DirsOnce(nodes, d, k + 1);
      if nodes[c].Directory? {
        DirsOnce(nodes, c, 0);
        forall x | x in DirsUnder(nodes, c) ensures x !in DirsFrom(nodes, d, k + 1) {
          if x in DirsFrom(nodes, d, k + 1) { BranchesApart(nodes, d, k, x); }
        }
        NoRepeatsConcat(DirsUnder(nodes, c), DirsFrom(nodes, d, k + 1));
      } else {
        assert [] + DirsFrom(nodes, d, k + 1) == DirsFrom(nodes, d, k + 1);
      }
    } else {
      DirsEnd(nodes, d);
      NoneRepeat(d);
    }
    NotBelowItself(nodes, d, k);
    NoneRepeat(d);
    NoRepeatsConcat([d], DirsFrom(nodes, d, k));
  }

  lemma NoneRepeat(d: nat)
    ensures NoRepeats([]) && NoRepeats([d])
  {
  }

  lemma ChildrenDiffer(nodes: seq<Node>, d: nat, i: nat, j: nat)
    requires WellFormed(nodes) && IsDirectory(nodes, d) && i < j < |nodes[d].children|
    ensures Child(nodes, d, i) != Child(nodes, d, j)
  {
    assert DistinctNames(nodes, nodes[d].children);
    assert nodes[nodes[d].children[i]].Short() != nodes[nodes[d].children[j]].Short();
  }

  lemma OneOwner(nodes: seq<Node>, x: nat, y: nat, f: nat)
    requires WellFormed(nodes) && ChildOf(nodes, x, f) && ChildOf(nodes, y, f)
    ensures x == y
  {
  }

  lemma {:induction false} FilesOnce(nodes: seq<Node>, d: nat, k: nat)
    requires WellFormed(nodes) && IsDirectory(nodes, d) && k <= |nodes[d].children|
    ensures NoRepeats(FilesFrom(nodes, d, k))
    decreases |nodes| - d, |nodes[d].children| - k
  {
    hide WellFormed;
    if k < |nodes[d].children| {
      var c := Child(nodes, d, k);
      var head := if nodes[c].Directory? then FilesFrom(nodes, c, 0) else [c];
      FilesOnce(nodes, d, k + 1);
      if nodes[c].Directory? { FilesOnce(nodes, c, 0); }
      forall f | f in head && f in FilesFrom(nodes, d, k + 1) ensures false {
        FileHeadApart(nodes, d, k, f);
      }
      NoRepeatsConcat(head, FilesFrom(nodes, d, k + 1));
    }
  }

  lemma FileHeadApart(nodes: seq<Node>, d: nat, k: nat, f: nat)
    requires WellFormed(nodes) && IsDirectory(nodes, d) && k < |nodes[d].children|
    requires var c := Child(nodes, d, k); if nodes[c].Directory? then f in FilesFrom(nodes, c, 0) else f == c
    requires f in FilesFrom(nodes, d, k + 1)
    ensures false
  {
    hide WellFormed;
    var c := Child(nodes, d, k);
    FilesFromAreUnder(nodes, d, k + 1, f);
    var j :| k + 1 <= j < |nodes[d].children|
      && var e := Child(nodes, d, j); (f == e || (nodes[e].Directory? && OwnedUnder(nodes, f, e)));
    var e := Child(nodes, d, j);
    ChildrenDiffer(nodes, d, k, j);
    var x: nat := d;
    if nodes[c].Directory? {
      FilesFromAreUnder(nodes, c, 0, f);
      x :| Under(nodes, x, c) && ChildOf(nodes, x, f);
      UnderAbove(nodes, x, c);
    }
    var y: nat := d;
    if f != e {
      y :| Under(nodes, y, e) && ChildOf(nodes, y, f);
      UnderAbove(nodes, y, e);
    }
    OneOwner(nodes, x, y, f);
    if nodes[c].Directory? && f != e {
      SiblingsApart(nodes, x, c, e, d);
    }
  }

  lemma NotBelowItself(nodes: seq<Node>, d: nat, k: nat)
    requires WellFormed(nodes) && IsDirectory(nodes, d) && k <= |nodes[d].children|
    ensures !InDirs(nodes, d, k, d)
  {
    hide WellFormed, DirsFrom;
    if d in DirsFrom(nodes, d, k) { DirsFromAreUnder(nodes, d, k, d); }
  }

  /** Whatever a collected directory holds is collected too. */
  lemma {:induction false} CollectedClosed(nodes: seq<Node>, d: nat, k: nat, x: nat, j: nat)
    requires WellFormed(nodes) && IsDirectory(nodes, d) && k <= |nodes[d].children|
    requires IsDirectory(nodes, x) && j < |nodes[x].children|
    requires InDirs(nodes, d, k, x) || (x == d && k <= j)
    ensures var c := Child(nodes, x, j);
            if nodes[c].Directory? then InDirs(nodes, d, k, c) else InFiles(nodes, d, k, c)
    decreases |nodes| - d, |nodes[d].children| - k
  {
    hide WellFormed, InDirs, InFiles, ChildOf;
    NotBelowItself(nodes, d, k);
    NothingLeft(nodes, d, x);
    if k < |nodes[d].children| {
      var c := Child(nodes, d, k);
      CollectedStep(nodes, d, k, x);
      CollectedStep(nodes, d, k, Child(nodes, x, j));
      if nodes[c].Directory? && (x == c || InDirs(nodes, c, 0, x)) {
        CollectedClosed(nodes, c, 0, x, j);
      } else if !(x == d && k == j) {
        CollectedClosed(nodes, d, k + 1, x, j);
      }
    }
  }

  lemma NothingLeft(nodes: seq<Node>, d: nat, x: nat)
    requires WellFormed(nodes) && IsDirectory(nodes, d)
    ensures !InDirs(nodes, d, |nodes[d].children|, x)
  {
    hide WellFormed;
  }

  // ---- allocation ----

  function Max1(n: nat): nat {
    if n < 1 then 1 else n
  }

  /** Bytes a node stores: a directory two header entries and one entry per child. */
  function PayloadBytes(n: Node): nat {
    if n.Directory? then (|n.children| + 2) * 32 else |n.data|
  }

  /** The smallest positive number of clusters that holds the payload of a node. */
  function ClustersNeeded(n: Node): (r: nat)
    ensures r >= 1 && PayloadBytes(n) <= r * ClusterSizeBytes
    ensures r > 1 ==> (r - 1) * ClusterSizeBytes < PayloadBytes(n)
  {
    Max1(CeilDiv(PayloadBytes(n), ClusterSizeBytes))
  }

  /** First cluster of the `i`-th node of `order` when clusters are handed out from 2. */
  function StartOf(nodes: seq<Node>, order: seq<nat>, i: nat): (r: nat)
    requires i <= |order| && Within(order, |nodes|)
    ensures r >= 2 + i
  {
    if i == 0 then 2 else StartOf(nodes, order, i - 1) + ClustersNeeded(nodes[order[i - 1]])
  }

  /** The first `n` nodes of `order` carry their extents. */
  ghost predicate Allocated(nodes: seq<Node>, order: seq<nat>, n: nat)
    requires n <= |order| && Within(order, |nodes|)
  {
    forall i :: 0 <= i < n ==>
      nodes[order[i]].startCluster == StartOf(nodes, order, i)
        && nodes[order[i]].clusterCount == ClustersNeeded(nodes[order[i]])
  }

  /** Extents tile the clusters in order: a later extent starts at or after the end of an
      earlier one, so no two overlap. */
  lemma {:induction false} StartsIncrease(nodes: seq<Node>, order: seq<nat>, i: nat, j: nat)
    requires i < j <= |order| && Within(order, |nodes|)
    ensures StartOf(nodes, order, i) + ClustersNeeded(nodes[order[i]]) <= StartOf(nodes, order, j)
  {
    if i < j - 1 { StartsIncrease(nodes, order, i, j - 1); }
  }

  /** The extents cover every cluster handed out: the tiling has no gap. */
  lemma {:induction false} ExtentsTile(nodes: seq<Node>, order: seq<nat>, n: nat, cluster: nat)
    requires n <= |order| && Within(order, |nodes|)
    requires 2 <= cluster < StartOf(nodes, order, n)
    ensures exists i ::
              0 <= i < n
              && StartOf(nodes, order, i) <= cluster < StartOf(nodes, order, i) + ClustersNeeded(nodes[order[i]])
  {
    if StartOf(nodes, order, n - 1) <= cluster {
      var start := StartOf(nodes, order, n - 1);
      assert start <= cluster < start + ClustersNeeded(nodes[order[n - 1]]);
    } else {
      ExtentsTile(nodes, order, n - 1, cluster);
    }
  }

  /** Equal up to extents. */
  ghost predicate SameShape(a: seq<Node>, b: seq<Node>) {
    |a| == |b| && forall i :: 0 <= i < |a| ==>
      b[i] == a[i].(startCluster := b[i].startCluster, clusterCount := b[i].clusterCount)
  }

  lemma SameShapeWellFormed(a: seq<Node>, b: seq<Node>)
    requires SameShape(a, b) && WellFormed(a)
    ensures WellFormed(b)
  {
    forall d: nat, c: nat | ChildOf(b, d, c) ensures ChildOf(a, d, c) {}
    forall d: nat | IsDirectory(b, d) ensures InRange(b, d) && DistinctNames(b, b[d].children) {
      assert IsDirectory(a, d) && InRange(a, d) && DistinctNames(a, a[d].children);
      var cs := b[d].children;
      forall i, j | 0 <= i < j < |cs| ensures b[cs[i]].Short() != b[cs[j]].Short() {
        assert b[cs[i]].Short() == a[cs[i]].Short() && b[cs[j]].Short() == a[cs[j]].Short();
      }
    }
  }

  lemma {:induction false} SameShapeDirs(a: seq<Node>, b: seq<Node>, d: nat, k: nat)
    requires SameShape(a, b) && WellFormed(a) && WellFormed(b) && IsDirectory(a, d) && k <= |a[d].children|
    ensures DirsFrom(b, d, k) == DirsFrom(a, d, k) && FilesFrom(b, d, k) == FilesFrom(a, d, k)
    decreases |a| - d, |a[d].children| - k
  {
    hide WellFormed, DirsFrom, FilesFrom;
    if k < |a[d].children| {
      var c := Child(a, d, k);
      assert Child(b, d, k) == c;
      DirsStep(a, d, k);
      DirsStep(b, d, k);
      FilesStep(a, d, k);
      FilesStep(b, d, k);
      if a[c].Directory? { SameShapeDirs(a, b, c, 0); }
      SameShapeDirs(a, b, d, k + 1);
    } else {
      DirsEnd(a, d);
      DirsEnd(b, d);
    }
  }

  lemma {:induction false} SameShapeStart(a: seq<Node>, b: seq<Node>, order: seq<nat>, i: nat)
    requires SameShape(a, b) && i <= |order| && Within(order, |a|)
    ensures StartOf(b, order, i) == StartOf(a, order, i)
  {
    if i > 0 { SameShapeStart(a, b, order, i - 1); }
  }

  /** One assignment of the allocation loops. */
  function Assigned(nodes: seq<Node>, id: nat, start: nat): seq<Node>
    requires id < |nodes|
  {
    nodes[id := nodes[id].(startCluster := start, clusterCount := ClustersNeeded(nodes[id]))]
  }

  lemma AssignedStep(before: seq<Node>, order: seq<nat>, i: nat)
    requires i < |order| && Within(order, |before|) && NoRepeats(order) && Allocated(before, order, i)
    ensures var after := Assigned(before, order[i], StartOf(before, order, i));
            SameShape(before, after) && Allocated(after, order, i + 1)
  {
    hide ClustersNeeded, StartOf;
    var after := Assigned(before, order[i], StartOf(before, order, i));
    AssignedShape(before, order[i], StartOf(before, order, i));
    forall j | 0 <= j <= i
      ensures after[order[j]].startCluster == StartOf(after, order, j)
      ensures after[order[j]].clusterCount == ClustersNeeded(after[order[j]])
    {
      SameShapeStart(before, after, order, j);
      SameNeed(before, after, order[j]);
      if j < i { assert order[j] != order[i]; }
    }
  }

  lemma AssignedShape(nodes: seq<Node>, id: nat, start: nat)
    requires id < |nodes|
    ensures SameShape(nodes, Assigned(nodes, id, start))
  {
  }

  lemma SameNeed(a: seq<Node>, b: seq<Node>, id: nat)
    requires SameShape(a, b) && id < |a|
    ensures ClustersNeeded(b[id]) == ClustersNeeded(a[id])
  {
    assert b[id] == a[id].(startCluster := b[id].startCluster, clusterCount := b[id].clusterCount);
  }

  /** The order in which clusters are handed out: sub-directories, then files. */
  function Order(nodes: seq<Node>): seq<nat>
    requires WellFormed(nodes)
  {
    DirsFrom(nodes, Root, 0) + FilesFrom(nodes, Root, 0)
  }

  lemma OrderFacts(nodes: seq<Node>)
    requires WellFormed(nodes)
    ensures Within(Order(nodes), |nodes|) && NoRepeats(Order(nodes))
    ensures forall x <- DirsFrom(nodes, Root, 0) :: IsDirectory(nodes, x) && x > Root && nodes[x].parent.Some?
    ensures forall x <- FilesFrom(nodes, Root, 0) :: x < |nodes| && nodes[x].File?
  {
    hide WellFormed;
    var dirs, files := DirsFrom(nodes, Root, 0), FilesFrom(nodes, Root, 0);
    forall x | x in dirs ensures IsDirectory(nodes, x) && x > Root && nodes[x].parent.Some? {
      DirsFromAreUnder(nodes, Root, 0, x);
    }
    forall x | x in files ensures x < |nodes| && nodes[x].File? {
      FilesFromAreUnder(nodes, Root, 0, x);
    }
    DirsOnce(nodes, Root, 0);
    FilesOnce(nodes, Root, 0);
    NoRepeatsConcat(dirs, files);
    forall i | 0 <= i < |Order(nodes)| ensures Order(nodes)[i] < |nodes| {
      assert Order(nodes)[i] in dirs || Order(nodes)[i] in files;
    }
  }

  /** Nothing reachable is left out: every child of a directory some path leads to gets its
      place in the order. */
  lemma {:induction false} OrderComplete(nodes: seq<Node>, path: seq<string>, j: nat)
    requires WellFormed(nodes) && Walk(nodes, Root, path).Some?
    requires j < |nodes[Walk(nodes, Root, path).value].children|
    ensures Child(nodes, Walk(nodes, Root, path).value, j) in Order(nodes)
    decreases |path|
  {
    var d := Walk(nodes, Root, path).value;
    hide WellFormed, Walk, DirsFrom, FilesFrom;
    if path == [] {
      WalkNowhere(nodes, Root);
      CollectedClosed(nodes, Root, 0, Root, j);
    } else {
      WalkLast(nodes, path);
      var p := nodes[d].parent.value;
      var i := ChildIndex(nodes, p, d);
      OrderComplete(nodes, path[..|path| - 1], i);
      OrderFacts(nodes);
      assert d in DirsFrom(nodes, Root, 0);
      CollectedClosed(nodes, Root, 0, d, j);
    }
  }

  ghost function ChildIndex(nodes: seq<Node>, d: nat, c: nat): (i: nat)
    requires WellFormed(nodes) && ChildOf(nodes, d, c)
    ensures i < |nodes[d].children| && Child(nodes, d, i) == c
  {
    var i: nat :| i < |nodes[d].children| && nodes[d].children[i] == c;
    i
  }
}
