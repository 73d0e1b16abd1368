/** The firmware's memory declaration (MemoryPeim in MemoryInitPeiLib.c): the system-memory
    descriptor that contains the firmware device is split in place so that the device has a
    descriptor of its own. Addresses and lengths are mathematical integers. */
module MemorySplit {
  datatype ResourceType = SystemMemory | OtherResource(code: nat)

  datatype MemoryType = BootServicesData | OtherMemory(code: nat)

  datatype Hob =
    | Resource(resourceType: ResourceType, attributes: nat, start: nat, length: nat)
    | Allocation(base: nat, size: nat, memoryType: MemoryType)
    | OtherHob(code: nat)

  /** The platform's fixed settings: main memory and the firmware device. */
  datatype Platform = Platform(memoryBase: nat, memorySize: nat, fdBase: nat, fdSize: nat)
  {
    function MemoryTop(): nat { memoryBase + memorySize }
    function FdTop(): nat { fdBase + fdSize }
    predicate DeviceInMemory() { fdBase >= memoryBase && FdTop() <= MemoryTop() }
  }

  const PRESENT_TESTED_CACHEABLE := 0x3807

  predicate IsMemory(h: Hob)
    ensures IsMemory(h) ==> h.Resource? && h == Resource(SystemMemory, h.attributes, h.start, h.length)
    ensures !h.Resource? || h.resourceType != SystemMemory ==> !IsMemory(h)
  {
    h.Resource? && h.resourceType == SystemMemory
  }

  /** What the search for main memory accepts. */
  predicate Declares(h: Hob, p: Platform) {
    IsMemory(h) && p.memoryBase >= h.start && h.start + h.length <= p.MemoryTop()
  }

  predicate ContainsDevice(h: Hob, p: Platform) {
    IsMemory(h) && p.fdBase >= h.start && p.FdTop() <= h.start + h.length
  }

  function MainMemory(p: Platform): Hob {
    Resource(SystemMemory, PRESENT_TESTED_CACHEABLE, p.memoryBase, p.memorySize)
  }

  function DeviceMemory(h: Hob, p: Platform): Hob
    requires h.Resource?
  {
    Resource(SystemMemory, h.attributes, p.fdBase, p.fdSize)
  }

  function DeviceAllocation(p: Platform): Hob {
    Allocation(p.fdBase, p.fdSize, BootServicesData)
  }

  // ---- what the two steps make of the list ----

  ghost predicate Declared(hobs: seq<Hob>, p: Platform) {
    exists i :: 0 <= i < |hobs| && Declares(hobs[i], p)
  }

  ghost function AfterDeclaring(hobs: seq<Hob>, p: Platform): seq<Hob> {
    if Declared(hobs, p) then hobs else hobs + [MainMemory(p)]
  }

  ghost predicate IsHolder(hobs: seq<Hob>, p: Platform, i: nat) {
    i < |hobs| && ContainsDevice(hobs[i], p) && forall j :: 0 <= j < i ==> !ContainsDevice(hobs[j], p)
  }

  /** The holder's new value and what is appended. */
  function SplitAt(hobs: seq<Hob>, p: Platform, i: nat): (r: seq<Hob>)
    requires i < |hobs| && ContainsDevice(hobs[i], p)
    ensures |r| > |hobs|
  {
    var h := hobs[i];
    var top := h.start + h.length;
    if p.fdBase == h.start then
      if p.MemoryTop() == p.FdTop() then hobs + [DeviceAllocation(p)]
      else
        hobs[i := h.(start := h.start + p.fdSize, length := h.length - p.fdSize)]
        + [DeviceMemory(h, p), DeviceAllocation(p)]
    else
      hobs[i := h.(length := p.fdBase - h.start)] + [DeviceMemory(h, p)]
      + (if p.FdTop() < top then [Resource(SystemMemory, h.attributes, p.FdTop(), top - p.FdTop())] else [])
      + [DeviceAllocation(p)]
  }

  class HobList {
    var hobs: seq<Hob>

    constructor (hobs: seq<Hob>)
      ensures this.hobs == hobs
    {
      this.hobs := hobs;
    }

    /** GetNextHob for resource descriptors: the list's length stands for NULL. */
    method GetNextResource(from: nat) returns (i: nat)
      requires from <= |hobs|
      ensures from <= i <= |hobs| && (i < |hobs| ==> hobs[i].Resource?)
      ensures forall j :: from <= j < i ==> !hobs[j].Resource?
    {
      i := from;
      while i < |hobs| && !hobs[i].Resource?
        invariant from <= i <= |hobs| && forall j :: from <= j < i ==> !hobs[j].Resource?
      {
        i := i + 1;
      }
    }

    method BuildHob(h: Hob)
      modifies this
      ensures hobs == old(hobs) + [h]
    {
      hobs := hobs + [h];
    }

    method DeclareMainMemory(p: Platform)
      modifies this
      ensures hobs == AfterDeclaring(old(hobs), p)
    {
      var found := false;
      var i := GetNextResource(0);
      while i < |hobs| && !found
        invariant 0 <= i <= |hobs| && hobs == old(hobs) && (i < |hobs| ==> hobs[i].Resource?)
        invariant found ==> i < |hobs| && Declares(hobs[i], p)
        invariant !found ==> forall j :: 0 <= j < i ==> !Declares(hobs[j], p)
        decreases |hobs| - i, !found
      {
        if Declares(hobs[i], p) {
          found := true;
        } else {
          i := GetNextResource(i + 1);
        }
      }
      if !found {
        BuildHob(MainMemory(p));
      }
    }

    /** Edits descriptor `i` in place and appends the pieces. */
    method Split(p: Platform, i: nat)
      requires i < |hobs| && ContainsDevice(hobs[i], p)
      modifies this
      ensures hobs == SplitAt(old(hobs), p, i)
    {
      var attributes, length := hobs[i].attributes, hobs[i].length;
      var top := hobs[i].start + length;
      if p.fdBase == hobs[i].start {
        if p.MemoryTop() != p.FdTop() {
          BuildHob(Resource(SystemMemory, attributes, p.fdBase, p.fdSize));
          hobs := hobs[i := hobs[i].(start := hobs[i].start + p.fdSize, length := hobs[i].length - p.fdSize)];
        }
      } else {
        BuildHob(Resource(SystemMemory, attributes, p.fdBase, p.fdSize));
        hobs := hobs[i := hobs[i].(length := p.fdBase - hobs[i].start)];
        if p.FdTop() < hobs[i].start + length {
          BuildHob(Resource(SystemMemory, attributes, p.FdTop(), top - p.FdTop()));
        }
      }
      BuildHob(DeviceAllocation(p));
    }

    /** The memory part of MemoryPeim. `found` is what its final ASSERT checks. From end to end
        memory is conserved, apart from the main memory declared, and the descriptors are
        disjoint afterwards exactly when they were before and what was declared is apart. */
    method MemoryPeim(p: Platform) returns (found: bool)
      requires p.memorySize != 0
      modifies this
      ensures var all := AfterDeclaring(old(hobs), p);
              if p.fdBase < p.memoryBase || p.memoryBase + p.memorySize < p.fdBase + p.fdSize then found && hobs == all
              else if found then exists i :: IsHolder(all, p, i) && hobs == SplitAt(all, p, i)
              else hobs == all && forall i :: 0 <= i < |all| ==> !ContainsDevice(all[i], p)
      ensures forall address, attributes :: Coverage(hobs, address, attributes)
                == Coverage(old(hobs), address, attributes)
                   + if Declared(old(hobs), p) then 0 else One(MainMemory(p), address, attributes)
      ensures Disjoint(hobs) <==> Disjoint(old(hobs)) && DeclaresApart(old(hobs), p)
    {
      hide Coverage, One, Disjoint, DeclaresApart, SplitAt, AfterDeclaring, Declared;
      DeclaringKeeps(hobs, p);
      DeclareMainMemory(p);
      if !p.DeviceInMemory() {
        return true;
      }
      ghost var all := hobs;
      found := false;
      var i := GetNextResource(0);
      while i < |hobs| && !found
        invariant !found ==> 0 <= i <= |hobs| && hobs == all && (i < |hobs| ==> hobs[i].Resource?)
                             && forall j :: 0 <= j < i ==> !ContainsDevice(hobs[j], p)
        invariant found ==> IsHolder(all, p, i) && hobs == SplitAt(all, p, i)
        decreases !found, |hobs| - i
      {
        if ContainsDevice(hobs[i], p) {
          Split(p, i);
          found := true;
        } else {
          i := GetNextResource(i + 1);
        }
      }
      if found { SplitKeeps(all, p, i); }
    }
  }

  // ---- what the split keeps ----

  predicate Covers(h: Hob, address: nat, attributes: nat) {
    IsMemory(h) && h.attributes == attributes && h.start <= address < h.start + h.length
  }

  function One(h: Hob, address: nat, attributes: nat): nat {
    if Covers(h, address, attributes) then 1 else 0
  }

  /** How many system-memory descriptors with these attributes cover an address. */
  function Coverage(hobs: seq<Hob>, address: nat, attributes: nat): nat {
    if hobs == [] then 0
    else Coverage(hobs[..|hobs| - 1], address, attributes) + One(hobs[|hobs| - 1], address, attributes)
  }

  lemma CoverageAppend(hobs: seq<Hob>, h: Hob, address: nat, attributes: nat)
    ensures Coverage(hobs + [h], address, attributes)
            == Coverage(hobs, address, attributes) + One(h, address, attributes)
  {
    assert (hobs + [h])[..|hobs|] == hobs;
  }

  lemma {:induction false} CoverageUpdate(hobs: seq<Hob>, i: nat, h: Hob, address: nat, attributes: nat)
    requires i < |hobs|
    ensures Coverage(hobs[i := h], address, attributes) + One(hobs[i], address, attributes)
         == Coverage(hobs, address, attributes) + One(h, address, attributes)
  {
    hide Covers;
    var n := |hobs| - 1;
    if i < n {
      CoverageUpdate(hobs[..n], i, h, address, attributes);
      assert hobs[i := h][..n] == hobs[..n][i := h];
    } else {
      assert hobs[i := h][..n] == hobs[..n];
    }
  }

  /** The split conserves memory: every address is covered exactly as often as before, with the
      same attributes. */
  lemma SplitConserves(hobs: seq<Hob>, p: Platform, i: nat, address: nat, attributes: nat)
    requires i < |hobs| && ContainsDevice(hobs[i], p)
    ensures Coverage(SplitAt(hobs, p, i), address, attributes) == Coverage(hobs, address, attributes)
  {
    hide Coverage;
    var h := hobs[i];
    var device, allocation, top := DeviceMemory(h, p), DeviceAllocation(p), h.start + h.length;
    if p.fdBase == h.start && p.MemoryTop() == p.FdTop() {
      CoverageAppend(hobs, allocation, address, attributes);
    } else {
      var left := if p.fdBase == h.start then h.(start := h.start + p.fdSize, length := h.length - p.fdSize)
                  else h.(length := p.fdBase - h.start);
      CoverageUpdate(hobs, i, left, address, attributes);
      CoverageAppend(hobs[i := left], device, address, attributes);
      var two := hobs[i := left] + [device];
      var rest := Resource(SystemMemory, h.attributes, p.FdTop(), top - p.FdTop());
      CoverageAppend(two, rest, address, attributes);
      CoverageAppend(two, allocation, address, attributes);
      CoverageAppend(two + [rest], allocation, address, attributes);
      assert hobs[i := left] + [device, allocation] == two + [allocation];
      assert two + [] + [allocation] == two + [allocation];
    }
  }

  /** No address belongs to two system-memory descriptors. */
  ghost predicate Disjoint(hobs: seq<Hob>) {
    forall i, j :: 0 <= i < j < |hobs| && IsMemory(hobs[i]) && IsMemory(hobs[j]) ==> Apart(hobs[i], hobs[j])
  }

  predicate Apart(a: Hob, b: Hob)
    requires a.Resource? && b.Resource?
  {
    a.length == 0 || b.length == 0 || a.start + a.length <= b.start || b.start + b.length <= a.start
  }

  /** Only a system-memory descriptor starting at the device and ending with it. */
  predicate IsDevice(h: Hob, p: Platform) {
    IsMemory(h) && h.start == p.fdBase && h.length == p.fdSize
  }

  /** The split leaves the descriptors disjoint exactly when they were. */
  lemma SplitDisjoint(hobs: seq<Hob>, p: Platform, i: nat)
    requires i < |hobs| && ContainsDevice(hobs[i], p)
    ensures Disjoint(SplitAt(hobs, p, i)) <==> Disjoint(hobs)
  {
    if Disjoint(hobs) { SplitStaysDisjoint(hobs, p, i); }
    if Disjoint(SplitAt(hobs, p, i)) { SplitWasDisjoint(hobs, p, i); }
  }

  lemma SplitStaysDisjoint(hobs: seq<Hob>, p: Platform, i: nat)
    requires i < |hobs| && ContainsDevice(hobs[i], p) && Disjoint(hobs)
    ensures Disjoint(SplitAt(hobs, p, i))
  {
    var h, after := hobs[i], SplitAt(hobs, p, i);
    forall a, b | 0 <= a < b < |after| && IsMemory(after[a]) && IsMemory(after[b]) ensures Apart(after[a], after[b]) {
      PieceOf(hobs, p, i, a);
      PieceOf(hobs, p, i, b);
      if a < |hobs| { assert a != i ==> (if a < i then Apart(hobs[a], h) else Apart(h, hobs[a])); }
    }
  }

  lemma SplitWasDisjoint(hobs: seq<Hob>, p: Platform, i: nat)
    requires i < |hobs| && ContainsDevice(hobs[i], p) && Disjoint(SplitAt(hobs, p, i))
    ensures Disjoint(hobs)
  {
    hide ContainsDevice, SplitAt;
    var after := SplitAt(hobs, p, i);
    forall a, b | 0 <= a < b < |hobs| && IsMemory(hobs[a]) && IsMemory(hobs[b]) ensures Apart(hobs[a], hobs[b]) {
      PieceOf(hobs, p, i, a);
      PieceOf(hobs, p, i, b);
      var x := if hobs[a].start < hobs[b].start then hobs[b].start else hobs[a].start;
      if !Apart(hobs[a], hobs[b]) && (a == i || b == i) {
        var k := PieceAt(hobs, p, i, x);
        PieceAfter(hobs, p, i, if a == i then b else a, k);
      } else if a != i && b != i {
        assert after[a] == hobs[a] && after[b] == hobs[b];
      }
    }
  }

  /** Two entries of a disjoint result, the other way round as well. */
  lemma PieceAfter(hobs: seq<Hob>, p: Platform, i: nat, a: nat, k: nat)
    requires i < |hobs| && ContainsDevice(hobs[i], p) && Disjoint(SplitAt(hobs, p, i))
    requires a < |hobs| && a != i && k < |SplitAt(hobs, p, i)| && a != k
    requires IsMemory(hobs[a]) && IsMemory(SplitAt(hobs, p, i)[k])
    ensures a < |SplitAt(hobs, p, i)|
    ensures Apart(hobs[a], SplitAt(hobs, p, i)[k]) && Apart(SplitAt(hobs, p, i)[k], hobs[a])
  {
    hide ContainsDevice, SplitAt;
    PieceOf(hobs, p, i, a);
    var after := SplitAt(hobs, p, i);
    assert if a < k then Apart(after[a], after[k]) else Apart(after[k], after[a]);
  }

  /** Every address of the holder lies in one of its pieces. */
  lemma PieceAt(hobs: seq<Hob>, p: Platform, i: nat, x: nat) returns (k: nat)
    requires i < |hobs| && ContainsDevice(hobs[i], p) && hobs[i].start <= x < hobs[i].start + hobs[i].length
    ensures k < |SplitAt(hobs, p, i)| && (k == i || k >= |hobs|)
    ensures var n := SplitAt(hobs, p, i)[k]; IsMemory(n) && n.start <= x < n.start + n.length
  {
    var n := SplitAt(hobs, p, i)[i];
    if n.start <= x < n.start + n.length { return i; }
    return if x < p.FdTop() then |hobs| else |hobs| + 1;
  }

  /** What was declared, if anything, is apart from the descriptors before it. */
  ghost predicate DeclaresApart(hobs: seq<Hob>, p: Platform) {
    Declared(hobs, p) || forall k :: 0 <= k < |hobs| && IsMemory(hobs[k]) ==> Apart(hobs[k], MainMemory(p))
  }

  lemma DeclaringDisjoint(hobs: seq<Hob>, p: Platform)
    ensures Disjoint(AfterDeclaring(hobs, p)) <==> Disjoint(hobs) && DeclaresApart(hobs, p)
  {
    var after := AfterDeclaring(hobs, p);
    hide Declared, Declares;
    assert forall k :: 0 <= k < |hobs| ==> after[k] == hobs[k];
    if !Declared(hobs, p) {
      assert after[|hobs|] == MainMemory(p);
      if Disjoint(after) {
        forall k | 0 <= k < |hobs| && IsMemory(hobs[k]) ensures Apart(hobs[k], MainMemory(p)) {
          assert Apart(after[k], after[|hobs|]);
        }
        forall i, j | 0 <= i < j < |hobs| && IsMemory(hobs[i]) && IsMemory(hobs[j]) ensures Apart(hobs[i], hobs[j]) {
          assert Apart(after[i], after[j]);
        }
      }
    }
  }

  /** Disjoint descriptors can be made to overlap: one that starts above the base of main
      memory is not accepted, and the whole of main memory is declared on top of it. */
  lemma DeclaringOverlaps()
    ensures var p := Platform(0, 10, 8, 2);
            var hobs := [Resource(SystemMemory, 0, 5, 5)];
            Disjoint(hobs) && IsHolder(hobs, p, 0) && !Disjoint(AfterDeclaring(hobs, p))
  {
    var p := Platform(0, 10, 8, 2);
    var hobs := [Resource(SystemMemory, 0, 5, 5)];
    var after := AfterDeclaring(hobs, p);
    assert after == hobs + [MainMemory(p)];
    assert !Apart(after[0], after[1]);
  }

  lemma DeclaringKeeps(hobs: seq<Hob>, p: Platform)
    ensures forall address, attributes :: Coverage(AfterDeclaring(hobs, p), address, attributes)
              == Coverage(hobs, address, attributes)
                 + if Declared(hobs, p) then 0 else One(MainMemory(p), address, attributes)
    ensures Disjoint(AfterDeclaring(hobs, p)) <==> Disjoint(hobs) && DeclaresApart(hobs, p)
  {
    hide Coverage, One, Disjoint, DeclaresApart, Declared;
    DeclaringDisjoint(hobs, p);
    forall address, attributes
      ensures Coverage(AfterDeclaring(hobs, p), address, attributes)
              == Coverage(hobs, address, attributes)
                 + if Declared(hobs, p) then 0 else One(MainMemory(p), address, attributes)
    {
      CoverageAppend(hobs, MainMemory(p), address, attributes);
    }
  }

  lemma SplitKeeps(hobs: seq<Hob>, p: Platform, i: nat)
    requires i < |hobs| && ContainsDevice(hobs[i], p)
    ensures forall address, attributes ::
              Coverage(SplitAt(hobs, p, i), address, attributes) == Coverage(hobs, address, attributes)
    ensures Disjoint(SplitAt(hobs, p, i)) <==> Disjoint(hobs)
  {
    hide Coverage, Disjoint, SplitAt, ContainsDevice;
    SplitDisjoint(hobs, p, i);
    forall address, attributes
      ensures Coverage(SplitAt(hobs, p, i), address, attributes) == Coverage(hobs, address, attributes)
    {
      SplitConserves(hobs, p, i, address, attributes);
    }
  }

  /** Every system-memory descriptor of the result is an old one or lies inside the holder. */
  lemma PieceOf(hobs: seq<Hob>, p: Platform, i: nat, k: nat)
    requires i < |hobs| && ContainsDevice(hobs[i], p) && k < |SplitAt(hobs, p, i)|
    ensures k < |hobs| && k != i ==> SplitAt(hobs, p, i)[k] == hobs[k]
    ensures var n, h := SplitAt(hobs, p, i)[k], hobs[i];
            (k == i || k >= |hobs|) && IsMemory(n) ==> h.start <= n.start && n.start + n.length <= h.start + h.length
  {
  }

  /** The device gets a descriptor of its own, unless it starts at its holder's start, ends at
      the top of main memory and the holder runs on past that. With disjoint descriptors and a
      device that is not empty, it gets one exactly then. */
  lemma DeviceAlone(hobs: seq<Hob>, p: Platform, i: nat)
    requires i < |hobs| && ContainsDevice(hobs[i], p) && Disjoint(hobs) && p.fdSize > 0
    ensures (exists k :: 0 <= k < |SplitAt(hobs, p, i)| && IsDevice(SplitAt(hobs, p, i)[k], p))
            <==> !(p.fdBase == hobs[i].start && p.FdTop() == p.MemoryTop() && hobs[i].length > p.fdSize)
  {
    var h, after := hobs[i], SplitAt(hobs, p, i);
    if p.fdBase == h.start && p.MemoryTop() == p.FdTop() {
      if h.length == p.fdSize {
        assert IsDevice(after[i], p);
      } else {
        forall k | 0 <= k < |after| ensures !IsDevice(after[k], p) {
          if k < |hobs| && k != i && IsMemory(hobs[k]) {
            assert if k < i then Apart(hobs[k], h) else Apart(h, hobs[k]);
          }
        }
      }
    } else {
      assert IsDevice(after[|hobs|], p);
    }
  }

  /** The exception happens: main memory [0, 10), the device [8, 10), and a descriptor [8, 12)
      that holds it. The list is left as it is, apart from the allocation. */
  lemma DeviceNotAlone()
    ensures var p := Platform(0, 10, 8, 2);
            var hobs := [Resource(SystemMemory, 0, 0, 8), Resource(SystemMemory, 0, 8, 4)]; (
      && Disjoint(hobs) && p.DeviceInMemory() && AfterDeclaring(hobs, p) == hobs && IsHolder(hobs, p, 1)
      && SplitAt(hobs, p, 1) == hobs + [DeviceAllocation(p)]
      && forall k :: 0 <= k < |SplitAt(hobs, p, 1)| ==> !IsDevice(SplitAt(hobs, p, 1)[k], p))
  {
    var p := Platform(0, 10, 8, 2);
    var hobs := [Resource(SystemMemory, 0, 0, 8), Resource(SystemMemory, 0, 8, 4)];
    assert Declares(hobs[0], p);
  }

  /** Where no descriptor runs past the top of main memory, the device always gets its own. */
  lemma DeviceAloneWithinMemory(hobs: seq<Hob>, p: Platform, i: nat)
    requires i < |hobs| && ContainsDevice(hobs[i], p) && Disjoint(hobs) && p.fdSize > 0
    requires hobs[i].start + hobs[i].length <= p.MemoryTop()
    ensures exists k :: 0 <= k < |SplitAt(hobs, p, i)| && IsDevice(SplitAt(hobs, p, i)[k], p)
  {
    DeviceAlone(hobs, p, i);
  }

  /** Nothing else in the list changes, and exactly one allocation is added, for the device. An
      empty descriptor is left behind exactly when the device was all of its holder and does not
      end at the top of main memory. */
  lemma RestUntouched(hobs: seq<Hob>, p: Platform, i: nat)
    requires i < |hobs| && ContainsDevice(hobs[i], p)
    ensures var after := SplitAt(hobs, p, i);
            && |hobs| < |after| && after[|after| - 1] == Allocation(p.fdBase, p.fdSize, BootServicesData)
            && (forall k :: 0 <= k < |hobs| && k != i ==> after[k] == hobs[k])
            && (forall k :: |hobs| <= k < |after| - 1 ==>
                IsMemory(after[k]) && after[k].attributes == hobs[i].attributes)
            && (p.fdSize > 0 ==> (IsMemory(after[i]) && after[i].length == 0
                 <==> hobs[i].start == p.fdBase && hobs[i].length == p.fdSize && p.FdTop() != p.MemoryTop()))
  {
  }

  // ---- main memory ----

  /** A descriptor holds the device when it covers every byte of it. */
  lemma HolderCovers(h: Hob, p: Platform)
    requires p.fdSize > 0 && h.Resource?
    ensures ContainsDevice(h, p) <==> forall a :: p.fdBase <= a < p.fdBase + p.fdSize ==> Covers(h, a, h.attributes)
  {
    if forall a :: p.fdBase <= a < p.fdBase + p.fdSize ==> Covers(h, a, h.attributes) {
      assert Covers(h, p.fdBase, h.attributes) && Covers(h, p.fdBase + p.fdSize - 1, h.attributes);
    }
  }

  /** A list that holds main memory already is left alone. */
  lemma MainMemoryKnown(hobs: seq<Hob>, p: Platform, k: nat, attributes: nat)
    requires k < |hobs| && hobs[k] == Resource(SystemMemory, attributes, p.memoryBase, p.memorySize)
    ensures AfterDeclaring(hobs, p) == hobs
  {
    assert Declares(hobs[k], p);
  }

  /** A list of one entry: main memory is declared, present, initialised, tested and cacheable in
      all three ways, unless the entry is system memory that starts no later and ends no later. */
  lemma OneEntry(h: Hob, p: Platform)
    ensures AfterDeclaring([h], p) ==
              if h.Resource? && h.resourceType == SystemMemory && h.start <= p.memoryBase
                 && h.start + h.length <= p.memoryBase + p.memorySize then [h]
              else [h, Resource(SystemMemory, 1 + 2 + 4 + 0x800 + 0x1000 + 0x2000, p.memoryBase, p.memorySize)]
  {
    assert Declared([h], p) <==> Declares([h][0], p);
  }

  ghost predicate Covered(hobs: seq<Hob>, address: nat) {
    exists k :: 0 <= k < |hobs| && IsMemory(hobs[k]) && hobs[k].start <= address < hobs[k].start + hobs[k].length
  }

  ghost predicate MainCovered(hobs: seq<Hob>, p: Platform) {
    forall a :: p.memoryBase <= a < p.MemoryTop() ==> Covered(hobs, a)
  }

  /** The search for main memory also accepts a descriptor that covers only part of it, or lies
      wholly below it. The memory is covered afterwards exactly when it was covered before or no
      descriptor was accepted. */
  lemma MainMemoryCovered(hobs: seq<Hob>, p: Platform)
    ensures MainCovered(AfterDeclaring(hobs, p), p) <==> !Declared(hobs, p) || MainCovered(hobs, p)
  {
    if !Declared(hobs, p) {
      var after := AfterDeclaring(hobs, p);
      forall a | p.memoryBase <= a < p.MemoryTop() ensures Covered(after, a) { assert after[|hobs|] == MainMemory(p); }
    }
  }

  /** A descriptor below main memory is enough to leave main memory undeclared. */
  lemma LowDescriptorAccepted(p: Platform)
    requires 0 < p.memoryBase && p.memorySize > 0
    ensures var low := [Resource(SystemMemory, 0, 0, p.memoryBase)];
            AfterDeclaring(low, p) == low && !Covered(low, p.memoryBase)
  {
    var low := [Resource(SystemMemory, 0, 0, p.memoryBase)];
    assert Declares(low[0], p);
  }

  /** When no descriptor was accepted, the ASSERT after the search holds: some descriptor, the
      declared one at the latest, contains the device. */
  lemma DeclaredHolds(hobs: seq<Hob>, p: Platform)
    requires !Declared(hobs, p) && p.DeviceInMemory()
    ensures exists i :: 0 <= i < |AfterDeclaring(hobs, p)| && ContainsDevice(AfterDeclaring(hobs, p)[i], p)
  {
    assert ContainsDevice(AfterDeclaring(hobs, p)[|hobs|], p);
  }
}
