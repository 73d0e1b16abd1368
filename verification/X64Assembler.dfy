/** The x64 label and fixup assembler (X64Assembler in UefiSupport.cs). Every emitted instruction
    is decoded again from the array it produces. */
module X64Assembler {
  import opened Bytes
  import opened Splices
  import opened Bits
  import opened X64Encoding

  datatype FixupKind = Relative32 | RipRelative32

  datatype Fixup = Fixup(position: nat, name: string, kind: FixupKind)

  datatype Placed = Placed(at: nat, instr: Instr)
  {
    function Size(): nat { |Encode(instr)| + if Target(instr).Some? then 4 else 0 }
    function End(): nat { at + Size() }
  }

  datatype AssembleError = UnknownLabel(name: string)

  /** Instructions one behind the other, opcodes in place; displacements may be blank. */
  ghost predicate Arranged(bytes: seq<byte>, placed: seq<Placed>) {
    forall k :: 0 <= k < |placed| ==> Stands(bytes, placed, k)
  }

  ghost predicate Stands(bytes: seq<byte>, placed: seq<Placed>, k: nat)
    requires k < |placed|
  {
    && placed[k].End() <= (if k + 1 < |placed| then placed[k + 1].at else |bytes|) && placed[k].End() <= |bytes|
    && bytes[placed[k].at..placed[k].at + |Encode(placed[k].instr)|] == Encode(placed[k].instr)
  }

  ghost predicate SiteMatches(placed: seq<Placed>, k: nat, f: Fixup) {
    k < |placed| && Target(placed[k].instr) == Some(f.name) && f.position == placed[k].at + |Encode(placed[k].instr)|
  }

  ghost predicate FixupsMatch(placed: seq<Placed>, fixups: seq<Fixup>, sites: seq<nat>) {
    && |sites| == |fixups|
    && (forall f :: 0 <= f < |fixups| ==> SiteMatches(placed, sites[f], fixups[f]))
    && (forall f, g :: 0 <= f < g < |fixups| ==> sites[f] < sites[g])
    && (forall k :: 0 <= k < |placed| && Target(placed[k].instr).Some? ==> k in sites)
  }

  /** From the end of the instruction to its label; zero when it names none. */
  function Reach(p: Placed, labels: map<string, nat>): int {
    match Target(p.instr)
    case Some(name) => if name in labels then labels[name] - p.End() else 0
    case None => 0
  }

  /** The array holds the instruction with its displacement. */
  ghost predicate Filled(out: seq<byte>, p: Placed, labels: map<string, nat>) {
    && InRange(Reach(p, labels)) && p.End() <= |out|
    && out[p.at..p.End()] == Finished(p.instr, Reach(p, labels))
  }

  predicate InRange(v: int) {
    -0x8000_0000 <= v < 0x8000_0000
  }

  /** Positions of displacements; everything else is final when emitted. */
  ghost predicate InWindow(fixups: seq<Fixup>, n: nat, p: nat) {
    exists f :: 0 <= f < n && f < |fixups| && fixups[f].position <= p < fixups[f].position + 4
  }

  function KindOf(i: Instr): FixupKind {
    if i.LeaRipRelative? then RipRelative32 else Relative32
  }

  class Assembler {
    var bytes: seq<byte>
    var labels: map<string, nat>
    var fixups: seq<Fixup>
    /** The instructions emitted so far, and for each fixup the instruction it belongs to. */
    ghost var placed: seq<Placed>
    ghost var sites: seq<nat>

    ghost predicate Valid()
      reads this
    {
      Arranged(bytes, placed) && FixupsMatch(placed, fixups, sites) && forall name <- labels :: labels[name] <= |bytes|
    }

    constructor ()
      ensures Valid() && bytes == [] && placed == [] && labels == map[]
    {
      bytes, labels, fixups := [], map[], [];
      placed, sites := [], [];
    }

    method MarkLabel(name: string)
      requires Valid()
      modifies this
      ensures Valid() && labels == old(labels)[name := |bytes|] && bytes == old(bytes) && placed == old(placed)
    {
      labels := labels[name := |bytes|];
    }

    /** Raw bytes, which need not be instructions. */
    method EmitBytes(values: seq<byte>)
      requires Valid()
      modifies this
      ensures Valid() && bytes == old(bytes) + values && placed == old(placed) && labels == old(labels)
    {
      hide Encode, Target;
      MoreBytes(bytes, values, placed);
      bytes := bytes + values;
    }

    method Align(alignment: nat)
      requires Valid() && alignment > 0
      modifies this
      ensures Valid() && |bytes| % alignment == 0 && |bytes| < |old(bytes)| + alignment
      ensures old(bytes) <= bytes && (forall i :: |old(bytes)| <= i < |bytes| ==> bytes[i] == 0x90)
      ensures placed == old(placed) && labels == old(labels)
    {
      ghost var up := NextMultiple(|bytes|, alignment);
      while |bytes| % alignment != 0
        invariant Valid() && placed == old(placed) && labels == old(labels) && old(bytes) <= bytes
        invariant |bytes| <= |old(bytes)| + up && (forall i :: |old(bytes)| <= i < |bytes| ==> bytes[i] == 0x90)
        decreases |old(bytes)| + up - |bytes|
      {
        EmitBytes([0x90]);
      }
    }

    /** One emitting method: the bytes, and a blank displacement with a fixup for a label. */
    method Emit(i: Instr)
      requires Valid()
      modifies this
      ensures Valid() && placed == old(placed) + [Placed(|old(bytes)|, i)] && labels == old(labels)
      ensures bytes == old(bytes) + Encode(i) + (if Target(i).Some? then Zeros(4) else [])
    {
      hide Encode, Target;
      EmitKeeps(bytes, placed, fixups, sites, i);
      var name := Target(i);
      ghost var at := |bytes|;
      bytes := bytes + Encode(i);
      if name.Some? {
        fixups := fixups + [Fixup(|bytes|, name.value, KindOf(i))];
        bytes := bytes + Zeros(4);
        sites := sites + [|placed|];
      }
      placed := placed + [Placed(at, i)];
    }

    /** Copies the bytes and fills every displacement in. It fails only on an unknown label; the
        assembler itself is unchanged, so it can go on emitting. */
    method ToArray() returns (r: Result<seq<byte>, AssembleError>)
      requires Valid() && |bytes| < 0x8000_0000
      ensures r.Ok? <==> forall f :: 0 <= f < |fixups| ==> fixups[f].name in labels
      ensures r.Err? ==> r.error.name !in labels
      ensures r.Ok? ==> |r.value| == |bytes| && forall k :: 0 <= k < |placed| ==> Filled(r.value, placed[k], labels)
      ensures r.Ok? ==> forall p :: 0 <= p < |bytes| && !InWindow(fixups, |fixups|, p) ==> r.value[p] == bytes[p]
    {
      hide Encode, Target, Arranged, FixupsMatch, Filled, InWindow, Reach, Signed32;
      var emitted := bytes;
      var output := new byte[|emitted|](i requires 0 <= i < |emitted| => emitted[i]);
      assert output[..] == bytes;
      var n := 0;
      while n < |fixups|
        invariant 0 <= n <= |fixups| && fresh(output) && output.Length == |bytes| && Valid()
        invariant Arranged(output[..], placed) && FixupsMatch(placed, fixups, sites)
        invariant forall f :: 0 <= f < n ==> fixups[f].name in labels
        invariant FilledSites(output[..], placed, labels, sites, n)
        invariant OutsideSame(bytes, output[..], fixups, n)
      {
        var fixup := fixups[n];
        SiteOf(output[..], placed, fixups, sites, n);
        if fixup.name !in labels {
          return Err(UnknownLabel(fixup.name));
        }
        var displacement := labels[fixup.name] - (fixup.position + 4);
        ghost var before := output[..];
        ReachIs(placed[sites[n]], fixup, labels, sites[n], placed);
        CopyTo(output, fixup.position, Signed32(displacement));
        PatchKeeps(before, output[..], placed, labels, fixups, sites, n);
        WindowGrows(bytes, before, output[..], fixups, n, Signed32(displacement));
        n := n + 1;
      }
      AllFilled(output[..], placed, labels, fixups, sites);
      return Ok(output[..]);
    }
  }

  ghost predicate FilledSites(out: seq<byte>, placed: seq<Placed>, labels: map<string, nat>, sites: seq<nat>, n: nat) {
    n <= |sites| && forall f :: 0 <= f < n ==> sites[f] < |placed| && Filled(out, placed[sites[f]], labels)
  }

  ghost predicate OutsideSame(bytes: seq<byte>, out: seq<byte>, fixups: seq<Fixup>, n: nat) {
    |out| == |bytes| && forall p :: 0 <= p < |bytes| && !InWindow(fixups, n, p) ==> out[p] == bytes[p]
  }

  /** How far the next multiple of `alignment` is. */
  lemma NextMultiple(n: nat, alignment: nat) returns (up: nat)
    requires alignment > 0
    ensures up < alignment && (n + up) % alignment == 0 && forall m :: n <= m < n + up ==> m % alignment != 0
  {
    var q, r := n / alignment, n % alignment;
    assert n == q * alignment + r;
    up := if r == 0 then 0 else alignment - r;
    if r > 0 {
      assert n + up == (q + 1) * alignment;
      DivUnique(n + up, alignment, q + 1, 0);
      forall m | n <= m < n + up ensures m % alignment != 0 {
        DivUnique(m, alignment, q, m - q * alignment);
      }
    }
  }

  lemma {:induction false} PlacedInOrder(bytes: seq<byte>, placed: seq<Placed>, i: nat, j: nat)
    requires Arranged(bytes, placed) && i < j < |placed|
    ensures placed[i].End() <= placed[j].at
  {
    hide Encode, Target;
    assert Stands(bytes, placed, j - 1);
    if i < j - 1 { PlacedInOrder(bytes, placed, i, j - 1); }
  }

  lemma MoreBytes(bytes: seq<byte>, values: seq<byte>, placed: seq<Placed>)
    requires Arranged(bytes, placed)
    ensures Arranged(bytes + values, placed)
  {
    hide Encode, Target;
    forall k | 0 <= k < |placed| ensures Stands(bytes + values, placed, k) {
      assert Stands(bytes, placed, k);
    }
  }

  lemma EmitKeeps(bytes: seq<byte>, placed: seq<Placed>, fixups: seq<Fixup>, sites: seq<nat>, i: Instr)
    requires Arranged(bytes, placed) && FixupsMatch(placed, fixups, sites)
    ensures var after := placed + [Placed(|bytes|, i)];
            && Arranged(bytes + Encode(i) + (if Target(i).Some? then Zeros(4) else []), after)
            && (Target(i).None? ==> Arranged(bytes + Encode(i), after) && FixupsMatch(after, fixups, sites))
            && (Target(i).Some? ==>
                FixupsMatch(after, fixups + [Fixup(|bytes| + |Encode(i)|, Target(i).value, KindOf(i))],
                            sites + [|placed|]))
  {
    hide Encode, Target;
    var after := placed + [Placed(|bytes|, i)];
    var blank := if Target(i).Some? then Zeros(4) else [];
    var all := bytes + Encode(i) + blank;
    forall k | 0 <= k < |after| ensures Stands(all, after, k) {
      if k < |placed| { assert Stands(bytes, placed, k); }
    }
    assert blank == [] ==> all == bytes + Encode(i);
    forall f | 0 <= f < |fixups| ensures SiteMatches(after, sites[f], fixups[f]) {
      assert SiteMatches(placed, sites[f], fixups[f]);
    }
  }

  lemma SiteOf(bytes: seq<byte>, placed: seq<Placed>, fixups: seq<Fixup>, sites: seq<nat>, n: nat)
    requires Arranged(bytes, placed) && FixupsMatch(placed, fixups, sites) && n < |fixups|
    ensures |sites| == |fixups| && SiteMatches(placed, sites[n], fixups[n])
    ensures placed[sites[n]].End() == fixups[n].position + 4 <= |bytes|
  {
    hide Encode, Target;
    assert SiteMatches(placed, sites[n], fixups[n]);
    assert Stands(bytes, placed, sites[n]);
  }

  /** No two displacements overlap. */
  lemma WindowsApart(bytes: seq<byte>, placed: seq<Placed>, fixups: seq<Fixup>, sites: seq<nat>, f: nat, g: nat)
    requires Arranged(bytes, placed) && FixupsMatch(placed, fixups, sites) && f < g < |fixups|
    ensures fixups[f].position + 4 <= fixups[g].position
  {
    hide Encode, Target;
    SiteOf(bytes, placed, fixups, sites, f);
    SiteOf(bytes, placed, fixups, sites, g);
    PlacedInOrder(bytes, placed, sites[f], sites[g]);
  }

  lemma ReachIs(p: Placed, f: Fixup, labels: map<string, nat>, k: nat, placed: seq<Placed>)
    requires SiteMatches(placed, k, f) && p == placed[k] && f.name in labels
    ensures Reach(p, labels) == labels[f.name] - (f.position + 4)
  {
    hide Encode, Target;
  }

  /** Filling one displacement in completes its instruction and disturbs no other. */
  lemma PatchKeeps(before: seq<byte>, after: seq<byte>, placed: seq<Placed>, labels: map<string, nat>,
                   fixups: seq<Fixup>, sites: seq<nat>, n: nat)
    requires Arranged(before, placed) && FixupsMatch(placed, fixups, sites) && n < |fixups| && fixups[n].name in labels
    requires |sites| == |fixups| && SiteMatches(placed, sites[n], fixups[n]) && fixups[n].position + 4 <= |before|
    requires var d := labels[fixups[n].name] - (fixups[n].position + 4);
             InRange(d) && after == Splice(before, fixups[n].position, Signed32(d))
    requires FilledSites(before, placed, labels, sites, n)
    ensures Arranged(after, placed) && FilledSites(after, placed, labels, sites, n + 1)
  {
    hide Encode, Target, FixupsMatch, Signed32;
    var k, pos := sites[n], fixups[n].position;
    forall j | 0 <= j < |placed| ensures Stands(after, placed, j) {
      assert Stands(before, placed, j);
      Elsewhere(before, after, placed, k, j, pos);
    }
    forall f | 0 <= f < n + 1 ensures sites[f] < |placed| && Filled(after, placed[sites[f]], labels) {
      if f < n && sites[f] != k {
        Elsewhere(before, after, placed, k, sites[f], pos);
      } else {
        FilledNow(before, after, placed, labels, k, fixups[n]);
      }
    }
  }

  /** A displacement window is apart from every opcode and every other instruction. */
  lemma Elsewhere(before: seq<byte>, after: seq<byte>, placed: seq<Placed>, k: nat, j: nat, pos: nat)
    requires Arranged(before, placed) && k < |placed| && j < |placed| && pos == placed[k].at + |Encode(placed[k].instr)|
    requires Target(placed[k].instr).Some? && pos + 4 <= |before| == |after|
    requires exists b: seq<byte> :: |b| == 4 && after == Splice(before, pos, b)
    ensures placed[j].at + |Encode(placed[j].instr)| <= placed[j].End() <= |before|
    ensures var o := placed[j].at; var e := o + |Encode(placed[j].instr)|; after[o..e] == before[o..e]
    ensures j != k ==> after[placed[j].at..placed[j].End()] == before[placed[j].at..placed[j].End()]
  {
    hide Encode, Target;
    assert Stands(before, placed, j) && Stands(before, placed, k);
    var b: seq<byte> :| |b| == 4 && after == Splice(before, pos, b);
    var at, end := placed[j].at, placed[j].End();
    var half := at + |Encode(placed[j].instr)|;
    if j < k {
      PlacedInOrder(before, placed, j, k);
      SpliceFrame(before, pos, b, at, end);
    } else if k < j {
      PlacedInOrder(before, placed, k, j);
      SpliceFrame(before, pos, b, at, end);
    }
    SpliceFrame(before, pos, b, at, half);
  }

  lemma FilledNow(before: seq<byte>, after: seq<byte>, placed: seq<Placed>, labels: map<string, nat>, k: nat, f: Fixup)
    requires Arranged(before, placed) && SiteMatches(placed, k, f) && f.name in labels && f.position + 4 <= |before|
    requires var d := labels[f.name] - (f.position + 4); InRange(d) && after == Splice(before, f.position, Signed32(d))
    ensures Filled(after, placed[k], labels)
  {
    hide Encode, Target, Signed32;
    assert Stands(before, placed, k);
    var p := placed[k];
    ReachIs(p, f, labels, k, placed);
    var d := labels[f.name] - (f.position + 4);
    assert after[p.at..p.End()] == before[p.at..f.position] + Signed32(d);
  }

  lemma WindowGrows(bytes: seq<byte>, before: seq<byte>, after: seq<byte>, fixups: seq<Fixup>, n: nat, b: seq<byte>)
    requires OutsideSame(bytes, before, fixups, n) && n < |fixups| && |b| == 4 && fixups[n].position + 4 <= |before|
    requires after == Splice(before, fixups[n].position, b)
    ensures OutsideSame(bytes, after, fixups, n + 1)
  {
    forall p | 0 <= p < |bytes| && !InWindow(fixups, n + 1, p) ensures after[p] == bytes[p] {
      SpliceAt(before, fixups[n].position, b, p);
    }
  }

  lemma AllFilled(out: seq<byte>, placed: seq<Placed>, labels: map<string, nat>, fixups: seq<Fixup>, sites: seq<nat>)
    requires Arranged(out, placed) && FixupsMatch(placed, fixups, sites)
    requires FilledSites(out, placed, labels, sites, |fixups|)
    ensures forall k :: 0 <= k < |placed| ==> Filled(out, placed[k], labels)
  {
    hide Encode, Signed32;
    forall k | 0 <= k < |placed| ensures Filled(out, placed[k], labels) {
      if Target(placed[k].instr).Some? {
        var f :| 0 <= f < |sites| && sites[f] == k;
        assert Filled(out, placed[sites[f]], labels);
      } else {
        assert Stands(out, placed, k);
      }
    }
  }

  /** What an assembled array does: every instruction decodes, at its place, to the operation it
      was emitted for, and a displacement leads from its end exactly to its label. */
  lemma FilledDecodes(out: seq<byte>, p: Placed, labels: map<string, nat>)
    requires Filled(out, p, labels)
    ensures p.at <= |out| && Decode(out[p.at..]) == Some(Decoded(Meaning(p.instr, Reach(p, labels)), p.Size()))
    ensures Target(p.instr).Some? && Target(p.instr).value in labels ==>
              p.at + p.Size() + Reach(p, labels) == labels[Target(p.instr).value]
  {
    hide Encode, Target, Decode, Signed32, Meaning;
    var d := Reach(p, labels);
    var e, s := Finished(p.instr, d), out[p.at..];
    forall k | 0 <= k < |e| ensures ByteAt(s, 0 + k) == e[k] {
      assert e[k] == out[p.at..p.End()][k];
    }
    EncodingDecodes(p.instr, d, s);
  }
}
