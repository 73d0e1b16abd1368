/** The 16-bit label and fixup assembler (Assembler16 in Program.cs). Each emitting method of
    the program is one constructor of Instr. */
module Assembler16 {
  import opened Bytes
  import opened Splices

  type Reg16 = r: nat | r < 8
  type Reg8 = r: nat | r < 8
  type SegmentReg = s: nat | s < 4
  type Word = w: nat | w < 65536

  const AX: Reg16 := 0
  const CX: Reg16 := 1
  const DX: Reg16 := 2
  const BX: Reg16 := 3
  const SP: Reg16 := 4
  const SI: Reg16 := 6
  const DI: Reg16 := 7
  const AL: Reg8 := 0
  const CL: Reg8 := 1
  const DL: Reg8 := 2
  const AH: Reg8 := 4
  const CH: Reg8 := 5
  const DH: Reg8 := 6
  const ES: SegmentReg := 0
  const CS: SegmentReg := 1
  const SS: SegmentReg := 2
  const DS: SegmentReg := 3

  datatype FixupKind = Absolute16 | Relative8 | Relative16
  {
    function Width(): nat { if Relative8? then 1 else 2 }
  }

  datatype Instr =
    | MarkLabel(name: string)
    | Db(data: seq<byte>)
    | PadToSize(size: nat)
    | Cli | Sti | Cld | Hlt | Ret | Lodsb | RepMovsw | OutDxAl
    | Int(interrupt: byte)
    | PushReg(reg: Reg16)
    | PopReg(reg: Reg16)
    | IncReg(reg: Reg16)
    | MovRegImm16(reg: Reg16, value: Word)
    | MovRegImm16Label(reg: Reg16, target: string)
    | MovRegImm8(reg8: Reg8, imm: byte)
    | MovSegmentFromReg(segment: SegmentReg, reg: Reg16)
    | MovMem8AbsoluteFromReg8(target: string, reg8: Reg8)
    | MovReg8FromMem8Absolute(reg8: Reg8, target: string)
    | MovReg8FromSiOffset(reg8: Reg8, offset: byte)
    | XorRegWithSelf(reg: Reg16)
    | TestReg8WithSelf(reg8: Reg8)
    | AddRegImm16(reg: Reg16, value: Word)
    | JmpFar(farSegment: Word, farOffset: Word)
    | CallNear(target: string)
    | JmpShort(target: string)
    | JzShort(target: string)
    | JcShort(target: string)
    | LoopShort(target: string)

  /** The bytes emitted at once; the operand named by a label, if any, follows them. */
  function Opcode(i: Instr, at: nat): seq<byte> {
    match i
    case MarkLabel(_) => []
    case Db(data) => data
    case PadToSize(size) => if at < size then Zeros(size - at) else []
    case Cli => [0xFA]
    case Sti => [0xFB]
    case Cld => [0xFC]
    case Hlt => [0xF4]
    case Ret => [0xC3]
    case Lodsb => [0xAC]
    case RepMovsw => [0xF3, 0xA5]
    case OutDxAl => [0xEE]
    case Int(n) => [0xCD, n]
    case PushReg(r) => [0x50 + r]
    case PopReg(r) => [0x58 + r]
    case IncReg(r) => [0x40 + r]
    case MovRegImm16(r, v) => [0xB8 + r] + Le16(v)
    case MovRegImm16Label(r, _) => [0xB8 + r]
    case MovRegImm8(r, v) => [0xB0 + r, v]
    case MovSegmentFromReg(s, r) => [0x8E, 0xC0 + 8 * s + r]
    case MovMem8AbsoluteFromReg8(_, r) => [0x88, 8 * r + 6]
    case MovReg8FromMem8Absolute(r, _) => [0x8A, 8 * r + 6]
    case MovReg8FromSiOffset(r, offset) => if offset == 0 then [0x8A, 8 * r + 4] else [0x8A, 0x40 + 8 * r + 4, offset]
    case XorRegWithSelf(r) => [0x31, 0xC0 + 8 * r + r]
    case TestReg8WithSelf(r) => [0x84, 0xC0 + 8 * r + r]
    case AddRegImm16(r, v) => [0x81, 0xC0 + r] + Le16(v)
    case JmpFar(segment, offset) => [0xEA] + Le16(offset) + Le16(segment)
    case CallNear(_) => [0xE8]
    case JmpShort(_) => [0xEB]
    case JzShort(_) => [0x74]
    case JcShort(_) => [0x72]
    case LoopShort(_) => [0xE2]
  }

  datatype Reference = Reference(kind: FixupKind, name: string)

  function Operand(i: Instr): Option<Reference> {
    match i
    case MovRegImm16Label(_, target) => Some(Reference(Absolute16, target))
    case MovMem8AbsoluteFromReg8(target, _) => Some(Reference(Absolute16, target))
    case MovReg8FromMem8Absolute(_, target) => Some(Reference(Absolute16, target))
    case CallNear(target) => Some(Reference(Relative16, target))
    case JmpShort(target) => Some(Reference(Relative8, target))
    case JzShort(target) => Some(Reference(Relative8, target))
    case JcShort(target) => Some(Reference(Relative8, target))
    case LoopShort(target) => Some(Reference(Relative8, target))
    case _ => None
  }

  function Width(i: Instr, at: nat): nat {
    |Opcode(i, at)| + (if Operand(i).Some? then Operand(i).value.kind.Width() else 0)
  }

  // ---- what a program should assemble to: two passes, no patching ----

  /** First pass: where item `k` starts. */
  function Offset(program: seq<Instr>, k: nat): nat
    requires k <= |program|
  {
    if k == 0 then 0 else Offset(program, k - 1) + Width(program[k - 1], Offset(program, k - 1))
  }

  /** Addresses of the labels among the first `k` items; a later mark replaces an earlier one. */
  function Labels(program: seq<Instr>, origin: nat, k: nat): map<string, nat>
    requires k <= |program|
  {
    if k == 0 then map[] else
      var before := Labels(program, origin, k - 1);
      if program[k - 1].MarkLabel? then before[program[k - 1].name := origin + Offset(program, k - 1)] else before
  }

  /** Distance from the end of a `width`-byte operand at `position` to `target`. */
  function Displacement(target: nat, position: nat, width: nat, origin: nat): int {
    target - (position + width + origin)
  }

  predicate InReach(kind: FixupKind, displacement: int) {
    match kind
    case Absolute16 => true
    case Relative8 => -128 <= displacement <= 127
    case Relative16 => -32768 <= displacement <= 32767
  }

  function OperandBytes(kind: FixupKind, target: nat, displacement: int): (r: seq<byte>)
    ensures |r| == kind.Width()
  {
    match kind
    case Absolute16 => Le16(target)
    case Relative8 => [displacement % 256]
    case Relative16 => Le16(displacement % 65536)
  }

  predicate ResolvableTo(kind: FixupKind, target: nat, position: nat, origin: nat) {
    InReach(kind, Displacement(target, position, kind.Width(), origin))
  }

  /** Item `k` names a label that exists and is near enough, or no label at all. */
  predicate Resolvable(program: seq<Instr>, origin: nat, k: nat)
    requires k < |program|
  {
    match Operand(program[k])
    case None => true
    case Some(ref) =>
      var labels := Labels(program, origin, |program|);
      ref.name in labels && ResolvableTo(ref.kind, labels[ref.name], OperandPosition(program, k), origin)
  }

  function OperandPosition(program: seq<Instr>, k: nat): nat
    requires k < |program|
  {
    Offset(program, k) + |Opcode(program[k], Offset(program, k))|
  }

  /** Second pass: the bytes of item `k` with its operand filled in. */
  function Resolved(program: seq<Instr>, origin: nat, k: nat): (r: seq<byte>)
    requires k < |program| && Resolvable(program, origin, k)
    ensures |r| == Width(program[k], Offset(program, k))
  {
    var opcode := Opcode(program[k], Offset(program, k));
    match Operand(program[k])
    case None => opcode
    case Some(ref) =>
      var target := Labels(program, origin, |program|)[ref.name];
      opcode + OperandBytes(ref.kind, target,
                            Displacement(target, OperandPosition(program, k), ref.kind.Width(), origin))
  }

  ghost predicate AllResolvable(program: seq<Instr>, origin: nat) {
    forall k :: 0 <= k < |program| ==> Resolvable(program, origin, k)
  }

  /** `code` is the program, item after item, every operand resolved. */
  ghost predicate Linked(code: seq<byte>, program: seq<Instr>, origin: nat) {
    |code| == Offset(program, |program|) && AllResolvable(program, origin)
    && forall k :: 0 <= k < |program| ==> Holds(code, program, k, Resolved(program, origin, k))
  }

  ghost predicate Holds(code: seq<byte>, program: seq<Instr>, k: nat, b: seq<byte>)
    requires k < |program|
  {
    Offset(program, k) + |b| <= |code| && code[Offset(program, k)..Offset(program, k) + |b|] == b
  }

  lemma {:induction false} OffsetMonotone(program: seq<Instr>, i: nat, j: nat)
    requires i <= j <= |program|
    ensures Offset(program, i) <= Offset(program, j)
    ensures i < j ==> Offset(program, i) + Width(program[i], Offset(program, i)) <= Offset(program, j)
  {
    hide Opcode, Operand;
    if i < j { OffsetMonotone(program, i, j - 1); }
  }

  /** An item does not move when more is emitted after it. */
  lemma {:induction false} PrefixSame(program: seq<Instr>, more: seq<Instr>, origin: nat, k: nat)
    requires k <= |program|
    ensures Offset(program + more, k) == Offset(program, k)
    ensures Labels(program + more, origin, k) == Labels(program, origin, k)
  {
    hide Opcode, Operand;
    if k > 0 {
      PrefixSame(program, more, origin, k - 1);
      assert (program + more)[k - 1] == program[k - 1];
    }
  }

  /** The byte at position `p` belongs to some item. */
  lemma {:induction false} ItemOf(program: seq<Instr>, n: nat, p: nat) returns (k: nat)
    requires n <= |program| && p < Offset(program, n)
    ensures k < n && Offset(program, k) <= p < Offset(program, k) + Width(program[k], Offset(program, k))
  {
    hide Opcode, Operand;
    if Offset(program, n - 1) <= p {
      k := n - 1;
    } else {
      k := ItemOf(program, n - 1, p);
    }
  }

  /** There is only one linked image of a program, so assembling twice gives the same bytes. */
  lemma LinkedUnique(a: seq<byte>, b: seq<byte>, program: seq<Instr>, origin: nat)
    requires Linked(a, program, origin) && Linked(b, program, origin)
    ensures a == b
  {
    hide Opcode, Operand, Offset, Resolvable, Labels;
    forall p | 0 <= p < |a| ensures a[p] == b[p] {
      var k := ItemOf(program, |program|, p);
      var o, r := Offset(program, k), Resolved(program, origin, k);
      assert Holds(a, program, k, r) && Holds(b, program, k, r);
      assert a[p] == a[o..o + |r|][p - o] && b[p] == b[o..o + |r|][p - o];
    }
  }

  /** Reading a resolved operand back: the label's address, or the signed distance to it. */
  lemma OperandDecodes(kind: FixupKind, target: nat, displacement: int)
    requires InReach(kind, displacement)
    ensures var b := OperandBytes(kind, target, displacement);
            match kind
            case Absolute16 => Read16(b, 0) == target % 65536
            case Relative8 => SignedByte(b[0]) == displacement
            case Relative16 => SignedWord(Read16(b, 0)) == displacement
  {
    HalfSplits(target);
    HalfSplits(displacement % 65536);
    TwosComplement(displacement);
    hide InReach, FixupKind.Width;
  }

  lemma TwosComplement(d: int)
    ensures -128 <= d <= 127 ==> SignedByte(d % 256) == d
    ensures -32768 <= d <= 32767 ==> SignedWord(d % 65536) == d
  {
  }

  function SignedWord(w: nat): int {
    if w >= 32768 then w - 65536 else w
  }

  // ---- the assembler ----

  datatype Fixup = Fixup(position: nat, name: string, kind: FixupKind)

  datatype AssembleError = UnknownLabel(name: string) | OutOfRange(name: string) | UnexpectedLength(actual: nat)

  class Assembler {
    const origin: nat
    var bytes: seq<byte>
    var labels: map<string, nat>
    var fixups: seq<Fixup>
    /** Everything emitted so far, and for each fixup the item it belongs to. */
    ghost var program: seq<Instr>
    ghost var sites: seq<nat>

    ghost predicate Valid()
      reads this
    {
      WellPlaced(bytes, program) && labels == Labels(program, origin, |program|) && FixupsMatch(program, fixups, sites)
    }

    constructor (origin: nat)
      ensures Valid() && program == [] && this.origin == origin
    {
      this.origin := origin;
      bytes, labels, fixups := [], map[], [];
      program, sites := [], [];
    }

    /** One emitting call: bytes now, a blank operand and a fixup when it names a label. */
    method Emit(i: Instr)
      requires Valid()
      modifies this
      ensures Valid() && program == old(program) + [i]
    {
      hide Opcode, Operand, Offset, Labels, WellPlaced, FixupsMatch;
      EmitFacts(program, i, origin);
      EmitPlaced(bytes, program, i);
      EmitSites(program, fixups, sites, i);
      ghost var n := |program|;
      if i.MarkLabel? {
        labels := labels[i.name := origin + |bytes|];
      }
      bytes := bytes + Opcode(i, |bytes|);
      var ref := Operand(i);
      if ref.Some? {
        fixups := fixups + [Fixup(|bytes|, ref.value.name, ref.value.kind)];
        bytes := bytes + Zeros(ref.value.kind.Width());
        sites := sites + [n];
      }
      program := program + [i];
    }

    /** Patches every fixup in place. It succeeds exactly when every label exists, every
        relative one is in range and the length is as expected; then the bytes are the linked
        program. */
    method ToArray(expectedLength: Option<nat>) returns (r: Result<seq<byte>, AssembleError>)
      requires Valid()
      modifies this
      ensures Valid() && program == old(program)
      ensures r.Ok? <==>
                AllResolvable(program, origin)
                && (expectedLength.Some? ==> expectedLength.value == Offset(program, |program|))
      ensures r.Ok? ==> Linked(r.value, program, origin) && bytes == r.value
      ensures r.Err? && r.error.UnknownLabel? ==> r.error.name !in Labels(program, origin, |program|)
      ensures r.Err? && r.error.UnexpectedLength? ==> AllResolvable(program, origin)
    {
      hide Opcode, Operand, Offset, Labels, WellPlaced, FixupsMatch, Patched, Resolvable, InReach, OperandBytes,
           AllResolvable, Linked;
      var n := 0;
      while n < |fixups|
        invariant 0 <= n <= |fixups| && Valid()
        invariant program == old(program) && fixups == old(fixups) && sites == old(sites) && labels == old(labels)
        invariant forall f :: 0 <= f < n ==> Patched(bytes, program, origin, sites[f])
      {
        var fixup := fixups[n];
        ghost var k := sites[n];
        FixupSite(program, fixups, sites, n);
        ResolvableWhen(program, origin, k, fixup);
        if fixup.name !in labels {
          return Err(UnknownLabel(fixup.name));
        }
        var target := labels[fixup.name];
        var displacement := Displacement(target, fixup.position, fixup.kind.Width(), origin);
        if !InReach(fixup.kind, displacement) {
          return Err(OutOfRange(fixup.name));
        }
        ghost var before := bytes;
        OperandInside(program, k);
        PlacedLength(bytes, program);
        bytes := bytes[..fixup.position] + OperandBytes(fixup.kind, target, displacement)
          + bytes[fixup.position + fixup.kind.Width()..];
        PatchKeeps(before, bytes, program, origin, k);
        n := n + 1;
      }
      AllPatched(bytes, program, origin, fixups, sites);
      if expectedLength.Some? && expectedLength.value != |bytes| {
        return Err(UnexpectedLength(|bytes|));
      }
      return Ok(bytes);
    }
  }

  /** Opcodes are in place; operands may be blank or patched. */
  ghost predicate WellPlaced(bytes: seq<byte>, program: seq<Instr>) {
    |bytes| == Offset(program, |program|)
    && forall k :: 0 <= k < |program| ==> Holds(bytes, program, k, Opcode(program[k], Offset(program, k)))
  }

  /** One fixup per item with an operand, in the order of emission. */
  ghost predicate FixupsMatch(program: seq<Instr>, fixups: seq<Fixup>, sites: seq<nat>)
    ensures FixupsMatch(program, fixups, sites) ==> |sites| == |fixups|
  {
    && |sites| == |fixups|
    && (forall f :: 0 <= f < |sites| ==> SiteMatches(program, sites[f], fixups[f]))
    && (forall k :: 0 <= k < |program| && Operand(program[k]).Some? ==> k in sites)
  }

  lemma PlacedLength(bytes: seq<byte>, program: seq<Instr>)
    requires WellPlaced(bytes, program)
    ensures |bytes| == Offset(program, |program|)
  {
  }

  lemma FixupSite(program: seq<Instr>, fixups: seq<Fixup>, sites: seq<nat>, n: nat)
    requires FixupsMatch(program, fixups, sites) && n < |fixups|
    ensures |sites| == |fixups| && SiteMatches(program, sites[n], fixups[n])
  {
  }

  lemma ResolvableWhen(program: seq<Instr>, origin: nat, k: nat, fixup: Fixup)
    requires SiteMatches(program, k, fixup)
    ensures var labels := Labels(program, origin, |program|);
            var fits := fixup.name in labels
              && InReach(fixup.kind, Displacement(labels[fixup.name], fixup.position, fixup.kind.Width(), origin));
            Resolvable(program, origin, k) == fits && (AllResolvable(program, origin) ==> fits)
  {
    hide Opcode, Operand, Offset, Labels, InReach;
    assert AllResolvable(program, origin) ==> Resolvable(program, origin, k);
  }

  lemma HoldsExtended(bytes: seq<byte>, more: seq<byte>, program: seq<Instr>, i: Instr, k: nat, b: seq<byte>)
    requires k < |program| && Holds(bytes, program, k, b)
    ensures Holds(bytes + more, program + [i], k, b)
  {
    hide Opcode, Operand, Offset;
    PrefixSame(program, [i], 0, k);
  }

  lemma EmitPlaced(bytes: seq<byte>, program: seq<Instr>, i: Instr)
    requires WellPlaced(bytes, program)
    ensures |bytes| == Offset(program, |program|)
    ensures var more := if Operand(i).Some? then Zeros(Operand(i).value.kind.Width()) else [];
            WellPlaced(bytes + Opcode(i, |bytes|) + more, program + [i])
    ensures Operand(i).None? ==> WellPlaced(bytes + Opcode(i, |bytes|), program + [i])
  {
    hide Opcode, Operand, Offset, Holds;
    var n := |program|;
    var opcode := Opcode(i, |bytes|);
    var more := if Operand(i).Some? then Zeros(Operand(i).value.kind.Width()) else [];
    EmitLast(bytes, program, i, more);
    forall k | 0 <= k < n + 1
      ensures Holds(bytes + (opcode + more), program + [i], k, Opcode((program + [i])[k], Offset(program + [i], k)))
    {
      if k < n {
        PrefixSame(program, [i], 0, k);
        assert Holds(bytes, program, k, Opcode(program[k], Offset(program, k)));
        HoldsExtended(bytes, opcode + more, program, i, k, Opcode(program[k], Offset(program, k)));
      }
    }
    assert bytes + opcode + more == bytes + (opcode + more);
    if Operand(i).None? { assert bytes + opcode == bytes + (opcode + more); }
  }

  lemma EmitLast(bytes: seq<byte>, program: seq<Instr>, i: Instr, more: seq<byte>)
    requires |bytes| == Offset(program, |program|)
    requires |more| == if Operand(i).Some? then Operand(i).value.kind.Width() else 0
    ensures Holds(bytes + (Opcode(i, |bytes|) + more), program + [i], |program|,
                  Opcode(i, Offset(program + [i], |program|)))
    ensures |bytes + (Opcode(i, |bytes|) + more)| == Offset(program + [i], |program| + 1)
  {
    hide Opcode, Operand, Offset;
    EmitFacts(program, i, 0);
  }

  lemma EmitSites(program: seq<Instr>, fixups: seq<Fixup>, sites: seq<nat>, i: Instr)
    requires FixupsMatch(program, fixups, sites)
    ensures var at := Offset(program, |program|); var ref := Operand(i);
            if ref.None? then FixupsMatch(program + [i], fixups, sites)
            else FixupsMatch(program + [i], fixups + [Fixup(at + |Opcode(i, at)|, ref.value.name, ref.value.kind)],
                             sites + [|program|])
  {
    hide Opcode, Operand, Offset;
    forall k | 0 <= k <= |program| ensures Offset(program + [i], k) == Offset(program, k) {
      PrefixSame(program, [i], 0, k);
    }
    forall f | 0 <= f < |sites| ensures SiteMatches(program + [i], sites[f], fixups[f]) {
      assert SiteMatches(program, sites[f], fixups[f]);
    }
  }

  lemma AllPatched(bytes: seq<byte>, program: seq<Instr>, origin: nat, fixups: seq<Fixup>, sites: seq<nat>)
    requires WellPlaced(bytes, program) && FixupsMatch(program, fixups, sites)
    requires forall f :: 0 <= f < |sites| ==> Patched(bytes, program, origin, sites[f])
    ensures Linked(bytes, program, origin) && AllResolvable(program, origin) && |bytes| == Offset(program, |program|)
  {
    hide Opcode, Operand, Offset;
    forall k | 0 <= k < |program|
      ensures Resolvable(program, origin, k) && Holds(bytes, program, k, Resolved(program, origin, k))
    {
      if Operand(program[k]).Some? {
        var f :| 0 <= f < |sites| && sites[f] == k;
        assert Patched(bytes, program, origin, sites[f]);
      } else {
        assert Holds(bytes, program, k, Opcode(program[k], Offset(program, k)));
      }
    }
  }

  ghost predicate SiteMatches(program: seq<Instr>, k: nat, fixup: Fixup) {
    k < |program| && Operand(program[k]) == Some(Reference(fixup.kind, fixup.name))
      && fixup.position == OperandPosition(program, k)
  }

  ghost predicate Patched(bytes: seq<byte>, program: seq<Instr>, origin: nat, k: nat) {
    k < |program| && Resolvable(program, origin, k) && Holds(bytes, program, k, Resolved(program, origin, k))
  }

  lemma EmitFacts(program: seq<Instr>, i: Instr, origin: nat)
    ensures var p, n := program + [i], |program|;
            Offset(p, n + 1) == Offset(program, n) + Width(i, Offset(program, n)) && Offset(p, n) == Offset(program, n)
            && Labels(p, origin, n + 1) == (if i.MarkLabel?
                                            then Labels(program, origin, n)[i.name := origin + Offset(program, n)]
                                            else Labels(program, origin, n))
  {
    hide Opcode, Operand;
    PrefixSame(program, [i], origin, |program|);
  }

  lemma OperandInside(program: seq<Instr>, k: nat)
    requires k < |program| && Operand(program[k]).Some?
    ensures OperandPosition(program, k) + Operand(program[k]).value.kind.Width() <= Offset(program, |program|)
  {
    hide Opcode, Operand, Offset;
    OffsetMonotone(program, k, |program|);
  }

  /** Filling in one operand resolves its item and disturbs no other. */
  lemma PatchKeeps(before: seq<byte>, after: seq<byte>, program: seq<Instr>, origin: nat, k: nat)
    requires k < |program| && Operand(program[k]).Some? && Resolvable(program, origin, k)
    requires WellPlaced(before, program)
    requires var ref := Operand(program[k]).value;
             var target := Labels(program, origin, |program|)[ref.name];
             var at, w := OperandPosition(program, k), ref.kind.Width();
             at + w <= |before| &&
             after == before[..at] + OperandBytes(ref.kind, target, Displacement(target, at, w, origin))
               + before[at + w..]
    ensures WellPlaced(after, program) && Patched(after, program, origin, k)
    ensures forall j: nat :: j != k && Patched(before, program, origin, j) ==> Patched(after, program, origin, j)
  {
    hide Opcode, Operand, Offset, Labels, OperandBytes, Holds;
    var at, w := OperandPosition(program, k), Operand(program[k]).value.kind.Width();
    forall j: nat, b: seq<byte> | j < |program| && Holds(before, program, j, b)
      && (j == k ==> b == Opcode(program[k], Offset(program, k)))
                                   && |b| <= Width(program[j], Offset(program, j))
      ensures Holds(after, program, j, b)
    {
      HeldElsewhere(before, after, program, j, k, b);
    }
    OperandFilled(before, after, program, origin, k);
  }

  /** Filling the operand of item `k` leaves other items and the opcode of `k` alone. */
  lemma HeldElsewhere(before: seq<byte>, after: seq<byte>, program: seq<Instr>, j: nat, k: nat, b: seq<byte>)
    requires j < |program| && k < |program| && Operand(program[k]).Some?
    requires var at, w := OperandPosition(program, k), Operand(program[k]).value.kind.Width();
             at + w <= |before| && |after| == |before| && after[..at] == before[..at]
               && after[at + w..] == before[at + w..]
    requires Holds(before, program, j, b) && |b| <= Width(program[j], Offset(program, j))
    requires j == k ==> b == Opcode(program[k], Offset(program, k))
    ensures Holds(after, program, j, b)
  {
    hide Opcode, Operand, Offset;
    var at, w, o := OperandPosition(program, k), Operand(program[k]).value.kind.Width(), Offset(program, j);
    if j < k { OffsetMonotone(program, j, k); }
    if k < j { OffsetMonotone(program, k, j); }
    if j <= k {
      PrefixesAgree(after, before, at, o, o + |b|);
    } else {
      SuffixesAgree(after, before, at + w, o, o + |b|);
    }
  }

  lemma OperandFilled(before: seq<byte>, after: seq<byte>, program: seq<Instr>, origin: nat, k: nat)
    requires k < |program| && Operand(program[k]).Some? && Resolvable(program, origin, k)
    requires Holds(after, program, k, Opcode(program[k], Offset(program, k)))
    requires var ref := Operand(program[k]).value;
             var target := Labels(program, origin, |program|)[ref.name];
             var at, w := OperandPosition(program, k), ref.kind.Width();
             at + w <= |before| &&
             after == before[..at] + OperandBytes(ref.kind, target, Displacement(target, at, w, origin))
               + before[at + w..]
    ensures Patched(after, program, origin, k)
  {
    hide Opcode, Operand, Offset, Labels, OperandBytes;
    var at, w := OperandPosition(program, k), Operand(program[k]).value.kind.Width();
    assert Resolved(program, origin, k) == Opcode(program[k], Offset(program, k)) + after[at..at + w];
  }

  /** Emits a whole program and assembles it. */
  method Assemble(origin: nat, program: seq<Instr>, expectedLength: Option<nat>)
    returns (r: Result<seq<byte>, AssembleError>)
    ensures r.Ok? <==>
              AllResolvable(program, origin)
              && (expectedLength.Some? ==> expectedLength.value == Offset(program, |program|))
    ensures r.Ok? ==> Linked(r.value, program, origin)
  {
    hide Opcode, Operand, Offset, Labels, Assembler.Valid, AllResolvable, Linked;
    var asm := new Assembler(origin);
    var n := 0;
    while n < |program|
      invariant 0 <= n <= |program| && asm.Valid() && asm.program == program[..n]
    {
      asm.Emit(program[n]);
      n := n + 1;
    }
    assert program[..n] == program;
    r := asm.ToArray(expectedLength);
  }
}
