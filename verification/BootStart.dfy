/** The machine from reset to the image in memory: what both stages do first, stage 1's read of
    stage 2, and the hand-over to the loop. */
module BootStart {
  import opened Bytes
  import opened Splices
  import opened Assembler16
  import opened BootMachine
  import opened BootChain
  import opened BootRun

  /** At item `k` of a loaded, linked program. */
  ghost predicate InProgram(m: Machine, g: Image, k: nat)
    ensures InProgram(m, g, k) ==> m.Valid() && k <= |g.items|
  {
    k <= |g.items| && At(m, g.items, g.origin, k) && (PastClear(g, k) ==> !m.down)
    && Linked(g.code, g.items, g.origin) && CodeLoaded(m, g.code, g.origin, g.hole, g.v)
  }

  /** Both stages clear the direction flag with their eighth item. */
  ghost predicate PastClear(g: Image, k: nat) {
    7 < k <= |g.items| && g.items[7] == Cld
  }

  /** Instructions that change registers and the data segments only. */
  predicate Quiet(op: Op) {
    op.Nop? || op.ClearDirection? || op.XorSelf? || (op.MovSeg? && op.s != CS) || op.MovImm16? || op.MovImm8?
    || op.Load8? || op.Test8? || op.LoadString8?
  }

  lemma QuietKeeps(m: Machine, op: Op)
    requires m.Valid() && Quiet(op)
    ensures Effect(m, op).Some? && Effect(m, op).value.mem == m.mem && Effect(m, op).value.segs[CS] == m.segs[CS]
    ensures Effect(m, op).value.down == (m.down && !op.ClearDirection?)
  {
  }

  lemma ClearMeans(target: nat, d: int)
    ensures Meaning(Cld, target, d) == Some(ClearDirection)
  {
  }

  /** `n` is `m` after the instruction, apart from where it goes on. */
  ghost predicate Did(m: Machine, op: Op, n: Machine) {
    m.Valid() && Straight(op) && Effect(m, op).Some? && n == Effect(m, op).value.(ip := n.ip)
  }

  /** One quiet instruction: its effect, and on to the next item. */
  lemma Walk(a: Machine, m: Machine, c: nat, g: Image, k: nat, op: Op, target: nat, d: int) returns (n: Machine)
    requires InProgram(m, g, k) && k < |g.items| && Offset(g.items, k + 1) <= g.hole && a.Valid() && Reaches(a, m, c)
    requires Meaning(g.items[k], target, d) == Some(op) && Names(g.items, g.origin, k, target, d) && Quiet(op)
    ensures Did(m, op, n) && Reaches(a, n, c + 1) && InProgram(n, g, k + 1)
  {
    hide Meaning, Linked, CodeLoaded, Offset, Step, Names, Reaches, Effect;
    QuietKeeps(m, op);
    ClearMeans(target, d);
    n := Do(m, g, k, op, target, d);
    Then(a, m, n, c);
    SameMemory(m, n, g);
  }

  /** Nothing but registers differs. */
  ghost predicate SameStore(m: Machine, n: Machine) {
    n.mem == m.mem && n.disk == m.disk && n.board == m.board
  }

  lemma WalkNop(a: Machine, m: Machine, c: nat, g: Image, k: nat) returns (n: Machine)
    requires InProgram(m, g, k) && k < |g.items| && Offset(g.items, k + 1) <= g.hole && a.Valid() && Reaches(a, m, c)
    requires Meaning(g.items[k], 0, 0) == Some(Nop) && Names(g.items, g.origin, k, 0, 0)
    ensures Reaches(a, n, c + 1) && InProgram(n, g, k + 1) && SameStore(m, n) && n.regs == m.regs && n.segs == m.segs
  {
    hide Meaning, Offset, Names, Reaches, InProgram;
    n := Walk(a, m, c, g, k, Nop, 0, 0);
  }

  lemma WalkClear(a: Machine, m: Machine, c: nat, g: Image, k: nat) returns (n: Machine)
    requires InProgram(m, g, k) && k < |g.items| && Offset(g.items, k + 1) <= g.hole && a.Valid() && Reaches(a, m, c)
    requires Meaning(g.items[k], 0, 0) == Some(ClearDirection) && Names(g.items, g.origin, k, 0, 0)
    ensures Reaches(a, n, c + 1) && InProgram(n, g, k + 1) && SameStore(m, n) && n.regs == m.regs && n.segs == m.segs
  {
    hide Meaning, Offset, Names, Reaches, InProgram;
    n := Walk(a, m, c, g, k, ClearDirection, 0, 0);
  }

  lemma WalkZero(a: Machine, m: Machine, c: nat, g: Image, k: nat, r: Reg16) returns (n: Machine)
    requires InProgram(m, g, k) && k < |g.items| && Offset(g.items, k + 1) <= g.hole && a.Valid() && Reaches(a, m, c)
    requires Meaning(g.items[k], 0, 0) == Some(XorSelf(r)) && Names(g.items, g.origin, k, 0, 0)
    ensures Reaches(a, n, c + 1) && InProgram(n, g, k + 1) && SameStore(m, n) && n.regs == m.regs[r := 0]
    ensures n.segs == m.segs
  {
    hide Meaning, Offset, Names, Reaches, InProgram;
    n := Walk(a, m, c, g, k, XorSelf(r), 0, 0);
  }

  lemma WalkSegment(a: Machine, m: Machine, c: nat, g: Image, k: nat, s: SegmentReg, r: Reg16) returns (n: Machine)
    requires InProgram(m, g, k) && k < |g.items| && Offset(g.items, k + 1) <= g.hole && a.Valid() && Reaches(a, m, c)
    requires Meaning(g.items[k], 0, 0) == Some(MovSeg(s, r)) && Names(g.items, g.origin, k, 0, 0) && s != CS
    ensures Reaches(a, n, c + 1) && InProgram(n, g, k + 1) && SameStore(m, n) && n.regs == m.regs
    ensures n.segs == m.segs[s := m.regs[r]]
  {
    hide Meaning, Offset, Names, Reaches, InProgram;
    n := Walk(a, m, c, g, k, MovSeg(s, r), 0, 0);
  }

  lemma WalkWord(a: Machine, m: Machine, c: nat, g: Image, k: nat, r: Reg16, v: Word, target: nat, d: int)
    returns (n: Machine)
    requires InProgram(m, g, k) && k < |g.items| && Offset(g.items, k + 1) <= g.hole && a.Valid() && Reaches(a, m, c)
    requires Meaning(g.items[k], target, d) == Some(MovImm16(r, v)) && Names(g.items, g.origin, k, target, d)
    ensures Reaches(a, n, c + 1) && InProgram(n, g, k + 1) && SameStore(m, n) && n.regs == m.regs[r := v]
    ensures n.segs == m.segs
  {
    hide Meaning, Offset, Names, Reaches, InProgram;
    n := Walk(a, m, c, g, k, MovImm16(r, v), target, d);
  }

  // ---- the prologue the two stages share ----

  ghost predicate Prologue(p: seq<Instr>, sp: Word)
    ensures Prologue(p, sp) ==> |p| >= 10
  {
    && |p| >= 10 && p[0].MarkLabel? && p[1] == Cli && p[2] == XorRegWithSelf(AX) && p[3] == MovSegmentFromReg(DS, AX)
    && p[4] == MovSegmentFromReg(ES, AX) && p[5] == MovSegmentFromReg(SS, AX) && p[6] == MovRegImm16(SP, sp)
    && p[7] == Cld && p[8] == Sti && p[9] == MovMem8AbsoluteFromReg8("boot_drive", DL)
  }

  lemma PrologueMeanings(p: seq<Instr>, sp: Word, origin: nat)
    requires Prologue(p, sp)
    ensures Meaning(p[1], 0, 0) == Some(Nop) && Meaning(p[2], 0, 0) == Some(XorSelf(AX))
    ensures Meaning(p[3], 0, 0) == Some(MovSeg(DS, AX))
    ensures Meaning(p[4], 0, 0) == Some(MovSeg(ES, AX)) && Meaning(p[5], 0, 0) == Some(MovSeg(SS, AX))
    ensures Meaning(p[6], 0, 0) == Some(MovImm16(SP, sp)) && Meaning(p[7], 0, 0) == Some(ClearDirection)
    ensures Meaning(p[8], 0, 0) == Some(Nop)
    ensures forall k | 1 <= k <= 8 :: Names(p, origin, k, 0, 0)
  {
    hide Meaning, Operand;
    PlainMeanings();
    forall k | 1 <= k <= 8 ensures Names(p, origin, k, 0, 0) {
      NamesNothing(p, origin, k);
    }
  }

  /** A label takes no room. */
  lemma PassLabel(m: Machine, g: Image, k: nat)
    requires InProgram(m, g, k) && k < |g.items| && g.items[k].MarkLabel?
    ensures InProgram(m, g, k + 1)
  {
    hide Linked, CodeLoaded;
    OffsetNext(g.items, k);
  }

  /** Items before `k` end before the byte that changes. */
  ghost predicate CodeBefore(g: Image, k: nat) {
    k <= |g.items| && forall j :: 0 <= j <= k ==> Offset(g.items, j) <= g.hole
  }

  /** `n` is `m` with segments cleared and the stack set up. */
  ghost predicate Cleared(m: Machine, n: Machine, sp: Word) {
    && |m.segs| == 4 && n.segs == m.segs[3 := 0][0 := 0][2 := 0] && |m.regs| == 8 && n.regs == m.regs[0 := 0][4 := sp]
    && n.mem == m.mem && n.disk == m.disk && n.board == m.board
  }

  lemma ClearData(m: Machine, g: Image, sp: Word) returns (n: Machine)
    requires Prologue(g.items, sp) && InProgram(m, g, 0) && CodeBefore(g, 15)
    ensures Reaches(m, n, 4) && InProgram(n, g, 5) && n.segs == m.segs[3 := 0][0 := 0] && n.regs == m.regs[0 := 0]
    ensures n.mem == m.mem && n.disk == m.disk && n.board == m.board
  {
    PrologueMeanings(g.items, sp, g.origin);
    PassLabel(m, g, 0);
    ReachesHere(m);
    assert m.segs[CS] == 0;
    hide Meaning, InProgram, Offset, Reaches, Prologue, Names;
    n := WalkNop(m, m, 0, g, 1);
    n := WalkZero(m, n, 1, g, 2, AX);
    n := WalkSegment(m, n, 2, g, 3, DS, AX);
    n := WalkSegment(m, n, 3, g, 4, ES, AX);
  }

  lemma ClearSegments(m: Machine, g: Image, sp: Word) returns (n: Machine)
    requires Prologue(g.items, sp) && InProgram(m, g, 0) && CodeBefore(g, 15)
    ensures Reaches(m, n, 8) && InProgram(n, g, 9) && Cleared(m, n, sp)
  {
    PrologueMeanings(g.items, sp, g.origin);
    hide Meaning, InProgram, Offset, Reaches, Prologue, Names;
    n := ClearData(m, g, sp);
    n := WalkSegment(m, n, 4, g, 5, SS, AX);
    n := WalkWord(m, n, 5, g, 6, SP, sp, 0, 0);
    n := WalkClear(m, n, 6, g, 7);
    n := WalkNop(m, n, 7, g, 8);
  }

  /** The prologue: segments cleared, and the boot drive number stored in the program's data. */
  lemma RunPrologue(m: Machine, g: Image, sp: Word) returns (n: Machine)
    requires Prologue(g.items, sp) && InProgram(m, g, 0) && CodeBefore(g, 15) && g.hole < |g.code|
    requires LabelIs(g.items, g.origin, "boot_drive", g.hole)
    ensures Reaches(m, n, 9) && InProgram(n, g.(v := Get8(m, DL)), 10) && Stored(m, n, sp, g.origin + g.hole)
  {
    hide Prologue, LabelIs, Reaches, Offset;
    var c := ClearSegments(m, g, sp);
    assert c.segs == [0, 0, 0, 0];
    n := StoreDrive(m, c, g, sp);
  }

  ghost predicate Stored(m: Machine, n: Machine, sp: Word, at: nat) {
    && n.segs == [0, 0, 0, 0] && |m.regs| == 8 && n.regs == m.regs[0 := 0][4 := sp] && n.disk == m.disk
    && n.board == m.board
    && |n.mem| == |m.mem| && forall a :: 0 <= a < |m.mem| && a != at ==> n.mem[a] == m.mem[a]
  }

  /** The byte at the hole is replaced. */
  lemma HoleWritten(m: Machine, n: Machine, g: Image, v: byte)
    requires CodeLoaded(m, g.code, g.origin, g.hole, g.v) && g.hole < |g.code|
    ensures g.origin + g.hole < 65536
    ensures n.mem == m.mem[g.origin + g.hole := v] ==> CodeLoaded(n, g.code, g.origin, g.hole, v)
  {
  }

  lemma StoreDrive(m: Machine, c: Machine, g: Image, sp: Word) returns (n: Machine)
    requires m.Valid() && Reaches(m, c, 8) && InProgram(c, g, 9) && Cleared(m, c, sp) && c.segs == [0, 0, 0, 0]
    requires Prologue(g.items, sp) && CodeBefore(g, 15) && g.hole < |g.code|
    requires LabelIs(g.items, g.origin, "boot_drive", g.hole)
    ensures Reaches(m, n, 9) && InProgram(n, g.(v := Get8(m, DL)), 10) && Stored(m, n, sp, g.origin + g.hole)
  {
    hide Offset, Labels, Step, Reaches, Linked, CodeLoaded;
    var target := g.origin + g.hole;
    var d := Displacement(target, OperandPosition(g.items, 9), 2, g.origin);
    HoleWritten(c, c, g, 0);
    n := Do(c, g, 9, Store8(target % 65536, DL), target, d);
    HoleWritten(c, n, g, Get8(m, DL));
    Then(m, c, n, 8);
  }

  // ---- stage 2 from its first instruction to its loop ----

  lemma SetupItems(x: Run2)
    requires Setting(x)
    ensures var p := x.g.items; (
      && Prologue(p, 0x7A00) && p[10] == MovRegImm16(AX, ImageBufferSegment) && p[11] == MovSegmentFromReg(ES, AX)
      && p[12] == XorRegWithSelf(BX) && p[13] == MovRegImm16Label(SI, "sector_table")
      && p[14] == MovRegImm16(CX, x.count)
      && p[15].MarkLabel?)
  {
    var n, t, p := x.count, x.table, x.g.items;
    LoopItemsOf(x);
    Stage2Shape(n, t);
    hide Stage2Program, ReadLoop, Stage2Data, Linked, SectorTable;
    assert p[0] == Setup(n)[0] && p[1] == Setup(n)[1] && p[2] == Setup(n)[2] && p[3] == Setup(n)[3]
           && p[4] == Setup(n)[4];
    assert p[5] == Setup(n)[5] && p[6] == Setup(n)[6] && p[7] == Setup(n)[7] && p[8] == Setup(n)[8]
           && p[9] == Setup(n)[9];
    assert p[10] == Setup(n)[10] && p[11] == Setup(n)[11] && p[12] == Setup(n)[12] && p[13] == Setup(n)[13]
           && p[14] == Setup(n)[14];
  }

  lemma SetupMeanings(x: Run2, target: nat, d: int)
    requires Setting(x)
    ensures var p := x.g.items; (
      && Meaning(p[10], 0, 0) == Some(MovImm16(AX, ImageBufferSegment)) && Operand(p[10]).None?
      && Meaning(p[11], 0, 0) == Some(MovSeg(ES, AX)) && Operand(p[11]).None?
      && Meaning(p[12], 0, 0) == Some(XorSelf(BX)) && Operand(p[12]).None?
      && Meaning(p[13], target, d) == Some(MovImm16(SI, target % 65536))
      && Operand(p[13]) == Some(Reference(Absolute16, "sector_table"))
      && Meaning(p[14], 0, 0) == Some(MovImm16(CX, x.count)) && Operand(p[14]).None?)
  {
    SetupItems(x);
    hide Setting, Prologue, Meaning, Operand;
    PlainMeanings();
    LabelledMeanings(target, d);
  }

  lemma HoleAfter(x: Run2)
    requires Setting(x)
    ensures CodeBefore(x.g, 15)
    ensures x.g.hole < |x.g.code| && LabelIs(x.g.items, x.g.origin, "boot_drive", x.g.hole)
    ensures TableAddress(x) < 0xA200
  {
    hide Offset, Labels, Stage2Program, Linked;
    Addresses(x);
    DataLabels(x.count, x.table);
  }

  lemma BeforeHole(g: Image, k: nat)
    requires CodeBefore(g, 15) && k <= 15
    ensures k <= |g.items| && Offset(g.items, k) <= g.hole
  {
  }

  lemma BufferMeanings(g: Image)
    requires |g.items| > 15
    requires g.items[10] == MovRegImm16(AX, ImageBufferSegment) && g.items[11] == MovSegmentFromReg(ES, AX)
    requires g.items[12] == XorRegWithSelf(BX)
    ensures Meaning(g.items[10], 0, 0) == Some(MovImm16(AX, ImageBufferSegment))
    ensures Meaning(g.items[11], 0, 0) == Some(MovSeg(ES, AX))
    ensures Meaning(g.items[12], 0, 0) == Some(XorSelf(BX))
    ensures forall k | 10 <= k <= 12 :: Names(g.items, g.origin, k, 0, 0)
  {
    hide Meaning, Operand;
    PlainMeanings();
  }

  /** ES is the image's segment. */
  lemma PointSegment(m: Machine, g: Image) returns (n: Machine)
    requires InProgram(m, g, 10) && CodeBefore(g, 15) && |g.items| > 15
    requires g.items[10] == MovRegImm16(AX, ImageBufferSegment) && g.items[11] == MovSegmentFromReg(ES, AX)
    requires g.items[12] == XorRegWithSelf(BX)
    ensures Reaches(m, n, 2) && InProgram(n, g, 12) && n.segs == m.segs[0 := ImageBufferSegment]
    ensures n.regs[SP] == m.regs[SP] && SameStore(m, n)
  {
    ReachesHere(m);
    hide InProgram, Offset, Reaches, Names, CodeBefore, Meaning, Operand, Opcode;
    BufferMeanings(g);
    BeforeHole(g, 11);
    BeforeHole(g, 12);
    n := WalkWord(m, m, 0, g, 10, AX, ImageBufferSegment, 0, 0);
    n := WalkSegment(m, n, 1, g, 11, ES, AX);
  }

  /** The buffer registers: ES:BX is the image address. */
  lemma PointBuffer(m: Machine, g: Image) returns (n: Machine)
    requires InProgram(m, g, 10) && CodeBefore(g, 15) && |g.items| > 15
    requires g.items[10] == MovRegImm16(AX, ImageBufferSegment) && g.items[11] == MovSegmentFromReg(ES, AX)
    requires g.items[12] == XorRegWithSelf(BX)
    ensures Reaches(m, n, 3) && InProgram(n, g, 13) && n.segs == m.segs[0 := ImageBufferSegment]
    ensures n.regs[BX] == 0 && n.regs[SP] == m.regs[SP] && n.mem == m.mem && n.disk == m.disk && n.board == m.board
  {
    hide InProgram, Offset, Reaches, Names, CodeBefore, Meaning, Operand, Opcode;
    BufferMeanings(g);
    BeforeHole(g, 13);
    n := PointSegment(m, g);
    n := WalkZero(m, n, 2, g, 12, BX);
  }

  /** The table pointer and the sector count. */
  lemma PointTable(a: Machine, m: Machine, c: nat, x: Run2) returns (n: Machine)
    requires Setting(x) && InProgram(m, x.g, 13) && a.Valid() && Reaches(a, m, c)
    ensures Reaches(a, n, c + 2) && InProgram(n, x.g, 15) && n.segs == m.segs
    ensures n.regs[SI] == TableAddress(x) && n.regs[CX] == x.count && n.regs[BX] == m.regs[BX]
    ensures n.regs[SP] == m.regs[SP]
    ensures n.mem == m.mem && n.disk == m.disk && n.board == m.board
  {
    hide InProgram, Offset, Reaches, Names, CodeBefore, Labels, Setting, Meaning, Operand, Displacement;
    HoleAfter(x);
    SetupMeanings(x, 0, 0);
    var target, d := Named(x, 13);
    SetupMeanings(x, target, d);
    NamesNothing(x.g.items, x.g.origin, 14);
    BeforeHole(x.g, 14);
    BeforeHole(x.g, 15);
    n := WalkWord(a, m, c, x.g, 13, SI, target % 65536, target, d);
    n := WalkWord(a, n, c + 1, x.g, 14, CX, x.count, 0, 0);
  }

  /** Stage 2 from its entry point, with the drive number in DL, to the top of its loop. */
  lemma Stage2Starts(m: Machine, x: Run2, v: byte) returns (n: Machine)
    requires Setting(x) && x.g.v == x.board.drive && InProgram(m, x.g.(v := v), 0)
    requires m.disk == x.disk && m.board == x.board && Get8(m, DL) == x.board.drive
    ensures Reaches(m, n, 14) && InLoop(n, x, 16) && Round(n, x, 0) && n.regs[CX] == x.count
  {
    hide InProgram, Offset, Reaches, Linked, Stage2Program, SectorTable, LabelIs, Prologue, Get8, Setting;
    HoleAfter(x);
    SetupItems(x);
    var c := RunPrologue(m, x.g.(v := v), 0x7A00);
    assert x.g == x.g.(v := v).(v := Get8(m, DL));
    var b := PointBuffer(c, x.g);
    ReachesTransitive(m, c, b, 9, 3);
    n := PointTable(m, b, 12, x);
    PassLabel(n, x.g, 15);
    LoopEntered(n, x);
  }

  lemma ClearsDirection(x: Run2)
    requires Setting(x)
    ensures x.g.items[7] == Cld
  {
    SetupItems(x);
  }

  lemma LoopEntered(n: Machine, x: Run2)
    requires Setting(x) && InProgram(n, x.g, 16) && n.segs == [ImageBufferSegment, 0, 0, 0] && n.disk == x.disk
    requires n.board == x.board
    requires n.regs[SP] == 0x7A00 && n.regs[SI] == TableAddress(x) && n.regs[BX] == 0
    ensures InLoop(n, x, 16) && Round(n, x, 0)
  {
    hide Offset, Linked, Stage2Program, SectorTable, CodeLoaded;
    ClearsDirection(x);
    assert n.mem[ImageAddress..ImageAddress] == x.disk[512 * x.start..512 * x.start];
  }

  // ---- stage 1: read stage 2 and jump to it ----

  /** The fixed facts of a stage 1 run: `sectors` is how much of stage 2 it reads. */
  datatype Run1 = Run1(g: Image, sectors: byte, disk: seq<byte>, board: Board)

  const BootDriveItem1 := 37

  ghost predicate Setting1(x: Run1)
    ensures Setting1(x) ==> |x.g.items| == 43
  {
    && |x.g.items| == 43 && x.g.items == Stage1Program(x.sectors) && x.g.origin == Stage1LoadOffset
    && x.g.hole == Offset(x.g.items, BootDriveItem1) && x.g.v == x.board.drive
    && 1 <= x.sectors <= 17 && |x.disk| == FloppySize && |x.g.code| == 512
    && Linked(x.g.code, x.g.items, x.g.origin)
  }

  lemma Stage1Shape(n: byte)
    ensures |Stage1Program(n)| == 43 && |LoadStage2(n)| == 20 && |Stage1Data()| == 6
    ensures forall k :: 0 <= k < 20 ==> Stage1Program(n)[k] == LoadStage2(n)[k]
    ensures forall k :: 0 <= k < 6 ==> Stage1Program(n)[37 + k] == Stage1Data()[k]
  {
    assert |LoadStage2(n)| == 20 && |Stage1Failure()| == 17 && |Stage1Data()| == 6;
    hide LoadStage2, Stage1Failure, Stage1Data;
  }

  lemma Stage1Items(n: byte)
    ensures var p := Stage1Program(n); (
      && |p| == 43 && Prologue(p, 0x7C00) && p[10] == MovRegImm8(AH, 0x02) && p[11] == MovRegImm8(AL, n)
      && p[12] == MovRegImm16(BX, Stage2LoadOffset) && p[13] == MovRegImm8(CH, 0x00) && p[14] == MovRegImm8(CL, 0x02)
      && p[15] == MovRegImm8(DH, 0x00) && p[16] == MovReg8FromMem8Absolute(DL, "boot_drive") && p[17] == Int(0x13)
      && p[18] == JcShort("disk_error") && p[19] == JmpFar(0x0000, Stage2LoadOffset)
      && p[37] == MarkLabel("boot_drive") && p[38] == Db([0x00]))
  {
    Stage1Shape(n);
    hide Stage1Program, Stage1Failure;
    var p, q := Stage1Program(n), LoadStage2(n);
    assert p[0] == q[0] && p[1] == q[1] && p[2] == q[2] && p[3] == q[3] && p[4] == q[4];
    assert p[5] == q[5] && p[6] == q[6] && p[7] == q[7] && p[8] == q[8] && p[9] == q[9];
    assert p[10] == q[10] && p[11] == q[11] && p[12] == q[12] && p[13] == q[13] && p[14] == q[14];
    assert p[15] == q[15] && p[16] == q[16] && p[17] == q[17] && p[18] == q[18] && p[19] == q[19];
    assert p[37 + 0] == Stage1Data()[0] && p[37 + 1] == Stage1Data()[1];
  }

  lemma DriveLabel1(n: byte)
    ensures |Stage1Program(n)| == 43
    ensures LabelIs(Stage1Program(n), Stage1LoadOffset, "boot_drive", Offset(Stage1Program(n), BootDriveItem1))
  {
    LabelHere(Stage1Program(n), Stage1LoadOffset, BootDriveItem1);
  }

  lemma Before1(x: Run1, k: nat)
    requires Setting1(x) && k <= BootDriveItem1
    ensures Offset(x.g.items, k) <= x.g.hole < |x.g.code| && CodeBefore(x.g, 15)
    ensures LabelIs(x.g.items, x.g.origin, "boot_drive", x.g.hole)
  {
    hide Offset, Labels, Stage1Program, LabelIs, Linked;
    DriveLabel1(x.sectors);
    forall j | 0 <= j <= BootDriveItem1 ensures Offset(x.g.items, j) <= x.g.hole {
      OffsetMonotone(x.g.items, j, BootDriveItem1);
    }
    HoleInside1(x);
  }

  /** The drive byte lies in the program: its label takes no room and the byte follows. */
  lemma HoleInside1(x: Run1)
    requires Setting1(x)
    ensures x.g.hole < |x.g.code|
  {
    hide Offset, Stage1Program, Linked, Width;
    OffsetNext(x.g.items, 37);
    DriveByte(x, Offset(x.g.items, 37));
  }

  lemma DriveByte(x: Run1, at: nat)
    requires Setting1(x)
    ensures Width(x.g.items[37], at) == 0 && Width(x.g.items[38], at) == 1
    ensures Offset(x.g.items, 39) == Offset(x.g.items, 38) + 1 && Offset(x.g.items, 39) <= |x.g.code|
  {
    hide Stage1Program, Offset, Resolvable, Prologue, Width, Holds, Resolved;
    Stage1Items(x.sectors);
    MarkAndByte(x.g.items[37], x.g.items[38], at);
    MarkAndByte(x.g.items[37], x.g.items[38], Offset(x.g.items, 38));
    OffsetNext(x.g.items, 38);
    OffsetMonotone(x.g.items, 39, 43);
  }

  lemma MarkAndByte(a: Instr, b: Instr, at: nat)
    requires a.MarkLabel? && b == Db([0x00])
    ensures Width(a, at) == 0 && Width(b, at) == 1
  {
  }

  /** One instruction that loads byte register `r`. */
  lemma WalkByte(a: Machine, m: Machine, c: nat, g: Image, k: nat, op: Op, r: Reg8, b: byte, target: nat, d: int)
    returns (n: Machine)
    requires InProgram(m, g, k) && k < |g.items| && Offset(g.items, k + 1) <= g.hole && a.Valid() && Reaches(a, m, c)
    requires Meaning(g.items[k], target, d) == Some(op) && Names(g.items, g.origin, k, target, d)
    requires m.segs == [0, 0, 0, 0] && r < 8 && r % 4 < 3
    requires op == MovImm8(r, b) || (op.Load8? && op.r8 == r && b == Peek(m, op.address))
    ensures Reaches(a, n, c + 1) && InProgram(n, g, k + 1)
    ensures n.mem == m.mem && n.segs == m.segs && n.disk == m.disk && n.board == m.board && n.regs[BX] == m.regs[BX]
    ensures n.regs[SP] == m.regs[SP]
    ensures Get8(n, r) == b && forall q: Reg8 :: q != r ==> Get8(n, q) == Get8(m, q)
  {
    hide Meaning, Offset, Names, Reaches, Effect, Get8, InProgram;
    ByteLoaded(m, op, r, b);
    n := Walk(a, m, c, g, k, op, target, d);
    var e := Effect(m, op).value;
    forall q: Reg8 ensures Get8(n, q) == Get8(e, q) { GetFromRegs(n, e, q); }
  }

  lemma Stage1ItemsOf(x: Run1)
    requires Setting1(x)
    ensures var p := x.g.items; (
      && p[10] == MovRegImm8(AH, 0x02) && p[11] == MovRegImm8(AL, x.sectors)
      && p[12] == MovRegImm16(BX, Stage2LoadOffset)
      && p[13] == MovRegImm8(CH, 0x00) && p[14] == MovRegImm8(CL, 0x02) && p[15] == MovRegImm8(DH, 0x00)
      && p[16] == MovReg8FromMem8Absolute(DL, "boot_drive") && p[17] == Int(0x13)
      && p[18] == JcShort("disk_error") && p[19] == JmpFar(0x0000, Stage2LoadOffset))
  {
    hide Stage1Program, Prologue;
    Stage1Items(x.sectors);
  }

  lemma LoadMeanings1(x: Run1)
    requires Setting1(x)
    ensures var p := x.g.items; (
      && Meaning(p[10], 0, 0) == Some(MovImm8(AH, 2)) && Meaning(p[11], 0, 0) == Some(MovImm8(AL, x.sectors))
      && Meaning(p[12], 0, 0) == Some(MovImm16(BX, Stage2LoadOffset)) && Meaning(p[13], 0, 0) == Some(MovImm8(CH, 0))
      && Meaning(p[14], 0, 0) == Some(MovImm8(CL, 2)) && Meaning(p[15], 0, 0) == Some(MovImm8(DH, 0)))
  {
    hide Setting1, Prologue, Stage1Program, Meaning, Operand;
    Stage1ItemsOf(x);
    PlainMeanings();
  }

  lemma PlainNames1(x: Run1, k: nat)
    requires Setting1(x) && 10 <= k <= 15
    ensures Names(x.g.items, x.g.origin, k, 0, 0)
  {
    Stage1Items(x.sectors);
    hide Stage1Program, Prologue, Labels, Offset, Linked;
    NamesNothing(x.g.items, x.g.origin, k);
  }

  lemma CallMeanings1(x: Run1, target: nat, d: int)
    requires Setting1(x)
    ensures var p := x.g.items; (
      && Meaning(p[16], target, d) == Some(Load8(DL, target % 65536))
      && Operand(p[16]) == Some(Reference(Absolute16, "boot_drive"))
      && Meaning(p[17], 0, 0) == Some(Interrupt(0x13)) && Operand(p[17]).None?
      && Meaning(p[18], target, d) == Some(JumpCarry(d)) && Operand(p[18]).Some?
      && Meaning(p[19], 0, 0) == Some(JumpFar(0, Stage2LoadOffset)) && Operand(p[19]).None?)
  {
    hide Setting1, Prologue, Stage1Program, Meaning, Operand;
    Stage1ItemsOf(x);
    PlainMeanings();
    LabelledMeanings(target, d);
  }

  /** The label an item of stage 1 names. */
  lemma Named1(x: Run1, k: nat) returns (target: nat, d: int)
    requires Setting1(x) && k < |x.g.items|
    ensures Names(x.g.items, x.g.origin, k, target, d)
    ensures Operand(x.g.items[k]).Some? && Operand(x.g.items[k]).value.name == "boot_drive" ==>
              target == x.g.origin + x.g.hole
  {
    hide Stage1Program, Operand, Offset, Labels, Opcode;
    DriveLabel1(x.sectors);
    assert Resolvable(x.g.items, x.g.origin, k);
    target, d := 0, 0;
    if Operand(x.g.items[k]).Some? {
      var ref := Operand(x.g.items[k]).value;
      target := Labels(x.g.items, x.g.origin, |x.g.items|)[ref.name];
      d := Displacement(target, OperandPosition(x.g.items, k), ref.kind.Width(), x.g.origin);
    }
  }

  /** Registers, segments and memory as stage 1's disk request finds them. */
  ghost predicate Requesting(m: Machine, x: Run1) {
    && m.Valid() && m.segs == [0, 0, 0, 0] && m.disk == x.disk && m.board == x.board && m.regs[3] == Stage2LoadOffset
    && Get8(m, AH) == 2 && Get8(m, AL) == x.sectors && Get8(m, CH) == 0 && Get8(m, CL) == 2 && Get8(m, DH) == 0
    && Get8(m, DL) == x.board.drive && m.regs[SP] == 0x7C00
  }

  lemma NameOffset(a: Machine, m: Machine, x: Run1) returns (n: Machine)
    requires Setting1(x) && InProgram(m, x.g, 12) && a.Valid() && Reaches(a, m, 2)
    ensures Reaches(a, n, 3) && InProgram(n, x.g, 13) && SameStore(m, n) && n.segs == m.segs
    ensures n.regs[BX] == Stage2LoadOffset && n.regs[SP] == m.regs[SP]
    ensures Get8(n, AH) == Get8(m, AH) && Get8(n, AL) == Get8(m, AL)
  {
    hide Setting1, Meaning, Offset, Names, Reaches, InProgram;
    LoadMeanings1(x);
    Before1(x, 13);
    PlainNames1(x, 12);
    n := WalkWord(a, m, 2, x.g, 12, BX, Stage2LoadOffset, 0, 0);
  }

  /** Setting AX and BX up. */
  lemma NameBuffer(m: Machine, x: Run1) returns (n: Machine)
    requires Setting1(x) && InProgram(m, x.g, 10) && m.segs == [0, 0, 0, 0] && m.disk == x.disk && m.board == x.board
    ensures Reaches(m, n, 3) && InProgram(n, x.g, 13) && n.mem == m.mem && n.segs == [0, 0, 0, 0] && n.disk == x.disk
    ensures n.board == x.board && n.regs[SP] == m.regs[SP]
    ensures n.regs[BX] == Stage2LoadOffset && Get8(n, AH) == 2 && Get8(n, AL) == x.sectors
  {
    ReachesHere(m);
    hide Setting1, Meaning, Offset, Names, Reaches, Effect, Get8, InProgram, Peek;
    LoadMeanings1(x);
    Before1(x, 11);
    Before1(x, 12);
    PlainNames1(x, 10);
    PlainNames1(x, 11);
    n := WalkByte(m, m, 0, x.g, 10, MovImm8(AH, 2), AH, 2, 0, 0);
    n := WalkByte(m, n, 1, x.g, 11, MovImm8(AL, x.sectors), AL, x.sectors, 0, 0);
    n := NameOffset(m, n, x);
  }

  /** The rest of the request. */
  lemma NameSectors(a: Machine, m: Machine, x: Run1) returns (n: Machine)
    requires Setting1(x) && InProgram(m, x.g, 13) && a.Valid() && Reaches(a, m, 3)
    requires m.segs == [0, 0, 0, 0] && m.disk == x.disk && m.board == x.board
    requires m.regs[BX] == Stage2LoadOffset && Get8(m, AH) == 2 && Get8(m, AL) == x.sectors && m.regs[SP] == 0x7C00
    ensures Reaches(a, n, 7) && InProgram(n, x.g, 17) && Requesting(n, x) && n.mem == m.mem
  {
    hide Setting1, Meaning, Offset, Names, Reaches, Effect, Get8, InProgram, Operand, Peek;
    LoadMeanings1(x);
    Before1(x, 14);
    Before1(x, 15);
    Before1(x, 16);
    PlainNames1(x, 13);
    PlainNames1(x, 14);
    PlainNames1(x, 15);
    n := WalkByte(a, m, 3, x.g, 13, MovImm8(CH, 0), CH, 0, 0, 0);
    n := WalkByte(a, n, 4, x.g, 14, MovImm8(CL, 2), CL, 2, 0, 0);
    n := WalkByte(a, n, 5, x.g, 15, MovImm8(DH, 0), DH, 0, 0, 0);
    n := NameDrive(a, n, x);
  }

  lemma NameDrive(a: Machine, m: Machine, x: Run1) returns (n: Machine)
    requires Setting1(x) && InProgram(m, x.g, 16) && a.Valid() && Reaches(a, m, 6) && m.segs == [0, 0, 0, 0]
    ensures Reaches(a, n, 7) && InProgram(n, x.g, 17)
    ensures n.mem == m.mem && n.segs == m.segs && n.disk == m.disk && n.board == m.board && n.regs[BX] == m.regs[BX]
    ensures n.regs[SP] == m.regs[SP]
    ensures Get8(n, DL) == x.board.drive && forall q: Reg8 :: q != DL ==> Get8(n, q) == Get8(m, q)
  {
    hide Setting1, Meaning, Offset, Names, Reaches, Effect, Get8, InProgram, Operand, Peek;
    var target, d := Named1(x, 16);
    CallMeanings1(x, target, d);
    Before1(x, 17);
    DriveInPlace(m, x);
    n := WalkByte(a, m, 6, x.g, 16, Load8(DL, target % 65536), DL, x.board.drive, target, d);
  }

  lemma DriveInPlace(m: Machine, x: Run1)
    requires Setting1(x) && InProgram(m, x.g, 16)
    ensures (x.g.origin + x.g.hole) % 65536 == x.g.origin + x.g.hole && Peek(m, x.g.origin + x.g.hole) == x.board.drive
  {
    hide Stage1Program, Offset, Linked;
    Before1(x, 0);
    LoadedByte(m, x.g, x.g.hole);
  }

  /** Stage 1's disk request succeeds: stage 2 is at its load address. */
  lemma FetchStage2(m: Machine, x: Run1)
    requires Setting1(x) && Requesting(m, x) && Readable(x.board, 1, x.sectors)
    ensures var n := ReadSectors(m); (
      && n.Valid()
      && n == m.(mem := Splice(m.mem, Stage2LoadOffset, x.disk[512..512 * (1 + x.sectors as nat)]),
                 regs := n.regs, carry := false)
      && Get8(n, DL) == x.board.drive)
  {
    hide Splice, Get8, Set8, CodeLoaded, Linked, Stage1Program;
    var k: nat := x.sectors;
    assert x.disk[1 * 512..(1 + k) * 512] == x.disk[512..512 * (1 + k)];
    var next := m.(mem := Splice(m.mem, Stage2LoadOffset, x.disk[512..512 * (1 + k)]), carry := false);
    Set8Keeps(next, AH, 0);
    SetGet8(next, AH, 0, DL);
    GetFromRegs(next, m, DL);
    assert ReadSectors(m) == Set8(next, AH, 0);
  }

  lemma Ready1(m: Machine, x: Run1, k: nat)
    requires Setting1(x) && k < 20 && InProgram(m, x.g, k)
    ensures Ready(m, x.g, k) && x.g.origin + Offset(x.g.items, k + 1) < 65536
  {
    hide CodeLoaded, Linked, Offset, Stage1Program;
    Before1(x, k + 1);
  }

  /** Stage 2, as read, at its load address. */
  ghost predicate Fetched2(m: Machine, x: Run1)
    requires Setting1(x)
  {
    |m.mem| == MemorySize
    && m.mem[Stage2LoadOffset..Stage2LoadOffset + 512 * x.sectors as nat] == x.disk[512..512 * (1 + x.sectors as nat)]
  }

  /** Stage 1's disk call. */
  lemma CallDisk1(m: Machine, x: Run1) returns (n: Machine)
    requires Setting1(x) && InProgram(m, x.g, 17) && Requesting(m, x) && Readable(x.board, 1, x.sectors)
    ensures Step(m) == Some(n) && InProgram(n, x.g, 18) && !n.carry && Fetched2(n, x)
    ensures n.segs == [0, 0, 0, 0] && n.disk == x.disk && n.board == x.board && Get8(n, DL) == x.board.drive
  {
    hide Linked, CodeLoaded, Offset, Step, Stage1Program, Get8, Splice, Labels, Displacement, Meaning, Operand,
         ReadSectors, Names;
    CallMeanings1(x, 0, 0);
    Ready1(m, x, 17);
    NamesNothing(x.g.items, x.g.origin, 17);
    StepItem(m, x.g.code, x.g.items, x.g.origin, x.g.hole, x.g.v, 17, 0, 0);
    var next := m.(ip := x.g.origin + Offset(x.g.items, 18));
    forall q: Reg8 ensures Get8(next, q) == Get8(m, q) { GetFromRegs(next, m, q); }
    FetchStage2(next, x);
    n := ReadSectors(next);
    var sectors := x.disk[512..512 * (1 + x.sectors as nat)];
    CodeKept(m, x.g.code, x.g.origin, x.g.hole, x.g.v, Stage2LoadOffset, sectors);
    SameMemory(m.(mem := n.mem), n, x.g);
    SpliceRead(m.mem, Stage2LoadOffset, sectors);
  }

  /** The carry check, and the far jump to what was read. */
  lemma EnterStage2(m: Machine, x: Run1) returns (r: Machine, n: Machine)
    requires Setting1(x) && InProgram(m, x.g, 18) && !m.carry && m.segs == [0, 0, 0, 0]
    ensures Step(m) == Some(r) && r.Valid() && Step(r) == Some(n)
    ensures n == m.(ip := Stage2LoadOffset) && n.Valid()
  {
    hide Linked, CodeLoaded, Offset, Step, Stage1Program, Labels, Displacement, Meaning, Operand, Names;
    var target, d := Named1(x, 18);
    CallMeanings1(x, target, d);
    Ready1(m, x, 18);
    StepItem(m, x.g.code, x.g.items, x.g.origin, x.g.hole, x.g.v, 18, target, d);
    r := m.(ip := x.g.origin + Offset(x.g.items, 19));
    SameMemory(m, r, x.g);
    Ready1(r, x, 19);
    NamesNothing(x.g.items, x.g.origin, 19);
    StepItem(r, x.g.code, x.g.items, x.g.origin, x.g.hole, x.g.v, 19, 0, 0);
    n := m.(ip := Stage2LoadOffset);
    assert m.segs[1 := 0] == m.segs;
  }

  /** Stage 1 from reset to its disk request. */
  lemma Stage1Requests(m: Machine, x: Run1, v: byte) returns (n: Machine)
    requires Setting1(x) && InProgram(m, x.g.(v := v), 0)
    requires m.disk == x.disk && m.board == x.board && Get8(m, DL) == x.board.drive
    ensures Reaches(m, n, 16) && InProgram(n, x.g, 17) && Requesting(n, x)
  {
    hide InProgram, Offset, Reaches, Linked, Stage1Program, LabelIs, Prologue, Get8, Setting1, Step, Requesting;
    Before1(x, 0);
    Prologue1(x);
    var c := RunPrologue(m, x.g.(v := v), 0x7C00);
    assert x.g == x.g.(v := v).(v := Get8(m, DL));
    n := NameBuffer(c, x);
    n := NameSectors(c, n, x);
    ReachesTransitive(m, c, n, 9, 7);
  }

  /** Stage 1 from reset: stage 2 is in memory and about to run, the drive number still in DL. */
  lemma Stage1Runs(m: Machine, x: Run1, v: byte) returns (n: Machine)
    requires Setting1(x) && InProgram(m, x.g.(v := v), 0) && Readable(x.board, 1, x.sectors)
    requires m.disk == x.disk && m.board == x.board && Get8(m, DL) == x.board.drive
    ensures Reaches(m, n, 19) && n.Valid() && n.segs == [0, 0, 0, 0] && n.ip == Stage2LoadOffset && Fetched2(n, x)
    ensures n.disk == x.disk && n.board == x.board && Get8(n, DL) == x.board.drive
  {
    hide InProgram, Offset, Reaches, Linked, Stage1Program, Prologue, Get8, Setting1, Step, Requesting, Readable;
    var b := Stage1Requests(m, x, v);
    RequestValid(b, x);
    var s := CallDisk1(b, x);
    Then(m, b, s, 16);
    var r;
    r, n := EnterStage2(s, x);
    Then(m, s, r, 17);
    Then(m, r, n, 18);
    GetFromRegs(n, s, DL);
  }

  lemma RequestValid(m: Machine, x: Run1)
    requires Requesting(m, x)
    ensures m.Valid()
  {
  }

  lemma Prologue1(x: Run1)
    requires Setting1(x)
    ensures Prologue(x.g.items, 0x7C00) && x.g.v == x.board.drive
  {
    Stage1Items(x.sectors);
  }
}
