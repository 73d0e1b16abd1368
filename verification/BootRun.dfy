/** The machine running the boot programs from memory: stage 1 fetches stage 2, and stage 2's
    loop places the image. */
module BootRun {
  import opened Bytes
  import opened Splices
  import opened Assembler16
  import opened BootMachine
  import opened BootChain

  // ---- a program in memory ----

  /** `code` is in segment 0 at `origin`, except that the byte at `hole` holds `v`. */
  ghost predicate CodeLoaded(m: Machine, code: seq<byte>, origin: nat, hole: nat, v: byte) {
    && |m.mem| == MemorySize && origin + |code| + 6 <= 65536
    && forall a :: 0 <= a < |code| ==> m.mem[origin + a] == if a == hole then v else code[a]
  }

  /** A write elsewhere leaves the program in memory. */
  lemma CodeKept(m: Machine, code: seq<byte>, origin: nat, hole: nat, v: byte, to: nat, b: seq<byte>)
    requires CodeLoaded(m, code, origin, hole, v) && to + |b| <= MemorySize
    requires to + |b| <= origin || origin + |code| <= to
    ensures CodeLoaded(m.(mem := Splice(m.mem, to, b)), code, origin, hole, v)
  {
    var after := m.(mem := Splice(m.mem, to, b));
    forall a | 0 <= a < |code| ensures after.mem[origin + a] == if a == hole then v else code[a] {
      SpliceAt(m.mem, to, b, origin + a);
    }
  }

  /** A byte of memory. */
  function Peek(m: Machine, a: nat): byte {
    if a < |m.mem| then m.mem[a] else 0
  }

  ghost predicate At(m: Machine, program: seq<Instr>, origin: nat, k: nat)
    requires k <= |program|
  {
    m.Valid() && m.segs[CS] == 0 && m.ip == origin + Offset(program, k)
  }

  /** The label an item names, and the distance to it. */
  ghost predicate Names(program: seq<Instr>, origin: nat, k: nat, target: nat, d: int)
    requires k < |program|
  {
    Operand(program[k]).Some? ==>
      var ref := Operand(program[k]).value;
      var labels := Labels(program, origin, |program|);
      ref.name in labels && target == labels[ref.name]
        && d == Displacement(target, OperandPosition(program, k), ref.kind.Width(), origin)
  }

  /** One step at item `k` does what the item means, and falls through to the next item. */
  lemma StepItem(m: Machine, code: seq<byte>, program: seq<Instr>, origin: nat, hole: nat, v: byte, k: nat,
                 target: nat, d: int)
    requires Linked(code, program, origin) && CodeLoaded(m, code, origin, hole, v)
    requires k < |program| && At(m, program, origin, k) && Offset(program, k + 1) <= hole
    requires Meaning(program[k], target, d).Some? && Names(program, origin, k, target, d)
    ensures Step(m) == Execute(m, Meaning(program[k], target, d).value, Width(program[k], Offset(program, k)))
    ensures Offset(program, k + 1) == Offset(program, k) + Width(program[k], Offset(program, k))
    ensures Offset(program, k + 1) <= |code|
  {
    hide Opcode, Operand, Meaning, Decode, Execute, Labels, OperandBytes, InReach, Resolved, CodeLoaded, Offset,
         Resolvable, Names;
    var i, at := program[k], Offset(program, k);
    OffsetMonotone(program, k + 1, |program|);
    OffsetNext(program, k);
    MeaningWidth(i, target, d, at);
    assert Resolvable(program, origin, k) && Holds(code, program, k, Resolved(program, origin, k));
    ResolvedIs(program, origin, k, target, d);
    Fetched(m, code, origin, hole, v, at, Resolved(program, origin, k));
    EncodingDecodes(i, target, d, m.mem[m.ip..m.ip + 6]);
  }

  lemma OffsetNext(program: seq<Instr>, k: nat)
    requires k < |program|
    ensures Offset(program, k + 1) == Offset(program, k) + Width(program[k], Offset(program, k))
  {
  }

  /** The instruction fetch sees the bytes of the code. */
  lemma Fetched(m: Machine, code: seq<byte>, origin: nat, hole: nat, v: byte, at: nat, e: seq<byte>)
    requires CodeLoaded(m, code, origin, hole, v) && |e| <= 6
    requires at + |e| <= |code| && code[at..at + |e|] == e && at + |e| <= hole
    ensures origin + at + 6 <= MemorySize && m.mem[origin + at..origin + at + 6][..|e|] == e
  {
    forall j | 0 <= j < |e| ensures m.mem[origin + at..origin + at + 6][j] == e[j] {
      assert e[j] == code[at..at + |e|][j];
      assert m.mem[origin + (at + j)] == code[at + j];
    }
  }

  lemma MeaningWidth(i: Instr, target: nat, d: int, at: nat)
    requires Meaning(i, target, d).Some?
    ensures Opcode(i, at) == Opcode(i, 0) && Width(i, at) == Width(i, 0) <= 6
  {
  }

  lemma ResolvedIs(program: seq<Instr>, origin: nat, k: nat, target: nat, d: int)
    requires k < |program| && Resolvable(program, origin, k) && Names(program, origin, k, target, d)
    ensures Operand(program[k]).Some? ==> InReach(Operand(program[k]).value.kind, d)
    ensures Resolved(program, origin, k) == Opcode(program[k], Offset(program, k))
              + (if Operand(program[k]).Some? then OperandBytes(Operand(program[k]).value.kind, target, d) else [])
  {
    hide Opcode, Operand, Labels, OperandBytes, Offset;
  }

  // ---- straight-line code ----

  /** A linked program and where it sits; `hole` is its one byte of data that changes. */
  datatype Image = Image(code: seq<byte>, items: seq<Instr>, origin: nat, hole: nat, v: byte)

  ghost predicate Ready(m: Machine, g: Image, k: nat) {
    && k < |g.items| && At(m, g.items, g.origin, k) && Offset(g.items, k + 1) <= g.hole
    && Linked(g.code, g.items, g.origin) && CodeLoaded(m, g.code, g.origin, g.hole, g.v)
  }

  /** One straight instruction: its effect, and on to the next item. */
  lemma Do(m: Machine, g: Image, k: nat, op: Op, target: nat, d: int) returns (n: Machine)
    requires Ready(m, g, k) && Meaning(g.items[k], target, d) == Some(op) && Names(g.items, g.origin, k, target, d)
    requires Straight(op) && Effect(m, op).Some?
    ensures Step(m) == Some(n) && n.Valid() && n == Effect(m, op).value.(ip := g.origin + Offset(g.items, k + 1))
  {
    hide Meaning, Linked, CodeLoaded, Names, Offset, Step;
    StepItem(m, g.code, g.items, g.origin, g.hole, g.v, k, target, d);
    InCode(m, g, k);
    StraightMoves(m, op, Width(g.items[k], Offset(g.items, k)));
    n := Step(m).value;
  }

  lemma InCode(m: Machine, g: Image, k: nat)
    requires Ready(m, g, k)
    ensures g.origin + |g.code| + 6 <= 65536 && Offset(g.items, k + 1) <= |g.code|
  {
    OffsetMonotone(g.items, k + 1, |g.items|);
  }

  lemma StraightMoves(m: Machine, op: Op, w: nat)
    requires m.Valid() && Straight(op) && m.ip + w < 65536 && Effect(m, op).Some?
    ensures Execute(m, op, w).Some?
    ensures Execute(m, op, w).value == Effect(m, op).value.(ip := m.ip + w) && Execute(m, op, w).value.Valid()
  {
    hide Set8, Get8, Splice, Le16, Read16;
    EffectValid(m, op);
    hide Effect;
  }

  lemma EffectValid(m: Machine, op: Op)
    requires m.Valid() && Straight(op) && Effect(m, op).Some?
    ensures Effect(m, op).value.Valid()
  {
    hide Get8, Splice, Le16, Read16;
    match op
    case MovImm8(r, b) => SetGet8(m, r, b, r);
    case Load8(r, address) => SetGet8(m, r, m.mem[Linear(m.segs[DS], address)], r);
    case LoadSi8(r, d) => SetGet8(m, r, m.mem[Linear(m.segs[DS], (m.regs[SI] + d) % 65536)], r);
    case _ =>
  }

  lemma Then(a: Machine, b: Machine, c: Machine, n: nat)
    requires a.Valid() && Reaches(a, b, n) && b.Valid() && Step(b) == Some(c) && c.Valid()
    ensures Reaches(a, c, n + 1)
  {
    hide Step;
    assert Reaches(c, c, 0);
    assert Reaches(b, c, 1);
    ReachesTransitive(a, b, c, n, 1);
  }

  // ---- stage 2's loop ----

  /** The fixed facts of a stage 2 run. */
  datatype Run2 = Run2(g: Image, count: Word, table: seq<byte>, start: nat, disk: seq<byte>, board: Board)

  const BootDriveItem2 := 68
  const TableItem := 72

  ghost predicate Setting(x: Run2)
    ensures Setting(x) ==> |x.g.items| == 74
  {
    && |x.g.items| == 74 && x.g.items == Stage2Program(x.count, x.table) && x.g.origin == Stage2LoadOffset
    && x.g.hole == Offset(x.g.items, BootDriveItem2) && x.g.v == x.board.drive
    && 1 <= x.count <= 128 && x.start + x.count <= 2880 && x.table == SectorTable(x.start, x.count)
    && |x.disk| == FloppySize && |x.g.code| <= 17 * 512
    && Linked(x.g.code, x.g.items, x.g.origin)
  }

  function TableAddress(x: Run2): nat
    requires |x.g.items| == 74
  {
    Stage2LoadOffset + Offset(x.g.items, TableItem)
  }

  /** Before round `i` of the loop: the first `i` sectors are in place. */
  ghost predicate Round(m: Machine, x: Run2, i: nat)
    requires Setting(x) && i <= x.count
  {
    && m.Valid() && CodeLoaded(m, x.g.code, x.g.origin, x.g.hole, x.g.v)
    && m.segs == [ImageBufferSegment, 0, 0, 0] && m.disk == x.disk && m.board == x.board
    && m.regs[SP] == 0x7A00 && m.regs[SI] == TableAddress(x) + 3 * i && m.regs[BX] == 512 * i % 65536
    && m.mem[ImageAddress..ImageAddress + 512 * i] == x.disk[512 * x.start..512 * (x.start + i)]
  }

  lemma Stage2Lengths(n: Word, t: seq<byte>)
    ensures |Setup(n)| == 15 && |ReadLoop()| == 14 && |ShowImage()| == 23 && |Stage2Failure()| == 16
    ensures |Stage2Data(t)| == 6
  {
  }

  /** Where the parts of the program sit. */
  lemma Stage2Shape(n: Word, t: seq<byte>)
    ensures |Stage2Program(n, t)| == 74 && |Setup(n)| == 15 && |ReadLoop()| == 14 && |Stage2Data(t)| == 6
    ensures forall k :: 0 <= k < 15 ==> Stage2Program(n, t)[k] == Setup(n)[k]
    ensures forall k :: 0 <= k < 14 ==> Stage2Program(n, t)[15 + k] == ReadLoop()[k]
    ensures forall k :: 0 <= k < 6 ==> Stage2Program(n, t)[68 + k] == Stage2Data(t)[k]
  {
    Stage2Lengths(n, t);
    hide Setup, ReadLoop, ShowImage, Stage2Failure, Stage2Data;
  }

  lemma Stage2Middle(n: Word, t: seq<byte>)
    ensures |Stage2Program(n, t)| == 74 && |ShowImage()| == 23 && |Stage2Failure()| == 16
    ensures forall k :: 0 <= k < 23 ==> Stage2Program(n, t)[29 + k] == ShowImage()[k]
    ensures forall k :: 0 <= k < 16 ==> Stage2Program(n, t)[52 + k] == Stage2Failure()[k]
  {
    Stage2Lengths(n, t);
    hide Setup, ReadLoop, ShowImage, Stage2Failure, Stage2Data;
  }

  lemma LoopItems(n: Word, t: seq<byte>)
    ensures var p := Stage2Program(n, t); (
      && |p| == 74 && p[15] == MarkLabel("read_loop") && p[16] == PushReg(CX) && p[17] == MovRegImm8(AH, 0x02)
      && p[18] == MovRegImm8(AL, 0x01) && p[19] == MovReg8FromSiOffset(CH, 0) && p[20] == MovReg8FromSiOffset(DH, 1)
      && p[21] == MovReg8FromSiOffset(CL, 2) && p[22] == MovReg8FromMem8Absolute(DL, "boot_drive") && p[23] == Int(0x13)
      && p[24] == JcShort("disk_error") && p[25] == AddRegImm16(SI, 3) && p[26] == AddRegImm16(BX, 512)
      && p[27] == PopReg(CX) && p[28] == LoopShort("read_loop"))
  {
    Stage2Shape(n, t);
    hide Stage2Program, Setup, Stage2Data;
    var p := Stage2Program(n, t);
    assert p[15 + 0] == ReadLoop()[0] && p[15 + 1] == ReadLoop()[1] && p[15 + 2] == ReadLoop()[2]
           && p[15 + 3] == ReadLoop()[3];
    assert p[15 + 4] == ReadLoop()[4] && p[15 + 5] == ReadLoop()[5] && p[15 + 6] == ReadLoop()[6]
           && p[15 + 7] == ReadLoop()[7];
    assert p[15 + 8] == ReadLoop()[8] && p[15 + 9] == ReadLoop()[9] && p[15 + 10] == ReadLoop()[10]
           && p[15 + 11] == ReadLoop()[11];
    assert p[15 + 12] == ReadLoop()[12] && p[15 + 13] == ReadLoop()[13];
  }

  lemma DataItems(n: Word, t: seq<byte>)
    ensures var p := Stage2Program(n, t); (
      && |p| == 74 && p[68] == MarkLabel("boot_drive") && p[69] == Db([0x00]) && p[72] == MarkLabel("sector_table")
      && p[73] == Db(t))
  {
    Stage2Shape(n, t);
    hide Stage2Program, Setup, ReadLoop;
    var p := Stage2Program(n, t);
    assert p[68 + 0] == Stage2Data(t)[0] && p[68 + 1] == Stage2Data(t)[1] && p[68 + 4] == Stage2Data(t)[4]
           && p[68 + 5] == Stage2Data(t)[5];
  }

  lemma ReadLoopLabel(n: Word, t: seq<byte>)
    ensures |Stage2Program(n, t)| == 74
    ensures LabelIs(Stage2Program(n, t), Stage2LoadOffset, "read_loop", Offset(Stage2Program(n, t), 15))
  {
    LabelHere(Stage2Program(n, t), Stage2LoadOffset, 15);
  }

  lemma DataLabels(n: Word, t: seq<byte>)
    ensures |Stage2Program(n, t)| == 74
    ensures LabelIs(Stage2Program(n, t), Stage2LoadOffset, "boot_drive", Offset(Stage2Program(n, t), BootDriveItem2))
    ensures LabelIs(Stage2Program(n, t), Stage2LoadOffset, "sector_table", Offset(Stage2Program(n, t), TableItem))
  {
    LabelHere(Stage2Program(n, t), Stage2LoadOffset, BootDriveItem2);
    LabelHere(Stage2Program(n, t), Stage2LoadOffset, TableItem);
  }

  /** A label that an item of a linked program names. */
  lemma Named(x: Run2, k: nat) returns (target: nat, d: int)
    requires Setting(x) && k < |x.g.items| && Operand(x.g.items[k]).Some?
    ensures Names(x.g.items, x.g.origin, k, target, d)
    ensures Operand(x.g.items[k]).value.name == "boot_drive" ==> target == x.g.origin + x.g.hole
    ensures Operand(x.g.items[k]).value.name == "sector_table" ==> target == TableAddress(x)
    ensures Operand(x.g.items[k]).value.name == "read_loop" ==> target == x.g.origin + Offset(x.g.items, 15)
    ensures d == Displacement(target, OperandPosition(x.g.items, k), Operand(x.g.items[k]).value.kind.Width(),
                              x.g.origin)
  {
    hide Stage2Program, Operand, Offset, Labels, Opcode;
    ReadLoopLabel(x.count, x.table);
    DataLabels(x.count, x.table);
    assert Resolvable(x.g.items, x.g.origin, k);
    var ref := Operand(x.g.items[k]).value;
    target := Labels(x.g.items, x.g.origin, |x.g.items|)[ref.name];
    d := Displacement(target, OperandPosition(x.g.items, k), ref.kind.Width(), x.g.origin);
  }

  /** The addresses of the run: code and table stay below 0xB000. */
  lemma Addresses(x: Run2)
    requires Setting(x)
    ensures |x.g.items| == 74
    ensures forall k | 0 <= k <= BootDriveItem2 :: Offset(x.g.items, k) <= x.g.hole
    ensures x.g.hole < Offset(x.g.items, TableItem) && Offset(x.g.items, TableItem) + 3 * x.count == |x.g.code|
    ensures x.g.origin + |x.g.code| <= 0xA200
    ensures x.g.code[Offset(x.g.items, TableItem)..] == x.table
  {
    hide Stage2Program, Offset, Resolved, SectorTable;
    var p := x.g.items;
    forall k | 0 <= k <= BootDriveItem2 ensures Offset(p, k) <= x.g.hole { OffsetMonotone(p, k, BootDriveItem2); }
    DataWidths(x.count, x.table);
    DataOffsets(x.count, x.table);
    assert Holds(x.g.code, p, 73, Resolved(p, x.g.origin, 73));
  }

  lemma DataOffsets(n: Word, t: seq<byte>)
    ensures var p := Stage2Program(n, t);
            && |p| == 74 && Offset(p, BootDriveItem2) < Offset(p, TableItem) && Offset(p, 73) == Offset(p, TableItem)
            && Offset(p, 74) == Offset(p, TableItem) + |t|
  {
    hide Stage2Program;
    DataWidths(n, t);
    var p := Stage2Program(n, t);
    OffsetNext(p, 68);
    OffsetNext(p, 69);
    OffsetNext(p, 72);
    OffsetNext(p, 73);
    OffsetMonotone(p, 70, 72);
    hide Offset;
  }

  lemma DataWidths(n: Word, t: seq<byte>)
    ensures |Stage2Program(n, t)| == 74
    ensures forall at :: Width(Stage2Program(n, t)[68], at) == 0 && Width(Stage2Program(n, t)[69], at) == 1
    ensures forall at :: Width(Stage2Program(n, t)[72], at) == 0 && Width(Stage2Program(n, t)[73], at) == |t|
    ensures forall origin | Resolvable(Stage2Program(n, t), origin, 73) ::
              Resolved(Stage2Program(n, t), origin, 73) == t
  {
    hide Stage2Program;
    DataItems(n, t);
  }

  // ---- one round of the loop ----

  /** Ready at item `k` of the loop, apart from registers. */
  ghost predicate InLoop(m: Machine, x: Run2, k: nat)
    requires Setting(x) && k <= 29
    ensures InLoop(m, x, k) ==>
              m.Valid() && m.segs == [ImageBufferSegment, 0, 0, 0] && m.disk == x.disk && m.board == x.board && !m.down
  {
    && At(m, x.g.items, x.g.origin, k) && CodeLoaded(m, x.g.code, x.g.origin, x.g.hole, x.g.v) && !m.down
    && m.segs == [ImageBufferSegment, 0, 0, 0] && m.disk == x.disk && m.board == x.board
  }

  lemma LoopReady(m: Machine, x: Run2, k: nat)
    requires Setting(x) && k < 29 && InLoop(m, x, k)
    ensures |x.g.items| == 74 && Ready(m, x.g, k) && x.g.origin + Offset(x.g.items, k + 1) < 65536
  {
    hide CodeLoaded, Linked, Offset, Stage2Program;
    Addresses(x);
  }

  lemma SameMemory(m: Machine, n: Machine, g: Image)
    requires CodeLoaded(m, g.code, g.origin, g.hole, g.v) && n.mem == m.mem
    ensures CodeLoaded(n, g.code, g.origin, g.hole, g.v)
  {
  }

  /** The effect of loading a byte register, in terms of the other registers. */
  lemma ByteLoaded(m: Machine, op: Op, r: Reg8, b: byte)
    requires m.Valid() && m.segs[DS] == 0
    requires op == MovImm8(r, b) || (op.LoadSi8? && op.r8 == r && 0 <= m.regs[SI] + op.displacement < 65536
                                     && b == Peek(m, m.regs[SI] + op.displacement))
             || (op.Load8? && op.r8 == r && b == Peek(m, op.address))
    requires r % 4 != SI && r % 4 != SP
    ensures Effect(m, op).Some?
    ensures var n := Effect(m, op).value;
            && n == m.(ip := n.ip, regs := n.regs) && n.Valid() && Get8(n, r) == b
            && (forall q: Reg8 :: q != r ==> Get8(n, q) == Get8(m, q))
            && n.regs[SI] == m.regs[SI] && n.regs[SP] == m.regs[SP] && (r % 4 != BX ==> n.regs[BX] == m.regs[BX])
  {
    hide Set8, Get8;
    var next := m.(ip := m.ip % 65536);
    Set8Keeps(next, r, b);
    forall q: Reg8 ensures Get8(Set8(next, r, b), q) == if q == r then b else Get8(next, q) { SetGet8(next, r, b, q); }
    SetGet8(next, r, b, r);
    forall q: Reg8 ensures Get8(next, q) == Get8(m, q) { GetFromRegs(next, m, q); }
  }

  lemma GetFromRegs(a: Machine, b: Machine, q: Reg8)
    requires a.Valid() && b.Valid() && a.regs == b.regs
    ensures Get8(a, q) == Get8(b, q)
  {
  }

  /** A step of the loop that loads byte register `r`. */
  lemma LoadByte(a: Machine, m: Machine, c: nat, x: Run2, k: nat, op: Op, r: Reg8, b: byte, target: nat, d: int)
    returns (n: Machine)
    requires Setting(x) && k < 29 && InLoop(m, x, k) && a.Valid() && Reaches(a, m, c)
    requires |x.g.items| == 74 && Meaning(x.g.items[k], target, d) == Some(op)
    requires Names(x.g.items, x.g.origin, k, target, d)
    requires op == MovImm8(r, b) || (op.LoadSi8? && op.r8 == r && 0 <= m.regs[SI] + op.displacement < 65536
                                     && b == Peek(m, m.regs[SI] + op.displacement))
             || (op.Load8? && op.r8 == r && b == Peek(m, op.address))
    requires r % 4 != SI && r % 4 != SP && r % 4 != BX
    ensures Reaches(a, n, c + 1) && InLoop(n, x, k + 1) && n.mem == m.mem
    ensures Get8(n, r) == b && (forall q: Reg8 :: q != r ==> Get8(n, q) == Get8(m, q))
    ensures n.regs[SI] == m.regs[SI] && n.regs[SP] == m.regs[SP] && n.regs[BX] == m.regs[BX]
  {
    hide Meaning, Linked, CodeLoaded, Offset, Step, Stage2Program, Operand, Effect, Get8, Names, Setting;
    LoopReady(m, x, k);
    ByteLoaded(m, op, r, b);
    n := Do(m, x.g, k, op, target, d);
    Then(a, m, n, c);
    SameMemory(m, n, x.g);
    var e := Effect(m, op).value;
    forall q: Reg8 ensures Get8(n, q) == Get8(e, q) { GetFromRegs(n, e, q); }
  }

  lemma LoopItemsOf(x: Run2)
    requires Setting(x)
    ensures var p := x.g.items; (
      && p[15] == MarkLabel("read_loop") && p[16] == PushReg(CX) && p[17] == MovRegImm8(AH, 0x02)
      && p[18] == MovRegImm8(AL, 0x01) && p[19] == MovReg8FromSiOffset(CH, 0) && p[20] == MovReg8FromSiOffset(DH, 1)
      && p[21] == MovReg8FromSiOffset(CL, 2) && p[22] == MovReg8FromMem8Absolute(DL, "boot_drive") && p[23] == Int(0x13)
      && p[24] == JcShort("disk_error") && p[25] == AddRegImm16(SI, 3) && p[26] == AddRegImm16(BX, 512)
      && p[27] == PopReg(CX) && p[28] == LoopShort("read_loop"))
  {
    LoopItems(x.count, x.table);
    hide Stage2Program;
  }

  /** What a round starts from. */
  lemma RoundFacts(m: Machine, x: Run2, i: nat)
    requires Setting(x) && i < x.count && Round(m, x, i)
    ensures |x.table| == 3 * x.count && |x.g.items| == 74
    ensures m.regs[SI] == TableAddress(x) + 3 * i && m.regs[SI] as int + 3 < 65536 && m.regs[SP] == 0x7A00
    ensures m.regs[BX] == 512 * i
    ensures Peek(m, m.regs[SI]) == x.table[3 * i] && Peek(m, m.regs[SI] + 1) == x.table[3 * i + 1]
    ensures Peek(m, m.regs[SI] + 2) == x.table[3 * i + 2]
    ensures Peek(m, x.g.origin + x.g.hole) == x.board.drive && 0x8000 <= x.g.origin + x.g.hole < m.regs[SI]
    ensures m.regs[SI] as int + 3 <= 0xA200
  {
    hide Stage2Program, Offset, Linked, SectorTable;
    Addresses(x);
    TableByte(m, x, 3 * i);
    TableByte(m, x, 3 * i + 1);
    TableByte(m, x, 3 * i + 2);
    HoleByte(m, x);
  }

  lemma LoadedByte(m: Machine, g: Image, a: nat)
    requires CodeLoaded(m, g.code, g.origin, g.hole, g.v) && a < |g.code|
    ensures Peek(m, g.origin + a) == if a == g.hole then g.v else g.code[a]
  {
    var c := g.code[a];
  }

  lemma TableByte(m: Machine, x: Run2, j: nat)
    requires Setting(x) && CodeLoaded(m, x.g.code, x.g.origin, x.g.hole, x.g.v) && j < 3 * x.count
    ensures |x.table| == 3 * x.count && Peek(m, TableAddress(x) + j) == x.table[j]
  {
    hide Stage2Program, Offset, Linked, SectorTable, CodeLoaded, Peek;
    Addresses(x);
    var at := Offset(x.g.items, TableItem);
    assert x.g.code[at..][j] == x.g.code[at + j];
    LoadedByte(m, x.g, at + j);
  }

  lemma HoleByte(m: Machine, x: Run2)
    requires Setting(x) && CodeLoaded(m, x.g.code, x.g.origin, x.g.hole, x.g.v)
    ensures Peek(m, x.g.origin + x.g.hole) == x.board.drive && x.g.hole < |x.g.code|
  {
    hide Stage2Program, Offset, Linked, SectorTable, CodeLoaded, Peek;
    Addresses(x);
    LoadedByte(m, x.g, x.g.hole);
  }

  /** Pushing CX on a stack whose top is 0x7A00. */
  lemma CountPushed(m: Machine, g: Image, k: nat) returns (n: Machine)
    requires Ready(m, g, k) && Meaning(g.items[k], 0, 0) == Some(Push(CX)) && Names(g.items, g.origin, k, 0, 0)
    requires m.regs[SP] == 0x7A00 && m.segs[SS] == 0 && 0x7A00 <= g.origin
    ensures Step(m) == Some(n) && n.Valid() && CodeLoaded(n, g.code, g.origin, g.hole, g.v)
    ensures n == m.(regs := m.regs[SP := 0x79FE], mem := Splice(m.mem, 0x79FE, Le16(m.regs[CX])),
                    ip := g.origin + Offset(g.items, k + 1))
  {
    hide Linked, CodeLoaded, Offset, Step, Splice, Le16, Meaning, Names;
    n := Do(m, g, k, Push(CX), 0, 0);
    CodeKept(m, g.code, g.origin, g.hole, g.v, 0x79FE, Le16(m.regs[CX]));
    SameMemory(m.(mem := n.mem), n, g);
  }

  /** The loop's first instruction saves CX below the stack top. */
  lemma SaveCount(m: Machine, x: Run2) returns (n: Machine)
    requires Setting(x) && InLoop(m, x, 16) && m.regs[SP] == 0x7A00
    ensures Reaches(m, n, 1) && InLoop(n, x, 17) && n.mem == Splice(m.mem, 0x79FE, Le16(m.regs[CX]))
    ensures n.regs == m.regs[SP := 0x79FE]
  {
    hide Linked, CodeLoaded, Offset, Step, Stage2Program, Splice, Le16;
    LoopItemsOf(x);
    LoopReady(m, x, 16);
    n := CountPushed(m, x.g, 16);
    ReachesHere(m);
    Then(m, m, n, 0);
  }

  lemma ByteLoads(target: nat, d: int)
    ensures forall r: Reg8, b: byte ::
              Meaning(MovRegImm8(r, b), 0, 0) == Some(MovImm8(r, b)) && Operand(MovRegImm8(r, b)).None?
    ensures forall r: Reg8, o: byte | o < 128 ::
              Meaning(MovReg8FromSiOffset(r, o), 0, 0) == Some(LoadSi8(r, o))
              && Operand(MovReg8FromSiOffset(r, o)).None?
    ensures forall r: Reg8, name: string ::
              Meaning(MovReg8FromMem8Absolute(r, name), target, d) == Some(Load8(r, target % 65536))
              && Operand(MovReg8FromMem8Absolute(r, name)) == Some(Reference(Absolute16, name))
  {
    PlainMeanings();
    LabelledMeanings(target, d);
  }

  /** What the loop's byte loads mean. */
  lemma LoadMeanings(x: Run2, target: nat, d: int)
    requires Setting(x)
    ensures var p := x.g.items; (
      && Meaning(p[17], 0, 0) == Some(MovImm8(AH, 2)) && Operand(p[17]).None?
      && Meaning(p[18], 0, 0) == Some(MovImm8(AL, 1)) && Operand(p[18]).None?
      && Meaning(p[19], 0, 0) == Some(LoadSi8(CH, 0)) && Operand(p[19]).None?
      && Meaning(p[20], 0, 0) == Some(LoadSi8(DH, 1)) && Operand(p[20]).None?
      && Meaning(p[21], 0, 0) == Some(LoadSi8(CL, 2)) && Operand(p[21]).None?
      && Meaning(p[22], target, d) == Some(Load8(DL, target % 65536))
      && Operand(p[22]) == Some(Reference(Absolute16, "boot_drive")))
  {
    LoopItemsOf(x);
    hide Setting, Meaning, Operand;
    ByteLoads(target, d);
  }

  /** The fixed half of a request: read one sector from the boot drive. */
  lemma LoadFunction(m: Machine, s: Machine, x: Run2) returns (r: Machine)
    requires Setting(x) && InLoop(s, x, 17) && m.Valid() && Reaches(m, s, 1)
    ensures Reaches(m, r, 3) && InLoop(r, x, 19) && r.mem == s.mem && Get8(r, AH) == 2 && Get8(r, AL) == 1
    ensures r.regs[SI] == s.regs[SI] && r.regs[BX] == s.regs[BX] && r.regs[SP] == s.regs[SP]
  {
    hide Get8, Setting, InLoop, Reaches, Displacement, Meaning, Operand;
    LoadMeanings(x, 0, 0);
    r := LoadByte(m, s, 1, x, 17, MovImm8(AH, 2), AH, 2, 0, 0);
    r := LoadByte(m, r, 2, x, 18, MovImm8(AL, 1), AL, 1, 0, 0);
  }

  /** The half that comes from the sector table, and the drive. */
  lemma LoadPlace(m: Machine, s: Machine, x: Run2, i: nat) returns (r: Machine)
    requires Setting(x) && i < x.count && |x.table| == 3 * x.count && InLoop(s, x, 19) && m.Valid() && Reaches(m, s, 3)
    requires s.regs[SI] as int + 3 < 65536 && Peek(s, s.regs[SI]) == x.table[3 * i]
    requires Peek(s, s.regs[SI] + 1) == x.table[3 * i + 1]
    requires Peek(s, s.regs[SI] + 2) == x.table[3 * i + 2] && Peek(s, x.g.origin + x.g.hole) == x.board.drive
    requires x.g.origin + x.g.hole < 65536
    requires Get8(s, AH) == 2 && Get8(s, AL) == 1
    ensures Reaches(m, r, 7) && InLoop(r, x, 23) && r.mem == s.mem
    ensures Get8(r, AH) == 2 && Get8(r, AL) == 1 && Get8(r, DL) == x.board.drive
    ensures Get8(r, CH) == x.table[3 * i] && Get8(r, DH) == x.table[3 * i + 1] && Get8(r, CL) == x.table[3 * i + 2]
    ensures r.regs[SI] == s.regs[SI] && r.regs[BX] == s.regs[BX] && r.regs[SP] == s.regs[SP]
  {
    hide Get8, Setting, InLoop, Reaches, Displacement, Meaning, Operand;
    LoadMeanings(x, 0, 0);
    r := LoadByte(m, s, 3, x, 19, LoadSi8(CH, 0), CH, x.table[3 * i], 0, 0);
    r := LoadByte(m, r, 4, x, 20, LoadSi8(DH, 1), DH, x.table[3 * i + 1], 0, 0);
    r := LoadByte(m, r, 5, x, 21, LoadSi8(CL, 2), CL, x.table[3 * i + 2], 0, 0);
    r := LoadDrive(m, r, x);
  }

  lemma LoadDrive(m: Machine, s: Machine, x: Run2) returns (r: Machine)
    requires Setting(x) && InLoop(s, x, 22) && m.Valid() && Reaches(m, s, 6)
    requires Peek(s, x.g.origin + x.g.hole) == x.board.drive && x.g.origin + x.g.hole < 65536
    ensures Reaches(m, r, 7) && InLoop(r, x, 23) && r.mem == s.mem && Get8(r, DL) == x.board.drive
    ensures forall q: Reg8 :: q != DL ==> Get8(r, q) == Get8(s, q)
    ensures r.regs[SI] == s.regs[SI] && r.regs[BX] == s.regs[BX] && r.regs[SP] == s.regs[SP]
  {
    hide Get8, Setting, InLoop, Reaches, Displacement, Meaning, Operand;
    LoadMeanings(x, 0, 0);
    var target, d := Named(x, 22);
    LoadMeanings(x, target, d);
    r := LoadByte(m, s, 6, x, 22, Load8(DL, target % 65536), DL, x.board.drive, target, d);
  }

  /** The byte loads of a round: from the saved count to a complete disk request. */
  lemma LoadRegisters(m: Machine, x: Run2, i: nat) returns (r: Machine)
    requires Setting(x) && i < x.count && InLoop(m, x, 16) && Round(m, x, i)
    ensures Reaches(m, r, 7) && InLoop(r, x, 23) && |x.table| == 3 * x.count
    ensures r.mem == Splice(m.mem, 0x79FE, Le16(m.regs[CX]))
    ensures Get8(r, AH) == 2 && Get8(r, AL) == 1 && Get8(r, DL) == x.board.drive
    ensures Get8(r, CH) == x.table[3 * i] && Get8(r, DH) == x.table[3 * i + 1] && Get8(r, CL) == x.table[3 * i + 2]
    ensures r.regs[SI] == m.regs[SI] && r.regs[BX] == m.regs[BX] && r.regs[SP] == 0x79FE
  {
    hide Get8, Splice, Setting, InLoop, Le16, Round, Reaches, TableAddress;
    RoundFacts(m, x, i);
    var s := SaveCount(m, x);
    forall a: nat | 0x8000 <= a < MemorySize ensures Peek(s, a) == Peek(m, a) {
      SpliceAt(m.mem, 0x79FE, Le16(m.regs[CX]), a);
    }
    r := LoadFunction(m, s, x);
    r := LoadPlace(m, r, x, i);
  }

  /** The `i`-th sector of the image on disk. */
  function SectorOf(x: Run2, i: nat): (b: seq<byte>)
    requires 512 * (x.start + i + 1) <= |x.disk|
    ensures |b| == 512
  {
    x.disk[512 * (x.start + i)..512 * (x.start + i + 1)]
  }

  /** The disk request of round `i` succeeds: the sector arrives behind the earlier ones. */
  lemma Request(m: Machine, x: Run2, i: nat)
    requires Setting(x) && i < x.count && |x.table| == 3 * x.count
    requires m.Valid() && m.segs == [ImageBufferSegment, 0, 0, 0] && m.disk == x.disk && m.board == x.board
    requires Get8(m, AH) == 2 && Get8(m, AL) == 1 && Get8(m, DL) == x.board.drive && m.regs[BX] == 512 * i
    requires Get8(m, CH) == x.table[3 * i] && Get8(m, DH) == x.table[3 * i + 1] && Get8(m, CL) == x.table[3 * i + 2]
    requires Readable(x.board, x.start + i, 1)
    ensures var n := ReadSectors(m);
            && n.Valid()
            && n == m.(mem := Splice(m.mem, ImageAddress + 512 * i, SectorOf(x, i)), regs := n.regs, carry := false)
            && n.regs[SI] == m.regs[SI] && n.regs[SP] == m.regs[SP] && n.regs[BX] == m.regs[BX]
  {
    hide Splice, Get8, Set8, SectorTable, CodeLoaded, Linked, Stage2Program;
    TableEntry(x.start, x.count, i);
    ChsInverse(x.start + i);
    var c, h, s := Get8(m, CH) as int, Get8(m, DH) as int, Get8(m, CL) as int;
    var lba := x.start + i;
    assert (c * 2 + h) * 18 + s - 1 == lba && 1 <= s <= 18 && h < 2 && s / 64 == 0 && s % 64 == s;
    var next := m.(mem := Splice(m.mem, ImageAddress + 512 * i, x.disk[lba * 512..(lba + 1) * 512]), carry := false);
    Set8Keeps(next, AH, 0);
    assert ReadSectors(m) == Set8(next, AH, 0);
  }

  lemma TailMeanings(x: Run2, target: nat, d: int)
    requires Setting(x)
    ensures var p := x.g.items; (
      && Meaning(p[23], 0, 0) == Some(Interrupt(0x13)) && Operand(p[23]).None?
      && Meaning(p[24], target, d) == Some(JumpCarry(d)) && Operand(p[24]).Some?
      && Meaning(p[25], 0, 0) == Some(AddImm16(SI, 3)) && Operand(p[25]).None?
      && Meaning(p[26], 0, 0) == Some(AddImm16(BX, 512)) && Operand(p[26]).None?
      && Meaning(p[27], 0, 0) == Some(Pop(CX)) && Operand(p[27]).None?
      && Meaning(p[28], target, d) == Some(Loop(d)) && Operand(p[28]) == Some(Reference(Relative8, "read_loop")))
  {
    LoopItemsOf(x);
    hide Setting, Meaning, Operand;
    PlainMeanings();
    LabelledMeanings(target, d);
  }

  /** The disk call. */
  lemma CallDisk(m: Machine, x: Run2, i: nat) returns (n: Machine)
    requires Setting(x) && i < x.count && InLoop(m, x, 23) && |x.table| == 3 * x.count
    requires Get8(m, AH) == 2 && Get8(m, AL) == 1 && Get8(m, DL) == x.board.drive && m.regs[BX] == 512 * i
    requires Get8(m, CH) == x.table[3 * i] && Get8(m, DH) == x.table[3 * i + 1] && Get8(m, CL) == x.table[3 * i + 2]
    requires Readable(x.board, x.start + i, 1)
    ensures Step(m) == Some(n) && InLoop(n, x, 24) && !n.carry
    ensures n.mem == Splice(m.mem, ImageAddress + 512 * i, SectorOf(x, i))
    ensures n.regs[SI] == m.regs[SI] && n.regs[SP] == m.regs[SP] && n.regs[BX] == m.regs[BX]
  {
    hide Linked, CodeLoaded, Offset, Step, Stage2Program, Get8, Splice, Labels, Displacement, Meaning, Operand,
         ReadSectors, Names, SectorOf, SectorTable;
    TailMeanings(x, 0, 0);
    LoopReady(m, x, 23);
    NamesNothing(x.g.items, x.g.origin, 23);
    StepItem(m, x.g.code, x.g.items, x.g.origin, x.g.hole, x.g.v, 23, 0, 0);
    var next := m.(ip := x.g.origin + Offset(x.g.items, 24));
    forall q: Reg8 ensures Get8(next, q) == Get8(m, q) { GetFromRegs(next, m, q); }
    Request(next, x, i);
    n := ReadSectors(next);
    Addresses(x);
    CodeKept(m, x.g.code, x.g.origin, x.g.hole, x.g.v, ImageAddress + 512 * i, SectorOf(x, i));
    SameMemory(m.(mem := n.mem), n, x.g);
  }

  /** The check of the carry flag, which is clear. */
  lemma PassCheck(m: Machine, x: Run2) returns (n: Machine)
    requires Setting(x) && InLoop(m, x, 24) && !m.carry
    ensures Step(m) == Some(n) && InLoop(n, x, 25) && n == m.(ip := n.ip)
  {
    hide Linked, CodeLoaded, Offset, Step, Stage2Program, Splice, Setting, Labels, Displacement, Meaning, Operand,
         Names;
    TailMeanings(x, 0, 0);
    var target, d := Named(x, 24);
    TailMeanings(x, target, d);
    LoopReady(m, x, 24);
    StepItem(m, x.g.code, x.g.items, x.g.origin, x.g.hole, x.g.v, 24, target, d);
    n := m.(ip := x.g.origin + Offset(x.g.items, 25));
    SameMemory(m, n, x.g);
  }

  /** The word at the loop's stack slot. */
  ghost predicate Saved(m: Machine, c: Word) {
    |m.mem| == MemorySize && Read16(m.mem, 0x79FE) == c
  }

  /** Advancing the table and buffer pointers. */
  lemma NextPointers(m: Machine, x: Run2) returns (r: Machine, n: Machine)
    requires Setting(x) && InLoop(m, x, 25)
    ensures Step(m) == Some(r) && r.Valid() && Step(r) == Some(n) && InLoop(n, x, 27) && n.mem == m.mem
    ensures n.regs[SI] == (m.regs[SI] as int + 3) % 65536 && n.regs[BX] == (m.regs[BX] as int + 512) % 65536
    ensures n.regs[SP] == m.regs[SP]
  {
    hide Linked, CodeLoaded, Offset, Step, Stage2Program, Setting, Meaning, Operand, Names;
    TailMeanings(x, 0, 0);
    NamesNothing(x.g.items, x.g.origin, 25);
    NamesNothing(x.g.items, x.g.origin, 26);
    LoopReady(m, x, 25);
    r := Do(m, x.g, 25, AddImm16(SI, 3), 0, 0);
    SameMemory(m, r, x.g);
    LoopReady(r, x, 26);
    n := Do(r, x.g, 26, AddImm16(BX, 512), 0, 0);
    SameMemory(r, n, x.g);
  }

  /** Taking the count back off the stack. */
  lemma TakeCount(m: Machine, x: Run2, c: Word) returns (n: Machine)
    requires Setting(x) && InLoop(m, x, 27) && m.regs[SP] == 0x79FE && Saved(m, c)
    ensures Step(m) == Some(n) && InLoop(n, x, 28)
    ensures n == m.(ip := n.ip, regs := m.regs[SP := 0x7A00][CX := c])
  {
    hide Linked, CodeLoaded, Offset, Step, Stage2Program, Setting, Meaning, Operand, Names, Read16;
    TailMeanings(x, 0, 0);
    NamesNothing(x.g.items, x.g.origin, 27);
    LoopReady(m, x, 27);
    n := Do(m, x.g, 27, Pop(CX), 0, 0);
    SameMemory(m, n, x.g);
  }

  /** The closing LOOP: back to the top while the count lasts, then on. */
  lemma CloseLoop(m: Machine, x: Run2) returns (n: Machine)
    requires Setting(x) && InLoop(m, x, 28) && m.regs[CX] >= 1
    ensures Step(m) == Some(n) && InLoop(n, x, if m.regs[CX] == 1 then 29 else 16)
    ensures n == m.(ip := n.ip, regs := m.regs[CX := m.regs[CX] - 1])
  {
    hide Linked, CodeLoaded, Step, Stage2Program, Setting, Labels, Meaning, Operand, Names, Offset, Displacement,
         OperandPosition;
    TailMeanings(x, 0, 0);
    var target, d := Named(x, 28);
    TailMeanings(x, target, d);
    LoopReady(m, x, 28);
    StepItem(m, x.g.code, x.g.items, x.g.origin, x.g.hole, x.g.v, 28, target, d);
    LoopEnds(x);
    LoopTarget(x, target, d);
    var w := Width(x.g.items[28], Offset(x.g.items, 28));
    n := m.(ip := if m.regs[CX] == 1 then x.g.origin + Offset(x.g.items, 29) else target,
            regs := m.regs[CX := m.regs[CX] - 1]);
    LoopExecutes(m, d, w, n);
    SameMemory(m, n, x.g);
  }

  lemma LoopExecutes(m: Machine, d: int, w: nat, n: Machine)
    requires m.Valid() && m.regs[CX] >= 1 && 0 <= m.ip + w + d < 65536 && m.ip + w < 65536
    requires n == m.(ip := if m.regs[CX] == 1 then m.ip + w else m.ip + w + d, regs := m.regs[CX := m.regs[CX] - 1])
    ensures Execute(m, Loop(d), w) == Some(n)
  {
  }

  lemma LoopTarget(x: Run2, target: nat, d: int)
    requires Setting(x) && target == x.g.origin + Offset(x.g.items, 15)
    requires d == Displacement(target, OperandPosition(x.g.items, 28), 1, x.g.origin)
    ensures x.g.origin + Offset(x.g.items, 29) + d == target
  {
    hide Setting, Offset, OperandPosition;
    LoopEnds(x);
  }

  lemma LoopEnds(x: Run2)
    requires Setting(x)
    ensures Offset(x.g.items, 16) == Offset(x.g.items, 15) < 65536 - x.g.origin
    ensures OperandPosition(x.g.items, 28) + 1 == Offset(x.g.items, 29)
    ensures Width(x.g.items[28], Offset(x.g.items, 28)) == 2
  {
    hide Setting, Linked;
    LoopItemsOf(x);
    OffsetNext(x.g.items, 15);
    OffsetNext(x.g.items, 28);
    hide Offset;
    LoopTop(x);
  }

  lemma LoopTop(x: Run2)
    requires Setting(x)
    ensures Offset(x.g.items, 15) < 65536 - x.g.origin
  {
    hide Linked, Stage2Program;
    Addresses(x);
  }

  lemma NamesNothing(program: seq<Instr>, origin: nat, k: nat)
    requires k < |program| && Operand(program[k]).None?
    ensures Names(program, origin, k, 0, 0)
  {
  }

  // ---- the whole loop ----

  /** Memory after a round: the pushed count and the sector change nothing else. */
  lemma RoundMemory(m: Machine, n: Machine, x: Run2, i: nat, c: Word)
    requires Setting(x) && i < x.count && Round(m, x, i)
    requires |n.mem| == MemorySize
    requires n.mem == Splice(Splice(m.mem, 0x79FE, Le16(c)), ImageAddress + 512 * i, SectorOf(x, i))
    ensures Saved(n, c)
    ensures n.mem[ImageAddress..ImageAddress + 512 * (i + 1)] == x.disk[512 * x.start..512 * (x.start + (i + 1))]
  {
    hide Linked, CodeLoaded, Stage2Program, SectorTable, Offset, TableAddress, Splice, Le16;
    var s := Splice(m.mem, 0x79FE, Le16(c));
    var to := ImageAddress + 512 * i;
    SpliceRead(m.mem, 0x79FE, Le16(c));
    SpliceFrame(s, to, SectorOf(x, i), 0x79FE, 0x7A00);
    SpliceFrame(m.mem, 0x79FE, Le16(c), ImageAddress, to);
    SpliceFrame(s, to, SectorOf(x, i), ImageAddress, to);
    SpliceRead(s, to, SectorOf(x, i));
    assert n.mem[0x79FE..0x7A00] == Le16(c);
    StackWord(n.mem, c);
    SliceJoin(n.mem, ImageAddress, to, to + 512);
    SliceJoin(x.disk, 512 * x.start, 512 * (x.start + i), 512 * (x.start + i + 1));
  }

  lemma StackWord(mem: seq<byte>, c: Word)
    requires |mem| == MemorySize && mem[0x79FE..0x7A00] == Le16(c)
    ensures Read16(mem, 0x79FE) == c
  {
    assert mem[0x79FE] == mem[0x79FE..0x7A00][0] && mem[0x79FF] == mem[0x79FE..0x7A00][1];
    HalfSplits(c);
  }

  /** One round: the next sector is in place and the count is one less. */
  lemma OneRound(m: Machine, x: Run2, i: nat) returns (n: Machine)
    requires Setting(x) && i < x.count && InLoop(m, x, 16) && Round(m, x, i) && m.regs[CX] == x.count - i
    requires Readable(x.board, x.start + i, 1)
    ensures Reaches(m, n, 13) && Round(n, x, i + 1) && n.regs[CX] == x.count - (i + 1)
    ensures InLoop(n, x, if i + 1 == x.count then 29 else 16)
  {
    hide Linked, CodeLoaded, Step, Stage2Program, Setting, Get8, Offset, Splice, SectorOf, Le16, Reaches, Round,
         InLoop, Saved, TableAddress, Readable;
    RoundFacts(m, x, i);
    var m7 := LoadRegisters(m, x, i);
    var m8 := CallDisk(m7, x, i);
    Then(m, m7, m8, 7);
    var m9 := PassCheck(m8, x);
    Then(m, m8, m9, 8);
    var m10, m11 := NextPointers(m9, x);
    Then(m, m9, m10, 9);
    Then(m, m10, m11, 10);
    RoundMemory(m, m11, x, i, m.regs[CX]);
    var m12 := TakeCount(m11, x, m.regs[CX]);
    Then(m, m11, m12, 11);
    n := CloseLoop(m12, x);
    Then(m, m12, n, 12);
    RoundHolds(n, x, i + 1, if i + 1 == x.count then 29 else 16);
  }

  lemma RoundHolds(n: Machine, x: Run2, i: nat, k: nat)
    requires Setting(x) && i <= x.count && k <= 29 && InLoop(n, x, k)
    requires n.regs[SP] == 0x7A00 && n.regs[SI] == TableAddress(x) + 3 * i && n.regs[BX] == 512 * i % 65536
    requires n.mem[ImageAddress..ImageAddress + 512 * i] == x.disk[512 * x.start..512 * (x.start + i)]
    ensures Round(n, x, i)
  {
  }

  /** The loop runs on as long as the sectors can be read, each arriving behind the earlier ones. */
  lemma {:induction false} RunLoop(m: Machine, x: Run2, i: nat, j: nat) returns (n: Machine, steps: nat)
    requires Setting(x) && i < j <= x.count && InLoop(m, x, 16) && Round(m, x, i) && m.regs[CX] == x.count - i
    requires Readable(x.board, x.start + i, j - i)
    ensures Reaches(m, n, steps) && InLoop(n, x, if j == x.count then 29 else 16) && Round(n, x, j)
    ensures n.regs[CX] == x.count - j
    decreases j - i
  {
    hide InLoop, Round, Setting, Step;
    n := OneRound(m, x, i);
    steps := 13;
    if i + 1 < j {
      var mid, more := n, 0;
      n, more := RunLoop(mid, x, i + 1, j);
      ReachesTransitive(m, mid, n, 13, more);
      steps := 13 + more;
    }
  }
}
