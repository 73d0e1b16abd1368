/** The machine behind stage 2's loop: video mode, palette, the copy to the screen, and the halt. */
module BootShow {
  import opened Bytes
  import opened Splices
  import opened Assembler16
  import opened BootMachine
  import opened BootChain
  import opened BootRun

  const PaletteBytes := 768
  const PictureAddress := ImageAddress + PaletteBytes
  const PaletteIndexPort: Word := 0x03C8
  const PaletteDataPort: Word := 0x03C9

  // ---- the items ----

  lemma FirstShowItems(n: Word, t: seq<byte>)
    ensures var p := Stage2Program(n, t); (
      && |p| == 74 && p[29] == MovRegImm16(AX, 0x0013) && p[30] == Int(0x10)
      && p[31] == MovRegImm16(AX, ImageBufferSegment) && p[32] == MovSegmentFromReg(DS, AX))
  {
    Stage2Middle(n, t);
    hide Stage2Program, Stage2Failure;
    var p, q := Stage2Program(n, t), ShowImage();
    assert p[29 + 0] == q[0] && p[29 + 1] == q[1] && p[29 + 2] == q[2] && p[29 + 3] == q[3];
  }

  lemma NextShowItems(n: Word, t: seq<byte>)
    ensures var p := Stage2Program(n, t); (
      && |p| == 74 && p[33] == XorRegWithSelf(SI) && p[34] == MovRegImm16(DX, PaletteIndexPort)
      && p[35] == MovRegImm8(AL, 0x00) && p[36] == OutDxAl && p[37] == IncReg(DX) && p[38] == MovRegImm16(CX, 768))
  {
    Stage2Middle(n, t);
    hide Stage2Program, Stage2Failure;
    var p, q := Stage2Program(n, t), ShowImage();
    assert p[29 + 4] == q[4] && p[29 + 5] == q[5] && p[29 + 6] == q[6] && p[29 + 7] == q[7];
    assert p[29 + 8] == q[8] && p[29 + 9] == q[9];
  }

  lemma LastShowItems(n: Word, t: seq<byte>)
    ensures var p := Stage2Program(n, t); (
      && |p| == 74 && p[39] == MarkLabel("palette_loop") && p[40] == Lodsb && p[41] == OutDxAl
      && p[42] == LoopShort("palette_loop") && p[43] == MovRegImm16(SI, 0x0300) && p[44] == MovRegImm16(AX, 0xA000)
      && p[45] == MovSegmentFromReg(ES, AX) && p[46] == XorRegWithSelf(DI) && p[47] == MovRegImm16(CX, 32000)
      && p[48] == RepMovsw && p[49] == MarkLabel("halt") && p[50] == Hlt)
  {
    Stage2Middle(n, t);
    hide Stage2Program, Stage2Failure;
    var p, q := Stage2Program(n, t), ShowImage();
    assert p[29 + 10] == q[10] && p[29 + 11] == q[11] && p[29 + 12] == q[12] && p[29 + 13] == q[13];
    assert p[29 + 14] == q[14] && p[29 + 15] == q[15] && p[29 + 16] == q[16] && p[29 + 17] == q[17];
    assert p[29 + 18] == q[18] && p[29 + 19] == q[19] && p[29 + 20] == q[20] && p[29 + 21] == q[21];
  }

  lemma ModeItems(x: Run2)
    requires Setting(x)
    ensures var p := x.g.items; (
      && p[29] == MovRegImm16(AX, 0x0013) && p[30] == Int(0x10)
      && p[31] == MovRegImm16(AX, ImageBufferSegment) && p[32] == MovSegmentFromReg(DS, AX))
  {
    FirstShowItems(x.count, x.table);
    hide Stage2Program, Linked;
  }

  lemma IndexItems(x: Run2)
    requires Setting(x)
    ensures var p := x.g.items; (
      && p[33] == XorRegWithSelf(SI) && p[34] == MovRegImm16(DX, PaletteIndexPort) && p[35] == MovRegImm8(AL, 0x00)
      && p[36] == OutDxAl && p[37] == IncReg(DX) && p[38] == MovRegImm16(CX, 768))
  {
    NextShowItems(x.count, x.table);
    hide Stage2Program, Linked;
  }

  lemma ColourItems(x: Run2)
    requires Setting(x)
    ensures var p := x.g.items; (
      && p[39].MarkLabel? && p[40] == Lodsb && p[41] == OutDxAl && p[42] == LoopShort("palette_loop"))
  {
    LastShowItems(x.count, x.table);
    hide Stage2Program, Linked;
  }

  lemma PictureItems(x: Run2)
    requires Setting(x)
    ensures var p := x.g.items; (
      && p[43] == MovRegImm16(SI, 0x0300) && p[44] == MovRegImm16(AX, 0xA000) && p[45] == MovSegmentFromReg(ES, AX)
      && p[46] == XorRegWithSelf(DI) && p[47] == MovRegImm16(CX, 32000))
  {
    LastShowItems(x.count, x.table);
    hide Stage2Program, Linked;
  }

  lemma LastItems(x: Run2)
    requires Setting(x)
    ensures var p := x.g.items; (
      && p[48] == RepMovsw && p[49].MarkLabel? && p[50] == Hlt)
  {
    LastShowItems(x.count, x.table);
    hide Stage2Program, Linked;
  }

  // ---- single steps ----

  /** At item `k` behind the loop. */
  ghost predicate Showing(m: Machine, x: Run2, k: nat)
    requires Setting(x) && k <= 51
    ensures Showing(m, x, k) ==> m.Valid() && m.segs[CS] == 0 && !m.down
  {
    At(m, x.g.items, x.g.origin, k) && CodeLoaded(m, x.g.code, x.g.origin, x.g.hole, x.g.v) && !m.down
  }

  lemma ShowReady(m: Machine, x: Run2, k: nat)
    requires Setting(x) && k < 51 && Showing(m, x, k)
    ensures Ready(m, x.g, k) && x.g.origin + Offset(x.g.items, k + 1) < 65536
  {
    hide CodeLoaded, Linked, Offset, Stage2Program;
    Addresses(x);
  }

  /** The instruction changes neither memory, the flow of control nor the direction. */
  ghost predicate Plain(m: Machine, op: Op)
    requires m.Valid()
    ensures Plain(m, op) ==> Straight(op) && Effect(m, op).Some?
  {
    Straight(op)
    && match Effect(m, op)
       case Some(n) => n.mem == m.mem && n.segs[CS] == 0 && !n.down
       case None => false
  }

  /** One plain step. */
  lemma Play(a: Machine, m: Machine, c: nat, x: Run2, k: nat, op: Op) returns (n: Machine)
    requires Setting(x) && k < 51 && Showing(m, x, k) && a.Valid() && Reaches(a, m, c)
    requires Operand(x.g.items[k]).None? && Meaning(x.g.items[k], 0, 0) == Some(op) && Plain(m, op)
    ensures Reaches(a, n, c + 1) && Showing(n, x, k + 1) && n == Effect(m, op).value.(ip := n.ip)
  {
    hide Meaning, Operand, Linked, CodeLoaded, Names, Offset, Step, Reaches, Effect, Setting;
    ShowReady(m, x, k);
    NamesNothing(x.g.items, x.g.origin, k);
    n := Do(m, x.g, k, op, 0, 0);
    Then(a, m, n, c);
    SameMemory(m, n, x.g);
  }

  /** Nothing but registers and flags differs. */
  ghost predicate Still(m: Machine, n: Machine) {
    n.segs == m.segs && n.mem == m.mem && n.board == m.board
  }

  lemma PlayWord(a: Machine, m: Machine, c: nat, x: Run2, k: nat, r: Reg16, v: Word) returns (n: Machine)
    requires Setting(x) && k < 51 && Showing(m, x, k) && a.Valid() && Reaches(a, m, c)
    requires x.g.items[k] == MovRegImm16(r, v)
    ensures Reaches(a, n, c + 1) && Showing(n, x, k + 1) && Still(m, n) && n.regs == m.regs[r := v]
  {
    hide Setting, Showing, Reaches;
    n := Play(a, m, c, x, k, MovImm16(r, v));
  }

  lemma PlayZero(a: Machine, m: Machine, c: nat, x: Run2, k: nat, r: Reg16) returns (n: Machine)
    requires Setting(x) && k < 51 && Showing(m, x, k) && a.Valid() && Reaches(a, m, c)
    requires x.g.items[k] == XorRegWithSelf(r)
    ensures Reaches(a, n, c + 1) && Showing(n, x, k + 1)
    ensures Still(m, n) && n.regs == m.regs[r := 0]
  {
    hide Setting, Showing, Reaches;
    n := Play(a, m, c, x, k, XorSelf(r));
  }

  lemma PlaySegment(a: Machine, m: Machine, c: nat, x: Run2, k: nat, s: SegmentReg, r: Reg16) returns (n: Machine)
    requires Setting(x) && k < 51 && Showing(m, x, k) && a.Valid() && Reaches(a, m, c)
    requires x.g.items[k] == MovSegmentFromReg(s, r) && s != CS
    ensures Reaches(a, n, c + 1) && Showing(n, x, k + 1)
    ensures n.segs == m.segs[s := m.regs[r]] && n.regs == m.regs && n.mem == m.mem && n.board == m.board
  {
    hide Setting, Showing, Reaches;
    n := Play(a, m, c, x, k, MovSeg(s, r));
  }

  /** One byte more has been written to a port. */
  ghost predicate Wrote(m: Machine, n: Machine, port: Word, b: byte) {
    n.board == m.board.(ports := m.board.ports + [(port, b)])
  }

  /** OUT sends AL to the port in DX. */
  lemma PlayOut(a: Machine, m: Machine, c: nat, x: Run2, k: nat) returns (n: Machine)
    requires Setting(x) && k < 51 && Showing(m, x, k) && a.Valid() && Reaches(a, m, c) && x.g.items[k] == OutDxAl
    ensures Reaches(a, n, c + 1) && Showing(n, x, k + 1)
    ensures n.segs == m.segs && n.regs == m.regs && n.mem == m.mem && Wrote(m, n, m.regs[DX], Get8(m, AL))
  {
    hide Setting, Showing, Reaches, Get8;
    n := Play(a, m, c, x, k, OutByte);
  }

  lemma PlayIncrement(a: Machine, m: Machine, c: nat, x: Run2, k: nat, r: Reg16) returns (n: Machine)
    requires Setting(x) && k < 51 && Showing(m, x, k) && a.Valid() && Reaches(a, m, c) && x.g.items[k] == IncReg(r)
    requires m.regs[r] < 65535
    ensures Reaches(a, n, c + 1) && Showing(n, x, k + 1)
    ensures Still(m, n) && n.regs == m.regs[r := m.regs[r] + 1]
  {
    hide Setting, Showing, Reaches;
    n := Play(a, m, c, x, k, Increment(r));
  }

  lemma PlayClearAl(a: Machine, m: Machine, c: nat, x: Run2, k: nat) returns (n: Machine)
    requires Setting(x) && k < 51 && Showing(m, x, k) && a.Valid() && Reaches(a, m, c)
    requires x.g.items[k] == MovRegImm8(AL, 0x00)
    ensures Reaches(a, n, c + 1) && Showing(n, x, k + 1) && Still(m, n)
    ensures Get8(n, AL) == 0 && forall r | 0 < r < 8 :: n.regs[r] == m.regs[r]
  {
    hide Setting, Showing, Reaches, Get8, Set8;
    Set8Keeps(m, AL, 0);
    SetGet8(m, AL, 0, AL);
    n := Play(a, m, c, x, k, MovImm8(AL, 0));
    GetFromRegs(n, Set8(m, AL, 0), AL);
  }

  /** LODSB takes the byte at DS:SI and moves SI on. */
  lemma PlayLoad(a: Machine, m: Machine, c: nat, x: Run2, k: nat) returns (n: Machine)
    requires Setting(x) && k < 51 && Showing(m, x, k) && a.Valid() && Reaches(a, m, c) && x.g.items[k] == Lodsb
    requires m.regs[SI] < 65535
    ensures Reaches(a, n, c + 1) && Showing(n, x, k + 1) && Still(m, n)
    ensures Get8(n, AL) == m.mem[Linear(m.segs[DS], m.regs[SI])] && n.regs[SI] as int == m.regs[SI] as int + 1
    ensures n.regs[CX] == m.regs[CX] && n.regs[DX] == m.regs[DX]
  {
    hide Setting, Showing, Reaches;
    var b := m.mem[Linear(m.segs[DS], m.regs[SI])];
    Set8Keeps(m, AL, b);
    SetGet8(m, AL, b, AL);
    hide Set8;
    n := Play(a, m, c, x, k, LoadString8);
  }

  /** A label takes no room. */
  lemma PlayLabel(m: Machine, x: Run2, k: nat)
    requires Setting(x) && k < 51 && Showing(m, x, k) && x.g.items[k].MarkLabel?
    ensures Showing(m, x, k + 1)
  {
    hide Setting, CodeLoaded, Linked;
    OffsetNext(x.g.items, k);
  }

  // ---- video mode and data segment ----

  /** Mode 13h is set and the screen is black. */
  ghost predicate Cleared(m: Machine, n: Machine)
    requires |m.mem| == MemorySize
  {
    n.mem == Splice(m.mem, ScreenAddress, Zeros(ScreenBytes)) && n.board == m.board.(mode := 0x13)
  }

  /** The BIOS call that sets mode 13h and clears the screen. */
  lemma CallVideo(m: Machine, x: Run2) returns (n: Machine)
    requires Setting(x) && Showing(m, x, 30) && m.regs[AX] == 0x0013
    ensures Step(m) == Some(n) && Showing(n, x, 31) && n.segs == m.segs && Cleared(m, n)
  {
    hide Setting, Linked, CodeLoaded, Offset, Step, Splice, Zeros, Meaning, Operand, Names, Execute, Get8, SetMode;
    ModeItems(x);
    ShowReady(m, x, 30);
    CallMeans(0x10);
    NamesNothing(x.g.items, x.g.origin, 30);
    StepItem(m, x.g.code, x.g.items, x.g.origin, x.g.hole, x.g.v, 30, 0, 0);
    n := VideoExecutes(m, Width(x.g.items[30], Offset(x.g.items, 30)));
    ScreenApart(m, x);
    SameMemory(m.(mem := Splice(m.mem, ScreenAddress, Zeros(ScreenBytes))), n, x.g);
  }

  lemma CallMeans(n: byte)
    ensures Meaning(Int(n), 0, 0) == Some(Interrupt(n)) && Operand(Int(n)).None?
  {
  }

  lemma VideoExecutes(m: Machine, w: nat) returns (n: Machine)
    requires m.Valid() && m.regs[AX] == 0x0013 && m.ip + w < 65536
    ensures Execute(m, Interrupt(0x10), w) == Some(n) && n.Valid()
    ensures Cleared(m, n) && n.segs == m.segs && n.ip == m.ip + w && n.down == m.down
  {
    hide Splice, Zeros;
    n := SetMode(m.(ip := m.ip + w));
  }

  /** Clearing the screen leaves the program alone. */
  lemma ScreenApart(m: Machine, x: Run2)
    requires Setting(x) && CodeLoaded(m, x.g.code, x.g.origin, x.g.hole, x.g.v)
    ensures var after := m.(mem := Splice(m.mem, ScreenAddress, Zeros(ScreenBytes)));
            CodeLoaded(after, x.g.code, x.g.origin, x.g.hole, x.g.v)
  {
    hide Stage2Program, Offset, Linked, CodeLoaded, Splice, Zeros;
    Addresses(x);
    CodeKept(m, x.g.code, x.g.origin, x.g.hole, x.g.v, ScreenAddress, Zeros(ScreenBytes));
  }

  /** From the end of the loop to the picture's data segment. */
  lemma EnterMode(m: Machine, x: Run2) returns (n: Machine)
    requires Setting(x) && Showing(m, x, 29)
    ensures Reaches(m, n, 4) && Showing(n, x, 33) && n.segs == m.segs[DS := ImageBufferSegment] && Cleared(m, n)
  {
    hide Setting, Showing, Reaches, Splice, Zeros;
    ModeItems(x);
    n := SwitchVideo(m, x);
    n := PointData(m, n, x);
  }

  lemma SwitchVideo(m: Machine, x: Run2) returns (n: Machine)
    requires Setting(x) && Showing(m, x, 29) && x.g.items[29] == MovRegImm16(AX, 0x0013)
    ensures Reaches(m, n, 2) && Showing(n, x, 31) && n.segs == m.segs && Cleared(m, n)
  {
    ReachesHere(m);
    hide Setting, Showing, Reaches, Step, Splice, Zeros, Cleared;
    var a := PlayWord(m, m, 0, x, 29, AX, 0x0013);
    n := CallVideo(a, x);
    Then(m, a, n, 1);
  }

  lemma PointData(a: Machine, m: Machine, x: Run2) returns (n: Machine)
    requires Setting(x) && Showing(m, x, 31) && a.Valid() && Reaches(a, m, 2)
    requires x.g.items[31] == MovRegImm16(AX, ImageBufferSegment) && x.g.items[32] == MovSegmentFromReg(DS, AX)
    ensures Reaches(a, n, 4) && Showing(n, x, 33) && n.segs == m.segs[DS := ImageBufferSegment]
    ensures n.mem == m.mem && n.board == m.board
  {
    hide Setting, Showing, Reaches;
    n := PlayWord(a, m, 2, x, 31, AX, ImageBufferSegment);
    n := PlaySegment(a, n, 3, x, 32, DS, AX);
  }

  // ---- the palette ----

  /** The palette bytes sent so far: `n` bytes of memory from the image on, to the data port. */
  function Sent(mem: seq<byte>, n: nat): (r: seq<(Word, byte)>)
    requires ImageAddress + n <= |mem|
    ensures |r| == n
  {
    seq(n, j requires 0 <= j < n => (PaletteDataPort, mem[ImageAddress + j]))
  }

  lemma SentOneMore(mem: seq<byte>, n: nat)
    requires ImageAddress + n < |mem|
    ensures Sent(mem, n + 1) == Sent(mem, n) + [(PaletteDataPort, mem[ImageAddress + n])]
  {
  }

  /** `i` bytes of the palette have been sent since `start`. */
  ghost predicate Coloured(m: Machine, start: Machine, i: nat)
    requires |m.mem| == MemorySize && i <= PaletteBytes
  {
    && m.segs == start.segs && m.mem == start.mem
    && m.board == start.board.(ports := start.board.ports + Sent(m.mem, i))
  }

  /** Before byte `i` of the palette; `start` is the machine when the loop was entered. */
  ghost predicate Colouring(m: Machine, x: Run2, start: Machine, i: nat)
    requires Setting(x)
  {
    && Showing(m, x, 40) && i <= PaletteBytes && m.segs[DS] == ImageBufferSegment && Coloured(m, start, i)
    && m.regs[SI] == i && m.regs[DX] == PaletteDataPort && m.regs[CX] == PaletteBytes - i
  }

  /** Index 0 to the index port, then everything is ready for the data port. */
  lemma StartPalette(m: Machine, x: Run2) returns (n: Machine, start: Machine)
    requires Setting(x) && Showing(m, x, 33) && m.segs[DS] == ImageBufferSegment
    ensures Reaches(m, n, 6) && Colouring(n, x, start, 0)
    ensures start.segs == m.segs && start.mem == m.mem && Wrote(m, start, PaletteIndexPort, 0)
  {
    hide Setting, Showing, Reaches, Get8, Sent;
    IndexItems(x);
    ColourItems(x);
    start := SendIndex(m, x);
    n := PlayIncrement(m, start, 4, x, 37, DX);
    n := PlayWord(m, n, 5, x, 38, CX, 768);
    PlayLabel(n, x, 39);
    SentNone(start.board.ports, n.mem);
  }

  lemma SentNone(ports: seq<(Word, byte)>, mem: seq<byte>)
    requires ImageAddress <= |mem|
    ensures ports + Sent(mem, 0) == ports
  {
  }

  lemma SendIndex(m: Machine, x: Run2) returns (n: Machine)
    requires Setting(x) && Showing(m, x, 33)
    ensures Reaches(m, n, 4) && Showing(n, x, 37) && n.regs[SI] == 0 && n.regs[DX] == PaletteIndexPort
    ensures n.segs == m.segs && n.mem == m.mem && Wrote(m, n, PaletteIndexPort, 0)
  {
    hide Setting, Showing, Reaches, Get8;
    IndexItems(x);
    n := NamePort(m, x);
    n := PlayClearAl(m, n, 2, x, 35);
    n := PlayOut(m, n, 3, x, 36);
  }

  lemma NamePort(m: Machine, x: Run2) returns (n: Machine)
    requires Setting(x) && Showing(m, x, 33)
    requires x.g.items[33] == XorRegWithSelf(SI) && x.g.items[34] == MovRegImm16(DX, PaletteIndexPort)
    ensures Reaches(m, n, 2) && Showing(n, x, 35) && Still(m, n)
    ensures n.regs[SI] == 0 && n.regs[DX] == PaletteIndexPort
  {
    ReachesHere(m);
    hide Setting, Showing, Reaches;
    n := PlayZero(m, m, 0, x, 33, SI);
    n := PlayWord(m, n, 1, x, 34, DX, PaletteIndexPort);
  }

  /** The LOOP behind a palette byte: back to the label while the count lasts. */
  lemma PaletteBack(m: Machine, x: Run2) returns (n: Machine)
    requires Setting(x) && Showing(m, x, 42) && m.regs[CX] >= 1
    ensures Step(m) == Some(n) && Showing(n, x, if m.regs[CX] == 1 then 43 else 40)
    ensures Still(m, n) && n.regs == m.regs[CX := m.regs[CX] - 1]
  {
    hide Linked, CodeLoaded, Step, Stage2Program, Setting, Labels, Meaning, Operand, Names, Offset, Displacement,
         OperandPosition;
    var target, d := PaletteTarget(x);
    ShowReady(m, x, 42);
    StepItem(m, x.g.code, x.g.items, x.g.origin, x.g.hole, x.g.v, 42, target, d);
    var w := Width(x.g.items[42], Offset(x.g.items, 42));
    n := m.(ip := if m.regs[CX] == 1 then x.g.origin + Offset(x.g.items, 43) else target,
            regs := m.regs[CX := m.regs[CX] - 1]);
    LoopExecutes(m, d, w, n);
    SameMemory(m, n, x.g);
  }

  /** The label of the palette loop and the distance back to it. */
  lemma PaletteTarget(x: Run2) returns (target: nat, d: int)
    requires Setting(x)
    ensures Names(x.g.items, x.g.origin, 42, target, d) && Meaning(x.g.items[42], target, d) == Some(Loop(d))
    ensures target == x.g.origin + Offset(x.g.items, 40) < 65536 && x.g.origin + Offset(x.g.items, 43) + d == target
  {
    hide Stage2Program, Offset, Labels, Linked;
    ColourItems(x);
    PaletteLabel(x.count, x.table);
    PaletteWidths(x);
    PaletteNear(x);
    target := x.g.origin + Offset(x.g.items, 39);
    d := Displacement(target, OperandPosition(x.g.items, 42), 1, x.g.origin);
  }

  lemma PaletteLabel(n: Word, t: seq<byte>)
    ensures |Stage2Program(n, t)| == 74
    ensures LabelIs(Stage2Program(n, t), Stage2LoadOffset, "palette_loop", Offset(Stage2Program(n, t), 39))
  {
    LabelHere(Stage2Program(n, t), Stage2LoadOffset, 39);
  }

  lemma PaletteWidths(x: Run2)
    requires Setting(x)
    ensures Offset(x.g.items, 40) == Offset(x.g.items, 39)
    ensures OperandPosition(x.g.items, 42) + 1 == Offset(x.g.items, 43)
  {
    hide Setting;
    ColourItems(x);
    OffsetNext(x.g.items, 39);
    OffsetNext(x.g.items, 42);
    hide Offset;
  }

  lemma PaletteNear(x: Run2)
    requires Setting(x)
    ensures x.g.origin + Offset(x.g.items, 40) < 65536
  {
    hide Stage2Program, Offset, Linked;
    Addresses(x);
  }

  /** One palette byte. */
  lemma OneColour(m: Machine, x: Run2, start: Machine, i: nat) returns (n: Machine)
    requires Setting(x) && Colouring(m, x, start, i) && i < PaletteBytes
    ensures Reaches(m, n, 3)
    ensures if i + 1 < PaletteBytes then Colouring(n, x, start, i + 1)
            else Showing(n, x, 43) && Coloured(n, start, PaletteBytes)
  {
    hide Setting, Showing, Reaches, Get8, Step, Sent;
    var b := SendColour(m, x);
    n := PaletteBack(b, x);
    Then(m, b, n, 2);
    SentOneMore(m.mem, i);
    assert (start.board.ports + Sent(m.mem, i)) + [(PaletteDataPort, m.mem[ImageAddress + i])]
        == start.board.ports + Sent(m.mem, i + 1);
  }

  lemma SendColour(m: Machine, x: Run2) returns (n: Machine)
    requires Setting(x) && Showing(m, x, 40) && m.segs[DS] == ImageBufferSegment && m.regs[SI] < PaletteBytes
    ensures Reaches(m, n, 2) && Showing(n, x, 42)
    ensures n.segs == m.segs && n.mem == m.mem && Wrote(m, n, m.regs[DX], m.mem[ImageAddress + m.regs[SI] as int])
    ensures n.regs[SI] as int == m.regs[SI] as int + 1 && n.regs[CX] == m.regs[CX] && n.regs[DX] == m.regs[DX]
  {
    ReachesHere(m);
    hide Setting, Showing, Reaches, Get8;
    ColourItems(x);
    n := PlayLoad(m, m, 0, x, 40);
    n := PlayOut(m, n, 1, x, 41);
  }

  lemma {:induction false} AllColours(m: Machine, x: Run2, start: Machine, i: nat) returns (n: Machine, steps: nat)
    requires Setting(x) && Colouring(m, x, start, i) && i < PaletteBytes
    ensures Reaches(m, n, steps) && Showing(n, x, 43) && Coloured(n, start, PaletteBytes)
    decreases PaletteBytes - i
  {
    hide Setting, Showing, Colouring, Reaches, Sent;
    n := OneColour(m, x, start, i);
    steps := 3;
    if i + 1 < PaletteBytes {
      var mid, more := n, 0;
      ColouringValid(m, x, start, i);
      ColouringValid(mid, x, start, i + 1);
      n, more := AllColours(mid, x, start, i + 1);
      ReachesTransitive(m, mid, n, 3, more);
      steps := 3 + more;
    }
  }

  lemma ColouringValid(m: Machine, x: Run2, start: Machine, i: nat)
    requires Setting(x) && Colouring(m, x, start, i)
    ensures m.Valid()
  {
    hide Setting;
  }

  // ---- the picture ----

  /** Before word `j` of the copy; `start` is the machine when it began. */
  ghost predicate Moving(m: Machine, x: Run2, start: Machine, j: nat)
    requires Setting(x)
  {
    && Showing(m, x, 48) && j <= 32000 && |start.mem| == MemorySize
    && m.segs[DS] == ImageBufferSegment && m.segs[ES] == 0xA000
    && m.segs == start.segs && m.board == start.board && m.mem == Copied(start.mem, j)
    && m.regs[SI] == PaletteBytes + 2 * j && m.regs[DI] == 2 * j && m.regs[CX] == 32000 - j
  }

  /** Memory with the first `j` words of the picture on the screen. */
  function Copied(mem: seq<byte>, j: nat): (r: seq<byte>)
    requires |mem| == MemorySize && j <= 32000
    ensures |r| == MemorySize
  {
    Splice(mem, ScreenAddress, mem[PictureAddress..PictureAddress + 2 * j])
  }

  lemma CopiedOneMore(mem: seq<byte>, j: nat)
    requires |mem| == MemorySize && j < 32000
    ensures var from, to, now := PictureAddress + 2 * j, ScreenAddress + 2 * j, Copied(mem, j);
            && now[from] == mem[from] && now[from + 1] == mem[from + 1]
            && Copied(mem, j + 1) == now[to := now[from]][to + 1 := now[from + 1]]
  {
    var from, to := PictureAddress + 2 * j, ScreenAddress + 2 * j;
    var b, w := mem[PictureAddress..from], mem[from..from + 2];
    SpliceAt(mem, ScreenAddress, b, from);
    SpliceAt(mem, ScreenAddress, b, from + 1);
    SpliceAppend(mem, ScreenAddress, b, w);
    SliceJoin(mem, PictureAddress, from, from + 2);
    TwoUpdates(Copied(mem, j), to, w);
  }

  lemma TwoUpdates(s: seq<byte>, i: nat, w: seq<byte>)
    requires |w| == 2 && i + 2 <= |s|
    ensures Splice(s, i, w) == s[i := w[0]][i + 1 := w[1]]
  {
  }

  /** The registers of the copy: DS:SI the picture, ES:DI the screen, CX its words. */
  lemma AimCopy(m: Machine, x: Run2) returns (n: Machine)
    requires Setting(x) && Showing(m, x, 43) && m.segs[DS] == ImageBufferSegment
    ensures Reaches(m, n, 5) && n.mem == m.mem && n.board == m.board && Moving(n, x, n, 0)
  {
    hide Setting, Showing, Reaches;
    PictureItems(x);
    n := AimScreen(m, x);
    n := PlayZero(m, n, 3, x, 46, DI);
    n := PlayWord(m, n, 4, x, 47, CX, 32000);
    CopiedNone(n.mem);
  }

  lemma AimScreen(m: Machine, x: Run2) returns (n: Machine)
    requires Setting(x) && Showing(m, x, 43)
    requires x.g.items[43] == MovRegImm16(SI, 0x0300) && x.g.items[44] == MovRegImm16(AX, 0xA000)
    requires x.g.items[45] == MovSegmentFromReg(ES, AX)
    ensures Reaches(m, n, 3) && Showing(n, x, 46) && n.regs[SI] == 0x0300 && n.segs == m.segs[ES := 0xA000]
    ensures n.mem == m.mem && n.board == m.board
  {
    ReachesHere(m);
    hide Setting, Showing, Reaches;
    n := PlayWord(m, m, 0, x, 43, SI, 0x0300);
    n := PlayWord(m, n, 1, x, 44, AX, 0xA000);
    n := PlaySegment(m, n, 2, x, 45, ES, AX);
  }

  lemma CopiedNone(mem: seq<byte>)
    requires |mem| == MemorySize
    ensures Copied(mem, 0) == mem
  {
  }

  /** Any step at the repeated move. */
  lemma RepeatStep(m: Machine, x: Run2)
    requires Setting(x) && Showing(m, x, 48)
    ensures Step(m) == Execute(m, RepeatMove16, 2) && m.ip + 2 == x.g.origin + Offset(x.g.items, 49) < 65536
  {
    hide Setting, Linked, CodeLoaded, Offset, Step, Meaning, Operand, Names, Execute, Width;
    LastItems(x);
    RepeatMeans();
    ShowReady(m, x, 48);
    NamesNothing(x.g.items, x.g.origin, 48);
    StepItem(m, x.g.code, x.g.items, x.g.origin, x.g.hole, x.g.v, 48, 0, 0);
    RepeatWidth(Offset(x.g.items, 48));
    OffsetNext(x.g.items, 48);
  }

  lemma RepeatMeans()
    ensures Meaning(RepMovsw, 0, 0) == Some(RepeatMove16) && Operand(RepMovsw).None?
  {
  }

  lemma RepeatWidth(at: nat)
    ensures Width(RepMovsw, at) == 2
  {
  }

  /** One word of the picture. */
  lemma OneWord(m: Machine, x: Run2, start: Machine, j: nat) returns (n: Machine)
    requires Setting(x) && Moving(m, x, start, j) && j < 32000
    ensures Reaches(m, n, 1) && Moving(n, x, start, j + 1)
  {
    ReachesHere(m);
    hide Setting, Reaches, Step, Copied, CodeLoaded;
    RepeatStep(m, x);
    CopiedOneMore(start.mem, j);
    n := WordMoves(m, j);
    CodeUntouched(m, n, x);
    Then(m, m, n, 0);
  }

  /** What the machine does for word `j`. */
  lemma WordMoves(m: Machine, j: nat) returns (n: Machine)
    requires m.Valid() && !m.down && j < 32000 && m.segs[DS] == ImageBufferSegment && m.segs[ES] == 0xA000
    requires m.regs[SI] == PaletteBytes + 2 * j && m.regs[DI] == 2 * j && m.regs[CX] == 32000 - j
    ensures Execute(m, RepeatMove16, 2) == Some(n) && n.Valid() && !n.down && n.ip == m.ip
    ensures n.segs == m.segs && n.board == m.board
    ensures n.regs[SI] == PaletteBytes + 2 * (j + 1) && n.regs[DI] == 2 * (j + 1) && n.regs[CX] == 32000 - (j + 1)
    ensures var from, to := PictureAddress + 2 * j, ScreenAddress + 2 * j;
            n.mem == m.mem[to := m.mem[from]][to + 1 := m.mem[from + 1]]
  {
    n := MoveWord(m);
  }

  lemma CodeUntouched(m: Machine, n: Machine, x: Run2)
    requires Setting(x) && CodeLoaded(m, x.g.code, x.g.origin, x.g.hole, x.g.v) && |n.mem| == |m.mem|
    requires forall a :: 0 <= a < ScreenAddress && a < |m.mem| ==> n.mem[a] == m.mem[a]
    ensures CodeLoaded(n, x.g.code, x.g.origin, x.g.hole, x.g.v)
  {
    hide Stage2Program, Offset, Linked;
    Addresses(x);
  }

  lemma {:induction false} AllWords(m: Machine, x: Run2, start: Machine, j: nat) returns (n: Machine, steps: nat)
    requires Setting(x) && Moving(m, x, start, j) && m.Valid() && j < 32000
    ensures Reaches(m, n, steps) && Moving(n, x, start, 32000)
    decreases 32000 - j
  {
    hide Setting, Moving, Reaches;
    n := OneWord(m, x, start, j);
    steps := 1;
    if j + 1 < 32000 {
      var mid, more := n, 0;
      MovingValid(mid, x, start, j + 1);
      n, more := AllWords(mid, x, start, j + 1);
      ReachesTransitive(m, mid, n, 1, more);
      steps := 1 + more;
    }
  }

  lemma MovingValid(m: Machine, x: Run2, start: Machine, j: nat)
    requires Setting(x) && Moving(m, x, start, j)
    ensures m.Valid()
  {
    hide Setting;
  }

  /** The count is used up, and the processor halts at the next instruction. */
  lemma CopyEnds(m: Machine, x: Run2, start: Machine) returns (n: Machine)
    requires Setting(x) && Moving(m, x, start, 32000)
    ensures Reaches(m, n, 1) && Showing(n, x, 50) && n.mem == m.mem && n.board == m.board && Step(n) == Some(n)
  {
    hide Setting, Reaches, Moving, Showing, Step;
    n := LeaveCopy(m, x, start);
    LastItems(x);
    PlayLabel(n, x, 49);
    Halts(n, x);
  }

  lemma LeaveCopy(m: Machine, x: Run2, start: Machine) returns (n: Machine)
    requires Setting(x) && Moving(m, x, start, 32000)
    ensures Reaches(m, n, 1) && Showing(n, x, 49) && n.mem == m.mem && n.board == m.board
  {
    ReachesHere(m);
    RepeatStep(m, x);
    hide Setting, Reaches, Step, Copied, CodeLoaded, Offset;
    n := NothingLeft(m);
    CodeUntouched(m, n, x);
    Then(m, m, n, 0);
  }

  lemma NothingLeft(m: Machine) returns (n: Machine)
    requires m.Valid() && m.regs[CX] == 0 && m.ip + 2 < 65536
    ensures Execute(m, RepeatMove16, 2) == Some(n) && n == m.(ip := m.ip + 2) && n.Valid()
  {
    n := m.(ip := m.ip + 2);
  }

  lemma Halts(m: Machine, x: Run2)
    requires Setting(x) && Showing(m, x, 50)
    ensures Step(m) == Some(m)
  {
    hide Setting, Linked, CodeLoaded, Offset, Step, Meaning, Operand, Names, Width;
    LastItems(x);
    HaltMeans();
    ShowReady(m, x, 50);
    NamesNothing(x.g.items, x.g.origin, 50);
    StepItem(m, x.g.code, x.g.items, x.g.origin, x.g.hole, x.g.v, 50, 0, 0);
  }

  lemma HaltMeans()
    ensures Meaning(Hlt, 0, 0) == Some(Halt) && Operand(Hlt).None?
  {
  }

  // ---- from the loop to the halt ----

  /** The palette of the image at ImageAddress in `m` has been sent, and its picture is on the
      screen. */
  ghost predicate Shown(m: Machine, n: Machine)
    requires |m.mem| == |n.mem| == MemorySize
  {
    && n.board.mode == 0x13 && n.board.text == m.board.text
    && n.board.ports == m.board.ports + [(PaletteIndexPort, 0)] + Sent(m.mem, PaletteBytes)
    && n.mem[ScreenAddress..ScreenAddress + ScreenBytes] == m.mem[PictureAddress..PictureAddress + ScreenBytes]
  }

  /** Clearing the screen and copying to it leave the image alone. */
  lemma ScreenOnly(m: Machine, cleared: seq<byte>)
    requires |m.mem| == MemorySize && cleared == Splice(m.mem, ScreenAddress, Zeros(ScreenBytes))
    ensures |cleared| == MemorySize && Sent(cleared, PaletteBytes) == Sent(m.mem, PaletteBytes)
    ensures Copied(cleared, 32000)[ScreenAddress..ScreenAddress + ScreenBytes]
            == m.mem[PictureAddress..PictureAddress + ScreenBytes]
  {
    hide Splice, Zeros;
    SpliceFrame(m.mem, ScreenAddress, Zeros(ScreenBytes), PictureAddress, PictureAddress + ScreenBytes);
    SpliceRead(cleared, ScreenAddress, cleared[PictureAddress..PictureAddress + ScreenBytes]);
    forall j | 0 <= j < PaletteBytes ensures Sent(cleared, PaletteBytes)[j] == Sent(m.mem, PaletteBytes)[j] {
      SpliceAt(m.mem, ScreenAddress, Zeros(ScreenBytes), ImageAddress + j);
    }
  }

  /** Stage 2 behind its loop: the picture is shown and the machine comes to rest. */
  lemma ShowPicture(m: Machine, x: Run2) returns (n: Machine, steps: nat)
    requires Setting(x) && Showing(m, x, 29)
    ensures Reaches(m, n, steps) && n.Valid() && Step(n) == Some(n) && Showing(n, x, 50) && Shown(m, n)
  {
    hide Setting, Showing, Reaches, Step, Colouring, Moving, Sent, Copied, Splice, Zeros;
    var a := EnterMode(m, x);
    var b, start := StartPalette(a, x);
    ColouringValid(b, x, start, 0);
    ReachesTransitive(m, a, b, 4, 6);
    var c, colours := AllColours(b, x, start, 0);
    ReachesTransitive(m, b, c, 10, colours);
    n, steps := ShowRest(m, c, x, 10 + colours);
    ScreenOnly(m, a.mem);
  }

  lemma ShowRest(m: Machine, c: Machine, x: Run2, before: nat) returns (n: Machine, steps: nat)
    requires Setting(x) && Showing(c, x, 43) && c.segs[DS] == ImageBufferSegment && m.Valid() && Reaches(m, c, before)
    ensures Reaches(m, n, steps) && n.Valid() && Step(n) == Some(n) && Showing(n, x, 50)
    ensures n.mem == Copied(c.mem, 32000) && n.board == c.board
  {
    hide Setting, Showing, Reaches, Step, Copied;
    var d := AimCopy(c, x);
    MovingValid(d, x, d, 0);
    ReachesTransitive(m, c, d, before, 5);
    var e, words := AllWords(d, x, d, 0);
    MovingValid(e, x, d, 32000);
    ReachesTransitive(m, d, e, before + 5, words);
    n := CopyEnds(e, x, d);
    ReachesTransitive(m, e, n, before + 5 + words, 1);
    steps := before + 5 + words + 1;
  }
}
