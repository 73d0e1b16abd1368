/** A real-mode machine for the boot chain: every instruction of the two boot programs, decoded
    from memory bytes, the BIOS disk read, video mode and teletype output. The decoder follows
    the 8086 instruction formats and knows nothing about the assembler. */
module BootMachine {
  import opened Bytes
  import opened Splices
  import opened Assembler16

  const MemorySize := 0x110000

  /** What the machine is connected to: the drive it boots from and the sectors of it that cannot
      be read, the video mode, every byte written to a port so far, and the text on the screen. */
  datatype Board = Board(drive: byte, damaged: set<nat>, mode: byte, ports: seq<(Word, byte)>, text: seq<byte>)

  /** `down` is the direction flag. */
  datatype Machine = Machine(regs: seq<Word>, segs: seq<Word>, ip: nat, carry: bool, zero: bool, down: bool,
                             mem: seq<byte>, disk: seq<byte>, board: Board)
  {
    predicate Valid() {
      |regs| == 8 && |segs| == 4 && ip < 65536 && |mem| == MemorySize
    }
  }

  datatype Op =
    | Nop
    | ClearDirection
    | XorSelf(r: Reg16)
    | MovSeg(s: SegmentReg, r: Reg16)
    | MovImm16(r: Reg16, v: Word)
    | MovImm8(r8: Reg8, b: byte)
    | Store8(address: Word, r8: Reg8)
    | Load8(r8: Reg8, address: Word)
    | LoadSi8(r8: Reg8, displacement: int)
    | Push(r: Reg16)
    | Pop(r: Reg16)
    | Interrupt(n: byte)
    | JumpCarry(d: int)
    | AddImm16(r: Reg16, v: Word)
    | Loop(d: int)
    | JumpFar(segment: Word, offset: Word)
    | Increment(r: Reg16)
    | LoadString8
    | OutByte
    | RepeatMove16
    | Halt
    | Test8(r8: Reg8)
    | JumpZero(d: int)
    | Jump(d: int)
    | Call(d: int)
    | Return

  datatype Decoded = Decoded(op: Op, length: nat)

  /** The numbers the processor has for its registers. */
  lemma RegisterNumbers()
    ensures AX == 0 && CX == 1 && DX == 2 && BX == 3 && SP == 4 && SI == 6 && DI == 7
    ensures AL == 0 && CL == 1 && DL == 2 && AH == 4 && CH == 5 && DH == 6
    ensures ES == 0 && CS == 1 && SS == 2 && DS == 3
  {
  }

  /** The instruction at the start of `b`. */
  function Decode(b: seq<byte>): Option<Decoded>
    requires |b| >= 6
  {
    var op, m := b[0] as int, b[1] as int;
    if 0xFA <= op <= 0xFB then Some(Decoded(Nop, 1))
    else if op == 0xFC then Some(Decoded(ClearDirection, 1))
    else if 0x40 <= op <= 0x47 then Some(Decoded(Increment(op - 0x40), 1))
    else if op == 0xAC then Some(Decoded(LoadString8, 1))
    else if op == 0xEE then Some(Decoded(OutByte, 1))
    else if op == 0xF3 && m == 0xA5 then Some(Decoded(RepeatMove16, 2))
    else if op == 0xF4 then Some(Decoded(Halt, 1))
    else if op == 0x31 && m >= 0xC0 && (m - 0xC0) / 8 == m % 8 then Some(Decoded(XorSelf(m % 8), 2))
    else if op == 0x8E && 0xC0 <= m < 0xE0 then Some(Decoded(MovSeg((m - 0xC0) / 8, m % 8), 2))
    else if 0xB8 <= op <= 0xBF then Some(Decoded(MovImm16(op - 0xB8, Read16(b, 1)), 3))
    else if 0xB0 <= op <= 0xB7 then Some(Decoded(MovImm8(op - 0xB0, b[1]), 2))
    else if op == 0x88 && m < 64 && m % 8 == 6 then Some(Decoded(Store8(Read16(b, 2), m / 8), 4))
    else if op == 0x8A && m < 64 && m % 8 == 6 then Some(Decoded(Load8(m / 8, Read16(b, 2)), 4))
    else if op == 0x8A && m < 64 && m % 8 == 4 then Some(Decoded(LoadSi8(m / 8, 0), 2))
    else if op == 0x8A && 64 <= m < 128 && m % 8 == 4 then Some(Decoded(LoadSi8((m - 64) / 8, SignedByte(b[2])), 3))
    else if 0x50 <= op <= 0x57 then Some(Decoded(Push(op - 0x50), 1))
    else if 0x58 <= op <= 0x5F then Some(Decoded(Pop(op - 0x58), 1))
    else if op == 0xCD then Some(Decoded(Interrupt(b[1]), 2))
    else if op == 0x72 then Some(Decoded(JumpCarry(SignedByte(b[1])), 2))
    else if op == 0x81 && 0xC0 <= m < 0xC8 then Some(Decoded(AddImm16(m - 0xC0, Read16(b, 2)), 4))
    else if op == 0xE2 then Some(Decoded(Loop(SignedByte(b[1])), 2))
    else if op == 0xEA then Some(Decoded(JumpFar(Read16(b, 3), Read16(b, 1)), 5))
    else if op == 0x84 && m >= 0xC0 && (m - 0xC0) / 8 == m % 8 then Some(Decoded(Test8(m % 8), 2))
    else if op == 0x74 then Some(Decoded(JumpZero(SignedByte(b[1])), 2))
    else if op == 0xEB then Some(Decoded(Jump(SignedByte(b[1])), 2))
    else if op == 0xE8 then Some(Decoded(Call(SignedWord(Read16(b, 1))), 3))
    else if op == 0xC3 then Some(Decoded(Return, 1))
    else None
  }

  // ---- execution ----

  function Linear(segment: Word, offset: nat): nat {
    segment * 16 + offset
  }

  function Get8(m: Machine, r: Reg8): byte
    requires m.Valid()
  {
    if r < 4 then m.regs[r] % 256 else m.regs[r - 4] / 256
  }

  function Set8(m: Machine, r: Reg8, b: byte): Machine
    requires m.Valid()
  {
    if r < 4 then m.(regs := m.regs[r := m.regs[r] / 256 * 256 + b])
    else m.(regs := m.regs[r - 4 := m.regs[r - 4] % 256 + 256 * b])
  }

  const SectorsPerTrack := 18
  const HeadsPerCylinder := 2

  /** `count` sectors from `lba` on can be read. */
  predicate Readable(board: Board, lba: nat, count: nat) {
    forall i :: lba <= i < lba + count ==> i !in board.damaged
  }

  /** INT 13h, AH = 2: AL sectors from cylinder, head and sector into ES:BX. Errors set carry. */
  function ReadSectors(m: Machine): Machine
    requires m.Valid()
  {
    var count: nat := Get8(m, AL);
    var cylinder: nat := Get8(m, CH) as int + Get8(m, CL) as int / 64 * 256;
    var sector: nat := Get8(m, CL) as int % 64;
    var head: nat := Get8(m, DH);
    var lba := (cylinder * HeadsPerCylinder + head) * SectorsPerTrack + sector - 1;
    var to := Linear(m.segs[ES], m.regs[BX]);
    if Get8(m, DL) == m.board.drive && count >= 1 && 1 <= sector && sector + count - 1 <= SectorsPerTrack
       && head < HeadsPerCylinder
       && lba >= 0 && (lba + count) * 512 <= |m.disk| && m.regs[BX] + count * 512 <= 65536
       && to + count * 512 <= MemorySize && Readable(m.board, lba, count) then
      Set8(m.(mem := Splice(m.mem, to, m.disk[lba * 512..(lba + count) * 512]), carry := false), AH, 0)
    else
      Set8(m.(carry := true), AH, 1)
  }

  /** Instructions that run on to the next one. */
  predicate Straight(op: Op) {
    && !op.JumpCarry? && !op.Loop? && !op.JumpFar? && !op.Interrupt? && !op.RepeatMove16? && !op.Halt?
    && !op.JumpZero? && !op.Jump? && !op.Call? && !op.Return?
  }

  /** What a straight instruction does apart from moving on. */
  function Effect(m: Machine, op: Op): Option<Machine>
    requires m.Valid() && Straight(op)
  {
    match op
    case Nop => Some(m)
    case ClearDirection => Some(m.(down := false))
    case XorSelf(r) => Some(m.(regs := m.regs[r := 0], carry := false, zero := true))
    case MovSeg(s, r) => Some(m.(segs := m.segs[s := m.regs[r]]))
    case MovImm16(r, v) => Some(m.(regs := m.regs[r := v]))
    case MovImm8(r, b) => Some(Set8(m, r, b))
    case Store8(address, r) => Some(m.(mem := m.mem[Linear(m.segs[DS], address) := Get8(m, r)]))
    case Load8(r, address) => Some(Set8(m, r, m.mem[Linear(m.segs[DS], address)]))
    case LoadSi8(r, d) => Some(Set8(m, r, m.mem[Linear(m.segs[DS], (m.regs[SI] + d) % 65536)]))
    case Push(r) =>
      if m.regs[SP] < 2 then None else
        var sp := m.regs[SP] - 2;
        Some(m.(regs := m.regs[SP := sp], mem := Splice(m.mem, Linear(m.segs[SS], sp), Le16(m.regs[r]))))
    case Pop(r) =>
      if m.regs[SP] > 65533 then None else
        var v := Read16(m.mem, Linear(m.segs[SS], m.regs[SP]));
        Some(m.(regs := m.regs[SP := m.regs[SP] + 2][r := v]))
    case AddImm16(r, v) =>
      var sum := (m.regs[r] + v) % 65536;
      Some(m.(regs := m.regs[r := sum], carry := m.regs[r] + v >= 65536, zero := sum == 0))
    case Increment(r) =>
      var sum := (m.regs[r] as int + 1) % 65536;
      Some(m.(regs := m.regs[r := sum], zero := sum == 0))
    case Test8(r) => Some(m.(carry := false, zero := Get8(m, r) == 0))
    case LoadString8 =>
      var loaded := Set8(m, AL, m.mem[Linear(m.segs[DS], m.regs[SI])]);
      Some(loaded.(regs := loaded.regs[SI := Moved(m, m.regs[SI], 1)]))
    case OutByte => Some(m.(board := m.board.(ports := m.board.ports + [(m.regs[DX], Get8(m, AL))])))
  }

  /** A string index after an element of `n` bytes. */
  function Moved(m: Machine, at: Word, n: nat): Word {
    (if m.down then at - n else at + n) % 65536
  }

  const ScreenAddress := 0xA0000
  const ScreenBytes := 64000

  /** INT 10h, AH = 0: sets the video mode in AL and clears the screen. */
  function SetMode(m: Machine): Machine
    requires m.Valid()
  {
    m.(mem := Splice(m.mem, ScreenAddress, Zeros(ScreenBytes)), board := m.board.(mode := Get8(m, AL)))
  }

  /** INT 10h, AH = 0Eh: the character in AL, as a teletype writes it. */
  function Teletype(m: Machine): Machine
    requires m.Valid()
  {
    m.(board := m.board.(text := m.board.text + [Get8(m, AL)]))
  }

  /** A near call from the instruction before `next` to `to`. */
  function Called(m: Machine, next: nat, to: nat): Option<Machine>
    requires m.Valid() && next < 65536 && to < 65536
  {
    if m.regs[SP] < 2 then None else
      var sp := m.regs[SP] - 2;
      Some(m.(regs := m.regs[SP := sp], mem := Splice(m.mem, Linear(m.segs[SS], sp), Le16(next)), ip := to))
  }

  /** A near return to the address on the stack. */
  function Returned(m: Machine): Option<Machine>
    requires m.Valid()
  {
    if m.regs[SP] > 65533 then None else
      Some(m.(regs := m.regs[SP := m.regs[SP] + 2], ip := Read16(m.mem, Linear(m.segs[SS], m.regs[SP]))))
  }

  /** One word of REP MOVSW from DS:SI to ES:DI. */
  function MoveWord(m: Machine): Machine
    requires m.Valid()
  {
    var si, di := m.regs[SI] as int, m.regs[DI] as int;
    var low, high := m.mem[Linear(m.segs[DS], si)], m.mem[Linear(m.segs[DS], (si + 1) % 65536)];
    m.(mem := m.mem[Linear(m.segs[ES], di) := low][Linear(m.segs[ES], (di + 1) % 65536) := high],
       regs := m.regs[SI := Moved(m, m.regs[SI], 2)][DI := Moved(m, m.regs[DI], 2)]
                     [CX := (m.regs[CX] as int - 1) % 65536])
  }

  /** One decoded instruction of `length` bytes. */
  function Execute(m: Machine, op: Op, length: nat): Option<Machine>
    requires m.Valid()
  {
    var next := (m.ip + length) % 65536;
    match op
    case Interrupt(n) =>
      if n == 0x13 && Get8(m, AH) == 2 then Some(ReadSectors(m.(ip := next)))
      else if n == 0x10 && Get8(m, AH) == 0 then Some(SetMode(m.(ip := next)))
      else if n == 0x10 && Get8(m, AH) == 0x0E then Some(Teletype(m.(ip := next)))
      else None
    // A repeated move leaves the instruction pointer where it is until the count is used up.
    case RepeatMove16 => Some(if m.regs[CX] == 0 then m.(ip := next) else MoveWord(m))
    case Halt => Some(m)
    case JumpCarry(d) => Some(m.(ip := if m.carry then (m.ip + length + d) % 65536 else next))
    case Loop(d) =>
      var c := (m.regs[CX] as int - 1) % 65536;
      Some(m.(regs := m.regs[CX := c], ip := if c != 0 then (m.ip + length + d) % 65536 else next))
    case JumpFar(segment, offset) => Some(m.(segs := m.segs[CS := segment], ip := offset))
    case JumpZero(d) => Some(m.(ip := if m.zero then (m.ip + length + d) % 65536 else next))
    case Jump(d) => Some(m.(ip := (m.ip + length + d) % 65536))
    case Call(d) => Called(m, next, (m.ip + length + d) % 65536)
    case Return => Returned(m)
    case _ =>
      match Effect(m, op)
      case None => None
      case Some(n) => Some(n.(ip := next))
  }

  function Step(m: Machine): Option<Machine>
    requires m.Valid()
  {
    var at := Linear(m.segs[CS], m.ip);
    if at + 6 > MemorySize then None else
      match Decode(m.mem[at..at + 6])
      case None => None
      case Some(d) => Execute(m, d.op, d.length)
  }

  /** `m` reaches `to` in `n` steps. */
  ghost predicate Reaches(m: Machine, to: Machine, n: nat)
    requires m.Valid()
    decreases n
  {
    if n == 0 then m == to
    else Step(m).Some? && Step(m).value.Valid() && Reaches(Step(m).value, to, n - 1)
  }

  lemma ReachesHere(m: Machine)
    requires m.Valid()
    ensures Reaches(m, m, 0)
  {
  }

  lemma {:induction false} ReachesTransitive(a: Machine, b: Machine, c: Machine, i: nat, j: nat)
    requires a.Valid() && Reaches(a, b, i) && b.Valid() && Reaches(b, c, j)
    ensures Reaches(a, c, i + j)
    decreases i
  {
    hide Step;
    if i > 0 { ReachesTransitive(Step(a).value, b, c, i - 1, j); }
  }

  // ---- the assembler's encodings decode to the intended instructions ----

  /** What an emitted instruction means, with its label resolved to `target` at displacement
      `d`. */
  function Meaning(i: Instr, target: nat, d: int): Option<Op> {
    match i
    case Cli => Some(Nop)
    case Sti => Some(Nop)
    case Cld => Some(ClearDirection)
    case Hlt => Some(Halt)
    case Lodsb => Some(LoadString8)
    case RepMovsw => Some(RepeatMove16)
    case OutDxAl => Some(OutByte)
    case IncReg(r) => Some(Increment(r))
    case Int(n) => Some(Interrupt(n))
    case PushReg(r) => Some(Push(r))
    case PopReg(r) => Some(Pop(r))
    case MovRegImm16(r, v) => Some(MovImm16(r, v))
    case MovRegImm16Label(r, _) => Some(MovImm16(r, target % 65536))
    case MovRegImm8(r, v) => Some(MovImm8(r, v))
    case MovSegmentFromReg(s, r) => Some(MovSeg(s, r))
    case MovMem8AbsoluteFromReg8(_, r) => Some(Store8(target % 65536, r))
    case MovReg8FromMem8Absolute(r, _) => Some(Load8(r, target % 65536))
    case MovReg8FromSiOffset(r, offset) => Some(LoadSi8(r, SignedByte(offset)))
    case XorRegWithSelf(r) => Some(XorSelf(r))
    case AddRegImm16(r, v) => Some(AddImm16(r, v))
    case JmpFar(segment, offset) => Some(JumpFar(segment, offset))
    case JcShort(_) => Some(JumpCarry(d))
    case LoopShort(_) => Some(Loop(d))
    case TestReg8WithSelf(r) => Some(Test8(r))
    case JzShort(_) => Some(JumpZero(d))
    case JmpShort(_) => Some(Jump(d))
    case CallNear(_) => Some(Call(d))
    case Ret => Some(Return)
    case _ => None
  }

  /** Every instruction without a label, and what it means. */
  lemma PlainMeanings()
    ensures Meaning(Cli, 0, 0) == Meaning(Sti, 0, 0) == Some(Nop) && Meaning(Cld, 0, 0) == Some(ClearDirection)
    ensures Operand(Cli).None? && Operand(Sti).None? && Operand(Cld).None?
    ensures forall n: byte :: Meaning(Int(n), 0, 0) == Some(Interrupt(n)) && Operand(Int(n)).None?
    ensures forall r: Reg16 :: Meaning(PushReg(r), 0, 0) == Some(Push(r)) && Operand(PushReg(r)).None?
    ensures forall r: Reg16 :: Meaning(PopReg(r), 0, 0) == Some(Pop(r)) && Operand(PopReg(r)).None?
    ensures forall r: Reg16 :: Meaning(XorRegWithSelf(r), 0, 0) == Some(XorSelf(r)) && Operand(XorRegWithSelf(r)).None?
    ensures forall r: Reg16, v: Word ::
              Meaning(MovRegImm16(r, v), 0, 0) == Some(MovImm16(r, v)) && Operand(MovRegImm16(r, v)).None?
    ensures forall r: Reg16, v: Word ::
              Meaning(AddRegImm16(r, v), 0, 0) == Some(AddImm16(r, v)) && Operand(AddRegImm16(r, v)).None?
    ensures forall r: Reg8, b: byte ::
              Meaning(MovRegImm8(r, b), 0, 0) == Some(MovImm8(r, b)) && Operand(MovRegImm8(r, b)).None?
    ensures forall s: SegmentReg, r: Reg16 ::
              Meaning(MovSegmentFromReg(s, r), 0, 0) == Some(MovSeg(s, r)) && Operand(MovSegmentFromReg(s, r)).None?
    ensures forall r: Reg8, o: byte ::
              Meaning(MovReg8FromSiOffset(r, o), 0, 0) == Some(LoadSi8(r, SignedByte(o)))
                && Operand(MovReg8FromSiOffset(r, o)).None?
    ensures forall s: Word, o: Word :: Meaning(JmpFar(s, o), 0, 0) == Some(JumpFar(s, o)) && Operand(JmpFar(s, o)).None?
  {
  }

  /** The same for the error paths. */
  lemma MorePlainMeanings()
    ensures forall r: Reg8 :: Meaning(TestReg8WithSelf(r), 0, 0) == Some(Test8(r)) && Operand(TestReg8WithSelf(r)).None?
    ensures Meaning(Ret, 0, 0) == Some(Return) && Operand(Ret).None?
    ensures Meaning(Hlt, 0, 0) == Some(Halt) && Operand(Hlt).None?
    ensures Meaning(Lodsb, 0, 0) == Some(LoadString8) && Operand(Lodsb).None?
  {
  }

  /** Every instruction with a label, and what it means. */
  lemma LabelledMeanings(target: nat, d: int)
    ensures forall r: Reg16, name: string ::
              Meaning(MovRegImm16Label(r, name), target, d) == Some(MovImm16(r, target % 65536))
                                             && Operand(MovRegImm16Label(r, name)) == Some(Reference(Absolute16, name))
    ensures forall r: Reg8, name: string ::
              Meaning(MovMem8AbsoluteFromReg8(name, r), target, d) == Some(Store8(target % 65536, r))
              && Operand(MovMem8AbsoluteFromReg8(name, r)) == Some(Reference(Absolute16, name))
    ensures forall r: Reg8, name: string ::
              Meaning(MovReg8FromMem8Absolute(r, name), target, d) == Some(Load8(r, target % 65536))
              && Operand(MovReg8FromMem8Absolute(r, name)) == Some(Reference(Absolute16, name))
    ensures forall name: string ::
              Meaning(JcShort(name), target, d) == Some(JumpCarry(d))
                && Operand(JcShort(name)) == Some(Reference(Relative8, name))
    ensures forall name: string ::
              Meaning(LoopShort(name), target, d) == Some(Loop(d))
                && Operand(LoopShort(name)) == Some(Reference(Relative8, name))
  {
  }

  /** The same for the jumps of the error paths. */
  lemma JumpMeanings(target: nat, d: int)
    ensures forall name: string ::
              Meaning(JzShort(name), target, d) == Some(JumpZero(d))
                && Operand(JzShort(name)) == Some(Reference(Relative8, name))
    ensures forall name: string ::
              Meaning(JmpShort(name), target, d) == Some(Jump(d))
                && Operand(JmpShort(name)) == Some(Reference(Relative8, name))
    ensures forall name: string ::
              Meaning(CallNear(name), target, d) == Some(Call(d))
                && Operand(CallNear(name)) == Some(Reference(Relative16, name))
  {
  }

  /** Encoding then decoding gives back the instruction, whatever bytes follow it. */
  lemma EncodingDecodes(i: Instr, target: nat, d: int, b: seq<byte>)
    requires Meaning(i, target, d).Some? && |b| >= 6
    requires Operand(i).Some? ==> InReach(Operand(i).value.kind, d)
    requires var e := Opcode(i, 0) + (if Operand(i).Some? then OperandBytes(Operand(i).value.kind, target, d) else []);
             |e| <= 6 && b[..|e|] == e
    ensures Decode(b) == Some(Decoded(Meaning(i, target, d).value, Width(i, 0)))
  {
    if Operand(i).Some? {
      OperandAfter(b, Opcode(i, 0), OperandBytes(Operand(i).value.kind, target, d));
      LabelledDecodes(i, target, d, b);
    } else {
      assert b[..|Opcode(i, 0)|] == Opcode(i, 0);
      OperandAfter(b, Opcode(i, 0), []);
      PlainDecodes(i, target, d, b);
    }
  }

  predicate HasWord(i: Instr) {
    i.MovRegImm16? || i.AddRegImm16? || i.JmpFar?
  }

  /** The decoder on instructions told by their first byte alone. */
  lemma ByOpcode(b: seq<byte>)
    requires |b| >= 6
    ensures 0xFA <= b[0] <= 0xFB ==> Decode(b) == Some(Decoded(Nop, 1))
    ensures b[0] == 0xFC ==> Decode(b) == Some(Decoded(ClearDirection, 1))
    ensures 0x40 <= b[0] <= 0x47 ==> Decode(b) == Some(Decoded(Increment(b[0] as int - 0x40), 1))
    ensures b[0] == 0xAC ==> Decode(b) == Some(Decoded(LoadString8, 1))
    ensures b[0] == 0xEE ==> Decode(b) == Some(Decoded(OutByte, 1))
    ensures b[0] == 0xF3 && b[1] == 0xA5 ==> Decode(b) == Some(Decoded(RepeatMove16, 2))
    ensures b[0] == 0xF4 ==> Decode(b) == Some(Decoded(Halt, 1))
    ensures 0x50 <= b[0] <= 0x57 ==> Decode(b) == Some(Decoded(Push(b[0] as int - 0x50), 1))
    ensures 0x58 <= b[0] <= 0x5F ==> Decode(b) == Some(Decoded(Pop(b[0] as int - 0x58), 1))
    ensures 0xB0 <= b[0] <= 0xB7 ==> Decode(b) == Some(Decoded(MovImm8(b[0] as int - 0xB0, b[1]), 2))
    ensures 0xB8 <= b[0] <= 0xBF ==> Decode(b) == Some(Decoded(MovImm16(b[0] as int - 0xB8, Read16(b, 1)), 3))
    ensures b[0] == 0xCD ==> Decode(b) == Some(Decoded(Interrupt(b[1]), 2))
    ensures b[0] == 0x72 ==> Decode(b) == Some(Decoded(JumpCarry(SignedByte(b[1])), 2))
    ensures b[0] == 0xE2 ==> Decode(b) == Some(Decoded(Loop(SignedByte(b[1])), 2))
    ensures b[0] == 0xEA ==> Decode(b) == Some(Decoded(JumpFar(Read16(b, 3), Read16(b, 1)), 5))
    ensures b[0] == 0x74 ==> Decode(b) == Some(Decoded(JumpZero(SignedByte(b[1])), 2))
    ensures b[0] == 0xEB ==> Decode(b) == Some(Decoded(Jump(SignedByte(b[1])), 2))
    ensures b[0] == 0xE8 ==> Decode(b) == Some(Decoded(Call(SignedWord(Read16(b, 1))), 3))
    ensures b[0] == 0xC3 ==> Decode(b) == Some(Decoded(Return, 1))
    ensures b[0] == 0x81 && 0xC0 <= b[1] < 0xC8 ==>
              Decode(b) == Some(Decoded(AddImm16(b[1] as int - 0xC0, Read16(b, 2)), 4))
  {
    hide Read16, SignedByte, SignedWord;
  }

  /** The decoder on instructions with a register field `f` in their second byte. */
  lemma ByRegister(b: seq<byte>, f: Reg8, r: Reg16)
    requires |b| >= 6
    ensures b[0] == 0x31 && b[1] == 0xC0 + 8 * r + r ==> Decode(b) == Some(Decoded(XorSelf(r), 2))
    ensures b[0] == 0x84 && b[1] == 0xC0 + 8 * f + f ==> Decode(b) == Some(Decoded(Test8(f), 2))
    ensures b[0] == 0x8E && f < 4 && b[1] == 0xC0 + 8 * f + r ==> Decode(b) == Some(Decoded(MovSeg(f, r), 2))
    ensures b[0] == 0x88 && b[1] == 8 * f + 6 ==> Decode(b) == Some(Decoded(Store8(Read16(b, 2), f), 4))
    ensures b[0] == 0x8A && b[1] == 8 * f + 6 ==> Decode(b) == Some(Decoded(Load8(f, Read16(b, 2)), 4))
    ensures b[0] == 0x8A && b[1] == 8 * f + 4 ==> Decode(b) == Some(Decoded(LoadSi8(f, 0), 2))
    ensures b[0] == 0x8A && b[1] == 0x40 + 8 * f + 4 ==> Decode(b) == Some(Decoded(LoadSi8(f, SignedByte(b[2])), 3))
  {
    hide Read16, SignedByte;
  }

  lemma TwoWords(a: byte, x: seq<byte>, y: seq<byte>)
    requires |x| == |y| == 2
    ensures ([a] + x + y)[1..3] == x && ([a] + x + y)[3..5] == y
  {
  }

  lemma WordDecodes(i: Instr, target: nat, d: int, b: seq<byte>)
    requires HasWord(i) && |b| >= 6 && forall k | 0 <= k < |Opcode(i, 0)| :: b[k] == Opcode(i, 0)[k]
    ensures Decode(b) == Some(Decoded(Meaning(i, target, d).value, Width(i, 0)))
  {
    hide Decode, Le16, Read16;
    var o := Opcode(i, 0);
    ByOpcode(b);
    assert b[0] == o[0];
    match i
    case MovRegImm16(_, v) =>
      SliceOfPrefix(b, o, 1, 3);
      assert o[1..3] == Le16(v);
      HalfRead(b, 1, v);
    case AddRegImm16(_, v) =>
      SliceOfPrefix(b, o, 2, 4);
      assert b[1] == o[1] && o[2..4] == Le16(v);
      HalfRead(b, 2, v);
    case JmpFar(s, off) =>
      SliceOfPrefix(b, o, 1, 3);
      SliceOfPrefix(b, o, 3, 5);
      TwoWords(0xEA, Le16(off), Le16(s));
      HalfRead(b, 1, off);
      HalfRead(b, 3, s);
  }

  lemma PlainDecodes(i: Instr, target: nat, d: int, b: seq<byte>)
    requires Meaning(i, target, d).Some? && |b| >= 6 && Operand(i).None?
    requires |Opcode(i, 0)| <= 6 && forall k | 0 <= k < |Opcode(i, 0)| :: b[k] == Opcode(i, 0)[k]
    ensures Decode(b) == Some(Decoded(Meaning(i, target, d).value, Width(i, 0)))
  {
    if HasWord(i) {
      WordDecodes(i, target, d, b);
    } else {
      ShortDecodes(i, target, d, b);
    }
  }

  lemma ShortDecodes(i: Instr, target: nat, d: int, b: seq<byte>)
    requires Meaning(i, target, d).Some? && |b| >= 6 && Operand(i).None? && !HasWord(i)
    requires |Opcode(i, 0)| <= 6 && forall k | 0 <= k < |Opcode(i, 0)| :: b[k] == Opcode(i, 0)[k]
    ensures Decode(b) == Some(Decoded(Meaning(i, target, d).value, Width(i, 0)))
  {
    hide Le16, Decode;
    var o := Opcode(i, 0);
    assert b[0] == o[0] && (|o| >= 2 ==> b[1] == o[1]) && (|o| >= 3 ==> b[2] == o[2]);
    match i
    case XorRegWithSelf(r) => ByRegister(b, 0, r);
    case MovSegmentFromReg(s, r) => ByRegister(b, s, r);
    case MovReg8FromSiOffset(r, _) => ByRegister(b, r, 0);
    case TestReg8WithSelf(r) => ByRegister(b, r, 0);
    case _ => ByOpcode(b);
  }

  lemma LabelledDecodes(i: Instr, target: nat, d: int, b: seq<byte>)
    requires Meaning(i, target, d).Some? && |b| >= 6 && Operand(i).Some? && InReach(Operand(i).value.kind, d)
    requires var o := Opcode(i, 0); var t := OperandBytes(Operand(i).value.kind, target, d);
             |o| + |t| <= 6 && (forall k | 0 <= k < |o| :: b[k] == o[k])
               && (forall k | 0 <= k < |t| :: b[|o| + k] == t[k])
    ensures Decode(b) == Some(Decoded(Meaning(i, target, d).value, Width(i, 0)))
  {
    hide Decode, OperandBytes;
    var o, t := Opcode(i, 0), OperandBytes(Operand(i).value.kind, target, d);
    assert b[0] == o[0] && (|o| >= 2 ==> b[1] == o[1]);
    assert b[|o|] == t[0] && (|t| >= 2 ==> b[|o| + 1] == t[1]);
    OperandDecodes(Operand(i).value.kind, target, d);
    match i
    case MovMem8AbsoluteFromReg8(_, r) => ByRegister(b, r, 0);
    case MovReg8FromMem8Absolute(r, _) => ByRegister(b, r, 0);
    case _ => ByOpcode(b);
  }

  lemma OperandAfter(b: seq<byte>, opcode: seq<byte>, operand: seq<byte>)
    requires |opcode| + |operand| <= |b| && b[..|opcode| + |operand|] == opcode + operand
    ensures forall k | 0 <= k < |opcode| :: b[k] == opcode[k]
    ensures forall k | 0 <= k < |operand| :: b[|opcode| + k] == operand[k]
  {
    forall k | 0 <= k < |opcode| ensures b[k] == opcode[k] {
      assert b[k] == b[..|opcode| + |operand|][k];
    }
    forall k | 0 <= k < |operand| ensures b[|opcode| + k] == operand[k] {
      assert b[|opcode| + k] == b[..|opcode| + |operand|][|opcode| + k];
    }
  }

  // ---- byte registers ----

  lemma SetGet8(m: Machine, r: Reg8, b: byte, q: Reg8)
    requires m.Valid()
    ensures Set8(m, r, b).Valid() && Get8(Set8(m, r, b), q) == if q == r then b else Get8(m, q)
  {
    var w := m.regs[r % 4];
    HighLow(w / 256, b);
    HighLow(b, w % 256);
  }

  lemma HighLow(high: nat, low: byte)
    ensures (high * 256 + low) / 256 == high && (high * 256 + low) % 256 == low
  {
  }

  lemma Set8Keeps(m: Machine, r: Reg8, b: byte)
    requires m.Valid()
    ensures var n := Set8(m, r, b);
            n == m.(regs := n.regs) && |n.regs| == 8 && forall x | 0 <= x < 8 && x != r % 4 :: n.regs[x] == m.regs[x]
  {
  }

}
