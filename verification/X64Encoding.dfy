/** The x64 instruction encoder (the emitting methods of X64Assembler in UefiSupport.cs) and a
    decoder that inverts it, written from sections 2.1.3 and 2.2.1 of the Intel SDM, volume 2A. */
module X64Encoding {
  import opened Bytes

  type Reg64 = r: nat | r < 16
  type Int32 = v: int | -0x8000_0000 <= v < 0x8000_0000

  const RSP: Reg64 := 4

  datatype Instr =
    | PushReg(reg: Reg64)
    | PopReg(reg: Reg64)
    | RetNear
    | RepMovs
    | SubRsp(imm: byte)
    | AddRsp(imm: byte)
    | MovR64FromMem(destination: Reg64, base: Reg64, displacement: Int32)
    | MovR32FromMem(destination: Reg64, base: Reg64, displacement: Int32)
    | MovR64FromReg(destination: Reg64, source: Reg64)
    | MovR32Imm32(destination: Reg64, value: Int32)
    | LeaRipRelative(destination: Reg64, target: string)
    | LeaRegFromMem(destination: Reg64, base: Reg64, displacement: Int32)
    | CallReg(reg: Reg64)
    | TestR64(reg: Reg64)
    | TestR32(reg: Reg64)
    | XorR32(reg: Reg64)
    | CmpR32Imm32(reg: Reg64, value: Int32)
    | ShlR64(reg: Reg64, count: byte)
    | SubR64Imm32(reg: Reg64, value: Int32)
    | AddR64Reg(destination: Reg64, source: Reg64)
    | DecR64(reg: Reg64)
    | Jnz(target: string)
    | Je(target: string)
    | Jb(target: string)
    | Jmp(target: string)

  // ---- encoding ----

  function Rex(w: bool, r: Reg64, b: Reg64): (s: seq<byte>) {
    var rex := 0x40 + (if w then 8 else 0) + (if r >= 8 then 4 else 0) + (if b >= 8 then 1 else 0);
    if rex == 0x40 then [] else [rex]
  }

  function ModRm(mod: nat, reg: nat, rm: nat): byte {
    mod % 4 * 64 + reg % 8 * 8 + rm % 8
  }

  /** The four bytes of a signed 32-bit value. */
  function Signed32(v: Int32): (s: seq<byte>)
    ensures |s| == 4
  {
    Le32(v % 0x1_0000_0000)
  }

  predicate FitsByte(v: int) {
    -128 <= v <= 127
  }

  function MemoryOperand(reg: Reg64, base: Reg64, displacement: Int32): seq<byte> {
    [ModRm(if FitsByte(displacement) then 1 else 2, reg, base)] + (if base % 8 == 4 then [0x24] else [])
    + (if FitsByte(displacement) then [displacement % 256] else Signed32(displacement))
  }

  function Opcode(i: Instr): byte {
    match i
    case PushReg(r) => 0x50 + r % 8
    case PopReg(r) => 0x58 + r % 8
    case RetNear => 0xC3
    case RepMovs => 0xF3
    case SubRsp(_) => 0x83
    case AddRsp(_) => 0x83
    case MovR64FromMem(_, _, _) => 0x8B
    case MovR32FromMem(_, _, _) => 0x8B
    case MovR64FromReg(_, _) => 0x89
    case MovR32Imm32(d, _) => 0xB8 + d % 8
    case LeaRipRelative(_, _) => 0x8D
    case LeaRegFromMem(_, _, _) => 0x8D
    case CallReg(_) => 0xFF
    case TestR64(_) => 0x85
    case TestR32(_) => 0x85
    case XorR32(_) => 0x31
    case CmpR32Imm32(_, _) => 0x81
    case ShlR64(_, _) => 0xC1
    case SubR64Imm32(_, _) => 0x81
    case AddR64Reg(_, _) => 0x01
    case DecR64(_) => 0xFF
    case Jnz(_) => 0x0F
    case Je(_) => 0x0F
    case Jb(_) => 0x0F
    case Jmp(_) => 0xE9
  }

  /** The REX prefix each method emits, if any. */
  function Prefix(i: Instr): seq<byte> {
    match i
    case PushReg(r) => if r >= 8 then Rex(false, 0, r) else []
    case PopReg(r) => if r >= 8 then Rex(false, 0, r) else []
    case RetNear => []
    case RepMovs => []
    case SubRsp(_) => [0x48]
    case AddRsp(_) => [0x48]
    case MovR64FromMem(d, b, _) => Rex(true, d, b)
    case MovR32FromMem(d, b, _) => Rex(false, d, b)
    case MovR64FromReg(d, s) => Rex(true, s, d)
    case MovR32Imm32(d, _) => Rex(false, 0, d)
    case LeaRipRelative(d, _) => Rex(true, d, 0)
    case LeaRegFromMem(d, b, _) => Rex(true, d, b)
    case CallReg(r) => Rex(true, 0, r)
    case TestR64(r) => Rex(true, r, r)
    case TestR32(r) => Rex(false, r, r)
    case XorR32(r) => Rex(false, r, r)
    case CmpR32Imm32(r, _) => Rex(false, 0, r)
    case ShlR64(r, _) => Rex(true, 0, r)
    case SubR64Imm32(r, _) => Rex(true, 0, r)
    case AddR64Reg(d, s) => Rex(true, s, d)
    case DecR64(r) => Rex(true, 0, r)
    case Jnz(_) => []
    case Je(_) => []
    case Jb(_) => []
    case Jmp(_) => []
  }

  /** What follows the first opcode byte; a label's displacement comes after it. */
  function Rest(i: Instr): seq<byte> {
    match i
    case RepMovs => [0x48, 0xA5]
    case SubRsp(v) => [0xEC, v]
    case AddRsp(v) => [0xC4, v]
    case MovR64FromMem(d, b, v) => MemoryOperand(d, b, v)
    case MovR32FromMem(d, b, v) => MemoryOperand(d, b, v)
    case MovR64FromReg(d, s) => [ModRm(3, s, d)]
    case MovR32Imm32(_, v) => Signed32(v)
    case LeaRipRelative(d, _) => [ModRm(0, d, 5)]
    case LeaRegFromMem(d, b, v) => MemoryOperand(d, b, v)
    case CallReg(r) => [ModRm(3, 2, r)]
    case TestR64(r) => [ModRm(3, r, r)]
    case TestR32(r) => [ModRm(3, r, r)]
    case XorR32(r) => [ModRm(3, r, r)]
    case CmpR32Imm32(r, v) => [ModRm(3, 7, r)] + Signed32(v)
    case ShlR64(r, n) => [ModRm(3, 4, r), n]
    case SubR64Imm32(r, v) => [ModRm(3, 5, r)] + Signed32(v)
    case AddR64Reg(d, s) => [ModRm(3, s, d)]
    case DecR64(r) => [ModRm(3, 1, r)]
    case Jnz(_) => [0x85]
    case Je(_) => [0x84]
    case Jb(_) => [0x82]
    case _ => []
  }

  function Target(i: Instr): Option<string> {
    match i
    case LeaRipRelative(_, target) => Some(target)
    case Jnz(target) => Some(target)
    case Je(target) => Some(target)
    case Jb(target) => Some(target)
    case Jmp(target) => Some(target)
    case _ => None
  }

  /** The bytes emitted at once; four blank ones follow when a label is named. */
  function Encode(i: Instr): seq<byte> {
    Prefix(i) + [Opcode(i)] + Rest(i)
  }

  /** The finished encoding, with the displacement `d` to its label filled in. */
  function Finished(i: Instr, d: Int32): seq<byte> {
    Encode(i) + (if Target(i).Some? then Signed32(d) else [])
  }

  // ---- decoding ----

  /** A ModR/M operand: a register, memory at a base and displacement, or memory relative to the
      next instruction. */
  datatype Place = Register(r: Reg64) | Memory(base: Reg64, d: int) | Relative(d: int)

  datatype Condition = Always | Below | Equal | NotEqual

  datatype Op =
    | Push(r: Reg64)
    | Pop(r: Reg64)
    | Ret
    | MoveQuads
    | Load(wide: bool, to: Reg64, from: Place)
    | Store(wide: bool, on: Place, from8: Reg64)
    | LoadImmediate(to: Reg64, v: int)
    | Lea(wide: bool, to: Reg64, from: Place)
    | Call(on: Place)
    | Dec(wide: bool, on: Place)
    | Test(wide: bool, on: Place, with: Reg64)
    | Xor(wide: bool, on: Place, with: Reg64)
    | Add(wide: bool, on: Place, with: Reg64)
    | AddImmediate(wide: bool, on: Place, v: int)
    | SubImmediate(wide: bool, on: Place, v: int)
    | CmpImmediate(wide: bool, on: Place, v: int)
    | Shl(wide: bool, on: Place, n: byte)
    | Jump(condition: Condition, d: int)

  datatype Decoded = Decoded(op: Op, length: nat)

  datatype RexBits = RexBits(w: bool, r: bool, x: bool, b: bool)

  datatype Operands = Operands(digit: nat, reg: Reg64, place: Place, length: nat)

  function ByteAt(s: seq<byte>, i: nat): byte {
    if i < |s| then s[i] else 0
  }

  function Signed8At(s: seq<byte>, i: nat): int {
    SignedByte(ByteAt(s, i))
  }

  function Signed32At(s: seq<byte>, i: nat): int {
    var v := ByteAt(s, i) as int + 256 * ByteAt(s, i + 1) as int + 65536 * ByteAt(s, i + 2) as int
      + 16777216 * ByteAt(s, i + 3) as int;
    if v >= 0x8000_0000 then v - 0x1_0000_0000 else v
  }

  function Extended(field: nat, extension: bool): Reg64
    requires field < 8
  {
    field + if extension then 8 else 0
  }

  /** The ModR/M byte at `i`, with its SIB byte and displacement. */
  function DecodeModRm(s: seq<byte>, i: nat, p: RexBits): Option<Operands> {
    var m: nat := ByteAt(s, i);
    var mod, digit, rm := m / 64, m / 8 % 8, m % 8;
    var reg := Extended(digit, p.r);
    if mod == 3 then Some(Operands(digit, reg, Register(Extended(rm, p.b)), 1))
    else if mod == 0 then
      if rm == 5 then Some(Operands(digit, reg, Relative(Signed32At(s, i + 1)), 5)) else None
    else
      var sib: nat := ByteAt(s, i + 1);
      var size := if rm == 4 then 2 else 1;
      var d := if mod == 1 then Signed8At(s, i + size) else Signed32At(s, i + size);
      var length := size + if mod == 1 then 1 else 4;
      if rm != 4 then Some(Operands(digit, reg, Memory(Extended(rm, p.b), d), length))
      else if sib / 8 % 8 == 4 && !p.x then Some(Operands(digit, reg, Memory(Extended(sib % 8, p.b), d), length))
      else None
  }

  /** The instruction whose first opcode byte is at `i`; lengths count from there. */
  function DecodeBody(s: seq<byte>, i: nat, p: RexBits): Option<Decoded> {
    var op: nat := ByteAt(s, i);
    if 0x50 <= op < 0x58 then Some(Decoded(Push(Extended(op - 0x50, p.b)), 1))
    else if 0x58 <= op < 0x60 then Some(Decoded(Pop(Extended(op - 0x58, p.b)), 1))
    else if op == 0xC3 then Some(Decoded(Ret, 1))
    else if 0xB8 <= op < 0xC0 then
      if p.w then None else Some(Decoded(LoadImmediate(Extended(op - 0xB8, p.b), Signed32At(s, i + 1)), 5))
    else if op == 0xE9 then Some(Decoded(Jump(Always, Signed32At(s, i + 1)), 5))
    else if op == 0x0F then
      match ByteAt(s, i + 1)
      case 0x82 => Some(Decoded(Jump(Below, Signed32At(s, i + 2)), 6))
      case 0x84 => Some(Decoded(Jump(Equal, Signed32At(s, i + 2)), 6))
      case 0x85 => Some(Decoded(Jump(NotEqual, Signed32At(s, i + 2)), 6))
      case _ => None
    else
      match DecodeModRm(s, i + 1, p)
      case None => None
      case Some(m) => DecodeWith(s, i, p.w, op, m)
  }

  function DecodeWith(s: seq<byte>, i: nat, wide: bool, op: nat, m: Operands): Option<Decoded> {
    var length := 1 + m.length;
    match op
    case 0x8B => Some(Decoded(Load(wide, m.reg, m.place), length))
    case 0x89 => Some(Decoded(Store(wide, m.place, m.reg), length))
    case 0x8D => Some(Decoded(Lea(wide, m.reg, m.place), length))
    case 0x85 => Some(Decoded(Test(wide, m.place, m.reg), length))
    case 0x31 => Some(Decoded(Xor(wide, m.place, m.reg), length))
    case 0x01 => Some(Decoded(Add(wide, m.place, m.reg), length))
    case 0xFF =>
      if m.digit == 1 then Some(Decoded(Dec(wide, m.place), length))
      else if m.digit == 2 then Some(Decoded(Call(m.place), length)) else None
    case 0x81 =>
      var v := Signed32At(s, i + length);
      if m.digit == 5 then Some(Decoded(SubImmediate(wide, m.place, v), length + 4))
      else if m.digit == 7 then Some(Decoded(CmpImmediate(wide, m.place, v), length + 4)) else None
    case 0x83 =>
      var v := Signed8At(s, i + length);
      if m.digit == 5 then Some(Decoded(SubImmediate(wide, m.place, v), length + 1))
      else if m.digit == 0 then Some(Decoded(AddImmediate(wide, m.place, v), length + 1)) else None
    case 0xC1 => if m.digit == 4 then Some(Decoded(Shl(wide, m.place, ByteAt(s, i + length)), length + 1)) else None
    case _ => None
  }

  /** The instruction at the start of `s`. */
  function Decode(s: seq<byte>): Option<Decoded> {
    var b: nat := ByteAt(s, 0);
    if b == 0xF3 then
      if ByteAt(s, 1) == 0x48 && ByteAt(s, 2) == 0xA5 then Some(Decoded(MoveQuads, 3)) else None
    else if 0x40 <= b < 0x50 then
      match DecodeBody(s, 1, RexBits(b / 8 % 2 == 1, b / 4 % 2 == 1, b / 2 % 2 == 1, b % 2 == 1))
      case None => None
      case Some(d) => Some(d.(length := d.length + 1))
    else DecodeBody(s, 0, RexBits(false, false, false, false))
  }

  // ---- what the instructions mean ----

  /** The operation each emitting method is named for, at displacement `d` from its label. */
  function Meaning(i: Instr, d: int): Op {
    match i
    case PushReg(r) => Push(r)
    case PopReg(r) => Pop(r)
    case RetNear => Ret
    case RepMovs => MoveQuads
    case SubRsp(v) => SubImmediate(true, Register(RSP), SignedByte(v))
    case AddRsp(v) => AddImmediate(true, Register(RSP), SignedByte(v))
    case MovR64FromMem(t, b, v) => Load(true, t, Memory(b, v))
    case MovR32FromMem(t, b, v) => Load(false, t, Memory(b, v))
    case MovR64FromReg(t, s) => Store(true, Register(t), s)
    case MovR32Imm32(t, v) => LoadImmediate(t, v)
    case LeaRipRelative(t, _) => Lea(true, t, Relative(d))
    case LeaRegFromMem(t, b, v) => Lea(true, t, Memory(b, v))
    case CallReg(r) => Call(Register(r))
    case TestR64(r) => Test(true, Register(r), r)
    case TestR32(r) => Test(false, Register(r), r)
    case XorR32(r) => Xor(false, Register(r), r)
    case CmpR32Imm32(r, v) => CmpImmediate(false, Register(r), v)
    case ShlR64(r, n) => Shl(true, Register(r), n)
    case SubR64Imm32(r, v) => SubImmediate(true, Register(r), v)
    case AddR64Reg(t, s) => Add(true, Register(t), s)
    case DecR64(r) => Dec(true, Register(r))
    case Jnz(_) => Jump(NotEqual, d)
    case Je(_) => Jump(Equal, d)
    case Jb(_) => Jump(Below, d)
    case Jmp(_) => Jump(Always, d)
  }

  // ---- decoding inverts encoding ----

  /** `e` is at position `i` of `s`. */
  ghost predicate Holds(s: seq<byte>, i: nat, e: seq<byte>) {
    forall k :: 0 <= k < |e| ==> ByteAt(s, i + k) == e[k]
  }

  lemma HoldsSplit(s: seq<byte>, i: nat, a: seq<byte>, b: seq<byte>)
    requires Holds(s, i, a + b)
    ensures Holds(s, i, a) && Holds(s, i + |a|, b)
  {
    forall k | 0 <= k < |a| ensures ByteAt(s, i + k) == a[k] { assert (a + b)[k] == a[k]; }
    forall k | 0 <= k < |b| ensures ByteAt(s, i + |a| + k) == b[k] { assert (a + b)[|a| + k] == b[k]; }
  }

  lemma HeldByte(s: seq<byte>, i: nat, b: byte)
    requires Holds(s, i, [b])
    ensures ByteAt(s, i) == b
  {
    assert [b][0] == b && ByteAt(s, i + 0) == [b][0];
  }

  lemma HeldSigned8(s: seq<byte>, i: nat, v: int)
    requires FitsByte(v) && Holds(s, i, [v % 256])
    ensures Signed8At(s, i) == v
  {
    HeldByte(s, i, v % 256);
  }

  lemma HeldSigned32(s: seq<byte>, i: nat, v: Int32)
    requires Holds(s, i, Signed32(v))
    ensures Signed32At(s, i) == v
  {
    var e, u := Signed32(v), v % 0x1_0000_0000;
    assert ByteAt(s, i + 0) == e[0] && ByteAt(s, i + 1) == e[1] && ByteAt(s, i + 2) == e[2] && ByteAt(s, i + 3) == e[3];
    WordSplits(u);
    assert u == if v < 0 then v + 0x1_0000_0000 else v;
  }

  lemma ModRmFields(mod: nat, reg: nat, rm: nat)
    requires mod < 4
    ensures var m: nat := ModRm(mod, reg, rm); m / 64 == mod && m / 8 % 8 == reg % 8 && m % 8 == rm % 8
  {
    var a, b := reg % 8, rm % 8;
    assert (mod * 64 + a * 8 + b) / 8 == mod * 8 + a;
  }

  lemma WholeRegister(r: Reg64)
    ensures Extended(r % 8, r >= 8) == r
  {
  }

  /** A register operand, `reg` being a register or an opcode digit. */
  lemma RegisterDecodes(s: seq<byte>, i: nat, reg: Reg64, rm: Reg64, p: RexBits)
    requires ByteAt(s, i) == ModRm(3, reg, rm) && p.r == (reg >= 8) && p.b == (rm >= 8)
    ensures DecodeModRm(s, i, p) == Some(Operands(reg % 8, reg, Register(rm), 1))
  {
    ModRmFields(3, reg, rm);
    WholeRegister(reg);
    WholeRegister(rm);
  }

  /** A memory operand: 8-bit or 32-bit displacement, and a SIB byte for RSP and R12. */
  lemma MemoryDecodes(s: seq<byte>, i: nat, reg: Reg64, base: Reg64, displacement: Int32, p: RexBits)
    requires Holds(s, i, MemoryOperand(reg, base, displacement)) && p.r == (reg >= 8) && p.b == (base >= 8) && !p.x
    ensures DecodeModRm(s, i, p) == Some(Operands(reg % 8, reg, Memory(base, displacement),
                                                  |MemoryOperand(reg, base, displacement)|))
  {
    hide Signed32, Signed32At, Signed8At, ModRm, Holds;
    var mod := if FitsByte(displacement) then 1 else 2;
    var sib := if base % 8 == 4 then [0x24] else [];
    var tail := if FitsByte(displacement) then [displacement % 256] else Signed32(displacement);
    HoldsSplit(s, i, [ModRm(mod, reg, base)] + sib, tail);
    HoldsSplit(s, i, [ModRm(mod, reg, base)], sib);
    HeldByte(s, i, ModRm(mod, reg, base));
    ModRmFields(mod, reg, base);
    if base % 8 == 4 { HeldByte(s, i + 1, 0x24); }
    if FitsByte(displacement) {
      HeldSigned8(s, i + 1 + |sib|, displacement);
    } else {
      HeldSigned32(s, i + 1 + |sib|, displacement);
    }
    WholeRegister(reg);
    WholeRegister(base);
  }

  lemma RelativeDecodes(s: seq<byte>, i: nat, reg: Reg64, d: Int32, p: RexBits)
    requires ByteAt(s, i) == ModRm(0, reg, 5) && Holds(s, i + 1, Signed32(d)) && p.r == (reg >= 8)
    ensures DecodeModRm(s, i, p) == Some(Operands(reg % 8, reg, Relative(d), 5))
  {
    ModRmFields(0, reg, 5);
    HeldSigned32(s, i + 1, d);
    WholeRegister(reg);
  }

  /** The prefix bits the encoder sends are the ones the decoder sees, present or absent. */
  lemma PrefixDecodes(s: seq<byte>, w: bool, r: Reg64, b: Reg64)
    requires Holds(s, 0, Rex(w, r, b))
    requires var op: nat := ByteAt(s, |Rex(w, r, b)|); op != 0xF3 && !(0x40 <= op < 0x50)
    ensures Decode(s) ==
            match DecodeBody(s, |Rex(w, r, b)|, RexBits(w, r >= 8, false, b >= 8))
            case None => None
            case Some(d) => Some(d.(length := |Rex(w, r, b)| + d.length))
  {
    hide DecodeBody;
    if Rex(w, r, b) != [] {
      HeldByte(s, 0, Rex(w, r, b)[0]);
    }
  }

  /** The prefix arguments of each instruction. */
  function Wide(i: Instr): bool {
    i.SubRsp? || i.AddRsp? || i.MovR64FromMem? || i.MovR64FromReg? || i.LeaRipRelative? || i.LeaRegFromMem?
      || i.CallReg?
    || i.TestR64? || i.ShlR64? || i.SubR64Imm32? || i.AddR64Reg? || i.DecR64?
  }

  function RegField(i: Instr): Reg64 {
    match i
    case MovR64FromMem(d, _, _) => d
    case MovR32FromMem(d, _, _) => d
    case MovR64FromReg(_, s) => s
    case LeaRipRelative(d, _) => d
    case LeaRegFromMem(d, _, _) => d
    case TestR64(r) => r
    case TestR32(r) => r
    case XorR32(r) => r
    case AddR64Reg(_, s) => s
    case _ => 0
  }

  function BaseField(i: Instr): Reg64 {
    match i
    case PushReg(r) => r
    case PopReg(r) => r
    case MovR64FromMem(_, b, _) => b
    case MovR32FromMem(_, b, _) => b
    case MovR64FromReg(d, _) => d
    case MovR32Imm32(d, _) => d
    case LeaRegFromMem(_, b, _) => b
    case CallReg(r) => r
    case TestR64(r) => r
    case TestR32(r) => r
    case XorR32(r) => r
    case CmpR32Imm32(r, _) => r
    case ShlR64(r, _) => r
    case SubR64Imm32(r, _) => r
    case AddR64Reg(d, _) => d
    case DecR64(r) => r
    case _ => 0
  }

  function Bits(i: Instr): RexBits {
    RexBits(Wide(i), RegField(i) >= 8, false, BaseField(i) >= 8)
  }

  lemma PrefixIsRex(i: Instr)
    requires !i.RepMovs?
    ensures Prefix(i) == Rex(Wide(i), RegField(i), BaseField(i))
    ensures Opcode(i) != 0xF3 && !(0x40 <= Opcode(i) < 0x50)
  {
  }

  /** Encoding then decoding gives back the operation, its operands and its length, for every
      register and displacement and whatever bytes follow. */
  lemma EncodingDecodes(i: Instr, d: Int32, s: seq<byte>)
    requires Holds(s, 0, Finished(i, d))
    ensures Decode(s) == Some(Decoded(Meaning(i, d), |Finished(i, d)|))
  {
    var n := |Prefix(i)|;
    var rest := Rest(i) + (if Target(i).Some? then Signed32(d) else []);
    FinishedParts(i, d);
    hide Finished, Prefix, Rest, Target, Opcode, Meaning, DecodeBody, Rex, Holds;
    HoldsSplit(s, 0, Prefix(i) + [Opcode(i)], rest);
    HoldsSplit(s, 0, Prefix(i), [Opcode(i)]);
    HeldByte(s, n, Opcode(i));
    if i.RepMovs? {
      WholeRepMovs(i, d, s);
    } else {
      BodyDecodes(i, d, s, n);
      PrefixIsRex(i);
      PrefixDecodes(s, Wide(i), RegField(i), BaseField(i));
    }
  }

  lemma FinishedParts(i: Instr, d: Int32)
    ensures Finished(i, d) == Prefix(i) + [Opcode(i)] + (Rest(i) + (if Target(i).Some? then Signed32(d) else []))
  {
  }

  lemma WholeRepMovs(i: Instr, d: Int32, s: seq<byte>)
    requires i.RepMovs? && Holds(s, 0, Finished(i, d))
    ensures Decode(s) == Some(Decoded(Meaning(i, d), |Finished(i, d)|))
  {
    assert Finished(i, d) == [0xF3] + ([0x48] + [0xA5]);
    HoldsSplit(s, 0, [0xF3], [0x48] + [0xA5]);
    HoldsSplit(s, 1, [0x48], [0xA5]);
    HeldByte(s, 0, 0xF3);
    HeldByte(s, 1, 0x48);
    HeldByte(s, 2, 0xA5);
  }

  /** The body of an encoding is at `n`: opcode, rest and displacement. */
  ghost predicate BodyAt(s: seq<byte>, n: nat, i: Instr, d: Int32) {
    !i.RepMovs? && ByteAt(s, n) == Opcode(i) && Holds(s, n + 1, Rest(i) + (if Target(i).Some? then Signed32(d) else []))
  }

  predicate UsesMemory(i: Instr) {
    i.MovR64FromMem? || i.MovR32FromMem? || i.LeaRegFromMem?
  }

  predicate UsesRegisters(i: Instr) {
    i.MovR64FromReg? || i.CallReg? || i.TestR64? || i.TestR32? || i.XorR32? || i.AddR64Reg? || i.DecR64?
  }

  predicate UsesImmediate(i: Instr) {
    i.CmpR32Imm32? || i.SubR64Imm32? || i.ShlR64?
  }

  lemma BodyDecodes(i: Instr, d: Int32, s: seq<byte>, n: nat)
    requires BodyAt(s, n, i, d)
    ensures DecodeBody(s, n, Bits(i)) == Some(Decoded(Meaning(i, d), |Finished(i, d)| - |Prefix(i)|))
  {
    hide *;
    if UsesMemory(i) {
      MemoryBody(i, d, s, n);
    } else if UsesRegisters(i) {
      RegisterBody(i, d, s, n);
    } else if UsesImmediate(i) {
      ImmediateBody(i, d, s, n);
    } else if i.SubRsp? || i.AddRsp? {
      StackBody(i, d, s, n);
    } else {
      OtherBody(i, d, s, n);
    }
  }

  lemma MemoryBody(i: Instr, d: Int32, s: seq<byte>, n: nat)
    requires BodyAt(s, n, i, d) && UsesMemory(i)
    ensures DecodeBody(s, n, Bits(i)) == Some(Decoded(Meaning(i, d), |Finished(i, d)| - |Prefix(i)|))
  {
    hide Holds, DecodeModRm, MemoryOperand, DecodeBody;
    assert Rest(i) + [] == Rest(i) == MemoryOperand(i.destination, i.base, i.displacement);
    MemoryDecodes(s, n + 1, i.destination, i.base, i.displacement, Bits(i));
    BodyWithOperands(s, n, Bits(i),
                     Operands(i.destination % 8, i.destination, Memory(i.base, i.displacement), |Rest(i)|));
  }

  predicate HasModRm(op: nat) {
    op == 0x8B || op == 0x89 || op == 0x8D || op == 0x85 || op == 0x31 || op == 0x01 || op == 0xFF || op == 0x81
      || op == 0x83 || op == 0xC1
  }

  lemma BodyWithOperands(s: seq<byte>, n: nat, p: RexBits, m: Operands)
    requires HasModRm(ByteAt(s, n)) && DecodeModRm(s, n + 1, p) == Some(m)
    ensures DecodeBody(s, n, p) == DecodeWith(s, n, p.w, ByteAt(s, n), m)
  {
    hide DecodeModRm, DecodeWith;
  }

  /** The register or opcode digit that a register form names besides its base. */
  function RegisterDigit(i: Instr): Reg64 {
    if i.CallReg? then 2 else if i.DecR64? then 1 else RegField(i)
  }

  lemma RegisterRest(i: Instr, d: Int32)
    requires UsesRegisters(i)
    ensures Target(i).None? && HasModRm(Opcode(i)) && !i.RepMovs?
    ensures Rest(i) == [ModRm(3, RegisterDigit(i), BaseField(i))] && |Finished(i, d)| - |Prefix(i)| == 2
    ensures Bits(i).r == (RegisterDigit(i) >= 8) && Bits(i).b == (BaseField(i) >= 8)
  {
    hide ModRm;
  }

  lemma RegisterMeaning(i: Instr, d: Int32, s: seq<byte>, n: nat)
    requires UsesRegisters(i)
    ensures var digit := RegisterDigit(i);
            DecodeWith(s, n, Bits(i).w, Opcode(i), Operands(digit % 8, digit, Register(BaseField(i)), 1))
            == Some(Decoded(Meaning(i, d), 2))
  {
  }

  lemma RegisterBody(i: Instr, d: Int32, s: seq<byte>, n: nat)
    requires BodyAt(s, n, i, d) && UsesRegisters(i)
    ensures DecodeBody(s, n, Bits(i)) == Some(Decoded(Meaning(i, d), |Finished(i, d)| - |Prefix(i)|))
  {
    RegisterRest(i, d);
    RegisterMeaning(i, d, s, n);
    var digit := RegisterDigit(i);
    assert ByteAt(s, n) == Opcode(i) && Holds(s, n + 1, Rest(i) + []) && Rest(i) + [] == Rest(i);
    hide *;
    HeldByte(s, n + 1, ModRm(3, digit, BaseField(i)));
    RegisterDecodes(s, n + 1, digit, BaseField(i), Bits(i));
    BodyWithOperands(s, n, Bits(i), Operands(digit % 8, digit, Register(BaseField(i)), 1));
  }

  lemma ImmediateBody(i: Instr, d: Int32, s: seq<byte>, n: nat)
    requires BodyAt(s, n, i, d) && UsesImmediate(i)
    ensures DecodeBody(s, n, Bits(i)) == Some(Decoded(Meaning(i, d), |Finished(i, d)| - |Prefix(i)|))
  {
    hide DecodeModRm, Signed32, Signed32At, Holds, DecodeBody, ModRm;
    var digit: Reg64 := if i.CmpR32Imm32? then 7 else if i.ShlR64? then 4 else 5;
    var value := if i.ShlR64? then [i.count] else Signed32(i.value);
    assert Rest(i) + [] == [ModRm(3, digit, i.reg)] + value;
    OperandThen(s, n, digit, i.reg, value, Bits(i));
    if i.ShlR64? {
      HeldByte(s, n + 2, i.count);
    } else {
      HeldSigned32(s, n + 2, i.value);
    }
  }

  /** An opcode digit and a register, and what follows them. */
  lemma OperandThen(s: seq<byte>, n: nat, digit: Reg64, rm: Reg64, value: seq<byte>, p: RexBits)
    requires HasModRm(ByteAt(s, n)) && Holds(s, n + 1, [ModRm(3, digit, rm)] + value) && p.r == (digit >= 8)
    requires p.b == (rm >= 8)
    ensures DecodeBody(s, n, p) == DecodeWith(s, n, p.w, ByteAt(s, n), Operands(digit % 8, digit, Register(rm), 1))
    ensures Holds(s, n + 2, value)
  {
    hide DecodeModRm, Holds, DecodeBody, DecodeWith, ModRm;
    HoldsSplit(s, n + 1, [ModRm(3, digit, rm)], value);
    HeldByte(s, n + 1, ModRm(3, digit, rm));
    RegisterDecodes(s, n + 1, digit, rm, p);
    BodyWithOperands(s, n, p, Operands(digit % 8, digit, Register(rm), 1));
  }

  lemma StackBody(i: Instr, d: Int32, s: seq<byte>, n: nat)
    requires BodyAt(s, n, i, d) && (i.SubRsp? || i.AddRsp?)
    ensures DecodeBody(s, n, Bits(i)) == Some(Decoded(Meaning(i, d), |Finished(i, d)| - |Prefix(i)|))
  {
    hide DecodeModRm, Holds, DecodeBody, ModRm;
    var digit: Reg64 := if i.AddRsp? then 0 else 5;
    StackByte();
    assert Rest(i) + [] == [ModRm(3, digit, RSP)] + [i.imm];
    OperandThen(s, n, digit, RSP, [i.imm], Bits(i));
    HeldByte(s, n + 2, i.imm);
  }

  lemma StackByte()
    ensures ModRm(3, 5, RSP) == 0xEC && ModRm(3, 0, RSP) == 0xC4
  {
  }

  lemma OtherBody(i: Instr, d: Int32, s: seq<byte>, n: nat)
    requires BodyAt(s, n, i, d) && !UsesMemory(i) && !UsesRegisters(i) && !UsesImmediate(i) && !i.SubRsp? && !i.AddRsp?
    ensures DecodeBody(s, n, Bits(i)) == Some(Decoded(Meaning(i, d), |Finished(i, d)| - |Prefix(i)|))
  {
    hide DecodeModRm, Signed32, Signed32At, Holds;
    HoldsSplit(s, n + 1, Rest(i), if Target(i).Some? then Signed32(d) else []);
    if Target(i).Some? {
      HeldSigned32(s, n + 1 + |Rest(i)|, d);
      if Rest(i) != [] { HeldByte(s, n + 1, Rest(i)[0]); }
      if i.LeaRipRelative? { RelativeDecodes(s, n + 1, i.destination, d, Bits(i)); }
    } else if i.MovR32Imm32? {
      HeldSigned32(s, n + 1, i.value);
    }
  }

  /** SubRsp and AddRsp take any byte, but the processor extends its sign: the stack pointer
      moves by the amount asked for exactly when it is at most 127. */
  lemma StackAdjustment(v: byte)
    ensures Meaning(SubRsp(v), 0) == SubImmediate(true, Register(RSP), v) <==> v <= 127
    ensures Meaning(AddRsp(v), 0) == AddImmediate(true, Register(RSP), v) <==> v <= 127
  {
  }
}
