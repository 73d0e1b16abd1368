/** The error paths of both stages: jumps, call and return, and the routine that prints a message
    character by character through the BIOS. */
module BootPrint {
  import opened Bytes
  import opened Splices
  import opened Assembler16
  import opened BootMachine
  import opened BootChain
  import opened BootRun
  import opened BootStart

  // ---- single steps ----

  /** Segments, memory, disk and board are the same. */
  ghost predicate Kept(m: Machine, n: Machine) {
    n.segs == m.segs && n.mem == m.mem && n.disk == m.disk && n.board == m.board
  }

  /** Registers too. */
  ghost predicate KeptAll(m: Machine, n: Machine) {
    Kept(m, n) && n.regs == m.regs
  }

  /** Text has been printed. */
  ghost predicate Typed(m: Machine, n: Machine, text: seq<byte>) {
    n.board == m.board.(text := m.board.text + text)
  }

  /** Item `k` of a loaded program ends before the byte that changes. */
  ghost predicate Inside(m: Machine, g: Image, k: nat)
    ensures Inside(m, g, k) ==> m.Valid() && k < |g.items|
  {
    InProgram(m, g, k) && k < |g.items| && Offset(g.items, k + 1) <= g.hole
  }

  /** The label item `k` refers to, marked by item `j`, and the distance to it. */
  lemma LabelTarget(m: Machine, g: Image, k: nat, j: nat) returns (target: nat, d: int)
    requires Inside(m, g, k) && j <= |g.items| && Operand(g.items[k]).Some?
    requires LabelIs(g.items, g.origin, Operand(g.items[k]).value.name, Offset(g.items, j))
    ensures Names(g.items, g.origin, k, target, d) && target == g.origin + Offset(g.items, j) < 65536
    ensures g.origin + Offset(g.items, k + 1) + d == target && g.origin + Offset(g.items, k + 1) < 65536
  {
    hide Offset, Labels, Opcode, Operand, CodeLoaded;
    OffsetNext(g.items, k);
    OffsetMonotone(g.items, j, |g.items|);
    OffsetMonotone(g.items, k + 1, |g.items|);
    CodeEnds(m, g);
    target := g.origin + Offset(g.items, j);
    d := Displacement(target, OperandPosition(g.items, k), Operand(g.items[k]).value.kind.Width(), g.origin);
  }

  lemma CodeEnds(m: Machine, g: Image)
    requires InProgram(m, g, 0) || exists k :: InProgram(m, g, k)
    ensures g.origin + |g.code| + 6 <= 65536 && |g.code| == Offset(g.items, |g.items|)
  {
  }

  /** The step at item `k`, as its meaning executes. */
  lemma StepAt(m: Machine, g: Image, k: nat, op: Op, target: nat, d: int) returns (w: nat)
    requires Inside(m, g, k) && Meaning(g.items[k], target, d) == Some(op)
    requires Names(g.items, g.origin, k, target, d)
    ensures Step(m) == Execute(m, op, w) && m.ip + w == g.origin + Offset(g.items, k + 1) < 65536
  {
    hide Meaning, Linked, CodeLoaded, Names, Offset, Step, Execute;
    StepItem(m, g.code, g.items, g.origin, g.hole, g.v, k, target, d);
    CodeEnds(m, g);
    w := Width(g.items[k], Offset(g.items, k));
  }

  /** Only the place in the program differs; both stages have cleared the direction flag. */
  lemma Arrived(m: Machine, n: Machine, g: Image, k: nat, j: nat)
    requires InProgram(m, g, k) && PastClear(g, k) && 7 < j <= |g.items| && g.origin + Offset(g.items, j) < 65536
    requires n.Valid() && n.segs[CS] == 0 && n.ip == g.origin + Offset(g.items, j) && n.down == m.down
    requires CodeLoaded(n, g.code, g.origin, g.hole, g.v)
    ensures InProgram(n, g, j)
  {
    hide Linked, Offset, CodeLoaded;
  }

  lemma Goes(a: Machine, m: Machine, c: nat, g: Image, k: nat, j: nat, name: string) returns (n: Machine)
    requires Inside(m, g, k) && g.items[k] == JmpShort(name) && a.Valid() && Reaches(a, m, c) && PastClear(g, k)
    requires 7 < j <= |g.items| && LabelIs(g.items, g.origin, name, Offset(g.items, j))
    ensures Reaches(a, n, c + 1) && InProgram(n, g, j) && n == m.(ip := n.ip)
  {
    hide Meaning, Operand, Linked, CodeLoaded, Names, Offset, Step, Reaches, LabelIs, PastClear;
    JumpMeanings(0, 0);
    var target, d := LabelTarget(m, g, k, j);
    JumpMeanings(target, d);
    var w := StepAt(m, g, k, Jump(d), target, d);
    n := m.(ip := target);
    Then(a, m, n, c);
    SameMemory(m, n, g);
    Arrived(m, n, g, k, j);
  }

  lemma GoesIfZero(a: Machine, m: Machine, c: nat, g: Image, k: nat, j: nat, name: string) returns (n: Machine)
    requires Inside(m, g, k) && g.items[k] == JzShort(name) && a.Valid() && Reaches(a, m, c) && PastClear(g, k)
    requires 7 < j <= |g.items| && LabelIs(g.items, g.origin, name, Offset(g.items, j))
    ensures Reaches(a, n, c + 1) && InProgram(n, g, if m.zero then j else k + 1) && KeptAll(m, n)
  {
    hide Meaning, Operand, Linked, CodeLoaded, Names, Offset, Step, Reaches, LabelIs;
    JumpMeanings(0, 0);
    var target, d := LabelTarget(m, g, k, j);
    JumpMeanings(target, d);
    var w := StepAt(m, g, k, JumpZero(d), target, d);
    n := m.(ip := if m.zero then target else g.origin + Offset(g.items, k + 1));
    Then(a, m, n, c);
    SameMemory(m, n, g);
    Arrived(m, n, g, k, if m.zero then j else k + 1);
  }

  lemma GoesOnCarry(a: Machine, m: Machine, c: nat, g: Image, k: nat, j: nat, name: string) returns (n: Machine)
    requires Inside(m, g, k) && g.items[k] == JcShort(name) && a.Valid() && Reaches(a, m, c) && PastClear(g, k)
    requires 7 < j <= |g.items| && LabelIs(g.items, g.origin, name, Offset(g.items, j)) && m.carry
    ensures Reaches(a, n, c + 1) && InProgram(n, g, j) && KeptAll(m, n)
  {
    hide Meaning, Operand, Linked, CodeLoaded, Names, Offset, Step, Reaches, LabelIs, PastClear;
    LabelledMeanings(0, 0);
    var target, d := LabelTarget(m, g, k, j);
    LabelledMeanings(target, d);
    var w := StepAt(m, g, k, JumpCarry(d), target, d);
    n := m.(ip := target);
    Then(a, m, n, c);
    SameMemory(m, n, g);
    Arrived(m, n, g, k, j);
  }

  /** A call: the address behind it is on the stack. */
  lemma Calls(a: Machine, m: Machine, c: nat, g: Image, k: nat, j: nat, name: string) returns (n: Machine)
    requires Inside(m, g, k) && g.items[k] == CallNear(name) && a.Valid() && Reaches(a, m, c) && PastClear(g, k)
    requires 7 < j <= |g.items| && LabelIs(g.items, g.origin, name, Offset(g.items, j))
    requires m.segs[SS] == 0 && 2 <= m.regs[SP] as int <= g.origin
    ensures Reaches(a, n, c + 1) && InProgram(n, g, j) && g.origin + Offset(g.items, k + 1) < 65536
    ensures n == m.(ip := n.ip, regs := m.regs[SP := m.regs[SP] - 2],
                    mem := Splice(m.mem, m.regs[SP] - 2, Le16(g.origin + Offset(g.items, k + 1))))
  {
    hide Meaning, Operand, Linked, CodeLoaded, Names, Offset, Step, Reaches, LabelIs, PastClear, Splice, Le16;
    JumpMeanings(0, 0);
    var target, d := LabelTarget(m, g, k, j);
    JumpMeanings(target, d);
    var w := StepAt(m, g, k, Call(d), target, d);
    n := CallExecutes(m, d, w, target);
    Then(a, m, n, c);
    CodeKept(m, g.code, g.origin, g.hole, g.v, m.regs[SP] - 2, Le16(g.origin + Offset(g.items, k + 1)));
    SameMemory(m.(mem := n.mem), n, g);
    Arrived(m, n, g, k, j);
  }

  lemma CallExecutes(m: Machine, d: int, w: nat, target: nat) returns (n: Machine)
    requires m.Valid() && m.segs[SS] == 0 && 2 <= m.regs[SP] && m.ip + w < 65536 && m.ip + w + d == target < 65536
    ensures Execute(m, Call(d), w) == Some(n) && n.Valid()
    ensures n == m.(ip := target, regs := m.regs[SP := m.regs[SP] - 2],
                    mem := Splice(m.mem, m.regs[SP] - 2, Le16(m.ip + w)))
  {
    hide Splice, Le16;
    n := Called(m, m.ip + w, target).value;
  }

  /** A return to item `j`, whose address is on the stack. */
  lemma Returns(a: Machine, m: Machine, c: nat, g: Image, k: nat, j: nat) returns (n: Machine)
    requires Inside(m, g, k) && g.items[k] == Ret && a.Valid() && Reaches(a, m, c) && PastClear(g, k)
    requires 7 < j <= |g.items| && m.segs[SS] == 0 && m.regs[SP] < 65534
    requires Read16(m.mem, m.regs[SP]) == g.origin + Offset(g.items, j)
    ensures Reaches(a, n, c + 1) && InProgram(n, g, j)
    ensures n == m.(ip := n.ip, regs := m.regs[SP := m.regs[SP] + 2])
  {
    hide Meaning, Operand, Linked, CodeLoaded, Names, Offset, Step, Reaches, PastClear, Read16;
    MorePlainMeanings();
    NamesNothing(g.items, g.origin, k);
    var w := StepAt(m, g, k, Return, 0, 0);
    n := m.(ip := g.origin + Offset(g.items, j), regs := m.regs[SP := m.regs[SP] + 2]);
    Then(a, m, n, c);
    SameMemory(m, n, g);
    Arrived(m, n, g, k, j);
  }

  /** At rest for good: the processor stays halted, and should an interrupt wake it, it runs on
      to halt at the same place again. */
  ghost predicate Asleep(m: Machine) {
    m.Valid() && Step(m) == Some(m) && m.ip + 1 < 65536 && Reaches(m.(ip := m.ip + 1), m, 1)
  }

  /** A halt with a jump back to it behind it. */
  lemma Sleeps(m: Machine, g: Image, k: nat, name: string)
    requires Inside(m, g, k) && PastClear(g, k) && 8 < k && k + 1 < |g.items| && Offset(g.items, k + 2) <= g.hole
    requires g.items[k - 1] == MarkLabel(name) && g.items[k] == Hlt && g.items[k + 1] == JmpShort(name)
    requires LabelIs(g.items, g.origin, name, Offset(g.items, k - 1))
    ensures Asleep(m)
  {
    hide Meaning, Operand, Linked, CodeLoaded, Names, Offset, Step, Reaches, LabelIs;
    HaltWidth(g.items, k);
    MorePlainMeanings();
    NamesNothing(g.items, g.origin, k);
    var w := StepAt(m, g, k, Halt, 0, 0);
    var woken := m.(ip := g.origin + Offset(g.items, k + 1));
    SameMemory(m, woken, g);
    Arrived(m, woken, g, k, k + 1);
    ReachesHere(woken);
    var n := Goes(woken, woken, 0, g, k + 1, k - 1, name);
    BackAgain(m, n, g, k);
  }

  lemma BackAgain(m: Machine, n: Machine, g: Image, k: nat)
    requires 0 < k <= |g.items| && InProgram(m, g, k) && InProgram(n, g, k - 1)
    requires n == m.(ip := n.ip) && Offset(g.items, k - 1) == Offset(g.items, k)
    ensures n == m
  {
    hide Offset;
  }

  lemma HaltWidth(p: seq<Instr>, k: nat)
    requires 0 < k < |p| && p[k - 1].MarkLabel? && p[k] == Hlt
    ensures Offset(p, k - 1) == Offset(p, k) && Offset(p, k + 1) == Offset(p, k) + 1
  {
    hide Offset;
    OffsetNext(p, k - 1);
    OffsetNext(p, k);
  }

  /** The BIOS writes the character in AL. */
  lemma Types(a: Machine, m: Machine, c: nat, g: Image, k: nat) returns (n: Machine)
    requires Inside(m, g, k) && g.items[k] == Int(0x10) && a.Valid() && Reaches(a, m, c) && PastClear(g, k)
    requires Get8(m, AH) == 0x0E
    ensures Reaches(a, n, c + 1) && InProgram(n, g, k + 1)
    ensures n.segs == m.segs && n.mem == m.mem && n.disk == m.disk && n.regs == m.regs && Typed(m, n, [Get8(m, AL)])
  {
    hide Meaning, Operand, Linked, CodeLoaded, Names, Offset, Step, Reaches, Get8;
    InterruptMeans();
    NamesNothing(g.items, g.origin, k);
    var w := StepAt(m, g, k, Interrupt(0x10), 0, 0);
    var next := m.(ip := m.ip + w);
    forall q: Reg8 ensures Get8(next, q) == Get8(m, q) { GetFromRegs(next, m, q); }
    n := Teletype(next);
    Then(a, m, n, c);
    SameMemory(m, n, g);
    Arrived(m, n, g, k, k + 1);
  }

  lemma InterruptMeans()
    ensures Meaning(Int(0x10), 0, 0) == Some(Interrupt(0x10)) && Operand(Int(0x10)).None?
  {
  }

  /** LODSB, then the test whether the byte ends the text. */
  lemma Loads(a: Machine, m: Machine, c: nat, g: Image, k: nat) returns (n: Machine)
    requires Inside(m, g, k) && g.items[k] == Lodsb && a.Valid() && Reaches(a, m, c) && PastClear(g, k)
    requires m.segs[DS] == 0 && m.regs[SI] < 65535
    ensures Reaches(a, n, c + 1) && InProgram(n, g, k + 1) && Kept(m, n)
    ensures Get8(n, AL) == m.mem[m.regs[SI]] && n.regs[SI] as int == m.regs[SI] as int + 1
    ensures n.regs[SP] == m.regs[SP]
  {
    hide Get8, Meaning, Operand, Names, Reaches, Offset, Effect;
    MorePlainMeanings();
    NamesNothing(g.items, g.origin, k);
    Upward(m, g, k);
    LoadEffect(m);
    hide InProgram;
    n := Walk(a, m, c, g, k, LoadString8, 0, 0);
    GetFromRegs(n, Effect(m, LoadString8).value, AL);
  }

  lemma LoadEffect(m: Machine)
    requires m.Valid() && !m.down && m.segs[DS] == 0 && m.regs[SI] < 65535
    ensures Effect(m, LoadString8).Some?
    ensures var n := Effect(m, LoadString8).value; (
      && n == m.(regs := n.regs) && n.Valid() && Get8(n, AL) == m.mem[m.regs[SI]]
      && n.regs[SI] as int == m.regs[SI] as int + 1 && n.regs[SP] == m.regs[SP])
  {
    hide Set8;
    var b := m.mem[m.regs[SI]];
    Set8Keeps(m, AL, b);
    SetGet8(m, AL, b, AL);
  }

  lemma Upward(m: Machine, g: Image, k: nat)
    requires InProgram(m, g, k) && PastClear(g, k)
    ensures !m.down
  {
  }

  lemma Tests(a: Machine, m: Machine, c: nat, g: Image, k: nat) returns (n: Machine)
    requires Inside(m, g, k) && g.items[k] == TestReg8WithSelf(AL) && a.Valid() && Reaches(a, m, c)
    ensures Reaches(a, n, c + 1) && InProgram(n, g, k + 1)
    ensures KeptAll(m, n) && n.zero == (Get8(m, AL) == 0)
  {
    hide Get8, Meaning, Operand, Names, Reaches, Offset, InProgram;
    MorePlainMeanings();
    NamesNothing(g.items, g.origin, k);
    n := Walk(a, m, c, g, k, Test8(AL), 0, 0);
  }

  /** AH is loaded; everything else keeps its value. */
  lemma SetsFunction(a: Machine, m: Machine, c: nat, g: Image, k: nat, b: byte) returns (n: Machine)
    requires Inside(m, g, k) && g.items[k] == MovRegImm8(AH, b) && a.Valid() && Reaches(a, m, c)
    ensures Reaches(a, n, c + 1) && InProgram(n, g, k + 1) && Kept(m, n)
    ensures Get8(n, AH) == b && Get8(n, AL) == Get8(m, AL) && n.regs[SI] == m.regs[SI] && n.regs[SP] == m.regs[SP]
  {
    hide Get8, Meaning, Operand, Names, Reaches, Offset, Effect, InProgram;
    ByteLoads(0, 0);
    NamesNothing(g.items, g.origin, k);
    FunctionEffect(m, b);
    n := Walk(a, m, c, g, k, MovImm8(AH, b), 0, 0);
    GetFromRegs(n, Effect(m, MovImm8(AH, b)).value, AH);
    GetFromRegs(n, Effect(m, MovImm8(AH, b)).value, AL);
  }

  lemma FunctionEffect(m: Machine, b: byte)
    requires m.Valid()
    ensures var n := Effect(m, MovImm8(AH, b)); (
      && n.Some? && n.value == m.(regs := n.value.regs) && n.value.Valid()
      && Get8(n.value, AH) == b && Get8(n.value, AL) == Get8(m, AL)
      && n.value.regs[SI] == m.regs[SI] && n.value.regs[SP] == m.regs[SP])
  {
    hide Set8, Get8;
    Set8Keeps(m, AH, b);
    SetGet8(m, AH, b, AH);
    SetGet8(m, AH, b, AL);
  }

  /** A register is loaded with a constant. */
  lemma SetsWord(a: Machine, m: Machine, c: nat, g: Image, k: nat, r: Reg16, v: Word) returns (n: Machine)
    requires Inside(m, g, k) && g.items[k] == MovRegImm16(r, v) && a.Valid() && Reaches(a, m, c)
    ensures Reaches(a, n, c + 1) && InProgram(n, g, k + 1) && Kept(m, n) && n.regs == m.regs[r := v]
  {
    hide Meaning, Operand, Names, Reaches, Offset, InProgram;
    PlainMeanings();
    NamesNothing(g.items, g.origin, k);
    n := Walk(a, m, c, g, k, MovImm16(r, v), 0, 0);
  }

  /** A register is loaded with the address of a label. */
  lemma SetsAddress(a: Machine, m: Machine, c: nat, g: Image, k: nat, r: Reg16, j: nat, name: string)
    returns (n: Machine)
    requires Inside(m, g, k) && g.items[k] == MovRegImm16Label(r, name) && a.Valid() && Reaches(a, m, c)
    requires j <= |g.items| && LabelIs(g.items, g.origin, name, Offset(g.items, j))
    ensures Reaches(a, n, c + 1) && InProgram(n, g, k + 1) && g.origin + Offset(g.items, j) < 65536
    ensures Kept(m, n) && n.regs == m.regs[r := g.origin + Offset(g.items, j)]
  {
    hide Meaning, Operand, Names, Reaches, Offset, InProgram, LabelIs;
    LabelledMeanings(0, 0);
    var target, d := LabelTarget(m, g, k, j);
    LabelledMeanings(target, d);
    n := Walk(a, m, c, g, k, MovImm16(r, target), target, d);
  }

  // ---- the printing routine ----

  /** The routine at item `p`. */
  ghost predicate Printer(g: Image, p: nat)
    ensures Printer(g, p) ==> 7 < p && p + 10 <= |g.items|
  {
    && 7 < p && p + 10 <= |g.items| && g.items[7] == Cld && Offset(g.items, p + 10) <= g.hole
    && g.items[p] == MarkLabel("print_string") && g.items[p + 1] == Lodsb
    && g.items[p + 2] == TestReg8WithSelf(AL) && g.items[p + 3] == JzShort("print_done")
    && g.items[p + 4] == MovRegImm8(AH, 0x0E) && g.items[p + 5] == MovRegImm16(BX, 0x0007)
    && g.items[p + 6] == Int(0x10) && g.items[p + 7] == JmpShort("print_string")
    && g.items[p + 8] == MarkLabel("print_done") && g.items[p + 9] == Ret
    && LabelIs(g.items, g.origin, "print_string", Offset(g.items, p))
    && LabelIs(g.items, g.origin, "print_done", Offset(g.items, p + 8))
  }

  lemma PrinterTop(g: Image, p: nat)
    requires Printer(g, p)
    ensures g.items[p + 1] == Lodsb && g.items[p + 2] == TestReg8WithSelf(AL) && g.items[p + 3] == JzShort("print_done")
    ensures LabelIs(g.items, g.origin, "print_done", Offset(g.items, p + 8))
  {
    hide Offset, LabelIs;
  }

  lemma PrinterCall(g: Image, p: nat)
    requires Printer(g, p)
    ensures g.items[p].MarkLabel? && g.items[p + 4] == MovRegImm8(AH, 0x0E) && g.items[p + 5] == MovRegImm16(BX, 0x0007)
    ensures g.items[p + 6] == Int(0x10) && g.items[p + 7] == JmpShort("print_string")
    ensures LabelIs(g.items, g.origin, "print_string", Offset(g.items, p))
  {
    hide Offset, LabelIs;
  }

  lemma InPrinter(m: Machine, g: Image, p: nat, k: nat)
    requires Printer(g, p) && p <= k < p + 10 && InProgram(m, g, k)
    ensures Inside(m, g, k) && PastClear(g, k)
  {
    hide Offset, LabelIs, CodeLoaded, Linked;
    OffsetMonotone(g.items, k + 1, p + 10);
  }

  /** `text`, followed by a zero, is at address `at` of segment 0. */
  ghost predicate Written(mem: seq<byte>, at: nat, text: seq<byte>) {
    && |mem| == MemorySize && at + |text| < 65535 && mem[at + |text|] == 0
    && forall i :: 0 <= i < |text| ==> text[i] != 0 && mem[at + i] == text[i]
  }

  /** Everything but registers, flags and place in the program is `start`'s, with `text` printed. */
  ghost predicate Printed(m: Machine, start: Machine, text: seq<byte>) {
    && m.Valid() && start.Valid() && m.segs == start.segs && m.mem == start.mem && m.disk == start.disk
    && m.regs[SP] == start.regs[SP] && Typed(start, m, text)
  }

  /** Before character `i` of the text at `at`. */
  ghost predicate Printing(m: Machine, g: Image, p: nat, start: Machine, at: nat, text: seq<byte>, i: nat)
    requires Printer(g, p) && i <= |text|
  {
    InProgram(m, g, p + 1) && Printed(m, start, text[..i]) && m.segs[DS] == 0 && m.regs[SI] as int == at + i
      && Written(m.mem, at, text)
  }

  /** The same jump, in terms of what it keeps. */
  lemma GoesOn(a: Machine, m: Machine, c: nat, g: Image, k: nat, j: nat, name: string) returns (n: Machine)
    requires Inside(m, g, k) && g.items[k] == JmpShort(name) && a.Valid() && Reaches(a, m, c) && PastClear(g, k)
    requires 7 < j <= |g.items| && LabelIs(g.items, g.origin, name, Offset(g.items, j))
    ensures Reaches(a, n, c + 1) && InProgram(n, g, j) && KeptAll(m, n)
  {
    hide InProgram, Inside, Reaches, Offset, LabelIs, PastClear;
    n := Goes(a, m, c, g, k, j, name);
  }

  /** The next byte is taken and tested: on to the character, or out of the routine. */
  lemma TakesByte(m: Machine, g: Image, p: nat) returns (n: Machine)
    requires Printer(g, p) && InProgram(m, g, p + 1) && m.segs[DS] == 0 && m.regs[SI] < 65535
    ensures Reaches(m, n, 3) && n.Valid() && Get8(n, AL) == m.mem[m.regs[SI]]
    ensures InProgram(n, g, if m.mem[m.regs[SI]] == 0 then p + 8 else p + 4) && Kept(m, n)
    ensures n.regs[SP] == m.regs[SP] && n.regs[SI] as int == m.regs[SI] as int + 1
  {
    hide Get8, Reaches, Offset, InProgram, Inside, PastClear, LabelIs, Printer;
    PrinterTop(g, p);
    n := LoadsByte(m, g, p);
    InPrinter(n, g, p, p + 3);
    StandsValid(m, g, p + 1);
    var tested := n;
    n := GoesIfZero(m, n, 2, g, p + 3, p + 8, "print_done");
    SameAccumulator(tested, n);
  }

  lemma LoadsByte(m: Machine, g: Image, p: nat) returns (n: Machine)
    requires Printer(g, p) && InProgram(m, g, p + 1) && m.segs[DS] == 0 && m.regs[SI] < 65535
    ensures m.Valid() && n.Valid() && Reaches(m, n, 2) && InProgram(n, g, p + 3) && Kept(m, n)
    ensures Get8(n, AL) == m.mem[m.regs[SI]] && n.zero == (m.mem[m.regs[SI]] == 0)
    ensures n.regs[SP] == m.regs[SP] && n.regs[SI] as int == m.regs[SI] as int + 1
  {
    hide Get8, Reaches, Offset, InProgram, Inside, PastClear, LabelIs, Printer;
    PrinterTop(g, p);
    StandsValid(m, g, p + 1);
    ReachesHere(m);
    InPrinter(m, g, p, p + 1);
    var loaded := Loads(m, m, 0, g, p + 1);
    InPrinter(loaded, g, p, p + 2);
    StandsValid(loaded, g, p + 2);
    n := Tests(m, loaded, 1, g, p + 2);
    StandsValid(n, g, p + 3);
    SameAccumulator(loaded, n);
  }

  lemma StandsValid(m: Machine, g: Image, k: nat)
    requires InProgram(m, g, k)
    ensures m.Valid() && m.segs[CS] == 0 && k <= |g.items|
  {
  }

  /** The character in AL is written, and back to the top. */
  lemma TypesByte(m: Machine, g: Image, p: nat) returns (n: Machine)
    requires Printer(g, p) && InProgram(m, g, p + 4)
    ensures Reaches(m, n, 4) && InProgram(n, g, p + 1) && Printed(n, m, [Get8(m, AL)]) && n.regs[SI] == m.regs[SI]
  {
    hide Get8, Reaches, Offset, InProgram, Inside, PastClear, LabelIs, Typed, Printer;
    PrinterCall(g, p);
    StandsValid(m, g, p + 4);
    var a := AimsCall(m, g, p);
    StandsValid(a, g, p + 6);
    InPrinter(a, g, p, p + 6);
    var b := Types(m, a, 2, g, p + 6);
    InPrinter(b, g, p, p + 7);
    n := GoesOn(m, b, 3, g, p + 7, p, "print_string");
    PassLabel(n, g, p);
    StandsValid(n, g, p + 1);
    SameTyped(m, a, b, n, [Get8(m, AL)]);
  }

  lemma SameTyped(m: Machine, a: Machine, b: Machine, n: Machine, text: seq<byte>)
    requires m.board == a.board && Typed(a, b, text) && n.board == b.board
    ensures Typed(m, n, text)
  {
  }

  /** AH and BX are set up for the call. */
  lemma AimsCall(m: Machine, g: Image, p: nat) returns (n: Machine)
    requires Printer(g, p) && InProgram(m, g, p + 4)
    ensures m.Valid() && n.Valid() && Reaches(m, n, 2) && InProgram(n, g, p + 6) && Kept(m, n)
    ensures Get8(n, AH) == 0x0E && Get8(n, AL) == Get8(m, AL) && n.regs[SI] == m.regs[SI] && n.regs[SP] == m.regs[SP]
  {
    hide Get8, Reaches, Offset, InProgram, Inside, PastClear, LabelIs, Printer;
    PrinterCall(g, p);
    StandsValid(m, g, p + 4);
    ReachesHere(m);
    InPrinter(m, g, p, p + 4);
    var a := SetsFunction(m, m, 0, g, p + 4, 0x0E);
    StandsValid(a, g, p + 5);
    InPrinter(a, g, p, p + 5);
    n := SetsWord(m, a, 1, g, p + 5, BX, 0x0007);
    StandsValid(n, g, p + 6);
    SameAccumulator(a, n);
  }

  lemma SameAccumulator(a: Machine, b: Machine)
    requires a.Valid() && b.Valid() && a.regs[AX] == b.regs[AX]
    ensures Get8(a, AL) == Get8(b, AL) && Get8(a, AH) == Get8(b, AH)
  {
  }

  lemma TypedMore(a: Machine, b: Machine, c: Machine, s: seq<byte>, t: seq<byte>)
    requires Typed(a, b, s) && Typed(b, c, t)
    ensures Typed(a, c, s + t)
  {
    assert a.board.text + s + t == a.board.text + (s + t);
  }

  /** One character. */
  lemma OneCharacter(m: Machine, g: Image, p: nat, start: Machine, at: nat, text: seq<byte>, i: nat)
    returns (n: Machine)
    requires Printer(g, p) && i < |text| && Printing(m, g, p, start, at, text, i)
    ensures Reaches(m, n, 7) && Printing(n, g, p, start, at, text, i + 1)
  {
    hide Get8, Reaches, Offset, InProgram, Printer, Step;
    StandsValid(m, g, p + 1);
    assert m.mem[at + i] == text[i] != 0;
    n := TakesByte(m, g, p);
    var mid := n;
    n := TypesByte(mid, g, p);
    ReachesTransitive(m, mid, n, 3, 4);
    assert text[..i] + [text[i]] == text[..i + 1];
    TypedMore(start, m, n, text[..i], [text[i]]);
  }

  /** The rest of the text, to the routine's return. */
  lemma {:induction false} PrintsRest(m: Machine, g: Image, p: nat, start: Machine, at: nat, text: seq<byte>, i: nat)
    returns (n: Machine, steps: nat)
    requires Printer(g, p) && i <= |text| && Printing(m, g, p, start, at, text, i)
    ensures Reaches(m, n, steps) && InProgram(n, g, p + 9) && Printed(n, start, text)
    decreases |text| - i
  {
    hide Get8, Reaches, Offset, InProgram, Printer, Step, Written;
    StandsValid(m, g, p + 1);
    if i == |text| {
      EndsHere(m.mem, at, text);
      n := TakesByte(m, g, p);
      AtDone(g, p);
      PassLabel(n, g, p + 8);
      assert text[..i] == text;
      steps := 3;
    } else {
      var mid := OneCharacter(m, g, p, start, at, text, i);
      StandsValid(mid, g, p + 1);
      var more;
      n, more := PrintsRest(mid, g, p, start, at, text, i + 1);
      ReachesTransitive(m, mid, n, 7, more);
      steps := 7 + more;
    }
  }

  lemma EndsHere(mem: seq<byte>, at: nat, text: seq<byte>)
    requires Written(mem, at, text)
    ensures |mem| == MemorySize && at + |text| < 65535 && mem[at + |text|] == 0
  {
  }

  lemma AtDone(g: Image, p: nat)
    requires Printer(g, p)
    ensures p + 10 <= |g.items| && g.items[p + 8] == MarkLabel("print_done")
  {
  }

  /** A call of the routine prints the text at SI and returns behind the call; only the slot below
      the stack top is written. */
  lemma CallPrints(m: Machine, g: Image, k: nat, p: nat, text: seq<byte>) returns (n: Machine, steps: nat)
    requires Printer(g, p) && Inside(m, g, k) && PastClear(g, k) && g.items[k] == CallNear("print_string")
    requires m.segs[SS] == 0 && m.segs[DS] == 0 && 2 <= m.regs[SP] as int <= g.origin <= m.regs[SI] as int
    requires Written(m.mem, m.regs[SI], text)
    ensures Reaches(m, n, steps) && InProgram(n, g, k + 1) && n.segs == m.segs && n.disk == m.disk
    ensures n.regs[SP] == m.regs[SP] && Typed(m, n, text)
  {
    hide Get8, Reaches, Offset, InProgram, Step, Written, Splice, Le16, Read16, PastClear, LabelIs;
    var at: nat := m.regs[SI];
    ReachesHere(m);
    var c := Calls(m, m, 0, g, k, p, "print_string");
    var slot, back := m.regs[SP] - 2, g.origin + Offset(g.items, k + 1);
    PassLabel(c, g, p);
    WrittenAbove(m.mem, at, text, slot, back);
    assert c.board == c.board.(text := c.board.text + text[..0]);
    var d, more := PrintsRest(c, g, p, c, at, text, 0);
    ReachesTransitive(m, c, d, 1, more);
    InPrinter(d, g, p, p + 9);
    BehindCall(m, g, k);
    n := Returns(m, d, 1 + more, g, p + 9, k + 1);
    steps := 2 + more;
  }

  lemma BehindCall(m: Machine, g: Image, k: nat)
    requires Inside(m, g, k) && PastClear(g, k)
    ensures 7 < k + 1 <= |g.items|
  {
  }

  /** The pushed address reads back, and the text is where it was. */
  lemma WrittenAbove(mem: seq<byte>, at: nat, text: seq<byte>, slot: nat, back: nat)
    requires Written(mem, at, text) && slot + 2 <= at && back < 65536
    ensures slot + 2 <= |mem| && Read16(Splice(mem, slot, Le16(back)), slot) == back
    ensures Written(Splice(mem, slot, Le16(back)), at, text)
  {
    hide Le16, Splice;
    var after := Splice(mem, slot, Le16(back));
    SpliceRead(mem, slot, Le16(back));
    HalfRead(after, slot, back);
    forall a | at <= a <= at + |text| ensures after[a] == mem[a] { SpliceAt(mem, slot, Le16(back), a); }
  }

  // ---- the message in memory ----

  /** The characters of a message. */
  function Characters(text: string): seq<byte> {
    seq(|text|, i requires 0 <= i < |text| => text[i] as int % 256)
  }

  /** Printable characters only. */
  ghost predicate Printable(text: string) {
    forall c <- text :: 32 <= c as int < 127
  }

  /** A message that an item of the loaded program holds is in memory, ended by a zero. */
  lemma MessageWritten(m: Machine, g: Image, k: nat, q: nat, text: string)
    requires InProgram(m, g, k) && q < |g.items| && g.items[q] == Db(AsciiZ(text)) && Printable(text)
    requires g.hole < Offset(g.items, q)
    ensures g.origin + Offset(g.items, q) + |text| < 65535
    ensures Written(m.mem, g.origin + Offset(g.items, q), Characters(text))
  {
    hide Offset, Opcode;
    var at := Offset(g.items, q);
    DataResolved(g, q, AsciiZ(text));
    hide Resolved, Linked;
    var a := g.origin + at;
    forall i | 0 <= i <= |text| ensures m.mem[a + i] == AsciiZ(text)[i] {
      assert g.code[at..at + |text| + 1][i] == g.code[at + i];
      assert m.mem[g.origin + (at + i)] == g.code[at + i] && g.origin + (at + i) == a + i;
    }
    assert m.mem[a + |text|] == AsciiZ(text)[|text|];
    forall i | 0 <= i < |text| ensures Characters(text)[i] != 0 && m.mem[a + i] == Characters(text)[i] {
      assert text[i] in text && m.mem[a + i] == AsciiZ(text)[i];
    }
  }

  lemma DataResolved(g: Image, q: nat, data: seq<byte>)
    requires Linked(g.code, g.items, g.origin) && q < |g.items| && g.items[q] == Db(data)
    ensures Offset(g.items, q) + |data| <= |g.code|
    ensures g.code[Offset(g.items, q)..Offset(g.items, q) + |data|] == data
  {
    hide Offset;
    assert Holds(g.code, g.items, q, Resolved(g.items, g.origin, q));
  }

  // ---- a whole error path ----

  /** `n` is at rest with `text` printed behind what `m` showed, and nothing else has changed on
      its board. */
  ghost predicate Reported(m: Machine, n: Machine, text: string) {
    Asleep(n) && Typed(m, n, Characters(text))
  }

  /** Reporting after a run that leaves the board alone. */
  lemma Joined(a: Machine, b: Machine, c: Machine, i: nat, j: nat, text: string) returns (steps: nat)
    requires a.Valid() && Reaches(a, b, i) && b.Valid() && Reaches(b, c, j) && Reported(b, c, text)
    requires a.board == b.board
    ensures Reaches(a, c, steps) && Reported(a, c, text)
  {
    hide Step, Reaches, Asleep, Characters;
    ReachesTransitive(a, b, c, i, j);
    steps := i + j;
  }

  /** Item `k` calls the routine at item `p` with SI at the message that item `q` marks. */
  ghost predicate SaysMessage(g: Image, k: nat, p: nat, q: nat, text: string)
    ensures SaysMessage(g, k, p, q, text) ==> 7 < k && k + 2 < |g.items| && q + 1 < |g.items|
  {
    && 7 < k && k + 2 < |g.items| && Offset(g.items, k + 2) <= g.hole && Printer(g, p)
    && g.items[k] == MovRegImm16Label(SI, "disk_error_msg") && g.items[k + 1] == CallNear("print_string")
    && q + 1 < |g.items| && g.items[q] == MarkLabel("disk_error_msg") && g.items[q + 1] == Db(AsciiZ(text))
    && LabelIs(g.items, g.origin, "disk_error_msg", Offset(g.items, q)) && g.hole < Offset(g.items, q)
    && Printable(text)
  }

  /** Item `h` marks a halt with a jump back to it behind it, and item `k` jumps there. */
  ghost predicate RestsAt(g: Image, k: nat, h: nat, name: string)
    ensures RestsAt(g, k, h, name) ==> 7 < k < |g.items| && 7 < h && h + 2 < |g.items|
  {
    && 7 < k < |g.items| && 7 < h && h + 2 < |g.items| && Offset(g.items, k + 1) <= g.hole
    && Offset(g.items, h + 3) <= g.hole && g.items[7] == Cld
    && g.items[k] == JmpShort(name) && g.items[h] == MarkLabel(name) && g.items[h + 1] == Hlt
    && g.items[h + 2] == JmpShort(name) && LabelIs(g.items, g.origin, name, Offset(g.items, h))
  }

  /** From the item that names the message to behind the call. */
  lemma Says(m: Machine, g: Image, k: nat, p: nat, q: nat, text: string) returns (n: Machine, steps: nat)
    requires SaysMessage(g, k, p, q, text) && InProgram(m, g, k) && m.segs[SS] == 0 && m.segs[DS] == 0
    requires 2 <= m.regs[SP] as int <= g.origin
    ensures Reaches(m, n, steps) && InProgram(n, g, k + 2) && Typed(m, n, Characters(text))
  {
    hide Reaches, Step, Offset, InProgram, Inside, PastClear, LabelIs, Written, Characters, Printable, Printer;
    StandsValid(m, g, k);
    ReachesHere(m);
    CodePart(m, g, k, k + 2);
    var a := SetsAddress(m, m, 0, g, k, SI, q, "disk_error_msg");
    StandsValid(a, g, k + 1);
    CodePart(a, g, k + 1, k + 2);
    MessageAt(a, g, k + 1, q, text);
    ClearedAt(g, k + 1, p);
    var more;
    n, more := CallPrints(a, g, k + 1, p, Characters(text));
    ReachesTransitive(m, a, n, 1, more);
    steps := 1 + more;
  }

  lemma CodePart(m: Machine, g: Image, k: nat, end: nat)
    requires InProgram(m, g, k) && k < end <= |g.items| && Offset(g.items, end) <= g.hole
    ensures Inside(m, g, k)
  {
    hide Offset, CodeLoaded, Linked;
    OffsetMonotone(g.items, k + 1, end);
  }

  lemma ClearedAt(g: Image, k: nat, p: nat)
    requires Printer(g, p) && 7 < k <= |g.items|
    ensures PastClear(g, k)
  {
    hide Offset, LabelIs;
  }

  lemma MessageAt(m: Machine, g: Image, k: nat, q: nat, text: string)
    requires InProgram(m, g, k) && q + 1 < |g.items| && g.items[q].MarkLabel? && g.items[q + 1] == Db(AsciiZ(text))
    requires Printable(text) && g.hole < Offset(g.items, q)
    ensures Written(m.mem, g.origin + Offset(g.items, q), Characters(text))
  {
    hide Offset, InProgram, Written, Characters, AsciiZ, Printable;
    OffsetNext(g.items, q);
    MessageWritten(m, g, k, q + 1, text);
  }

  /** The jump to the halt. */
  lemma Rests(m: Machine, g: Image, k: nat, h: nat, name: string) returns (n: Machine)
    requires RestsAt(g, k, h, name) && InProgram(m, g, k)
    ensures m.Valid() && Reaches(m, n, 1) && Asleep(n) && n.board == m.board
  {
    hide InProgram, Inside, Reaches, Step, Offset, LabelIs, Asleep;
    StandsValid(m, g, k);
    ReachesHere(m);
    CodePart(m, g, k, k + 1);
    n := Goes(m, m, 0, g, k, h, name);
    PassLabel(n, g, h);
    HaltSleeps(n, g, k, h, name);
  }

  lemma HaltSleeps(m: Machine, g: Image, k: nat, h: nat, name: string)
    requires RestsAt(g, k, h, name) && InProgram(m, g, h + 1)
    ensures Asleep(m)
  {
    hide InProgram, Inside, Offset, LabelIs, Asleep;
    CodePart(m, g, h + 1, h + 3);
    Sleeps(m, g, h + 1, name);
  }

  /** The message and the halt behind it. */
  lemma Complains(m: Machine, g: Image, k: nat, p: nat, q: nat, h: nat, name: string, text: string)
    returns (n: Machine, steps: nat)
    requires SaysMessage(g, k, p, q, text) && RestsAt(g, k + 2, h, name)
    requires InProgram(m, g, k) && m.segs[SS] == 0 && m.segs[DS] == 0 && 2 <= m.regs[SP] as int <= g.origin
    ensures Reaches(m, n, steps) && Reported(m, n, text)
  {
    hide SaysMessage, RestsAt, InProgram, Reaches, Step, Asleep, Characters, Typed, Reported;
    StandsValid(m, g, k);
    var a, before := Says(m, g, k, p, q, text);
    n := Rests(a, g, k + 2, h, name);
    StillTyped(m, a, n, text);
    steps := Both(m, a, n, before, 1);
  }

  lemma StillTyped(m: Machine, a: Machine, n: Machine, text: string)
    requires Typed(m, a, Characters(text)) && n.board == a.board && Asleep(n)
    ensures Reported(m, n, text)
  {
    hide Asleep, Characters;
  }

  lemma Both(a: Machine, b: Machine, c: Machine, i: nat, j: nat) returns (steps: nat)
    requires a.Valid() && Reaches(a, b, i) && b.Valid() && Reaches(b, c, j)
    ensures Reaches(a, c, steps)
  {
    hide Step, Reaches;
    ReachesTransitive(a, b, c, i, j);
    steps := i + j;
  }

  /** The same, some steps into a run that has left the board alone. */
  lemma ComplainsAfter(m: Machine, a: Machine, c: nat, g: Image, k: nat, p: nat, q: nat, h: nat, name: string,
                       text: string)
    returns (n: Machine, steps: nat)
    requires SaysMessage(g, k, p, q, text) && RestsAt(g, k + 2, h, name)
    requires InProgram(a, g, k) && a.segs[SS] == 0 && a.segs[DS] == 0 && 2 <= a.regs[SP] as int <= g.origin
    requires m.Valid() && Reaches(m, a, c) && m.board == a.board
    ensures Reaches(m, n, steps) && Reported(m, n, text)
  {
    hide SaysMessage, RestsAt, InProgram, Reaches, Step, Reported;
    StandsValid(a, g, k);
    var more;
    n, more := Complains(a, g, k, p, q, h, name, text);
    steps := Joined(m, a, n, c, more, text);
  }

  /** The jump of a failed disk request to the error path. */
  lemma Fails(m: Machine, g: Image, k: nat, j: nat) returns (n: Machine)
    requires InProgram(m, g, k) && 7 < k && j < |g.items| && 7 < j && k < |g.items| && Offset(g.items, k + 1) <= g.hole
    requires g.items[7] == Cld && g.items[k] == JcShort("disk_error") && g.items[j] == MarkLabel("disk_error")
    requires LabelIs(g.items, g.origin, "disk_error", Offset(g.items, j)) && m.carry
    ensures m.Valid() && Reaches(m, n, 1) && InProgram(n, g, j + 1) && KeptAll(m, n)
  {
    hide InProgram, Inside, Reaches, Offset, LabelIs;
    StandsValid(m, g, k);
    ReachesHere(m);
    CodePart(m, g, k, k + 1);
    n := GoesOnCarry(m, m, 0, g, k, j, "disk_error");
    PassLabel(n, g, j);
  }
}
