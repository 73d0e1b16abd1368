/** What becomes of every boot: the picture is shown, or the stage that could not read its sectors
    says so; then the machine is at rest. */
module BootReport {
  import opened Bytes
  import opened Splices
  import opened Assembler16
  import opened BootMachine
  import opened BootChain
  import opened BootRun
  import opened BootStart
  import opened BootPrint
  import opened BootShow
  import opened BootFloppy

  const FetchMessage := "Stage 2 load failed"
  const ImageMessage := "Image load failed"

  // ---- stage 1 ----

  lemma Lengths1(n: byte)
    ensures |LoadStage2(n)| == 20 && |Stage1Failure()| == 17 && |Stage1Data()| == 6
  {
  }

  lemma FailureShape1(n: byte)
    ensures |Stage1Program(n)| == 43 && |Stage1Failure()| == 17
    ensures forall k :: 0 <= k < 17 ==> Stage1Program(n)[20 + k] == Stage1Failure()[k]
  {
    hide LoadStage2, Stage1Failure, Stage1Data;
    Lengths1(n);
  }

  lemma PrinterItems1(n: byte)
    ensures var p := Stage1Program(n); (
      && |p| == 43 && p[24] == MarkLabel("print_string") && p[25] == Lodsb && p[26] == TestReg8WithSelf(AL)
      && p[27] == JzShort("print_done") && p[28] == MovRegImm8(AH, 0x0E) && p[29] == MovRegImm16(BX, 0x0007)
      && p[30] == Int(0x10) && p[31] == JmpShort("print_string") && p[32] == MarkLabel("print_done") && p[33] == Ret)
  {
    hide Stage1Program, LoadStage2, Stage1Data;
    FailureShape1(n);
    var p, q := Stage1Program(n), Stage1Failure();
    assert p[20 + 4] == q[4] && p[20 + 5] == q[5] && p[20 + 6] == q[6] && p[20 + 7] == q[7] && p[20 + 8] == q[8];
    assert p[20 + 9] == q[9] && p[20 + 10] == q[10] && p[20 + 11] == q[11] && p[20 + 12] == q[12];
    assert p[20 + 13] == q[13];
  }

  lemma SaysItems1(n: byte)
    ensures var p := Stage1Program(n); (
      && |p| == 43 && p[20] == MarkLabel("disk_error") && p[21] == MovRegImm16Label(SI, "disk_error_msg")
      && p[22] == CallNear("print_string") && p[39] == MarkLabel("disk_error_msg")
      && p[40] == Db(AsciiZ("Stage 2 load failed")))
  {
    hide Stage1Program, LoadStage2, AsciiZ;
    FailureShape1(n);
    Stage1Shape(n);
    var p, q, r := Stage1Program(n), Stage1Failure(), Stage1Data();
    assert p[20 + 0] == q[0] && p[20 + 1] == q[1] && p[20 + 2] == q[2];
    assert p[37 + 2] == r[2] && p[37 + 3] == r[3];
  }

  lemma RestItems1(n: byte)
    ensures var p := Stage1Program(n); (
      && |p| == 43 && p[23] == JmpShort("hang") && p[34] == MarkLabel("hang") && p[35] == Hlt
      && p[36] == JmpShort("hang"))
  {
    hide Stage1Program, LoadStage2, Stage1Data;
    FailureShape1(n);
    var p, q := Stage1Program(n), Stage1Failure();
    assert p[20 + 3] == q[3] && p[20 + 14] == q[14] && p[20 + 15] == q[15] && p[20 + 16] == q[16];
  }

  lemma CheckItems1(n: byte)
    ensures var p := Stage1Program(n); |p| == 43 && p[7] == Cld && p[18] == JcShort("disk_error")
  {
    hide Stage1Program, Stage1Failure, Stage1Data;
    Stage1Shape(n);
    assert Stage1Program(n)[7] == LoadStage2(n)[7] && Stage1Program(n)[18] == LoadStage2(n)[18];
  }

  lemma Printer1(x: Run1)
    requires Setting1(x)
    ensures Printer(x.g, 24)
  {
    hide Stage1Program, Offset, LabelIs, Linked;
    var n := x.sectors;
    PrinterItems1(n);
    CheckItems1(n);
    Stage1Homes(n, "print_string");
    Stage1Homes(n, "print_done");
    Before1(x, 34);
  }

  lemma Says1(x: Run1)
    requires Setting1(x)
    ensures SaysMessage(x.g, 21, 24, 39, FetchMessage)
  {
    hide Stage1Program, Offset, LabelIs, Linked, Printer, BootPrint.Printable, AsciiZ;
    Printer1(x);
    Before1(x, 23);
    Stage1Homes(x.sectors, "disk_error_msg");
    MessageBehind1(x);
    PlainMessage1();
    SaysItems1(x.sectors);
  }

  lemma MessageBehind1(x: Run1)
    requires Setting1(x)
    ensures x.g.hole < Offset(x.g.items, 39)
  {
    hide Stage1Program, Offset, Linked, Width;
    Stage1Tail(x.sectors);
    OffsetNext(x.g.items, 37);
    OffsetNext(x.g.items, 38);
  }

  lemma PlainMessage1()
    ensures BootPrint.Printable("Stage 2 load failed")
  {
  }

  lemma Rests1(x: Run1)
    requires Setting1(x)
    ensures RestsAt(x.g, 23, 34, "hang")
  {
    hide Stage1Program, Offset, LabelIs, Linked;
    Before1(x, 24);
    Before1(x, 37);
    Stage1Homes(x.sectors, "hang");
    CheckItems1(x.sectors);
    RestItems1(x.sectors);
  }

  /** Stage 1's disk request fails when a sector of stage 2 cannot be read. */
  lemma DiskFails1(m: Machine, x: Run1) returns (n: Machine)
    requires Setting1(x) && InProgram(m, x.g, 17) && Requesting(m, x) && !Readable(x.board, 1, x.sectors)
    ensures Step(m) == Some(n) && InProgram(n, x.g, 18) && n.carry && n.segs == [0, 0, 0, 0] && n.board == x.board
    ensures n.regs[SP] == 0x7C00
  {
    hide Linked, CodeLoaded, Offset, Step, Stage1Program, Get8, Meaning, Operand, ReadSectors, Names, Readable;
    CallMeanings1(x, 0, 0);
    Ready1(m, x, 17);
    NamesNothing(x.g.items, x.g.origin, 17);
    StepItem(m, x.g.code, x.g.items, x.g.origin, x.g.hole, x.g.v, 17, 0, 0);
    var next := m.(ip := x.g.origin + Offset(x.g.items, 18));
    forall q: Reg8 ensures Get8(next, q) == Get8(m, q) { GetFromRegs(next, m, q); }
    ReadFails(next, 1, x.sectors);
    n := ReadSectors(next);
    SameMemory(m, n, x.g);
  }

  /** A request for sectors that cannot all be read sets the carry flag and AH, and nothing else. */
  lemma ReadFails(m: Machine, lba: nat, count: byte)
    requires m.Valid() && Get8(m, AL) == count && Get8(m, CL) < 64 && Get8(m, CL) >= 1
    requires lba == (Get8(m, CH) as int * 2 + Get8(m, DH) as int) * 18 + Get8(m, CL) as int - 1
    requires !Readable(m.board, lba, count)
    ensures var n := ReadSectors(m);
            n == m.(carry := true, regs := n.regs) && n.Valid() && n.regs[SP] == m.regs[SP] && n.regs[SI] == m.regs[SI]
  {
    hide Set8, Get8, Readable;
    Set8Keeps(m.(carry := true), AH, 1);
  }

  /** Stage 1 with stage 2 unreadable, from its check of the carry flag to the halt. */
  lemma Complains1(m: Machine, x: Run1) returns (n: Machine, steps: nat)
    requires Setting1(x) && InProgram(m, x.g, 18) && m.carry && m.segs == [0, 0, 0, 0] && m.regs[SP] == 0x7C00
    ensures Reaches(m, n, steps) && Reported(m, n, FetchMessage)
  {
    hide Setting1, InProgram, SaysMessage, RestsAt, Reaches, Step, Reported, FetchMessage;
    Origin1(x);
    var a := Fails1(m, x);
    StandsValid(a, x.g, 21);
    Says1(x);
    Rests1(x);
    n, steps := ComplainsAfter(m, a, 1, x.g, 21, 24, 39, 34, "hang", FetchMessage);
  }

  lemma Origin1(x: Run1)
    requires Setting1(x)
    ensures x.g.origin == Stage1LoadOffset
  {
    hide Stage1Program;
  }

  lemma Fails1(m: Machine, x: Run1) returns (n: Machine)
    requires Setting1(x) && InProgram(m, x.g, 18) && m.carry
    ensures m.Valid() && Reaches(m, n, 1) && InProgram(n, x.g, 21) && KeptAll(m, n)
  {
    hide Stage1Program, Offset, LabelIs, Linked, InProgram, Reaches, AsciiZ;
    Before1(x, 19);
    Stage1Homes(x.sectors, "disk_error");
    CheckItems1(x.sectors);
    SaysItems1(x.sectors);
    n := Fails(m, x.g, 18, 20);
  }

  /** Stage 1 from reset with stage 2 unreadable. */
  lemma Stage1Reports(m: Machine, x: Run1, v: byte) returns (n: Machine, steps: nat)
    requires Setting1(x) && InProgram(m, x.g.(v := v), 0) && !Readable(x.board, 1, x.sectors)
    requires m.disk == x.disk && m.board == x.board && Get8(m, DL) == x.board.drive
    ensures Reaches(m, n, steps) && Reported(m, n, FetchMessage)
  {
    hide Setting1, InProgram, Reaches, Step, Reported, FetchMessage;
    StandsValid(m, x.g.(v := v), 0);
    var c := Stage1Fails(m, x, v);
    StandsValid(c, x.g, 18);
    var more;
    n, more := Complains1(c, x);
    steps := Joined(m, c, n, 17, more, FetchMessage);
  }

  lemma Stage1Fails(m: Machine, x: Run1, v: byte) returns (n: Machine)
    requires Setting1(x) && InProgram(m, x.g.(v := v), 0) && !Readable(x.board, 1, x.sectors)
    requires m.disk == x.disk && m.board == x.board && Get8(m, DL) == x.board.drive
    ensures Reaches(m, n, 17) && InProgram(n, x.g, 18) && n.carry && n.segs == [0, 0, 0, 0] && n.board == m.board
    ensures n.regs[SP] == 0x7C00
  {
    hide InProgram, Offset, Reaches, Linked, Stage1Program, Get8, Setting1, Step, Requesting, Readable;
    StandsValid(m, x.g.(v := v), 0);
    var b := Stage1Requests(m, x, v);
    RequestValid(b, x);
    n := DiskFails1(b, x);
    StandsValid(n, x.g, 18);
    Then(m, b, n, 16);
  }

  // ---- stage 2 ----

  lemma HandlerItems2(n: Word, t: seq<byte>)
    ensures var p := Stage2Program(n, t); (
      && |p| == 74 && p[52] == MarkLabel("disk_error") && p[53] == XorRegWithSelf(AX)
      && p[54] == MovSegmentFromReg(DS, AX))
  {
    hide Stage2Program, ShowImage;
    Stage2Middle(n, t);
    var p, q := Stage2Program(n, t), Stage2Failure();
    assert p[52 + 0] == q[0] && p[52 + 1] == q[1] && p[52 + 2] == q[2];
  }

  lemma SaysItems2(n: Word, t: seq<byte>)
    ensures var p := Stage2Program(n, t); (
      && |p| == 74 && p[55] == MovRegImm16Label(SI, "disk_error_msg") && p[56] == CallNear("print_string")
      && p[70] == MarkLabel("disk_error_msg") && p[71] == Db(AsciiZ("Image load failed")))
  {
    hide Stage2Program, ShowImage, Setup, ReadLoop, AsciiZ;
    Stage2Middle(n, t);
    Stage2Shape(n, t);
    var p, q, r := Stage2Program(n, t), Stage2Failure(), Stage2Data(t);
    assert p[52 + 3] == q[3] && p[52 + 4] == q[4];
    assert p[68 + 2] == r[2] && p[68 + 3] == r[3];
  }

  lemma PrinterItems2(n: Word, t: seq<byte>)
    ensures var p := Stage2Program(n, t); (
      && |p| == 74 && p[58] == MarkLabel("print_string") && p[59] == Lodsb && p[60] == TestReg8WithSelf(AL)
      && p[61] == JzShort("print_done") && p[62] == MovRegImm8(AH, 0x0E) && p[63] == MovRegImm16(BX, 0x0007)
      && p[64] == Int(0x10) && p[65] == JmpShort("print_string") && p[66] == MarkLabel("print_done") && p[67] == Ret)
  {
    hide Stage2Program, ShowImage;
    Stage2Middle(n, t);
    var p, q := Stage2Program(n, t), Stage2Failure();
    assert p[52 + 6] == q[6] && p[52 + 7] == q[7] && p[52 + 8] == q[8] && p[52 + 9] == q[9] && p[52 + 10] == q[10];
    assert p[52 + 11] == q[11] && p[52 + 12] == q[12] && p[52 + 13] == q[13] && p[52 + 14] == q[14];
    assert p[52 + 15] == q[15];
  }

  lemma RestItems2(n: Word, t: seq<byte>)
    ensures var p := Stage2Program(n, t); (
      && |p| == 74 && p[49] == MarkLabel("halt") && p[50] == Hlt && p[51] == JmpShort("halt")
      && p[57] == JmpShort("halt"))
  {
    hide Stage2Program;
    Stage2Middle(n, t);
    var p, q := Stage2Program(n, t), ShowImage();
    assert p[29 + 20] == q[20] && p[29 + 21] == q[21] && p[29 + 22] == q[22];
    assert p[52 + 5] == Stage2Failure()[5];
  }

  lemma Printer2(x: Run2)
    requires Setting(x)
    ensures Printer(x.g, 58)
  {
    hide Stage2Program, Offset, LabelIs, Linked;
    ClearsDirection(x);
    PrinterItems2(x.count, x.table);
    Stage2Homes(x.count, x.table, "print_string");
    Stage2Homes(x.count, x.table, "print_done");
    Addresses(x);
  }

  lemma Says2(x: Run2)
    requires Setting(x)
    ensures SaysMessage(x.g, 55, 58, 70, ImageMessage)
  {
    hide Stage2Program, Offset, LabelIs, Linked, Printer, BootPrint.Printable, AsciiZ;
    Printer2(x);
    Stage2Homes(x.count, x.table, "disk_error_msg");
    MessageBehind2(x);
    PlainMessage2();
    SaysItems2(x.count, x.table);
  }

  lemma MessageBehind2(x: Run2)
    requires Setting(x)
    ensures x.g.hole < Offset(x.g.items, 70) && Offset(x.g.items, 57) <= x.g.hole
  {
    hide Stage2Program, Offset, Linked, Width;
    Addresses(x);
    Stage2Tail(x.count, x.table);
    OffsetNext(x.g.items, 68);
    OffsetNext(x.g.items, 69);
  }

  lemma PlainMessage2()
    ensures BootPrint.Printable("Image load failed")
  {
  }

  lemma Rests2(x: Run2)
    requires Setting(x)
    ensures RestsAt(x.g, 57, 49, "halt")
  {
    hide Stage2Program, Offset, LabelIs, Linked;
    ClearsDirection(x);
    Stage2Homes(x.count, x.table, "halt");
    Addresses(x);
    RestItems2(x.count, x.table);
  }

  /** The disk request of round `i` fails when its sector cannot be read. */
  lemma DiskFails2(m: Machine, x: Run2, i: nat) returns (n: Machine)
    requires Setting(x) && i < x.count && InLoop(m, x, 23) && |x.table| == 3 * x.count
    requires Get8(m, AH) == 2 && Get8(m, AL) == 1
    requires Get8(m, CH) == x.table[3 * i] && Get8(m, DH) == x.table[3 * i + 1] && Get8(m, CL) == x.table[3 * i + 2]
    requires !Readable(x.board, x.start + i, 1)
    ensures Step(m) == Some(n) && InProgram(n, x.g, 24) && n.carry && n.board == x.board
    ensures n.segs == [ImageBufferSegment, 0, 0, 0] && n.regs[SP] == m.regs[SP]
  {
    hide Linked, CodeLoaded, Offset, Step, Stage2Program, Get8, Meaning, Operand, ReadSectors, Names, SectorTable,
         Readable;
    TailMeanings(x, 0, 0);
    LoopReady(m, x, 23);
    NamesNothing(x.g.items, x.g.origin, 23);
    StepItem(m, x.g.code, x.g.items, x.g.origin, x.g.hole, x.g.v, 23, 0, 0);
    var next := m.(ip := x.g.origin + Offset(x.g.items, 24));
    forall q: Reg8 ensures Get8(next, q) == Get8(m, q) { GetFromRegs(next, m, q); }
    TableEntry(x.start, x.count, i);
    ChsInverse(x.start + i);
    ReadFails(next, x.start + i, 1);
    n := ReadSectors(next);
    SameMemory(m, n, x.g);
  }

  /** Stage 2 with a sector of the image unreadable, from its check of the carry flag to the halt. */
  lemma Complains2(m: Machine, x: Run2) returns (n: Machine, steps: nat)
    requires Setting(x) && InProgram(m, x.g, 24) && m.carry && m.regs[SP] == 0x79FE
    requires m.segs == [ImageBufferSegment, 0, 0, 0]
    ensures Reaches(m, n, steps) && Reported(m, n, ImageMessage)
  {
    hide Setting, InProgram, SaysMessage, RestsAt, Reaches, Step, Reported, ImageMessage;
    Origin2(x);
    var a := Enters2(m, x);
    StandsValid(a, x.g, 55);
    Says2(x);
    Rests2(x);
    n, steps := ComplainsAfter(m, a, 3, x.g, 55, 58, 70, 49, "halt", ImageMessage);
  }

  lemma Origin2(x: Run2)
    requires Setting(x)
    ensures x.g.origin == Stage2LoadOffset
  {
    hide Stage2Program;
  }

  /** The error path clears AX and DS first. */
  lemma Enters2(m: Machine, x: Run2) returns (n: Machine)
    requires Setting(x) && InProgram(m, x.g, 24) && m.carry && m.segs == [ImageBufferSegment, 0, 0, 0]
    ensures m.Valid() && Reaches(m, n, 3) && InProgram(n, x.g, 55) && n.segs == m.segs && n.board == m.board
    ensures n.regs[SP] == m.regs[SP]
  {
    hide Setting, InProgram, Reaches, Meaning, Operand, Names, Offset;
    n := Fails2(m, x);
    ClearMeanings2(x);
    Ends2(x);
    n := WalkZero(m, n, 1, x.g, 53, AX);
    n := WalkSegment(m, n, 2, x.g, 54, DS, AX);
  }

  lemma Fails2(m: Machine, x: Run2) returns (n: Machine)
    requires Setting(x) && InProgram(m, x.g, 24) && m.carry
    ensures m.Valid() && Reaches(m, n, 1) && InProgram(n, x.g, 53) && KeptAll(m, n)
  {
    hide Stage2Program, Offset, LabelIs, Linked, InProgram, Reaches;
    ClearsDirection(x);
    Stage2Homes(x.count, x.table, "disk_error");
    CheckItem2(x);
    HandlerItems2(x.count, x.table);
    Addresses(x);
    n := Fails(m, x.g, 24, 52);
  }

  lemma CheckItem2(x: Run2)
    requires Setting(x)
    ensures x.g.items[24] == JcShort("disk_error")
  {
    hide Stage2Program;
    LoopItems(x.count, x.table);
  }

  lemma ClearMeanings2(x: Run2)
    requires Setting(x)
    ensures Meaning(x.g.items[53], 0, 0) == Some(XorSelf(AX)) && Meaning(x.g.items[54], 0, 0) == Some(MovSeg(DS, AX))
    ensures Names(x.g.items, x.g.origin, 53, 0, 0) && Names(x.g.items, x.g.origin, 54, 0, 0)
  {
    hide Stage2Program, Linked, Meaning, Operand, Names;
    HandlerItems2(x.count, x.table);
    PlainMeanings();
    NamesNothing(x.g.items, x.g.origin, 53);
    NamesNothing(x.g.items, x.g.origin, 54);
  }

  lemma Ends2(x: Run2)
    requires Setting(x)
    ensures Offset(x.g.items, 54) <= x.g.hole && Offset(x.g.items, 55) <= x.g.hole
  {
    hide Stage2Program, Offset, Linked;
    Addresses(x);
  }

  lemma PictureSleeps(m: Machine, x: Run2)
    requires Setting(x) && Showing(m, x, 50)
    ensures Asleep(m)
  {
    hide InProgram, Setting, Asleep, Showing, RestsAt;
    HaltReached(m, x);
    Rests2(x);
    HaltSleeps(m, x.g, 57, 49, "halt");
  }

  lemma HaltReached(m: Machine, x: Run2)
    requires Setting(x) && Showing(m, x, 50)
    ensures InProgram(m, x.g, 50)
  {
    hide Stage2Program, CodeLoaded, Offset, SectorTable;
  }

  /** The rounds before the first sector that cannot be read. */
  lemma LoopUntil(m: Machine, x: Run2, i: nat) returns (n: Machine, steps: nat)
    requires Setting(x) && i < x.count && InLoop(m, x, 16) && Round(m, x, 0) && m.regs[CX] == x.count
    requires Readable(x.board, x.start, i)
    ensures Reaches(m, n, steps) && InLoop(n, x, 16) && Round(n, x, i)
  {
    if i == 0 {
      n, steps := m, 0;
      ReachesHere(m);
    } else {
      hide InLoop, Round, Setting, Reaches, Step, Readable;
      n, steps := RunLoop(m, x, 0, i);
    }
  }

  /** A round whose sector cannot be read, up to the check of the carry flag. */
  lemma RoundFails(m: Machine, x: Run2, i: nat) returns (n: Machine)
    requires Setting(x) && i < x.count && InLoop(m, x, 16) && Round(m, x, i) && !Readable(x.board, x.start + i, 1)
    ensures Reaches(m, n, 8) && InProgram(n, x.g, 24) && n.carry && n.board == x.board && n.regs[SP] == 0x79FE
    ensures n.segs == [ImageBufferSegment, 0, 0, 0]
  {
    hide InLoop, Round, Setting, Reaches, Step, Readable, Get8, InProgram, Splice, Le16;
    LoopValid(m, x, 16);
    var b := LoadRegisters(m, x, i);
    LoopValid(b, x, 23);
    n := DiskFails2(b, x, i);
    StandsValid(n, x.g, 24);
    Then(m, b, n, 7);
  }

  lemma LoopValid(m: Machine, x: Run2, k: nat)
    requires Setting(x) && k <= 29 && InLoop(m, x, k)
    ensures m.Valid() && m.board == x.board
  {
    hide Setting;
  }

  /** From the round whose sector cannot be read to the halt. */
  lemma RoundReports(m: Machine, a: Machine, before: nat, x: Run2, i: nat) returns (n: Machine, steps: nat)
    requires m.Valid() && Reaches(m, a, before) && a.board == m.board
    requires Setting(x) && i < x.count && InLoop(a, x, 16) && Round(a, x, i) && !Readable(x.board, x.start + i, 1)
    ensures Reaches(m, n, steps) && Reported(m, n, ImageMessage)
  {
    hide InLoop, Round, Setting, Reaches, Step, Readable, InProgram, Reported, ImageMessage;
    LoopValid(a, x, 16);
    var b := RoundFails(a, x, i);
    StandsValid(b, x.g, 24);
    ReachesTransitive(m, a, b, before, 8);
    var more;
    n, more := Complains2(b, x);
    steps := Joined(m, b, n, before + 8, more, ImageMessage);
  }

  /** Stage 2's loop up to a sector that cannot be read, and from there to the halt. */
  lemma LoopReports(m: Machine, x: Run2, i: nat) returns (n: Machine, steps: nat)
    requires Setting(x) && i < x.count && InLoop(m, x, 16) && Round(m, x, 0) && m.regs[CX] == x.count
    requires Readable(x.board, x.start, i) && !Readable(x.board, x.start + i, 1)
    ensures Reaches(m, n, steps) && Reported(m, n, ImageMessage)
  {
    hide InLoop, Round, Setting, Reaches, Step, Readable, InProgram, Reported, ImageMessage;
    LoopValid(m, x, 16);
    var a, before := LoopUntil(m, x, i);
    LoopValid(a, x, 16);
    n, steps := RoundReports(m, a, before, x, i);
  }

  /** Of sectors that cannot all be read there is a first one. */
  lemma {:induction false} FirstDamaged(board: Board, lba: nat, n: nat) returns (i: nat)
    requires !Readable(board, lba, n)
    ensures i < n && Readable(board, lba, i) && !Readable(board, lba + i, 1)
  {
    if Readable(board, lba, n - 1) {
      i := n - 1;
      assert lba + i in board.damaged;
    } else {
      i := FirstDamaged(board, lba, n - 1);
    }
  }

  // ---- every boot ----

  lemma ResetFacts(m: Machine, disk: seq<byte>)
    requires AfterReset(m, disk)
    ensures m.Valid() && m.disk == disk && Get8(m, DL) == m.board.drive
  {
  }

  lemma BootReportsStage2(b: Build, image: seq<byte>, m: Machine) returns (n: Machine, steps: nat)
    requires WellBuilt(b, image) && AfterReset(m, b.disk) && !Readable(m.board, 1, Sectors(b.stage2))
    ensures Reaches(m, n, steps) && Reported(m, n, "Stage 2 load failed")
  {
    hide Setting1, InProgram, Reaches, Get8, WellBuilt, AfterReset, Sectors, Readable, Reported;
    ResetFacts(m, b.disk);
    var x := StartStage1(b, image, m);
    var v :| InProgram(m, x.g.(v := v), 0);
    n, steps := Stage1Reports(m, x, v);
  }

  lemma BootReportsImage(b: Build, image: seq<byte>, m: Machine) returns (n: Machine, steps: nat)
    requires WellBuilt(b, image) && 0 < |image| <= 128 * SectorSize && AfterReset(m, b.disk)
    requires Readable(m.board, 1, Sectors(b.stage2))
    requires !Readable(m.board, 1 + Sectors(b.stage2), Sectors(image))
    ensures Reaches(m, n, steps) && Reported(m, n, "Image load failed")
  {
    hide Setting, InLoop, Round, Reaches, WellBuilt, AfterReset, Sectors, Readable, Reported;
    assert m.Valid();
    SectorCount(image);
    var top, y := BootToLoop(b, image, m);
    LoopValid(top, y, 16);
    var i := FirstDamaged(m.board, y.start, y.count);
    var rest;
    n, rest := LoopReports(top, y, i);
    steps := Joined(m, top, n, 33, rest, "Image load failed");
  }

  /** Every boot of a floppy built for a picture comes to rest, whichever sectors are damaged: with
      the picture on display when none is that it reads, else with the message of the stage that
      needed one of them. */
  lemma BootEnds(b: Build, image: seq<byte>, m: Machine) returns (n: Machine, steps: nat)
    requires WellBuilt(b, image) && PictureBytes <= |image| <= 128 * SectorSize && AfterReset(m, b.disk)
    ensures Reaches(m, n, steps) && Asleep(n)
    ensures (forall l <- m.board.damaged :: l == 0 || l > Sectors(b.stage2) + Sectors(image)) ==> OnDisplay(image, m, n)
    ensures (exists l <- m.board.damaged :: 1 <= l <= Sectors(b.stage2)) ==> Reported(m, n, "Stage 2 load failed")
    ensures (forall l <- m.board.damaged :: l == 0 || l > Sectors(b.stage2))
              && (exists l <- m.board.damaged :: Sectors(b.stage2) < l <= Sectors(b.stage2) + Sectors(image)) ==>
              Reported(m, n, "Image load failed")
  {
    hide WellBuilt, AfterReset, Reaches, Step, OnDisplay, Sectors, Readable, Intact, Asleep, Characters;
    DamageSeen(m.board, b, image);
    if Intact(m.board, b, image) {
      var y;
      n, y, steps := BootToPicture(b, image, m);
      PictureSleeps(n, y);
    } else if Readable(m.board, 1, Sectors(b.stage2)) {
      n, steps := BootReportsImage(b, image, m);
    } else {
      n, steps := BootReportsStage2(b, image, m);
    }
  }

  /** The sectors a boot reads: 1 to the end of stage 2, then the image's. */
  lemma DamageSeen(board: Board, b: Build, image: seq<byte>)
    ensures Readable(board, 1, Sectors(b.stage2)) <==> forall l <- board.damaged :: l == 0 || l > Sectors(b.stage2)
    ensures Intact(board, b, image) <==> forall l <- board.damaged :: l == 0 || l > Sectors(b.stage2) + Sectors(image)
    ensures Intact(board, b, image) <==>
              Readable(board, 1, Sectors(b.stage2)) && Readable(board, 1 + Sectors(b.stage2), Sectors(image))
  {
    hide Sectors;
    ReadableSplit(board, 1, Sectors(b.stage2), Sectors(image));
  }

  lemma ReadableSplit(board: Board, lba: nat, a: nat, b: nat)
    ensures Readable(board, lba, a + b) <==> Readable(board, lba, a) && Readable(board, lba + a, b)
  {
  }
}
