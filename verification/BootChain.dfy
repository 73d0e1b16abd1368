/** The floppy boot chain: sector table, disk image, the two boot programs, and what the
    machine does with them (BuildStage1, BuildStage2, BuildSectorTable, LbaToChs,
    BuildDiskImage and the layout steps of Main in Program.cs). */
module BootChain {
  import opened Bytes
  import opened Assembler16
  import opened BootMachine

  const SectorSize := 512
  const FloppySize := 1474560
  const Stage1LoadOffset := 0x7C00
  const Stage2LoadOffset := 0x8000
  const ImageBufferSegment := 0x2000
  const ImageAddress := 0x20000

  // ---- geometry ----

  datatype Chs = Chs(cylinder: byte, head: byte, sector: byte)

  datatype BuildError =
    | CylinderOverflow
    | WrongStage1Size
    | TooLarge
    | Stage2TooLong
    | AssemblyFailed(error: AssembleError)

  function LbaToChs(lba: nat): Result<Chs, BuildError> {
    var cylinder := lba / 36;
    var remainder := lba % 36;
    if cylinder > 255 then Err(CylinderOverflow)
    else Ok(Chs(cylinder, remainder / 18, remainder % 18 + 1))
  }

  /** The conversion fails only past cylinder 255, and the address is recovered from it. */
  lemma ChsInverse(lba: nat)
    ensures LbaToChs(lba).Ok? <==> lba < 256 * 36
    ensures LbaToChs(lba).Ok? ==>
              var t := LbaToChs(lba).value;
              (t.cylinder as int * 2 + t.head as int) * 18 + t.sector as int - 1 == lba
              && t.head < 2 && 1 <= t.sector <= 18
  {
  }

  /** The three bytes of every sector from `start` on. */
  function SectorTable(start: nat, n: nat): seq<byte>
    requires start + n <= 9216
    ensures |SectorTable(start, n)| == 3 * n
  {
    if n == 0 then [] else
      ChsInverse(start + n - 1);
      var t := LbaToChs(start + n - 1).value;
      SectorTable(start, n - 1) + [t.cylinder, t.head, t.sector]
  }

  method BuildSectorTable(startLba: nat, sectorCount: nat) returns (r: Result<seq<byte>, BuildError>)
    ensures r.Ok? <==> sectorCount == 0 || startLba + sectorCount <= 9216
    ensures r.Ok? && sectorCount > 0 ==> r.value == SectorTable(startLba, sectorCount)
    ensures r.Ok? ==> |r.value| == 3 * sectorCount
  {
    var table: seq<byte> := [];
    var i := 0;
    while i < sectorCount
      invariant 0 <= i <= sectorCount && (i > 0 ==> startLba + i <= 9216)
      invariant table == if i == 0 then [] else SectorTable(startLba, i)
    {
      ChsInverse(startLba + i);
      var chs := LbaToChs(startLba + i);
      if chs.Err? {
        return Err(chs.error);
      }
      table := table + [chs.value.cylinder, chs.value.head, chs.value.sector];
      i := i + 1;
    }
    return Ok(table);
  }

  lemma {:induction false} TableEntry(start: nat, n: nat, i: nat)
    requires start + n <= 9216 && i < n
    ensures LbaToChs(start + i).Ok?
    ensures var t, s := LbaToChs(start + i).value, SectorTable(start, n);
            s[3 * i] == t.cylinder && s[3 * i + 1] == t.head && s[3 * i + 2] == t.sector
  {
    ChsInverse(start + i);
    if i < n - 1 { TableEntry(start, n - 1, i); }
  }

  // ---- the programs ----

  function AsciiZ(text: string): seq<byte> {
    seq(|text|, i requires 0 <= i < |text| => text[i] as int % 256) + [0]
  }

  /** Stage 1 up to the jump into stage 2. */
  function LoadStage2(stage2SectorCount: byte): seq<Instr> {
    [MarkLabel("start"), Cli, XorRegWithSelf(AX), MovSegmentFromReg(DS, AX), MovSegmentFromReg(ES, AX),
     MovSegmentFromReg(SS, AX), MovRegImm16(SP, 0x7C00), Cld, Sti, MovMem8AbsoluteFromReg8("boot_drive", DL),
     MovRegImm8(AH, 0x02), MovRegImm8(AL, stage2SectorCount), MovRegImm16(BX, Stage2LoadOffset),
     MovRegImm8(CH, 0x00), MovRegImm8(CL, 0x02), MovRegImm8(DH, 0x00), MovReg8FromMem8Absolute(DL, "boot_drive"),
     Int(0x13), JcShort("disk_error"), JmpFar(0x0000, Stage2LoadOffset)]
  }

  function Stage1Failure(): seq<Instr> {
    [MarkLabel("disk_error"), MovRegImm16Label(SI, "disk_error_msg"), CallNear("print_string"), JmpShort("hang"),
     MarkLabel("print_string"), Lodsb, TestReg8WithSelf(AL), JzShort("print_done"), MovRegImm8(AH, 0x0E),
     MovRegImm16(BX, 0x0007), Int(0x10), JmpShort("print_string"), MarkLabel("print_done"), Ret,
     MarkLabel("hang"), Hlt, JmpShort("hang")]
  }

  function Stage1Data(): seq<Instr> {
    [MarkLabel("boot_drive"), Db([0x00]), MarkLabel("disk_error_msg"), Db(AsciiZ("Stage 2 load failed")),
     PadToSize(510), Db([0x55, 0xAA])]
  }

  function Stage1Program(stage2SectorCount: byte): seq<Instr> {
    LoadStage2(stage2SectorCount) + (Stage1Failure() + Stage1Data())
  }

  /** Stage 2 up to its loop. */
  function Setup(imageSectorCount: Word): seq<Instr> {
    [MarkLabel("start"), Cli, XorRegWithSelf(AX), MovSegmentFromReg(DS, AX), MovSegmentFromReg(ES, AX),
     MovSegmentFromReg(SS, AX), MovRegImm16(SP, 0x7A00), Cld, Sti, MovMem8AbsoluteFromReg8("boot_drive", DL),
     MovRegImm16(AX, ImageBufferSegment), MovSegmentFromReg(ES, AX), XorRegWithSelf(BX),
     MovRegImm16Label(SI, "sector_table"), MovRegImm16(CX, imageSectorCount)]
  }

  function ReadLoop(): seq<Instr> {
    [MarkLabel("read_loop"), PushReg(CX), MovRegImm8(AH, 0x02), MovRegImm8(AL, 0x01),
     MovReg8FromSiOffset(CH, 0), MovReg8FromSiOffset(DH, 1), MovReg8FromSiOffset(CL, 2),
     MovReg8FromMem8Absolute(DL, "boot_drive"), Int(0x13), JcShort("disk_error"),
     AddRegImm16(SI, 3), AddRegImm16(BX, 512), PopReg(CX), LoopShort("read_loop")]
  }

  /** What stage 2 does once the image is in memory. */
  function ShowImage(): seq<Instr> {
    [MovRegImm16(AX, 0x0013), Int(0x10), MovRegImm16(AX, ImageBufferSegment), MovSegmentFromReg(DS, AX),
     XorRegWithSelf(SI), MovRegImm16(DX, 0x03C8), MovRegImm8(AL, 0x00), OutDxAl, IncReg(DX), MovRegImm16(CX, 768),
     MarkLabel("palette_loop"), Lodsb, OutDxAl, LoopShort("palette_loop"),
     MovRegImm16(SI, 0x0300), MovRegImm16(AX, 0xA000), MovSegmentFromReg(ES, AX), XorRegWithSelf(DI),
     MovRegImm16(CX, 32000), RepMovsw, MarkLabel("halt"), Hlt, JmpShort("halt")]
  }

  function Stage2Failure(): seq<Instr> {
    [MarkLabel("disk_error"), XorRegWithSelf(AX), MovSegmentFromReg(DS, AX), MovRegImm16Label(SI, "disk_error_msg"),
     CallNear("print_string"), JmpShort("halt"), MarkLabel("print_string"), Lodsb, TestReg8WithSelf(AL),
     JzShort("print_done"), MovRegImm8(AH, 0x0E), MovRegImm16(BX, 0x0007), Int(0x10), JmpShort("print_string"),
     MarkLabel("print_done"), Ret]
  }

  function Stage2Data(table: seq<byte>): seq<Instr> {
    [MarkLabel("boot_drive"), Db([0x00]), MarkLabel("disk_error_msg"), Db(AsciiZ("Image load failed")),
     MarkLabel("sector_table"), Db(table)]
  }

  function Stage2Program(imageSectorCount: Word, table: seq<byte>): seq<Instr> {
    Setup(imageSectorCount) + (ReadLoop() + (ShowImage() + (Stage2Failure() + Stage2Data(table))))
  }

  // ---- where items and labels end up ----

  ghost predicate LabelIs(program: seq<Instr>, origin: nat, name: string, offset: nat) {
    var labels := Labels(program, origin, |program|); name in labels && labels[name] == origin + offset
  }

  /** The last mark of a label fixes its address. */
  lemma {:induction false} LabelHere(program: seq<Instr>, origin: nat, k: nat)
    requires k < |program| && program[k].MarkLabel?
    requires forall j :: k < j < |program| && program[j].MarkLabel? ==> program[j].name != program[k].name
    ensures LabelIs(program, origin, program[k].name, Offset(program, k))
  {
    LabelKept(program, origin, k, |program|);
  }

  lemma {:induction false} LabelKept(program: seq<Instr>, origin: nat, k: nat, n: nat)
    requires k < n <= |program| && program[k].MarkLabel?
    requires forall j :: k < j < n && program[j].MarkLabel? ==> program[j].name != program[k].name
    ensures var labels := Labels(program, origin, n);
            program[k].name in labels && labels[program[k].name] == origin + Offset(program, k)
  {
    hide Opcode, Operand, Offset;
    if n > k + 1 { LabelKept(program, origin, k, n - 1); }
  }

  /** Every instruction but data, padding and the far jump takes at most four bytes. */
  predicate Short(i: Instr) {
    !i.Db? && !i.PadToSize? && !i.JmpFar?
  }

  lemma ShortWidth(i: Instr, at: nat)
    requires Short(i)
    ensures Width(i, at) <= 4
  {
  }

  lemma {:induction false} SpanBound(program: seq<Instr>, i: nat, j: nat)
    requires i <= j <= |program| && forall k :: i <= k < j ==> Short(program[k])
    ensures Offset(program, i) <= Offset(program, j) <= Offset(program, i) + 4 * (j - i)
  {
    hide Opcode, Operand, Short;
    if i < j {
      SpanBound(program, i, j - 1);
      ShortWidth(program[j - 1], Offset(program, j - 1));
    }
  }
}
