/** Building the floppy: both programs always assemble, the two passes over stage 2 agree on its
    length, and the finished disk boots to the image. */
module BootFloppy {
  import opened Bytes
  import opened Splices
  import opened Assembler16
  import opened BootMachine
  import opened BootChain
  import opened BootRun
  import opened BootStart
  import opened BootShow

  // ---- every label of the two programs is within reach ----

  /** Distance from the end of item `k` to item `j` when only short instructions lie between. */
  lemma ShortDistance(p: seq<Instr>, k: nat, j: nat)
    requires k < |p| && j < |p| && -32 <= j - (k + 1) <= 31
    requires (forall i :: k < i < j ==> Short(p[i])) && (forall i :: j <= i <= k ==> Short(p[i]))
    ensures -128 <= Offset(p, j) - Offset(p, k + 1) <= 127
  {
    hide Offset, Short;
    if k < j { SpanBound(p, k + 1, j); } else { SpanBound(p, j, k + 1); }
  }

  lemma DistanceResolves(p: seq<Instr>, origin: nat, k: nat, j: nat)
    requires k < |p| && j < |p| && Operand(p[k]).Some? && LabelIs(p, origin, Operand(p[k]).value.name, Offset(p, j))
    requires !Operand(p[k]).value.kind.Absolute16? ==> -128 <= Offset(p, j) - Offset(p, k + 1) <= 127
    ensures Resolvable(p, origin, k)
  {
    hide Opcode, Operand, Labels, Offset;
    OffsetNext(p, k);
  }

  /** A reference resolves when nothing but short instructions lies between it and its label. */
  lemma ReferenceResolves(p: seq<Instr>, origin: nat, k: nat, j: nat)
    requires k < |p| && j < |p| && Operand(p[k]).Some? && LabelIs(p, origin, Operand(p[k]).value.name, Offset(p, j))
    requires !Operand(p[k]).value.kind.Absolute16? ==>
               (forall i :: k < i < j ==> Short(p[i])) && (forall i :: j <= i <= k ==> Short(p[i]))
                 && -32 <= j - (k + 1) <= 31
    ensures Resolvable(p, origin, k)
  {
    hide Opcode, Operand, Labels, Offset, Short, LabelIs, Resolvable;
    if !Operand(p[k]).value.kind.Absolute16? { ShortDistance(p, k, j); }
    DistanceResolves(p, origin, k, j);
  }

  /** Where stage 2 marks each label it refers to. */
  function Home2(name: string): nat {
    if name == "read_loop" then 15 else if name == "palette_loop" then 39 else if name == "halt" then 49
    else if name == "disk_error" then 52 else if name == "print_string" then 58 else if name == "print_done" then 66
    else if name == "boot_drive" then 68 else if name == "disk_error_msg" then 70 else 72
  }

  /** Item `k` refers to a listed label within reach, and marks only labels that belong there. */
  predicate Refers2(i: Instr, k: nat) {
    MarkedAt2(i, k) && ReachesLabel2(Operand(i), k)
  }

  predicate MarkedAt2(i: Instr, k: nat) {
    i.MarkLabel? && i.name != "start" ==> Home2(i.name) == k
  }

  predicate IsLabel2(name: string) {
    name in ["read_loop", "palette_loop", "halt", "disk_error", "print_string", "print_done",
             "boot_drive", "disk_error_msg", "sector_table"]
  }

  predicate ReachesLabel2(ref: Option<Reference>, k: nat) {
    ref.Some? ==>
      && IsLabel2(ref.value.name)
      && (!ref.value.kind.Absolute16? ==> Home2(ref.value.name) < 68 && -32 <= Home2(ref.value.name) - (k + 1) <= 31)
  }

  lemma SetupRefers(n: Word)
    ensures |Setup(n)| == 15
    ensures forall k | 0 <= k < 15 :: Short(Setup(n)[k]) && Refers2(Setup(n)[k], k)
  {
  }

  lemma LoopRefers()
    ensures |ReadLoop()| == 14
    ensures forall k | 0 <= k < 14 :: Short(ReadLoop()[k]) && Refers2(ReadLoop()[k], 15 + k)
  {
  }

  lemma ShowRefers()
    ensures |ShowImage()| == 23 && forall k | 0 <= k < 23 :: Short(ShowImage()[k]) && Refers2(ShowImage()[k], 29 + k)
  {
  }

  lemma FailureRefers()
    ensures |Stage2Failure()| == 16 && forall k | 0 <= k < 16 ::
              Short(Stage2Failure()[k]) && Refers2(Stage2Failure()[k], 52 + k)
  {
  }

  lemma Stage2Refers(n: Word, t: seq<byte>)
    ensures |Stage2Program(n, t)| == 74
    ensures forall k | 0 <= k < 68 :: Refers2(Stage2Program(n, t)[k], k)
    ensures forall k | 0 <= k < 68 :: Short(Stage2Program(n, t)[k])
    ensures forall k | 68 <= k < 74 :: Operand(Stage2Program(n, t)[k]).None? && MarkedAt2(Stage2Program(n, t)[k], k)
  {
    SetupRefers(n);
    LoopRefers();
    ShowRefers();
    FailureRefers();
    assert |Stage2Data(t)| == 6 && forall k | 0 <= k < 6 ::
             Operand(Stage2Data(t)[k]).None? && MarkedAt2(Stage2Data(t)[k], 68 + k);
    hide Setup, ReadLoop, ShowImage, Stage2Failure, Stage2Data, Refers2, Short, MarkedAt2, Operand;
    forall k | 0 <= k < 74
      ensures if k < 68 then Refers2(Stage2Program(n, t)[k], k) && Short(Stage2Program(n, t)[k])
              else Operand(Stage2Program(n, t)[k]).None? && MarkedAt2(Stage2Program(n, t)[k], k)
    {
      if k < 15 {
        assert Stage2Program(n, t)[k] == Setup(n)[k];
      } else if k < 29 {
        assert Stage2Program(n, t)[k] == ReadLoop()[k - 15];
      } else if k < 52 {
        assert Stage2Program(n, t)[k] == ShowImage()[k - 29];
      } else if k < 68 {
        assert Stage2Program(n, t)[k] == Stage2Failure()[k - 52];
      } else {
        assert Stage2Program(n, t)[k] == Stage2Data(t)[k - 68];
      }
    }
  }

  lemma PartMarks(t: seq<byte>)
    ensures |ReadLoop()| == 14 && |ShowImage()| == 23 && |Stage2Failure()| == 16 && |Stage2Data(t)| == 6
    ensures ReadLoop()[0] == MarkLabel("read_loop") && ShowImage()[10] == MarkLabel("palette_loop")
    ensures ShowImage()[20] == MarkLabel("halt")
    ensures Stage2Failure()[0] == MarkLabel("disk_error") && Stage2Failure()[6] == MarkLabel("print_string")
    ensures Stage2Failure()[14] == MarkLabel("print_done") && Stage2Data(t)[0] == MarkLabel("boot_drive")
    ensures Stage2Data(t)[2] == MarkLabel("disk_error_msg") && Stage2Data(t)[4] == MarkLabel("sector_table")
  {
  }

  lemma MarkItems(n: Word, t: seq<byte>)
    ensures var p := Stage2Program(n, t); (
      && |p| == 74 && p[15] == MarkLabel("read_loop") && p[39] == MarkLabel("palette_loop")
      && p[49] == MarkLabel("halt")
      && p[52] == MarkLabel("disk_error") && p[58] == MarkLabel("print_string") && p[66] == MarkLabel("print_done")
      && p[68] == MarkLabel("boot_drive") && p[70] == MarkLabel("disk_error_msg") && p[72] == MarkLabel("sector_table"))
  {
    PartMarks(t);
    Stage2Shape(n, t);
    Stage2Middle(n, t);
    hide Stage2Program, Setup, ReadLoop, ShowImage, Stage2Failure, Stage2Data;
    var p := Stage2Program(n, t);
    assert p[15 + 0] == ReadLoop()[0] && p[29 + 10] == ShowImage()[10] && p[29 + 20] == ShowImage()[20];
    assert p[52 + 0] == Stage2Failure()[0] && p[52 + 6] == Stage2Failure()[6] && p[52 + 14] == Stage2Failure()[14];
    assert p[68 + 0] == Stage2Data(t)[0] && p[68 + 2] == Stage2Data(t)[2] && p[68 + 4] == Stage2Data(t)[4];
  }

  lemma Stage2Marks(n: Word, t: seq<byte>)
    ensures |Stage2Program(n, t)| == 74
    ensures forall name | IsLabel2(name) :: Stage2Program(n, t)[Home2(name)] == MarkLabel(name)
  {
    hide Stage2Program;
    MarkItems(n, t);
    forall name | IsLabel2(name) ensures Stage2Program(n, t)[Home2(name)] == MarkLabel(name) {
      HomeCases(name);
    }
  }

  lemma HomeCases(name: string)
    requires IsLabel2(name)
    ensures var h := Home2(name); (
      || (h == 15 && name == "read_loop") || (h == 39 && name == "palette_loop") || (h == 49 && name == "halt")
      || (h == 52 && name == "disk_error") || (h == 58 && name == "print_string") || (h == 66 && name == "print_done")
      || (h == 68 && name == "boot_drive") || (h == 70 && name == "disk_error_msg")
      || (h == 72 && name == "sector_table"))
  {
  }

  lemma Stage2Homes(n: Word, t: seq<byte>, name: string)
    requires IsLabel2(name)
    ensures |Stage2Program(n, t)| == 74
    ensures LabelIs(Stage2Program(n, t), Stage2LoadOffset, name, Offset(Stage2Program(n, t), Home2(name)))
  {
    hide Offset, Labels, Opcode, Operand, LabelIs, Stage2Program;
    Stage2Refers(n, t);
    Stage2Marks(n, t);
    var p := Stage2Program(n, t);
    forall j | Home2(name) < j < |p| && p[j].MarkLabel? ensures p[j].name != name {
      assert MarkedAt2(p[j], j) by { if j < 68 { assert Refers2(p[j], j); } }
    }
    LabelHere(p, Stage2LoadOffset, Home2(name));
  }

  /** Stage 2 assembles whatever the table holds. */
  lemma Stage2Resolves(n: Word, t: seq<byte>)
    ensures AllResolvable(Stage2Program(n, t), Stage2LoadOffset)
  {
    hide Stage2Program, Opcode, Operand, Labels, Offset, Short, LabelIs;
    var p := Stage2Program(n, t);
    Stage2Refers(n, t);
    forall k | 0 <= k < |p| ensures Resolvable(p, Stage2LoadOffset, k) {
      if Operand(p[k]).Some? {
        var name := Operand(p[k]).value.name;
        assert Refers2(p[k], k);
        Stage2Homes(n, t, name);
        ReferenceResolves(p, Stage2LoadOffset, k, Home2(name));
      }
    }
  }

  /** Where stage 1 marks each label it refers to. */
  function Home1(name: string): nat {
    if name == "disk_error" then 20 else if name == "print_string" then 24 else if name == "print_done" then 32
    else if name == "hang" then 34 else if name == "boot_drive" then 37 else 39
  }

  predicate Refers1(i: Instr, k: nat) {
    var ref := Operand(i);
    ref.Some? ==>
      && ref.value.name in ["disk_error", "print_string", "print_done", "hang", "boot_drive", "disk_error_msg"]
      && (!ref.value.kind.Absolute16? ==>
          20 <= Home1(ref.value.name) < 37 && (k == 18 ==> ref.value == Reference(Relative8, "disk_error")))
  }

  lemma LoadRefers(n: byte)
    ensures |LoadStage2(n)| == 20
    ensures forall k | 0 <= k < 20 :: Refers1(LoadStage2(n)[k], k) && (k != 19 ==> Short(LoadStage2(n)[k]))
    ensures forall k | 0 <= k < 20 && k != 18 && Operand(LoadStage2(n)[k]).Some? ::
              Operand(LoadStage2(n)[k]).value.kind.Absolute16?
  {
  }

  lemma FailureRefers1()
    ensures |Stage1Failure()| == 17
    ensures forall k | 0 <= k < 17 :: Refers1(Stage1Failure()[k], 20 + k) && Short(Stage1Failure()[k])
  {
  }

  lemma DataRefers1()
    ensures |Stage1Data()| == 6 && forall k | 0 <= k < 6 :: Operand(Stage1Data()[k]).None?
  {
  }

  lemma Stage1Refers(n: byte)
    ensures |Stage1Program(n)| == 43
    ensures forall k | 0 <= k < 37 :: Refers1(Stage1Program(n)[k], k) && (k != 19 ==> Short(Stage1Program(n)[k]))
    ensures forall k | 0 <= k < 20 && k != 18 && Operand(Stage1Program(n)[k]).Some? ::
              Operand(Stage1Program(n)[k]).value.kind.Absolute16?
    ensures forall k | 37 <= k < 43 :: Operand(Stage1Program(n)[k]).None?
  {
    LoadRefers(n);
    FailureRefers1();
    DataRefers1();
    hide LoadStage2, Stage1Failure, Stage1Data, Refers1, Short, Operand;
    forall k | 0 <= k < 43
      ensures if k < 37 then Refers1(Stage1Program(n)[k], k) && (k != 19 ==> Short(Stage1Program(n)[k]))
              else Operand(Stage1Program(n)[k]).None?
      ensures k < 20 && k != 18 && Operand(Stage1Program(n)[k]).Some? ==>
                Operand(Stage1Program(n)[k]).value.kind.Absolute16?
    {
      if k < 20 {
        assert Stage1Program(n)[k] == LoadStage2(n)[k];
      } else if k < 37 {
        assert Stage1Program(n)[k] == Stage1Failure()[k - 20];
      } else {
        assert Stage1Program(n)[k] == Stage1Data()[k - 37];
      }
    }
  }

  lemma Stage1Homes(n: byte, name: string)
    requires name in ["disk_error", "print_string", "print_done", "hang", "boot_drive", "disk_error_msg"]
    ensures |Stage1Program(n)| == 43
    ensures LabelIs(Stage1Program(n), Stage1LoadOffset, name, Offset(Stage1Program(n), Home1(name)))
  {
    hide Offset, Labels, Opcode, Operand, LabelIs;
    LabelHere(Stage1Program(n), Stage1LoadOffset, Home1(name));
  }

  /** The jump over the far jump reaches its label. */
  lemma JumpOverResolves(n: byte)
    ensures |Stage1Program(n)| == 43 && Resolvable(Stage1Program(n), Stage1LoadOffset, 18)
  {
    hide Stage1Program, Opcode, Labels, Prologue, Offset, Resolvable, Width, LabelIs;
    var p := Stage1Program(n);
    Stage1Items(n);
    Stage1Homes(n, "disk_error");
    OffsetNext(p, 19);
    FarWidth(Offset(p, 19));
    DistanceResolves(p, Stage1LoadOffset, 18, 20);
  }

  lemma FarWidth(at: nat)
    ensures Width(JmpFar(0x0000, Stage2LoadOffset), at) == 5
  {
  }

  lemma Stage1Resolves(n: byte)
    ensures AllResolvable(Stage1Program(n), Stage1LoadOffset)
  {
    hide Stage1Program, Opcode, Operand, Labels, Offset, Short, LabelIs;
    var p := Stage1Program(n);
    Stage1Refers(n);
    JumpOverResolves(n);
    forall k | 0 <= k < |p| ensures Resolvable(p, Stage1LoadOffset, k) {
      if k != 18 && Operand(p[k]).Some? {
        var name := Operand(p[k]).value.name;
        assert Refers1(p[k], k);
        Stage1Homes(n, name);
        ReferenceResolves(p, Stage1LoadOffset, k, Home1(name));
      }
    }
  }

  lemma Stage1CodeSize(n: byte)
    ensures |Stage1Program(n)| == 43 && Offset(Stage1Program(n), 37) <= 150
  {
    hide Stage1Program, Opcode, Operand, Offset, Short, Prologue, Refers1;
    var p := Stage1Program(n);
    Stage1Refers(n);
    Stage1Items(n);
    SpanBound(p, 0, 19);
    SpanBound(p, 20, 37);
    OffsetNext(p, 19);
    FarWidth(Offset(p, 19));
    StartsAtZero(p);
  }

  /** Stage 1 fills exactly one sector. */
  lemma Stage1Fits(n: byte)
    ensures |Stage1Program(n)| == 43 && Offset(Stage1Program(n), 43) == 512
  {
    hide Stage1Program, Opcode, Operand, Offset, Width;
    var p := Stage1Program(n);
    Stage1CodeSize(n);
    Stage1Tail(n);
    OffsetNext(p, 37);
    OffsetNext(p, 38);
    OffsetNext(p, 39);
    OffsetNext(p, 40);
    OffsetNext(p, 41);
    OffsetNext(p, 42);
  }

  lemma StartsAtZero(p: seq<Instr>)
    ensures Offset(p, 0) == 0
  {
  }

  lemma Stage1Tail(n: byte)
    ensures |Stage1Program(n)| == 43
    ensures var p := Stage1Program(n); forall at: nat :: (
      && Width(p[37], at) == 0 && Width(p[38], at) == 1 && Width(p[39], at) == 0 && Width(p[40], at) == 20
      && Width(p[41], at) == (if at < 510 then 510 - at else 0) && Width(p[42], at) == 2)
  {
    Stage1Shape(n);
    hide Stage1Program, LoadStage2, Stage1Failure;
    var p := Stage1Program(n);
    var q := Stage1Data();
    assert p[37 + 0] == q[0] && p[37 + 1] == q[1] && p[37 + 2] == q[2] && p[37 + 3] == q[3] && p[37 + 4] == q[4]
           && p[37 + 5] == q[5];
  }

  // ---- two passes over stage 2 ----

  /** Programs whose items take the same room have the same layout. */
  lemma {:induction false} SameOffsets(p: seq<Instr>, q: seq<Instr>, k: nat)
    requires |p| == |q| && k <= |p|
    requires forall j, at: nat | 0 <= j < |p| :: Width(p[j], at) == Width(q[j], at)
    ensures Offset(p, k) == Offset(q, k)
  {
    hide Width;
    if k > 0 { SameOffsets(p, q, k - 1); }
  }

  /** Stage 2's length depends on the length of its table alone, so the second pass, with the
      final table, starts the image where the first pass assumed. */
  lemma PassesAgree(n: Word, t: seq<byte>, u: seq<byte>)
    requires |t| == |u|
    ensures |Stage2Program(n, t)| == |Stage2Program(n, u)| == 74
    ensures Offset(Stage2Program(n, t), 74) == Offset(Stage2Program(n, u), 74)
  {
    Stage2Lengths(n, t);
    Stage2Lengths(n, u);
    var p, q := Stage2Program(n, t), Stage2Program(n, u);
    assert |Stage2Data(t)| == |Stage2Data(u)| == 6 && forall k | 0 <= k < 5 :: Stage2Data(t)[k] == Stage2Data(u)[k];
    DataWidths(n, t);
    DataWidths(n, u);
    hide Setup, ReadLoop, ShowImage, Stage2Failure, Stage2Data, Width;
    forall j, at: nat | 0 <= j < |p| ensures Width(p[j], at) == Width(q[j], at) {
      assert j < 73 ==> p[j] == q[j];
    }
    SameOffsets(p, q, 74);
  }

  /** Stage 2's length for an image of `n` sectors. */
  function Stage2Size(n: Word): nat {
    Stage2Lengths(n, Zeros(3 * n));
    Offset(Stage2Program(n, Zeros(3 * n)), 74)
  }

  lemma Stage2SizeBound(n: Word)
    ensures 0 < Stage2Size(n) <= 291 + 3 * n
  {
    hide Stage2Program, Opcode, Operand, Offset, Short, Stage2Data, Setup, ReadLoop, ShowImage, Stage2Failure;
    var p := Stage2Program(n, Zeros(3 * n));
    Stage2Refers(n, Zeros(3 * n));
    SpanBound(p, 0, 68);
    StartsAtZero(p);
    Stage2Tail(n, Zeros(3 * n));
    OffsetNext(p, 68);
    OffsetNext(p, 69);
    OffsetNext(p, 70);
    OffsetNext(p, 71);
    OffsetNext(p, 72);
    OffsetNext(p, 73);
  }

  lemma TailWidths(t: seq<byte>)
    ensures var q := Stage2Data(t); |q| == 6 && forall at: nat :: (
      && Width(q[0], at) == 0 && Width(q[1], at) == 1 && Width(q[2], at) == 0 && Width(q[3], at) == 18
      && Width(q[4], at) == 0 && Width(q[5], at) == |t|)
  {
  }

  lemma Stage2Tail(n: Word, t: seq<byte>)
    ensures |Stage2Program(n, t)| == 74
    ensures var p := Stage2Program(n, t); forall at: nat :: (
      && Width(p[68], at) == 0 && Width(p[69], at) == 1 && Width(p[70], at) == 0 && Width(p[71], at) == 18
      && Width(p[72], at) == 0 && Width(p[73], at) == |t|)
  {
    Stage2Shape(n, t);
    TailWidths(t);
    hide Stage2Program, Setup, ReadLoop, Stage2Data, Width;
    var p, q := Stage2Program(n, t), Stage2Data(t);
    assert p[68 + 0] == q[0] && p[68 + 1] == q[1] && p[68 + 2] == q[2] && p[68 + 3] == q[3] && p[68 + 4] == q[4]
           && p[68 + 5] == q[5];
  }

  // ---- the disk ----

  function Sectors(b: seq<byte>): nat {
    CeilDiv(|b|, SectorSize)
  }

  function PadToSector(b: seq<byte>): (r: seq<byte>)
    ensures |r| == SectorSize * Sectors(b) && r[..|b|] == b && forall i :: |b| <= i < |r| ==> r[i] == 0
  {
    PadTo(b, SectorSize * Sectors(b))
  }

  function DiskLayout(stage1: seq<byte>, stage2: seq<byte>, image: seq<byte>): (r: seq<byte>)
    requires |stage1| + |PadToSector(stage2)| + |PadToSector(image)| <= FloppySize
    ensures |r| == FloppySize
  {
    PadTo(stage1 + PadToSector(stage2) + PadToSector(image), FloppySize)
  }

  /** The three parts copied one behind the other onto a zeroed disk. */
  method BuildDiskImage(stage1: seq<byte>, stage2: seq<byte>, imageData: seq<byte>)
    returns (r: Result<seq<byte>, BuildError>)
    ensures r.Ok? <==>
              |stage1| == SectorSize && |stage1| + |PadToSector(stage2)| + |PadToSector(imageData)| <= FloppySize
    ensures r.Ok? ==> r.value == DiskLayout(stage1, stage2, imageData)
    ensures r == Err(WrongStage1Size) <==> |stage1| != SectorSize
  {
    hide PadToSector, Splice, Sectors;
    if |stage1| != SectorSize {
      return Err(WrongStage1Size);
    }
    var paddedStage2 := PadToSector(stage2);
    var paddedImage := PadToSector(imageData);
    if |stage1| + |paddedStage2| + |paddedImage| > FloppySize {
      return Err(TooLarge);
    }
    var disk := new byte[FloppySize](_ => 0);
    assert disk[..] == Zeros(FloppySize);
    CopyTo(disk, 0, stage1);
    CopyTo(disk, SectorSize, paddedStage2);
    CopyTo(disk, SectorSize + |paddedStage2|, paddedImage);
    LaidOut(stage1, paddedStage2, paddedImage);
    return Ok(disk[..]);
  }

  lemma LaidOut(a: seq<byte>, b: seq<byte>, c: seq<byte>)
    requires |a| + |b| + |c| <= FloppySize
    ensures Splice(Splice(Splice(Zeros(FloppySize), 0, a), |a|, b), |a| + |b|, c) == PadTo(a + b + c, FloppySize)
  {
    SpliceAppend(Zeros(FloppySize), 0, a, b);
    SpliceAppend(Zeros(FloppySize), 0, a + b, c);
  }

  datatype Build = Build(stage1: seq<byte>, stage2: seq<byte>, disk: seq<byte>)

  /** What the builder promises about the files it writes for `image`. */
  ghost predicate WellBuilt(b: Build, image: seq<byte>) {
    var n, s := Sectors(image), Sectors(b.stage2);
    && 1 <= s <= 17 && 1 + s + n <= 2880 && |b.stage1| == SectorSize
    && Linked(b.stage1, Stage1Program(s), Stage1LoadOffset)
    && Linked(b.stage2, Stage2Program(n, SectorTable(1 + s, n)), Stage2LoadOffset)
    && b.disk == DiskLayout(b.stage1, b.stage2, image)
  }

  /** A boot sector a BIOS accepts ends in 55 AA. */
  predicate Bootable(disk: seq<byte>) {
    |disk| == 2880 * 512 && disk[510] == 0x55 && disk[511] == 0xAA
  }

  lemma SignatureItem(n: byte)
    ensures |Stage1Program(n)| == 43 && Stage1Program(n)[42] == Db([0x55, 0xAA])
    ensures Offset(Stage1Program(n), 42) == 510
  {
    Stage1Shape(n);
    Stage1Fits(n);
    Stage1Tail(n);
    hide Stage1Program, LoadStage2, Stage1Failure, Width;
    assert Stage1Program(n)[37 + 5] == Stage1Data()[5];
    OffsetNext(Stage1Program(n), 42);
    hide Offset;
  }

  lemma DiskBootable(b: Build, image: seq<byte>)
    requires WellBuilt(b, image)
    ensures Bootable(b.disk)
  {
    hide PadToSector, Stage1Program, Stage2Program, SectorTable, DiskLayout, Offset, Width, Opcode;
    DiskParts(b, image);
    var s := Sectors(b.stage2);
    SignatureItem(s);
    DataHeld(b.stage1, Stage1Program(s), Stage1LoadOffset, 42, [0x55, 0xAA]);
    assert b.disk[510] == b.disk[..SectorSize][510] && b.disk[511] == b.disk[..SectorSize][511];
    assert b.stage1[510] == b.stage1[510..512][0] && b.stage1[511] == b.stage1[510..512][1];
  }

  lemma DataHeld(code: seq<byte>, p: seq<Instr>, origin: nat, k: nat, data: seq<byte>)
    requires Linked(code, p, origin) && k < |p| && p[k] == Db(data)
    ensures Offset(p, k) + |data| <= |code| && code[Offset(p, k)..Offset(p, k) + |data|] == data
  {
    hide Offset;
    assert Holds(code, p, k, Resolved(p, origin, k));
  }

  /** The images the builder accepts. */
  predicate Fits(n: nat) {
    n < 65536 && var s := CeilDiv(Stage2Size(n), SectorSize); s <= 17 && 1 + s + n <= 2880
  }

  lemma ManyFit(n: nat)
    requires n <= 2804
    ensures Fits(n)
  {
    hide Stage2Size;
    Stage2SizeBound(n);
  }

  /** One BuildStage2 call. */
  method BuildStage2(n: Word, table: seq<byte>) returns (code: seq<byte>)
    requires |table| == 3 * n
    ensures Linked(code, Stage2Program(n, table), Stage2LoadOffset) && |code| == Stage2Size(n)
  {
    hide Stage2Program, AllResolvable, Linked, Offset;
    Stage2Resolves(n, table);
    var r := Assemble(Stage2LoadOffset, Stage2Program(n, table), None);
    code := r.value;
    LinkedLength(code, Stage2Program(n, table), Stage2LoadOffset);
    PassesAgree(n, table, Zeros(3 * n));
  }

  lemma LinkedLength(code: seq<byte>, p: seq<Instr>, origin: nat)
    requires Linked(code, p, origin)
    ensures |code| == Offset(p, |p|)
  {
  }

  method BuildStage1(n: byte) returns (code: seq<byte>)
    ensures Linked(code, Stage1Program(n), Stage1LoadOffset) && |code| == SectorSize
  {
    hide Stage1Program, AllResolvable, Linked, Offset;
    Stage1Resolves(n);
    Stage1Fits(n);
    var r := Assemble(Stage1LoadOffset, Stage1Program(n), Some(SectorSize));
    code := r.value;
    LinkedLength(code, Stage1Program(n), Stage1LoadOffset);
  }

  /** The floppy part of Main: stage 2 is assembled once with a table for start 0 to learn its
      length, and again with the final table. */
  method BuildFloppy(image: seq<byte>) returns (r: Result<Build, BuildError>)
    ensures r.Ok? <==> Fits(Sectors(image))
    ensures r.Ok? ==> WellBuilt(r.value, image) && Bootable(r.value.disk)
  {
    hide Stage1Program, Stage2Program, Linked, Offset, Stage2Size, DiskLayout, PadToSector;
    var n := CeilDiv(|image|, SectorSize);
    var table := BuildSectorTable(0, n);
    if table.Err? {
      return Err(table.error);
    }
    Stage2SizeBound(n);
    var stage2 := BuildStage2(n, table.value);
    var sectors := CeilDiv(|stage2|, SectorSize);
    if sectors > 17 {
      return Err(Stage2TooLong);
    }
    var start := 1 + sectors;
    table := BuildSectorTable(start, n);
    if table.Err? {
      return Err(table.error);
    }
    stage2 := BuildStage2(n, table.value);
    sectors := CeilDiv(|stage2|, SectorSize);
    if sectors > 17 {
      return Err(Stage2TooLong);
    }
    var stage1 := BuildStage1(sectors);
    var disk := BuildDiskImage(stage1, stage2, image);
    if disk.Err? {
      return Err(disk.error);
    }
    assert table.value == SectorTable(start, n);
    DiskBootable(Build(stage1, stage2, disk.value), image);
    return Ok(Build(stage1, stage2, disk.value));
  }

  // ---- the disk boots ----

  /** What the BIOS hands over for a disk it accepts: the boot sector loaded, the drive number in
      DL. Everything else is arbitrary. */
  ghost predicate AfterReset(m: Machine, disk: seq<byte>)
    ensures AfterReset(m, disk) ==> m.Valid()
  {
    && m.Valid() && m.segs[CS] == 0 && m.ip == 0x7C00 && m.disk == disk && Bootable(disk)
    && Get8(m, DL) == m.board.drive
    && m.mem[0x7C00..0x7E00] == disk[..512]
  }

  lemma DiskParts(b: Build, image: seq<byte>)
    requires WellBuilt(b, image)
    ensures |b.disk| == FloppySize && b.disk[..SectorSize] == b.stage1
    ensures var n, s := Sectors(image), Sectors(b.stage2);
            && b.disk[512..512 * (1 + s)] == PadToSector(b.stage2)
            && b.disk[512 * (1 + s)..512 * (1 + s + n)] == PadToSector(image)
  {
    hide PadToSector, Linked, Stage1Program, Stage2Program, SectorTable;
  }

  lemma LoadedFromSlice(m: Machine, code: seq<byte>, origin: nat, hole: nat)
    requires |m.mem| == MemorySize && origin + |code| + 6 <= 65536 && hole < |code|
    requires m.mem[origin..origin + |code|] == code
    ensures CodeLoaded(m, code, origin, hole, code[hole])
  {
    forall a | 0 <= a < |code| ensures m.mem[origin + a] == code[a] {
      assert m.mem[origin..origin + |code|][a] == m.mem[origin + a];
    }
  }

  /** The run of stage 1 that the machine after reset is about to make. */
  lemma StartStage1(b: Build, image: seq<byte>, m: Machine) returns (x: Run1)
    requires WellBuilt(b, image) && AfterReset(m, b.disk)
    ensures Setting1(x) && x.disk == b.disk && x.board == m.board && x.sectors as int == Sectors(b.stage2)
    ensures exists v :: InProgram(m, x.g.(v := v), 0)
  {
    DiskParts(b, image);
    x := FirstRun(b, image, m.board);
    Before1(x, 0);
    StartsAtZero(x.g.items);
    hide WellBuilt, Stage1Program, Offset, Linked, CodeLoaded, Get8;
    var v := b.stage1[x.g.hole];
    LoadedFromSlice(m, b.stage1, Stage1LoadOffset, x.g.hole);
    assert InProgram(m, x.g.(v := v), 0);
  }

  lemma FirstRun(b: Build, image: seq<byte>, board: Board) returns (x: Run1)
    requires WellBuilt(b, image)
    ensures Setting1(x) && x.g.code == b.stage1 && x.disk == b.disk && x.board == board
    ensures x.sectors as int == Sectors(b.stage2)
  {
    hide PadToSector, Stage2Program, SectorTable, DiskLayout, Stage1Program, Prologue, Offset, Linked;
    DiskParts(b, image);
    var s := Sectors(b.stage2);
    var p := Stage1Program(s);
    DriveLabel1(s);
    hide LabelIs;
    x := Run1(Image(b.stage1, p, Stage1LoadOffset, Offset(p, BootDriveItem1), board.drive), s, b.disk, board);
  }

  /** The run of stage 2 once stage 1 has jumped to it. */
  lemma StartStage2(b: Build, image: seq<byte>, m: Machine, y: Run1) returns (x: Run2)
    requires WellBuilt(b, image) && 1 <= Sectors(image) <= 128
    requires Setting1(y) && y.disk == b.disk && y.sectors as int == Sectors(b.stage2)
    requires m.Valid() && m.segs == [0, 0, 0, 0] && m.ip == Stage2LoadOffset && Fetched2(m, y)
    ensures Setting(x) && x.disk == b.disk && x.board == y.board && x.g.v == x.board.drive
    ensures x.count as int == Sectors(image)
    ensures x.start == 1 + Sectors(b.stage2)
    ensures exists v :: InProgram(m, x.g.(v := v), 0)
  {
    x := SecondRun(b, image, y.board);
    Stage2InMemory(b, image, m, y);
    hide Setting1, Setting, WellBuilt, Fetched2;
    AtEntry2(m, x);
  }

  lemma Stage2InMemory(b: Build, image: seq<byte>, m: Machine, y: Run1)
    requires WellBuilt(b, image) && Setting1(y) && y.disk == b.disk && y.sectors as int == Sectors(b.stage2)
    requires Fetched2(m, y)
    ensures Stage2LoadOffset + |b.stage2| <= |m.mem|
    ensures m.mem[Stage2LoadOffset..Stage2LoadOffset + |b.stage2|] == b.stage2
  {
    DiskParts(b, image);
    PaddedPrefix(b.stage2);
    hide Setting1, WellBuilt, PadToSector, Sectors;
    SlicePrefix(m.mem, Stage2LoadOffset, 512 * y.sectors as nat, |b.stage2|);
  }

  lemma AtEntry2(m: Machine, x: Run2)
    requires Setting(x) && m.Valid() && m.segs == [0, 0, 0, 0] && m.ip == Stage2LoadOffset
    requires m.mem[Stage2LoadOffset..Stage2LoadOffset + |x.g.code|] == x.g.code
    ensures exists v :: InProgram(m, x.g.(v := v), 0)
  {
    hide Stage2Program, Linked, CodeLoaded, Offset;
    HoleAfter(x);
    StartsAtZero(x.g.items);
    var v := x.g.code[x.g.hole];
    LoadedFromSlice(m, x.g.code, Stage2LoadOffset, x.g.hole);
    assert InProgram(m, x.g.(v := v), 0);
  }

  lemma PaddedPrefix(b: seq<byte>)
    ensures |PadToSector(b)| == 512 * Sectors(b) >= |b| && PadToSector(b)[..|b|] == b
  {
  }

  lemma SecondRun(b: Build, image: seq<byte>, board: Board) returns (x: Run2)
    requires WellBuilt(b, image) && 1 <= Sectors(image) <= 128
    ensures Setting(x) && x.g.code == b.stage2 && x.disk == b.disk && x.board == board && x.g.v == board.drive
    ensures x.count as int == Sectors(image) && x.start == 1 + Sectors(b.stage2)
  {
    hide PadToSector, Stage1Program, SectorTable, DiskLayout, Stage2Program, Linked, Offset;
    DiskParts(b, image);
    var n, s := Sectors(image), Sectors(b.stage2);
    var t := SectorTable(1 + s, n);
    var p := Stage2Program(n, t);
    DataItems(n, t);
    x := Run2(Image(b.stage2, p, Stage2LoadOffset, Offset(p, BootDriveItem2), board.drive), n, t, 1 + s, b.disk, board);
  }

  /** From reset to the top of stage 2's loop. */
  lemma BootToLoop(b: Build, image: seq<byte>, m: Machine) returns (n: Machine, y: Run2)
    requires WellBuilt(b, image) && 1 <= Sectors(image) <= 128 && AfterReset(m, b.disk)
    requires Readable(m.board, 1, Sectors(b.stage2))
    ensures Reaches(m, n, 33) && Setting(y) && InLoop(n, y, 16) && Round(n, y, 0) && n.regs[CX] == y.count
    ensures y.disk == b.disk && y.count as int == Sectors(image) && y.start == 1 + Sectors(b.stage2)
    ensures y.board == m.board
  {
    assert m.Valid() && m.disk == b.disk && Get8(m, DL) == m.board.drive;
    hide Setting, Setting1, Round, InLoop, InProgram, Reaches, Step, Fetched2, Get8, WellBuilt, AfterReset, Sectors,
         Readable;
    var x := StartStage1(b, image, m);
    var v :| InProgram(m, x.g.(v := v), 0);
    var m1 := Stage1Runs(m, x, v);
    y := StartStage2(b, image, m1, x);
    v :| InProgram(m1, y.g.(v := v), 0);
    n := Stage2Starts(m1, y, v);
    ReachesTransitive(m, m1, n, 19, 14);
  }

  lemma SectorCount(image: seq<byte>)
    ensures 0 < |image| <= 128 * SectorSize ==> 1 <= Sectors(image) <= 128
  {
  }

  /** Past stage 2's loop, the padded image in place. */
  ghost predicate Loaded(n: Machine, b: Build, image: seq<byte>) {
    var c, s := Sectors(image), Sectors(b.stage2);
    && n.Valid() && c <= 128 && 1 + s + c <= 9216
    && n.mem[ImageAddress..ImageAddress + |PadToSector(image)|] == PadToSector(image)
    && |Stage2Program(c, SectorTable(1 + s, c))| >= 29
    && n.segs[CS] == 0 && n.ip == Stage2LoadOffset + Offset(Stage2Program(c, SectorTable(1 + s, c)), 29)
  }

  lemma LoopLeft(n: Machine, y: Run2, b: Build, image: seq<byte>)
    requires Setting(y) && InLoop(n, y, 29) && Round(n, y, y.count) && WellBuilt(b, image)
    requires y.disk == b.disk && y.count as int == Sectors(image) && y.start == 1 + Sectors(b.stage2)
    ensures Loaded(n, b, image)
  {
    hide Stage2Program, Linked, PadToSector, SectorTable, Sectors, DiskLayout, Offset, CodeLoaded;
    DiskParts(b, image);
  }

  /** From reset past stage 2's loop, with the run of stage 2 it is in. */
  lemma BootThroughLoop(b: Build, image: seq<byte>, m: Machine) returns (n: Machine, y: Run2, steps: nat)
    requires WellBuilt(b, image) && 0 < |image| <= 128 * SectorSize && AfterReset(m, b.disk)
    requires Intact(m.board, b, image)
    ensures Reaches(m, n, steps) && Loaded(n, b, image)
    ensures Setting(y) && InLoop(n, y, 29) && n.board == m.board
  {
    hide Setting, Round, InLoop, Reaches, Step, WellBuilt, AfterReset, Loaded, Sectors, CodeLoaded, Linked,
         Stage2Program, Offset, SectorTable, PadToSector;
    SectorCount(image);
    var top;
    top, y := BootToLoop(b, image, m);
    var more;
    n, more := RunLoop(top, y, 0, y.count);
    ReachesTransitive(m, top, n, 33, more);
    steps := 33 + more;
    LoopLeft(n, y, b, image);
  }

  /** Every sector the boot reads can be read. */
  predicate Intact(board: Board, b: Build, image: seq<byte>) {
    Readable(board, 1, Sectors(b.stage2) + Sectors(image))
  }

  /** A floppy built for an image of 1 to 128 sectors boots: from reset, whatever else is in
      registers and memory, the machine gets past stage 2's loop with the padded image at the
      image address. */
  lemma BootLoadsImage(b: Build, image: seq<byte>, m: Machine) returns (n: Machine, steps: nat)
    requires WellBuilt(b, image) && 0 < |image| <= 128 * SectorSize && AfterReset(m, b.disk)
    requires Intact(m.board, b, image)
    ensures Reaches(m, n, steps) && Loaded(n, b, image)
  {
    hide *;
    var y;
    n, y, steps := BootThroughLoop(b, image, m);
  }

  const PictureBytes := PaletteBytes + ScreenBytes

  /** What an image of 768 palette bytes and 64000 pixels looks like when it is shown: video mode
      13h, the palette sent colour by colour from index 0, every pixel on the screen. */
  ghost predicate OnDisplay(image: seq<byte>, m: Machine, n: Machine)
    requires PictureBytes <= |image|
  {
    && |n.mem| == MemorySize && n.board.mode == 0x13 && n.board.text == m.board.text
    && n.board.ports == m.board.ports + [(PaletteIndexPort, 0)] + Palette(image)
    && n.mem[ScreenAddress..ScreenAddress + ScreenBytes] == image[PaletteBytes..PictureBytes]
  }

  function Palette(image: seq<byte>): seq<(Word, byte)>
    requires PictureBytes <= |image|
  {
    seq(PaletteBytes, j requires 0 <= j < PaletteBytes => (PaletteDataPort, image[j]))
  }

  /** From reset to the halt behind the picture, with the run of stage 2 it is in. */
  lemma BootToPicture(b: Build, image: seq<byte>, m: Machine) returns (n: Machine, y: Run2, steps: nat)
    requires WellBuilt(b, image) && PictureBytes <= |image| <= 128 * SectorSize && AfterReset(m, b.disk)
    requires Intact(m.board, b, image)
    ensures Reaches(m, n, steps) && n.Valid() && Step(n) == Some(n) && OnDisplay(image, m, n)
    ensures Setting(y) && Showing(n, y, 50)
  {
    hide WellBuilt, AfterReset, Reaches, Step, Loaded, Setting, InLoop, Showing, Shown, OnDisplay, Intact;
    var loaded, first;
    loaded, y, first := BootThroughLoop(b, image, m);
    BehindLoop(loaded, y);
    var rest;
    n, rest := ShowPicture(loaded, y);
    ReachesTransitive(m, loaded, n, first, rest);
    steps := first + rest;
    SameImage(loaded, n, b, image);
    DisplayFrom(image, m, loaded, n);
  }

  /** The floppy shows its image: from reset the machine sets the video mode, sends exactly the
      palette, fills the screen with exactly the pixels, and halts. */
  lemma BootShowsImage(b: Build, image: seq<byte>, m: Machine) returns (n: Machine, steps: nat)
    requires WellBuilt(b, image) && PictureBytes <= |image| <= 128 * SectorSize && AfterReset(m, b.disk)
    requires Intact(m.board, b, image)
    ensures Reaches(m, n, steps) && n.Valid() && Step(n) == Some(n) && OnDisplay(image, m, n)
  {
    hide *;
    var y;
    n, y, steps := BootToPicture(b, image, m);
  }

  lemma BehindLoop(m: Machine, y: Run2)
    requires Setting(y) && InLoop(m, y, 29)
    ensures m.Valid() && Showing(m, y, 29)
  {
    hide Setting, CodeLoaded, Offset;
  }

  /** The image in memory, palette and pixels. */
  lemma SameImage(m: Machine, n: Machine, b: Build, image: seq<byte>)
    requires WellBuilt(b, image) && Loaded(m, b, image) && PictureBytes <= |image|
    ensures |m.mem| == MemorySize && m.mem[ImageAddress..ImageAddress + PictureBytes] == image[..PictureBytes]
  {
    hide Stage2Program, SectorTable, Offset;
    PaddedPrefix(image);
    hide PadToSector, Sectors, WellBuilt;
    SlicePrefix(m.mem, ImageAddress, |PadToSector(image)|, PictureBytes);
    PrefixOfPrefix(PadToSector(image), |image|, PictureBytes);
  }

  lemma DisplayFrom(image: seq<byte>, m: Machine, loaded: Machine, n: Machine)
    requires PictureBytes <= |image| && |loaded.mem| == |n.mem| == MemorySize && loaded.board == m.board
    requires loaded.mem[ImageAddress..ImageAddress + PictureBytes] == image[..PictureBytes] && Shown(loaded, n)
    ensures OnDisplay(image, m, n)
  {
    var w := loaded.mem[ImageAddress..ImageAddress + PictureBytes];
    SliceOfSlice(loaded.mem, ImageAddress, PictureBytes, PaletteBytes, PictureBytes);
    PrefixSlice(image, PictureBytes, PaletteBytes, PictureBytes);
    forall j | 0 <= j < PaletteBytes ensures Sent(loaded.mem, PaletteBytes)[j] == Palette(image)[j] {
      assert w[j] == loaded.mem[ImageAddress + j] && w[j] == image[..PictureBytes][j];
    }
    assert Sent(loaded.mem, PaletteBytes) == Palette(image);
  }
}
