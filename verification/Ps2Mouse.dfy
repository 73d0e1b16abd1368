/** The PS/2 mouse: packet decoding, acceleration and sub-pixel motion
    (UpdateCursorFromPs2Mouse and its helpers in BootApp.c). */
module Ps2Mouse {
  import opened Bytes
  import opened Bits

  const FIXED_PIXEL_ONE := 256

  /** A byte from port 0x60 with the status bit that says which device sent it. */
  datatype PortByte = PortByte(data: byte, isMouse: bool)

  datatype Packet = Packet(flags: byte, dx: byte, dy: byte)
  {
    predicate Left() { flags % 2 == 1 }
    predicate Overflow() { flags >= 64 }
  }

  // ---- one pass over the mouse bytes ----

  datatype Decoded = Decoded(packets: seq<Packet>, partial: seq<byte>)

  function MouseBytes(input: seq<PortByte>): (r: seq<byte>)
    ensures |r| <= |input|
  {
    if input == [] then [] else (if input[0].isMouse then [input[0].data] else []) + MouseBytes(input[1..])
  }

  /** Groups bytes into packets; while no packet is open, a byte without bit 3 is dropped. */
  function Decode(partial: seq<byte>, bytes: seq<byte>): (r: Decoded)
    requires |partial| < 3
    ensures |r.partial| < 3
    decreases |bytes|
  {
    if bytes == [] then Decoded([], partial)
    else if partial == [] && (bytes[0] as int) / 8 % 2 == 0 then Decode([], bytes[1..])
    else
      var p := partial + [bytes[0]];
      if |p| < 3 then Decode(p, bytes[1..])
      else
        var rest := Decode([], bytes[1..]);
        Decoded([Packet(p[0], p[1], p[2])] + rest.packets, rest.partial)
  }

  /** Decoding may stop anywhere and resume: splitting the bytes changes nothing. */
  lemma {:induction false} DecodeConcat(partial: seq<byte>, a: seq<byte>, b: seq<byte>)
    requires |partial| < 3
    ensures var first := Decode(partial, a);
            var second := Decode(first.partial, b);
            Decode(partial, a + b) == Decoded(first.packets + second.packets, second.partial)
    decreases |a|
  {
    if a == [] {
      assert a + b == b;
    } else {
      assert (a + b)[0] == a[0] && (a + b)[1..] == a[1..] + b;
      if partial == [] && (a[0] as int) / 8 % 2 == 0 {
        DecodeConcat([], a[1..], b);
      } else if |partial| < 2 {
        DecodeConcat(partial + [a[0]], a[1..], b);
      } else {
        DecodeConcat([], a[1..], b);
      }
    }
  }

  lemma {:induction false} MouseBytesConcat(a: seq<PortByte>, b: seq<PortByte>)
    ensures MouseBytes(a + b) == MouseBytes(a) + MouseBytes(b)
  {
    if a == [] {
      assert a + b == b;
    } else {
      assert (a + b)[0] == a[0] && (a + b)[1..] == a[1..] + b;
      MouseBytesConcat(a[1..], b);
      var head := if a[0].isMouse then [a[0].data] else [];
      assert head + (MouseBytes(a[1..]) + MouseBytes(b)) == (head + MouseBytes(a[1..])) + MouseBytes(b);
    }
  }

  // ---- what a poll adds up ----

  function SumX(packets: seq<Packet>): int {
    if packets == [] then 0 else
      var last := packets[|packets| - 1];
      SumX(packets[..|packets| - 1]) + (if last.Overflow() then 0 else SignedByte(last.dx))
  }

  function SumY(packets: seq<Packet>): int {
    if packets == [] then 0 else
      var last := packets[|packets| - 1];
      SumY(packets[..|packets| - 1]) + (if last.Overflow() then 0 else SignedByte(last.dy))
  }

  function CleanCount(packets: seq<Packet>): (r: nat)
    ensures r <= |packets|
  {
    if packets == [] then 0 else
      CleanCount(packets[..|packets| - 1]) + (if packets[|packets| - 1].Overflow() then 0 else 1)
  }

  /** The left button after `packets`: bit 0 of the last one, else unchanged. */
  function LeftAfter(before: bool, packets: seq<Packet>): bool {
    if packets == [] then before else packets[|packets| - 1].Left()
  }

  // ---- motion arithmetic ----

  function ClampI32(v: int, min: int, max: int): int {
    if v < min then min else if v > max then max else v
  }

  /** C division: toward zero. */
  function Truncate(a: int, b: nat): int
    requires b > 0
  {
    if a >= 0 then a / b else -(-a / b)
  }

  function Abs(v: int): nat {
    if v < 0 then -v else v
  }

  function Gain1024(deltaFixed: int): (r: nat)
    ensures 1024 <= r <= 3072
  {
    var g := 1024 + Abs(deltaFixed) * 192 / FIXED_PIXEL_ONE;
    if g > 3072 then 3072 else g
  }

  function ApplyMouseAcceleration(deltaFixed: int): int {
    Truncate(deltaFixed * Gain1024(deltaFixed), 1024)
  }

  /** Acceleration is odd, and stretches a movement by a factor between one and three. */
  lemma AccelerationShape(d: int)
    ensures ApplyMouseAcceleration(-d) == -ApplyMouseAcceleration(d)
    ensures Abs(d) <= Abs(ApplyMouseAcceleration(d)) <= 3 * Abs(d)
    ensures d > 0 ==> ApplyMouseAcceleration(d) > 0
  {
    var a, g := Abs(d), Gain1024(d);
    AccelerationMagnitude(d);
    AccelerationMagnitude(-d);
    MulAtMost(1024, g, a);
    MulAtMost(g, 3072, a);
    assert a * 1024 <= a * g <= a * 3072;
  }

  lemma AccelerationMagnitude(d: int)
    ensures ApplyMouseAcceleration(d) == if d >= 0 then Abs(d) * Gain1024(d) / 1024 else -(Abs(d) * Gain1024(d) / 1024)
  {
    var g := Gain1024(d);
    if d < 0 {
      NegProduct(Abs(d), g);
    } else {
      MulAtMost(0, d, g);
    }
  }

  lemma NegProduct(a: int, g: int)
    requires a >= 0 && g >= 0
    ensures (-a) * g == -(a * g) <= 0
  {
  }

  /** A larger movement is never accelerated to a smaller one. */
  lemma AccelerationMonotone(d: int, e: int)
    requires d <= e
    ensures ApplyMouseAcceleration(d) <= ApplyMouseAcceleration(e)
  {
    hide ApplyMouseAcceleration, Gain1024;
    AccelerationMagnitude(d);
    AccelerationMagnitude(e);
    SameGain(d);
    SameGain(e);
    if 0 <= d {
      AccelerationGrows(d, e);
    } else if e < 0 {
      AccelerationGrows(-e, -d);
    }
  }

  /** The gain depends on the magnitude alone, and a product of non-negative factors stays so. */
  lemma SameGain(d: int)
    ensures Gain1024(d) == Gain1024(Abs(d)) && Abs(d) * Gain1024(d) / 1024 >= 0
  {
    MulAtMost(0, Abs(d), Gain1024(d));
  }

  lemma AccelerationGrows(a: nat, b: nat)
    requires a <= b
    ensures a * Gain1024(a) / 1024 <= b * Gain1024(b) / 1024
  {
    var g, h := Gain1024(a), Gain1024(b);
    assert g <= h;
    MulAtMost(a, b, g);
    MulAtMost(g, h, b);
    assert a * g <= b * h;
  }

  // ---- the two structures the poll updates ----

  class Ps2MouseState {
    var enabled: bool
    var packetIndex: nat
    const packet: array<byte>
    var lastDeltaX: int
    var lastDeltaY: int
    var packetCount: nat

    ghost predicate Valid()
      reads this
    {
      packetIndex < 3 && packet.Length == 4
    }

    /** The bytes of the packet that is still open. */
    ghost function Partial(): seq<byte>
      requires Valid()
      reads this, packet
    {
      packet[..packetIndex]
    }

    constructor (isEnabled: bool)
      ensures Valid() && enabled == isEnabled && packetIndex == 0 && packetCount == 0 && fresh(packet)
    {
      enabled := isEnabled;
      packetIndex := 0;
      packet := new byte[4](_ => 0);
      lastDeltaX, lastDeltaY := 0, 0;
      packetCount := 0;
    }
  }

  /** The pointer part of SOFTWARE_CURSOR. */
  class Pointer {
    var x: nat
    var y: nat
    var accumX: int
    var accumY: int
    var leftButtonDown: bool
    var lastRawX: int
    var lastRawY: int
    var lastPixelX: int
    var lastPixelY: int
    var lastPollCount: nat

    constructor (startX: nat, startY: nat)
      ensures x == startX && y == startY && accumX == 0 && accumY == 0 && !leftButtonDown
    {
      x, y := startX, startY;
      accumX, accumY := 0, 0;
      leftButtonDown := false;
      lastRawX, lastRawY := 0, 0;
      lastPixelX, lastPixelY := 0, 0;
      lastPollCount := 0;
    }

    ghost function At(): Spot
      reads this
    {
      Spot(x, y, accumX, accumY)
    }

    /** Less than one pixel of movement is pending. */
    ghost predicate Settled()
      reads this
    {
      -FIXED_PIXEL_ONE < accumX < FIXED_PIXEL_ONE && -FIXED_PIXEL_ONE < accumY < FIXED_PIXEL_ONE
    }
  }

  /** The nearest coordinate below `limit`. */
  function ClampCoordinate(value: int, limit: nat): (r: nat)
    ensures limit > 0 ==> r < limit
    ensures 0 <= value < limit ==> r == value
    ensures value < 0 || limit == 0 ==> r == 0
    ensures value >= limit > 0 ==> r == limit - 1
  {
    if limit == 0 then 0 else if value < 0 then 0 else if value > limit - 1 then limit - 1 else value
  }

  /** ClampCursorX and ClampCursorY: the cursor stays on the screen when it fits at all. */
  function ClampCursor(value: int, screen: nat, size: nat): (r: nat)
    ensures size <= screen ==> r + size <= screen
    ensures size <= screen && 0 <= value && value + size <= screen ==> r == value
    ensures size <= screen && value + size > screen ==> r + size == screen
    ensures r <= CursorLimit(screen, size)
    ensures 0 <= value <= CursorLimit(screen, size) ==> r == value
    ensures value < 0 ==> r == 0
    ensures value > CursorLimit(screen, size) ==> r == CursorLimit(screen, size)
  {
    ClampCoordinate(value, CursorLimit(screen, size) + 1)
  }

  function CursorLimit(screen: nat, size: nat): nat {
    if screen > size then screen - size else 0
  }

  /** Where the pointer is: the cursor's corner and the movement still due, in fixed point. */
  datatype Spot = Spot(x: nat, y: nat, accumX: int, accumY: int)

  /** The sizes the cursor is clamped by. */
  datatype Frame = Frame(cursorWidth: nat, cursorHeight: nat, screenWidth: nat, screenHeight: nat)

  /** One axis of a moving poll. */
  function Accelerated(total: int): int {
    ApplyMouseAcceleration(ClampI32(total, -64, 64) * (FIXED_PIXEL_ONE / 2))
  }

  function Pending(accum: int, total: int): int {
    ClampI32(accum + Accelerated(total), -(FIXED_PIXEL_ONE * 64), FIXED_PIXEL_ONE * 64)
  }

  /** Whole pixels in a distance. */
  function Pixels(due: int): int {
    Truncate(due, FIXED_PIXEL_ONE)
  }

  /** The pointer after a poll: the movement due on each axis is accelerated and added up, its
      whole pixels move the cursor and the rest stays due. Movements that cancel count for
      nothing. */
  function After(s: Spot, poll: Poll, f: Frame): Spot {
    if poll.packetCount == 0 || (poll.totalDeltaX == 0 && poll.totalDeltaY == 0) then s else
      var dueX, dueY := Pending(s.accumX, poll.totalDeltaX), Pending(s.accumY, -poll.totalDeltaY);
      var restX, restY := dueX - FIXED_PIXEL_ONE * Pixels(dueX), dueY - FIXED_PIXEL_ONE * Pixels(dueY);
      if Pixels(dueX) == 0 && Pixels(dueY) == 0 then s.(accumX := restX, accumY := restY)
      else Spot(ClampCursor(s.x + Pixels(dueX), f.screenWidth, f.cursorWidth),
                ClampCursor(s.y + Pixels(dueY), f.screenHeight, f.cursorHeight), restX, restY)
  }

  lemma NothingDue(s: Spot, poll: Poll, f: Frame)
    ensures poll.packetCount == 0 || (poll.totalDeltaX == 0 && poll.totalDeltaY == 0) ==> After(s, poll, f) == s
  {
  }

  /** Less than one pixel stays due, and only what is due moves the cursor: an axis with less
      than a pixel due keeps its place, if that is on screen. */
  lemma AfterSettles(s: Spot, poll: Poll, f: Frame)
    requires -FIXED_PIXEL_ONE < s.accumX < FIXED_PIXEL_ONE && -FIXED_PIXEL_ONE < s.accumY < FIXED_PIXEL_ONE
    requires s.x <= CursorLimit(f.screenWidth, f.cursorWidth) && s.y <= CursorLimit(f.screenHeight, f.cursorHeight)
    ensures var t := After(s, poll, f); (
      && -FIXED_PIXEL_ONE < t.accumX < FIXED_PIXEL_ONE && -FIXED_PIXEL_ONE < t.accumY < FIXED_PIXEL_ONE
      && t.x <= CursorLimit(f.screenWidth, f.cursorWidth) && t.y <= CursorLimit(f.screenHeight, f.cursorHeight)
      && (poll.totalDeltaX == 0 ==> t.x == s.x && t.accumX == s.accumX)
      && (poll.totalDeltaY == 0 ==> t.y == s.y && t.accumY == s.accumY)
      && (poll.totalDeltaX >= 0 ==> t.x >= s.x) && (poll.totalDeltaX <= 0 ==> t.x <= s.x)
      && (poll.totalDeltaY >= 0 ==> t.y <= s.y) && (poll.totalDeltaY <= 0 ==> t.y >= s.y))
  {
    hide Pending, ClampCursor, Truncate;
    AxisMoves(s.accumX, poll.totalDeltaX);
    AxisMoves(s.accumY, -poll.totalDeltaY);
    ClampMoves(s.x, Pixels(Pending(s.accumX, poll.totalDeltaX)), f.screenWidth, f.cursorWidth);
    ClampMoves(s.y, Pixels(Pending(s.accumY, -poll.totalDeltaY)), f.screenHeight, f.cursorHeight);
  }

  /** One axis: the sign of the pixels, and what stays due. */
  lemma AxisMoves(accum: int, total: int)
    requires -FIXED_PIXEL_ONE < accum < FIXED_PIXEL_ONE
    ensures var due := Pending(accum, total); (
      && -FIXED_PIXEL_ONE < due - FIXED_PIXEL_ONE * Pixels(due) < FIXED_PIXEL_ONE
      && (total == 0 ==> due == accum && Pixels(due) == 0)
      && (total >= 0 ==> Pixels(due) >= 0) && (total <= 0 ==> Pixels(due) <= 0))
  {
    hide Accelerated, Truncate;
    AcceleratedSign(total);
    SubPixel(Pending(accum, total));
    WholePixels(Pending(accum, total));
  }

  lemma AcceleratedSign(total: int)
    ensures (total >= 0 ==> Accelerated(total) >= 0) && (total <= 0 ==> Accelerated(total) <= 0)
  {
    hide ApplyMouseAcceleration;
    AccelerationSign(ClampI32(total, -64, 64) * (FIXED_PIXEL_ONE / 2));
  }

  lemma AccelerationSign(d: int)
    ensures d >= 0 ==> ApplyMouseAcceleration(d) >= 0
    ensures d <= 0 ==> ApplyMouseAcceleration(d) <= 0
  {
    AccelerationShape(d);
    AccelerationShape(-d);
    hide ApplyMouseAcceleration;
  }

  lemma WholePixels(due: int)
    ensures due > -FIXED_PIXEL_ONE ==> Pixels(due) >= 0
    ensures due < FIXED_PIXEL_ONE ==> Pixels(due) <= 0
  {
  }

  lemma ClampMoves(at: nat, step: int, screen: nat, size: nat)
    requires at <= CursorLimit(screen, size)
    ensures step >= 0 ==> ClampCursor(at + step, screen, size) >= at
    ensures step <= 0 ==> ClampCursor(at + step, screen, size) <= at
  {
  }

  datatype Poll = Poll(consumed: nat, totalDeltaX: int, totalDeltaY: int, packetCount: nat, left: bool)

  /** What the reading loop of a poll must have done with the bytes it took. */
  ghost predicate Polled(poll: Poll, pending: seq<PortByte>, partial: seq<byte>, leftBefore: bool,
                         partialAfter: seq<byte>)
    requires poll.consumed <= |pending| && |partial| < 3
  {
    var d := Decode(partial, MouseBytes(pending[..poll.consumed]));
    && d.partial == partialAfter
    && poll.totalDeltaX == SumX(d.packets) && poll.totalDeltaY == SumY(d.packets)
    && poll.packetCount == CleanCount(d.packets)
    && poll.left == LeftAfter(leftBefore, d.packets)
  }

  /** Usable packets completed by the first `n` pending bytes. */
  ghost function Usable(pending: seq<PortByte>, partial: seq<byte>, n: nat): nat
    requires n <= |pending| && |partial| < 3
  {
    CleanCount(Decode(partial, MouseBytes(pending[..n])).packets)
  }

  const MaxReads := 96
  const MaxPackets := 32
  /** What a poll takes at least, if it is there: of 32 packets two bytes may have come before. */
  const LeastTaken := MaxReads - 2

  /** Where a poll stops: nothing is left, 96 bytes are read or 32 usable packets are
      complete, whichever comes first. */
  ghost predicate PollEnds(pending: seq<PortByte>, partial: seq<byte>, n: nat)
    requires |partial| < 3
  {
    && n <= |pending| && n <= MaxReads
    && (n == |pending| || n == MaxReads || Usable(pending, partial, n) == MaxPackets)
    && forall m :: 0 <= m < n ==> Usable(pending, partial, m) < MaxPackets
  }

  /** How far a poll reads is determined by what is pending. */
  lemma PollEndsOnce(pending: seq<PortByte>, partial: seq<byte>, m: nat, n: nat)
    requires |partial| < 3 && PollEnds(pending, partial, m) && PollEnds(pending, partial, n)
    ensures m == n
  {
  }

  /** A packet takes three bytes. */
  lemma {:induction false} PacketBytes(partial: seq<byte>, bytes: seq<byte>)
    requires |partial| < 3
    ensures 3 * |Decode(partial, bytes).packets| <= |partial| + |bytes|
    decreases |bytes|
  {
    if bytes != [] {
      if partial == [] && (bytes[0] as int) / 8 % 2 == 0 {
        PacketBytes([], bytes[1..]);
      } else if |partial| < 2 {
        PacketBytes(partial + [bytes[0]], bytes[1..]);
      } else {
        PacketBytes([], bytes[1..]);
      }
    }
  }

  /** A poll that leaves something behind has taken at least 94 bytes. */
  lemma PollTakes(pending: seq<PortByte>, partial: seq<byte>, n: nat)
    requires |partial| < 3 && PollEnds(pending, partial, n)
    ensures n == |pending| || n >= 94
  {
    hide Decode, CleanCount;
    PacketBytes(partial, MouseBytes(pending[..n]));
  }

  /** One more byte: what it does to the decoder. */
  lemma DecodeSnoc(pending: seq<PortByte>, n: nat, partial: seq<byte>)
    requires n < |pending| && |partial| < 3
    ensures var before := Decode(partial, MouseBytes(pending[..n]));
            var after := Decode(partial, MouseBytes(pending[..n + 1]));
            var b := pending[n];
            after ==
              if !b.isMouse || (before.partial == [] && (b.data as int) / 8 % 2 == 0) then before
              else
                var p := before.partial + [b.data];
                if |p| < 3 then Decoded(before.packets, p)
                else Decoded(before.packets + [Packet(p[0], p[1], p[2])], [])
  {
    var b := pending[n];
    assert pending[..n + 1] == pending[..n] + [b];
    MouseBytesConcat(pending[..n], [b]);
    var bytes := if b.isMouse then [b.data] else [];
    assert MouseBytes([b]) == bytes by { assert [b][1..] == []; }
    DecodeConcat(partial, MouseBytes(pending[..n]), bytes);
    var before := Decode(partial, MouseBytes(pending[..n]));
    if b.isMouse {
      assert bytes[1..] == [];
      assert before.packets + [] == before.packets;
    } else {
      assert before.packets + [] == before.packets;
    }
  }

  lemma DecodeNothing(partial: seq<byte>, left: bool, pending: seq<PortByte>)
    requires |partial| < 3
    ensures Polled(Poll(0, 0, 0, 0, left), pending, partial, left, partial)
  {
    assert pending[..0] == [];
  }

  lemma SnocSums(packets: seq<Packet>, p: Packet)
    ensures SumX(packets + [p]) == SumX(packets) + (if p.Overflow() then 0 else SignedByte(p.dx))
    ensures SumY(packets + [p]) == SumY(packets) + (if p.Overflow() then 0 else SignedByte(p.dy))
    ensures CleanCount(packets + [p]) == CleanCount(packets) + (if p.Overflow() then 0 else 1)
  {
    assert (packets + [p])[..|packets|] == packets;
  }

  /** One mouse byte: stored, dropped, or the end of a packet. */
  method AcceptByte(mouse: Ps2MouseState, data: byte) returns (packet: Option<Packet>)
    requires mouse.Valid()
    modifies mouse`packetIndex, mouse.packet
    ensures mouse.Valid()
    ensures var before := old(mouse.Partial());
            if before == [] && (data as int) / 8 % 2 == 0 then packet == None && mouse.Partial() == []
            else if |before| < 2 then packet == None && mouse.Partial() == before + [data]
            else packet == Some(Packet(before[0], before[1], data)) && mouse.Partial() == []
  {
    if mouse.packetIndex == 0 && (data as int) / 8 % 2 == 0 {
      return None;
    }
    mouse.packet[mouse.packetIndex] := data;
    mouse.packetIndex := mouse.packetIndex + 1;
    if mouse.packetIndex < 3 {
      return None;
    }
    mouse.packetIndex := 0;
    return Some(Packet(mouse.packet[0], mouse.packet[1], mouse.packet[2]));
  }

  /** The reading loop: at most 96 bytes and at most 32 usable packets. */
  method ReadPackets(mouse: Ps2MouseState, pending: seq<PortByte>, leftBefore: bool) returns (poll: Poll)
    requires mouse.Valid()
    modifies mouse`packetIndex, mouse.packet
    ensures mouse.Valid()
    ensures poll.consumed <= |pending| && PollEnds(pending, old(mouse.Partial()), poll.consumed)
    ensures Polled(poll, pending, old(mouse.Partial()), leftBefore, mouse.Partial())
    ensures poll.consumed <= 96 && poll.packetCount <= 32
    ensures poll.consumed == |pending| || poll.consumed == 96 || poll.packetCount == 32
  {
    hide Decode, Polled, Usable;
    ghost var partial := mouse.Partial();
    DecodeNothing(partial, leftBefore, pending);
    PolledCount(Poll(0, 0, 0, 0, leftBefore), pending, partial, leftBefore, partial);
    var readCount := 0;
    var totalDeltaX, totalDeltaY := 0, 0;
    var packetCount := 0;
    var left := leftBefore;
    while readCount < MaxReads
      invariant 0 <= readCount <= MaxReads && readCount <= |pending|
      invariant mouse.Valid() && packetCount < MaxPackets
      invariant forall m :: 0 <= m <= readCount ==> Usable(pending, partial, m) < MaxPackets
      invariant Polled(Poll(readCount, totalDeltaX, totalDeltaY, packetCount, left), pending, partial, leftBefore,
                       mouse.Partial())
      decreases MaxReads - readCount
    {
      if readCount == |pending| {
        break;
      }
      ghost var sofar, had := Poll(readCount, totalDeltaX, totalDeltaY, packetCount, left), mouse.Partial();
      var input := pending[readCount];
      readCount := readCount + 1;
      if !input.isMouse {
        PollGoesOn(sofar, pending, partial, leftBefore, had, had, None);
        continue;
      }
      var packet := AcceptByte(mouse, input.data);
      PollGoesOn(sofar, pending, partial, leftBefore, had, mouse.Partial(), packet);
      if packet.None? {
        continue;
      }
      left := packet.value.Left();
      if packet.value.Overflow() {
        continue;
      }
      totalDeltaX := totalDeltaX + SignedByte(packet.value.dx);
      totalDeltaY := totalDeltaY + SignedByte(packet.value.dy);
      packetCount := packetCount + 1;
      if packetCount >= MaxPackets {
        return Poll(readCount, totalDeltaX, totalDeltaY, packetCount, left);
      }
    }
    return Poll(readCount, totalDeltaX, totalDeltaY, packetCount, left);
  }

  /** A poll after one more byte, which may have completed `packet`. */
  ghost function Taken(poll: Poll, packet: Option<Packet>): Poll {
    match packet
    case None => poll.(consumed := poll.consumed + 1)
    case Some(p) =>
      if p.Overflow() then poll.(consumed := poll.consumed + 1, left := p.Left())
      else Poll(poll.consumed + 1, poll.totalDeltaX + SignedByte(p.dx), poll.totalDeltaY + SignedByte(p.dy),
                poll.packetCount + 1, p.Left())
  }

  /** One more byte read keeps a poll in step with the decoder. */
  lemma PollGoesOn(poll: Poll, pending: seq<PortByte>, partial: seq<byte>, leftBefore: bool, before: seq<byte>,
                   now: seq<byte>, packet: Option<Packet>)
    requires poll.consumed < |pending| && |partial| < 3 && |before| < 3
    requires Polled(poll, pending, partial, leftBefore, before)
    requires var b := pending[poll.consumed];
             if !b.isMouse then packet == None && now == before
             else if before == [] && (b.data as int) / 8 % 2 == 0 then packet == None && now == []
             else if |before| < 2 then packet == None && now == before + [b.data]
             else packet == Some(Packet(before[0], before[1], b.data)) && now == []
    ensures Polled(Taken(poll, packet), pending, partial, leftBefore, now)
    ensures Usable(pending, partial, poll.consumed + 1) == Taken(poll, packet).packetCount
  {
    hide Decode, SumX, SumY, CleanCount, Packet.Left, Packet.Overflow;
    DecodeSnoc(pending, poll.consumed, partial);
    if packet.Some? {
      SnocSums(Decode(partial, MouseBytes(pending[..poll.consumed])).packets, packet.value);
    }
  }

  lemma PolledCount(poll: Poll, pending: seq<PortByte>, partial: seq<byte>, leftBefore: bool, now: seq<byte>)
    requires poll.consumed <= |pending| && |partial| < 3 && Polled(poll, pending, partial, leftBefore, now)
    ensures Usable(pending, partial, poll.consumed) == poll.packetCount
  {
  }

  /** A moving poll: accelerate, accumulate, split off whole pixels and clamp. */
  method MovePointer(mouse: Ps2MouseState, pointer: Pointer, cursorWidth: nat, cursorHeight: nat,
                     screenWidth: nat, screenHeight: nat, poll: Poll)
    modifies mouse`lastDeltaX, mouse`lastDeltaY, mouse`packetCount
    modifies pointer`accumX, pointer`accumY, pointer`lastPixelX, pointer`lastPixelY, pointer`x, pointer`y
    ensures pointer.Settled() && mouse.packetCount == old(mouse.packetCount) + poll.packetCount
    ensures mouse.lastDeltaX == Accelerated(poll.totalDeltaX) && mouse.lastDeltaY == Accelerated(-poll.totalDeltaY)
    ensures FIXED_PIXEL_ONE * pointer.lastPixelX + pointer.accumX == Pending(old(pointer.accumX), poll.totalDeltaX)
    ensures FIXED_PIXEL_ONE * pointer.lastPixelY + pointer.accumY == Pending(old(pointer.accumY), -poll.totalDeltaY)
    ensures SameSign(pointer.accumX, pointer.lastPixelX) && SameSign(pointer.accumY, pointer.lastPixelY)
    ensures if pointer.lastPixelX != 0 || pointer.lastPixelY != 0 then
              pointer.x == ClampCursor(old(pointer.x) + pointer.lastPixelX, screenWidth, cursorWidth)
              && pointer.y == ClampCursor(old(pointer.y) + pointer.lastPixelY, screenHeight, cursorHeight)
            else pointer.x == old(pointer.x) && pointer.y == old(pointer.y)
    ensures poll.packetCount > 0 && (poll.totalDeltaX != 0 || poll.totalDeltaY != 0) ==>
              pointer.At()
              == After(old(pointer.At()), poll, Frame(cursorWidth, cursorHeight, screenWidth, screenHeight))
  {
    hide Accelerated, ClampCursor, Truncate;
    mouse.lastDeltaX := Accelerated(poll.totalDeltaX);
    mouse.lastDeltaY := Accelerated(-poll.totalDeltaY);
    pointer.accumX := ClampI32(pointer.accumX + mouse.lastDeltaX, -(FIXED_PIXEL_ONE * 64), FIXED_PIXEL_ONE * 64);
    pointer.accumY := ClampI32(pointer.accumY + mouse.lastDeltaY, -(FIXED_PIXEL_ONE * 64), FIXED_PIXEL_ONE * 64);
    pointer.lastPixelX := Truncate(pointer.accumX, FIXED_PIXEL_ONE);
    pointer.lastPixelY := Truncate(pointer.accumY, FIXED_PIXEL_ONE);
    SubPixel(pointer.accumX);
    SubPixel(pointer.accumY);
    pointer.accumX := pointer.accumX - pointer.lastPixelX * FIXED_PIXEL_ONE;
    pointer.accumY := pointer.accumY - pointer.lastPixelY * FIXED_PIXEL_ONE;
    if pointer.lastPixelX != 0 || pointer.lastPixelY != 0 {
      pointer.x := ClampCursor(pointer.x + pointer.lastPixelX, screenWidth, cursorWidth);
      pointer.y := ClampCursor(pointer.y + pointer.lastPixelY, screenHeight, cursorHeight);
    }
    mouse.packetCount := mouse.packetCount + poll.packetCount;
  }

  /** UpdateCursorFromPs2Mouse: `moved` is its result, `poll` what it read. */
  method UpdateCursorFromPs2Mouse(mouse: Ps2MouseState, pointer: Pointer, cursorWidth: nat, cursorHeight: nat,
                                  screenWidth: nat, screenHeight: nat, pending: seq<PortByte>)
    returns (moved: bool, poll: Poll)
    requires mouse.Valid() && pointer.Settled()
    modifies mouse, mouse.packet, pointer
    ensures mouse.Valid() && mouse.enabled == old(mouse.enabled) && pointer.Settled()
    ensures !old(mouse.enabled) ==> (!moved && poll.consumed == 0 && mouse.Partial() == old(mouse.Partial())
              && pointer.leftButtonDown == old(pointer.leftButtonDown))
    ensures poll.consumed <= |pending|
    ensures old(mouse.enabled) ==> PollEnds(pending, old(mouse.Partial()), poll.consumed)
    ensures poll.consumed <= 96 && poll.packetCount <= 32
    ensures old(mouse.enabled) ==> poll.consumed == |pending| || poll.consumed == 96 || poll.packetCount == 32
    ensures old(mouse.enabled) ==>
              && Polled(poll, pending, old(mouse.Partial()), old(pointer.leftButtonDown), mouse.Partial())
              && pointer.leftButtonDown == poll.left && pointer.lastPollCount == poll.packetCount
              && moved == (poll.packetCount > 0)
    ensures !moved ==> (pointer.x == old(pointer.x) && pointer.y == old(pointer.y)
              && pointer.accumX == old(pointer.accumX) && pointer.accumY == old(pointer.accumY)
              && mouse.packetCount == old(mouse.packetCount))
    ensures moved ==>
              && pointer.lastRawX == ClampI32(poll.totalDeltaX, -9999, 9999)
              && pointer.lastRawY == ClampI32(poll.totalDeltaY, -9999, 9999)
    // Movement is conserved: whole pixels plus the remainder are the clamped total.
    ensures moved && (poll.totalDeltaX != 0 || poll.totalDeltaY != 0) ==>
              && FIXED_PIXEL_ONE * pointer.lastPixelX + pointer.accumX == Pending(old(pointer.accumX), poll.totalDeltaX)
              && FIXED_PIXEL_ONE * pointer.lastPixelY + pointer.accumY
                == Pending(old(pointer.accumY), -poll.totalDeltaY)
              && SameSign(pointer.accumX, pointer.lastPixelX) && SameSign(pointer.accumY, pointer.lastPixelY)
              && mouse.packetCount == old(mouse.packetCount) + poll.packetCount
              && (if pointer.lastPixelX != 0 || pointer.lastPixelY != 0 then
                    pointer.x == ClampCursor(old(pointer.x) + pointer.lastPixelX, screenWidth, cursorWidth)
                    && pointer.y == ClampCursor(old(pointer.y) + pointer.lastPixelY, screenHeight, cursorHeight)
                  else pointer.x == old(pointer.x) && pointer.y == old(pointer.y))
    // A poll whose movements cancel moves nothing and is not counted.
    ensures moved && poll.totalDeltaX == 0 && poll.totalDeltaY == 0 ==>
              pointer.x == old(pointer.x) && pointer.y == old(pointer.y) && pointer.lastPixelX == 0
                && pointer.lastPixelY == 0
              && pointer.accumX == old(pointer.accumX) && pointer.accumY == old(pointer.accumY)
              && mouse.packetCount == old(mouse.packetCount)
    // Position and remainder are a function of what they were and of what was read.
    ensures pointer.At() == if old(mouse.enabled)
              then After(old(pointer.At()), poll, Frame(cursorWidth, cursorHeight, screenWidth, screenHeight))
              else old(pointer.At())
    // The cursor stays where it can be drawn.
    ensures old(pointer.x) <= CursorLimit(screenWidth, cursorWidth) ==>
              pointer.x <= CursorLimit(screenWidth, cursorWidth)
    ensures old(pointer.y) <= CursorLimit(screenHeight, cursorHeight) ==>
              pointer.y <= CursorLimit(screenHeight, cursorHeight)
  {
    hide Decode, Accelerated, Polled, PollEnds, ClampCursor, After, Pending, CursorLimit, SameSign, ClampI32;
    if !mouse.enabled {
      return false, Poll(0, 0, 0, 0, pointer.leftButtonDown);
    }
    poll := ReadPackets(mouse, pending, pointer.leftButtonDown);
    NothingDue(pointer.At(), poll, Frame(cursorWidth, cursorHeight, screenWidth, screenHeight));
    pointer.leftButtonDown := poll.left;
    pointer.lastPollCount := poll.packetCount;
    if poll.packetCount == 0 {
      return false, poll;
    }
    pointer.lastRawX := ClampI32(poll.totalDeltaX, -9999, 9999);
    pointer.lastRawY := ClampI32(poll.totalDeltaY, -9999, 9999);
    moved := true;
    if poll.totalDeltaX == 0 && poll.totalDeltaY == 0 {
      pointer.lastPixelX := 0;
      pointer.lastPixelY := 0;
      return;
    }
    MovePointer(mouse, pointer, cursorWidth, cursorHeight, screenWidth, screenHeight, poll);
  }

  predicate SameSign(a: int, b: int) {
    (a >= 0 && b >= 0) || (a <= 0 && b <= 0)
  }

  /** Splitting a fixed-point distance into pixels and a remainder of the same sign. */
  lemma SubPixel(accum: int)
    ensures var pixels := Truncate(accum, FIXED_PIXEL_ONE);
            var rest := accum - pixels * FIXED_PIXEL_ONE;
            -FIXED_PIXEL_ONE < rest < FIXED_PIXEL_ONE && SameSign(rest, pixels)
  {
  }

  // ---- what a run of polls does ----

  /** What a poll that takes `n` bytes adds up to. */
  ghost function PollOf(pending: seq<PortByte>, partial: seq<byte>, left: bool, n: nat): Poll
    requires n <= |pending| && |partial| < 3
  {
    var packets := Decode(partial, MouseBytes(pending[..n])).packets;
    Poll(n, SumX(packets), SumY(packets), CleanCount(packets), LeftAfter(left, packets))
  }

  /** The first place at or after `n` where a poll stops. */
  ghost function PollLength(pending: seq<PortByte>, partial: seq<byte>, n: nat): (r: nat)
    requires n <= |pending| && |partial| < 3
    ensures n <= r <= |pending|
    decreases |pending| - n
  {
    if n == |pending| || n >= MaxReads || Usable(pending, partial, n) == MaxPackets then n
    else PollLength(pending, partial, n + 1)
  }

  lemma {:induction false} PollLengthIs(pending: seq<PortByte>, partial: seq<byte>, k: nat, n: nat)
    requires |partial| < 3 && PollEnds(pending, partial, n) && k <= n
    ensures PollLength(pending, partial, k) == n
    decreases n - k
  {
    if k < n {
      assert Usable(pending, partial, k) < MaxPackets;
      PollLengthIs(pending, partial, k + 1, n);
    }
  }

  /** The mouse between two polls: the bytes not yet read, the open packet, the button and the
      pointer. */
  datatype MouseRun = MouseRun(unread: seq<PortByte>, partial: seq<byte>, left: bool, spot: Spot)

  /** One poll. */
  ghost function Polling(r: MouseRun, f: Frame): (t: MouseRun)
    requires |r.partial| < 3
    ensures |t.partial| < 3
  {
    var n := PollLength(r.unread, r.partial, 0);
    var poll := PollOf(r.unread, r.partial, r.left, n);
    MouseRun(r.unread[n..], Decode(r.partial, MouseBytes(r.unread[..n])).partial, poll.left, After(r.spot, poll, f))
  }

  /** Polls with the portions of `arrivals` arriving before them. */
  ghost function PollingAll(r: MouseRun, arrivals: seq<seq<PortByte>>, f: Frame): (t: MouseRun)
    requires |r.partial| < 3
    ensures |t.partial| < 3
  {
    if arrivals == [] then r else
      var before := PollingAll(r, arrivals[..|arrivals| - 1], f);
      Polling(before.(unread := before.unread + arrivals[|arrivals| - 1]), f)
  }

  /** A poll whose reading stopped where it should and whose sums are right is the model's. */
  lemma PollingIs(r: MouseRun, f: Frame, poll: Poll, partialAfter: seq<byte>)
    requires |r.partial| < 3 && PollEnds(r.unread, r.partial, poll.consumed)
    requires Polled(poll, r.unread, r.partial, r.left, partialAfter)
    ensures Polling(r, f) == MouseRun(r.unread[poll.consumed..], partialAfter, poll.left, After(r.spot, poll, f))
  {
    hide Decode, SumX, SumY, CleanCount, After, Usable;
    PollLengthIs(r.unread, r.partial, 0, poll.consumed);
  }

  // ---- what moves the pointer how far ----

  /** The fixed-point distance of `total` counts, in multiples of 1/256 pixel: up to 21 counts
      gain speed with every count, up to 64 go at full speed and more do not count. */
  function Distance(total: int): int
    decreases total < 0
  {
    if total < 0 then -Distance(-total)
    else if total <= 21 then 128 * total + 12 * total * total
    else if total <= 64 then 384 * total
    else 24576
  }

  lemma AcceleratedIs(total: int)
    ensures Accelerated(total) == Distance(total)
    decreases total < 0
  {
    if total < 0 {
      AcceleratedOdd(total);
      AcceleratedIs(-total);
    } else if total <= 21 {
      SlowDistance(total);
    } else if total <= 64 {
      FastDistance(total);
    } else {
      FastDistance(64);
    }
  }

  lemma AcceleratedOdd(total: int)
    ensures Accelerated(-total) == -Accelerated(total)
  {
    AccelerationShape(ClampI32(total, -64, 64) * 128);
    hide ApplyMouseAcceleration;
  }

  lemma SlowDistance(t: nat)
    requires t <= 21
    ensures Accelerated(t) == 128 * t + 12 * t * t
  {
    assert Gain1024(128 * t) == 1024 + 96 * t;
    assert 128 * t * (1024 + 96 * t) == 1024 * (128 * t + 12 * t * t);
    AccelerationMagnitude(128 * t);
    hide ApplyMouseAcceleration;
  }

  lemma FastDistance(t: nat)
    requires 22 <= t <= 64
    ensures Accelerated(t) == 384 * t
  {
    assert Gain1024(128 * t) == 3072;
    AccelerationMagnitude(128 * t);
    hide ApplyMouseAcceleration;
  }

  /** What is due on an axis after a poll: never more than 64 pixels either way. */
  lemma PendingIs(accum: int, total: int)
    ensures var due := accum + Distance(total);
            Pending(accum, total) == if due < -16384 then -16384 else if due > 16384 then 16384 else due
  {
    AcceleratedIs(total);
    hide Accelerated, Distance;
  }

  /** How a poll moves a settled pointer, in pixels and 256ths: what is due on each axis is cut at
      64 pixels, whole pixels move the cursor as far as the screen reaches, and upward is minus. */
  lemma PointerMoves(s: Spot, poll: Poll, f: Frame)
    requires poll.packetCount > 0 && (poll.totalDeltaX != 0 || poll.totalDeltaY != 0)
    requires s.x <= CursorLimit(f.screenWidth, f.cursorWidth) && s.y <= CursorLimit(f.screenHeight, f.cursorHeight)
    ensures var t := After(s, poll, f);
            && Moves(s.x, s.accumX, Distance(poll.totalDeltaX), f.screenWidth, f.cursorWidth, t.x, t.accumX)
            && Moves(s.y, s.accumY, Distance(-poll.totalDeltaY), f.screenHeight, f.cursorHeight, t.y, t.accumY)
  {
    hide Pending, Distance, ClampCursor, Truncate, CursorLimit;
    PendingIs(s.accumX, poll.totalDeltaX);
    PendingIs(s.accumY, -poll.totalDeltaY);
    AxisIs(s.x, s.accumX, Distance(poll.totalDeltaX), Pending(s.accumX, poll.totalDeltaX),
           f.screenWidth, f.cursorWidth);
    AxisIs(s.y, s.accumY, Distance(-poll.totalDeltaY), Pending(s.accumY, -poll.totalDeltaY),
           f.screenHeight, f.cursorHeight);
  }

  /** One axis: from `at` with `accum` due and `distance` added to `to` with `rest` due. */
  ghost predicate Moves(at: nat, accum: int, distance: int, screen: nat, size: nat, to: nat, rest: int) {
    var due := if accum + distance < -16384 then -16384 else if accum + distance > 16384 then 16384
               else accum + distance;
    exists pixels: int :: Split(due, pixels, rest) && to == Stopped(at + pixels, screen, size)
  }

  predicate Split(due: int, pixels: int, rest: int) {
    due == 256 * pixels + rest && -256 < rest < 256 && SameSign(pixels, rest)
  }

  /** The nearest place where the whole cursor is on screen; 0 if it is larger than the screen. */
  function Stopped(at: int, screen: nat, size: nat): nat {
    if at < 0 || screen < size then 0 else if at + size > screen then screen - size else at
  }

  lemma AxisIs(at: nat, accum: int, distance: int, due: int, screen: nat, size: nat)
    requires due == if accum + distance < -16384 then -16384 else if accum + distance > 16384 then 16384
                    else accum + distance
    requires at <= CursorLimit(screen, size)
    ensures Moves(at, accum, distance, screen, size, ClampCursor(at + Pixels(due), screen, size),
                  due - FIXED_PIXEL_ONE * Pixels(due))
  {
    SubPixel(due);
    hide Truncate;
    assert Split(due, Pixels(due), due - FIXED_PIXEL_ONE * Pixels(due));
    hide Split, Pixels;
    StoppedIs(at + Pixels(due), screen, size);
  }

  lemma StoppedIs(at: int, screen: nat, size: nat)
    ensures ClampCursor(at, screen, size) == Stopped(at, screen, size)
  {
  }

  // ---- a mouse that reports ----

  /** One movement report: the PS/2 device counts nine bits to each side on both axes. */
  datatype Report = Report(left: bool, right: bool, middle: bool, dx: int, dy: int, overflowX: bool, overflowY: bool)
  {
    ghost predicate Valid() { -256 <= dx < 256 && -256 <= dy < 256 }

    predicate Lost() { overflowX || overflowY }

    /** The three bytes on the wire: buttons, always-one bit, signs and overflows, then the low
        bytes of the counts. */
    function Bytes(): seq<byte> {
      [Bit(left, 1) + Bit(right, 2) + Bit(middle, 4) + 8 + Bit(dx < 0, 16) + Bit(dy < 0, 32) + Bit(overflowX, 64)
       + Bit(overflowY, 128), dx % 256, dy % 256]
    }
  }

  function Bit(on: bool, value: nat): nat {
    if on then value else 0
  }

  function ReportBytes(reports: seq<Report>): seq<byte> {
    if reports == [] then [] else ReportBytes(reports[..|reports| - 1]) + reports[|reports| - 1].Bytes()
  }

  /** What the reports say: counts of those without overflow. */
  function TotalX(reports: seq<Report>): int {
    if reports == [] then 0 else
      var r := reports[|reports| - 1];
      TotalX(reports[..|reports| - 1]) + (if r.Lost() then 0 else r.dx)
  }

  function TotalY(reports: seq<Report>): int {
    if reports == [] then 0 else
      var r := reports[|reports| - 1];
      TotalY(reports[..|reports| - 1]) + (if r.Lost() then 0 else r.dy)
  }

  function Kept(reports: seq<Report>): nat {
    if reports == [] then 0 else Kept(reports[..|reports| - 1]) + (if reports[|reports| - 1].Lost() then 0 else 1)
  }

  /** The movement is read right exactly when it fits a signed byte: the sign bits are ignored. */
  lemma ReportRead(r: Report)
    requires r.Valid()
    ensures SignedByte(r.Bytes()[1]) == r.dx <==> -128 <= r.dx < 128
    ensures SignedByte(r.Bytes()[2]) == r.dy <==> -128 <= r.dy < 128
  {
  }

  /** A fast movement to the right is read as one to the left. */
  lemma FastReportMisread(r: Report)
    requires r == Report(false, false, false, 130, 0, false, false)
    ensures r.Valid() && SignedByte(r.Bytes()[1]) == -126
  {
  }

  /** Buttons and overflow of a packet are those of the report. */
  lemma ReportFlags(r: Report)
    ensures var b := r.Bytes(); var p := Packet(b[0], b[1], b[2]);
            p.Left() == r.left && p.Overflow() == r.Lost() && (b[0] as int) / 8 % 2 == 1
  {
    hide Report.Bytes, Bit;
    FirstByte(r);
    var others, signs, lost := FlagGroups(r);
    FlagParts(r.left, others, signs, lost);
  }

  lemma FlagGroups(r: Report) returns (others: nat, signs: nat, lost: nat)
    ensures others == Bit(r.right, 1) + Bit(r.middle, 2) < 4 && signs == Bit(r.dx < 0, 1) + Bit(r.dy < 0, 2) < 4
    ensures lost == Bit(r.overflowX, 1) + Bit(r.overflowY, 2) && (lost > 0 <==> r.Lost())
  {
    others, signs := Bit(r.right, 1) + Bit(r.middle, 2), Bit(r.dx < 0, 1) + Bit(r.dy < 0, 2);
    lost := Bit(r.overflowX, 1) + Bit(r.overflowY, 2);
  }

  lemma FirstByte(r: Report)
    ensures |r.Bytes()| == 3
    ensures r.Bytes()[0] == Bit(r.left, 1) + 2 * (Bit(r.right, 1) + Bit(r.middle, 2)) + 8
                            + 16 * (Bit(r.dx < 0, 1) + Bit(r.dy < 0, 2))
                            + 64 * (Bit(r.overflowX, 1) + Bit(r.overflowY, 2))
  {
  }

  lemma FlagParts(left: bool, others: nat, signs: nat, lost: nat)
    requires others < 4 && signs < 4
    ensures var b := Bit(left, 1) + 2 * others + 8 + 16 * signs + 64 * lost;
            (b % 2 == 1 <==> left) && b / 8 % 2 == 1 && (b >= 64 <==> lost > 0)
  {
    hide Bit;
    BitIs(left);
    var half := signs + 4 * lost;
    var b := Bit(left, 1) + 2 * others + 8 * (1 + 2 * half);
    LowBits(b, Bit(left, 1), others, half);
  }

  lemma BitIs(on: bool)
    ensures Bit(on, 1) == if on then 1 else 0
  {
  }

  lemma LowBits(b: nat, bit: nat, others: nat, half: nat)
    requires bit < 2 && others < 4 && b == bit + 2 * others + 8 * (1 + 2 * half)
    ensures b % 2 == bit && b / 8 % 2 == 1
  {
    assert b == bit + 2 * (others + 4 + 8 * half);
    var low, eighth := bit + 2 * others, 1 + 2 * half;
    assert b / 8 == eighth by { assert b == low + 8 * eighth && low < 8; }
  }

  /** Every movement fits a signed byte. */
  ghost predicate Small(reports: seq<Report>) {
    forall r <- reports :: -128 <= r.dx < 128 && -128 <= r.dy < 128
  }

  /** What the mouse reports is what the decoder reads: as many packets, the same counts and the
      last report's button. */
  lemma {:induction false} ReportsDecode(reports: seq<Report>, left: bool)
    requires Small(reports)
    ensures |ReportBytes(reports)| == 3 * |reports|
    ensures var d := Decode([], ReportBytes(reports));
            && d.partial == [] && |d.packets| == |reports| && CleanCount(d.packets) == Kept(reports)
            && SumX(d.packets) == TotalX(reports) && SumY(d.packets) == TotalY(reports)
            && LeftAfter(left, d.packets) == if reports == [] then left else reports[|reports| - 1].left
  {
    hide Decode, SumX, SumY, CleanCount, PacketOf, Report.Bytes;
    if reports == [] {
      NoPackets();
    } else {
      var n := |reports| - 1;
      var r := reports[n];
      assert r in reports && Small(reports[..n]) by { assert forall q <- reports[..n] :: q in reports; }
      ReportsDecode(reports[..n], left);
      OneReport(r);
      DecodeConcat([], ReportBytes(reports[..n]), r.Bytes());
      SnocSums(Decode([], ReportBytes(reports[..n])).packets, PacketOf(r));
    }
  }

  lemma NoPackets()
    ensures Decode([], []) == Decoded([], []) && CleanCount([]) == 0 && SumX([]) == 0 && SumY([]) == 0
  {
  }

  function PacketOf(r: Report): Packet {
    var b := r.Bytes();
    Packet(b[0], b[1], b[2])
  }

  /** One small report is one packet with its movement, button and overflow. */
  lemma OneReport(r: Report)
    requires -128 <= r.dx < 128 && -128 <= r.dy < 128
    ensures |r.Bytes()| == 3 && Decode([], r.Bytes()) == Decoded([PacketOf(r)], [])
    ensures var p := PacketOf(r);
            p.Left() == r.left && p.Overflow() == r.Lost() && SignedByte(p.dx) == r.dx && SignedByte(p.dy) == r.dy
  {
    hide Decode;
    ReportFlags(r);
    ReportRead(r);
    var b := r.Bytes();
    DecodeThree(b[0], b[1], b[2]);
    assert b == [b[0], b[1], b[2]];
  }

  lemma DecodeThree(a: byte, b: byte, c: byte)
    requires a as int / 8 % 2 == 1
    ensures Decode([], [a, b, c]) == Decoded([Packet(a, b, c)], [])
  {
    assert [a, b, c][1..] == [b, c] && [b, c][1..] == [c] && [c][1..] == [];
    assert Decode([a, b], [c]) == Decoded([Packet(a, b, c)], []);
    assert Decode([a], [b, c]) == Decode([a, b], [c]);
    assert [] + [a] == [a] && (a as int) / 8 % 2 != 0;
    assert Decode([], [a, b, c]) == Decode([a], [b, c]);
  }

  function FromMouse(bytes: seq<byte>): (r: seq<PortByte>)
    ensures |r| == |bytes|
  {
    seq(|bytes|, i requires 0 <= i < |bytes| => PortByte(bytes[i], true))
  }

  lemma {:induction false} MouseBytesOf(bytes: seq<byte>)
    ensures MouseBytes(FromMouse(bytes)) == bytes
  {
    if bytes != [] {
      assert FromMouse(bytes)[1..] == FromMouse(bytes[1..]);
      MouseBytesOf(bytes[1..]);
    }
  }

  /** Up to 32 reports are read by one poll, which moves the pointer by their sum. */
  lemma ReportsMovePointer(reports: seq<Report>, left: bool, spot: Spot, f: Frame)
    requires |reports| <= 32 && Small(reports)
    ensures |ReportBytes(reports)| == 3 * |reports|
    ensures Polling(MouseRun(FromMouse(ReportBytes(reports)), [], left, spot), f)
            == MouseRun([], [], if reports == [] then left else reports[|reports| - 1].left,
                        After(spot, Poll(3 * |reports|, TotalX(reports), TotalY(reports), Kept(reports),
                                         if reports == [] then left else reports[|reports| - 1].left), f))
  {
    var bytes := ReportBytes(reports);
    ReportsDecode(reports, left);
    MouseBytesOf(bytes);
    var pending := FromMouse(bytes);
    assert pending[..|pending|] == pending;
    var poll := Poll(|bytes|, TotalX(reports), TotalY(reports), Kept(reports),
                     if reports == [] then left else reports[|reports| - 1].left);
    hide Decode, SumX, SumY, CleanCount, After, Polling, LeftAfter;
    AllRead(pending, bytes);
    PollingIs(MouseRun(pending, [], left, spot), f, poll, []);
  }

  /** A poll reads 96 bytes or fewer to the end when it cannot complete 32 packets sooner. */
  lemma AllRead(pending: seq<PortByte>, bytes: seq<byte>)
    requires pending == FromMouse(bytes) && |bytes| <= 96
    ensures PollEnds(pending, [], |pending|)
  {
    hide Decode, CleanCount;
    forall m | 0 <= m < |pending| ensures Usable(pending, [], m) < MaxPackets {
      PacketBytes([], MouseBytes(pending[..m]));
    }
  }

  lemma {:induction false} CleanCountConcat(a: seq<Packet>, b: seq<Packet>)
    ensures CleanCount(a + b) == CleanCount(a) + CleanCount(b)
  {
    if b == [] {
      assert a + b == a;
    } else {
      var n := |b| - 1;
      CleanCountConcat(a, b[..n]);
      assert (a + b)[..|a + b| - 1] == a + b[..n] && (a + b)[|a + b| - 1] == b[n];
    }
  }
}
