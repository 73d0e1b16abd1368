/** Packing colours into framebuffer pixels and back (MaskShift to AlphaBlendPixel in
    BootApp.c, ExtractBitfieldChannel in Program.cs). */
module Pixels {
  import opened Bytes
  import opened Bits

  /** A framebuffer word. */
  type Pixel = Word32

  datatype PixelFormat =
    | RedGreenBlue
    | BlueGreenRed
    | BitMask(redMask: Word32, greenMask: Word32, blueMask: Word32)
    | Other

  datatype Colour = Colour(red: byte, green: byte, blue: byte)

  // ---- masks ----

  /** Index of the lowest set bit. */
  function MaskShift(mask: nat): nat
    requires mask > 0
  {
    if mask % 2 == 1 then 0 else 1 + MaskShift(mask / 2)
  }

  /** Number of consecutive ones from bit 0. */
  function Ones(value: nat): nat {
    if value % 2 == 0 then 0 else 1 + Ones(value / 2)
  }

  function MaskWidth(mask: nat, shift: nat): nat {
    Ones(ShiftRight(mask, shift))
  }

  method FindMaskShift(mask: nat) returns (shift: nat)
    requires mask > 0
    ensures shift == MaskShift(mask)
  {
    shift := 0;
    var rest := mask;
    while rest % 2 == 0
      invariant rest > 0 && MaskShift(mask) == shift + MaskShift(rest)
      decreases rest
    {
      shift := shift + 1;
      rest := rest / 2;
    }
  }

  method FindMaskWidth(mask: nat, shift: nat) returns (width: nat)
    ensures width == MaskWidth(mask, shift)
  {
    hide Pow2;
    width := 0;
    DivNat(mask, Pow2(shift));
    var value: nat := mask / Pow2(shift);
    while value % 2 != 0
      invariant MaskWidth(mask, shift) == width + Ones(value)
      decreases value
    {
      width := width + 1;
      value := value / 2;
    }
  }

  lemma {:induction false} OnesOfField(width: nat)
    ensures Ones(Pow2(width) - 1) == width
  {
    if width > 0 {
      OnesOfField(width - 1);
      assert (Pow2(width) - 1) / 2 == Pow2(width - 1) - 1;
    }
  }

  lemma FieldZero(width: nat)
    ensures Field(0, width) == Pow2(width) - 1
  {
  }

  /** The shift and width found for a contiguous mask are those of the mask. */
  lemma {:induction false} FieldShiftWidth(shift: nat, width: nat)
    requires width > 0
    ensures Field(shift, width) > 0 && MaskShift(Field(shift, width)) == shift
    ensures MaskWidth(Field(shift, width), shift) == width
  {
    hide Field;
    FieldStep(shift, width);
    if shift > 0 {
      var f := Field(shift - 1, width);
      FieldShiftWidth(shift - 1, width);
      HalfDiv(2 * f, Pow2(shift - 1));
      assert 2 * f / 2 == f;
    } else {
      FieldZero(width);
      OnesOfField(width);
      assert Pow2(width) == 2 * Pow2(width - 1);
    }
  }

  // ---- channels ----

  /** `(channel * max + 127) / 255`, shifted into the mask. */
  lemma ChannelsFit(c: Colour, r: Word32, g: Word32, b: Word32)
    ensures Or(Or(ScaleChannel(c.red, r), ScaleChannel(c.green, g)), ScaleChannel(c.blue, b)) < 0x1_0000_0000
  {
    hide ScaleChannel, Or, Pow2;
    ScaleBelow(c.red, r);
    ScaleBelow(c.green, g);
    ScaleBelow(c.blue, b);
    WordRange();
    OrBelow(ScaleChannel(c.red, r), ScaleChannel(c.green, g), 32);
    OrBelow(Or(ScaleChannel(c.red, r), ScaleChannel(c.green, g)), ScaleChannel(c.blue, b), 32);
  }

  lemma WordRange()
    ensures Pow2(32) == 0x1_0000_0000
  {
    assert Pow2(8) == 256;
    hide Pow2;
    Pow2Sum(8, 8);
    Pow2Sum(16, 16);
  }

  lemma ScaleBelow(channel: nat, mask: nat)
    ensures ScaleChannel(channel, mask) <= mask
  {
    hide And, MaskShift, MaskWidth, Pow2;
  }

  /** A channel out of 255, rounded to one out of `maxValue`. */
  function Scaled(channel: nat, maxValue: nat): nat {
    MulAtMost(0, channel, maxValue);
    (channel * maxValue + 127) / 255
  }

  function ScaleChannel(channel: nat, mask: nat): nat {
    if mask == 0 then 0 else
      var shift := MaskShift(mask);
      var maxValue := Pow2(MaskWidth(mask, shift)) - 1;
      And(ShiftLeft(Scaled(channel, maxValue), shift), mask)
  }

  lemma {:induction false} LowestBit(mask: nat)
    requires mask > 0
    ensures mask / Pow2(MaskShift(mask)) % 2 == 1
  {
    if mask % 2 == 0 {
      LowestBit(mask / 2);
      HalfDiv(mask, Pow2(MaskShift(mask / 2)));
    }
  }

  function ExpandChannel(channel: nat, width: nat): nat {
    if width == 0 then 0 else
      var maxValue := Pow2(width) - 1;
      assert maxValue >= 1 by { assert Pow2(width) == 2 * Pow2(width - 1); }
      Rescaled(channel, maxValue)
  }

  /** A channel out of `maxValue`, rounded to one out of 255. */
  function Rescaled(channel: nat, maxValue: nat): nat
    requires maxValue >= 1
  {
    DivNat(channel * 255 + maxValue / 2, maxValue);
    (channel * 255 + maxValue / 2) / maxValue
  }

  /** The program keeps eight bits of ExpandChannel's result. */
  function ChannelByte(channel: nat, width: nat): byte {
    ExpandChannel(channel, width) % 256
  }

  function ComposePixel(c: Colour, format: PixelFormat): Pixel {
    match format
    case RedGreenBlue => c.red as int + 256 * (c.green as int) + 65536 * (c.blue as int)
    case BlueGreenRed => c.blue as int + 256 * (c.green as int) + 65536 * (c.red as int)
    case BitMask(r, g, b) =>
      ChannelsFit(c, r, g, b);
      Or(Or(ScaleChannel(c.red, r), ScaleChannel(c.green, g)), ScaleChannel(c.blue, b))
    case Other => 0
  }

  /** Modes the firmware may report: a mask format has three non-empty masks. Without them
      MaskShift does not return. */
  predicate ValidFormat(format: PixelFormat) {
    format.BitMask? ==> format.redMask > 0 && format.greenMask > 0 && format.blueMask > 0
  }

  function ExtractChannel(pixel: nat, mask: nat): byte
    requires mask > 0
  {
    var shift := MaskShift(mask);
    ChannelByte(ShiftRight(And(pixel, mask), shift), MaskWidth(mask, shift))
  }

  function DecomposePixel(pixel: nat, format: PixelFormat): Colour
    requires ValidFormat(format)
  {
    match format
    case RedGreenBlue => Colour(pixel % 256, pixel / 256 % 256, pixel / 65536 % 256)
    case BlueGreenRed => Colour(pixel / 65536 % 256, pixel / 256 % 256, pixel % 256)
    case BitMask(r, g, b) => Colour(ExtractChannel(pixel, r), ExtractChannel(pixel, g), ExtractChannel(pixel, b))
    case Other => Colour(0, 0, 0)
  }

  /** `r` is `total` out of 255, rounded to the nearest. */
  predicate Nearest(r: int, total: int) {
    -127 <= 255 * r - total <= 127
  }

  function BlendChannel(source: byte, destination: byte, alpha: byte): (r: byte)
    ensures alpha == 255 ==> r == source
    ensures alpha == 0 ==> r == destination
    ensures Nearest(r, source as int * alpha as int + destination as int * (255 - alpha as int))
  {
    var s, d, a := source as int, destination as int, alpha as int;
    Weighted(s, d, a);
    (s * a + d * (255 - a) + 127) / 255
  }

  lemma Weighted(s: int, d: int, a: int)
    requires 0 <= s < 256 && 0 <= d < 256 && 0 <= a < 256
    ensures 0 <= s * a + d * (255 - a) <= 255 * 255
  {
    MulAtMost(s, 255, a);
    MulAtMost(d, 255, 255 - a);
    MulAtMost(0, s, a);
    MulAtMost(0, d, 255 - a);
  }

  function AlphaBlendPixel(format: PixelFormat, destination: Pixel, c: Colour, alpha: byte): Pixel
    requires ValidFormat(format)
  {
    if alpha == 255 then ComposePixel(c, format)
    else if alpha == 0 then destination
    else
      var d := DecomposePixel(destination, format);
      ComposePixel(Colour(BlendChannel(c.red, d.red, alpha), BlendChannel(c.green, d.green, alpha),
                          BlendChannel(c.blue, d.blue, alpha)), format)
  }

  // ---- channel arithmetic ----

  /** Scaling undoes expanding for up to eight bits. */
  lemma ScaleOfExpand(v: nat, max: nat)
    requires 1 <= max <= 255 && max % 2 == 1 && v <= max
    ensures Rescaled(v, max) <= 255 && Scaled(Rescaled(v, max), max) == v
  {
    var c := (v * 255 + max / 2) / max;
    var r := (v * 255 + max / 2) % max;
    assert v * 255 + max / 2 == c * max + r;
    assert c * max + 127 == 255 * v + (max / 2 - r + 127);
    DivAtMost(v * 255 + max / 2, max, 255);
  }

  /** Expanding undoes scaling for eight or more bits. */
  lemma ExpandOfScale(c: nat, max: nat)
    requires c <= 255 <= max && max % 2 == 1
    ensures Scaled(c, max) <= max && Rescaled(Scaled(c, max), max) == c
  {
    var s := (c * max + 127) / 255;
    var r := (c * max + 127) % 255;
    var product := c * max;
    assert product + 127 == s * 255 + r;
    MulAtMost(c, 255, max);
    assert 0 <= 127 - r + max / 2 < max;
    DivUnique(s * 255 + max / 2, max, c, 127 - r + max / 2);
  }

  lemma MaxOdd(width: nat)
    requires width > 0
    ensures Pow2(width) >= 2 && (Pow2(width) - 1) % 2 == 1
    ensures width <= 8 ==> Pow2(width) <= 256
    ensures width >= 8 ==> Pow2(width) >= 256
  {
    Pow2Monotone(width, 8);
    Pow2Monotone(8, width);
    assert Pow2(8) == 256;
  }

  lemma {:induction false} Pow2Monotone(a: nat, b: nat)
    ensures a <= b ==> Pow2(a) <= Pow2(b)
  {
    if a < b { Pow2Monotone(a, b - 1); }
  }

  // ---- one mask ----

  /** A value below `2^width`, placed in a field, is left alone by the field's mask. */
  lemma PlacedInField(v: nat, shift: nat, width: nat)
    requires v < Pow2(width)
    ensures And(ShiftLeft(v, shift), Field(shift, width)) == ShiftLeft(v, shift)
    ensures ShiftRight(ShiftLeft(v, shift), shift) == v
  {
    hide And, Field, Pow2;
    AndField(ShiftLeft(v, shift), shift, width);
    DivUnique(v * Pow2(shift), Pow2(shift), v, 0);
    DivUnique(v, Pow2(width), 0, v);
  }

  /** The bits of a field, as a number. */
  function FieldBits(pixel: nat, shift: nat, width: nat): (v: nat)
    ensures v < Pow2(width)
  {
    ShiftRight(pixel, shift) % Pow2(width)
  }

  lemma MaskedField(pixel: nat, shift: nat, width: nat)
    ensures And(pixel, Field(shift, width)) == ShiftLeft(FieldBits(pixel, shift, width), shift)
  {
    hide And, Field, Pow2;
    AndField(pixel, shift, width);
  }

  lemma ScaledIntoField(channel: byte, shift: nat, width: nat)
    requires width > 0 && Scaled(channel, Pow2(width) - 1) < Pow2(width)
    ensures ScaleChannel(channel, Field(shift, width)) == ShiftLeft(Scaled(channel, Pow2(width) - 1), shift)
  {
    hide Field, And, MaskShift, MaskWidth, Pow2, Scaled, ShiftLeft;
    FieldShiftWidth(shift, width);
    PlacedInField(Scaled(channel, Pow2(width) - 1), shift, width);
  }

  /** One channel of compose after decompose, for a field of at most eight bits. */
  lemma ScaleOfExtract(pixel: nat, shift: nat, width: nat)
    requires 1 <= width <= 8
    ensures Field(shift, width) > 0
    ensures ScaleChannel(ExtractChannel(pixel, Field(shift, width)), Field(shift, width))
            == And(pixel, Field(shift, width))
  {
    hide Field, And, ScaleChannel, Pow2, ExtractChannel, Scaled, Rescaled, ShiftLeft, FieldBits;
    MaxOdd(width);
    ExtractIs(pixel, shift, width);
    MaskedField(pixel, shift, width);
    ScaleOfExpand(FieldBits(pixel, shift, width), Pow2(width) - 1);
    ScaledIntoField(ExtractChannel(pixel, Field(shift, width)), shift, width);
  }

  /** What extraction reads from a field: its bits, expanded to a byte. */
  lemma ExtractIs(pixel: nat, shift: nat, width: nat)
    requires 1 <= width <= 8
    ensures Field(shift, width) > 0 && 2 <= Pow2(width) <= 256
    ensures ExtractChannel(pixel, Field(shift, width)) as int
            == Rescaled(FieldBits(pixel, shift, width), Pow2(width) - 1)
  {
    hide Field, And, MaskShift, MaskWidth, Pow2, ChannelByte, Scaled, Rescaled, ShiftLeft, ShiftRight, FieldBits;
    var v := FieldBits(pixel, shift, width);
    FieldShiftWidth(shift, width);
    MaskedField(pixel, shift, width);
    PlacedInField(v, shift, width);
    MaxOdd(width);
    ScaleOfExpand(v, Pow2(width) - 1);
    ExpandByte(v, width);
  }

  lemma ExpandByte(v: nat, width: nat)
    requires width > 0 && Pow2(width) >= 2 && Rescaled(v, Pow2(width) - 1) <= 255
    ensures ChannelByte(v, width) as int == Rescaled(v, Pow2(width) - 1)
  {
    hide Rescaled;
  }

  /** One channel of decompose after compose, for a field of at least eight bits. */
  lemma ExtractOfScale(channel: byte, pixel: nat, shift: nat, width: nat)
    requires width >= 8 && Field(shift, width) > 0
    requires And(pixel, Field(shift, width)) == ScaleChannel(channel, Field(shift, width))
    ensures ExtractChannel(pixel, Field(shift, width)) == channel
  {
    hide Field, And, MaskShift, MaskWidth, ScaleChannel, Pow2, ChannelByte, Scaled, Rescaled, ShiftLeft, ShiftRight;
    MaxOdd(width);
    FieldShiftWidth(shift, width);
    var v := Scaled(channel, Pow2(width) - 1);
    ExpandOfScale(channel, Pow2(width) - 1);
    ScaledIntoField(channel, shift, width);
    PlacedInField(v, shift, width);
    ExpandByte(v, width);
  }

  // ---- three masks ----

  ghost predicate Contiguous(format: PixelFormat, low: nat, high: nat) {
    && format.BitMask?
    && (exists s: nat, w: nat :: low <= w <= high && w > 0 && format.redMask == Field(s, w))
    && (exists s: nat, w: nat :: low <= w <= high && w > 0 && format.greenMask == Field(s, w))
    && (exists s: nat, w: nat :: low <= w <= high && w > 0 && format.blueMask == Field(s, w))
    && And(format.redMask, format.greenMask) == 0
    && And(format.redMask, format.blueMask) == 0
    && And(format.greenMask, format.blueMask) == 0
  }

  lemma InsideOne(v: nat, m: nat, n: nat)
    requires And(v, m) == v && And(m, n) == 0
    ensures And(v, n) == 0
  {
    AndAssoc(v, m, n);
    ZeroMask(v);
  }

  /** Three values inside disjoint masks: each mask picks its own value out of their union. */
  lemma PickFromUnion(r: nat, g: nat, b: nat, rm: nat, gm: nat, bm: nat)
    requires And(r, rm) == r && And(g, gm) == g && And(b, bm) == b
    requires And(rm, gm) == 0 && And(rm, bm) == 0 && And(gm, bm) == 0
    ensures And(Or(Or(r, g), b), rm) == r && And(Or(Or(r, g), b), gm) == g && And(Or(Or(r, g), b), bm) == b
  {
    AndCommutes(rm, gm);
    AndCommutes(rm, bm);
    AndCommutes(gm, bm);
    InsideOne(r, rm, gm);
    InsideOne(r, rm, bm);
    InsideOne(g, gm, rm);
    InsideOne(g, gm, bm);
    InsideOne(b, bm, rm);
    InsideOne(b, bm, gm);
    forall m | m == rm || m == gm || m == bm
      ensures And(Or(Or(r, g), b), m) == Or(Or(And(r, m), And(g, m)), And(b, m))
    {
      AndOr(Or(r, g), b, m);
      AndOr(r, g, m);
    }
    OrZero(r);
    OrZero(g);
    OrZero(b);
  }

  lemma ScaleInside(channel: nat, mask: nat)
    ensures And(ScaleChannel(channel, mask), mask) == ScaleChannel(channel, mask)
  {
    hide And, MaskWidth, MaskShift, Pow2;
    if mask == 0 {
      ZeroMask(0);
    } else {
      var shift := MaskShift(mask);
      var x := (channel * (Pow2(MaskWidth(mask, shift)) - 1) + 127) / 255 * Pow2(shift);
      AndAssoc(x, mask, mask);
      AndSelf(mask);
    }
  }

  lemma {:induction false} AndSelf(a: nat)
    ensures And(a, a) == a
  {
    if a > 0 { AndSelf(a / 2); }
  }

  /** Decomposing a composed pixel gives the colour back when every mask has eight bits or
      more. */
  lemma DecomposeOfCompose(c: Colour, format: PixelFormat)
    requires Contiguous(format, 8, 24)
    ensures ValidFormat(format) && DecomposePixel(ComposePixel(c, format), format) == c
  {
    hide ScaleChannel, And, Or, Field, MaskShift, ExtractChannel;
    var BitMask(rm, gm, bm) := format;
    ScaleInside(c.red, rm);
    ScaleInside(c.green, gm);
    ScaleInside(c.blue, bm);
    PickFromUnion(ScaleChannel(c.red, rm), ScaleChannel(c.green, gm), ScaleChannel(c.blue, bm), rm, gm, bm);
    var pixel := ComposePixel(c, format);
    var rs: nat, rw: nat :| 8 <= rw <= 24 && rw > 0 && rm == Field(rs, rw);
    var gs: nat, gw: nat :| 8 <= gw <= 24 && gw > 0 && gm == Field(gs, gw);
    var bs: nat, bw: nat :| 8 <= bw <= 24 && bw > 0 && bm == Field(bs, bw);
    FieldShiftWidth(rs, rw);
    FieldShiftWidth(gs, gw);
    FieldShiftWidth(bs, bw);
    ExtractOfScale(c.red, pixel, rs, rw);
    ExtractOfScale(c.green, pixel, gs, gw);
    ExtractOfScale(c.blue, pixel, bs, bw);
  }

  /** Composing a decomposed pixel gives back its masked bits when every mask has at most
      eight bits. */
  lemma ComposeOfDecompose(pixel: nat, format: PixelFormat)
    requires Contiguous(format, 1, 8)
    ensures ValidFormat(format)
    ensures ComposePixel(DecomposePixel(pixel, format), format) ==
            And(pixel, Or(Or(format.redMask, format.greenMask), format.blueMask))
  {
    hide ScaleChannel, And, Or, Field, MaskShift, ExtractChannel;
    var BitMask(rm, gm, bm) := format;
    var rs: nat, rw: nat :| 1 <= rw <= 8 && rw > 0 && rm == Field(rs, rw);
    var gs: nat, gw: nat :| 1 <= gw <= 8 && gw > 0 && gm == Field(gs, gw);
    var bs: nat, bw: nat :| 1 <= bw <= 8 && bw > 0 && bm == Field(bs, bw);
    ScaleOfExtract(pixel, rs, rw);
    ScaleOfExtract(pixel, gs, gw);
    ScaleOfExtract(pixel, bs, bw);
    AndOfUnion(pixel, Or(rm, gm), bm);
    AndOfUnion(pixel, rm, gm);
  }

  // ---- where a colour's channels are in a pixel ----

  /** The two fixed formats, byte by byte as they lie in memory. */
  lemma FixedFormats(c: Colour)
    ensures Le32(ComposePixel(c, RedGreenBlue)) == [c.red, c.green, c.blue, 0]
    ensures Le32(ComposePixel(c, BlueGreenRed)) == [c.blue, c.green, c.red, 0]
  {
    ThreeBytes(c.red, c.green, c.blue);
    ThreeBytes(c.blue, c.green, c.red);
  }

  lemma ThreeBytes(a: byte, b: byte, c: byte)
    ensures Le32(a as int + 256 * b as int + 65536 * c as int) == [a, b, c, 0]
  {
    var v := a as int + 256 * b as int + 65536 * c as int;
    assert v / 256 == b as int + 256 * c as int && v / 65536 == c as int && v / 16777216 == 0;
  }

  /** Decomposing undoes composing in the two fixed formats. */
  lemma FixedDecompose(c: Colour)
    ensures DecomposePixel(ComposePixel(c, RedGreenBlue), RedGreenBlue) == c
    ensures DecomposePixel(ComposePixel(c, BlueGreenRed), BlueGreenRed) == c
  {
    FixedFormats(c);
  }

  /** Blending in a fixed format blends every channel with its own. */
  lemma BlendedChannels(destination: Pixel, c: Colour, alpha: byte, format: PixelFormat)
    requires format.RedGreenBlue? || format.BlueGreenRed?
    ensures var d := DecomposePixel(destination, format);
            DecomposePixel(AlphaBlendPixel(format, destination, c, alpha), format)
            == Colour(BlendChannel(c.red, d.red, alpha), BlendChannel(c.green, d.green, alpha),
                      BlendChannel(c.blue, d.blue, alpha))
  {
    hide ComposePixel, DecomposePixel, BlendChannel;
    var d := DecomposePixel(destination, format);
    FixedDecompose(c);
    FixedDecompose(Colour(BlendChannel(c.red, d.red, alpha), BlendChannel(c.green, d.green, alpha),
                          BlendChannel(c.blue, d.blue, alpha)));
  }

  /** In a mask format each mask holds its own channel, scaled to the mask's width and rounded
      to the nearest. */
  lemma ComposedField(c: Colour, format: PixelFormat)
    requires Contiguous(format, 1, 24)
    ensures HoldsChannel(ComposePixel(c, format), format.redMask, c.red)
    ensures HoldsChannel(ComposePixel(c, format), format.greenMask, c.green)
    ensures HoldsChannel(ComposePixel(c, format), format.blueMask, c.blue)
  {
    hide ScaleChannel, And, Or, Field, HoldsChannel;
    var BitMask(rm, gm, bm) := format;
    ScaleInside(c.red, rm);
    ScaleInside(c.green, gm);
    ScaleInside(c.blue, bm);
    PickFromUnion(ScaleChannel(c.red, rm), ScaleChannel(c.green, gm), ScaleChannel(c.blue, bm), rm, gm, bm);
    var pixel := ComposePixel(c, format);
    FieldHolds(pixel, rm, c.red);
    FieldHolds(pixel, gm, c.green);
    FieldHolds(pixel, bm, c.blue);
  }

  ghost predicate HoldsChannel(pixel: nat, mask: nat, channel: byte) {
    forall s: nat, w: nat :: w > 0 && mask == Field(s, w) ==>
      Nearest(pixel / Pow2(s) % Pow2(w), channel as int * (Pow2(w) - 1))
  }

  lemma FieldHolds(pixel: nat, mask: nat, channel: byte)
    requires And(pixel, mask) == ScaleChannel(channel, mask)
    ensures HoldsChannel(pixel, mask, channel)
  {
    hide ScaleChannel, And, Field, Nearest;
    forall s: nat, w: nat | w > 0 && mask == Field(s, w)
      ensures Nearest(pixel / Pow2(s) % Pow2(w), channel as int * (Pow2(w) - 1))
    {
      FieldNearest(pixel, s, w, channel);
    }
  }

  lemma FieldNearest(pixel: nat, shift: nat, width: nat, channel: byte)
    requires width > 0 && And(pixel, Field(shift, width)) == ScaleChannel(channel, Field(shift, width))
    ensures Nearest(pixel / Pow2(shift) % Pow2(width), channel as int * (Pow2(width) - 1))
  {
    hide And, Field, ScaleChannel, Pow2;
    var max := Pow2(width) - 1;
    ScaledNearest(channel, max);
    hide Scaled, Nearest;
    ScaledIntoField(channel, shift, width);
    AndField(pixel, shift, width);
    SameFactor(pixel / Pow2(shift) % Pow2(width), Scaled(channel, max), Pow2(shift));
  }

  lemma ScaledNearest(channel: byte, max: nat)
    ensures Scaled(channel, max) <= max && Nearest(Scaled(channel, max), channel as int * max)
  {
    MulAtMost(channel, 255, max);
  }

  lemma SameFactor(a: int, b: int, p: nat)
    requires p > 0 && a * p == b * p
    ensures a == b
  {
    if a < b { AtLeast(b - a, p); } else if b < a { AtLeast(a - b, p); }
  }

  /** A mask of one to eight bits is read as a channel out of 255, rounded to the nearest. */
  lemma ExtractedNearest(pixel: nat, shift: nat, width: nat)
    requires 1 <= width <= 8
    ensures Field(shift, width) > 0 && Pow2(width) > 1
    ensures var v, max := pixel / Pow2(shift) % Pow2(width), Pow2(width) - 1;
            -max <= 2 * (max * ExtractChannel(pixel, Field(shift, width)) as int - 255 * v) <= max
  {
    hide And, Field, ExtractChannel, Pow2;
    DivNat(pixel, Pow2(shift));
    ExtractIs(pixel, shift, width);
    RescaledNearest(FieldBits(pixel, shift, width), Pow2(width) - 1);
  }

  lemma RescaledNearest(v: nat, max: nat)
    requires max >= 1
    ensures -(max as int) <= 2 * (max * Rescaled(v, max) - 255 * v) <= max
  {
    var n := v * 255 + max / 2;
    assert n == n / max * max + n % max;
  }

  lemma AndOfUnion(p: nat, a: nat, b: nat)
    ensures And(p, Or(a, b)) == Or(And(p, a), And(p, b))
  {
    AndCommutes(p, Or(a, b));
    AndOr(a, b, p);
    AndCommutes(a, p);
    AndCommutes(b, p);
  }

  // ---- the builder's channel extraction ----

  /** ExtractBitfieldChannel in Program.cs: the same walk over the mask, one loop after the
      other, ending in the same expansion. */
  method ExtractBitfieldChannel(packedPixel: nat, mask: nat) returns (r: byte)
    ensures mask == 0 ==> r == 0
    ensures mask > 0 ==> r == ExtractChannel(packedPixel, mask)
  {
    if mask == 0 {
      return 0;
    }
    hide And, MaskShift, MaskWidth, Pow2, ExtractChannel, Rescaled, ShiftRight;
    var shift := FindMaskShift(mask);
    var value := ShiftRight(And(packedPixel, mask), shift);
    var width := FindMaskWidth(mask, shift);
    var maxValue := Pow2(width) - 1;
    ExtractedByte(packedPixel, mask, value, maxValue);
    return Rescaled(value, maxValue) % 256;
  }

  lemma SomeWidth(mask: nat)
    requires mask > 0
    ensures MaskWidth(mask, MaskShift(mask)) > 0
  {
    LowestBit(mask);
  }

  lemma ExtractedByte(pixel: nat, mask: nat, value: nat, maxValue: nat)
    requires mask > 0 && value == ShiftRight(And(pixel, mask), MaskShift(mask))
    requires maxValue == Pow2(MaskWidth(mask, MaskShift(mask))) - 1
    ensures maxValue >= 1 && Rescaled(value, maxValue) % 256 == ExtractChannel(pixel, mask) as int
  {
    hide And, MaskShift, MaskWidth, Pow2, Rescaled;
    SomeWidth(mask);
    MaxOdd(MaskWidth(mask, MaskShift(mask)));
  }
}
