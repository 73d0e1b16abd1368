/** The BMP writer and loader (Write24BitBmp and BmpLoader in Program.cs). */
module Bmp {
  import opened Bytes
  import opened Bits
  import opened Pixels
  import opened Splices

  datatype BmpImage = BmpImage(width: nat, height: nat, pixels: seq<Colour>, alpha: Option<seq<byte>>)

  datatype BmpError =
    | NotBmp | UnsupportedHeader | UnsupportedDimensions | UnsupportedPlanes | UnsupportedCompression
    | UnsupportedDepth | MalformedPalette | PastEnd | Overflow

  function Read32Signed(b: seq<byte>, i: nat): (r: int)
    requires i + 4 <= |b|
    ensures -0x8000_0000 <= r < 0x8000_0000 && (r - Read32(b, i)) % 0x1_0000_0000 == 0
  {
    var v := Read32(b, i);
    if v >= 0x8000_0000 then v - 0x1_0000_0000 else v
  }

  datatype Format = Format(dataOffset: int, dibSize: int, width: nat, height: nat, topDown: bool, depth: nat,
                           packed: bool)

  /** The loader's checks of the two headers. */
  function ReadFormat(b: seq<byte>): (r: Result<Format, BmpError>)
    ensures r.Ok? ==> |b| >= 54 && r.value.width > 0 && r.value.height > 0 && (r.value.packed ==> r.value.depth == 32)
  {
    if |b| < 54 || b[0] != 0x42 || b[1] != 0x4D then Err(NotBmp) else
      var dibSize := Read32Signed(b, 14);
      var width, rawHeight, depth, compression :=
        Read32Signed(b, 18), Read32Signed(b, 22), Read16(b, 28), Read32Signed(b, 30);
      if dibSize < 40 then Err(UnsupportedHeader)
      else if width <= 0 || rawHeight == 0 then Err(UnsupportedDimensions)
      else if Read16(b, 26) != 1 then Err(UnsupportedPlanes)
      else if compression != 0 && !(compression == 3 && depth == 32) then Err(UnsupportedCompression)
      else if rawHeight == -0x8000_0000 then Err(Overflow)
      else
        var height := if rawHeight < 0 then -rawHeight else rawHeight;
        Ok(Format(Read32Signed(b, 10), dibSize, width, height, rawHeight < 0, depth, compression == 3))
  }

  /** Bytes per row in the file, in the loader's way of counting. */
  function RowStride(width: nat, depth: nat): nat {
    (width * depth + 31) / 32 * 4
  }

  /** Where pixel column `x` of image row `y` is in the file, for pixels of `size` bytes. */
  function PixelOffset(f: Format, x: nat, y: nat, size: nat): int
    requires y < f.height
  {
    f.dataOffset + (if f.topDown then y else f.height - 1 - y) * RowStride(f.width, f.depth) + x * size
  }

  predicate Inside(b: seq<byte>, offset: int, size: nat) {
    0 <= offset && offset + size <= |b|
  }

  function BgrAt(b: seq<byte>, offset: int): Colour
    requires Inside(b, offset, 3)
  {
    Colour(b[offset + 2], b[offset + 1], b[offset])
  }

  datatype Masks = Masks(red: nat, green: nat, blue: nat, alpha: nat)

  function ChannelOf(packedPixel: nat, mask: nat): byte {
    if mask == 0 then 0 else ExtractChannel(packedPixel, mask)
  }

  /** The tables between headers and pixels: a palette or four masks. */
  datatype Tables = Tables(palette: seq<Colour>, masks: Masks)

  function PaletteCount(b: seq<byte>): int
    requires |b| >= 54
  {
    if Read32Signed(b, 46) <= 0 then 256 else Read32Signed(b, 46)
  }

  ghost predicate PaletteOf(b: seq<byte>, f: Format, palette: seq<Colour>)
    requires |b| >= 54
  {
    && Inside(b, 14 + f.dibSize, 4 * PaletteCount(b) - 1) && |palette| == PaletteCount(b)
    && forall i :: 0 <= i < |palette| ==> palette[i] == BgrAt(b, 14 + f.dibSize + 4 * i)
  }

  ghost predicate TablesOf(b: seq<byte>, f: Format, t: Tables)
    requires |b| >= 54
  {
    && (f.depth == 8 ==> PaletteOf(b, f, t.palette))
    && (f.packed ==> |b| >= 70 && t.masks == Masks(Read32(b, 54), Read32(b, 58), Read32(b, 62), Read32(b, 66)))
  }

  /** Colour and opacity of one pixel; opacity exists only in 32-bit files. */
  function PixelAt(b: seq<byte>, f: Format, t: Tables, x: nat, y: nat): Result<(Colour, Option<byte>), BmpError>
    requires y < f.height
  {
    if f.depth == 24 then
      var o := PixelOffset(f, x, y, 3);
      if Inside(b, o, 3) then Ok((BgrAt(b, o), None)) else Err(PastEnd)
    else if f.depth == 32 then
      var o := PixelOffset(f, x, y, 4);
      if !Inside(b, o, 4) then Err(PastEnd)
      else if f.packed then
        var v, m := Read32(b, o), t.masks;
        Ok((Colour(ChannelOf(v, m.red), ChannelOf(v, m.green), ChannelOf(v, m.blue)),
            Some(if m.alpha != 0 then ChannelOf(v, m.alpha) else 255)))
      else Ok((BgrAt(b, o), Some(b[o + 3])))
    else if f.depth == 8 then
      var o := PixelOffset(f, x, y, 1);
      if !Inside(b, o, 1) then Err(PastEnd)
      else if b[o] as nat >= |t.palette| then Err(MalformedPalette) else Ok((t.palette[b[o]], None))
    else Err(UnsupportedDepth)
  }

  method ReadTables(b: seq<byte>, f: Format) returns (r: Result<Tables, BmpError>)
    requires ReadFormat(b) == Ok(f)
    ensures r.Ok? ==> TablesOf(b, f, r.value)
    ensures r.Err? <==> (f.depth == 8 && !Inside(b, 14 + f.dibSize, 4 * PaletteCount(b) - 1)) || (f.packed && |b| < 70)
    ensures r.Err? ==> r.error == PastEnd
  {
    var palette: seq<Colour>, masks := [], Masks(0, 0, 0, 0);
    if f.depth == 8 {
      var n := PaletteCount(b);
      while |palette| < n
        invariant |palette| <= n && (|palette| > 0 ==> Inside(b, 14 + f.dibSize, 4 * |palette| - 1))
        invariant forall i :: 0 <= i < |palette| ==>
                    Inside(b, 14 + f.dibSize + 4 * i, 3) && palette[i] == BgrAt(b, 14 + f.dibSize + 4 * i)
        decreases n - |palette|
      {
        var o := 14 + f.dibSize + 4 * |palette|;
        if !Inside(b, o, 3) {
          return Err(PastEnd);
        }
        palette := palette + [BgrAt(b, o)];
      }
    } else if f.packed {
      if |b| < 70 {
        return Err(PastEnd);
      }
      masks := Masks(Read32(b, 54), Read32(b, 58), Read32(b, 62), Read32(b, 66));
    }
    return Ok(Tables(palette, masks));
  }

  /** Pixels `0..n` of row `y` are in place. */
  ghost predicate RowLoaded(b: seq<byte>, f: Format, t: Tables, pixels: seq<Colour>, alpha: seq<byte>, y: nat, n: nat) {
    && y < f.height && n <= f.width && y * f.width + n <= |pixels| == |alpha|
    && forall x :: 0 <= x < n ==> PixelLoaded(b, f, t, pixels, alpha, x, y)
  }

  ghost predicate PixelLoaded(b: seq<byte>, f: Format, t: Tables, pixels: seq<Colour>, alpha: seq<byte>,
                              x: nat, y: nat)
  {
    && y < f.height && y * f.width + x < |pixels| == |alpha|
    && var p := PixelAt(b, f, t, x, y);
       p.Ok? && pixels[y * f.width + x] == p.value.0 && (p.value.1.Some? ==> alpha[y * f.width + x] == p.value.1.value)
  }

  lemma RowEnd(y: nat, z: nat, width: nat)
    requires y < z
    ensures y * width + width <= z * width
  {
    assert (z - y) * width >= width by { assert (z - y - 1) * width >= 0; }
  }

  /** Storing a pixel keeps what was stored before it. */
  lemma RowKept(b: seq<byte>, f: Format, t: Tables, before: seq<Colour>, after: seq<Colour>, alpha: seq<byte>,
                alphaAfter: seq<byte>,
                y: nat, n: nat, at: nat)
    requires RowLoaded(b, f, t, before, alpha, y, n) && y * f.width + n <= at
    requires |after| == |before| == |alphaAfter| && at <= |after| && after[..at] == before[..at]
    requires alphaAfter[..at] == alpha[..at]
    ensures RowLoaded(b, f, t, after, alphaAfter, y, n)
  {
    hide PixelAt;
    forall x | 0 <= x < n ensures PixelLoaded(b, f, t, after, alphaAfter, x, y) {
      var i := y * f.width + x;
      assert PixelLoaded(b, f, t, before, alpha, x, y);
      assert after[i] == after[..at][i] && before[i] == before[..at][i];
      assert alphaAfter[i] == alphaAfter[..at][i] && alpha[i] == alpha[..at][i];
    }
  }

  /** The inner loop: one row of pixels, or the first error in it. */
  method LoadRow(b: seq<byte>, f: Format, t: Tables, pixels: array<Colour>, alpha: array<byte>, y: nat)
    returns (e: Option<BmpError>)
    requires y < f.height && pixels.Length == alpha.Length == f.width * f.height
    requires forall z :: 0 <= z < y ==> RowLoaded(b, f, t, pixels[..], alpha[..], z, f.width)
    modifies pixels, alpha
    ensures e.None? ==> forall z :: 0 <= z <= y ==> RowLoaded(b, f, t, pixels[..], alpha[..], z, f.width)
    ensures e.Some? ==> exists x :: 0 <= x < f.width && PixelAt(b, f, t, x, y) == Err(e.value)
  {
    hide PixelAt, RowLoaded;
    RowEnd(y, f.height, f.width);
    EmptyRow(b, f, t, pixels[..], alpha[..], y);
    var x := 0;
    while x < f.width
      invariant 0 <= x <= f.width
      invariant forall z :: 0 <= z < y ==> RowLoaded(b, f, t, pixels[..], alpha[..], z, f.width)
      invariant RowLoaded(b, f, t, pixels[..], alpha[..], y, x)
    {
      var p := PixelAt(b, f, t, x, y);
      if p.Err? {
        return Some(p.error);
      }
      var i := y * f.width + x;
      ghost var pixelsBefore, alphaBefore := pixels[..], alpha[..];
      pixels[i] := p.value.0;
      if p.value.1.Some? {
        alpha[i] := p.value.1.value;
      }
      StoredPixel(b, f, t, pixelsBefore, pixels[..], alphaBefore, alpha[..], x, y);
      x := x + 1;
    }
    return None;
  }

  /** Loading succeeds exactly when the headers are supported, the tables are there and every
      pixel can be read; then each pixel is the one the file holds for its place. */
  method Load(b: seq<byte>) returns (r: Result<BmpImage, BmpError>)
    ensures r.Ok? ==> Loaded(b, r.value)
    ensures r.Err? ==> Unreadable(b, r.error)
  {
    hide PixelAt, RowLoaded, TablesOf;
    var format := ReadFormat(b);
    if format.Err? {
      return Err(format.error);
    }
    var f := format.value;
    var tables := ReadTables(b, f);
    if tables.Err? {
      return Err(tables.error);
    }
    var t := tables.value;
    var pixels := new Colour[f.width * f.height](_ => Colour(0, 0, 0));
    var alpha := new byte[f.width * f.height](_ => 0);
    var y := 0;
    while y < f.height
      invariant 0 <= y <= f.height
      invariant forall z :: 0 <= z < y ==> RowLoaded(b, f, t, pixels[..], alpha[..], z, f.width)
    {
      var e := LoadRow(b, f, t, pixels, alpha, y);
      if e.Some? {
        return Err(e.value);
      }
      y := y + 1;
    }
    AllLoaded(b, f, t, pixels[..], alpha[..]);
    return Ok(BmpImage(f.width, f.height, pixels[..], if f.depth == 32 then Some(alpha[..]) else None));
  }

  /** The image is what the file says. */
  ghost predicate Loaded(b: seq<byte>, image: BmpImage) {
    && ReadFormat(b).Ok?
    && var f := ReadFormat(b).value;
       && image.width == f.width && image.height == f.height && |image.pixels| == f.width * f.height
       && (image.alpha.Some? <==> f.depth == 32) && (image.alpha.Some? ==> |image.alpha.value| == |image.pixels|)
       && exists t :: TablesOf(b, f, t) && AllPixels(b, f, t, image)
  }

  ghost predicate AllPixels(b: seq<byte>, f: Format, t: Tables, image: BmpImage) {
    forall x, y :: 0 <= x < f.width && 0 <= y < f.height ==> HasPixel(b, f, t, image, x, y)
  }

  ghost predicate HasPixel(b: seq<byte>, f: Format, t: Tables, image: BmpImage, x: nat, y: nat) {
    && y < f.height && y * f.width + x < |image.pixels| && (image.alpha.Some? ==> |image.alpha.value| == |image.pixels|)
    && var i := y * f.width + x;
       PixelAt(b, f, t, x, y) == Ok((image.pixels[i], if image.alpha.Some? then Some(image.alpha.value[i]) else None))
  }

  /** Why a file is refused: its headers, its tables, or some pixel. */
  ghost predicate Unreadable(b: seq<byte>, e: BmpError) {
    || ReadFormat(b) == Err(e)
    || (ReadFormat(b).Ok? &&
        var f := ReadFormat(b).value;
        || (e == PastEnd && ((f.depth == 8 && !Inside(b, 14 + f.dibSize, 4 * PaletteCount(b) - 1))
                             || (f.packed && |b| < 70)))
        || exists t, x, y ::
             TablesOf(b, f, t) && 0 <= x < f.width && 0 <= y < f.height && PixelAt(b, f, t, x, y) == Err(e))
  }

  lemma EmptyRow(b: seq<byte>, f: Format, t: Tables, pixels: seq<Colour>, alpha: seq<byte>, y: nat)
    requires y < f.height && y * f.width <= |pixels| == |alpha|
    ensures RowLoaded(b, f, t, pixels, alpha, y, 0)
  {
  }

  lemma AllLoaded(b: seq<byte>, f: Format, t: Tables, pixels: seq<Colour>, alpha: seq<byte>)
    requires |pixels| == |alpha| == f.width * f.height
    requires forall y :: 0 <= y < f.height ==> RowLoaded(b, f, t, pixels, alpha, y, f.width)
    ensures AllPixels(b, f, t, BmpImage(f.width, f.height, pixels, if f.depth == 32 then Some(alpha) else None))
  {
    var image := BmpImage(f.width, f.height, pixels, if f.depth == 32 then Some(alpha) else None);
    forall x, y | 0 <= x < f.width && 0 <= y < f.height ensures HasPixel(b, f, t, image, x, y) {
      assert RowLoaded(b, f, t, pixels, alpha, y, f.width);
      assert PixelLoaded(b, f, t, pixels, alpha, x, y);
    }
  }

  /** What a pixel is does not depend on how the tables are represented. */
  lemma TablesAgree(b: seq<byte>, f: Format, t: Tables, u: Tables, x: nat, y: nat)
    requires |b| >= 54 && TablesOf(b, f, t) && TablesOf(b, f, u) && y < f.height && (f.packed ==> f.depth == 32)
    ensures PixelAt(b, f, t, x, y) == PixelAt(b, f, u, x, y)
  {
    if f.depth == 8 { assert t.palette == u.palette; }
  }

  /** Two images that agree with the file pixel by pixel agree with each other. */
  lemma SamePixel(b: seq<byte>, f: Format, t: Tables, u: Tables, image: BmpImage, other: BmpImage, i: nat)
    requires |b| >= 54 && TablesOf(b, f, t) && TablesOf(b, f, u) && (f.packed ==> f.depth == 32) && f.width > 0
    requires AllPixels(b, f, t, image) && AllPixels(b, f, u, other) && i < f.width * f.height
    ensures i < |image.pixels| && i < |other.pixels| && image.pixels[i] == other.pixels[i]
    ensures image.alpha.Some? == other.alpha.Some?
    ensures image.alpha.Some? ==>
              i < |image.alpha.value| && i < |other.alpha.value| && image.alpha.value[i] == other.alpha.value[i]
  {
    hide PixelAt, TablesOf;
    Coordinates(i, f.width, f.height);
    var x, y := i % f.width, i / f.width;
    TablesAgree(b, f, t, u, x, y);
    assert HasPixel(b, f, t, image, x, y) && HasPixel(b, f, u, other, x, y);
  }

  /** A file determines its image, and cannot be both loaded and refused. */
  lemma LoadedUnique(b: seq<byte>, image: BmpImage, other: BmpImage)
    requires Loaded(b, image) && Loaded(b, other)
    ensures image == other
  {
    hide PixelAt, TablesOf, AllPixels, ReadFormat;
    var f := ReadFormat(b).value;
    var t :| TablesOf(b, f, t) && AllPixels(b, f, t, image);
    var u :| TablesOf(b, f, u) && AllPixels(b, f, u, other);
    forall i | 0 <= i < f.width * f.height
      ensures image.pixels[i] == other.pixels[i] && (f.depth == 32 ==> image.alpha.value[i] == other.alpha.value[i])
    {
      SamePixel(b, f, t, u, image, other, i);
    }
    assert image.pixels == other.pixels;
    if f.depth == 32 { assert image.alpha.value == other.alpha.value; }
  }

  lemma LoadedNotRefused(b: seq<byte>, image: BmpImage, e: BmpError)
    requires Loaded(b, image)
    ensures !Unreadable(b, e)
  {
    hide PixelAt, TablesOf, ReadFormat;
    var f := ReadFormat(b).value;
    var t :| TablesOf(b, f, t) && AllPixels(b, f, t, image);
    TablesExist(b, f, t);
    forall u, x: nat, y: nat | TablesOf(b, f, u) && x < f.width && y < f.height
      ensures PixelAt(b, f, u, x, y) != Err(e)
    {
      TablesAgree(b, f, t, u, x, y);
      assert HasPixel(b, f, t, image, x, y);
    }
  }

  lemma TablesExist(b: seq<byte>, f: Format, t: Tables)
    requires |b| >= 54 && TablesOf(b, f, t)
    ensures f.depth == 8 ==> Inside(b, 14 + f.dibSize, 4 * PaletteCount(b) - 1)
    ensures f.packed ==> |b| >= 70
  {
  }

  lemma Coordinates(i: nat, width: nat, height: nat)
    requires width > 0 && i < width * height
    ensures i % width < width && i / width < height && i / width * width + i % width == i
  {
    if i / width >= height { MulAtMost(height, i / width, width); }
  }

  /** The pixel goes to place `i` of both buffers. */
  ghost predicate Stored(p: (Colour, Option<byte>), i: nat, before: seq<Colour>, after: seq<Colour>, alpha: seq<byte>,
                         alphaAfter: seq<byte>)
    requires i < |before| && i < |alpha|
  {
    after == before[i := p.0] && alphaAfter == if p.1.Some? then alpha[i := p.1.value] else alpha
  }

  lemma StoredPixel(b: seq<byte>, f: Format, t: Tables, before: seq<Colour>, after: seq<Colour>, alpha: seq<byte>,
                    alphaAfter: seq<byte>, x: nat, y: nat)
    requires y < f.height && x < f.width && RowLoaded(b, f, t, before, alpha, y, x)
    requires forall z :: 0 <= z < y ==> RowLoaded(b, f, t, before, alpha, z, f.width)
    requires y * f.width + x < |before| == |after| == |alpha| == |alphaAfter|
    requires PixelAt(b, f, t, x, y).Ok?
    requires Stored(PixelAt(b, f, t, x, y).value, y * f.width + x, before, after, alpha, alphaAfter)
    ensures RowLoaded(b, f, t, after, alphaAfter, y, x + 1)
    ensures forall z :: 0 <= z < y ==> RowLoaded(b, f, t, after, alphaAfter, z, f.width)
  {
    hide PixelAt, RowLoaded, PixelLoaded;
    var i := y * f.width + x;
    var p := PixelAt(b, f, t, x, y);
    assert after[..i] == before[..i] && alphaAfter[..i] == alpha[..i];
    forall z | 0 <= z < y ensures RowLoaded(b, f, t, after, alphaAfter, z, f.width) {
      RowEnd(z, y, f.width);
      RowKept(b, f, t, before, after, alpha, alphaAfter, z, f.width, i);
    }
    RowKept(b, f, t, before, after, alpha, alphaAfter, y, x, i);
    RowExtended(b, f, t, after, alphaAfter, y, x, i);
  }

  lemma RowExtended(b: seq<byte>, f: Format, t: Tables, pixels: seq<Colour>, alpha: seq<byte>, y: nat, x: nat, i: nat)
    requires y < f.height && x < f.width && RowLoaded(b, f, t, pixels, alpha, y, x) && i == y * f.width + x
    requires i < |pixels| == |alpha|
    requires var p := PixelAt(b, f, t, x, y);
             p.Ok? && pixels[i] == p.value.0 && (p.value.1.Some? ==> alpha[i] == p.value.1.value)
    ensures RowLoaded(b, f, t, pixels, alpha, y, x + 1)
  {
    hide PixelAt;
    assert PixelLoaded(b, f, t, pixels, alpha, x, y);
  }

  // ---- the writer ----

  /** Bytes per row, in the writer's way of counting. */
  function WriterStride(width: nat): nat {
    (width * 3 + 3) / 4 * 4
  }

  /** The writer rounds a row up as the loader does. */
  lemma StridesAgree(width: nat)
    ensures WriterStride(width) == RowStride(width, 24) && 3 * width <= WriterStride(width) < 3 * width + 4
  {
    var q, r := width * 3 / 4, width * 3 % 4;
    assert width * 24 == 32 * q + 8 * r;
  }

  const PixelStart := 54

  function FileSize(width: nat, height: nat): nat {
    PixelStart + WriterStride(width) * height
  }

  function HeaderFields(width: nat, height: nat): seq<(nat, seq<byte>)> {
    [(0, Le8(0x42)), (1, Le8(0x4D)), (2, Le32(FileSize(width, height))), (10, Le32(PixelStart)), (14, Le32(40)),
     (18, Le32(width)), (22, Le32(height)), (26, Le16(1)), (28, Le16(24)), (34, Le32(WriterStride(width) * height))]
  }

  /** A field that touches neither the pixels nor the bytes left zero. */
  ghost predicate BesideGaps(f: (nat, seq<byte>)) {
    f.0 + |f.1| <= 38 && (f.0 + |f.1| <= 6 || 10 <= f.0) && (f.0 + |f.1| <= 30 || 34 <= f.0)
  }

  lemma HeaderFieldsFit(width: nat, height: nat)
    ensures Ascending(HeaderFields(width, height))
    ensures forall f <- HeaderFields(width, height) :: BesideGaps(f)
  {
    HeaderPlaces(width, height);
    hide HeaderFields;
    var fields := HeaderFields(width, height);
    forall f | f in fields ensures BesideGaps(f) {
      var k :| 0 <= k < |fields| && fields[k] == f;
    }
  }

  lemma HeaderPlaces(width: nat, height: nat)
    ensures var fields := HeaderFields(width, height); (
      && |fields| == 10 && Ascending(fields)
      && forall k :: 0 <= k < 10 ==> BesideGaps(fields[k]))
  {
    hide Le8, Le16, Le32, FileSize, WriterStride;
  }

  ghost predicate HeaderWritten(b: seq<byte>, width: nat, height: nat) {
    && |b| >= PixelStart && b[6..10] == Zeros(4) && b[30..34] == Zeros(4) && b[38..54] == Zeros(16)
    && forall k :: 0 <= k < |HeaderFields(width, height)| ==> FieldIs(b, HeaderFields(width, height)[k])
  }

  ghost predicate FieldIs(b: seq<byte>, f: (nat, seq<byte>)) {
    f.0 + |f.1| <= |b| && b[f.0..f.0 + |f.1|] == f.1
  }

  method WriteHeader(bytes: array<byte>, width: nat, height: nat)
    requires bytes.Length >= PixelStart && bytes[..PixelStart] == Zeros(PixelStart)
    modifies bytes
    ensures HeaderWritten(bytes[..], width, height)
  {
    hide HeaderFields;
    HeaderFieldsFit(width, height);
    ghost var before := bytes[..];
    var fields := HeaderFields(width, height);
    WriteFields(bytes, fields);
    forall k | 0 <= k < |fields| ensures FieldIs(bytes[..], fields[k]) {
      assert fields[k] in fields;
      OverlaidRead(before, fields, k);
    }
    OverlaidGap(before, fields, 6, 10);
    OverlaidGap(before, fields, 30, 34);
    OverlaidGap(before, fields, 38, 54);
    PrefixSlice(before, PixelStart, 6, 10);
    PrefixSlice(before, PixelStart, 30, 34);
    PrefixSlice(before, PixelStart, 38, 54);
  }

  predicate BgrIs(b: seq<byte>, o: nat, c: Colour) {
    o + 3 <= |b| && b[o] == c.blue && b[o + 1] == c.green && b[o + 2] == c.red
  }

  /** Row `row` starts at `start`: its pixels, blue first, then zeros up to the stride. */
  ghost predicate RowWritten(b: seq<byte>, start: nat, row: seq<Colour>, stride: nat) {
    && 3 * |row| <= stride && start + stride <= |b|
    && (forall x :: 0 <= x < |row| ==> BgrIs(b, start + x * 3, row[x]))
    && b[start + 3 * |row|..start + stride] == Zeros(stride - 3 * |row|)
  }

  method WritePixels(bytes: array<byte>, start: nat, row: seq<Colour>) returns (cursor: nat)
    requires start + 3 * |row| <= bytes.Length
    modifies bytes
    ensures cursor == start + 3 * |row| && bytes[..start] == old(bytes[..start])
    ensures forall x :: 0 <= x < |row| ==> BgrIs(bytes[..], start + x * 3, row[x])
  {
    cursor := start;
    var x := 0;
    while x < |row|
      invariant 0 <= x <= |row| && cursor == start + 3 * x && bytes[..start] == old(bytes[..start])
      invariant forall k :: 0 <= k < x ==> BgrIs(bytes[..], start + k * 3, row[k])
    {
      bytes[cursor] := row[x].blue;
      bytes[cursor + 1] := row[x].green;
      bytes[cursor + 2] := row[x].red;
      cursor := cursor + 3;
      x := x + 1;
    }
  }

  /** Zeros up to the next multiple of the stride, counted from the pixel start. */
  method PadRow(bytes: array<byte>, start: nat, first: nat, stride: nat) returns (cursor: nat)
    requires stride > 0 && start >= PixelStart && (start - PixelStart) % stride == 0
    requires start < first <= start + stride <= bytes.Length
    modifies bytes
    ensures cursor == start + stride && bytes[..first] == old(bytes[..first])
    ensures bytes[first..cursor] == Zeros(cursor - first)
  {
    cursor := first;
    CursorRemainder(start, cursor, stride);
    while (cursor - PixelStart) % stride != 0
      invariant first <= cursor <= start + stride && bytes[..first] == old(bytes[..first])
      invariant (cursor - PixelStart) % stride == 0 <==> cursor == start + stride
      invariant bytes[first..cursor] == Zeros(cursor - first)
      decreases start + stride - cursor
    {
      bytes[cursor] := 0;
      assert bytes[first..cursor + 1] == bytes[first..cursor] + [0];
      cursor := cursor + 1;
      CursorRemainder(start, cursor, stride);
    }
  }

  /** One pass of the writer's outer loop. */
  method WriteRow(bytes: array<byte>, start: nat, row: seq<Colour>) returns (cursor: nat)
    requires |row| > 0 && start >= PixelStart && (start - PixelStart) % WriterStride(|row|) == 0
    requires start + WriterStride(|row|) <= bytes.Length
    modifies bytes
    ensures cursor == start + WriterStride(|row|) && bytes[..start] == old(bytes[..start])
    ensures RowWritten(bytes[..], start, row, WriterStride(|row|))
  {
    StridesAgree(|row|);
    var stride := WriterStride(|row|);
    hide WriterStride;
    var first := WritePixels(bytes, start, row);
    ghost var painted := bytes[..];
    cursor := PadRow(bytes, start, first, stride);
    PixelsKept(painted, bytes[..], start, first, row);
    PrefixOfPrefix(bytes[..], first, start);
    PrefixOfPrefix(painted, first, start);
  }

  /** A change behind `limit` leaves the pixels before it. */
  lemma PixelsKept(before: seq<byte>, after: seq<byte>, start: nat, limit: nat, row: seq<Colour>)
    requires start + 3 * |row| <= limit <= |before| == |after| && after[..limit] == before[..limit]
    requires forall x :: 0 <= x < |row| ==> BgrIs(before, start + x * 3, row[x])
    ensures forall x :: 0 <= x < |row| ==> BgrIs(after, start + x * 3, row[x])
  {
    forall x | 0 <= x < |row| ensures BgrIs(after, start + x * 3, row[x]) {
      var o := start + x * 3;
      assert BgrIs(before, o, row[x]);
      PrefixSlice(after, limit, o, o + 3);
      PrefixSlice(before, limit, o, o + 3);
      assert after[o] == after[o..o + 3][0] && after[o + 1] == after[o..o + 3][1] && after[o + 2] == after[o..o + 3][2];
      assert before[o] == before[o..o + 3][0] && before[o + 1] == before[o..o + 3][1]
             && before[o + 2] == before[o..o + 3][2];
    }
  }

  lemma RowKeptBehind(before: seq<byte>, after: seq<byte>, start: nat, limit: nat, row: seq<Colour>, stride: nat)
    requires start + stride <= limit <= |before| == |after| && after[..limit] == before[..limit]
    requires RowWritten(before, start, row, stride)
    ensures RowWritten(after, start, row, stride)
  {
    hide BgrIs;
    PixelsKept(before, after, start, limit, row);
    var lo, hi := start + 3 * |row|, start + stride;
    PrefixSlice(after, limit, lo, hi);
    PrefixSlice(before, limit, lo, hi);
  }

  lemma CursorRemainder(start: nat, cursor: nat, stride: nat)
    requires stride > 0 && start >= PixelStart && (start - PixelStart) % stride == 0 && start < cursor <= start + stride
    ensures (cursor - PixelStart) % stride == 0 <==> cursor == start + stride
  {
    var q := (start - PixelStart) / stride;
    if cursor == start + stride {
      DivUnique(cursor - PixelStart, stride, q + 1, 0);
    } else {
      DivUnique(cursor - PixelStart, stride, q, cursor - start);
    }
  }

  /** The writer's file: headers, and image rows from the bottom up. */
  ghost predicate Written(b: seq<byte>, width: nat, height: nat, pixels: seq<Colour>) {
    && |b| == FileSize(width, height) && |pixels| == width * height && HeaderWritten(b, width, height)
    && forall y :: 0 <= y < height ==> RowInFile(b, width, height, pixels, y)
  }

  /** Where image row `y` starts in the file. */
  function RowPlace(width: nat, height: nat, y: nat): nat
    requires y < height
  {
    RowTimes(height - 1 - y, WriterStride(width));
    PixelStart + (height - 1 - y) * WriterStride(width)
  }

  lemma RowTimes(rows: nat, stride: nat)
    ensures rows * stride >= 0
  {
  }

  ghost predicate RowInFile(b: seq<byte>, width: nat, height: nat, pixels: seq<Colour>, y: nat) {
    && y < height && y * width + width <= |pixels|
    && RowWritten(b, RowPlace(width, height, y), pixels[y * width..y * width + width], WriterStride(width))
  }

  method Write24BitBmp(width: nat, height: nat, pixels: seq<Colour>) returns (b: seq<byte>)
    requires width > 0 && height > 0 && |pixels| == width * height
    ensures Written(b, width, height, pixels)
  {
    hide RowWritten, WriterStride, HeaderWritten, RowInFile, RowPlace;
    var stride := WriterStride(width);
    StridesAgree(width);
    var bytes := new byte[FileSize(width, height)](_ => 0);
    assert bytes[..PixelStart] == Zeros(PixelStart);
    WriteHeader(bytes, width, height);
    ghost var header := bytes[..];
    var cursor := PixelStart;
    var y := height;
    while y > 0
      invariant 0 <= y <= height && cursor == PixelStart + (height - y) * stride
      invariant bytes.Length == FileSize(width, height)
      invariant bytes[..PixelStart] == header[..PixelStart]
      invariant forall z :: y <= z < height ==> RowInFile(bytes[..], width, height, pixels, z)
    {
      y := y - 1;
      RowEnd(y, height, width);
      RowEnd(height - 1 - y, height, stride);
      RowStart(height - 1 - y, stride);
      ghost var before, start := bytes[..], cursor;
      cursor := WriteRow(bytes, cursor, pixels[y * width..y * width + width]);
      PrefixOfPrefix(before, start, PixelStart);
      PrefixOfPrefix(bytes[..], start, PixelStart);
      RowArrived(bytes[..], width, height, pixels, y, start);
      RowsStay(before, bytes[..], width, height, pixels, y, start);
    }
    b := bytes[..];
    HeaderStays(header, b, width, height);
  }

  lemma RowArrived(b: seq<byte>, width: nat, height: nat, pixels: seq<Colour>, y: nat, start: nat)
    requires y < height && y * width + width <= |pixels|
    requires start == PixelStart + (height - 1 - y) * WriterStride(width)
    requires RowWritten(b, start, pixels[y * width..y * width + width], WriterStride(width))
    ensures start == RowPlace(width, height, y) && RowInFile(b, width, height, pixels, y)
  {
    hide RowWritten, WriterStride;
  }

  /** The rows written so far, and the one just written. */
  lemma RowsStay(before: seq<byte>, after: seq<byte>, width: nat, height: nat, pixels: seq<Colour>, y: nat, start: nat)
    requires y < height && |after| == |before| && start <= |before| && after[..start] == before[..start]
    requires start == RowPlace(width, height, y) && RowInFile(after, width, height, pixels, y)
    requires forall z :: y < z < height ==> RowInFile(before, width, height, pixels, z)
    ensures forall z :: y <= z < height ==> RowInFile(after, width, height, pixels, z)
  {
    hide RowInFile, RowPlace;
    forall z | y < z < height ensures RowInFile(after, width, height, pixels, z) {
      RowStays(before, after, width, height, pixels, y, z, start);
    }
  }

  lemma RowStart(r: nat, stride: nat)
    requires stride > 0
    ensures (r * stride) % stride == 0
  {
    DivUnique(r * stride, stride, r, 0);
  }

  /** Later rows of the image lie earlier in the file. */
  lemma RowStays(before: seq<byte>, after: seq<byte>, width: nat, height: nat, pixels: seq<Colour>, y: nat, z: nat,
                 start: nat)
    requires y < z < height && RowInFile(before, width, height, pixels, z) && |after| == |before|
    requires start == RowPlace(width, height, y) && start <= |before| && after[..start] == before[..start]
    ensures RowInFile(after, width, height, pixels, z)
  {
    hide WriterStride, RowWritten;
    var stride := WriterStride(width);
    RowEnd(height - 1 - z, height - 1 - y, stride);
    RowKeptBehind(before, after, PixelStart + (height - 1 - z) * stride, start, pixels[z * width..z * width + width],
                  stride);
  }

  lemma HeaderStays(before: seq<byte>, after: seq<byte>, width: nat, height: nat)
    requires HeaderWritten(before, width, height) && |after| >= PixelStart
    requires after[..PixelStart] == before[..PixelStart]
    ensures HeaderWritten(after, width, height)
  {
    hide HeaderFields;
    HeaderFieldsFit(width, height);
    PrefixesAgree(after, before, PixelStart, 6, 10);
    PrefixesAgree(after, before, PixelStart, 30, 34);
    PrefixesAgree(after, before, PixelStart, 38, 54);
    forall k | 0 <= k < |HeaderFields(width, height)| ensures FieldIs(after, HeaderFields(width, height)[k]) {
      var f := HeaderFields(width, height)[k];
      assert f in HeaderFields(width, height) && FieldIs(before, f);
      PrefixSlice(after, PixelStart, f.0, f.0 + |f.1|);
      PrefixSlice(before, PixelStart, f.0, f.0 + |f.1|);
    }
  }

  // ---- loading what was written ----

  lemma WordOf(b: seq<byte>, at: nat, v: nat)
    requires FieldIs(b, (at, Le32(v))) && v < 0x8000_0000
    ensures Read32(b, at) == v && Read32Signed(b, at) == v
  {
    WordRead(b, at, v);
  }

  /** The loader's view of the writer's headers. */
  lemma FormatOfWritten(b: seq<byte>, width: nat, height: nat)
    requires 0 < width < 0x8000_0000 && 0 < height < 0x8000_0000 && HeaderWritten(b, width, height)
    ensures ReadFormat(b) == Ok(Format(PixelStart, 40, width, height, false, 24, false))
  {
    hide Read32, Read32Signed, Read16, Le16, Le32, FileSize, WriterStride;
    var f := HeaderFields(width, height);
    assert FieldIs(b, f[0]) && FieldIs(b, f[1]) && FieldIs(b, f[3]) && FieldIs(b, f[4]) && FieldIs(b, f[5])
           && FieldIs(b, f[6])
        && FieldIs(b, f[7]) && FieldIs(b, f[8]);
    assert b[0] == b[0..1][0] && b[1] == b[1..2][0];
    WordOf(b, 10, PixelStart);
    WordOf(b, 14, 40);
    WordOf(b, 18, width);
    WordOf(b, 22, height);
    HalfRead(b, 26, 1);
    HalfRead(b, 28, 24);
    ZeroWord();
    WordOf(b, 30, 0);
  }

  lemma ZeroWord()
    ensures Zeros(4) == Le32(0)
  {
  }

  /** A written file's header byte by byte: type, sizes, the pixels at 54, and one plane of 24-bit
      pixels, uncompressed. */
  lemma HeaderIs(b: seq<byte>, width: nat, height: nat)
    requires HeaderWritten(b, width, height)
    ensures b[0] == 0x42 && b[1] == 0x4D && b[6..10] == Zeros(4)
    ensures b[2..6] == Le32(54 + (3 * width + 3) / 4 * 4 * height)
    ensures b[10..14] == [54, 0, 0, 0] && b[14..18] == [40, 0, 0, 0] && b[18..22] == Le32(width)
    ensures b[22..26] == Le32(height) && b[26..28] == [1, 0] && b[28..30] == [24, 0] && b[30..34] == Zeros(4)
    ensures b[34..38] == Le32((3 * width + 3) / 4 * 4 * height) && b[38..54] == Zeros(16)
  {
    hide Le32, Le16;
    var fields := HeaderFields(width, height);
    assert FieldIs(b, fields[0]) && FieldIs(b, fields[1]) && FieldIs(b, fields[2]) && FieldIs(b, fields[3])
           && FieldIs(b, fields[4]) && FieldIs(b, fields[5]) && FieldIs(b, fields[6]) && FieldIs(b, fields[7])
           && FieldIs(b, fields[8]) && FieldIs(b, fields[9]);
    assert b[0] == b[0..1][0] && b[1] == b[1..2][0];
    SmallNumbers();
  }

  lemma SmallNumbers()
    ensures Le32(54) == [54, 0, 0, 0] && Le32(40) == [40, 0, 0, 0] && Le16(1) == [1, 0] && Le16(24) == [24, 0]
  {
  }

  /** The round trip: loading a written file gives exactly the image that was written, for all
      positive widths and heights. */
  lemma WrittenLoads(b: seq<byte>, width: nat, height: nat, pixels: seq<Colour>)
    requires 0 < width < 0x8000_0000 && 0 < height < 0x8000_0000 && Written(b, width, height, pixels)
    ensures Loaded(b, BmpImage(width, height, pixels, None))
    ensures forall image :: Loaded(b, image) ==> image == BmpImage(width, height, pixels, None)
    ensures forall e :: !Unreadable(b, e)
  {
    var image := BmpImage(width, height, pixels, None);
    var f := Format(PixelStart, 40, width, height, false, 24, false);
    var t := Tables([], Masks(0, 0, 0, 0));
    FormatOfWritten(b, width, height);
    assert TablesOf(b, f, t);
    hide HeaderWritten, ReadFormat, WriterStride, RowStride, TablesOf, RowWritten;
    forall x, y | 0 <= x < width && 0 <= y < height ensures HasPixel(b, f, t, image, x, y) {
      PixelOfWritten(b, width, height, pixels, x, y);
    }
    assert AllPixels(b, f, t, image);
    assert Loaded(b, image);
    forall other | Loaded(b, other) ensures other == image { LoadedUnique(b, image, other); }
    forall e ensures !Unreadable(b, e) { LoadedNotRefused(b, image, e); }
  }

  lemma PixelOfWritten(b: seq<byte>, width: nat, height: nat, pixels: seq<Colour>, x: nat, y: nat)
    requires Written(b, width, height, pixels) && x < width && y < height
    ensures HasPixel(b, Format(PixelStart, 40, width, height, false, 24, false), Tables([], Masks(0, 0, 0, 0)),
                     BmpImage(width, height, pixels, None), x, y)
  {
    hide HeaderWritten, WriterStride, RowStride, PixelAt, FileSize, PixelOffset, RowInFile;
    var f, t := Format(PixelStart, 40, width, height, false, 24, false), Tables([], Masks(0, 0, 0, 0));
    assert RowInFile(b, width, height, pixels, y);
    var o := PlaceOfWritten(b, width, height, pixels, x, y);
    PixelFrom24(b, f, t, x, y, o, pixels[y * width + x]);
  }

  lemma PlaceOfWritten(b: seq<byte>, width: nat, height: nat, pixels: seq<Colour>, x: nat, y: nat) returns (o: nat)
    requires RowInFile(b, width, height, pixels, y) && x < width
    ensures y * width + x < |pixels| && BgrIs(b, o, pixels[y * width + x])
    ensures PixelOffset(Format(PixelStart, 40, width, height, false, 24, false), x, y, 3) == o
  {
    hide WriterStride, RowStride, BgrIs, RowPlace, PixelOffset;
    o := RowPlace(width, height, y) + x * 3;
    SameOffset(width, height, x, y);
    var first := y * width;
    var row := pixels[first..first + width];
    assert BgrIs(b, o, row[x]);
    assert row[x] == pixels[first + x];
  }

  lemma SameOffset(width: nat, height: nat, x: nat, y: nat)
    requires y < height
    ensures PixelOffset(Format(PixelStart, 40, width, height, false, 24, false), x, y, 3)
            == RowPlace(width, height, y) + x * 3
  {
    StridesAgree(width);
    hide WriterStride, RowStride;
    assert WriterStride(width) == RowStride(width, 24);
  }

  lemma PixelFrom24(b: seq<byte>, f: Format, t: Tables, x: nat, y: nat, o: nat, c: Colour)
    requires f.depth == 24 && y < f.height && PixelOffset(f, x, y, 3) == o && BgrIs(b, o, c)
    ensures PixelAt(b, f, t, x, y) == Ok((c, None))
  {
    hide PixelOffset, ExtractChannel;
  }

  // ---- every kind of file the loader reads ----

  /** How pixels lie in a file: three bytes, four bytes, four bytes with eight-bit channels at any
      bit positions, or one byte into a palette. */
  datatype Layout =
    | Packed24
    | Packed32
    | Masked32(red: nat, green: nat, blue: nat, alpha: Option<nat>)
    | Paletted(palette: seq<Colour>)
  {
    function Size(): nat { if Paletted? then 1 else if Packed24? then 3 else 4 }
  }

  /** A picture as a BMP file describes it: rows from the top or from the bottom, headers and
      tables anywhere before the pixels. */
  datatype Picture = Picture(width: nat, height: nat, topDown: bool, layout: Layout, dataOffset: nat, dibSize: nat,
                             pixels: seq<Colour>, alpha: seq<byte>)
  {
    ghost predicate Valid() {
      && 0 < width < 0x8000_0000 && 0 < height < 0x8000_0000 && dataOffset < 0x8000_0000 && 40 <= dibSize < 0x8000_0000
      && |pixels| == |alpha| == width * height
    }

    function Image(): BmpImage {
      BmpImage(width, height, pixels, if layout.Size() == 4 then Some(alpha) else None)
    }
  }

  /** The header fields by their places in BITMAPFILEHEADER and BITMAPINFOHEADER; the height of a
      top-down file is negative. */
  ghost predicate Headed(b: seq<byte>, p: Picture) {
    && p.Valid() && |b| >= 54 && b[0..2] == ['B' as int, 'M' as int] && FieldIs(b, (10, Le32(p.dataOffset)))
    && FieldIs(b, (14, Le32(p.dibSize))) && FieldIs(b, (18, Le32(p.width)))
    && FieldIs(b, (22, Le32(if p.topDown then 0x1_0000_0000 - p.height else p.height)))
    && FieldIs(b, (26, Le16(1))) && FieldIs(b, (28, Le16(8 * p.layout.Size())))
    && FieldIs(b, (30, Le32(if p.layout.Masked32? then 3 else 0)))
  }

  /** Eight one bits from bit `shift` on. */
  function ByteMask(shift: nat): nat {
    255 * Pow2(shift)
  }

  ghost predicate Tabled(b: seq<byte>, p: Picture) {
    match p.layout
    case Masked32(red, green, blue, alpha) =>
      && red <= 24 && green <= 24 && blue <= 24 && (alpha.Some? ==> alpha.value <= 24)
      && FieldIs(b, (54, Le32(ByteMask(red)))) && FieldIs(b, (58, Le32(ByteMask(green))))
      && FieldIs(b, (62, Le32(ByteMask(blue))))
      && FieldIs(b, (66, Le32(if alpha.Some? then ByteMask(alpha.value) else 0)))
    case Paletted(palette) =>
      && 0 < |palette| < 0x8000_0000
      && (FieldIs(b, (46, Le32(|palette|))) || (|palette| == 256 && FieldIs(b, (46, Le32(0)))))
      && (14 + p.dibSize + 4 * |palette| <= |b|)
      && forall i :: 0 <= i < |palette| ==> BgrIs(b, 14 + p.dibSize + 4 * i, palette[i])
    case _ => true
  }

  /** What the file holds for one pixel at byte `o`. */
  ghost predicate PixelIs(b: seq<byte>, o: nat, layout: Layout, c: Colour, a: byte) {
    match layout
    case Packed24 => BgrIs(b, o, c)
    case Packed32 => BgrIs(b, o, c) && o + 4 <= |b| && b[o + 3] == a
    case Masked32(red, green, blue, alpha) =>
      && o + 4 <= |b|
      && var v := Read32(b, o);
         && v / Pow2(red) % 256 == c.red as int && v / Pow2(green) % 256 == c.green as int
         && v / Pow2(blue) % 256 == c.blue as int
         && if alpha.Some? then v / Pow2(alpha.value) % 256 == a as int else a == 255
    case Paletted(palette) => o < |b| && b[o] as int < |palette| && palette[b[o]] == c
  }

  /** The length of a row: the pixels, filled up to a multiple of four bytes. */
  ghost predicate IsStride(stride: nat, p: Picture) {
    stride % 4 == 0 && p.width * p.layout.Size() <= stride < p.width * p.layout.Size() + 4
  }

  /** The file is that picture. */
  ghost predicate Describes(b: seq<byte>, p: Picture, stride: nat) {
    && p.Valid() && Headed(b, p) && Tabled(b, p) && IsStride(stride, p)
    && forall x, y :: 0 <= x < p.width && 0 <= y < p.height ==> PixelPlaced(b, p, stride, x, y)
  }

  ghost predicate PixelPlaced(b: seq<byte>, p: Picture, stride: nat, x: nat, y: nat) {
    && y < p.height && y * p.width + x < |p.pixels| == |p.alpha|
    && var row := if p.topDown then y else p.height - 1 - y;
       row * stride >= 0
       && PixelIs(b, p.dataOffset + row * stride + x * p.layout.Size(), p.layout, p.pixels[y * p.width + x],
                  p.alpha[y * p.width + x])
  }

  function FormatOf(p: Picture): Format {
    Format(p.dataOffset, p.dibSize, p.width, p.height, p.topDown, 8 * p.layout.Size(), p.layout.Masked32?)
  }

  lemma FormatOfPicture(b: seq<byte>, p: Picture)
    requires p.Valid() && Headed(b, p)
    ensures ReadFormat(b) == Ok(FormatOf(p))
  {
    hide Read32, Read32Signed, Read16, Le16, Le32;
    assert b[0] == b[0..2][0] && b[1] == b[0..2][1];
    WordOf(b, 10, p.dataOffset);
    WordOf(b, 14, p.dibSize);
    WordOf(b, 18, p.width);
    HeightOf(b, p.height, p.topDown);
    HalfRead(b, 26, 1);
    HalfRead(b, 28, 8 * p.layout.Size());
    WordOf(b, 30, if p.layout.Masked32? then 3 else 0);
  }

  lemma HeightOf(b: seq<byte>, height: nat, topDown: bool)
    requires 0 < height < 0x8000_0000
    requires FieldIs(b, (22, Le32(if topDown then 0x1_0000_0000 - height else height)))
    ensures Read32Signed(b, 22) == if topDown then -(height as int) else height as int
  {
    WordRead(b, 22, if topDown then 0x1_0000_0000 - height else height);
    hide Read32, Le32;
  }

  /** The tables the loader reads from the file. */
  function TablesFrom(p: Picture): Tables {
    match p.layout
    case Masked32(red, green, blue, alpha) =>
      Tables([], Masks(ByteMask(red), ByteMask(green), ByteMask(blue),
                       if alpha.Some? then ByteMask(alpha.value) else 0))
    case Paletted(palette) => Tables(palette, Masks(0, 0, 0, 0))
    case _ => Tables([], Masks(0, 0, 0, 0))
  }

  lemma TablesOfPicture(b: seq<byte>, p: Picture)
    requires p.Valid() && Headed(b, p) && Tabled(b, p)
    ensures TablesOf(b, FormatOf(p), TablesFrom(p))
  {
    hide Read32, Read32Signed, Le32, ByteMask, Headed;
    match p.layout
    case Masked32(red, green, blue, alpha) =>
      MaskWord(b, 54, red);
      MaskWord(b, 58, green);
      MaskWord(b, 62, blue);
      if alpha.Some? { MaskWord(b, 66, alpha.value); } else { WordRead(b, 66, 0); }
    case Paletted(palette) =>
      if FieldIs(b, (46, Le32(|palette|))) { WordOf(b, 46, |palette|); } else { WordOf(b, 46, 0); }
      forall i | 0 <= i < |palette| ensures palette[i] == BgrAt(b, 14 + p.dibSize + 4 * i) {
        assert BgrIs(b, 14 + p.dibSize + 4 * i, palette[i]);
      }
    case _ =>
  }

  lemma MaskWord(b: seq<byte>, at: nat, shift: nat)
    requires shift <= 24 && FieldIs(b, (at, Le32(ByteMask(shift))))
    ensures at + 4 <= |b| && Read32(b, at) == ByteMask(shift)
  {
    hide Read32, Le32;
    MaskBelow(shift);
    WordRead(b, at, ByteMask(shift));
  }

  lemma {:induction false} MaskBelow(shift: nat)
    requires shift <= 24
    ensures 0 < ByteMask(shift) < 0x1_0000_0000
  {
    assert Pow2(8) == 256;
    hide Pow2;
    Pow2Monotone(shift, 24);
    Pow2Sum(8, 8);
    Pow2Sum(16, 8);
  }

  /** A byte-wide channel of a packed pixel. */
  lemma ByteChannel(v: nat, shift: nat)
    ensures ByteMask(shift) > 0 && ChannelOf(v, ByteMask(shift)) as int == v / Pow2(shift) % 256
  {
    assert Pow2(8) == 256;
    hide Pow2, ExtractChannel, Rescaled;
    assert ByteMask(shift) == Field(shift, 8);
    ExtractIs(v, shift, 8);
    FullRange(FieldBits(v, shift, 8));
  }

  lemma FullRange(v: nat)
    ensures Rescaled(v, 255) == v
  {
  }

  lemma PixelOfPicture(b: seq<byte>, p: Picture, stride: nat, x: nat, y: nat)
    requires p.Valid() && IsStride(stride, p) && PixelPlaced(b, p, stride, x, y)
    ensures HasPixel(b, FormatOf(p), TablesFrom(p), p.Image(), x, y)
  {
    hide PixelAt, PixelIs, RowStride, PixelOffset;
    var o := PlaceOfPicture(p, stride, x, y);
    PixelFromFile(b, p, x, y, o, p.pixels[y * p.width + x], p.alpha[y * p.width + x]);
  }

  lemma PlaceOfPicture(p: Picture, stride: nat, x: nat, y: nat) returns (o: nat)
    requires p.Valid() && IsStride(stride, p) && y < p.height
    ensures o == p.dataOffset + (if p.topDown then y else p.height - 1 - y) * stride + x * p.layout.Size()
    ensures PixelOffset(FormatOf(p), x, y, p.layout.Size()) == o
  {
    StrideIs(p.width, p.layout.Size(), stride);
    hide RowStride;
    var row := if p.topDown then y else p.height - 1 - y;
    RowTimes(row, stride);
    o := p.dataOffset + row * stride + x * p.layout.Size();
  }

  lemma StrideIs(width: nat, size: nat, stride: nat)
    requires stride % 4 == 0 && width * size <= stride < width * size + 4
    ensures RowStride(width, 8 * size) == stride
  {
    var n := width * size;
    assert width * (8 * size) == 8 * n;
    assert 8 * n + 31 == 32 * (stride / 4) + (8 * (n - stride) + 31);
  }

  lemma PixelFromFile(b: seq<byte>, p: Picture, x: nat, y: nat, o: nat, c: Colour, a: byte)
    requires y < p.height && PixelOffset(FormatOf(p), x, y, p.layout.Size()) == o && PixelIs(b, o, p.layout, c, a)
    ensures PixelAt(b, FormatOf(p), TablesFrom(p), x, y) == Ok((c, if p.layout.Size() == 4 then Some(a) else None))
  {
    hide PixelOffset, ChannelOf, ByteMask, Pow2, Read32;
    if p.layout.Masked32? {
      var v := Read32(b, o);
      ByteChannel(v, p.layout.red);
      ByteChannel(v, p.layout.green);
      ByteChannel(v, p.layout.blue);
      if p.layout.alpha.Some? { ByteChannel(v, p.layout.alpha.value); }
    }
  }

  /** Every file that describes a picture loads as exactly that picture: 8-bit with a palette,
      24-bit, 32-bit and 32-bit with masks, from the top or from the bottom. */
  lemma PictureLoads(b: seq<byte>, p: Picture, stride: nat)
    requires Describes(b, p, stride)
    ensures Loaded(b, p.Image())
    ensures forall image :: Loaded(b, image) ==> image == p.Image()
    ensures forall e :: !Unreadable(b, e)
  {
    hide Headed, Tabled, ReadFormat, RowStride, TablesOf, PixelPlaced, HasPixel, IsStride;
    var image, f, t := p.Image(), FormatOf(p), TablesFrom(p);
    FormatOfPicture(b, p);
    TablesOfPicture(b, p);
    forall x, y | 0 <= x < p.width && 0 <= y < p.height ensures HasPixel(b, f, t, image, x, y) {
      PixelOfPicture(b, p, stride, x, y);
    }
    assert AllPixels(b, f, t, image);
    assert Loaded(b, image);
    forall other | Loaded(b, other) ensures other == image { LoadedUnique(b, image, other); }
    forall e ensures !Unreadable(b, e) { LoadedNotRefused(b, image, e); }
  }

  /** The headers that are accepted, field by field. */
  lemma FormatAccepted(b: seq<byte>)
    ensures ReadFormat(b).Ok? <==>
              && |b| >= 54 && b[0] == 'B' as int && b[1] == 'M' as int && Read32Signed(b, 14) >= 40
              && Read32Signed(b, 18) > 0 && Read32Signed(b, 22) !in {0, -0x8000_0000} && Read16(b, 26) == 1
              && (Read32Signed(b, 30) == 0 || (Read32Signed(b, 30) == 3 && Read16(b, 28) == 32))
  {
    hide Read32Signed, Read16;
  }

  /** Pixels of any other depth are refused. */
  lemma OtherDepths(b: seq<byte>, f: Format, t: Tables, x: nat, y: nat)
    requires y < f.height && f.depth !in {8, 24, 32}
    ensures PixelAt(b, f, t, x, y) == Err(UnsupportedDepth)
  {
  }
}
