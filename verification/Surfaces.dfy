/** Framebuffer surfaces and the bulk pixel operations (ClearScreen, FillPixels32,
    CopyPixels32, BlitSurfaceRect in BootApp.c). */
module Surfaces {
  import opened Bits
  import opened Splices
  import opened Pixels

  /** FRAMEBUFFER_INFO: the structure is copied by value, the pixels are shared. */
  datatype Surface = Surface(width: nat, height: nat, stride: nat, format: PixelFormat, pixels: array<Pixel>)
  {
    predicate Valid() {
      width <= stride && pixels.Length == Index(stride, 0, height) && ValidFormat(format)
    }

    /** The pixels as a value. */
    ghost function Image(): seq<Pixel>
      reads pixels
    {
      pixels[..]
    }
  }

  /** Position of column `x` of row `y`. */
  function Index(stride: nat, x: nat, y: nat): nat {
    y * stride + x
  }

  /** The pixel at column `x` of row `y`. */
  function At(s: seq<Pixel>, stride: nat, x: nat, y: nat): Pixel {
    if Index(stride, x, y) < |s| then s[Index(stride, x, y)] else 0
  }

  // ---- row arithmetic ----

  /** The first pixel is the top left one, columns follow one another and rows are a stride apart. */
  lemma IndexSteps(stride: nat, x: nat, y: nat)
    ensures Index(stride, 0, 0) == 0 && Index(stride, x + 1, y) == Index(stride, x, y) + 1
    ensures Index(stride, x, y + 1) == Index(stride, x, y) + stride
  {
  }

  /** Rows follow one another: a row ends where a later one starts, or before. */
  lemma RowsApart(stride: nat, y: nat, z: nat)
    requires y < z
    ensures Index(stride, 0, y) + stride <= Index(stride, 0, z)
  {
    MulAtMost(y + 1, z, stride);
    assert (y + 1) * stride == y * stride + stride;
  }

  lemma IndexOffset(stride: nat, x: nat, y: nat)
    ensures Index(stride, x, y) == Index(stride, 0, y) + x
  {
  }

  lemma RunBound(stride: nat, height: nat, x: nat, y: nat, n: nat)
    requires x + n <= stride && y < height
    ensures Index(stride, x, y) + n <= Index(stride, 0, height)
  {
    RowsApart(stride, y, height);
    IndexOffset(stride, x, y);
  }

  /** A run of `n` pixels in row `y` holds the pixel `(i, j)` only when `j` is that row. */
  lemma RunHolds(stride: nat, x: nat, y: nat, n: nat, i: nat, j: nat)
    requires x + n <= stride && i < stride
    ensures Index(stride, x, y) <= Index(stride, i, j) < Index(stride, x, y) + n <==> (j == y && x <= i < x + n)
    ensures j == y ==> Index(stride, i, j) - Index(stride, x, y) == i - x
  {
    hide Index;
    IndexOffset(stride, x, y);
    IndexOffset(stride, i, j);
    if j < y { RowsApart(stride, j, y); }
    if y < j { RowsApart(stride, y, j); }
  }

  /** Writing a run inside one row changes exactly those pixels. */
  lemma SpliceRow(s: seq<Pixel>, stride: nat, height: nat, x: nat, y: nat, b: seq<Pixel>, i: nat, j: nat)
    requires |s| == Index(stride, 0, height) && y < height && x + |b| <= stride && i < stride && j < height
    ensures Index(stride, x, y) + |b| <= |s|
    ensures At(Splice(s, Index(stride, x, y), b), stride, i, j) ==
            if j == y && x <= i < x + |b| then b[i - x] else At(s, stride, i, j)
  {
    hide Index, Splice;
    RunBound(stride, height, x, y, |b|);
    RunBound(stride, height, i, j, 1);
    RunHolds(stride, x, y, |b|, i, j);
    SpliceAt(s, Index(stride, x, y), b, Index(stride, i, j));
  }

  // ---- fills and copies ----

  function Repeat(n: nat, colour: Pixel): (r: seq<Pixel>)
    ensures |r| == n
  {
    seq(n, _ => colour)
  }

  const PixelRange := 0x1_0000_0000

  /** A 64-bit word of two pixels, the first in the low half. */
  function Packed(first: Pixel, second: Pixel): (word: nat)
    ensures word < PixelRange * PixelRange && word % PixelRange == first && word / PixelRange == second
  {
    second * PixelRange + first
  }

  /** Stores a 64-bit word, low half first. */
  method StoreWord(destination: array<Pixel>, at: nat, word: nat)
    requires at + 2 <= destination.Length && word < PixelRange * PixelRange
    modifies destination
    ensures destination[..] == Splice(old(destination[..]), at, [word % PixelRange, word / PixelRange])
    ensures destination[..] == old(destination[..])[at := word % PixelRange][at + 1 := word / PixelRange]
  {
    destination[at] := word % PixelRange;
    destination[at + 1] := word / PixelRange;
  }

  /** Loads a 64-bit word. */
  method LoadWord(source: array<Pixel>, at: nat) returns (word: nat)
    requires at + 2 <= source.Length
    ensures word < PixelRange * PixelRange && word % PixelRange == source[at] && word / PixelRange == source[at + 1]
  {
    word := Packed(source[at], source[at + 1]);
  }

  /** Fills `count` pixels from `at`; `aligned` says whether the address allows 64-bit
      stores. Both ways fill exactly those pixels. */
  method FillPixels32(destination: array<Pixel>, at: nat, count: nat, colour: Pixel, aligned: bool)
    requires at + count <= destination.Length
    modifies destination
    ensures destination[..] == Splice(old(destination[..]), at, Repeat(count, colour))
  {
    hide Splice;
    ghost var before := destination[..];
    var index := 0;
    NothingSpliced(before, at, Repeat(0, colour));
    if aligned {
      var colour64 := Packed(colour, colour);
      var pairIndex := 0;
      var pairCount := count / 2;
      var bulkPairCount := pairCount / 8 * 8;
      while pairIndex < bulkPairCount
        invariant 0 <= pairIndex <= bulkPairCount && pairIndex % 8 == 0
        invariant destination[..] == Splice(before, at, Repeat(2 * pairIndex, colour))
      {
        FillEightPairs(destination, before, at, pairIndex, colour, colour64);
        pairIndex := pairIndex + 8;
      }
      while pairIndex < pairCount
        invariant 0 <= pairIndex <= pairCount
        invariant destination[..] == Splice(before, at, Repeat(2 * pairIndex, colour))
      {
        FillPair(destination, before, at, pairIndex, colour, colour64);
        pairIndex := pairIndex + 1;
      }
      index := 2 * pairCount;
    }
    while index < count
      invariant 0 <= index <= count
      invariant destination[..] == Splice(before, at, Repeat(index, colour))
    {
      FillStep(before, at, index, colour, 1);
      destination[at + index] := colour;
      UpdateIsSplice(Splice(before, at, Repeat(index, colour)), at + index, colour);
      index := index + 1;
    }
  }

  /** The unrolled body of the bulk loop. */
  method FillEightPairs(destination: array<Pixel>, ghost before: seq<Pixel>, at: nat, pairIndex: nat,
                        ghost colour: Pixel, colour64: nat)
    requires colour64 == Packed(colour, colour)
    requires |before| == destination.Length && at + 2 * pairIndex + 16 <= destination.Length
    requires destination[..] == Splice(before, at, Repeat(2 * pairIndex, colour))
    modifies destination
    ensures destination[..] == Splice(before, at, Repeat(2 * (pairIndex + 8), colour))
  {
    hide Splice, Repeat;
    FillPair(destination, before, at, pairIndex + 0, colour, colour64);
    FillPair(destination, before, at, pairIndex + 1, colour, colour64);
    FillPair(destination, before, at, pairIndex + 2, colour, colour64);
    FillPair(destination, before, at, pairIndex + 3, colour, colour64);
    FillPair(destination, before, at, pairIndex + 4, colour, colour64);
    FillPair(destination, before, at, pairIndex + 5, colour, colour64);
    FillPair(destination, before, at, pairIndex + 6, colour, colour64);
    FillPair(destination, before, at, pairIndex + 7, colour, colour64);
  }

  method FillPair(destination: array<Pixel>, ghost before: seq<Pixel>, at: nat, pairIndex: nat, ghost colour: Pixel,
                  colour64: nat)
    requires colour64 == Packed(colour, colour)
    requires |before| == destination.Length && at + 2 * pairIndex + 2 <= destination.Length
    requires destination[..] == Splice(before, at, Repeat(2 * pairIndex, colour))
    modifies destination
    ensures destination[..] == Splice(before, at, Repeat(2 * (pairIndex + 1), colour))
  {
    FillStep(before, at, 2 * pairIndex, colour, 2);
    StoreWord(destination, at + 2 * pairIndex, colour64);
    assert [colour, colour] == Repeat(2, colour);
  }

  lemma UpdateIsSplice(s: seq<Pixel>, i: nat, p: Pixel)
    requires i < |s|
    ensures s[i := p] == Splice(s, i, [p])
  {
  }

  lemma FillStep(s: seq<Pixel>, at: nat, n: nat, colour: Pixel, m: nat)
    requires at + n + m <= |s|
    ensures Splice(Splice(s, at, Repeat(n, colour)), at + n, Repeat(m, colour)) == Splice(s, at, Repeat(n + m, colour))
    ensures Repeat(1, colour) == [colour]
  {
    SpliceAppend(s, at, Repeat(n, colour), Repeat(m, colour));
    assert Repeat(n, colour) + Repeat(m, colour) == Repeat(n + m, colour);
  }

  /** Copying `n` pixels one after the other, each read when its turn comes: within one buffer
      what is read may already be overwritten. */
  function CopiedForward(d: seq<Pixel>, s: seq<Pixel>, same: bool, at: nat, from: nat, n: nat): (r: seq<Pixel>)
    requires at + n <= |d| && from + n <= |s| && (same ==> s == d)
    ensures |r| == |d|
  {
    if n == 0 then d else
      var e := CopiedForward(d, s, same, at, from, n - 1);
      e[at + n - 1 := (if same then e else s)[from + n - 1]]
  }

  lemma NothingSpliced(s: seq<Pixel>, at: nat, b: seq<Pixel>)
    requires at <= |s| && b == []
    ensures Splice(s, at, b) == s
  {
  }

  /** The run arrives as it was between different buffers, when the copy does not start ahead of
      its source, and otherwise exactly when every pixel equals the one `at - from` before it. So
      it does whenever the two runs do not overlap. */
  lemma CopiedIntact(d: seq<Pixel>, s: seq<Pixel>, same: bool, at: nat, from: nat, n: nat)
    requires at + n <= |d| && from + n <= |s| && (same ==> s == d)
    ensures CopiedForward(d, s, same, at, from, n) == Splice(d, at, s[from..from + n]) <==>
            !same || at <= from || Repeats(s, at, from, n)
  {
    hide Splice, CopiedForward;
    if !same || at <= from {
      CopiedBehind(d, s, same, at, from, n);
    } else {
      CopiedOver(d, at, from, n);
    }
  }

  /** In the part that both runs share, every pixel equals the one `at - from` before it. */
  ghost predicate Repeats(s: seq<Pixel>, at: nat, from: nat, n: nat)
    requires from < at && from + n <= |s|
  {
    forall i :: at <= i < from + n ==> s[i] == s[i - (at - from)]
  }

  lemma CopiedOver(d: seq<Pixel>, at: nat, from: nat, n: nat)
    requires from < at && at + n <= |d|
    ensures CopiedForward(d, d, true, at, from, n) == Splice(d, at, d[from..from + n]) <==> Repeats(d, at, from, n)
  {
    hide Splice, CopiedForward, Lap;
    var r, w := CopiedForward(d, d, true, at, from, n), Splice(d, at, d[from..from + n]);
    if r == w {
      forall i | at <= i < from + n ensures d[i] == d[i - (at - from)] {
        CopiedPixel(d, at, from, n, i - from);
        CopiedPixel(d, at, from, n, i - at);
        OneLapLess(i - from, at - from);
      }
    }
    if Repeats(d, at, from, n) {
      forall i | 0 <= i < |d| ensures r[i] == w[i] {
        if at <= i < at + n {
          CopiedPixel(d, at, from, n, i - at);
          LapsEqual(d, at, from, n, i - at);
        } else {
          CopiedAhead(d, at, from, n, i);
          SpliceAt(d, at, d[from..from + n], i);
        }
      }
    }
  }

  /** The `k`-th pixel of the destination, as copied and as it should be. */
  lemma CopiedPixel(d: seq<Pixel>, at: nat, from: nat, n: nat, k: nat)
    requires from < at && at + n <= |d| && k < n
    ensures from + Lap(k, at - from) < |d| && Splice(d, at, d[from..from + n])[at + k] == d[from + k]
    ensures CopiedForward(d, d, true, at, from, n)[at + k] == d[from + Lap(k, at - from)]
  {
    hide Splice, CopiedForward, Lap;
    CopiedAhead(d, at, from, n, at + k);
    SpliceAt(d, at, d[from..from + n], at + k);
  }

  lemma {:induction false} LapsEqual(d: seq<Pixel>, at: nat, from: nat, n: nat, k: nat)
    requires from < at && from + n <= |d| && k < n && Repeats(d, at, from, n)
    ensures from + Lap(k, at - from) < |d| && d[from + Lap(k, at - from)] == d[from + k]
  {
    OneLapLess(k, at - from);
    if k >= at - from {
      LapsEqual(d, at, from, n, k - (at - from));
      assert d[from + k] == d[from + k - (at - from)];
    }
  }

  /** Three pixels, the first two copied one place ahead: the first is repeated and the second
      lost. */
  lemma CopiedSmeared()
    ensures CopiedForward([1, 2, 3], [1, 2, 3], true, 1, 0, 2) == [1, 1, 1]
    ensures Splice([1, 2, 3], 1, [1, 2, 3][0..2]) == [1, 1, 2]
  {
    var d: seq<Pixel> := [1, 2, 3];
    CopyStep(d, d, true, 1, 0, 1);
    CopyStep(d, d, true, 1, 0, 0);
    NothingCopied(d, d, true, 1, 0);
  }

  lemma {:induction false} CopiedBehind(d: seq<Pixel>, s: seq<Pixel>, same: bool, at: nat, from: nat, n: nat)
    requires at + n <= |d| && from + n <= |s| && (same ==> s == d)
    requires !same || at <= from
    ensures CopiedForward(d, s, same, at, from, n) == Splice(d, at, s[from..from + n])
  {
    hide Splice, CopiedForward;
    NothingCopied(d, s, same, at, from);
    if n == 0 {
      NothingSpliced(d, at, s[from..from]);
    } else {
      CopiedBehind(d, s, same, at, from, n - 1);
      CopyStep(d, s, same, at, from, n - 1);
      var e := Splice(d, at, s[from..from + n - 1]);
      if same { SpliceAt(d, at, s[from..from + n - 1], from + n - 1); }
      UpdateIsSplice(e, at + n - 1, s[from + n - 1]);
      SpliceAppend(d, at, s[from..from + n - 1], [s[from + n - 1]]);
      assert s[from..from + n - 1] + [s[from + n - 1]] == s[from..from + n];
    }
  }

  /** Copying a run ahead onto itself repeats its first `at - from` pixels instead. */
  lemma {:induction false} CopiedAhead(d: seq<Pixel>, at: nat, from: nat, n: nat, i: nat)
    requires from < at && at + n <= |d| && i < |d|
    ensures CopiedForward(d, d, true, at, from, n)[i] ==
            if at <= i < at + n then d[from + Lap(i - at, at - from)] else d[i]
  {
    hide Lap;
    if n > 0 {
      CopiedAhead(d, at, from, n - 1, i);
      CopiedAhead(d, at, from, n - 1, from + n - 1);
      OneLapLess(n - 1, at - from);
    }
  }

  /** Position in the repeated stretch. */
  function Lap(k: nat, length: nat): (r: nat)
    requires length > 0
    ensures r < length
  {
    k % length
  }

  lemma OneLapLess(k: nat, length: nat)
    requires length > 0
    ensures Lap(k, length) == if k < length then k else Lap(k - length, length)
  {
    var q, r := k / length, k % length;
    assert k == q * length + r;
    if k < length {
      DivUnique(k, length, 0, k);
    } else if q >= 1 {
      assert k - length == (q - 1) * length + r;
      DivUnique(k - length, length, q - 1, r);
    }
  }

  /** Copies `count` pixels. `aligned` says whether both addresses allow 64-bit accesses; inside
      one buffer they are then an even number of pixels apart. */
  method CopyPixels32(destination: array<Pixel>, at: nat, source: array<Pixel>, from: nat, count: nat, aligned: bool)
    requires at + count <= destination.Length && from + count <= source.Length
    requires aligned && destination == source ==> (at - from) % 2 == 0
    modifies destination
    ensures destination[..] ==
            CopiedForward(old(destination[..]), old(source[..]), destination == source, at, from, count)
    ensures destination != source || at <= from || from + count <= at ==>
              destination[..] == Splice(old(destination[..]), at, old(source[from..from + count]))
  {
    hide Splice, CopiedForward;
    ghost var before, run := destination[..], source[..];
    ghost var same := destination == source;
    var index := 0;
    NothingCopied(before, run, same, at, from);
    if aligned {
      var pairIndex := 0;
      var pairCount := count / 2;
      var bulkPairCount := pairCount / 8 * 8;
      while pairIndex < bulkPairCount
        invariant 0 <= pairIndex <= bulkPairCount && pairIndex % 8 == 0 && (!same ==> source[..] == run)
        invariant destination[..] == CopiedForward(before, run, same, at, from, 2 * pairIndex)
      {
        CopyEightPairs(destination, source, before, run, at, from, pairIndex);
        pairIndex := pairIndex + 8;
      }
      while pairIndex < pairCount
        invariant 0 <= pairIndex <= pairCount && (!same ==> source[..] == run)
        invariant destination[..] == CopiedForward(before, run, same, at, from, 2 * pairIndex)
      {
        CopyPair(destination, source, before, run, at, from, pairIndex);
        pairIndex := pairIndex + 1;
      }
      index := 2 * pairCount;
    }
    while index < count
      invariant 0 <= index <= count && (!same ==> source[..] == run)
      invariant destination[..] == CopiedForward(before, run, same, at, from, index)
    {
      CopyStep(before, run, same, at, from, index);
      destination[at + index] := source[from + index];
      index := index + 1;
    }
    if !same || at <= from || from + count <= at {
      CopiedIntact(before, run, same, at, from, count);
    }
  }

  lemma NothingCopied(d: seq<Pixel>, s: seq<Pixel>, same: bool, at: nat, from: nat)
    requires at <= |d| && from <= |s| && (same ==> s == d)
    ensures CopiedForward(d, s, same, at, from, 0) == d
  {
  }

  lemma CopyStep(d: seq<Pixel>, s: seq<Pixel>, same: bool, at: nat, from: nat, n: nat)
    requires at + n < |d| && from + n < |s| && (same ==> s == d)
    ensures var e := CopiedForward(d, s, same, at, from, n);
            CopiedForward(d, s, same, at, from, n + 1) == e[at + n := (if same then e else s)[from + n]]
  {
  }

  /** The unrolled body of the bulk loop. */
  method CopyEightPairs(destination: array<Pixel>, source: array<Pixel>, ghost before: seq<Pixel>,
                        ghost run: seq<Pixel>,
                        at: nat, from: nat, pairIndex: nat)
    requires at + 2 * pairIndex + 16 <= destination.Length == |before|
    requires from + 2 * pairIndex + 16 <= source.Length == |run|
    requires if destination == source then run == before && (at - from) % 2 == 0 else source[..] == run
    requires destination[..] == CopiedForward(before, run, destination == source, at, from, 2 * pairIndex)
    modifies destination
    ensures destination != source ==> source[..] == run
    ensures destination[..] == CopiedForward(before, run, destination == source, at, from, 2 * (pairIndex + 8))
  {
    hide CopiedForward;
    CopyPair(destination, source, before, run, at, from, pairIndex + 0);
    CopyPair(destination, source, before, run, at, from, pairIndex + 1);
    CopyPair(destination, source, before, run, at, from, pairIndex + 2);
    CopyPair(destination, source, before, run, at, from, pairIndex + 3);
    CopyPair(destination, source, before, run, at, from, pairIndex + 4);
    CopyPair(destination, source, before, run, at, from, pairIndex + 5);
    CopyPair(destination, source, before, run, at, from, pairIndex + 6);
    CopyPair(destination, source, before, run, at, from, pairIndex + 7);
  }

  method CopyPair(destination: array<Pixel>, source: array<Pixel>, ghost before: seq<Pixel>, ghost run: seq<Pixel>,
                  at: nat, from: nat, pairIndex: nat)
    requires at + 2 * pairIndex + 2 <= destination.Length == |before|
    requires from + 2 * pairIndex + 2 <= source.Length == |run|
    requires if destination == source then run == before && (at - from) % 2 == 0 else source[..] == run
    requires destination[..] == CopiedForward(before, run, destination == source, at, from, 2 * pairIndex)
    modifies destination
    ensures destination != source ==> source[..] == run
    ensures destination[..] == CopiedForward(before, run, destination == source, at, from, 2 * (pairIndex + 1))
  {
    hide CopiedForward, Splice;
    CopyStep(before, run, destination == source, at, from, 2 * pairIndex);
    CopyStep(before, run, destination == source, at, from, 2 * pairIndex + 1);
    var word := LoadWord(source, from + 2 * pairIndex);
    StoreWord(destination, at + 2 * pairIndex, word);
  }

  // ---- rectangles ----

  predicate InRect(i: nat, j: nat, x: nat, y: nat, w: nat, h: nat) {
    x <= i < x + w && y <= j < y + h
  }

  /** One row of a copy between two pixel buffers of different shapes. Whether its addresses allow
      64-bit accesses differs from row to row. */
  method CopyRow(destination: array<Pixel>, stride: nat, height: nat, x: nat, y: nat,
                 source: array<Pixel>, sourceStride: nat, sourceHeight: nat, sx: nat, sy: nat, w: nat)
    requires destination.Length == Index(stride, 0, height) && source.Length == Index(sourceStride, 0, sourceHeight)
    requires x + w <= stride && y < height && sx + w <= sourceStride && sy < sourceHeight
    requires destination != source || (stride == sourceStride && x == sx && y == sy)
    modifies destination
    ensures forall i, j | 0 <= i < stride && 0 <= j < height ::
              At(destination[..], stride, i, j) ==
              if j == y && x <= i < x + w then At(old(source[..]), sourceStride, sx + (i - x), sy)
              else At(old(destination[..]), stride, i, j)
  {
    hide Splice, At, Index;
    ghost var before := destination[..];
    RunBound(stride, height, x, y, w);
    RunBound(sourceStride, sourceHeight, sx, sy, w);
    var at := Index(stride, x, y);
    var from := Index(sourceStride, sx, sy);
    ghost var run := source[from..from + w];
    var aligned: bool := *;
    CopyPixels32(destination, at, source, from, w, aligned);
    forall i, j | 0 <= i < stride && 0 <= j < height
      ensures At(destination[..], stride, i, j) ==
              if j == y && x <= i < x + w then At(old(source[..]), sourceStride, sx + (i - x), sy)
              else At(before, stride, i, j)
    {
      SpliceRow(before, stride, height, x, y, run, i, j);
      if j == y && x <= i < x + w {
        RunPixel(old(source[..]), sourceStride, sx, sy, w, sx + (i - x));
        assert run == old(source[..])[from..from + w];
      }
    }
  }

  /** Copies a rectangle, clipped to both screens, and changes nothing else. A surface copied
      onto itself is left as it was. */
  method BlitSurfaceRect(destination: Surface, source: Surface, x: nat, y: nat, width: nat, height: nat)
    requires destination.Valid() && source.Valid()
    requires destination.pixels != source.pixels || destination.stride == source.stride
    modifies destination.pixels
    ensures forall i, j | 0 <= i < destination.stride && 0 <= j < destination.height ::
              At(destination.Image(), destination.stride, i, j) ==
              if x <= i < x + width && y <= j < y + height && i < destination.width && i < source.width
                 && j < source.height then At(old(source.Image()), source.stride, i, j)
              else At(old(destination.Image()), destination.stride, i, j)
  {
    if x >= destination.width || y >= destination.height || x >= source.width || y >= source.height {
      return;
    }
    var maxWidth := destination.width - x;
    if source.width - x < maxWidth {
      maxWidth := source.width - x;
    }
    var maxHeight := destination.height - y;
    if source.height - y < maxHeight {
      maxHeight := source.height - y;
    }
    var w := if width > maxWidth then maxWidth else width;
    var h := if height > maxHeight then maxHeight else height;
    var row := 0;
    while row < h
      invariant 0 <= row <= h
      invariant destination.pixels != source.pixels ==> source.Image() == old(source.Image())
      invariant forall i, j | 0 <= i < destination.stride && 0 <= j < destination.height ::
                  At(destination.Image(), destination.stride, i, j) ==
                  if InRect(i, j, x, y, w, row) then At(old(source.Image()), source.stride, i, j)
                  else At(old(destination.Image()), destination.stride, i, j)
    {
      hide At, Index;
      CopyRow(destination.pixels, destination.stride, destination.height, x, y + row,
              source.pixels, source.stride, source.height, x, y + row, w);
      row := row + 1;
    }
  }

  lemma RunPixel(s: seq<Pixel>, stride: nat, x: nat, y: nat, w: nat, i: nat)
    requires Index(stride, x, y) + w <= |s| && x <= i < x + w
    ensures s[Index(stride, x, y)..Index(stride, x, y) + w][i - x] == At(s, stride, i, y)
  {
    IndexOffset(stride, x, y);
    IndexOffset(stride, i, y);
  }

  method ClearScreen(surface: Surface, colour: Pixel, ignoreBlackPixels: bool)
    requires surface.Valid()
    modifies surface.pixels
    ensures forall i, j | 0 <= i < surface.stride && 0 <= j < surface.height ::
              At(surface.Image(), surface.stride, i, j) ==
              if ignoreBlackPixels && colour == 0 then At(old(surface.Image()), surface.stride, i, j) else colour
  {
    if ignoreBlackPixels && colour == 0 {
      return;
    }
    var aligned: bool := *;
    FillPixels32(surface.pixels, 0, Index(surface.stride, 0, surface.height), colour, aligned);
    forall i, j | 0 <= i < surface.stride && 0 <= j < surface.height
      ensures At(surface.Image(), surface.stride, i, j) == colour
    {
      RunBound(surface.stride, surface.height, i, j, 1);
      SpliceAt(old(surface.Image()), 0, Repeat(Index(surface.stride, 0, surface.height), colour),
               Index(surface.stride, i, j));
    }
  }
}
