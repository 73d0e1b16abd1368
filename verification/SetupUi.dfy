/** The setup screen: rounded boxes, labels, full and incremental drawing
    (PointInRoundedBox, DrawRoundedBox, DrawSetupButton, RefreshSetupButtons, DrawSetupScreen,
    HitTestSetupUi and InitializeSetupUiState in BootApp.c).

    Text and images are lists of blends: one per covered pixel, with its colour and alpha. */
module SetupUi {
  import opened Bytes
  import opened Splices
  import opened Pixels
  import opened Surfaces

  datatype UiBox = UiBox(x: nat, y: nat, width: nat, height: nat, radius: nat, colour: Pixel)
  {
    predicate Rounded() {
      radius <= width && radius <= height
    }
  }

  predicate PointInRoundedBox(x: nat, y: nat, box: UiBox)
    requires box.Rounded()
    ensures PointInRoundedBox(x, y, box) ==> InRect(x, y, box.x, box.y, box.width, box.height)
  {
    if x < box.x || y < box.y || x >= box.x + box.width || y >= box.y + box.height then false
    else if box.radius == 0 then true
    else
      var localX, localY, radius := x - box.x, y - box.y, box.radius;
      if radius <= localX < box.width - radius then true
      else if radius <= localY < box.height - radius then true
      else
        var dx := if localX < radius then radius - 1 - localX else localX - (box.width - radius);
        var dy := if localY < radius then radius - 1 - localY else localY - (box.height - radius);
        dx * dx + dy * dy < radius * radius
  }

  /** Distance of `v` in `0..n` to the nearer end. */
  function EdgeDistance(v: nat, n: nat): nat
    requires v < n
  {
    if v < n - 1 - v then v else n - 1 - v
  }

  /** The outline exactly: a point of the rectangle is inside unless it is nearer than the radius to
      two edges and outside the disc that rounds their corner. All four corners are alike. */
  lemma RoundedExactly(x: nat, y: nat, box: UiBox)
    requires 2 * box.radius <= box.width && 2 * box.radius <= box.height
    ensures PointInRoundedBox(x, y, box) <==>
              && box.x <= x < box.x + box.width && box.y <= y < box.y + box.height
              && var r, a, b := box.radius as int, EdgeDistance(x - box.x, box.width) as int,
                   EdgeDistance(y - box.y, box.height) as int;
                 a >= r || b >= r || (r - 1 - a) * (r - 1 - a) + (r - 1 - b) * (r - 1 - b) < r * r
  {
    if box.x <= x < box.x + box.width && box.y <= y < box.y + box.height {
      var r, a, b := box.radius, EdgeDistance(x - box.x, box.width), EdgeDistance(y - box.y, box.height);
      if a < r && b < r { CornerSame(x, y, box, r - 1 - a, r - 1 - b); }
    }
  }

  lemma CornerSame(x: nat, y: nat, box: UiBox, dx: int, dy: int)
    requires 2 * box.radius <= box.width && 2 * box.radius <= box.height
    requires box.x <= x < box.x + box.width && box.y <= y < box.y + box.height
    requires dx == box.radius - 1 - EdgeDistance(x - box.x, box.width) >= 0
    requires dy == box.radius - 1 - EdgeDistance(y - box.y, box.height) >= 0
    ensures PointInRoundedBox(x, y, box) <==> dx * dx + dy * dy < box.radius * box.radius
  {
  }

  /** One covered pixel of a glyph or image. */
  datatype Blend = Blend(x: int, y: int, colour: Colour, alpha: byte)

  /** Pixel `(i, j)`, holding `p`, after a list of blends. */
  function BlendAt(format: PixelFormat, p: Pixel, i: nat, j: nat, blends: seq<Blend>): Pixel
    requires ValidFormat(format)
  {
    if blends == [] then p else
      var before := BlendAt(format, p, i, j, blends[..|blends| - 1]);
      var b := blends[|blends| - 1];
      if b.x == i && b.y == j && b.alpha != 0 then AlphaBlendPixel(format, before, b.colour, b.alpha) else before
  }

  ghost predicate CaptionInside(caption: seq<Blend>, box: UiBox)
    requires box.Rounded()
  {
    forall k :: 0 <= k < |caption| && caption[k].alpha != 0 ==>
      caption[k].x >= 0 && caption[k].y >= 0 && PointInRoundedBox(caption[k].x, caption[k].y, box)
  }

  lemma {:induction false} BlendOutside(format: PixelFormat, p: Pixel, i: nat, j: nat, caption: seq<Blend>, box: UiBox)
    requires ValidFormat(format) && box.Rounded() && CaptionInside(caption, box) && !PointInRoundedBox(i, j, box)
    ensures BlendAt(format, p, i, j, caption) == p
  {
    if caption != [] { BlendOutside(format, p, i, j, caption[..|caption| - 1], box); }
  }

  datatype Ui = Ui(panel: UiBox, installButton: UiBox, tryButton: UiBox, hoveredButton: nat, mouseDetected: bool,
                   decorations: seq<Blend>, installLabel: seq<Blend>, tryLabel: seq<Blend>, footer: seq<Blend>)
  {
    /** Buttons that do not overlap, each with its label inside its rounded outline. */
    ghost predicate Valid() {
      && panel.Rounded() && installButton.Rounded() && tryButton.Rounded()
      && Apart(installButton, tryButton)
      && CaptionInside(installLabel, installButton) && CaptionInside(tryLabel, tryButton)
      && hoveredButton <= 2
    }
  }

  /** No pixel lies in the rectangles of both boxes. */
  predicate Apart(a: UiBox, b: UiBox) {
    a.x + a.width <= b.x || b.x + b.width <= a.x || a.y + a.height <= b.y || b.y + b.height <= a.y
  }

  // ---- what each pixel should be ----

  function ButtonColour(format: PixelFormat, hovered: bool): Pixel {
    if hovered then ComposePixel(Colour(212, 212, 215), format) else ComposePixel(Colour(227, 227, 229), format)
  }

  function ButtonPixel(format: PixelFormat, p: Pixel, i: nat, j: nat, box: UiBox, caption: seq<Blend>,
                       hovered: bool): Pixel
    requires ValidFormat(format) && box.Rounded()
  {
    BlendAt(format, if PointInRoundedBox(i, j, box) then ButtonColour(format, hovered) else p, i, j, caption)
  }

  /** Everything below the buttons. */
  function BackdropPixel(ui: Ui, format: PixelFormat, i: nat, j: nat): Pixel
    requires ValidFormat(format) && ui.panel.Rounded()
  {
    var p := if PointInRoundedBox(i, j, ui.panel) then ui.panel.colour else ComposePixel(Colour(208, 208, 208), format);
    BlendAt(format, p, i, j, ui.decorations)
  }

  /** The setup screen drawn from scratch for the current hovered button. */
  function ScenePixel(ui: Ui, format: PixelFormat, i: nat, j: nat): Pixel
    requires ValidFormat(format) && ui.panel.Rounded() && ui.installButton.Rounded() && ui.tryButton.Rounded()
  {
    var p := BackdropPixel(ui, format, i, j);
    var q := ButtonPixel(format, p, i, j, ui.installButton, ui.installLabel, ui.hoveredButton == 1);
    var r := ButtonPixel(format, q, i, j, ui.tryButton, ui.tryLabel, ui.hoveredButton == 2);
    if ui.mouseDetected then r else BlendAt(format, r, i, j, ui.footer)
  }

  /** The colours, byte by byte on a display with blue in the lowest byte. */
  lemma ColoursAre(box: UiBox)
    requires box.Rounded()
    ensures Le32(ButtonColour(BlueGreenRed, true)) == [215, 212, 212, 0]
    ensures Le32(ButtonColour(BlueGreenRed, false)) == [229, 227, 227, 0]
    ensures forall ui: Ui, i, j | ui.panel == box && ui.decorations == [] ::
              if PointInRoundedBox(i, j, box) then BackdropPixel(ui, BlueGreenRed, i, j) == box.colour
              else Le32(BackdropPixel(ui, BlueGreenRed, i, j)) == [208, 208, 208, 0]
  {
    FixedFormats(Colour(212, 212, 215));
    FixedFormats(Colour(227, 227, 229));
    FixedFormats(Colour(208, 208, 208));
    hide PointInRoundedBox;
  }

  /** No covered pixel of the text is at `(i, j)`. */
  ghost predicate Misses(caption: seq<Blend>, i: nat, j: nat) {
    forall b <- caption :: b.alpha == 0 || b.x != i || b.y != j
  }

  lemma {:induction false} MissedBlends(format: PixelFormat, p: Pixel, i: nat, j: nat, caption: seq<Blend>)
    requires ValidFormat(format) && Misses(caption, i, j)
    ensures BlendAt(format, p, i, j, caption) == p
  {
    if caption != [] {
      assert caption[|caption| - 1] in caption && forall b <- caption[..|caption| - 1] :: b in caption;
      MissedBlends(format, p, i, j, caption[..|caption| - 1]);
    }
  }

  /** Where no text is in the way, a button shows whether it is the hovered one: 1 is Install and 2
      is Try. */
  lemma HoverShown(ui: Ui, format: PixelFormat, i: nat, j: nat)
    requires ValidFormat(format) && ui.Valid() && Misses(ui.installLabel, i, j) && Misses(ui.tryLabel, i, j)
    requires Misses(ui.footer, i, j)
    ensures PointInRoundedBox(i, j, ui.installButton) ==>
              ScenePixel(ui, format, i, j) == ButtonColour(format, ui.hoveredButton == 1)
    ensures PointInRoundedBox(i, j, ui.tryButton) ==>
              ScenePixel(ui, format, i, j) == ButtonColour(format, ui.hoveredButton == 2)
  {
    hide BlendAt, PointInRoundedBox, CaptionInside, BackdropPixel, ButtonColour, Misses;
    var p := BackdropPixel(ui, format, i, j);
    MissedAll(format, i, j, ui);
  }

  lemma MissedAll(format: PixelFormat, i: nat, j: nat, ui: Ui)
    requires ValidFormat(format) && Misses(ui.installLabel, i, j) && Misses(ui.tryLabel, i, j)
    requires Misses(ui.footer, i, j)
    ensures forall p :: BlendAt(format, p, i, j, ui.installLabel) == p && BlendAt(format, p, i, j, ui.tryLabel) == p
    ensures forall p :: BlendAt(format, p, i, j, ui.footer) == p
  {
    hide BlendAt, Misses;
    forall p
      ensures BlendAt(format, p, i, j, ui.installLabel) == p && BlendAt(format, p, i, j, ui.tryLabel) == p
      ensures BlendAt(format, p, i, j, ui.footer) == p
    {
      MissedBlends(format, p, i, j, ui.installLabel);
      MissedBlends(format, p, i, j, ui.tryLabel);
      MissedBlends(format, p, i, j, ui.footer);
    }
  }

  /** Redrawing a button hides whatever state it was drawn in before, and touches nothing
      outside its rounded outline. */
  lemma ButtonRedraw(format: PixelFormat, p: Pixel, i: nat, j: nat, box: UiBox, caption: seq<Blend>, hovered: bool,
                     before: bool)
    requires ValidFormat(format) && box.Rounded() && CaptionInside(caption, box)
    ensures !PointInRoundedBox(i, j, box) ==> ButtonPixel(format, p, i, j, box, caption, hovered) == p
    ensures ButtonPixel(format, ButtonPixel(format, p, i, j, box, caption, before), i, j, box, caption, hovered)
            == ButtonPixel(format, p, i, j, box, caption, hovered)
  {
    if !PointInRoundedBox(i, j, box) { BlendOutside(format, p, i, j, caption, box); }
  }

  /** The pixel after RefreshSetupButtons. */
  function RefreshedPixel(ui: Ui, format: PixelFormat, p: Pixel, i: nat, j: nat, previous: nat, current: nat): Pixel
    requires ValidFormat(format) && ui.installButton.Rounded() && ui.tryButton.Rounded()
  {
    if previous == current then p else
      var q := if previous == 1 || current == 1
        then ButtonPixel(format, p, i, j, ui.installButton, ui.installLabel, current == 1) else p;
      if previous == 2 || current == 2 then ButtonPixel(format, q, i, j, ui.tryButton, ui.tryLabel, current == 2) else q
  }

  /** Refreshing the buttons that changed gives the same pixel as drawing the whole screen
      again for the new state. */
  lemma RefreshIsRedraw(ui: Ui, format: PixelFormat, i: nat, j: nat, previous: nat, current: nat)
    requires ValidFormat(format) && ui.Valid() && ui.mouseDetected && previous <= 2 && current <= 2
    ensures RefreshedPixel(ui, format, ScenePixel(ui.(hoveredButton := previous), format, i, j), i, j, previous,
                           current)
            == ScenePixel(ui.(hoveredButton := current), format, i, j)
  {
    hide BlendAt, PointInRoundedBox, CaptionInside;
    var install, tryIt := ui.installButton, ui.tryButton;
    var p := BackdropPixel(ui, format, i, j);
    var inInstall, inTry := PointInRoundedBox(i, j, install), PointInRoundedBox(i, j, tryIt);
    var q := ButtonPixel(format, p, i, j, install, ui.installLabel, previous == 1);
    ButtonRedraw(format, p, i, j, install, ui.installLabel, previous == 1, false);
    ButtonRedraw(format, p, i, j, install, ui.installLabel, current == 1, previous == 1);
    ButtonRedraw(format, p, i, j, tryIt, ui.tryLabel, previous == 2, false);
    ButtonRedraw(format, p, i, j, tryIt, ui.tryLabel, current == 2, previous == 2);
    ButtonRedraw(format, q, i, j, tryIt, ui.tryLabel, previous == 2, false);
    ButtonRedraw(format, q, i, j, tryIt, ui.tryLabel, current == 2, previous == 2);
    if !inInstall {
      var t := ButtonPixel(format, p, i, j, tryIt, ui.tryLabel, previous == 2);
      ButtonRedraw(format, t, i, j, install, ui.installLabel, current == 1, previous == 1);
    } else {
      assert !inTry;
      var n := ButtonPixel(format, p, i, j, install, ui.installLabel, current == 1);
      ButtonRedraw(format, n, i, j, tryIt, ui.tryLabel, current == 2, previous == 2);
    }
  }

  /** A change of hover shows only inside the buttons it concerns. */
  lemma SceneOutside(ui: Ui, format: PixelFormat, i: nat, j: nat, previous: nat, current: nat)
    requires ValidFormat(format) && ui.Valid() && ui.mouseDetected && previous <= 2 && current <= 2
    requires previous == 1 || current == 1 ==> !PointInRoundedBox(i, j, ui.installButton)
    requires previous == 2 || current == 2 ==> !PointInRoundedBox(i, j, ui.tryButton)
    ensures ScenePixel(ui.(hoveredButton := previous), format, i, j)
            == ScenePixel(ui.(hoveredButton := current), format, i, j)
  {
    hide BlendAt, PointInRoundedBox, CaptionInside;
    RefreshIsRedraw(ui, format, i, j, previous, current);
    var p := ScenePixel(ui.(hoveredButton := previous), format, i, j);
    ButtonRedraw(format, p, i, j, ui.installButton, ui.installLabel, current == 1, false);
    ButtonRedraw(format, p, i, j, ui.tryButton, ui.tryLabel, current == 2, false);
  }

  // ---- drawing ----

  method SetPixel(surface: Surface, x: nat, y: nat, p: Pixel)
    requires surface.Valid() && x < surface.width && y < surface.height
    modifies surface.pixels
    ensures forall i, j | 0 <= i < surface.stride && 0 <= j < surface.height ::
              At(surface.Image(), surface.stride, i, j) ==
              if i == x && j == y then p else At(old(surface.Image()), surface.stride, i, j)
  {
    hide Splice, At, Index;
    ghost var before := surface.Image();
    RunBound(surface.stride, surface.height, x, y, 1);
    surface.pixels[Index(surface.stride, x, y)] := p;
    UpdateIsSplice(before, Index(surface.stride, x, y), p);
    forall i, j | 0 <= i < surface.stride && 0 <= j < surface.height
      ensures At(surface.Image(), surface.stride, i, j) ==
              if i == x && j == y then p else At(before, surface.stride, i, j)
    {
      SpliceRow(before, surface.stride, surface.height, x, y, [p], i, j);
    }
  }

  method GetPixel(surface: Surface, x: nat, y: nat) returns (p: Pixel)
    requires surface.Valid() && x < surface.width && y < surface.height
    ensures p == At(surface.Image(), surface.stride, x, y)
  {
    RunBound(surface.stride, surface.height, x, y, 1);
    p := surface.pixels[Index(surface.stride, x, y)];
  }

  /** Pixels of the first `rows` rows and, in the next row, of the first `columns` columns. */
  predicate Scanned(i: nat, j: nat, x: nat, y: nat, width: nat, rows: nat, columns: nat) {
    InRect(i, j, x, y, width, rows) || (j == y + rows && x <= i < x + columns)
  }

  method DrawRoundedBox(surface: Surface, box: UiBox)
    requires surface.Valid() && box.Rounded()
    modifies surface.pixels
    ensures forall i, j | 0 <= i < surface.stride && 0 <= j < surface.height ::
              At(surface.Image(), surface.stride, i, j) ==
              if i < surface.width && PointInRoundedBox(i, j, box) then box.colour
              else At(old(surface.Image()), surface.stride, i, j)
  {
    hide At, Index, PointInRoundedBox;
    var row := 0;
    while row < box.height
      invariant 0 <= row <= box.height
      invariant forall i, j | 0 <= i < surface.stride && 0 <= j < surface.height ::
                  At(surface.Image(), surface.stride, i, j) ==
                  if i < surface.width && Scanned(i, j, box.x, box.y, box.width, row, 0)
                    && PointInRoundedBox(i, j, box) then box.colour
                  else At(old(surface.Image()), surface.stride, i, j)
    {
      var column := 0;
      while column < box.width
        invariant 0 <= column <= box.width
        invariant forall i, j | 0 <= i < surface.stride && 0 <= j < surface.height ::
                    At(surface.Image(), surface.stride, i, j) ==
                    if i < surface.width && Scanned(i, j, box.x, box.y, box.width, row, column)
                      && PointInRoundedBox(i, j, box) then box.colour
                    else At(old(surface.Image()), surface.stride, i, j)
      {
        var pixelX := box.x + column;
        var pixelY := box.y + row;
        if pixelX < surface.width && pixelY < surface.height {
          if PointInRoundedBox(pixelX, pixelY, box) {
            SetPixel(surface, pixelX, pixelY, box.colour);
          }
        }
        column := column + 1;
      }
      row := row + 1;
    }
  }

  /** Draws text or an image: each blend that falls on the screen, in order. */
  method DrawBlends(surface: Surface, blends: seq<Blend>)
    requires surface.Valid()
    modifies surface.pixels
    ensures forall i, j | 0 <= i < surface.width && 0 <= j < surface.height ::
              At(surface.Image(), surface.stride, i, j)
                == BlendAt(surface.format, At(old(surface.Image()), surface.stride, i, j), i, j, blends)
  {
    hide At, Index, AlphaBlendPixel;
    var k := 0;
    while k < |blends|
      invariant 0 <= k <= |blends|
      invariant forall i, j | 0 <= i < surface.width && 0 <= j < surface.height ::
                  At(surface.Image(), surface.stride, i, j)
                    == BlendAt(surface.format, At(old(surface.Image()), surface.stride, i, j), i, j, blends[..k])
    {
      var b := blends[k];
      assert blends[..k + 1][..k] == blends[..k];
      if 0 <= b.y < surface.height && 0 <= b.x < surface.width && b.alpha != 0 {
        var p := GetPixel(surface, b.x, b.y);
        SetPixel(surface, b.x, b.y, AlphaBlendPixel(surface.format, p, b.colour, b.alpha));
      }
      k := k + 1;
    }
    assert blends[..k] == blends;
  }

  method DrawSetupButton(surface: Surface, button: UiBox, caption: seq<Blend>, hovered: bool)
    requires surface.Valid() && button.Rounded()
    modifies surface.pixels
    ensures forall i, j | 0 <= i < surface.width && 0 <= j < surface.height ::
              At(surface.Image(), surface.stride, i, j) ==
              ButtonPixel(surface.format, At(old(surface.Image()), surface.stride, i, j), i, j, button, caption,
                          hovered)
  {
    hide At, Index, PointInRoundedBox, BlendAt;
    var buttonBox := button.(colour := ButtonColour(surface.format, hovered));
    ColourFree(button, buttonBox);
    DrawRoundedBox(surface, buttonBox);
    DrawBlends(surface, caption);
  }

  /** The outline of a box does not depend on its colour. */
  lemma ColourFree(a: UiBox, b: UiBox)
    requires a.Rounded() && b == a.(colour := b.colour)
    ensures forall i: nat, j: nat :: PointInRoundedBox(i, j, b) == PointInRoundedBox(i, j, a)
  {
  }

  method RefreshSetupButtons(surface: Surface, ui: Ui, previous: nat, current: nat)
    requires surface.Valid() && ui.installButton.Rounded() && ui.tryButton.Rounded()
    modifies surface.pixels
    ensures forall i, j | 0 <= i < surface.width && 0 <= j < surface.height ::
              At(surface.Image(), surface.stride, i, j) ==
              RefreshedPixel(ui, surface.format, At(old(surface.Image()), surface.stride, i, j), i, j, previous,
                             current)
  {
    hide At, Index, ButtonPixel;
    if previous == current {
      return;
    }
    if previous == 1 || current == 1 {
      DrawSetupButton(surface, ui.installButton, ui.installLabel, current == 1);
    }
    if previous == 2 || current == 2 {
      DrawSetupButton(surface, ui.tryButton, ui.tryLabel, current == 2);
    }
  }

  ghost predicate ShowsScene(surface: Surface, ui: Ui)
    requires surface.Valid() && ui.Valid()
    reads surface.pixels
  {
    forall i, j | 0 <= i < surface.width && 0 <= j < surface.height ::
      At(surface.Image(), surface.stride, i, j) == ScenePixel(ui, surface.format, i, j)
  }

  method DrawSetupScreen(surface: Surface, ui: Ui)
    requires surface.Valid() && ui.Valid()
    modifies surface.pixels
    ensures ShowsScene(surface, ui)
  {
    hide At, Index, ButtonPixel, BlendAt, PointInRoundedBox, CaptionInside;
    ClearScreen(surface, ComposePixel(Colour(208, 208, 208), surface.format), false);
    DrawRoundedBox(surface, ui.panel);
    DrawBlends(surface, ui.decorations);
    assert forall i, j | 0 <= i < surface.width && 0 <= j < surface.height ::
        At(surface.Image(), surface.stride, i, j) == BackdropPixel(ui, surface.format, i, j);
    DrawSetupButton(surface, ui.installButton, ui.installLabel, ui.hoveredButton == 1);
    DrawSetupButton(surface, ui.tryButton, ui.tryLabel, ui.hoveredButton == 2);
    if !ui.mouseDetected {
      DrawBlends(surface, ui.footer);
    }
  }

  /** 1 for Install, 2 for Try, 0 for neither, at the middle of the cursor. */
  function HitTestSetupUi(ui: Ui, cursorX: nat, cursorY: nat, cursorWidth: nat, cursorHeight: nat): (r: nat)
    requires ui.installButton.Rounded() && ui.tryButton.Rounded()
    ensures r <= 2
    ensures var x, y := cursorX + cursorWidth / 2, cursorY + cursorHeight / 2;
            (r == 1 <==> PointInRoundedBox(x, y, ui.installButton))
            && (Apart(ui.installButton, ui.tryButton) ==> (r == 2 <==> PointInRoundedBox(x, y, ui.tryButton)))
  {
    var centerX, centerY := cursorX + cursorWidth / 2, cursorY + cursorHeight / 2;
    if PointInRoundedBox(centerX, centerY, ui.installButton) then 1
    else if PointInRoundedBox(centerX, centerY, ui.tryButton) then 2
    else 0
  }

  // ---- layout ----

  function AtLeast(v: nat, low: nat): nat {
    if v < low then low else v
  }

  /** The screen leaves room for the panel margins, the buttons and their offsets, so that no
      unsigned subtraction of the layout wraps. */
  predicate LargeEnough(width: nat, height: nat) {
    var mx, my := AtLeast(width / 16, 48), AtLeast(height / 14, 44);
    width >= 2 * mx && height >= 2 * my && height >= my + 282
    && width >= mx + AtLeast((width - 2 * mx) / 4, 240) + 72
    && width >= 2 * mx + 28 && height >= 2 * my + 28
  }

  /** That is any screen of at least 360 by 326 pixels. */
  lemma LargeEnoughIs(width: nat, height: nat)
    ensures LargeEnough(width, height) <==> width >= 360 && height >= 326
  {
  }

  /** InitializeSetupUiState: the boxes; labels and decorations are given. */
  function LayOut(width: nat, height: nat, format: PixelFormat, mouseDetected: bool,
                  decorations: seq<Blend>, installLabel: seq<Blend>, tryLabel: seq<Blend>, footer: seq<Blend>): (ui: Ui)
    requires LargeEnough(width, height)
    ensures ui.panel.Rounded() && ui.installButton.Rounded() && ui.tryButton.Rounded()
    ensures Apart(ui.installButton, ui.tryButton) && ui.hoveredButton == 0
    ensures ui.tryButton.x + ui.tryButton.width <= width && ui.tryButton.y + ui.tryButton.height <= height
    ensures ui.installButton.x + ui.installButton.width <= width
    ensures ui.installButton.y + ui.installButton.height <= height
    ensures ui.panel.x + ui.panel.width <= width && ui.panel.y + ui.panel.height <= height
  {
    var mx, my := AtLeast(width / 16, 48), AtLeast(height / 14, 44);
    var panel := UiBox(mx, my, width - 2 * mx, height - 2 * my, 28, ComposePixel(Colour(250, 250, 250), format));
    var buttonWidth := AtLeast(panel.width / 4, 240);
    var buttonX := panel.x + panel.width - buttonWidth - 72;
    var buttonStartY := panel.y + panel.height - 64 * 2 - 34 - 120;
    var install := UiBox(buttonX, buttonStartY, buttonWidth, 64, 24, ComposePixel(Colour(227, 227, 229), format));
    Ui(panel, install, install.(y := buttonStartY + 64 + 34), 0, mouseDetected, decorations, installLabel, tryLabel,
       footer)
  }

  /** `v` is `share`, but at least `low`. */
  predicate AtLeastIs(v: nat, share: nat, low: nat) {
    v >= share && v >= low && (v == share || v == low)
  }

  /** The layout in distances: the panel in the middle of the screen, both buttons 72 pixels from its
      right edge, the lower one 120 from its bottom and 34 below the upper one. */
  lemma LayOutIs(width: nat, height: nat, format: PixelFormat, mouseDetected: bool,
                 decorations: seq<Blend>, installLabel: seq<Blend>, tryLabel: seq<Blend>, footer: seq<Blend>)
    requires LargeEnough(width, height)
    ensures var ui := LayOut(width, height, format, mouseDetected, decorations, installLabel, tryLabel, footer);
            var panel, install, tryIt := ui.panel, ui.installButton, ui.tryButton; (
      && AtLeastIs(panel.x, width / 16, 48) && AtLeastIs(panel.y, height / 14, 44)
      && panel.x + panel.width + panel.x == width && panel.y + panel.height + panel.y == height && panel.radius == 28
      && AtLeastIs(install.width, panel.width / 4, 240) && install.height == 64 && install.radius == 24
      && install.x + install.width + 72 == panel.x + panel.width
      && tryIt == install.(y := install.y + 64 + 34) && tryIt.y + 64 + 120 == panel.y + panel.height
      && ui.decorations == decorations && ui.installLabel == installLabel && ui.tryLabel == tryLabel
      && ui.footer == footer && ui.mouseDetected == mouseDetected
      && (format.BlueGreenRed? ==> Le32(panel.colour) == [250, 250, 250, 0])
      && (format.BlueGreenRed? ==> Le32(install.colour) == [229, 227, 227, 0]))
  {
    FixedFormats(Colour(250, 250, 250));
    FixedFormats(Colour(227, 227, 229));
    hide ComposePixel;
  }

  /** A caption of `w` by `h` pixels where DrawSetupButton puts it: in the middle of the button. */
  ghost predicate Centred(caption: seq<Blend>, box: UiBox, w: nat, h: nat) {
    && w <= box.width && h <= box.height
    && forall k :: 0 <= k < |caption| && caption[k].alpha != 0 ==>
         && 0 <= caption[k].x - box.x - (box.width - w) / 2 < w
         && 0 <= caption[k].y - box.y - (box.height - h) / 2 < h
  }

  /** A centred caption that leaves the corner radius free on both sides stays in the outline. */
  lemma CentredInside(caption: seq<Blend>, box: UiBox, w: nat, h: nat)
    requires box.Rounded() && Centred(caption, box, w, h) && w + 2 * box.radius <= box.width
    ensures CaptionInside(caption, box)
  {
    forall k | 0 <= k < |caption| && caption[k].alpha != 0
      ensures caption[k].x >= 0 && caption[k].y >= 0 && PointInRoundedBox(caption[k].x, caption[k].y, box)
    {
      assert box.radius <= caption[k].x - box.x < box.width - box.radius;
    }
  }

  /** The screen laid out is one the main loop can start from exactly when the captions stay in
      their buttons, which centred captions of at most 192 pixels do. */
  lemma LayOutValid(width: nat, height: nat, format: PixelFormat, mouseDetected: bool,
                    decorations: seq<Blend>, installLabel: seq<Blend>, tryLabel: seq<Blend>, footer: seq<Blend>,
                    installWidth: nat, tryWidth: nat, textHeight: nat)
    requires LargeEnough(width, height)
    ensures var ui := LayOut(width, height, format, mouseDetected, decorations, installLabel, tryLabel, footer); (
      && ui.hoveredButton == 0 && ui.mouseDetected == mouseDetected
      && (ui.Valid() <==> CaptionInside(installLabel, ui.installButton) && CaptionInside(tryLabel, ui.tryButton))
      && (Centred(installLabel, ui.installButton, installWidth, textHeight) && installWidth <= 192 ==>
            CaptionInside(installLabel, ui.installButton))
      && (Centred(tryLabel, ui.tryButton, tryWidth, textHeight) && tryWidth <= 192 ==>
          CaptionInside(tryLabel, ui.tryButton)))
  {
    hide CaptionInside, Centred;
    var ui := LayOut(width, height, format, mouseDetected, decorations, installLabel, tryLabel, footer);
    if Centred(installLabel, ui.installButton, installWidth, textHeight) && installWidth <= 192 {
      CentredInside(installLabel, ui.installButton, installWidth, textHeight);
    }
    if Centred(tryLabel, ui.tryButton, tryWidth, textHeight) && tryWidth <= 192 {
      CentredInside(tryLabel, ui.tryButton, tryWidth, textHeight);
    }
  }
}
