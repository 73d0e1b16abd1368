/** The software cursor and the main loop that keeps framebuffer, shadow and compose buffer in
    step (SaveCursorBackground, DrawCursor, BlitCursorComposite and RunKernelMouseLoop in
    BootApp.c). */
module KernelLoop {
  import opened Bytes
  import opened Pixels
  import opened Surfaces
  import opened SetupUi
  import opened Ps2Mouse

  function BlendChannelOverBlack(channel: byte, alpha: byte): (r: byte)
    ensures Nearest(r, channel as int * alpha as int)
  {
    BlendChannel(channel, 0, alpha)
  }

  /** The image part of SOFTWARE_CURSOR. */
  class CursorImage {
    const width: nat
    const height: nat
    var savedWidth: nat
    var savedHeight: nat
    var visible: bool
    const savedPixels: array<Pixel>
    const resolvedPixels: array<Pixel>
    const opaqueMask: array<bool>

    ghost predicate Valid() {
      && savedPixels.Length == resolvedPixels.Length == opaqueMask.Length == Index(width, 0, height)
      && savedPixels != resolvedPixels
    }

    /** InitializeCursorSurface: a pixel is opaque when its alpha is not zero, and its colour
        is the source colour blended over black. */
    constructor (width: nat, height: nat, colours: seq<Colour>, alphas: seq<byte>, format: PixelFormat)
      requires |colours| == |alphas| == Index(width, 0, height)
      ensures Valid() && this.width == width && this.height == height && savedWidth == 0 && savedHeight == 0 && !visible
      ensures fresh(savedPixels) && fresh(resolvedPixels) && fresh(opaqueMask)
      ensures forall i | 0 <= i < |alphas| ::
                opaqueMask[i] == (alphas[i] != 0)
                && (opaqueMask[i] ==> resolvedPixels[i] == ComposePixel(
                      Colour(BlendChannelOverBlack(colours[i].red, alphas[i]),
                             BlendChannelOverBlack(colours[i].green, alphas[i]),
                             BlendChannelOverBlack(colours[i].blue, alphas[i])), format))
    {
      this.width, this.height := width, height;
      savedWidth, savedHeight, visible := 0, 0, false;
      savedPixels := new Pixel[|alphas|](_ => 0);
      resolvedPixels := new Pixel[|alphas|](_ => 0);
      opaqueMask := new bool[|alphas|](_ => false);
      new;
      var i := 0;
      while i < |alphas|
        invariant 0 <= i <= |alphas| && savedWidth == 0 && savedHeight == 0 && !visible
        invariant forall k | 0 <= k < i ::
                    opaqueMask[k] == (alphas[k] != 0)
                    && (opaqueMask[k] ==> resolvedPixels[k] == ComposePixel(
                          Colour(BlendChannelOverBlack(colours[k].red, alphas[k]),
                                 BlendChannelOverBlack(colours[k].green, alphas[k]),
                                 BlendChannelOverBlack(colours[k].blue, alphas[k])), format))
      {
        hide BlendChannelOverBlack, ComposePixel;
        if alphas[i] == 0 {
          opaqueMask[i] := false;
          resolvedPixels[i] := 0;
        } else {
          opaqueMask[i] := true;
          resolvedPixels[i] := ComposePixel(
            Colour(BlendChannelOverBlack(colours[i].red, alphas[i]), BlendChannelOverBlack(colours[i].green, alphas[i]),
                   BlendChannelOverBlack(colours[i].blue, alphas[i])), format);
        }
        i := i + 1;
      }
    }

    /** The cursor as a value, drawn with its corner at `(x, y)`. */
    ghost function Look(x: nat, y: nat): CursorLook
      reads this, resolvedPixels, opaqueMask
    {
      CursorLook(x, y, savedWidth, savedHeight, width, opaqueMask[..], resolvedPixels[..])
    }
  }

  datatype CursorLook = CursorLook(x: nat, y: nat, w: nat, h: nat, stride: nat, mask: seq<bool>, resolved: seq<Pixel>)

  ghost predicate Opaque(look: CursorLook, i: nat, j: nat) {
    InRect(i, j, look.x, look.y, look.w, look.h)
    && var k := Index(look.stride, i - look.x, j - look.y); k < |look.mask| && look.mask[k]
  }

  /** The simple specification of the screen: the cursor's opaque pixels, else the scene. */
  ghost function Overlay(look: CursorLook, p: Pixel, i: nat, j: nat): Pixel {
    if Opaque(look, i, j) then At(look.resolved, look.stride, i - look.x, j - look.y) else p
  }

  /** The part of a cursor of `size` pixels at `at` that is on a screen of `limit` pixels. */
  function SavedExtent(at: nat, size: nat, limit: nat): nat
    requires at <= limit
  {
    if at + size > limit then limit - at else size
  }

  /** The pixel arrays are all different. */
  ghost predicate Separate(c: CursorImage, s: Surface) {
    c.savedPixels != s.pixels && c.resolvedPixels != s.pixels
  }

  /** Remembers the scene under the cursor. */
  method SaveCursorBackground(surface: Surface, c: CursorImage, x: nat, y: nat)
    requires surface.Valid() && c.Valid() && Separate(c, surface)
    requires x <= surface.width && y <= surface.height
    modifies c`savedWidth, c`savedHeight, c.savedPixels
    ensures c.savedWidth == SavedExtent(x, c.width, surface.width)
    ensures c.savedHeight == SavedExtent(y, c.height, surface.height)
    ensures forall i, j | 0 <= i < c.savedWidth && 0 <= j < c.savedHeight ::
              At(c.savedPixels[..], c.width, i, j) == At(surface.Image(), surface.stride, x + i, y + j)
  {
    hide At, Index;
    c.savedWidth := c.width;
    c.savedHeight := c.height;
    if x + c.savedWidth > surface.width {
      c.savedWidth := surface.width - x;
    }
    if y + c.savedHeight > surface.height {
      c.savedHeight := surface.height - y;
    }
    var row := 0;
    while row < c.savedHeight
      invariant 0 <= row <= c.savedHeight
      invariant c.savedWidth == SavedExtent(x, c.width, surface.width)
      invariant c.savedHeight == SavedExtent(y, c.height, surface.height)
      invariant forall i, j | 0 <= i < c.savedWidth && 0 <= j < row ::
                  At(c.savedPixels[..], c.width, i, j) == At(surface.Image(), surface.stride, x + i, y + j)
    {
      CopyRow(c.savedPixels, c.width, c.height, 0, row, surface.pixels, surface.stride, surface.height, x, y + row,
              c.savedWidth);
      row := row + 1;
    }
  }

  /** Draws the opaque pixels of the saved part of the cursor. */
  method DrawCursor(surface: Surface, c: CursorImage, x: nat, y: nat)
    requires surface.Valid() && c.Valid() && Separate(c, surface)
    requires x + c.savedWidth <= surface.width && y + c.savedHeight <= surface.height
    requires c.savedWidth <= c.width && c.savedHeight <= c.height
    modifies surface.pixels
    ensures forall i, j | 0 <= i < surface.stride && 0 <= j < surface.height ::
              At(surface.Image(), surface.stride, i, j)
                == Overlay(c.Look(x, y), At(old(surface.Image()), surface.stride, i, j), i, j)
  {
    hide At, Index;
    ghost var look := c.Look(x, y);
    var row := 0;
    while row < c.savedHeight
      invariant 0 <= row <= c.savedHeight && c.Look(x, y) == look
      invariant forall i, j | 0 <= i < surface.stride && 0 <= j < surface.height ::
                  At(surface.Image(), surface.stride, i, j) ==
                  if Scanned(i, j, x, y, c.savedWidth, row, 0)
                    then Overlay(look, At(old(surface.Image()), surface.stride, i, j), i, j)
                  else At(old(surface.Image()), surface.stride, i, j)
    {
      var column := 0;
      while column < c.savedWidth
        invariant 0 <= column <= c.savedWidth && c.Look(x, y) == look
        invariant forall i, j | 0 <= i < surface.stride && 0 <= j < surface.height ::
                    At(surface.Image(), surface.stride, i, j) ==
                    if Scanned(i, j, x, y, c.savedWidth, row, column)
                      then Overlay(look, At(old(surface.Image()), surface.stride, i, j), i, j)
                    else At(old(surface.Image()), surface.stride, i, j)
      {
        RunBound(c.width, c.height, column, row, 1);
        var pixelIndex := Index(c.width, column, row);
        AtIndex(look.resolved, c.width, column, row);
        if c.opaqueMask[pixelIndex] {
          SetPixel(surface, x + column, y + row, c.resolvedPixels[pixelIndex]);
        }
        column := column + 1;
      }
      row := row + 1;
    }
  }

  lemma AtIndex(s: seq<Pixel>, stride: nat, x: nat, y: nat)
    requires Index(stride, x, y) < |s|
    ensures At(s, stride, x, y) == s[Index(stride, x, y)]
  {
  }

  /** Puts the cursor on screen, through the compose buffer or directly. When the framebuffer
      already shows what the shadow holds under the cursor, both ways give the same screen. */
  method BlitCursorComposite(destination: Surface, shadow: Surface, compose: Option<Surface>, c: CursorImage, x: nat,
                             y: nat)
    requires destination.Valid() && shadow.Valid() && c.Valid()
    requires Separate(c, destination) && Separate(c, shadow) && shadow.pixels != destination.pixels
    requires destination.width == shadow.width && destination.height == shadow.height
    requires x <= destination.width && y <= destination.height
    requires compose.Some? ==>
               && compose.value.Valid() && Separate(c, compose.value)
               && compose.value.pixels != destination.pixels && compose.value.pixels != shadow.pixels
               && compose.value.width == destination.width && compose.value.height == destination.height
    requires forall i, j | 0 <= i < shadow.width && 0 <= j < shadow.height ::
               At(destination.Image(), destination.stride, i, j) == At(shadow.Image(), shadow.stride, i, j)
    modifies c`savedWidth, c`savedHeight, c`visible, c.savedPixels, destination.pixels
    modifies if compose.Some? then {compose.value.pixels} else {}
    ensures c.visible && c.savedWidth == SavedExtent(x, c.width, shadow.width)
    ensures c.savedHeight == SavedExtent(y, c.height, shadow.height)
    ensures forall i, j | 0 <= i < destination.width && 0 <= j < destination.height ::
              At(destination.Image(), destination.stride, i, j)
                == Overlay(c.Look(x, y), At(shadow.Image(), shadow.stride, i, j), i, j)
  {
    hide At, Index;
    SaveCursorBackground(shadow, c, x, y);
    if compose.Some? {
      var surface := compose.value;
      ghost var saved := c.savedPixels[..];
      var row := 0;
      while row < c.savedHeight
        invariant 0 <= row <= c.savedHeight
        invariant c.savedWidth == SavedExtent(x, c.width, shadow.width)
        invariant c.savedHeight == SavedExtent(y, c.height, shadow.height)
        invariant destination.Image() == old(destination.Image()) && c.savedPixels[..] == saved
        invariant forall i, j | 0 <= i < c.savedWidth && 0 <= j < row ::
                    At(surface.Image(), surface.stride, x + i, y + j) == At(c.savedPixels[..], c.width, i, j)
      {
        CopyRow(surface.pixels, surface.stride, surface.height, x, y + row, c.savedPixels, c.width, c.height, 0, row,
                c.savedWidth);
        row := row + 1;
      }
      ghost var patched := surface.Image();
      DrawCursor(surface, c, x, y);
      BlitSurfaceRect(destination, surface, x, y, c.savedWidth, c.savedHeight);
      forall i, j | 0 <= i < destination.width && 0 <= j < destination.height
        ensures At(destination.Image(), destination.stride, i, j)
                == Overlay(c.Look(x, y), At(shadow.Image(), shadow.stride, i, j), i, j)
      {
        if InRect(i, j, x, y, c.savedWidth, c.savedHeight) {
          var a, b := i - x, j - y;
          assert At(patched, surface.stride, x + a, y + b) == At(c.savedPixels[..], c.width, a, b);
        }
      }
    } else {
      DrawCursor(destination, c, x, y);
    }
    c.visible := true;
  }

  /** Erases the cursor by copying its rectangle back from the shadow. Without a shadow the
      copy is of the framebuffer onto itself, and nothing is erased. */
  method EraseCursor(framebuffer: Surface, shadow: Surface, c: CursorImage, x: nat, y: nat)
    requires framebuffer.Valid() && shadow.Valid() && framebuffer.width == shadow.width
    requires framebuffer.height == shadow.height
    requires framebuffer.stride == shadow.stride
    requires x + c.savedWidth <= framebuffer.width && y + c.savedHeight <= framebuffer.height
    modifies framebuffer.pixels, c`visible
    ensures !c.visible
    ensures forall i, j | 0 <= i < framebuffer.stride && 0 <= j < framebuffer.height ::
              At(framebuffer.Image(), framebuffer.stride, i, j) ==
              if InRect(i, j, x, y, c.savedWidth, c.savedHeight) then At(old(shadow.Image()), shadow.stride, i, j)
              else At(old(framebuffer.Image()), framebuffer.stride, i, j)
    ensures framebuffer.pixels == shadow.pixels ==>
              forall i, j | 0 <= i < framebuffer.stride && 0 <= j < framebuffer.height ::
                At(framebuffer.Image(), framebuffer.stride, i, j)
                  == At(old(framebuffer.Image()), framebuffer.stride, i, j)
  {
    BlitSurfaceRect(framebuffer, shadow, x, y, c.savedWidth, c.savedHeight);
    c.visible := false;
  }

  /** Three distinct buffers of one shape, apart from the cursor's own arrays. */
  ghost predicate Connected(framebuffer: Surface, shadow: Surface, compose: Option<Surface>, cursor: CursorImage) {
    && framebuffer.Valid() && shadow.Valid() && cursor.Valid()
    && Separate(cursor, framebuffer) && Separate(cursor, shadow) && shadow.pixels != framebuffer.pixels
    && shadow == framebuffer.(pixels := shadow.pixels)
    && (compose.Some? ==>
          && compose.value == framebuffer.(pixels := compose.value.pixels) && compose.value.Valid()
          && Separate(cursor, compose.value)
          && compose.value.pixels != framebuffer.pixels && compose.value.pixels != shadow.pixels)
  }

  class KernelMouseLoop {
    const framebuffer: Surface
    const shadow: Surface
    const compose: Option<Surface>
    const cursor: CursorImage
    const pointer: Pointer
    const mouse: Ps2MouseState
    var ui: Ui
    /** Every byte taken from the controller so far. */
    ghost var consumed: seq<PortByte>

    ghost predicate Wired()
      ensures Wired() ==> framebuffer.Valid() && shadow.Valid() && cursor.Valid()
    {
      Connected(framebuffer, shadow, compose, cursor)
    }

    ghost function Footprint(): set<object> {
      {this, framebuffer.pixels, shadow.pixels, cursor, cursor.savedPixels, pointer, mouse, mouse.packet}
      + (if compose.Some? then {compose.value.pixels} else {})
    }

    ghost function Buffers(): set<object> {
      {this, cursor, pointer, mouse, mouse.packet, framebuffer.pixels, shadow.pixels,
       cursor.resolvedPixels, cursor.opaqueMask, cursor.savedPixels}
    }

    /** The screen is the scene for the hovered button with the cursor on top, and the shadow
        is that scene without the cursor. */
    ghost predicate InStep()
      reads this, Buffers()
      requires Wired() && ui.Valid()
    {
      && ShowsScene(shadow, ui)
      && ShowsOverlay(framebuffer, ui, cursor.Look(pointer.x, pointer.y))
    }

    ghost predicate Valid()
      reads Buffers()
      ensures Valid() ==> Wired() && ui.Valid() && InStep() && mouse.Valid() && ProtocolInStep() && HoverInStep()
      ensures Valid() ==> OnScreen() && pointer.Settled()
    {
      && Wired() && Ready() && InStep() && cursor.visible
      && cursor.savedWidth == SavedExtent(pointer.x, cursor.width, framebuffer.width)
      && cursor.savedHeight == SavedExtent(pointer.y, cursor.height, framebuffer.height)
    }

    /** The cursor is where the whole of it can be drawn. */
    ghost predicate OnScreen()
      reads pointer
    {
      && pointer.x <= CursorLimit(framebuffer.width, cursor.width)
      && pointer.y <= CursorLimit(framebuffer.height, cursor.height)
    }

    /** Once a usable packet has been read, the hovered button is the one under the cursor. */
    ghost predicate HoverInStep()
      requires ui.Valid()
      reads this, pointer
    {
      CleanCount(Decode([], MouseBytes(consumed)).packets) > 0 ==>
        ui.hoveredButton == HitTestSetupUi(ui, pointer.x, pointer.y, cursor.width, cursor.height)
    }

    ghost function Bounds(): Frame {
      Frame(cursor.width, cursor.height, framebuffer.width, framebuffer.height)
    }

    /** The mouse as a value, with `unread` left in the controller. */
    ghost function MouseWith(unread: seq<PortByte>): MouseRun
      requires mouse.Valid()
      reads mouse, mouse.packet, pointer
    {
      MouseRun(unread, mouse.Partial(), pointer.leftButtonDown, pointer.At())
    }

    /** The mouse state is what a one-pass decoder makes of every byte consumed so far. */
    ghost predicate ProtocolInStep()
      requires mouse.Valid()
      reads this, mouse, mouse.packet, pointer
    {
      var d := Decode([], MouseBytes(consumed));
      mouse.Partial() == d.partial && pointer.leftButtonDown == LeftAfter(false, d.packets)
    }

    /** Everything RunKernelMouseLoop does before its loop. */
    constructor (framebuffer: Surface, shadow: Surface, compose: Option<Surface>, cursor: CursorImage, ui: Ui)
      requires Connected(framebuffer, shadow, compose, cursor) && ui.Valid() && ui.hoveredButton == 0
      modifies framebuffer.pixels, shadow.pixels, cursor, cursor.savedPixels
      modifies if compose.Some? then {compose.value.pixels} else {}
      ensures Valid() && this.framebuffer == framebuffer && this.shadow == shadow && this.cursor == cursor
      ensures this.compose == compose && fresh(pointer) && fresh(mouse) && fresh(mouse.packet)
      ensures this.ui == ui && consumed == [] && mouse.enabled == ui.mouseDetected
      // The cursor starts in the middle of the screen, with no movement due.
      ensures MouseWith([]) == StartOfRun(Bounds())
    {
      hide Connected, Ui.Valid;
      this.framebuffer, this.shadow, this.compose, this.cursor := framebuffer, shadow, compose, cursor;
      this.ui := ui;
      this.consumed := [];
      pointer := new Pointer(
        ClampCursor(framebuffer.width / 2, framebuffer.width, cursor.width),
        ClampCursor(framebuffer.height / 2, framebuffer.height, cursor.height));
      mouse := new Ps2MouseState(ui.mouseDetected);
      new;
      assert Wired() && Ready();
      assert MouseWith([]) == StartOfRun(Bounds());
      hide *;
      FirstFrame();
    }

    /** All of the loop's invariant that does not speak about pixels. */
    ghost predicate Ready()
      reads this, pointer, mouse, mouse.packet
      ensures Ready() ==> mouse.Valid() && ui.Valid()
    {
      && mouse.Valid() && pointer.Settled() && ui.Valid() && ui.mouseDetected == mouse.enabled
      && OnScreen() && ProtocolInStep() && HoverInStep()
    }

    /** The setup screen with the cursor on it. */
    method FirstFrame()
      requires Wired() && Ready()
      modifies cursor`savedWidth, cursor`savedHeight, cursor`visible, cursor.savedPixels, framebuffer.pixels,
               shadow.pixels
      modifies if compose.Some? then {compose.value.pixels} else {}
      ensures Valid() && MouseWith([]) == old(MouseWith([]))
    {
      hide ShowsScene, ShowsOverlay, CursorLimit, ProtocolInStep, HoverInStep;
      ShowSetupScreen();
      Composite();
    }

    ghost predicate BothShowScene()
      requires framebuffer.Valid() && shadow.Valid() && ui.Valid()
      reads this, framebuffer.pixels, shadow.pixels
    {
      ShowsScene(framebuffer, ui) && ShowsScene(shadow, ui)
    }

    /** Draws the cursor over a clean scene. */
    method Composite()
      requires Wired() && ui.Valid() && BothShowScene()
      requires OnScreen()
      modifies cursor`savedWidth, cursor`savedHeight, cursor`visible, cursor.savedPixels, framebuffer.pixels
      modifies if compose.Some? then {compose.value.pixels} else {}
      ensures cursor.visible && InStep()
      ensures cursor.savedWidth == SavedExtent(pointer.x, cursor.width, framebuffer.width)
      ensures cursor.savedHeight == SavedExtent(pointer.y, cursor.height, framebuffer.height)
    {
      hide At, ScenePixel, Overlay;
      BlitCursorComposite(framebuffer, shadow, compose, cursor, pointer.x, pointer.y);
    }

    /** Redraws the buttons whose hover state changes, in the shadow and then on screen. */
    method ChangeHover(hoveredButton: nat)
      requires Wired() && ui.Valid() && BothShowScene() && ui.mouseDetected && hoveredButton <= 2
      modifies this`ui, framebuffer.pixels, shadow.pixels
      ensures ui == old(ui).(hoveredButton := hoveredButton) && ui.Valid() && BothShowScene()
    {
      hide At, ScenePixel, RefreshedPixel, PointInRoundedBox, CaptionInside;
      if hoveredButton == ui.hoveredButton {
        return;
      }
      var previous := ui.hoveredButton;
      ghost var before := ui;
      ui := ui.(hoveredButton := hoveredButton);
      RefreshSetupButtons(shadow, ui, previous, hoveredButton);
      forall i, j | 0 <= i < shadow.width && 0 <= j < shadow.height
        ensures At(shadow.Image(), shadow.stride, i, j) == ScenePixel(ui, shadow.format, i, j)
      {
        RefreshFrom(before, ui, shadow.format, i, j, previous, hoveredButton);
      }
      if previous == 1 || hoveredButton == 1 {
        BlitButton(ui.installButton);
      }
      if previous == 2 || hoveredButton == 2 {
        BlitButton(ui.tryButton);
      }
      forall i, j | 0 <= i < framebuffer.width && 0 <= j < framebuffer.height
        ensures At(framebuffer.Image(), framebuffer.stride, i, j) == ScenePixel(ui, framebuffer.format, i, j)
      {
        if !((previous == 1 || hoveredButton == 1) && InBox(i, j, ui.installButton))
           && !((previous == 2 || hoveredButton == 2) && InBox(i, j, ui.tryButton)) {
          UnchangedOutside(before, ui, shadow.format, i, j, previous, hoveredButton);
        }
      }
    }

    /** Copies a button's rectangle from the shadow to the screen. */
    method BlitButton(button: UiBox)
      requires Wired()
      modifies framebuffer.pixels
      ensures forall i, j | 0 <= i < framebuffer.width && 0 <= j < framebuffer.height ::
                At(framebuffer.Image(), framebuffer.stride, i, j) ==
                if InBox(i, j, button) then At(shadow.Image(), shadow.stride, i, j)
                else At(old(framebuffer.Image()), framebuffer.stride, i, j)
    {
      hide At;
      BlitSurfaceRect(framebuffer, shadow, button.x, button.y, button.width, button.height);
    }

    /** Draws the setup screen in the shadow and copies the whole of it to the screen. */
    method ShowSetupScreen()
      requires Wired() && ui.Valid()
      modifies framebuffer.pixels, shadow.pixels
      ensures BothShowScene()
    {
      hide Splices.Splice, At, ScenePixel, Index;
      ghost var before := framebuffer.Image();
      DrawSetupScreen(shadow, ui);
      ghost var scene := shadow.Image();
      var aligned: bool := *;
      CopyPixels32(framebuffer.pixels, 0, shadow.pixels, 0, Index(framebuffer.stride, 0, framebuffer.height), aligned);
      WholeCopy(framebuffer.pixels[..], before, scene);
    }

    /** One iteration of the loop: poll the mouse with the bytes `pending` in the controller;
        on movement or a packet, erase, update the hover state and draw again. */
    method Iterate(pending: seq<PortByte>) returns (taken: nat)
      requires Valid()
      modifies Footprint()
      ensures Valid() && InStep() && ProtocolInStep()
      ensures taken <= |pending| && consumed == old(consumed) + pending[..taken] && mouse.enabled == old(mouse.enabled)
      // A poll reads until nothing is left, 96 bytes are read or 32 usable packets are complete.
      ensures if mouse.enabled then PollEnds(pending, old(mouse.Partial()), taken) else taken == 0
      // The pointer goes where the bytes read take it.
      ensures MouseWith(pending[taken..])
              == if mouse.enabled then Polling(old(MouseWith(pending)), Bounds()) else old(MouseWith(pending))
      ensures pointer.lastPollCount > 0 && mouse.enabled ==>
                ui == old(ui).(hoveredButton :=
                               HitTestSetupUi(old(ui), pointer.x, pointer.y, cursor.width, cursor.height))
      ensures pointer.lastPollCount == 0 || !mouse.enabled ==>
                ui == old(ui) && pointer.x == old(pointer.x) && pointer.y == old(pointer.y)
    {
      hide ShowsScene, ShowsOverlay, ProtocolInStep, HitTestSetupUi, ScenePixel, OnScreen, Pointer.Settled,
           PollEnds, Polling, CleanCount, Decode;
      var oldCursorX, oldCursorY := pointer.x, pointer.y;
      var oldCursorVisible := cursor.visible;
      var moved;
      moved, taken := PollMouse(pending);
      if moved {
        label drawn:
        Redraw(oldCursorX, oldCursorY, oldCursorVisible);
        ProtocolKept@drawn();
        SameHit(old(ui), ui, pointer.x, pointer.y, cursor.width, cursor.height);
      }
    }

    /** The polling half of an iteration. */
    method PollMouse(pending: seq<PortByte>) returns (moved: bool, taken: nat)
      requires mouse.Valid() && pointer.Settled() && ProtocolInStep() && ui.Valid()
      requires OnScreen()
      modifies this`consumed, mouse, mouse.packet, pointer
      ensures mouse.Valid() && mouse.enabled == old(mouse.enabled) && pointer.Settled() && ProtocolInStep()
      ensures OnScreen()
      ensures taken <= |pending| && consumed == old(consumed) + pending[..taken]
      ensures if mouse.enabled then PollEnds(pending, old(mouse.Partial()), taken) else taken == 0
      ensures MouseWith(pending[taken..])
              == if mouse.enabled then Polling(old(MouseWith(pending)), Bounds()) else old(MouseWith(pending))
      ensures moved == (mouse.enabled && pointer.lastPollCount > 0)
      ensures ui.Valid() && old(HoverInStep()) && !moved ==> HoverInStep()
      ensures !moved ==> pointer.x == old(pointer.x) && pointer.y == old(pointer.y)
    {
      hide Polled, PollEnds, ClampCursor, Pending, Polling, After, Decode, CleanCount, HitTestSetupUi, MouseBytes,
           LeftAfter;
      ghost var before, run := consumed, MouseWith(pending);
      ghost var partial, left := mouse.Partial(), pointer.leftButtonDown;
      var poll;
      moved, poll := UpdateCursorFromPs2Mouse(mouse, pointer, cursor.width, cursor.height, framebuffer.width,
                                              framebuffer.height, pending);
      taken := poll.consumed;
      consumed := consumed + pending[..taken];
      ProtocolStep(before, pending, poll, partial, left, mouse.Partial(), pointer.leftButtonDown, mouse.enabled);
      if mouse.enabled {
        PollingIs(run, Bounds(), poll, mouse.Partial());
      } else {
        assert pending[0..] == pending;
      }
    }

    /** The protocol state does not depend on what is drawn. */
    twostate lemma ProtocolKept()
      requires old(mouse.Valid()) && mouse.Valid() && old(ProtocolInStep())
      requires consumed == old(consumed) && mouse.Partial() == old(mouse.Partial())
      requires pointer.leftButtonDown == old(pointer.leftButtonDown)
      ensures ProtocolInStep()
    {
    }

    /** The drawing half of an iteration: erase at the old position, update the hover state for
        the new one, draw the cursor there. */
    method Redraw(oldCursorX: nat, oldCursorY: nat, oldCursorVisible: bool)
      requires Wired() && ui.Valid() && ui.mouseDetected && oldCursorVisible
      requires ShowsScene(shadow, ui) && ShowsOverlay(framebuffer, ui, cursor.Look(oldCursorX, oldCursorY))
      requires oldCursorX <= framebuffer.width && oldCursorY <= framebuffer.height
      requires cursor.savedWidth == SavedExtent(oldCursorX, cursor.width, framebuffer.width)
      requires cursor.savedHeight == SavedExtent(oldCursorY, cursor.height, framebuffer.height)
      requires OnScreen()
      modifies this`ui, framebuffer.pixels, shadow.pixels, cursor`savedWidth, cursor`savedHeight, cursor`visible,
               cursor.savedPixels
      modifies if compose.Some? then {compose.value.pixels} else {}
      ensures ui.Valid() && InStep() && cursor.visible
      ensures cursor.savedWidth == SavedExtent(pointer.x, cursor.width, framebuffer.width)
      ensures cursor.savedHeight == SavedExtent(pointer.y, cursor.height, framebuffer.height)
      ensures ui == old(ui).(hoveredButton :=
                             HitTestSetupUi(old(ui), pointer.x, pointer.y, cursor.width, cursor.height))
    {
      hide ShowsScene, ShowsOverlay, HitTestSetupUi, ScenePixel;
      if oldCursorVisible {
        Erase(oldCursorX, oldCursorY);
      }
      var hoveredButton := HitTestSetupUi(ui, pointer.x, pointer.y, cursor.width, cursor.height);
      ChangeHover(hoveredButton);
      Composite();
    }

    /** Takes the cursor off the screen at its old position. */
    method Erase(x: nat, y: nat)
      requires Wired() && ui.Valid() && ShowsScene(shadow, ui) && ShowsOverlay(framebuffer, ui, cursor.Look(x, y))
      requires x <= framebuffer.width && y <= framebuffer.height
      requires cursor.savedWidth == SavedExtent(x, cursor.width, framebuffer.width)
      requires cursor.savedHeight == SavedExtent(y, cursor.height, framebuffer.height)
      modifies framebuffer.pixels, cursor`visible
      ensures BothShowScene()
    {
      hide At, ScenePixel, Overlay;
      ghost var look := cursor.Look(x, y);
      ghost var shown := framebuffer.Image();
      EraseCursor(framebuffer, shadow, cursor, x, y);
      forall i, j | 0 <= i < framebuffer.width && 0 <= j < framebuffer.height
        ensures At(framebuffer.Image(), framebuffer.stride, i, j) == ScenePixel(ui, framebuffer.format, i, j)
      {
        assert At(shown, framebuffer.stride, i, j) == Overlay(look, ScenePixel(ui, framebuffer.format, i, j), i, j);
        if !InRect(i, j, x, y, cursor.savedWidth, cursor.savedHeight) {
          OverlayOutside(look, ScenePixel(ui, framebuffer.format, i, j), i, j);
        }
      }
    }
  }

  /** Where the buttons are does not depend on which one is hovered. */
  lemma SameHit(before: Ui, after: Ui, x: nat, y: nat, w: nat, h: nat)
    requires before.Valid() && after.Valid() && after == before.(hoveredButton := after.hoveredButton)
    ensures HitTestSetupUi(after, x, y, w, h) == HitTestSetupUi(before, x, y, w, h)
  {
    hide PointInRoundedBox;
  }

  /** The mouse before the loop: nothing read, nothing due, the cursor in the middle. */
  ghost function StartOfRun(f: Frame): MouseRun {
    MouseRun([], [], false, Spot(ClampCursor(f.screenWidth / 2, f.screenWidth, f.cursorWidth),
                                 ClampCursor(f.screenHeight / 2, f.screenHeight, f.cursorHeight), 0, 0))
  }

  /** The middle, to half a pixel, on a screen that leaves room for the cursor there. */
  lemma StartsInMiddle(f: Frame)
    requires 2 * f.cursorWidth <= f.screenWidth && 2 * f.cursorHeight <= f.screenHeight
    ensures var r := StartOfRun(f);
            && f.screenWidth - 1 <= 2 * r.spot.x <= f.screenWidth
            && f.screenHeight - 1 <= 2 * r.spot.y <= f.screenHeight
            && r == MouseRun([], [], false, Spot(r.spot.x, r.spot.y, 0, 0))
  {
  }

  lemma OverlayOutside(look: CursorLook, p: Pixel, i: nat, j: nat)
    requires !InRect(i, j, look.x, look.y, look.w, look.h)
    ensures Overlay(look, p, i, j) == p
  {
  }

  /** A poll picks up decoding where the last one left it. */
  lemma ProtocolStep(before: seq<PortByte>, pending: seq<PortByte>, poll: Poll, partial: seq<byte>, left: bool,
                     partialAfter: seq<byte>, leftAfter: bool, enabled: bool)
    requires poll.consumed <= |pending| && |partial| < 3
    requires var d := Decode([], MouseBytes(before)); partial == d.partial && left == LeftAfter(false, d.packets)
    requires if enabled then Polled(poll, pending, partial, left, partialAfter) && leftAfter == poll.left
             else poll.consumed == 0 && partialAfter == partial && leftAfter == left
    ensures var d := Decode([], MouseBytes(before + pending[..poll.consumed]));
            partialAfter == d.partial && leftAfter == LeftAfter(false, d.packets)
    ensures CleanCount(Decode([], MouseBytes(before + pending[..poll.consumed])).packets)
            == CleanCount(Decode([], MouseBytes(before)).packets) + if enabled then poll.packetCount else 0
  {
    var read := pending[..poll.consumed];
    if !enabled {
      assert before + read == before;
    } else {
      MouseBytesConcat(before, read);
      DecodeConcat([], MouseBytes(before), MouseBytes(read));
      CleanCountConcat(Decode([], MouseBytes(before)).packets, Decode(partial, MouseBytes(read)).packets);
    }
  }

  lemma Appended(start: seq<PortByte>, sofar: seq<PortByte>, more: seq<PortByte>, consumed: seq<PortByte>,
                 pending: seq<PortByte>)
    requires start + sofar == consumed + pending
    ensures start + (sofar + more) == consumed + (pending + more)
  {
    assert start + (sofar + more) == (start + sofar) + more;
    assert consumed + (pending + more) == (consumed + pending) + more;
  }

  lemma Taken(consumed: seq<PortByte>, pending: seq<PortByte>, n: nat)
    requires n <= |pending|
    ensures consumed + pending == (consumed + pending[..n]) + pending[n..]
  {
  }

  function Flatten(arrivals: seq<seq<PortByte>>): seq<PortByte> {
    if arrivals == [] then [] else Flatten(arrivals[..|arrivals| - 1]) + arrivals[|arrivals| - 1]
  }

  /** An upper bound on the bytes left over when each portion arrives before an iteration. */
  function Backlog(arrivals: seq<seq<PortByte>>): nat {
    if arrivals == [] then 0 else
      var waiting := Backlog(arrivals[..|arrivals| - 1]) + |arrivals[|arrivals| - 1]|;
      if waiting > LeastTaken then waiting - LeastTaken else 0
  }

  /** `n` iterations during which nothing arrives. */
  function Quiet(n: nat): seq<seq<PortByte>> {
    seq(n, _ => [])
  }

  /** Iterations without arrivals drain the backlog, 94 bytes or more at a time. */
  lemma {:induction false} QuietDrains(arrivals: seq<seq<PortByte>>, n: nat)
    ensures Backlog(arrivals + Quiet(n))
            == if Backlog(arrivals) > 94 * n then Backlog(arrivals) - 94 * n else 0
  {
    if n == 0 {
      assert arrivals + Quiet(0) == arrivals;
    } else {
      var all := arrivals + Quiet(n);
      assert all[..|all| - 1] == arrivals + Quiet(n - 1) && all[|all| - 1] == [];
      QuietDrains(arrivals, n - 1);
    }
  }

  /** While at most 94 bytes arrive between iterations there is no backlog at all. */
  lemma {:induction false} KeepsUp(arrivals: seq<seq<PortByte>>)
    requires forall i :: 0 <= i < |arrivals| ==> |arrivals[i]| <= 94
    ensures Backlog(arrivals) == 0
  {
    if arrivals != [] { KeepsUp(arrivals[..|arrivals| - 1]); }
  }

  /** Any number of iterations, with bytes arriving between them in any portions: the screen
      stays the scene with the cursor on top, and the mouse state is what one pass over all
      the bytes consumed gives, however the polls split them. With the mouse enabled no more is
      left unread than the backlog bound; without it nothing is read. The pointer, the button and
      what is left unread are those of the model run on what arrived. */
  method Run(loop: KernelMouseLoop, arrivals: seq<seq<PortByte>>) returns (pending: seq<PortByte>)
    requires loop.Valid()
    modifies loop.Footprint()
    ensures loop.Valid() && loop.InStep() && loop.ProtocolInStep()
    ensures old(loop.consumed) + Flatten(arrivals) == loop.consumed + pending
    ensures loop.mouse.enabled == old(loop.mouse.enabled)
    ensures if loop.mouse.enabled then |pending| <= Backlog(arrivals) else loop.consumed == old(loop.consumed)
    ensures loop.MouseWith(pending)
            == if loop.mouse.enabled then PollingAll(old(loop.MouseWith([])), arrivals, loop.Bounds())
               else old(loop.MouseWith([])).(unread := Flatten(arrivals))
    ensures loop.HoverInStep() && loop.OnScreen() && loop.pointer.Settled()
    ensures !loop.mouse.enabled ==> loop.ui == old(loop.ui)
  {
    hide KernelMouseLoop.Valid, PollEnds, Polling, PollingAll, Backlog, Flatten, Ran;
    pending := [];
    var n := 0;
    ghost var start, enabled, from := loop.MouseWith([]), loop.mouse.enabled, loop.consumed;
    NotYetRan(start, enabled, loop.Bounds());
    assert arrivals[..0] == [] && loop.consumed + [] == from + Flatten([]);
    while n < |arrivals|
      invariant 0 <= n <= |arrivals| && loop.Valid() && loop.mouse.enabled == enabled
      invariant from + Flatten(arrivals[..n]) == loop.consumed + pending
      invariant Ran(start, arrivals[..n], enabled, loop.Bounds(), loop.MouseWith(pending))
      invariant !enabled ==> loop.ui == old(loop.ui) && loop.consumed == from
    {
      ghost var before, was := loop.consumed, loop.MouseWith(pending);
      pending := pending + arrivals[n];
      var taken := loop.Iterate(pending);
      RanOn(start, arrivals, n, enabled, loop.Bounds(), was, loop.MouseWith(pending[taken..]), taken);
      StreamOn(from, arrivals, n, before, was.unread, taken);
      pending := pending[taken..];
      n := n + 1;
    }
    assert arrivals[..n] == arrivals;
    RanFacts(start, arrivals, enabled, loop.Bounds(), loop.MouseWith(pending));
  }

  /** `now` is where the model run on `arrivals` ends; without a mouse nothing is read. */
  ghost predicate Ran(start: MouseRun, arrivals: seq<seq<PortByte>>, enabled: bool, f: Frame, now: MouseRun)
    requires |start.partial| < 3
  {
    if enabled then now == PollingAll(start, arrivals, f) && |now.unread| <= Backlog(arrivals)
    else now == start.(unread := Flatten(arrivals))
  }

  lemma RanFacts(start: MouseRun, arrivals: seq<seq<PortByte>>, enabled: bool, f: Frame, now: MouseRun)
    requires |start.partial| < 3 && Ran(start, arrivals, enabled, f, now)
    ensures now == if enabled then PollingAll(start, arrivals, f) else start.(unread := Flatten(arrivals))
    ensures enabled ==> |now.unread| <= Backlog(arrivals)
  {
  }

  lemma NotYetRan(start: MouseRun, enabled: bool, f: Frame)
    requires |start.partial| < 3 && start.unread == []
    ensures Ran(start, [], enabled, f, start) && Flatten([]) == []
  {
  }

  /** One more iteration. */
  lemma RanOn(start: MouseRun, arrivals: seq<seq<PortByte>>, n: nat, enabled: bool, f: Frame, was: MouseRun,
              now: MouseRun, taken: nat)
    requires |start.partial| < 3 && n < |arrivals| && Ran(start, arrivals[..n], enabled, f, was) && |was.partial| < 3
    requires var pending := was.unread + arrivals[n];
             && taken <= |pending| && now.unread == pending[taken..]
             && now == (if enabled then Polling(was.(unread := pending), f) else was.(unread := pending[taken..]))
             && if enabled then PollEnds(pending, was.partial, taken) else taken == 0
    ensures Ran(start, arrivals[..n + 1], enabled, f, now)
  {
    hide Polling, PollEnds;
    assert arrivals[..n + 1][..n] == arrivals[..n];
    if enabled { PollTakes(was.unread + arrivals[n], was.partial, taken); }
  }

  /** The bytes consumed and those waiting are always those that arrived. */
  lemma StreamOn(from: seq<PortByte>, arrivals: seq<seq<PortByte>>, n: nat, consumed: seq<PortByte>,
                 waiting: seq<PortByte>, taken: nat)
    requires n < |arrivals| && from + Flatten(arrivals[..n]) == consumed + waiting
    requires taken <= |waiting + arrivals[n]|
    ensures var pending := waiting + arrivals[n];
            from + Flatten(arrivals[..n + 1]) == (consumed + pending[..taken]) + pending[taken..]
  {
    assert arrivals[..n + 1][..n] == arrivals[..n];
    Appended(from, Flatten(arrivals[..n]), arrivals[n], consumed, waiting);
    Taken(consumed, waiting + arrivals[n], taken);
  }

  /** RunKernelMouseLoop, for any number of iterations: the run of the model from the middle of
      the screen. */
  method RunKernelMouseLoop(framebuffer: Surface, shadow: Surface, compose: Option<Surface>, cursor: CursorImage,
                            ui: Ui, arrivals: seq<seq<PortByte>>)
    returns (loop: KernelMouseLoop, pending: seq<PortByte>)
    requires Connected(framebuffer, shadow, compose, cursor) && ui.Valid() && ui.hoveredButton == 0
    modifies framebuffer.pixels, shadow.pixels, cursor, cursor.savedPixels
    modifies if compose.Some? then {compose.value.pixels} else {}
    ensures loop.Valid() && loop.framebuffer == framebuffer && loop.shadow == shadow && loop.cursor == cursor
    ensures loop.mouse.enabled == ui.mouseDetected && Flatten(arrivals) == loop.consumed + pending
    ensures loop.MouseWith(pending)
            == if ui.mouseDetected then PollingAll(StartOfRun(loop.Bounds()), arrivals, loop.Bounds())
               else StartOfRun(loop.Bounds()).(unread := Flatten(arrivals))
  {
    hide KernelMouseLoop.Valid, Connected, Ui.Valid, PollingAll, Flatten;
    loop := new KernelMouseLoop(framebuffer, shadow, compose, cursor, ui);
    pending := Run(loop, arrivals);
    assert [] + Flatten(arrivals) == Flatten(arrivals);
  }

  ghost predicate ShowsOverlay(surface: Surface, ui: Ui, look: CursorLook)
    requires surface.Valid() && ui.Valid()
    reads surface.pixels
  {
    forall i, j | 0 <= i < surface.width && 0 <= j < surface.height ::
      At(surface.Image(), surface.stride, i, j) == Overlay(look, ScenePixel(ui, surface.format, i, j), i, j)
  }

  predicate InBox(i: nat, j: nat, box: UiBox) {
    InRect(i, j, box.x, box.y, box.width, box.height)
  }

  lemma WholeCopy(now: seq<Pixel>, before: seq<Pixel>, scene: seq<Pixel>)
    requires |now| == |before| == |scene| && now == Splices.Splice(before, 0, scene[0..|scene|])
    ensures now == scene
  {
  }

  lemma RefreshFrom(before: Ui, after: Ui, format: PixelFormat, i: nat, j: nat, previous: nat, current: nat)
    requires ValidFormat(format) && before.Valid() && before.mouseDetected && current <= 2
    requires previous == before.hoveredButton && after == before.(hoveredButton := current)
    ensures RefreshedPixel(after, format, ScenePixel(before, format, i, j), i, j, previous, current)
            == ScenePixel(after, format, i, j)
  {
    RefreshIsRedraw(before, format, i, j, previous, current);
  }

  lemma UnchangedOutside(before: Ui, after: Ui, format: PixelFormat, i: nat, j: nat, previous: nat, current: nat)
    requires ValidFormat(format) && before.Valid() && before.mouseDetected && current <= 2
    requires previous == before.hoveredButton && after == before.(hoveredButton := current)
    requires previous == 1 || current == 1 ==> !InBox(i, j, before.installButton)
    requires previous == 2 || current == 2 ==> !InBox(i, j, before.tryButton)
    ensures ScenePixel(before, format, i, j) == ScenePixel(after, format, i, j)
  {
    SceneOutside(before, format, i, j, previous, current);
  }
}
