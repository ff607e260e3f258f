/** The messages a server sends, as sections 7.6 and 7.7 of RFC 6143 and the extensions noVNC
    speaks lay them out on the wire, and what each of them means to a viewer. The parser of
    RfbStream reads any sequence of them back, however it is split into chunks. */
module RfbWire {
  import opened Common
  import opened WebsockModel
  import opened RfbStream
  import opened RfbChunking

  // ---------- Messages and their layout ----------

  datatype RectMsg =
    | NameMsg(rect: Rect, name: Bytes)
    | LedMsg(rect: Rect, scroll: bool, num: bool, caps: bool, spare: nat)
    | SizeMsg(rect: Rect)
    | ExtendedSizeMsg(rect: Rect, screens: seq<Screen>)
    | CursorMsg(rect: Rect, pixels: Bytes, mask: Bytes)
    | KeyMsg(rect: Rect)
    | PointerMsg(rect: Rect)
    | LastMsg(rect: Rect)
    | CopyMsg(rect: Rect, fromX: nat, fromY: nat)
    | RawMsg(rect: Rect, depth: nat, lines: seq<seq<RawPixel>>)
    | RreMsg(rect: Rect, background: Bytes, subrects: seq<Subrect>)

  /** A pixel as the server knows it, in the format the client has asked for: two bits a colour at
      depth 8, else eight, and bits that mean nothing. */
  datatype RawPixel = RawPixel(red: nat, green: nat, blue: nat, spare: nat)

  predicate PixelOk(depth: nat, px: RawPixel) {
    var size := if depth == 8 then 4 else 256;
    px.red < size && px.green < size && px.blue < size && px.spare < size
  }

  predicate LineOk(depth: nat, line: seq<RawPixel>, width: nat) {
    |line| == width && forall px <- line :: PixelOk(depth, px)
  }

  /** The first screen's id and flags are what a viewer keeps. */
  datatype Screen = Screen(id: nat, x: nat, y: nat, width: nat, height: nat, flags: nat)

  datatype Subrect = Subrect(color: Bytes, x: nat, y: nat, width: nat, height: nat)

  datatype ServerMsg =
    | BellMsg
    | CutTextMsg(text: Bytes)
    | FenceMsg(flags: nat, payload: Bytes)
    | EndOfContinuousUpdatesMsg
    | XvpMsg(version: Byte, available: bool)
    | UpdateMsg(count: nat, rects: seq<RectMsg>)

  predicate RectOk(c: Config, m: RectMsg) {
    && Fits16(m.rect.x) && Fits16(m.rect.y) && Fits16(m.rect.width) && Fits16(m.rect.height)
    && match m
       case NameMsg(_, name) => |name| < TWO32
       case ExtendedSizeMsg(_, screens) =>
         |screens| < 0x100 && forall screen <- screens :: screen.id < TWO32 && screen.flags < TWO32
       case LedMsg(_, _, _, _, spare) => spare < 32
       case CursorMsg(r, pixels, mask) => |pixels| == r.width * r.height * 4 && |mask| == (r.width + 7) / 8 * r.height
       case CopyMsg(_, x, y) => Fits16(x) && Fits16(y)
       case RreMsg(_, background, subrects) =>
         |background| == 4 && |subrects| < TWO32 && forall sub <- subrects :: SubrectOk(sub)
       case RawMsg(r, depth, lines) =>
         && depth == c.depth
         && if r.width == 0 || r.height == 0 then lines == []
            else |lines| == r.height && forall line <- lines :: LineOk(depth, line, r.width)
       case _ => true
  }

  predicate SubrectOk(sub: Subrect) {
    |sub.color| == 4 && Fits16(sub.x) && Fits16(sub.y) && Fits16(sub.width) && Fits16(sub.height)
  }

  /** The announced count is right, or a LastRect ends the update early. */
  predicate CountOk(count: nat, rects: seq<RectMsg>) {
    if rects == [] then count == 0
    else count > 0 && if rects[0].LastMsg? then |rects| == 1 else CountOk(count - 1, rects[1..])
  }

  predicate MsgOk(c: Config, m: ServerMsg) {
    match m
    case CutTextMsg(text) => |text| < 0x8000_0000
    case FenceMsg(flags, payload) => 0x8000_0000 <= flags < TWO32 && |payload| <= 64
    case UpdateMsg(count, rects) => Fits16(count) && CountOk(count, rects) && forall r <- rects :: RectOk(c, r)
    case _ => true
  }

  function EncodingOf(m: RectMsg): int {
    match m
    case RawMsg(_, _, _) => 0
    case CopyMsg(_, _, _) => 1
    case RreMsg(_, _, _) => 2
    case SizeMsg(_) => -223
    case LastMsg(_) => -224
    case CursorMsg(_, _, _) => -239
    case KeyMsg(_) => -258
    case LedMsg(_, _, _, _, _) => -261
    case NameMsg(_, _) => -307
    case ExtendedSizeMsg(_, _) => -308
    case PointerMsg(_) => -316
  }

  function RectHead(r: Rect, encoding: int): Bytes {
    Wire16(r.x) + (Wire16(r.y) + (Wire16(r.width) + (Wire16(r.height) + Wire32(encoding))))
  }

  function HeadWire(m: RectMsg): Bytes { RectHead(m.rect, EncodingOf(m)) }

  function Lines(lines: seq<Bytes>): Bytes {
    if lines == [] then [] else lines[0] + Lines(lines[1..])
  }

  /** At depth 8 one byte with red in its lowest bits, else one byte for each colour and a fourth. */
  function PixelWire(depth: nat, px: RawPixel): Bytes {
    if depth == 8 then [(64 * px.spare + 16 * px.blue + 4 * px.green + px.red) % 0x100]
    else [px.red % 0x100, px.green % 0x100, px.blue % 0x100, px.spare % 0x100]
  }

  function LineWire(depth: nat, line: seq<RawPixel>): Bytes {
    if line == [] then [] else PixelWire(depth, line[0]) + LineWire(depth, line[1..])
  }

  function LineWires(depth: nat, lines: seq<seq<RawPixel>>): seq<Bytes> {
    if lines == [] then [] else [LineWire(depth, lines[0])] + LineWires(depth, lines[1..])
  }

  function ScreenWire(m: Screen): Bytes {
    Wire32(m.id) + (Wire16(m.x) + (Wire16(m.y) + (Wire16(m.width) + (Wire16(m.height) + Wire32(m.flags)))))
  }

  function ScreensWire(screens: seq<Screen>): Bytes {
    if screens == [] then [] else ScreenWire(screens[0]) + ScreensWire(screens[1..])
  }

  function SubrectWire(m: Subrect): Bytes {
    m.color + (Wire16(m.x) + (Wire16(m.y) + (Wire16(m.width) + Wire16(m.height))))
  }

  function SubrectsWire(subrects: seq<Subrect>): Bytes {
    if subrects == [] then [] else SubrectWire(subrects[0]) + SubrectsWire(subrects[1..])
  }

  /** QEMU's LED state: scroll lock in the lowest bit, then num lock, then caps lock. */
  function LedByte(scroll: bool, num: bool, caps: bool, spare: nat): Byte {
    ((if scroll then 1 else 0) + (if num then 2 else 0) + (if caps then 4 else 0) + 8 * spare) % 0x100
  }

  function BodyWire(m: RectMsg): Bytes {
    match m
    case NameMsg(_, name) => Wire32(|name|) + name
    case LedMsg(_, scroll, num, caps, spare) => [LedByte(scroll, num, caps, spare)]
    case ExtendedSizeMsg(_, screens) => [|screens| % 0x100, 0, 0, 0] + ScreensWire(screens)
    case CursorMsg(_, pixels, mask) => pixels + mask
    case RreMsg(_, background, subrects) => Wire32(|subrects|) + (background + SubrectsWire(subrects))
    case CopyMsg(_, x, y) => Wire16(x) + Wire16(y)
    case RawMsg(_, depth, lines) => Lines(LineWires(depth, lines))
    case _ => []
  }

  function RectsWire(rects: seq<RectMsg>): Bytes {
    if rects == [] then [] else HeadWire(rects[0]) + (BodyWire(rects[0]) + RectsWire(rects[1..]))
  }

  function Wire(m: ServerMsg): Bytes {
    match m
    case BellMsg => [2]
    case CutTextMsg(text) => [3, 0, 0, 0] + (Wire32(|text|) + text)
    case FenceMsg(flags, payload) => [248, 0, 0, 0] + (Wire32(flags) + ([|payload| % 0x100] + payload))
    case EndOfContinuousUpdatesMsg => [150]
    case XvpMsg(version, available) => [250, 0, version, if available then 1 else 0]
    case UpdateMsg(count, rects) => [0, 0] + (Wire16(count) + RectsWire(rects))
  }

  function WireAll(msgs: seq<ServerMsg>): Bytes {
    if msgs == [] then [] else Wire(msgs[0]) + WireAll(msgs[1..])
  }

  // ---------- What the messages mean ----------

  datatype Effect = Effect(session: Session, out: seq<Output>)

  function Then(e: Effect, next: Effect): Effect { Effect(next.session, e.out + next.out) }

  /** A pixel as it is shown: red, green, blue on a scale to 255, and opaque. */
  function Shown(depth: nat, px: RawPixel): Bytes {
    if depth == 8 then [85 * px.red % 0x100, 85 * px.green % 0x100, 85 * px.blue % 0x100, 255]
    else [px.red % 0x100, px.green % 0x100, px.blue % 0x100, 255]
  }

  function ShownLine(depth: nat, line: seq<RawPixel>): Bytes {
    if line == [] then [] else Shown(depth, line[0]) + ShownLine(depth, line[1..])
  }

  /** The lines of a raw rectangle below the first done ones, each blitted at its place. */
  function Blits(depth: nat, r: Rect, lines: seq<seq<RawPixel>>, done: nat): seq<Output> {
    if lines == [] then []
    else [BlitLine(r.x, r.y + done, r.width, ShownLine(depth, lines[0]))] + Blits(depth, r, lines[1..], done + 1)
  }

  /** A new size of the framebuffer, which a viewer with continuous updates asks for anew. */
  function SizeEffect(f: Session, r: Rect): Effect {
    Effect(f.(fbWidth := r.width, fbHeight := r.height),
           [Resized(r.width, r.height)]
           + if f.enabledContinuousUpdates then [EnableContinuousUpdates(r.width, r.height)] else [])
  }

  /** The rectangle of an ExtendedDesktopSize says in x who asked (1: this viewer) and in y whether
      the server refused; the first one tells that sizes can be asked for. */
  function ExtendedSizeEffect(f: Session, r: Rect, screens: seq<Screen>): Effect {
    var mine, refused := r.x == 1, r.x == 1 && r.y != 0;
    var known := f.(supportsSetDesktopSize := true,
                    screenId := if screens == [] then f.screenId else screens[0].id,
                    screenFlags := if screens == [] then f.screenFlags else screens[0].flags);
    var sized := if refused then Effect(known, []) else SizeEffect(known, r);
    Effect(sized.session,
           (if mine then [ResizeAnswered] else []) + sized.out
           + ((if f.supportsSetDesktopSize then [] else [RequestRemoteResize])
              + (if mine && !refused then [RequestRemoteResize] else [])))
  }

  /** Subrectangles are placed relative to their rectangle. */
  function Fills(r: Rect, subrects: seq<Subrect>): seq<Output> {
    if subrects == [] then []
    else
      var m := subrects[0];
      [FillRect(r.x + m.x, r.y + m.y, m.width, m.height, m.color)] + Fills(r, subrects[1..])
  }

  function RectEffect(c: Config, f: Session, m: RectMsg): Effect {
    match m
    case NameMsg(_, name) => Effect(f.(name := name), [DesktopName(name)])
    case LedMsg(_, _, num, caps, _) => Effect(f.(numLock := Some(num), capsLock := Some(caps)), [])
    case SizeMsg(r) => SizeEffect(f, r)
    case CopyMsg(r, x, y) => Effect(f, if r.width == 0 || r.height == 0 then [] else [CopyImage(x, y, r)])
    case ExtendedSizeMsg(r, screens) => ExtendedSizeEffect(f, r, screens)
    case CursorMsg(r, pixels, mask) => Effect(f, [CursorChanged(r, pixels, mask)])
    case KeyMsg(_) => Effect(f.(extendedKeys := true), [])
    case PointerMsg(_) => Effect(f.(extendedPointer := true), [])
    case LastMsg(_) => Effect(f, [])
    case RawMsg(r, depth, lines) => Effect(f, Blits(depth, r, lines, 0))
    case RreMsg(r, background, subrects) =>
      Effect(f, [FillRect(r.x, r.y, r.width, r.height, background)] + Fills(r, subrects))
  }

  /** At the end of an update the picture is shown and, unless updates come by themselves, the next
      one asked for. */
  function UpdateEnds(f: Session): seq<Output> {
    [Flip] + if f.enabledContinuousUpdates then [] else [UpdateRequest(f.fbWidth, f.fbHeight)]
  }

  function RectsEffect(c: Config, f: Session, rects: seq<RectMsg>): Effect
    decreases |rects|
  {
    if rects == [] then Effect(f, UpdateEnds(f))
    else
      var e := RectEffect(c, f, rects[0]);
      Then(e, RectsEffect(c, e.session, rects[1..]))
  }

  function EffectOf(c: Config, f: Session, m: ServerMsg): Effect {
    match m
    case BellMsg => Effect(f, [Bell])
    case CutTextMsg(text) => Effect(f, if c.viewOnly then [] else [Clipboard(text)])
    case FenceMsg(flags, payload) => Effect(f.(supportsFence := true), [ClientFence(flags % 4, payload)])
    case EndOfContinuousUpdatesMsg =>
      var first := !f.supportsContinuousUpdates;
      Effect(f.(supportsContinuousUpdates := true, enabledContinuousUpdates := first),
             if first then [EnableContinuousUpdates(f.fbWidth, f.fbHeight)] else [])
    case XvpMsg(version, available) =>
      if available then Effect(f.(xvpVersion := version), [PowerCapability]) else Effect(f, [])
    case UpdateMsg(_, rects) => RectsEffect(c, f, rects)
  }

  function EffectAll(c: Config, f: Session, msgs: seq<ServerMsg>): Effect
    decreases |msgs|
  {
    if msgs == [] then Effect(f, [])
    else
      var e := EffectOf(c, f, msgs[0]);
      Then(e, EffectAll(c, e.session, msgs[1..]))
  }

  // ---------- Rectangles ----------

  lemma SignedRoundTrip(e: int)
    requires -0x8000_0000 <= e < 0x8000_0000
    ensures ToInt32(e % TWO32) == e
  {
  }

  ghost predicate Reading(st: State, rects: nat) {
    && WellFormed(st) && !st.failed && !st.flushing
    && st.fbu.rects == rects && st.fbu.encoding.None?
  }

  lemma HeadIsRead(c: Config, st: State, s: Bytes, p: nat, r: Rect, encoding: int, n: nat)
    requires n > 0 && Reading(st, n) && At(s, p, RectHead(r, encoding))
    requires Fits16(r.x) && Fits16(r.y) && Fits16(r.width) && Fits16(r.height)
    requires -0x8000_0000 <= encoding < 0x8000_0000
    ensures p + 12 <= |s|
    ensures Step(c, st, s, p) == Done(p + 12, st.(fbu := Fbu(n, r, Some(encoding))), [], true)
  {
    hide Wire16, Wire32, U16, U32, ToInt32;
    WireLengths();
    var w4 := Wire16(r.height) + Wire32(encoding);
    var w3 := Wire16(r.width) + w4;
    var w2 := Wire16(r.y) + w3;
    Parts(s, p, Wire16(r.x), w2);
    Parts(s, p + 2, Wire16(r.y), w3);
    Parts(s, p + 4, Wire16(r.width), w4);
    Parts(s, p + 6, Wire16(r.height), Wire32(encoding));
    At16(s, p, r.x);
    At16(s, p + 2, r.y);
    At16(s, p + 4, r.width);
    At16(s, p + 6, r.height);
    At32(s, p + 8, encoding);
    SignedRoundTrip(encoding);
  }

  lemma HeadParses(c: Config, st: State, s: Bytes, p: nat, m: RectMsg, n: nat)
    requires n > 0 && Reading(st, n) && RectOk(c, m) && At(s, p, HeadWire(m))
    ensures p + 12 <= |s|
    ensures Step(c, st, s, p) == Done(p + 12, st.(fbu := Fbu(n, m.rect, Some(EncodingOf(m)))), [], true)
  {
    hide Step, RectHead;
    HeadIsRead(c, st, s, p, m.rect, EncodingOf(m), n);
  }

  ghost function InRect(st: State, n: nat, m: RectMsg): State {
    st.(fbu := Fbu(n, m.rect, Some(EncodingOf(m))))
  }

  /** The rectangles still to come once m has been read, itself included: a LastRect is the last. */
  function Remaining(n: nat, m: RectMsg): nat { if m.LastMsg? then 1 else n }

  /** The state at the end of the body. */
  ghost function BodyRead(c: Config, st: State, n: nat, m: RectMsg): State {
    InRect(st, Remaining(n, m), m).(session := RectEffect(c, st.session, m).session)
  }

  predicate InSteps(m: RectMsg) { m.RawMsg? || m.RreMsg? }

  /** Everything but raw pixels and RRE is read in one step. */
  lemma BodyParses(c: Config, st: State, s: Bytes, p: nat, m: RectMsg, n: nat)
    requires n > 0 && Reading(st, n) && RectOk(c, m) && !InSteps(m) && At(s, p, BodyWire(m))
    ensures RectBody(c, InRect(st, n, m), s, p)
         == Done(p + |BodyWire(m)|, BodyRead(c, st, n, m), RectEffect(c, st.session, m).out, true)
  {
    hide DataRect, CursorRect, ExtendedSizeRect, NameRect, CopyRect, LedRect;
    match m
    case ExtendedSizeMsg(_, screens) =>
      ExtendedSizeParses(c, st, s, p, m, n);
    case CursorMsg(_, pixels, mask) =>
      CursorParses(c, st, s, p, m, n);
    case NameMsg(_, name) =>
      NameParses(c, st, s, p, m, n);
    case LedMsg(_, _, _, _, _) =>
      LedParses(c, st, s, p, m, n);
    case CopyMsg(_, x, y) =>
      CopyParses(c, st, s, p, m, n);
    case SizeMsg(r) =>
      assert SizeEffect(st.session, r) == Effect(ResizeTo(st.session, r.width, r.height),
                                                 ResizeOutput(st.session, r.width, r.height));
    case _ =>
  }

  lemma LedParses(c: Config, st: State, s: Bytes, p: nat, m: RectMsg, n: nat)
    requires n > 0 && Reading(st, n) && RectOk(c, m) && m.LedMsg? && At(s, p, BodyWire(m))
    ensures LedRect(InRect(st, n, m), s, p)
         == Done(p + 1, BodyRead(c, st, n, m), RectEffect(c, st.session, m).out, true)
  {
    var leds := LedByte(m.scroll, m.num, m.caps, m.spare);
    At8(s, p, [leds], 0);
    assert leds / 2 == (if m.num then 1 else 0) + (if m.caps then 2 else 0) + 4 * m.spare;
    assert leds / 4 == (if m.caps then 1 else 0) + 2 * m.spare;
  }

  lemma CursorParses(c: Config, st: State, s: Bytes, p: nat, m: RectMsg, n: nat)
    requires n > 0 && Reading(st, n) && RectOk(c, m) && m.CursorMsg? && At(s, p, BodyWire(m))
    ensures CursorRect(InRect(st, n, m), s, p)
         == Done(p + |BodyWire(m)|, BodyRead(c, st, n, m), RectEffect(c, st.session, m).out, true)
  {
    assert CursorPixels(m.rect) == |m.pixels| && CursorMask(m.rect) == |m.mask|;
    hide CursorPixels, CursorMask;
    Parts(s, p, m.pixels, m.mask);
  }

  lemma {:induction false} ScreensLength(screens: seq<Screen>)
    ensures |ScreensWire(screens)| == 16 * |screens|
  {
    WireLengths();
    if screens != [] {
      ScreensLength(screens[1..]);
    }
  }

  /** Where the id and the flags of a screen are. */
  lemma ScreenFields(s: Bytes, p: nat, m: Screen)
    requires At(s, p, ScreenWire(m)) && m.id < TWO32 && m.flags < TWO32
    ensures p + 16 <= |s| && U32(s, p) == m.id && U32(s, p + 12) == m.flags
  {
    hide U32, Wire16, Wire32, At;
    WireLengths();
    var w4 := Wire16(m.height) + Wire32(m.flags);
    var w3 := Wire16(m.width) + w4;
    var w2 := Wire16(m.y) + w3;
    var w1 := Wire16(m.x) + w2;
    Parts(s, p, Wire32(m.id), w1);
    Parts(s, p + 4, Wire16(m.x), w2);
    Parts(s, p + 6, Wire16(m.y), w3);
    Parts(s, p + 8, Wire16(m.width), w4);
    Parts(s, p + 10, Wire16(m.height), Wire32(m.flags));
    At32(s, p, m.id);
    At32(s, p + 12, m.flags);
    Slice(s, p + 12, Wire32(m.flags));
  }

  /** Where the number of screens is, and what is kept of the first one. */
  lemma ExtendedSizeFields(c: Config, s: Bytes, p: nat, m: RectMsg)
    requires RectOk(c, m) && m.ExtendedSizeMsg? && At(s, p, BodyWire(m))
    ensures |BodyWire(m)| == 4 + 16 * |m.screens| && p + 4 + 16 * |m.screens| <= |s| && s[p] == |m.screens|
    ensures m.screens != [] ==> U32(s, p + 4) == m.screens[0].id && U32(s, p + 16) == m.screens[0].flags
  {
    hide U32, ScreenWire, At;
    var head := [|m.screens| % 0x100, 0, 0, 0];
    ScreensLength(m.screens);
    Parts(s, p, head, ScreensWire(m.screens));
    At8(s, p, head, 0);
    Slice(s, p, BodyWire(m));
    if m.screens != [] {
      Parts(s, p + 4, ScreenWire(m.screens[0]), ScreensWire(m.screens[1..]));
      ScreenFields(s, p + 4, m.screens[0]);
    }
  }

  lemma ExtendedSizeParses(c: Config, st: State, s: Bytes, p: nat, m: RectMsg, n: nat)
    requires n > 0 && Reading(st, n) && RectOk(c, m) && m.ExtendedSizeMsg? && At(s, p, BodyWire(m))
    ensures ExtendedSizeRect(InRect(st, n, m), s, p)
         == Done(p + |BodyWire(m)|, BodyRead(c, st, n, m), RectEffect(c, st.session, m).out, true)
  {
    hide U32, BodyWire, At;
    ExtendedSizeFields(c, s, p, m);
  }

  lemma NameParses(c: Config, st: State, s: Bytes, p: nat, m: RectMsg, n: nat)
    requires n > 0 && Reading(st, n) && RectOk(c, m) && m.NameMsg? && At(s, p, BodyWire(m))
    ensures NameRect(InRect(st, n, m), s, p)
         == Done(p + |BodyWire(m)|, BodyRead(c, st, n, m), RectEffect(c, st.session, m).out, true)
  {
    hide Wire32, U32;
    WireLengths();
    Parts(s, p, Wire32(|m.name|), m.name);
    At32(s, p, |m.name|);
  }

  lemma CopyParses(c: Config, st: State, s: Bytes, p: nat, m: RectMsg, n: nat)
    requires n > 0 && Reading(st, n) && RectOk(c, m) && m.CopyMsg? && At(s, p, BodyWire(m))
    ensures DataRect(c, InRect(st, n, m), s, p)
         == Done(p + 4, BodyRead(c, st, n, m), RectEffect(c, st.session, m).out, true)
  {
    Parts(s, p, Wire16(m.fromX), Wire16(m.fromY));
    At16(s, p, m.fromX);
    At16(s, p + 2, m.fromY);
  }

  /** The lines as the parser blits them, below the first done ones. */
  function BlitsFrom(c: Config, r: Rect, lines: seq<Bytes>, done: nat): seq<Output> {
    if lines == [] then []
    else [BlitLine(r.x, r.y + done, r.width, Rgba(lines[0], c.depth))] + BlitsFrom(c, r, lines[1..], done + 1)
  }

  lemma FourBack(k: int, q: int)
    ensures (k - 4 * q) % 4 == k % 4 && (k - 4 * q) / 4 == k / 4 - q
  {
  }

  /** Depth 8: byte j of an image line comes from pixel j / 4. */
  lemma Rgba8At(line: Bytes, j: nat)
    requires j < 4 * |line|
    ensures |Rgba(line, 8)| == 4 * |line| && j / 4 < |line| && Rgba(line, 8)[j] == Shade(line[j / 4], j % 4)
  {
    hide Shade;
  }

  lemma Rgba8Cons(b: Byte, line: Bytes)
    ensures Rgba([b] + line, 8) == [Shade(b, 0), Shade(b, 1), Shade(b, 2), Shade(b, 3)] + Rgba(line, 8)
  {
    var x, y := Rgba([b] + line, 8), [Shade(b, 0), Shade(b, 1), Shade(b, 2), Shade(b, 3)] + Rgba(line, 8);
    assert |x| == |y| == 4 + 4 * |line|;
    hide Rgba, Shade;
    forall j | 0 <= j < |x| ensures x[j] == y[j] {
      if j < 4 {
        Rgba8At([b] + line, j);
      } else {
        Rgba8Later(b, line, j);
      }
    }
  }

  lemma Rgba8Later(b: Byte, line: Bytes, j: nat)
    requires 4 <= j < 4 + 4 * |line|
    ensures |Rgba([b] + line, 8)| == 4 + 4 * |line| && |Rgba(line, 8)| == 4 * |line|
    ensures Rgba([b] + line, 8)[j] == Rgba(line, 8)[j - 4]
  {
    hide Rgba, Shade;
    Rgba8At([b] + line, j);
    Rgba8At(line, j - 4);
    FourBack(j, 1);
    assert ([b] + line)[j / 4] == line[j / 4 - 1];
  }

  lemma Rgba24Cons(px: Bytes, line: Bytes)
    requires |px| == 4
    ensures Rgba(px + line, 24) == [px[0], px[1], px[2], 255] + Rgba(line, 24)
  {
    var x, y := Rgba(px + line, 24), [px[0], px[1], px[2], 255] + Rgba(line, 24);
    forall j | 0 <= j < |x| ensures x[j] == y[j] {
      if j >= 4 {
        FourBack(j, 1);
        assert (px + line)[j] == line[j - 4];
      }
    }
  }

  lemma DepthsAlike(line: Bytes, depth: nat)
    ensures depth != 8 ==> Rgba(line, depth) == Rgba(line, 24)
  {
  }

  lemma DivideByFour(q: nat, r: nat)
    requires r < 4
    ensures (4 * q + r) / 4 == q && (4 * q + r) % 4 == r
  {
  }

  lemma Fields(red: nat, green: nat, blue: nat, spare: nat)
    requires red < 4 && green < 4 && blue < 4 && spare < 4
    ensures var b := 64 * spare + 16 * blue + 4 * green + red;
            b < 0x100 && b % 4 == red && b / 4 % 4 == green && b / 16 % 4 == blue
  {
    var b := 64 * spare + 16 * blue + 4 * green + red;
    DivideByFour(16 * spare + 4 * blue + green, red);
    DivideByFour(4 * spare + blue, green);
    DivideByFour(spare, blue);
    assert b / 16 == b / 4 / 4;
  }

  /** The byte of a pixel at depth 8 holds its colours. */
  lemma PixelByte(px: RawPixel)
    requires PixelOk(8, px)
    ensures var b := PixelWire(8, px)[0]; Shown(8, px) == [Shade(b, 0), Shade(b, 1), Shade(b, 2), Shade(b, 3)]
  {
    Fields(px.red, px.green, px.blue, px.spare);
    ShownAt8(px);
    hide Shown;
    Shades(PixelWire(8, px)[0], px.red, px.green, px.blue);
  }

  lemma ShownAt8(px: RawPixel)
    requires PixelOk(8, px)
    ensures Shown(8, px) == [85 * px.red, 85 * px.green, 85 * px.blue, 255]
    ensures PixelWire(8, px) == [64 * px.spare + 16 * px.blue + 4 * px.green + px.red]
  {
  }

  lemma Shades(b: Byte, red: nat, green: nat, blue: nat)
    requires b % 4 == red && b / 4 % 4 == green && b / 16 % 4 == blue
    ensures Shade(b, 0) == 85 * red && Shade(b, 1) == 85 * green && Shade(b, 2) == 85 * blue && Shade(b, 3) == 255
  {
  }

  /** What the decoder makes of a line are its pixels, as they are to be shown. */
  lemma {:induction false} LineIsShown(depth: nat, line: seq<RawPixel>)
    requires forall px <- line :: PixelOk(depth, px)
    ensures Rgba(LineWire(depth, line), depth) == ShownLine(depth, line)
    ensures |LineWire(depth, line)| == if depth == 8 then |line| else 4 * |line|
  {
    hide Shade, Rgba, PixelOk;
    if line == [] {
      NothingShown(depth);
    } else {
      var px, rest := line[0], LineWire(depth, line[1..]);
      LineIsShown(depth, line[1..]);
      DepthsAlike(rest, depth);
      DepthsAlike(PixelWire(depth, px) + rest, depth);
      if depth == 8 {
        PixelByte(px);
        Rgba8Cons(PixelWire(8, px)[0], rest);
      } else {
        Colours(depth, px);
        Rgba24Cons(PixelWire(depth, px), rest);
      }
    }
  }

  lemma Colours(depth: nat, px: RawPixel)
    requires PixelOk(depth, px) && depth != 8
    ensures Shown(depth, px) == [px.red, px.green, px.blue, 255]
    ensures PixelWire(depth, px) == [px.red, px.green, px.blue, px.spare]
  {
  }

  lemma NothingShown(depth: nat)
    ensures Rgba([], depth) == []
  {
  }

  lemma {:induction false} BlitsAreShown(c: Config, r: Rect, lines: seq<seq<RawPixel>>, done: nat)
    requires forall line <- lines :: LineOk(c.depth, line, r.width)
    ensures BlitsFrom(c, r, LineWires(c.depth, lines), done) == Blits(c.depth, r, lines, done)
    ensures |LineWires(c.depth, lines)| == |lines|
    ensures forall w <- LineWires(c.depth, lines) :: |w| == LineLength(c, r)
  {
    hide Rgba, LineWire, ShownLine;
    if lines != [] {
      assert LineOk(c.depth, lines[0], r.width);
      LineIsShown(c.depth, lines[0]);
      BlitsAreShown(c, r, lines[1..], done + 1);
      var w, rest := LineWire(c.depth, lines[0]), LineWires(c.depth, lines[1..]);
      assert LineWires(c.depth, lines)[1..] == rest;
    }
  }

  /** Raw pixels line by line. */
  lemma {:induction false} RawParses(c: Config, st: State, s: Bytes, p: nat, r: Rect, lines: seq<Bytes>)
    requires WellFormed(st) && !st.failed && st.fbu.encoding == Some(RAW) && st.fbu.rect == r
    requires r.width > 0 && lines != [] && st.lines == |lines|
    requires (forall line <- lines :: |line| == LineLength(c, r)) && At(s, p, Lines(lines))
    ensures var e := EndRect(Done(p + |Lines(lines)|, st.(lines := 0), [], true));
            Live(c, st, s, p) == Prepend(BlitsFrom(c, r, lines, r.height - |lines|) + e.out, Live(c, e.st, s, e.next))
    decreases |lines|
  {
    hide Rgba, LineLength, Live, Step, Prepend, EndRect, At, Lines, BlitsFrom;
    var rest, done := lines[1..], r.height - |lines|;
    var next := p + LineLength(c, r);
    var left := st.(lines := |lines| - 1);
    FirstLine(c, r, lines, done);
    Parts(s, p, lines[0], Lines(rest));
    LineParses(c, st, s, p, r, lines);
    EndReads(st.(lines := 0), p + |Lines(lines)|);
    EndReads(st.(lines := 0), next);
    LiveOne(c, st, s, p);
    var blit := [BlitLine(r.x, r.y + done, r.width, Rgba(lines[0], c.depth))];
    var e := EndRect(Done(p + |Lines(lines)|, st.(lines := 0), [], true));
    if rest != [] {
      RawParses(c, left, s, next, r, rest);
      PrependTwice(blit, BlitsFrom(c, r, rest, done + 1) + e.out, Live(c, e.st, s, e.next));
      assert blit + (BlitsFrom(c, r, rest, done + 1) + e.out) == BlitsFrom(c, r, lines, done) + e.out;
    }
  }

  lemma FirstLine(c: Config, r: Rect, lines: seq<Bytes>, done: nat)
    requires lines != []
    ensures var rest := lines[1..];
            var blit := [BlitLine(r.x, r.y + done, r.width, Rgba(lines[0], c.depth))];
            && Lines(lines) == lines[0] + Lines(rest)
            && BlitsFrom(c, r, lines, done) == blit + BlitsFrom(c, r, rest, done + 1)
            && (rest == [] ==> |Lines(lines)| == |lines[0]| && BlitsFrom(c, r, lines, done) == blit)
  {
    hide Rgba;
  }

  lemma LineParses(c: Config, st: State, s: Bytes, p: nat, r: Rect, lines: seq<Bytes>)
    requires WellFormed(st) && !st.failed && st.fbu.encoding == Some(RAW) && st.fbu.rect == r
    requires r.width > 0 && lines != [] && st.lines == |lines|
    requires |lines[0]| == LineLength(c, r) && At(s, p, lines[0])
    ensures var next := p + LineLength(c, r);
            var blit := [BlitLine(r.x, r.y + (r.height - |lines|), r.width, Rgba(lines[0], c.depth))];
            var left := st.(lines := |lines| - 1);
            var end := EndRect(Done(next, left, [], true));
            Step(c, st, s, p) == if |lines| == 1 then end.(out := blit + end.out) else Done(next, left, blit, true)
  {
    hide Rgba, LineLength, CursorRect, Message;
    assert RectBody(c, st, s, p) == RawRect(c, st, s, p);
  }

  lemma {:induction false} SubrectsLength(subrects: seq<Subrect>)
    requires forall sub <- subrects :: SubrectOk(sub)
    ensures |SubrectsWire(subrects)| == 12 * |subrects|
  {
    WireLengths();
    if subrects != [] {
      assert SubrectOk(subrects[0]);
      assert |SubrectWire(subrects[0])| == 12;
      SubrectsLength(subrects[1..]);
    }
  }

  /** Where the fields of a subrectangle are. */
  lemma SubrectFields(s: Bytes, p: nat, m: Subrect)
    requires At(s, p, SubrectWire(m)) && SubrectOk(m)
    ensures |SubrectWire(m)| == 12 && p + 12 <= |s| && s[p..p + 4] == m.color
    ensures U16(s, p + 4) == m.x && U16(s, p + 6) == m.y && U16(s, p + 8) == m.width && U16(s, p + 10) == m.height
  {
    hide U16, Wire16, At;
    WireLengths();
    var w3 := Wire16(m.width) + Wire16(m.height);
    var w2 := Wire16(m.y) + w3;
    Parts(s, p, m.color, Wire16(m.x) + w2);
    Parts(s, p + 4, Wire16(m.x), w2);
    Parts(s, p + 6, Wire16(m.y), w3);
    Parts(s, p + 8, Wire16(m.width), Wire16(m.height));
    Slice(s, p, m.color);
    Slice(s, p + 10, Wire16(m.height));
    At16(s, p + 4, m.x);
    At16(s, p + 6, m.y);
    At16(s, p + 8, m.width);
    At16(s, p + 10, m.height);
  }

  /** RRE subrectangles one by one. */
  lemma {:induction false} RreParses(c: Config, st: State, s: Bytes, p: nat, r: Rect, subs: seq<Subrect>)
    requires WellFormed(st) && !st.failed && st.fbu.encoding == Some(RRE) && st.fbu.rect == r
    requires subs != [] && st.subrects == |subs|
    requires (forall sub <- subs :: SubrectOk(sub)) && At(s, p, SubrectsWire(subs))
    ensures var e := EndRect(Done(p + |SubrectsWire(subs)|, st.(subrects := 0), [], true));
            Live(c, st, s, p) == Prepend(Fills(r, subs) + e.out, Live(c, e.st, s, e.next))
    decreases |subs|
  {
    hide Live, Step, Prepend, EndRect, At, SubrectWire, SubrectOk;
    var m, rest := subs[0], subs[1..];
    var left := st.(subrects := |subs| - 1);
    Parts(s, p, SubrectWire(m), SubrectsWire(rest));
    SubrectParses(c, st, s, p, r, subs);
    EndReads(st.(subrects := 0), p + |SubrectsWire(subs)|);
    EndReads(st.(subrects := 0), p + 12);
    LiveOne(c, st, s, p);
    var fill := [FillRect(r.x + m.x, r.y + m.y, m.width, m.height, m.color)];
    var e := EndRect(Done(p + |SubrectsWire(subs)|, st.(subrects := 0), [], true));
    SubrectFields(s, p, m);
    if rest == [] {
      assert Fills(r, rest) == [] && SubrectsWire(rest) == [] && Fills(r, subs) == fill;
    } else {
      RreParses(c, left, s, p + 12, r, rest);
      PrependTwice(fill, Fills(r, rest) + e.out, Live(c, e.st, s, e.next));
      assert fill + (Fills(r, rest) + e.out) == Fills(r, subs) + e.out;
    }
  }

  lemma SubrectParses(c: Config, st: State, s: Bytes, p: nat, r: Rect, subs: seq<Subrect>)
    requires WellFormed(st) && !st.failed && st.fbu.encoding == Some(RRE) && st.fbu.rect == r
    requires subs != [] && st.subrects == |subs| && SubrectOk(subs[0]) && At(s, p, SubrectWire(subs[0]))
    ensures var m, left := subs[0], st.(subrects := |subs| - 1);
            var fill := [FillRect(r.x + m.x, r.y + m.y, m.width, m.height, m.color)];
            var end := EndRect(Done(p + 12, left, [], true));
            && p + 12 <= |s|
            && Step(c, st, s, p) == if |subs| == 1 then end.(out := fill + end.out) else Done(p + 12, left, fill, true)
  {
    hide U16, U32, CursorRect, Message, At, SubrectWire;
    SubrectFields(s, p, subs[0]);
    assert RectBody(c, st, s, p) == RreRect(st, s, p);
  }

  lemma RreBodyParses(c: Config, st1: State, s: Bytes, p: nat, m: RectMsg)
    requires WellFormed(st1) && !st1.failed && Finished(st1)
    requires m.RreMsg? && RectOk(c, m) && st1.fbu.rect == m.rect && st1.fbu.encoding == Some(RRE)
    requires At(s, p, BodyWire(m))
    ensures var end := EndRect(Done(p + |BodyWire(m)|, st1, [], true));
            Live(c, st1, s, p) == Prepend(RectEffect(c, st1.session, m).out + end.out, Live(c, end.st, s, end.next))
  {
    hide Live, Step, At, SubrectsWire, SubrectOk, Wire32, U32, Prepend, EndRect;
    var r := m.rect;
    var fill := [FillRect(r.x, r.y, r.width, r.height, m.background)];
    RreHeadParses(c, st1, s, p, m);
    SubrectsLength(m.subrects);
    WireLengths();
    EndReads(st1, p + |BodyWire(m)|);
    EndReads(st1, p + 8);
    LiveOne(c, st1, s, p);
    var end := EndRect(Done(p + |BodyWire(m)|, st1, [], true));
    if m.subrects == [] {
      assert Fills(r, m.subrects) == [] && fill + [] == fill;
    } else {
      var st2 := st1.(subrects := |m.subrects|);
      assert st2.(subrects := 0) == st1;
      RreParses(c, st2, s, p + 8, r, m.subrects);
      PrependTwice(fill, Fills(r, m.subrects) + end.out, Live(c, end.st, s, end.next));
      assert fill + (Fills(r, m.subrects) + end.out) == (fill + Fills(r, m.subrects)) + end.out;
    }
  }

  /** The number of subrectangles and the background. */
  lemma RreHeadParses(c: Config, st1: State, s: Bytes, p: nat, m: RectMsg)
    requires WellFormed(st1) && !st1.failed && Finished(st1)
    requires m.RreMsg? && RectOk(c, m) && st1.fbu.rect == m.rect && st1.fbu.encoding == Some(RRE)
    requires At(s, p, BodyWire(m))
    ensures p + 8 <= |s| && At(s, p + 8, SubrectsWire(m.subrects))
    ensures var r, n := m.rect, |m.subrects|;
            var fill := [FillRect(r.x, r.y, r.width, r.height, m.background)];
            var end := EndRect(Done(p + 8, st1, [], true));
            Step(c, st1, s, p) == if n == 0 then end.(out := fill + end.out)
                                  else Done(p + 8, st1.(subrects := n), fill, true)
  {
    hide U16, U32, Wire32, CursorRect, Message, At, SubrectsWire, SubrectOk;
    WireLengths();
    Parts(s, p, Wire32(|m.subrects|), m.background + SubrectsWire(m.subrects));
    Parts(s, p + 4, m.background, SubrectsWire(m.subrects));
    At32(s, p, |m.subrects|);
    Slice(s, p + 4, m.background);
    assert RectBody(c, st1, s, p) == RreRect(st1, s, p);
  }

  lemma LiveOne(c: Config, st: State, s: Bytes, p: nat)
    requires p <= |s| && WellFormed(st) && !st.failed && !st.flushing
    requires Step(c, st, s, p).Done? && Step(c, st, s, p).ok
    ensures var r := Step(c, st, s, p); Live(c, st, s, p) == Prepend(r.out, Live(c, r.st, s, r.next))
  {
    hide Step;
  }

  /** One rectangle: header, body, end. */
  lemma RectParses(c: Config, st: State, s: Bytes, p: nat, m: RectMsg, n: nat)
    requires n > 0 && Reading(st, n) && RectOk(c, m) && At(s, p, HeadWire(m) + BodyWire(m))
    ensures var e := RectEffect(c, st.session, m);
            var q := p + 12 + |BodyWire(m)|;
            var end := EndRect(Done(q, BodyRead(c, st, n, m), [], true));
            && q <= |s| && Reading(end.st, Remaining(n, m) - 1) && end.st.session == e.session
            && Live(c, st, s, p) == Prepend(e.out + end.out, Live(c, end.st, s, q))
  {
    hide HeadWire, BodyWire, Live, Step, RectEffect, Prepend, EndRect;
    HeadLength(m);
    Parts(s, p, HeadWire(m), BodyWire(m));
    HeadParses(c, st, s, p, m, n);
    LiveOne(c, st, s, p);
    var st1 := InRect(st, n, m);
    PrependTwice([], [], Live(c, st1, s, p + 12));
    EndReads(BodyRead(c, st, n, m), p + 12 + |BodyWire(m)|);
    if InSteps(m) {
      StepsKeepSession(c, st.session, m);
      if m.RawMsg? {
        RawBodyParses(c, st1, s, p + 12, m);
      } else {
        RreBodyParses(c, st1, s, p + 12, m);
      }
    } else {
      OneStepBody(c, st, s, p + 12, m, n);
      LiveOne(c, st1, s, p + 12);
    }
  }

  lemma StepsKeepSession(c: Config, f: Session, m: RectMsg)
    requires InSteps(m)
    ensures RectEffect(c, f, m).session == f
  {
  }

  lemma EndReads(st: State, q: nat)
    requires WellFormed(st) && !st.failed && !st.flushing && Finished(st) && st.fbu.rects > 0
    ensures var end := EndRect(Done(q, st, [], true));
            end.Done? && end.next == q && end.ok && Reading(end.st, st.fbu.rects - 1) && end.st.session == st.session
  {
  }

  lemma OneStepBody(c: Config, st: State, s: Bytes, p: nat, m: RectMsg, n: nat)
    requires n > 0 && Reading(st, n) && RectOk(c, m) && !InSteps(m) && At(s, p, BodyWire(m))
    ensures var e := RectEffect(c, st.session, m);
            var end := EndRect(Done(p + |BodyWire(m)|, BodyRead(c, st, n, m), [], true));
            Step(c, InRect(st, n, m), s, p) == end.(out := e.out + end.out)
  {
    hide RectBody, BodyWire, RectEffect;
    BodyParses(c, st, s, p, m, n);
  }

  lemma HeadLength(m: RectMsg)
    ensures |HeadWire(m)| == 12
  {
  }

  lemma EmptyRawParses(c: Config, st1: State, s: Bytes, p: nat)
    requires WellFormed(st1) && !st1.failed && Finished(st1) && st1.fbu.encoding == Some(RAW) && p <= |s|
    ensures var r := st1.fbu.rect;
            Step(c, st1, s, p) == if r.width == 0 || r.height == 0 then EndRect(Done(p, st1, [], true))
                                  else Done(p, st1.(lines := r.height), [], true)
  {
    hide Rgba, CursorRect, Message;
    assert RectBody(c, st1, s, p) == RawRect(c, st1, s, p);
  }

  lemma RawBodyParses(c: Config, st1: State, s: Bytes, p: nat, m: RectMsg)
    requires WellFormed(st1) && !st1.failed && Finished(st1)
    requires m.RawMsg? && RectOk(c, m) && st1.fbu.rect == m.rect && st1.fbu.encoding == Some(RAW)
    requires At(s, p, BodyWire(m))
    ensures var end := EndRect(Done(p + |BodyWire(m)|, st1, [], true));
            Live(c, st1, s, p) == Prepend(RectEffect(c, st1.session, m).out + end.out, Live(c, end.st, s, end.next))
  {
    hide Live, Step, LineLength, LineOk, Lines, LineWires, Blits, BlitsFrom, EndRect, Prepend, At;
    var r := m.rect;
    var lines := LineWires(m.depth, m.lines);
    BlitsAreShown(c, r, m.lines, 0);
    Slice(s, p, Lines(lines));
    EmptyRawParses(c, st1, s, p);
    EndReads(st1, p);
    LiveOne(c, st1, s, p);
    if r.width == 0 || r.height == 0 {
      var end := EndRect(Done(p, st1, [], true));
      NoLines(m.depth, r);
      assert [] + end.out == end.out;
    } else {
      var st2 := st1.(lines := r.height);
      assert st2.(lines := 0) == st1;
      PrependTwice([], [], Live(c, st2, s, p));
      RawParses(c, st2, s, p, r, lines);
    }
  }

  lemma NoLines(depth: nat, r: Rect)
    ensures Lines(LineWires(depth, [])) == [] && Blits(depth, r, [], 0) == []
  {
  }

  lemma {:induction false} RectsParse(c: Config, st: State, s: Bytes, p: nat, rects: seq<RectMsg>, n: nat)
    returns (st': State)
    requires rects != [] && CountOk(n, rects) && Reading(st, n)
    requires (forall r <- rects :: RectOk(c, r)) && At(s, p, RectsWire(rects))
    ensures var e := RectsEffect(c, st.session, rects);
            && Reading(st', 0) && st'.session == e.session
            && Live(c, st, s, p) == Prepend(e.out, Live(c, st', s, p + |RectsWire(rects)|))
    decreases |rects|
  {
    hide HeadWire, BodyWire, Live, RectEffect, RectOk, InRect;
    var m, rest := rects[0], rects[1..];
    HeadLength(m);
    assert RectsWire(rects) == (HeadWire(m) + BodyWire(m)) + RectsWire(rest);
    Parts(s, p, HeadWire(m) + BodyWire(m), RectsWire(rest));
    RectParses(c, st, s, p, m, n);
    var e := RectEffect(c, st.session, m);
    var q := p + 12 + |BodyWire(m)|;
    var end := EndRect(Done(q, BodyRead(c, st, n, m), [], true));
    if rest == [] {
      st' := end.st;
      assert RectsEffect(c, e.session, rest) == Effect(e.session, UpdateEnds(e.session));
      assert end.out == [] + UpdateDone(e.session) == UpdateEnds(e.session);
    } else {
      st' := RectsParse(c, end.st, s, q, rest, n - 1);
      var tail := RectsEffect(c, e.session, rest).out;
      assert end.out == [] + [] == [] && e.out + end.out == e.out;
      assert e.out + (tail + Live(c, st', s, p + |RectsWire(rects)|).out)
          == (e.out + tail) + Live(c, st', s, p + |RectsWire(rects)|).out;
    }
  }

  // ---------- Messages ----------

  /** The display may make the parser pause, but not at an update without rectangles. */
  ghost predicate EndsSurely(c: Config, m: ServerMsg) {
    m.UpdateMsg? && m.rects == [] ==> forall k :: !c.pending(k)
  }

  lemma MsgParses(c: Config, st: State, s: Bytes, p: nat, m: ServerMsg) returns (st': State)
    requires Reading(st, 0) && MsgOk(c, m) && EndsSurely(c, m) && At(s, p, Wire(m))
    ensures var e := EffectOf(c, st.session, m);
            && Reading(st', 0) && st'.session == e.session
            && Live(c, st, s, p) == Prepend(e.out, Live(c, st', s, p + |Wire(m)|))
  {
    hide Live, Step, At, Wire, MsgOk;
    if m.UpdateMsg? {
      st' := UpdateParses(c, st, s, p, m.count, m.rects);
    } else {
      hide EffectOf;
      Slice(s, p, Wire(m));
      OneStepMsg(c, st, s, p, m);
      LiveOne(c, st, s, p);
      st' := st.(session := EffectOf(c, st.session, m).session);
    }
  }

  /** Everything but updates is read in one step. */
  lemma OneStepMsg(c: Config, st: State, s: Bytes, p: nat, m: ServerMsg)
    requires Reading(st, 0) && MsgOk(c, m) && !m.UpdateMsg? && At(s, p, Wire(m))
    ensures var e := EffectOf(c, st.session, m);
            Step(c, st, s, p) == Done(p + |Wire(m)|, st.(session := e.session), e.out, true)
  {
    match m
    case BellMsg =>
      At8(s, p, [2], 0);
    case CutTextMsg(text) =>
      hide Step;
      CutTextParses(c, st, s, p, text);
    case FenceMsg(flags, payload) =>
      hide Step;
      FenceParses(c, st, s, p, flags, payload);
    case EndOfContinuousUpdatesMsg =>
      hide Step;
      EndOfContinuousUpdatesParses(c, st, s, p);
    case XvpMsg(version, available) =>
      hide Step;
      XvpParses(c, st, s, p, version, available);
  }

  lemma EndOfContinuousUpdatesParses(c: Config, st: State, s: Bytes, p: nat)
    requires Reading(st, 0) && At(s, p, Wire(EndOfContinuousUpdatesMsg))
    ensures var e := EffectOf(c, st.session, EndOfContinuousUpdatesMsg);
            Step(c, st, s, p) == Done(p + 1, st.(session := e.session), e.out, true)
  {
    At8(s, p, [150], 0);
  }

  lemma XvpParses(c: Config, st: State, s: Bytes, p: nat, version: Byte, available: bool)
    requires Reading(st, 0) && At(s, p, Wire(XvpMsg(version, available)))
    ensures var e := EffectOf(c, st.session, XvpMsg(version, available));
            Step(c, st, s, p) == Done(p + 4, st.(session := e.session), e.out, true)
  {
    var w := Wire(XvpMsg(version, available));
    At8(s, p, w, 0);
    At8(s, p, w, 2);
    At8(s, p, w, 3);
    assert Step(c, st, s, p) == Xvp(st, s, p);
  }

  /** Where the fields of a cut text are. */
  lemma CutTextFields(s: Bytes, p: nat, text: Bytes)
    requires At(s, p, Wire(CutTextMsg(text))) && |text| < 0x8000_0000
    ensures |Wire(CutTextMsg(text))| == 8 + |text| && p + 8 + |text| <= |s|
    ensures s[p] == 3 && U32(s, p + 4) == |text| && s[p + 8..p + 8 + |text|] == text
  {
    hide U32, Wire, Wire32, At;
    var head, size := CutTextLayout(text);
    Parts(s, p, head, size + text);
    Parts(s, p + 4, size, text);
    Slice(s, p + 8, text);
    At8(s, p, head, 0);
    At32(s, p + 4, |text|);
  }

  lemma CutTextLayout(text: Bytes) returns (head: Bytes, size: Bytes)
    ensures Wire(CutTextMsg(text)) == head + (size + text)
    ensures size == Wire32(|text|) && |size| == 4 && |head| == 4 && head[0] == 3
  {
    head, size := [3, 0, 0, 0], Wire32(|text|);
  }

  lemma CutTextParses(c: Config, st: State, s: Bytes, p: nat, text: Bytes)
    requires Reading(st, 0) && |text| < 0x8000_0000 && At(s, p, Wire(CutTextMsg(text)))
    ensures Step(c, st, s, p)
         == Done(p + |Wire(CutTextMsg(text))|, st, EffectOf(c, st.session, CutTextMsg(text)).out, true)
  {
    hide U32, ToInt32, Wire, At;
    CutTextFields(s, p, text);
    SignedRoundTrip(|text|);
    assert Step(c, st, s, p) == CutText(c, st, s, p);
  }

  /** Where the fields of a fence are. */
  lemma FenceFields(s: Bytes, p: nat, flags: nat, payload: Bytes)
    requires At(s, p, Wire(FenceMsg(flags, payload))) && flags < TWO32 && |payload| < 0x100
    ensures |Wire(FenceMsg(flags, payload))| == 9 + |payload| && p + 9 + |payload| <= |s|
    ensures s[p] == 248 && U32(s, p + 4) == flags && s[p + 8] == |payload| && s[p + 9..p + 9 + |payload|] == payload
  {
    hide U32, Wire, Wire32, At;
    var head, word, last := FenceLayout(flags, payload);
    Parts(s, p, head, word + last);
    Parts(s, p + 4, word, last);
    FenceEnd(s, p + 8, payload);
    At8(s, p, head, 0);
    At32(s, p + 4, flags);
  }

  lemma FenceLayout(flags: nat, payload: Bytes) returns (head: Bytes, word: Bytes, last: Bytes)
    requires |payload| < 0x100
    ensures Wire(FenceMsg(flags, payload)) == head + (word + last)
    ensures word == Wire32(flags) && |word| == 4 && |head| == 4 && head[0] == 248 && last == [|payload|] + payload
  {
    head, word, last := [248, 0, 0, 0], Wire32(flags), [|payload|] + payload;
  }

  lemma FenceEnd(s: Bytes, q: nat, payload: Bytes)
    requires |payload| < 0x100 && At(s, q, [|payload|] + payload)
    ensures q + 1 + |payload| <= |s| && s[q] == |payload| && s[q + 1..q + 1 + |payload|] == payload
  {
    hide At;
    Parts(s, q, [|payload|], payload);
    Slice(s, q + 1, payload);
    At8(s, q, [|payload|], 0);
  }

  lemma FenceParses(c: Config, st: State, s: Bytes, p: nat, flags: nat, payload: Bytes)
    requires Reading(st, 0) && MsgOk(c, FenceMsg(flags, payload)) && At(s, p, Wire(FenceMsg(flags, payload)))
    ensures var e := EffectOf(c, st.session, FenceMsg(flags, payload));
            Step(c, st, s, p) == Done(p + |Wire(FenceMsg(flags, payload))|, st.(session := e.session), e.out, true)
  {
    hide U32, Wire, At;
    FenceFields(s, p, flags, payload);
    assert Step(c, st, s, p) == Fence(st, s, p);
  }

  /** The header of an update: with or without a pause the parser goes on to the rectangles. */
  lemma CountIsRead(c: Config, st: State, s: Bytes, p: nat, count: nat, rest: Bytes)
    requires Reading(st, 0) && Fits16(count) && (count == 0 ==> forall k :: !c.pending(k))
    requires At(s, p, [0, 0] + (Wire16(count) + rest))
    ensures p + 4 <= |s| && At(s, p + 4, rest)
    ensures var st1 := st.(fbu := st.fbu.(rects := count), updates := st.updates + 1);
            Live(c, st, s, p) == Prepend(if count == 0 then UpdateEnds(st.session) else [], Live(c, st1, s, p + 4))
  {
    hide Live, U16, Wire16, At;
    WireLengths();
    Parts(s, p, [0, 0], Wire16(count) + rest);
    Parts(s, p + 2, Wire16(count), rest);
    At8(s, p, [0, 0], 0);
    At16(s, p + 2, count);
    Slice(s, p + 2, Wire16(count));
    assert Step(c, st, s, p) == UpdateHeader(c, st, s, p);
    assert UpdateDone(st.session) == UpdateEnds(st.session);
    if c.pending(st.updates) {
      LivePaused(c, st, s, p);
    } else {
      LiveOne(c, st, s, p);
    }
  }

  lemma LivePaused(c: Config, st: State, s: Bytes, p: nat)
    requires p <= |s| && WellFormed(st) && !st.failed && !st.flushing
    requires Step(c, st, s, p).Done? && Step(c, st, s, p).st.flushing
    ensures var r := Step(c, st, s, p); Live(c, st, s, p) == Prepend(r.out, Live(c, Resumed(r.st), s, r.next))
  {
    hide Step;
  }

  lemma UpdateParses(c: Config, st: State, s: Bytes, p: nat, count: nat, rects: seq<RectMsg>) returns (st': State)
    requires Reading(st, 0) && MsgOk(c, UpdateMsg(count, rects)) && EndsSurely(c, UpdateMsg(count, rects))
    requires At(s, p, Wire(UpdateMsg(count, rects)))
    ensures var e := RectsEffect(c, st.session, rects);
            && Reading(st', 0) && st'.session == e.session
            && Live(c, st, s, p) == Prepend(e.out, Live(c, st', s, p + |Wire(UpdateMsg(count, rects))|))
  {
    hide Live, RectsWire, At;
    WireLengths();
    CountIsRead(c, st, s, p, count, RectsWire(rects));
    var st1 := st.(fbu := st.fbu.(rects := count), updates := st.updates + 1);
    if rects == [] {
      assert |RectsWire(rects)| == 0 by { NoRects(); }
      st' := st1;
    } else {
      st' := RectsParse(c, st1, s, p + 4, rects, count);
      PrependTwice([], [], Live(c, st1, s, p + 4));
    }
  }

  lemma NoRects()
    ensures RectsWire([]) == []
  {
  }

  lemma {:induction false} MsgsParse(c: Config, st: State, s: Bytes, p: nat, msgs: seq<ServerMsg>) returns (st': State)
    requires Reading(st, 0) && (forall m <- msgs :: MsgOk(c, m) && EndsSurely(c, m))
    requires At(s, p, WireAll(msgs))
    ensures var e := EffectAll(c, st.session, msgs);
            && Reading(st', 0) && st'.session == e.session
            && Live(c, st, s, p) == Prepend(e.out, Live(c, st', s, p + |WireAll(msgs)|))
    decreases |msgs|
  {
    hide Live, Wire, EffectOf, MsgOk, EndsSurely, Prepend;
    if msgs == [] {
      PrependTwice([], [], Live(c, st, s, p));
      st' := st;
    } else {
      Parts(s, p, Wire(msgs[0]), WireAll(msgs[1..]));
      var st1 := MsgParses(c, st, s, p, msgs[0]);
      var q := p + |Wire(msgs[0])|;
      st' := MsgsParse(c, st1, s, q, msgs[1..]);
      var e, rest := EffectOf(c, st.session, msgs[0]), EffectAll(c, st1.session, msgs[1..]);
      PrependTwice(e.out, rest.out, Live(c, st', s, p + |WireAll(msgs)|));
    }
  }

  /** Main result: a server's messages, cut into chunks in any way and with any pauses for the
      display in between, are understood as what they mean, one after the other, with nothing left
      over once the last pause has ended. */
  lemma MessagesAreUnderstood(c: Config, st: State, msgs: seq<ServerMsg>, events: seq<Event>)
    requires Reading(st, 0) && (forall m <- msgs :: MsgOk(c, m) && EndsSurely(c, m))
    requires Data(events) == WireAll(msgs) && !Deliver(c, st, [], 0, events).st.flushing
    ensures var d, e := Deliver(c, st, [], 0, events), EffectAll(c, st.session, msgs);
            && d.out == e.out && d.st.session == e.session && d.pos == |WireAll(msgs)| && Reading(d.st, 0)
  {
    hide WireAll, Deliver, Data, UpToFailure, EffectAll, Step;
    var s := WireAll(msgs);
    assert [] + s == s && s[0..|s|] == s;
    RestsAtStart(c, st, []);
    AllOfIt(c, st, [], 0, events);
    var st' := MsgsParse(c, st, s, 0, msgs);
    RestsAtStart(c, st', s);
    assert EffectAll(c, st.session, msgs).out + [] == EffectAll(c, st.session, msgs).out;
  }

  lemma RestsAtStart(c: Config, st: State, s: Bytes)
    requires Reading(st, 0)
    ensures AtRest(c, st, s, |s|)
  {
  }

  // ---------- What a server must not send ----------

  /** A colour map, an unknown type, the answer to a fence never sent, an unknown XVP message, and a
      rectangle in an encoding the client does not know. */
  datatype Offence =
    | ColourMap
    | UnknownType(code: Byte)
    | FenceAnswer(flags: nat, payload: Bytes)
    | XvpCode(version: Byte, code: Byte)
    | UnknownEncoding(count: nat, rect: Rect, encoding: int)

  predicate Offends(o: Offence) {
    match o
    case ColourMap => true
    case UnknownType(code) => code !in {0, 1, 2, 3, 150, 248, 250}
    case FenceAnswer(flags, payload) => flags < 0x8000_0000 && |payload| <= 64
    case XvpCode(_, code) => code > 1
    case UnknownEncoding(count, r, encoding) =>
      && 0 < count && Fits16(count) && Fits16(r.x) && Fits16(r.y) && Fits16(r.width) && Fits16(r.height)
      && -0x8000_0000 <= encoding < 0x8000_0000
      && encoding !in {0, 1, 2, -223, -224, -239, -258, -261, -307, -308, -316}
      && encoding !in {5, 6, 7, 16, -260, 21, 50, 0x574d5664}
  }

  function OffenceWire(o: Offence): Bytes {
    match o
    case ColourMap => [1]
    case UnknownType(code) => [code]
    case FenceAnswer(flags, payload) => [248, 0, 0, 0] + (Wire32(flags) + ([|payload| % 0x100] + payload))
    case XvpCode(version, code) => [250, 0, version, code]
    case UnknownEncoding(count, r, encoding) =>
      [0, 0] + (Wire16(count)
                + (Wire16(r.x) + (Wire16(r.y) + (Wire16(r.width) + (Wire16(r.height) + Wire32(encoding))))))
  }

  /** A step that fails at once. */
  ghost predicate FailsAt(c: Config, st: State, s: Bytes, p: nat)
    requires p <= |s| && WellFormed(st) && !st.flushing
  {
    var r := Step(c, st, s, p); r.Done? && r.out == [Failed] && r.st.failed
  }

  lemma FailureEnds(c: Config, st: State, s: Bytes, p: nat)
    requires p <= |s| && WellFormed(st) && !st.flushing && !st.failed && FailsAt(c, st, s, p)
    ensures Live(c, st, s, p).out == [Failed] && Live(c, st, s, p).st.failed
  {
    hide Step;
    var r := Step(c, st, s, p);
    if r.ok || r.st.flushing {
      assert Live(c, Resumed(r.st), s, r.next).out == [] && [Failed] + [] == [Failed];
    }
  }

  lemma OffenceFails(c: Config, st: State, s: Bytes, p: nat, o: Offence)
    requires Reading(st, 0) && Offends(o) && At(s, p, OffenceWire(o))
    ensures Live(c, st, s, p).out == [Failed] && Live(c, st, s, p).st.failed
  {
    hide Live, Step, Fence, FailsAt;
    var w := OffenceWire(o);
    Slice(s, p, w);
    if o.UnknownEncoding? {
      UnknownEncodingFails(c, st, s, p, o);
    } else {
      At8(s, p, w, 0);
      if o.FenceAnswer? {
        FenceAnswerFails(c, st, s, p, o);
      } else {
        OneMessageFails(c, st, s, p, o);
      }
      FailureEnds(c, st, s, p);
    }
  }

  lemma OneMessageFails(c: Config, st: State, s: Bytes, p: nat, o: Offence)
    requires Reading(st, 0) && Offends(o) && (o.ColourMap? || o.UnknownType? || o.XvpCode?)
    requires At(s, p, OffenceWire(o))
    ensures p < |s| && FailsAt(c, st, s, p)
  {
    At8(s, p, OffenceWire(o), 0);
    if o.XvpCode? {
      At8(s, p, OffenceWire(o), 3);
      assert Step(c, st, s, p) == Xvp(st, s, p);
    }
  }

  lemma FenceAnswerFails(c: Config, st: State, s: Bytes, p: nat, o: Offence)
    requires Reading(st, 0) && Offends(o) && o.FenceAnswer? && At(s, p, OffenceWire(o))
    ensures p < |s| && FailsAt(c, st, s, p)
  {
    hide U32, At;
    assert OffenceWire(o) == Wire(FenceMsg(o.flags, o.payload));
    FenceFields(s, p, o.flags, o.payload);
    assert Step(c, st, s, p) == Fence(st, s, p);
  }

  lemma UnknownEncodingFails(c: Config, st: State, s: Bytes, p: nat, o: Offence)
    requires Reading(st, 0) && Offends(o) && o.UnknownEncoding? && At(s, p, OffenceWire(o))
    ensures Live(c, st, s, p).out == [Failed] && Live(c, st, s, p).st.failed
  {
    hide Live, Step, At, FailsAt;
    var head := RectHead(o.rect, o.encoding);
    assert OffenceWire(o) == [0, 0] + (Wire16(o.count) + head);
    CountIsRead(c, st, s, p, o.count, head);
    var st1 := st.(fbu := st.fbu.(rects := o.count), updates := st.updates + 1);
    PrependTwice([], [], Live(c, st1, s, p + 4));
    HeadIsRead(c, st1, s, p + 4, o.rect, o.encoding, o.count);
    LiveOne(c, st1, s, p + 4);
    var st2 := st1.(fbu := Fbu(o.count, o.rect, Some(o.encoding)));
    PrependTwice([], [], Live(c, st2, s, p + 16));
    UnknownBodyFails(c, st2, s, p + 16);
    FailureEnds(c, st2, s, p + 16);
  }

  lemma UnknownBodyFails(c: Config, st: State, s: Bytes, p: nat)
    requires p <= |s| && WellFormed(st) && !st.failed && st.fbu.encoding.Some?
    requires st.fbu.encoding.value !in {0, 1, 2, -223, -224, -239, -258, -261, -307, -308, -316}
    requires st.fbu.encoding.value !in {5, 6, 7, 16, -260, 21, 50, 0x574d5664}
    ensures FailsAt(c, st, s, p)
  {
  }

  /** Main result on errors: whatever a server has sent before, an offence is reported as a failure
      in its turn, however the bytes are cut, and the connection has failed whatever follows. */
  lemma OffencesFail(c: Config, st: State, msgs: seq<ServerMsg>, o: Offence, more: Bytes, events: seq<Event>)
    requires Reading(st, 0) && (forall m <- msgs :: MsgOk(c, m) && EndsSurely(c, m)) && Offends(o)
    requires Data(events) == WireAll(msgs) + (OffenceWire(o) + more)
    requires !Deliver(c, st, [], 0, events).st.flushing
    ensures var d := Deliver(c, st, [], 0, events);
            d.st.failed && UpToFailure(d.out) == EffectAll(c, st.session, msgs).out + [Failed]
  {
    hide Live, WireAll, OffenceWire, Deliver, Data, UpToFailure, EffectAll, Offends, Step;
    var s := WireAll(msgs) + (OffenceWire(o) + more);
    var q := |WireAll(msgs)|;
    assert [] + s == s && s[0..|s|] == s;
    Parts(s, 0, WireAll(msgs), OffenceWire(o) + more);
    Parts(s, q, OffenceWire(o), more);
    RestsAtStart(c, st, []);
    AllOfIt(c, st, [], 0, events);
    var st' := MsgsParse(c, st, s, 0, msgs);
    OffenceFails(c, st', s, q, o);
  }

  /** A fence with more than 64 bytes is answered with the first 64, and the others are not skipped:
      they are read as the next messages. */
  lemma LongFenceIsCut(c: Config, st: State, s: Bytes, p: nat, flags: nat, payload: Bytes)
    requires Reading(st, 0) && 0x8000_0000 <= flags < TWO32 && 64 < |payload| < 0x100
    requires At(s, p, Wire(FenceMsg(flags, payload)))
    ensures Step(c, st, s, p) == Done(p + 73, st.(session := st.session.(supportsFence := true)),
                                      [ClientFence(flags % 4, payload[..64])], true)
    ensures p + 73 < p + |Wire(FenceMsg(flags, payload))|
  {
    hide U32, Wire, At;
    FenceFields(s, p, flags, payload);
    assert s[p + 9..p + 73] == s[p + 9..p + 9 + |payload|][..64];
    assert Step(c, st, s, p) == Fence(st, s, p);
  }
}
