/** The connected phase of the RFB protocol (sections 7.6 and 7.7 of RFC 6143 and the
    extensions noVNC speaks) as a function of the byte stream: what one step of the
    parser takes from position p of the stream s, and what it does. */
module RfbStream {
  import opened Common
  import opened WebsockModel

  // ---------- Encodings ----------

  const RAW := 0
  const COPY_RECT := 1
  const RRE := 2
  const DESKTOP_SIZE := -223
  const LAST_RECT := -224
  const CURSOR := -239
  const QEMU_EXTENDED_KEY_EVENT := -258
  const QEMU_LED_EVENT := -261
  const DESKTOP_NAME := -307
  const EXTENDED_DESKTOP_SIZE := -308
  const EXTENDED_MOUSE_BUTTONS := -316

  /** Hextile, Zlib, Tight, ZRLE, TightPNG, JPEG, H.264 and the VMware cursor. */
  const FOREIGN_ENCODINGS: set<int> := {5, 6, 7, 16, -260, 21, 50, 0x574d5664}

  // ---------- State and outputs ----------

  datatype Rect = Rect(x: nat, y: nat, width: nat, height: nat)

  /** _FBU, the update being read. */
  datatype Fbu = Fbu(rects: nat, rect: Rect, encoding: Option<int>)

  /** What the session has learned from the server. */
  datatype Session = Session(
    fbWidth: nat, fbHeight: nat, name: Bytes,
    numLock: Option<bool>, capsLock: Option<bool>,
    supportsContinuousUpdates: bool, enabledContinuousUpdates: bool,
    supportsFence: bool, extendedKeys: bool, extendedPointer: bool,
    supportsSetDesktopSize: bool, screenId: nat, screenFlags: nat, xvpVersion: nat)

  /** updates: how many update headers have been read; flushing: the parser pauses until the
      display has drawn all that is queued. */
  datatype State = State(
    fbu: Fbu, lines: nat, subrects: nat, session: Session, failed: bool, updates: nat, flushing: bool)

  /** pending: what the display answers when the header of update number k has been read. */
  datatype Config = Config(viewOnly: bool, depth: nat, pending: nat -> bool)

  /** Events raised, messages sent and drawing calls made, in order. */
  datatype Output =
    | Bell
    | Clipboard(text: Bytes)
    | ClientFence(flags: nat, payload: Bytes)
    | UpdateRequest(width: nat, height: nat)
    | EnableContinuousUpdates(width: nat, height: nat)
    | PowerCapability
    | DesktopName(name: Bytes)
    | Resized(width: nat, height: nat)
    | ResizeAnswered
    | RequestRemoteResize
    | CursorChanged(rect: Rect, pixels: Bytes, mask: Bytes)
    | FillRect(x: nat, y: nat, width: nat, height: nat, color: Bytes)
    | CopyImage(oldX: nat, oldY: nat, rect: Rect)
    | BlitLine(x: nat, y: nat, width: nat, rgba: Bytes)
    | Flip
    | Failed
    | OutsideModel

  predicate Stops(o: Output) { o.Failed? || o.OutsideModel? }

  /** One parsing step: wait for more bytes with nothing changed, or go on at next.
      When ok is false the message loop is left. */
  datatype Parse = More | Done(next: nat, st: State, out: seq<Output>, ok: bool)

  predicate WellFormed(st: State) {
    && (st.fbu.encoding.None? ==> st.lines == 0 && st.subrects == 0)
    && (st.lines > 0 ==> st.fbu.encoding == Some(RAW) && st.fbu.rect.width > 0 && st.lines <= st.fbu.rect.height)
    && (st.subrects > 0 ==> st.fbu.encoding == Some(RRE))
    && (st.fbu.encoding.Some? ==> st.fbu.rects > 0)
    && (st.flushing ==> st.fbu.encoding.None?)
  }

  /** Only the last output of a step can be a failure, and then the state says so. */
  predicate Reports(r: Parse, st: State)
    requires r.Done?
  {
    && (!r.ok ==> r.st.failed || r.st.flushing)
    && (r.ok ==> r.st.flushing == st.flushing)
    && (r.st.failed ==> st.failed || (r.out != [] && Stops(r.out[|r.out| - 1])))
    && (r.st.failed ==> forall k :: 0 <= k < |r.out| - 1 ==> !Stops(r.out[k]))
    && (!r.st.failed ==> !st.failed && forall o <- r.out :: !Stops(o))
  }

  predicate Sane(r: Parse, st: State, s: Bytes, p: nat) {
    r.Done? ==>
      && p <= r.next <= |s|
      && WellFormed(r.st)
      && (r.next == p && r.ok ==> Rank(r.st) < Rank(st))
      && (r.st.flushing ==> st.flushing || (r.next > p && r.out == [] && !r.ok && r.st.failed == st.failed))
      && Reports(r, st)
  }

  /** The decoders save how much of a rectangle is left. */
  predicate Finished(st: State) { st.lines == 0 && st.subrects == 0 }

  predicate BodySane(r: Parse, st: State, s: Bytes, p: nat) {
    r.Done? ==>
      && p <= r.next <= |s|
      && WellFormed(r.st)
      && r.st.fbu.encoding == st.fbu.encoding
      && 0 < r.st.fbu.rects <= st.fbu.rects
      && (r.next == p && r.ok ==> Finished(r.st) || Rank(r.st) < Rank(st))
      && (r.ok ==> r.st.failed == st.failed && forall o <- r.out :: !Stops(o))
      && (!r.ok ==> r.st.failed)
      && Reports(r, st)
  }

  /** Steps that take no bytes lower this rank. */
  function Rank(st: State): nat {
    if st.fbu.encoding.None? then 0 else if st.lines > 0 then 1 else 2
  }

  // ---------- Ends of things ----------

  function NextRequest(f: Session): seq<Output> {
    if f.enabledContinuousUpdates then [] else [UpdateRequest(f.fbWidth, f.fbHeight)]
  }

  function UpdateDone(f: Session): seq<Output> { [Flip] + NextRequest(f) }

  /** The body of a rectangle has been read: one rectangle less to go. */
  function EndRect(r: Parse): Parse
    requires r.Done? && r.st.fbu.rects > 0
  {
    var left := r.st.fbu.rects - 1;
    var st' := r.st.(fbu := r.st.fbu.(rects := left, encoding := None));
    Done(r.next, st', r.out + if left == 0 then UpdateDone(st'.session) else [], true)
  }

  function Fail(st: State, next: nat, ok: bool): Parse {
    Done(next, st.(failed := true), [Failed], ok)
  }

  function Unmodelled(st: State, next: nat): Parse {
    Done(next, st.(failed := true), [OutsideModel], false)
  }

  function ResizeTo(f: Session, width: nat, height: nat): Session {
    f.(fbWidth := width, fbHeight := height)
  }

  function ResizeOutput(f: Session, width: nat, height: nat): seq<Output> {
    [Resized(width, height)] + if f.enabledContinuousUpdates then [EnableContinuousUpdates(width, height)] else []
  }

  // ---------- Messages: p is the position of the type byte ----------

  function CutText(c: Config, st: State, s: Bytes, p: nat): Parse {
    if |s| < p + 8 then More
    else
      var length := ToInt32(U32(s, p + 4));
      if |s| < p + 8 + Abs(length) then More
      else if length < 0 then Unmodelled(st, p + 8)
      else Done(p + 8 + length, st, if c.viewOnly then [] else [Clipboard(s[p + 8..p + 8 + length])], true)
  }

  function Abs(n: int): nat { if n < 0 then -n else n }

  function Fence(st: State, s: Bytes, p: nat): Parse {
    if |s| < p + 9 || |s| < p + 9 + s[p + 8] then More
    else
      var flags := U32(s, p + 4);
      var length := Min(s[p + 8], 64);
      var st' := st.(session := st.session.(supportsFence := true));
      if flags < 0x8000_0000 then Fail(st', p + 9 + length, false)
      else Done(p + 9 + length, st', [ClientFence(flags % 4, s[p + 9..p + 9 + length])], true)
  }

  function Xvp(st: State, s: Bytes, p: nat): Parse {
    if |s| < p + 4 then More
    else if s[p + 3] == 0 then Done(p + 4, st, [], true)
    else if s[p + 3] == 1 then
      Done(p + 4, st.(session := st.session.(xvpVersion := s[p + 2])), [PowerCapability], true)
    else Fail(st, p + 4, true)
  }

  function EndOfContinuousUpdates(st: State, p: nat): Parse {
    var first := !st.session.supportsContinuousUpdates;
    var f := st.session.(supportsContinuousUpdates := true, enabledContinuousUpdates := first);
    Done(p + 1, st.(session := f), if first then [EnableContinuousUpdates(f.fbWidth, f.fbHeight)] else [], true)
  }

  /** With drawing still queued the parser pauses here. An update without rectangles is then over
      without its end: neither the flip nor the next request is made up for. */
  function UpdateHeader(c: Config, st: State, s: Bytes, p: nat): Parse {
    if |s| < p + 4 then More
    else
      var rects := U16(s, p + 2);
      var st' := st.(fbu := st.fbu.(rects := rects), updates := st.updates + 1);
      if c.pending(st.updates) then Done(p + 4, st'.(flushing := true), [], false)
      else Done(p + 4, st', if rects == 0 then UpdateDone(st.session) else [], true)
  }

  function Message(c: Config, st: State, s: Bytes, p: nat): (r: Parse)
    requires p < |s| && WellFormed(st) && st.fbu.rects == 0
    ensures Sane(r, st, s, p)
  {
    match s[p]
    case 0 => UpdateHeader(c, st, s, p)
    case 1 => Fail(st, p + 1, false)
    case 2 => Done(p + 1, st, [Bell], true)
    case 3 => CutText(c, st, s, p)
    case 150 => EndOfContinuousUpdates(st, p)
    case 248 => Fence(st, s, p)
    case 250 => Xvp(st, s, p)
    case _ => Fail(st, p + 1, true)
  }

  // ---------- Rectangles ----------

  function RectHeader(st: State, s: Bytes, p: nat): Parse {
    if |s| < p + 12 then More
    else
      var rect := Rect(U16(s, p), U16(s, p + 2), U16(s, p + 4), U16(s, p + 6));
      var encoding := ToInt32(U32(s, p + 8));
      Done(p + 12, st.(fbu := st.fbu.(rect := rect, encoding := Some(encoding))), [], true)
  }

  function NameRect(st: State, s: Bytes, p: nat): (r: Parse)
    requires p <= |s| && WellFormed(st) && st.fbu.encoding.Some?
    ensures BodySane(r, st, s, p)
  {
    if |s| < p + 4 || |s| < p + 4 + U32(s, p) then More
    else
      var name := s[p + 4..p + 4 + U32(s, p)];
      Done(p + 4 + |name|, st.(session := st.session.(name := name)), [DesktopName(name)], true)
  }

  function LedRect(st: State, s: Bytes, p: nat): (r: Parse)
    requires p <= |s| && WellFormed(st) && st.fbu.encoding.Some?
    ensures BodySane(r, st, s, p)
  {
    if |s| < p + 1 then More
    else
      var f := st.session.(numLock := Some(s[p] / 2 % 2 == 1), capsLock := Some(s[p] / 4 % 2 == 1));
      Done(p + 1, st.(session := f), [], true)
  }

  function ExtendedSizeOutput(f: Session, rect: Rect, first: bool): (out: seq<Output>)
    ensures forall o <- out :: !Stops(o)
  {
    var answered := if rect.x == 1 then [ResizeAnswered] else [];
    var resized := if rect.x == 1 && rect.y != 0 then [] else ResizeOutput(f, rect.width, rect.height);
    var asked := if first then [RequestRemoteResize] else [];
    var again := if rect.x == 1 && rect.y == 0 then [RequestRemoteResize] else [];
    answered + resized + (asked + again)
  }

  function ExtendedSizeRect(st: State, s: Bytes, p: nat): (r: Parse)
    requires p <= |s| && WellFormed(st) && st.fbu.encoding.Some?
    ensures BodySane(r, st, s, p)
  {
    if |s| < p + 4 || |s| < p + 4 + s[p] as nat * 16 then More
    else
      var rect := st.fbu.rect;
      var first := !st.session.supportsSetDesktopSize;
      var refused := rect.x == 1 && rect.y != 0;
      var f1 := st.session.(supportsSetDesktopSize := true);
      var f2 := if s[p] == 0 then f1 else f1.(screenId := U32(s, p + 4), screenFlags := U32(s, p + 16));
      var f3 := if refused then f2 else ResizeTo(f2, rect.width, rect.height);
      Done(p + 4 + s[p] as nat * 16, st.(session := f3), ExtendedSizeOutput(f2, rect, first), true)
  }

  function CursorPixels(r: Rect): nat { r.width * r.height * 4 }

  function CursorMask(r: Rect): nat { (r.width + 7) / 8 * r.height }

  function CursorRect(st: State, s: Bytes, p: nat): (r: Parse)
    requires p <= |s| && WellFormed(st) && st.fbu.encoding == Some(CURSOR)
    ensures BodySane(r, st, s, p)
  {
    var middle := p + CursorPixels(st.fbu.rect);
    var end := middle + CursorMask(st.fbu.rect);
    if |s| < end then More else Done(end, st, [CursorChanged(st.fbu.rect, s[p..middle], s[middle..end])], true)
  }

  function CopyRect(st: State, s: Bytes, p: nat): (r: Parse)
    requires p <= |s| && WellFormed(st) && st.fbu.encoding.Some?
    ensures BodySane(r, st, s, p)
  {
    if |s| < p + 4 then More
    else if st.fbu.rect.width == 0 || st.fbu.rect.height == 0 then Done(p + 4, st, [], true)
    else Done(p + 4, st, [CopyImage(U16(s, p), U16(s, p + 2), st.fbu.rect)], true)
  }

  /** Field k of a pixel in one byte: two bits a colour, scaled to 255, then opaque. */
  function Shade(pixel: Byte, k: nat): Byte {
    if k == 0 then pixel % 4 * 85
    else if k == 1 then pixel / 4 % 4 * 85
    else if k == 2 then pixel / 16 % 4 * 85
    else 255
  }

  /** A line of pixels in the layout ImageData wants, made opaque. */
  function Rgba(line: Bytes, depth: nat): Bytes {
    if depth == 8 then
      seq(4 * |line|, k requires 0 <= k < 4 * |line| => Shade(line[k / 4], k % 4))
    else
      seq(|line|, k requires 0 <= k < |line| => if k % 4 == 3 then 255 else line[k])
  }

  function LineLength(c: Config, r: Rect): (length: nat)
    ensures r.width > 0 ==> length > 0
  {
    if c.depth == 8 then r.width else 4 * r.width
  }

  /** Raw pixels arrive line by line; the number of lines to go is saved between calls. */
  function RawRect(c: Config, st: State, s: Bytes, p: nat): (r: Parse)
    requires p <= |s| && WellFormed(st) && st.fbu.encoding == Some(RAW)
    ensures BodySane(r, st, s, p)
  {
    var rect := st.fbu.rect;
    var lineLength := LineLength(c, rect);
    if rect.width == 0 || rect.height == 0 then Done(p, st, [], true)
    else if st.lines == 0 then Done(p, st.(lines := rect.height), [], true)
    else if |s| < p + lineLength then More
    else
      var out := [BlitLine(rect.x, rect.y + (rect.height - st.lines), rect.width, Rgba(s[p..p + lineLength], c.depth))];
      Done(p + lineLength, st.(lines := st.lines - 1), out, true)
  }

  function RreRect(st: State, s: Bytes, p: nat): (r: Parse)
    requires p <= |s| && WellFormed(st) && st.fbu.encoding == Some(RRE)
    ensures BodySane(r, st, s, p)
  {
    var rect := st.fbu.rect;
    if st.subrects == 0 then
      if |s| < p + 8 then More
      else
        var out := [FillRect(rect.x, rect.y, rect.width, rect.height, s[p + 4..p + 8])];
        Done(p + 8, st.(subrects := U32(s, p)), out, true)
    else if |s| < p + 12 then More
    else
      var out := [FillRect(rect.x + U16(s, p + 4), rect.y + U16(s, p + 6), U16(s, p + 8), U16(s, p + 10), s[p..p + 4])];
      Done(p + 12, st.(subrects := st.subrects - 1), out, true)
  }

  function DataRect(c: Config, st: State, s: Bytes, p: nat): (r: Parse)
    requires p <= |s| && WellFormed(st) && st.fbu.encoding.Some?
    ensures BodySane(r, st, s, p)
  {
    var e := st.fbu.encoding.value;
    if e == RAW then RawRect(c, st, s, p)
    else if e == COPY_RECT then CopyRect(st, s, p)
    else if e == RRE then RreRect(st, s, p)
    else if e in FOREIGN_ENCODINGS then Unmodelled(st, p)
    else Fail(st, p, false)
  }

  function RectBody(c: Config, st: State, s: Bytes, p: nat): (r: Parse)
    requires p <= |s| && WellFormed(st) && st.fbu.encoding.Some?
    ensures BodySane(r, st, s, p)
  {
    var e := st.fbu.encoding.value;
    var rect := st.fbu.rect;
    if e == LAST_RECT then Done(p, st.(fbu := st.fbu.(rects := 1)), [], true)
    else if e == CURSOR then CursorRect(st, s, p)
    else if e == QEMU_EXTENDED_KEY_EVENT then Done(p, st.(session := st.session.(extendedKeys := true)), [], true)
    else if e == DESKTOP_NAME then NameRect(st, s, p)
    else if e == DESKTOP_SIZE then
      Done(p, st.(session := ResizeTo(st.session, rect.width, rect.height)),
           ResizeOutput(st.session, rect.width, rect.height), true)
    else if e == EXTENDED_DESKTOP_SIZE then ExtendedSizeRect(st, s, p)
    else if e == EXTENDED_MOUSE_BUTTONS then Done(p, st.(session := st.session.(extendedPointer := true)), [], true)
    else if e == QEMU_LED_EVENT then LedRect(st, s, p)
    else DataRect(c, st, s, p)
  }

  function CloseRect(r: Parse, st: State, s: Bytes, p: nat): (closed: Parse)
    requires st.fbu.encoding.Some? && BodySane(r, st, s, p)
    ensures Sane(closed, st, s, p)
  {
    if r.Done? && r.ok && Finished(r.st) then EndRect(r) else r
  }

  function Step(c: Config, st: State, s: Bytes, p: nat): (r: Parse)
    requires p <= |s| && WellFormed(st) && !st.flushing
    ensures Sane(r, st, s, p)
  {
    hide Message, RectBody, CloseRect;
    if st.fbu.rects == 0 then
      if p == |s| then More else Message(c, st, s, p)
    else if st.fbu.encoding.None? then RectHeader(st, s, p)
    else CloseRect(RectBody(c, st, s, p), st, s, p)
  }

  // ---------- Runs ----------

  datatype Run = Run(st: State, pos: nat, out: seq<Output>)

  function Prepend(out: seq<Output>, r: Run): Run { r.(out := out + r.out) }

  /** The message loop of _handleMessage on all that has arrived. */
  function Handle(c: Config, st: State, s: Bytes, p: nat): (r: Run)
    requires p <= |s| && WellFormed(st)
    ensures p <= r.pos <= |s| && WellFormed(r.st)
    decreases |s| - p, Rank(st)
  {
    if st.flushing then Run(st, p, [])
    else
      match Step(c, st, s, p)
      case More => Run(st, p, [])
      case Done(next, st', out, ok) =>
        if ok then Prepend(out, Handle(c, st', s, next)) else Run(st', next, out)
  }

  /** What happens to the parser: the network delivers bytes, or the flush it waits for is done. */
  datatype Event = Chunk(data: Bytes) | Flushed

  function Brings(event: Event): Bytes { if event.Chunk? then event.data else [] }

  function Data(events: seq<Event>): Bytes {
    if events == [] then [] else Brings(events[0]) + Data(events[1..])
  }

  function Resumed(st: State): State { st.(flushing := false) }

  /** One event, with all bytes up to now; a flush ends a pause, and what has arrived meanwhile is
      handled. */
  function React(c: Config, st: State, s: Bytes, p: nat, event: Event): (r: Run)
    requires p <= |s| && WellFormed(st)
    ensures p <= r.pos <= |s| && WellFormed(r.st)
  {
    if event.Chunk? then
      if st.failed then Run(st, p, []) else Handle(c, st, s, p)
    else if !st.flushing then Run(st, p, [])
    else if st.failed || p == |s| then Run(Resumed(st), p, [])
    else Handle(c, Resumed(st), s, p)
  }

  function Deliver(c: Config, st: State, s: Bytes, p: nat, events: seq<Event>): (r: Run)
    requires p <= |s| && WellFormed(st)
    ensures p <= r.pos <= |s| + |Data(events)| && WellFormed(r.st)
    decreases |events|
  {
    if events == [] then Run(st, p, [])
    else
      var s' := s + Brings(events[0]);
      var r := React(c, st, s', p, events[0]);
      Prepend(r.out, Deliver(c, r.st, s', r.pos, events[1..]))
  }

  /** Outputs up to and including the first failure. */
  function UpToFailure(out: seq<Output>): seq<Output> {
    if out == [] then [] else if Stops(out[0]) then [out[0]] else [out[0]] + UpToFailure(out[1..])
  }
}
