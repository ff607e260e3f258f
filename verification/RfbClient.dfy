/** The message handlers of rfb.js as they are written, with early returns that go back in
    the receive queue, proved against the stream functions of RfbStream. */
module RfbClientModel {
  import opened Common
  import opened WebsockModel
  import opened RfbStream
  import opened RfbChunking

  /** What is left to do once the body of a rectangle has been read. */
  function AfterRect(c: Config, st: State, s: Bytes, p: nat): Run
    requires p <= |s| && WellFormed(st) && st.fbu.rects > 0 && Finished(st)
  {
    var e := EndRect(Done(p, st, [], true));
    Prepend(e.out, Handle(c, e.st, s, p))
  }

  lemma StepOfBody(c: Config, st: State, s: Bytes, p: nat)
    requires p <= |s| && WellFormed(st) && st.fbu.encoding.Some?
    ensures Step(c, st, s, p) == CloseRect(RectBody(c, st, s, p), st, s, p)
  {
    hide RectBody;
  }

  lemma LastStepOfBody(c: Config, st: State, s: Bytes, p: nat)
    requires p <= |s| && WellFormed(st) && st.fbu.encoding.Some?
    requires var r := RectBody(c, st, s, p); r.Done? && r.ok && Finished(r.st)
    ensures var r := RectBody(c, st, s, p);
            var e := EndRect(Done(r.next, r.st, [], true));
            e.Done? && e.ok && e.next == r.next && Step(c, st, s, p) == e.(out := r.out + e.out)
  {
    hide RectBody;
    StepOfBody(c, st, s, p);
    var r := RectBody(c, st, s, p);
    assert [] + EndRect(Done(r.next, r.st, [], true)).out == EndRect(Done(r.next, r.st, [], true)).out;
  }

  /** The body has been read: what follows is the end of the rectangle and the rest of the run. */
  lemma BodyEnds(c: Config, st: State, s: Bytes, p: nat, out: seq<Output>)
    requires p <= |s| && WellFormed(st) && st.fbu.encoding.Some?
    requires var r := RectBody(c, st, s, p); r.Done? && r.ok && Finished(r.st)
    ensures var r := RectBody(c, st, s, p);
            Prepend(out, Handle(c, st, s, p)) == Prepend(out + r.out, AfterRect(c, r.st, s, r.next))
  {
    hide RectBody, Step, EndRect;
    LastStepOfBody(c, st, s, p);
    var r := RectBody(c, st, s, p);
    var e := EndRect(Done(r.next, r.st, [], true));
    var rest := Handle(c, e.st, s, r.next).out;
    assert out + ((r.out + e.out) + rest) == (out + r.out) + (e.out + rest);
  }

  class RfbClient {
    const config: Config
    const sock: Websock

    var fbu: Fbu
    /** RawDecoder._lines and RREDecoder._subrects */
    var lines: nat
    var subrects: nat
    var session: Session
    /** The connection has left the connected state after _fail. */
    var failed: bool
    /** The number of update headers read, and whether the parser waits for the display. */
    var updates: nat
    var flushing: bool

    /** Events raised, messages sent and drawing calls made. */
    var out: seq<Output>

    constructor (config: Config, sock: Websock, session: Session)
      requires sock.Valid()
      ensures Valid() && this.config == config && this.sock == sock && out == []
      ensures St() == State(Fbu(0, Rect(0, 0, 0, 0), None), 0, 0, session, false, 0, false)
    {
      this.config, this.sock, this.session := config, sock, session;
      fbu, lines, subrects := Fbu(0, Rect(0, 0, 0, 0), None), 0, 0;
      failed, updates, flushing, out := false, 0, false, [];
    }

    ghost function St(): State
      reads this
    {
      State(fbu, lines, subrects, session, failed, updates, flushing)
    }

    ghost predicate Valid()
      reads this, sock, sock.rQ
    {
      sock.ValidRecv() && WellFormed(St())
    }

    /** The handler did what the stream function r says, starting from st0 at p0 with out0. */
    ghost predicate Did(r: Parse, ret: bool, p0: nat, st0: State, out0: seq<Output>)
      reads this, sock
    {
      match r
      case More => !ret && sock.Pos() == p0 && St() == st0 && out == out0
      case Done(next, st, o, ok) => ret == ok && sock.Pos() == next && St() == st && out == out0 + o
    }

    /** Handling everything from position p on makes the whole run goal. */
    ghost predicate On(goal: Run, p: nat)
      reads this, sock
      requires p <= |sock.stream| && WellFormed(St())
    {
      Prepend(out, Handle(config, St(), sock.stream, p)) == goal
    }

    ghost predicate OnAfterRect(goal: Run)
      reads this, sock
      requires sock.Pos() <= |sock.stream| && WellFormed(St()) && fbu.rects > 0 && Finished(St())
    {
      Prepend(out, AfterRect(config, St(), sock.stream, sock.Pos())) == goal
    }

    ghost predicate Stopped(goal: Run)
      reads this, sock
    {
      Run(St(), sock.Pos(), out) == goal
    }

    method Emit(o: Output)
      modifies `out
      ensures out == old(out) + [o]
    {
      out := out + [o];
    }

    method Fail()
      modifies `failed, `out
      ensures failed && out == old(out) + [Failed]
    {
      failed := true;
      Emit(Failed);
    }

    /** The point where the source goes on into code that is not modelled. */
    method LeaveModel()
      modifies `failed, `out
      ensures failed && out == old(out) + [OutsideModel]
    {
      failed := true;
      Emit(OutsideModel);
    }

    // ---------- Messages: the type byte has just been read ----------

    method HandleServerCutText() returns (ret: bool)
      requires Valid() && sock.rQi >= 1
      modifies `failed, `out, sock`rQi
      ensures sock.ValidRecv()
      ensures Did(CutText(config, old(St()), sock.stream, old(sock.Pos()) - 1), ret,
                  old(sock.Pos()) - 1, old(St()), old(out))
    {
      hide Websock.ValidRecv, ToInt32;
      var wait := sock.Wait(7, 1);
      if wait { return false; }
      sock.RQskipBytes(3);
      var length := sock.RQshift32();
      ret := CutTextContent(ToInt32(length));
    }

    method CutTextContent(length: int) returns (ret: bool)
      requires Valid() && sock.rQi >= 8 && length == ToInt32(U32(sock.stream, sock.Pos() - 4))
      modifies `failed, `out, sock`rQi
      ensures sock.ValidRecv()
      ensures Did(CutText(config, old(St()), sock.stream, old(sock.Pos()) - 8), ret,
                  old(sock.Pos()) - 8, old(St()), old(out))
    {
      hide Websock.ValidRecv, ToInt32, U32;
      ghost var s, start := sock.stream, sock.Pos();
      var wait := sock.Wait(RfbStream.Abs(length), 8);
      if wait { return false; }
      if length < 0 {
        LeaveModel();
        return false;
      }
      var text := sock.RQshiftStr(length);
      assert text == s[start..start + length];
      if config.viewOnly { return true; }
      Emit(Clipboard(text));
      return true;
    }

    method HandleServerFenceMsg() returns (ret: bool)
      requires Valid() && sock.rQi >= 1
      modifies `failed, `out, `session, sock`rQi
      ensures sock.ValidRecv()
      ensures Did(Fence(old(St()), sock.stream, old(sock.Pos()) - 1), ret,
                  old(sock.Pos()) - 1, old(St()), old(out))
    {
      hide Websock.ValidRecv;
      var wait := sock.Wait(8, 1);
      if wait { return false; }
      sock.RQskipBytes(3);
      var flags := sock.RQshift32();
      var length := sock.RQshift8();
      ret := FencePayload(flags, length);
    }

    method FencePayload(flags: nat, size: Byte) returns (ret: bool)
      requires Valid() && sock.rQi >= 9
      requires flags == U32(sock.stream, sock.Pos() - 5) && size == sock.stream[sock.Pos() - 1]
      modifies `failed, `out, `session, sock`rQi
      ensures sock.ValidRecv()
      ensures Did(Fence(old(St()), sock.stream, old(sock.Pos()) - 9), ret,
                  old(sock.Pos()) - 9, old(St()), old(out))
    {
      hide Websock.ValidRecv, U32;
      ghost var s, start := sock.stream, sock.Pos();
      var length: int := size;
      var wait := sock.Wait(length, 9);
      if wait { return false; }
      if length > 64 {
        length := 64;
      }
      var payload := sock.RQshiftStr(length);
      assert payload == s[start..start + length];
      session := session.(supportsFence := true);
      if flags < 0x8000_0000 {
        Fail();
        return false;
      }
      Emit(ClientFence(flags % 4, payload));
      return true;
    }

    method HandleXvpMsg() returns (ret: bool)
      requires Valid() && sock.rQi >= 1
      modifies `failed, `out, `session, sock`rQi
      ensures sock.ValidRecv()
      ensures Did(Xvp(old(St()), sock.stream, old(sock.Pos()) - 1), ret,
                  old(sock.Pos()) - 1, old(St()), old(out))
    {
      hide Websock.ValidRecv;
      var wait := sock.Wait(3, 1);
      if wait { return false; }
      sock.RQskipBytes(1);
      var xvpVer := sock.RQshift8();
      var xvpMsg := sock.RQshift8();
      if xvpMsg == 1 {
        session := session.(xvpVersion := xvpVer);
        Emit(PowerCapability);
      } else if xvpMsg != 0 {
        Fail();
      }
      return true;
    }

    method HandleEndOfContinuousUpdates()
      requires Valid() && sock.rQi >= 1
      modifies `out, `session
      ensures sock.ValidRecv()
      ensures Did(EndOfContinuousUpdates(old(St()), sock.Pos() - 1), true,
                  sock.Pos() - 1, old(St()), old(out))
    {
      var first := !session.supportsContinuousUpdates;
      session := session.(supportsContinuousUpdates := true, enabledContinuousUpdates := false);
      if first {
        session := session.(enabledContinuousUpdates := true);
        UpdateContinuousUpdates();
      }
    }

    method UpdateContinuousUpdates()
      modifies `out
      ensures out == old(out) + if session.enabledContinuousUpdates
                                then [EnableContinuousUpdates(session.fbWidth, session.fbHeight)] else []
    {
      if session.enabledContinuousUpdates {
        Emit(EnableContinuousUpdates(session.fbWidth, session.fbHeight));
      }
    }

    method Resize(width: nat, height: nat)
      modifies `session, `out
      ensures session == ResizeTo(old(session), width, height)
      ensures out == old(out) + ResizeOutput(old(session), width, height)
    {
      session := session.(fbWidth := width, fbHeight := height);
      Emit(Resized(width, height));
      UpdateContinuousUpdates();
    }

    // ---------- Rectangles ----------

    method HandleDesktopName() returns (ret: bool)
      requires Valid() && fbu.encoding == Some(DESKTOP_NAME)
      modifies `out, `session, sock`rQi
      ensures Valid()
      ensures Did(NameRect(old(St()), sock.stream, old(sock.Pos())), ret, old(sock.Pos()), old(St()), old(out))
    {
      hide Websock.ValidRecv, U32;
      var wait := sock.Wait(4, 0);
      if wait { return false; }
      var length := sock.RQshift32();
      wait := sock.Wait(length, 4);
      if wait { return false; }
      var name := sock.RQshiftStr(length);
      session := session.(name := name);
      Emit(DesktopName(name));
      return true;
    }

    method HandleLedEvent() returns (ret: bool)
      requires Valid() && fbu.encoding == Some(QEMU_LED_EVENT)
      modifies `session, sock`rQi
      ensures Valid()
      ensures Did(LedRect(old(St()), sock.stream, old(sock.Pos())), ret, old(sock.Pos()), old(St()), old(out))
    {
      hide Websock.ValidRecv;
      var wait := sock.Wait(1, 0);
      if wait { return false; }
      var data := sock.RQshift8();
      session := session.(numLock := Some(data / 2 % 2 == 1), capsLock := Some(data / 4 % 2 == 1));
      return true;
    }

    method HandleCursor() returns (ret: bool)
      requires Valid() && fbu.encoding == Some(CURSOR)
      modifies `out, sock`rQi
      ensures Valid()
      ensures Did(CursorRect(old(St()), sock.stream, old(sock.Pos())), ret, old(sock.Pos()), old(St()), old(out))
    {
      hide Websock.ValidRecv, CursorPixels, CursorMask;
      var pixelsLength := CursorPixels(fbu.rect);
      var maskLength := CursorMask(fbu.rect);
      var wait := sock.Wait(pixelsLength + maskLength, 0);
      if wait { return false; }
      var pixels := sock.RQshiftBytes(pixelsLength);
      var mask := sock.RQshiftBytes(maskLength);
      Emit(CursorChanged(fbu.rect, pixels, mask));
      return true;
    }

    method HandleExtendedDesktopSize() returns (ret: bool)
      requires Valid() && fbu.encoding == Some(EXTENDED_DESKTOP_SIZE)
      modifies `out, `session, sock`rQi
      ensures Valid()
      ensures Did(ExtendedSizeRect(old(St()), sock.stream, old(sock.Pos())), ret, old(sock.Pos()), old(St()), old(out))
    {
      hide Websock.ValidRecv;
      var wait := sock.Wait(4, 0);
      if wait { return false; }
      var numberOfScreens: int := sock.RQpeek8();
      wait := sock.Wait(4 + numberOfScreens * 16, 0);
      if wait { return false; }
      var firstUpdate := !session.supportsSetDesktopSize;
      ReadScreens(numberOfScreens);
      ApplyDesktopSize(firstUpdate);
      return true;
    }

    method ApplyDesktopSize(firstUpdate: bool)
      modifies `out, `session
      ensures out == old(out) + ExtendedSizeOutput(old(session), fbu.rect, firstUpdate)
      ensures session == if fbu.rect.x == 1 && fbu.rect.y != 0 then old(session)
                         else ResizeTo(old(session), fbu.rect.width, fbu.rect.height)
    {
      hide ResizeOutput;
      if fbu.rect.x == 1 {
        Emit(ResizeAnswered);
      }
      if !(fbu.rect.x == 1 && fbu.rect.y != 0) {
        Resize(fbu.rect.width, fbu.rect.height);
      }
      if firstUpdate {
        Emit(RequestRemoteResize);
      }
      if fbu.rect.x == 1 && fbu.rect.y == 0 {
        Emit(RequestRemoteResize);
      }
    }

    /** The id and flags of the first screen are kept, the others are skipped. */
    method ReadScreens(numberOfScreens: nat)
      requires sock.ValidRecv() && sock.rQi + 4 + numberOfScreens * 16 <= sock.rQlen
      modifies `session, sock`rQi
      ensures sock.ValidRecv() && sock.rQi == old(sock.rQi) + 4 + numberOfScreens * 16
      ensures var f := old(session).(supportsSetDesktopSize := true);
              session == if numberOfScreens == 0 then f
                         else f.(screenId := U32(sock.stream, old(sock.Pos()) + 4),
                                 screenFlags := U32(sock.stream, old(sock.Pos()) + 16))
    {
      hide Websock.ValidRecv;
      session := session.(supportsSetDesktopSize := true);
      sock.RQskipBytes(1);
      sock.RQskipBytes(3);
      var i := 0;
      while i < numberOfScreens
        invariant i <= numberOfScreens
        invariant sock.ValidRecv() && sock.rQi == old(sock.rQi) + 4 + i * 16
        invariant session == if i == 0 then old(session).(supportsSetDesktopSize := true)
                             else old(session).(supportsSetDesktopSize := true,
                                                screenId := U32(sock.stream, old(sock.Pos()) + 4),
                                                screenFlags := U32(sock.stream, old(sock.Pos()) + 16))
      {
        if i == 0 {
          var id := sock.RQshift32();
          sock.RQskipBytes(8);
          var flags := sock.RQshift32();
          session := session.(screenId := id, screenFlags := flags);
        } else {
          sock.RQskipBytes(16);
        }
        i := i + 1;
      }
    }

    method DecodeCopyRect() returns (ret: bool)
      requires Valid() && fbu.encoding == Some(COPY_RECT)
      modifies `out, sock`rQi
      ensures Valid()
      ensures Did(CopyRect(old(St()), sock.stream, old(sock.Pos())), ret, old(sock.Pos()), old(St()), old(out))
    {
      hide Websock.ValidRecv;
      var wait := sock.Wait(4, 0);
      if wait { return false; }
      var deltaX := sock.RQshift16();
      var deltaY := sock.RQshift16();
      if fbu.rect.width == 0 || fbu.rect.height == 0 {
        return true;
      }
      Emit(CopyImage(deltaX, deltaY, fbu.rect));
      return true;
    }

    /** One turn of the loops below: a step that succeeded leaves the run on course. */
    lemma StepOn(goal: Run, st0: State, p0: nat, out0: seq<Output>, ret: bool)
      requires Valid() && p0 <= |sock.stream| && WellFormed(st0) && !st0.flushing
      requires Prepend(out0, Handle(config, st0, sock.stream, p0)) == goal
      requires Did(Step(config, st0, sock.stream, p0), ret, p0, st0, out0)
      ensures if ret then On(goal, sock.Pos()) else Stopped(goal)
    {
      hide Step, Websock.ValidRecv;
      var r := Step(config, st0, sock.stream, p0);
      if ret {
        assert out0 + (r.out + Handle(config, r.st, sock.stream, r.next).out)
            == out + Handle(config, r.st, sock.stream, r.next).out;
      } else if r.More? {
        assert out0 + [] == out0;
      }
    }

    lemma BodyOn(goal: Run, st0: State, p0: nat, out0: seq<Output>, ret: bool)
      requires Valid() && p0 <= |sock.stream| && WellFormed(st0) && st0.fbu.encoding.Some?
      requires Prepend(out0, Handle(config, st0, sock.stream, p0)) == goal
      requires Did(RectBody(config, st0, sock.stream, p0), ret, p0, st0, out0)
      ensures !ret ==> Stopped(goal)
      ensures ret ==> fbu.rects > 0 && (if Finished(St()) then OnAfterRect(goal) else On(goal, sock.Pos()))
    {
      hide RectBody, Websock.ValidRecv, Handle, EndRect;
      var r := RectBody(config, st0, sock.stream, p0);
      StepOfBody(config, st0, sock.stream, p0);
      if ret && Finished(St()) {
        BodyEnds(config, st0, sock.stream, p0, out0);
      } else {
        StepOn(goal, st0, p0, out0, ret);
      }
    }

    method DecodeRaw(ghost goal: Run) returns (ret: bool)
      requires Valid() && fbu.encoding == Some(RAW) && On(goal, sock.Pos())
      modifies `lines, `out, sock`rQi
      ensures Valid() && (ret ==> sock.rQi >= old(sock.rQi))
      ensures if ret then fbu.rects > 0 && Finished(St()) && OnAfterRect(goal) else Stopped(goal)
    {
      hide Websock.ValidRecv, Handle;
      var rect := fbu.rect;
      ghost var st0, p0, out0 := St(), sock.Pos(), out;
      if rect.width == 0 || rect.height == 0 {
        BodyOn(goal, st0, p0, out0, true);
        return true;
      }
      if lines == 0 {
        lines := rect.height;
        assert out0 + [] == out0;
        BodyOn(goal, st0, p0, out0, true);
      }
      while lines > 0
        invariant Valid() && lines <= rect.height && sock.rQi >= old(sock.rQi)
        invariant if lines > 0 then On(goal, sock.Pos()) else fbu.rects > 0 && Finished(St()) && OnAfterRect(goal)
      {
        ret := DecodeLine(goal);
        if !ret {
          return false;
        }
      }
      return true;
    }

    method DecodeLine(ghost goal: Run) returns (ret: bool)
      requires Valid() && fbu.encoding == Some(RAW) && lines > 0 && On(goal, sock.Pos())
      modifies `lines, `out, sock`rQi
      ensures Valid() && (ret ==> lines == old(lines) - 1 && sock.rQi >= old(sock.rQi))
      ensures if !ret then Stopped(goal)
              else if lines > 0 then On(goal, sock.Pos()) else fbu.rects > 0 && Finished(St()) && OnAfterRect(goal)
    {
      hide Websock.ValidRecv, Handle, Rgba;
      ghost var st0, p0, out0 := St(), sock.Pos(), out;
      var bytesPerLine := LineLength(config, fbu.rect);
      var wait := sock.Wait(bytesPerLine, 0);
      if wait {
        BodyOn(goal, st0, p0, out0, false);
        return false;
      }
      var curY := fbu.rect.y + (fbu.rect.height - lines);
      var data := sock.RQshiftBytes(bytesPerLine);
      var rgba := ImageLine(data, fbu.rect.width, config.depth);
      Emit(BlitLine(fbu.rect.x, curY, fbu.rect.width, rgba));
      lines := lines - 1;
      BodyOn(goal, st0, p0, out0, true);
      return true;
    }

    method DecodeRre(ghost goal: Run) returns (ret: bool)
      requires Valid() && fbu.encoding == Some(RRE) && On(goal, sock.Pos())
      modifies `subrects, `out, sock`rQi
      ensures Valid() && (ret ==> sock.rQi >= old(sock.rQi))
      ensures if ret then fbu.rects > 0 && Finished(St()) && OnAfterRect(goal) else Stopped(goal)
    {
      hide Websock.ValidRecv, Handle;
      var rect := fbu.rect;
      ghost var st0, p0, out0 := St(), sock.Pos(), out;
      if subrects == 0 {
        var wait := sock.Wait(8, 0);
        if wait {
          BodyOn(goal, st0, p0, out0, false);
          return false;
        }
        subrects := sock.RQshift32();
        var color := sock.RQshiftBytes(4);
        Emit(FillRect(rect.x, rect.y, rect.width, rect.height, color));
        BodyOn(goal, st0, p0, out0, true);
      }
      while subrects > 0
        invariant Valid() && sock.rQi >= old(sock.rQi)
        invariant if subrects > 0 then On(goal, sock.Pos()) else fbu.rects > 0 && Finished(St()) && OnAfterRect(goal)
      {
        ret := DecodeSubrect(goal);
        if !ret {
          return false;
        }
      }
      return true;
    }

    method DecodeSubrect(ghost goal: Run) returns (ret: bool)
      requires Valid() && fbu.encoding == Some(RRE) && subrects > 0 && On(goal, sock.Pos())
      modifies `subrects, `out, sock`rQi
      ensures Valid() && (ret ==> subrects == old(subrects) - 1 && sock.rQi >= old(sock.rQi))
      ensures if !ret then Stopped(goal)
              else if subrects > 0 then On(goal, sock.Pos())
              else fbu.rects > 0 && Finished(St()) && OnAfterRect(goal)
    {
      hide Websock.ValidRecv, Handle;
      ghost var st0, p0, out0 := St(), sock.Pos(), out;
      var wait := sock.Wait(12, 0);
      if wait {
        BodyOn(goal, st0, p0, out0, false);
        return false;
      }
      var fill := ReadSubrect();
      Emit(fill);
      subrects := subrects - 1;
      BodyOn(goal, st0, p0, out0, true);
      return true;
    }

    method ReadSubrect() returns (fill: Output)
      requires sock.ValidRecv() && sock.rQi + 12 <= sock.rQlen
      modifies sock`rQi
      ensures sock.ValidRecv() && sock.rQi == old(sock.rQi) + 12
      ensures var s, p := sock.stream, old(sock.Pos());
              fill == FillRect(fbu.rect.x + U16(s, p + 4), fbu.rect.y + U16(s, p + 6),
                               U16(s, p + 8), U16(s, p + 10), s[p..p + 4])
    {
      hide Websock.ValidRecv, U16;
      var color := sock.RQshiftBytes(4);
      var sx := sock.RQshift16();
      var sy := sock.RQshift16();
      var swidth := sock.RQshift16();
      var sheight := sock.RQshift16();
      fill := FillRect(fbu.rect.x + sx, fbu.rect.y + sy, swidth, sheight, color);
    }

    method HandleDataRect(ghost goal: Run) returns (ret: bool)
      requires Valid() && fbu.encoding.Some? && On(goal, sock.Pos())
      requires RectBody(config, St(), sock.stream, sock.Pos()) == DataRect(config, St(), sock.stream, sock.Pos())
      modifies `lines, `subrects, `out, `failed, sock`rQi
      ensures Valid() && (ret ==> sock.rQi >= old(sock.rQi))
      ensures if ret then fbu.rects > 0 && Finished(St()) && OnAfterRect(goal) else Stopped(goal)
    {
      hide Websock.ValidRecv, Handle;
      ghost var st0, p0, out0 := St(), sock.Pos(), out;
      var e := fbu.encoding.value;
      if e == RAW {
        ret := DecodeRaw(goal);
      } else if e == COPY_RECT {
        ret := DecodeCopyRect();
        BodyOn(goal, st0, p0, out0, ret);
      } else if e == RRE {
        ret := DecodeRre(goal);
      } else {
        if e in FOREIGN_ENCODINGS {
          LeaveModel();
        } else {
          Fail();
        }
        BodyOn(goal, st0, p0, out0, false);
        return false;
      }
    }

    method HandleRect(ghost goal: Run) returns (ret: bool)
      requires Valid() && fbu.encoding.Some? && On(goal, sock.Pos())
      modifies `fbu, `lines, `subrects, `session, `out, `failed, sock`rQi
      ensures Valid() && 0 < fbu.rects <= old(fbu.rects) && (ret ==> sock.rQi >= old(sock.rQi))
      ensures if ret then Finished(St()) && OnAfterRect(goal) else Stopped(goal)
    {
      hide Websock.ValidRecv, Handle, DataRect, CursorRect, NameRect, ExtendedSizeRect, LedRect;
      ghost var st0, p0, out0 := St(), sock.Pos(), out;
      var e := fbu.encoding.value;
      if e == LAST_RECT {
        fbu := fbu.(rects := 1);
        ret := true;
      } else if e == CURSOR {
        ret := HandleCursor();
      } else if e == QEMU_EXTENDED_KEY_EVENT {
        session := session.(extendedKeys := true);
        ret := true;
      } else if e == DESKTOP_NAME {
        ret := HandleDesktopName();
      } else if e == DESKTOP_SIZE {
        Resize(fbu.rect.width, fbu.rect.height);
        ret := true;
      } else if e == EXTENDED_DESKTOP_SIZE {
        ret := HandleExtendedDesktopSize();
      } else if e == EXTENDED_MOUSE_BUTTONS {
        session := session.(extendedPointer := true);
        ret := true;
      } else if e == QEMU_LED_EVENT {
        ret := HandleLedEvent();
      } else {
        ret := HandleDataRect(goal);
        return;
      }
      BodyOn(goal, st0, p0, out0, ret);
    }

    /** Called with the type byte just read, or in the middle of an update. */
    method FramebufferUpdate(ghost goal: Run) returns (ret: bool)
      requires Valid() && !flushing
      requires fbu.rects == 0 ==> sock.rQi >= 1 && sock.stream[sock.Pos() - 1] == 0
      requires On(goal, if fbu.rects == 0 then sock.Pos() - 1 else sock.Pos())
      modifies `fbu, `lines, `subrects, `session, `out, `failed, `updates, `flushing, sock`rQi
      ensures Valid()
      ensures ret ==> fbu.rects == 0 && !flushing && sock.rQi >= old(sock.rQi)
      ensures ret ==> Prepend(out + NextRequest(session), Handle(config, St(), sock.stream, sock.Pos())) == goal
      ensures !ret ==> Stopped(goal)
    {
      hide Handle, Websock.ValidRecv;
      if fbu.rects == 0 {
        ret := ReadUpdateHeader(goal);
        if !ret {
          return false;
        }
      } else {
        assert out + [] == out;
      }
      while fbu.rects > 0
        invariant Valid() && sock.rQi >= old(sock.rQi)
        invariant Due(goal) && !flushing
      {
        assert out + [] == out;
        ret := ReadRect(goal);
        if !ret {
          return false;
        }
      }
      assert out + UpdateDone(session) == out + [Flip] + NextRequest(session);
      Emit(Flip);
      return true;
    }

    method ReadUpdateHeader(ghost goal: Run) returns (ret: bool)
      requires Valid() && !flushing && fbu.rects == 0 && sock.rQi >= 1 && sock.stream[sock.Pos() - 1] == 0
      requires On(goal, sock.Pos() - 1)
      modifies `fbu, `updates, `flushing, sock`rQi
      ensures Valid() && (ret ==> !flushing && sock.rQi >= old(sock.rQi))
      ensures if ret then Due(goal) else Stopped(goal)
    {
      hide Handle, Websock.ValidRecv;
      ghost var st0, p0 := St(), sock.Pos() - 1;
      var wait := sock.Wait(3, 1);
      if wait {
        StepOn(goal, st0, p0, out, false);
        return false;
      }
      sock.RQskipBytes(1);
      var rects := sock.RQshift16();
      var pending := config.pending(updates);
      fbu, updates := fbu.(rects := rects), updates + 1;
      if pending {
        flushing := true;
        assert out + [] == out;
        StepOn(goal, st0, p0, out, false);
        return false;
      }
      HeaderOn(goal, st0, p0);
      return true;
    }

    /** One rectangle: its header unless that was read before, and its body. */
    method ReadRect(ghost goal: Run) returns (ret: bool)
      requires Valid() && !flushing && fbu.rects > 0 && On(goal, sock.Pos())
      modifies `fbu, `lines, `subrects, `session, `out, `failed, sock`rQi
      ensures Valid()
      ensures if ret then fbu.rects < old(fbu.rects) && sock.rQi >= old(sock.rQi) && Due(goal) else Stopped(goal)
    {
      hide Handle, Websock.ValidRecv;
      if fbu.encoding.None? {
        ret := ReadRectHeader(goal);
        if !ret {
          return false;
        }
      }
      ret := HandleRect(goal);
      if !ret {
        return false;
      }
      fbu := fbu.(rects := fbu.rects - 1, encoding := None);
    }

    method ReadRectHeader(ghost goal: Run) returns (ret: bool)
      requires Valid() && !flushing && fbu.rects > 0 && fbu.encoding.None? && On(goal, sock.Pos())
      modifies `fbu, sock`rQi
      ensures Valid() && sock.rQi >= old(sock.rQi)
      ensures if ret then fbu.encoding.Some? && fbu.rects == old(fbu.rects) && On(goal, sock.Pos()) else Stopped(goal)
    {
      hide Websock.ValidRecv, Handle, ToInt32, U16, U32;
      ghost var st0, p0, out0 := St(), sock.Pos(), out;
      var wait := sock.Wait(12, 0);
      if wait {
        StepOn(goal, st0, p0, out0, false);
        return false;
      }
      var rect := ReadRectFields();
      var encoding := sock.RQshift32();
      fbu := fbu.(rect := rect, encoding := Some(ToInt32(encoding)));
      assert out + [] == out;
      StepOn(goal, st0, p0, out0, true);
      return true;
    }

    method ReadRectFields() returns (rect: Rect)
      requires sock.ValidRecv() && sock.rQi + 8 <= sock.rQlen
      modifies sock`rQi
      ensures sock.ValidRecv() && sock.rQi == old(sock.rQi) + 8
      ensures var s, p := sock.stream, old(sock.Pos());
              rect == Rect(U16(s, p), U16(s, p + 2), U16(s, p + 4), U16(s, p + 6))
    {
      hide Websock.ValidRecv, U16;
      var x := sock.RQshift16();
      var y := sock.RQshift16();
      var width := sock.RQshift16();
      var height := sock.RQshift16();
      rect := Rect(x, y, width, height);
    }

    /** Between rectangles: with none left, the flip and the next request are still due. */
    ghost predicate Due(goal: Run)
      reads this, sock
      requires sock.Pos() <= |sock.stream| && WellFormed(St())
    {
      Prepend(out + if fbu.rects == 0 then UpdateDone(session) else [],
              Handle(config, St(), sock.stream, sock.Pos())) == goal
    }

    lemma HeaderOn(goal: Run, st0: State, p0: nat)
      requires Valid() && p0 + 4 == sock.Pos() && WellFormed(st0) && sock.stream[p0] == 0 && st0.fbu.rects == 0
      requires !st0.flushing && !config.pending(st0.updates)
      requires Prepend(out, Handle(config, st0, sock.stream, p0)) == goal
      requires St() == st0.(fbu := st0.fbu.(rects := U16(sock.stream, p0 + 2)), updates := st0.updates + 1)
      ensures Due(goal)
    {
      var r := Step(config, st0, sock.stream, p0);
      assert r == UpdateHeader(config, st0, sock.stream, p0);
      var rest := Handle(config, St(), sock.stream, sock.Pos()).out;
      assert out + (r.out + rest) == (out + r.out) + rest;
    }

    /** One message, or the rest of an update; true means: look for the next one. */
    method NormalMsg(ghost goal: Run) returns (ret: bool)
      requires Valid() && !flushing && sock.rQi < sock.rQlen && On(goal, sock.Pos())
      modifies `fbu, `lines, `subrects, `session, `out, `failed, `updates, `flushing, sock`rQi
      ensures Valid()
      ensures if ret then On(goal, sock.Pos()) else Stopped(goal)
      ensures ret ==> fbu.rects == 0 && !flushing
      ensures ret ==> sock.rQi > old(sock.rQi) || (sock.rQi == old(sock.rQi) && old(fbu.rects) > 0)
    {
      hide Websock.ValidRecv, Handle, Message;
      ghost var st0, p0, out0 := St(), sock.Pos(), out;
      var msgType := 0;
      if fbu.rects == 0 {
        msgType := sock.RQshift8();
      }
      if msgType == 0 {
        ret := UpdateMsg(goal);
      } else {
        ret := OtherMsg(msgType);
        StepOn(goal, st0, p0, out0, ret);
      }
    }

    /** The cases of the message switch other than an update. */
    method OtherMsg(msgType: Byte) returns (ret: bool)
      requires Valid() && fbu.rects == 0 && msgType != 0
      requires sock.rQi >= 1 && sock.stream[sock.Pos() - 1] == msgType
      modifies `session, `out, `failed, sock`rQi
      ensures Valid()
      ensures Did(Message(config, old(St()), sock.stream, old(sock.Pos()) - 1), ret,
                  old(sock.Pos()) - 1, old(St()), old(out))
    {
      hide Websock.ValidRecv, CutText, Fence, Xvp, EndOfContinuousUpdates;
      match msgType {
        case 1 =>
          Fail();
          ret := false;
        case 2 =>
          Emit(Bell);
          ret := true;
        case 3 =>
          ret := HandleServerCutText();
        case 150 =>
          HandleEndOfContinuousUpdates();
          ret := true;
        case 248 =>
          ret := HandleServerFenceMsg();
        case 250 =>
          ret := HandleXvpMsg();
        case _ =>
          Fail();
          ret := true;
      }
    }

    method UpdateMsg(ghost goal: Run) returns (ret: bool)
      requires Valid() && !flushing
      requires fbu.rects == 0 ==> sock.rQi >= 1 && sock.stream[sock.Pos() - 1] == 0
      requires On(goal, if fbu.rects == 0 then sock.Pos() - 1 else sock.Pos())
      modifies `fbu, `lines, `subrects, `session, `out, `failed, `updates, `flushing, sock`rQi
      ensures Valid() && (ret ==> fbu.rects == 0 && !flushing && sock.rQi >= old(sock.rQi))
      ensures if ret then On(goal, sock.Pos()) else Stopped(goal)
    {
      hide Websock.ValidRecv, Handle;
      ret := FramebufferUpdate(goal);
      if ret && !session.enabledContinuousUpdates {
        Emit(UpdateRequest(session.fbWidth, session.fbHeight));
      }
      if ret {
        assert session.enabledContinuousUpdates ==> out + NextRequest(session) == out;
      }
    }

    /** _handleMessage while connected: nothing without data, else what Handle says. */
    method HandleMessage()
      requires Valid()
      modifies `fbu, `lines, `subrects, `session, `out, `failed, `updates, `flushing, sock`rQi
      ensures Valid()
      ensures var r := if old(failed) || old(sock.rQi) == sock.rQlen then Run(old(St()), old(sock.Pos()), [])
                       else Handle(config, old(St()), sock.stream, old(sock.Pos()));
              && St() == r.st && sock.Pos() == r.pos && out == old(out) + r.out
    {
      hide Websock.ValidRecv, Handle;
      ghost var goal := Prepend(out, Handle(config, St(), sock.stream, sock.Pos()));
      var wait := sock.Wait(1, 0);
      if wait || failed {
        return;
      }
      while true
        invariant Valid() && On(goal, sock.Pos()) && sock.rQi < sock.rQlen
        decreases sock.rQlen - sock.rQi, fbu.rects
      {
        if flushing {
          PauseStops(goal);
          break;
        }
        var more := NormalMsg(goal);
        if !more {
          break;
        }
        wait := sock.Wait(1, 0);
        if wait {
          EmptyStops(goal);
          break;
        }
      }
    }

    lemma PauseStops(goal: Run)
      requires Valid() && flushing && On(goal, sock.Pos())
      ensures Stopped(goal)
    {
      PausedStays(config, St(), sock.stream, sock.Pos());
      assert out + [] == out;
    }

    lemma EmptyStops(goal: Run)
      requires Valid() && !flushing && sock.rQi == sock.rQlen && fbu.rects == 0 && On(goal, sock.Pos())
      ensures Stopped(goal)
    {
      hide Websock.ValidRecv;
      assert out + [] == out;
    }

    /** Between events a live parser can do nothing with what it has, or pauses. */
    ghost predicate Waiting()
      reads this, sock
      requires sock.Pos() <= |sock.stream| && WellFormed(St())
    {
      failed || Waits(config, St(), sock.stream, sock.Pos())
    }

    /** The parser and its outputs are what r leaves after out0. */
    ghost predicate Ran(r: Run, out0: seq<Output>)
      reads this, sock
    {
      Run(St(), sock.Pos(), out) == Prepend(out0, r)
    }

    lemma StillWaiting(st0: State, p0: nat, event: Event)
      requires Valid() && p0 <= |sock.stream| && WellFormed(st0)
      requires st0.failed || event.Chunk? || Waits(config, st0, sock.stream, p0)
      requires var r := React(config, st0, sock.stream, p0, event); r.st == St() && r.pos == sock.Pos()
      ensures Waiting()
    {
      hide Handle, Live, Step, Websock.ValidRecv;
      if st0.failed {
        FailedReacts(config, st0, sock.stream, p0, event);
      } else {
        ReactIsLive(config, st0, sock.stream, [], p0, event);
        hide React;
      }
    }

    /** A network message: it joins the receive queue and is handled, as one chunk. */
    method OnMessage(data: Bytes) returns (ok: bool)
      requires Valid() && sock.Valid() && Waiting()
      modifies `fbu, `lines, `subrects, `session, `out, `failed, `updates, `flushing
      modifies sock`rQi, sock`rQlen, sock`rQbufferSize, sock`rQ, sock`base, sock`stream, sock.rQ
      ensures ok <==> old(|sock.Unread()|) + |data| <= MAX_RQ_GROW_SIZE
      ensures sock.rQ == old(sock.rQ) || fresh(sock.rQ)
      ensures ok ==> Valid() && sock.Valid() && Waiting() && sock.stream == old(sock.stream) + data
      ensures ok ==> Ran(React(config, old(St()), sock.stream, old(sock.Pos()), Chunk(data)), old(out))
    {
      hide Websock.ValidRecv, Websock.ValidSend, Handle, Step;
      ghost var st0, p0, s0, out0 := St(), sock.Pos(), sock.stream, out;
      ok := sock.RecvMessage(data);
      if !ok {
        return;
      }
      if sock.rQlen > sock.rQi {
        HandleMessage();
      } else {
        assert s0 + data == s0;
        RestsHere(config, st0, s0, p0);
      }
      assert out0 + [] == out0;
      StillWaiting(st0, p0, Chunk(data));
    }

    /** The promise of a pause: the display has drawn all that was queued. */
    method OnFlushed()
      requires Valid() && sock.Valid() && Waiting() && flushing
      modifies `fbu, `lines, `subrects, `session, `out, `failed, `updates, `flushing, sock`rQi
      ensures Valid() && sock.Valid() && Waiting()
      ensures Ran(React(config, old(St()), sock.stream, old(sock.Pos()), Flushed), old(out))
    {
      hide Websock.ValidRecv, Websock.ValidSend, Handle, Step;
      ghost var st0, p0, out0 := St(), sock.Pos(), out;
      flushing := false;
      var wait := sock.Wait(1, 0);
      if !wait {
        HandleMessage();
      }
      assert out0 + [] == out0;
      StillWaiting(st0, p0, Flushed);
    }

    /** Any network messages that fit, and ends of pauses, are handled as Deliver says. */
    method OnEvents(events: seq<Event>) returns (ok: bool)
      requires Valid() && sock.Valid() && Waiting()
      modifies `fbu, `lines, `subrects, `session, `out, `failed, `updates, `flushing
      modifies sock`rQi, sock`rQlen, sock`rQbufferSize, sock`rQ, sock`base, sock`stream, sock.rQ
      ensures sock.rQ == old(sock.rQ) || fresh(sock.rQ)
      ensures ok ==> Valid() && sock.Valid() && Waiting() && sock.stream == old(sock.stream) + Data(events)
      ensures ok ==> Ran(Deliver(config, old(St()), old(sock.stream), old(sock.Pos()), events), old(out))
      decreases |events|
    {
      hide Websock.ValidRecv, Websock.ValidSend, React, Waiting;
      if events == [] {
        assert out + [] == out && sock.stream + [] == sock.stream;
        return true;
      }
      ghost var st0, p0, s0, out0 := St(), sock.Pos(), sock.stream, out;
      ok := OnEvent(events[0]);
      if !ok {
        return;
      }
      ok := OnEvents(events[1..]);
      if ok {
        ghost var s1 := s0 + Brings(events[0]);
        ghost var first := React(config, st0, s1, p0, events[0]);
        ghost var rest := Deliver(config, first.st, s1, first.pos, events[1..]);
        assert out0 + (first.out + rest.out) == (out0 + first.out) + rest.out;
        assert s0 + (Brings(events[0]) + Data(events[1..])) == s1 + Data(events[1..]);
      }
    }

    method OnEvent(event: Event) returns (ok: bool)
      requires Valid() && sock.Valid() && Waiting()
      modifies `fbu, `lines, `subrects, `session, `out, `failed, `updates, `flushing
      modifies sock`rQi, sock`rQlen, sock`rQbufferSize, sock`rQ, sock`base, sock`stream, sock.rQ
      ensures sock.rQ == old(sock.rQ) || fresh(sock.rQ)
      ensures ok ==> Valid() && sock.Valid() && Waiting() && sock.stream == old(sock.stream) + Brings(event)
      ensures ok ==> Ran(React(config, old(St()), sock.stream, old(sock.Pos()), event), old(out))
    {
      hide Websock.ValidRecv, Websock.ValidSend, Handle, Waiting;
      assert sock.stream + [] == sock.stream && out + [] == out;
      match event {
        case Chunk(data) =>
          ok := OnMessage(data);
        case Flushed =>
          if flushing {
            OnFlushed();
          }
          ok := true;
      }
    }
  }

  /** The conversion loops of the raw decoder: at depth 8 every byte becomes four, and then the
      image is made opaque. */
  method ImageLine(data: Bytes, width: nat, depth: nat) returns (rgba: Bytes)
    requires |data| == if depth == 8 then width else 4 * width
    ensures rgba == Rgba(data, depth)
  {
    hide Shade;
    var pixels := new Byte[4 * width](_ => 0);
    if depth == 8 {
      Spread(data, pixels);
    } else {
      forall k | 0 <= k < 4 * width {
        pixels[k] := data[k];
      }
    }
    ghost var before := pixels[..];
    var i := 0;
    while i < width
      invariant i <= width
      invariant forall k :: 0 <= k < 4 * width ==> pixels[k] == if k % 4 == 3 && k < 4 * i then 255 else before[k]
    {
      pixels[4 * i + 3] := 255;
      i := i + 1;
      LastOfFour(i);
    }
    ShadeIsOpaque();
    rgba := pixels[..];
  }

  method Spread(data: Bytes, pixels: array<Byte>)
    requires pixels.Length == 4 * |data|
    modifies pixels
    ensures forall k :: 0 <= k < pixels.Length ==> pixels[k] == Shade(data[k / 4], k % 4)
  {
    hide Shade;
    var i := 0;
    while i < |data|
      invariant i <= |data|
      invariant forall k :: 0 <= k < 4 * i ==> pixels[k] == Shade(data[k / 4], k % 4)
    {
      ShadeIs(data[i]);
      var b: int := data[i];
      pixels[4 * i + 0] := b % 4 * 255 / 3;
      pixels[4 * i + 1] := b / 4 % 4 * 255 / 3;
      pixels[4 * i + 2] := b / 16 % 4 * 255 / 3;
      pixels[4 * i + 3] := 255;
      i := i + 1;
    }
  }

  lemma ShadeIs(b: Byte)
    ensures var v: int := b;
            && v % 4 * 255 / 3 == Shade(b, 0) && v / 4 % 4 * 255 / 3 == Shade(b, 1)
            && v / 16 % 4 * 255 / 3 == Shade(b, 2) && Shade(b, 3) == 255
  {
    Thirds(b % 4);
    Thirds(b / 4 % 4);
    Thirds(b / 16 % 4);
  }

  lemma Thirds(v: nat)
    ensures v * 255 / 3 == v * 85
  {
    assert v * 255 == 3 * (v * 85);
  }

  lemma ShadeIsOpaque()
    ensures forall b: Byte :: Shade(b, 3) == 255
  {
  }

  lemma LastOfFour(i: nat)
    ensures i > 0 ==> forall k: nat :: 4 * (i - 1) <= k < 4 * i && k % 4 == 3 ==> k == 4 * (i - 1) + 3
  {
  }

  lemma RestsHere(c: Config, st: State, s: Bytes, p: nat)
    requires p <= |s| && WellFormed(st) && (st.failed || Waits(c, st, s, p))
    ensures !st.failed ==> Handle(c, st, s, p) == Run(st, p, [])
  {
  }

  lemma FailedReacts(c: Config, st: State, s: Bytes, p: nat, event: Event)
    requires p <= |s| && WellFormed(st) && st.failed
    ensures React(c, st, s, p, event).st.failed
  {
  }
}
