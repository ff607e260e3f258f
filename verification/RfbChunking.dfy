/** Chunking independence: however the network splits the stream, and whenever the display lets a
    paused parser go on, it raises the same events and sends the same messages, up to and including
    the first failure. */
module RfbChunking {
  import opened Common
  import opened WebsockModel
  import opened RfbStream

  // ---------- A step that has its bytes does not look at later ones ----------

  lemma MessageIgnoresTail(c: Config, st: State, s: Bytes, t: Bytes, p: nat)
    requires p < |s| && WellFormed(st) && st.fbu.rects == 0
    requires Message(c, st, s, p).Done?
    ensures Message(c, st, s + t, p) == Message(c, st, s, p)
  {
    hide CutText, Fence;
    match s[p]
    case 3 => CutTextIgnoresTail(c, st, s, t, p);
    case 248 => FenceIgnoresTail(st, s, t, p);
    case _ =>
  }

  lemma CutTextIgnoresTail(c: Config, st: State, s: Bytes, t: Bytes, p: nat)
    requires CutText(c, st, s, p).Done?
    ensures CutText(c, st, s + t, p) == CutText(c, st, s, p)
  {
    var length := Abs(ToInt32(U32(s, p + 4)));
    SliceIgnoresTail(s, t, p + 8, p + 8 + length);
  }

  lemma FenceIgnoresTail(st: State, s: Bytes, t: Bytes, p: nat)
    requires Fence(st, s, p).Done?
    ensures Fence(st, s + t, p) == Fence(st, s, p)
  {
    SliceIgnoresTail(s, t, p + 9, p + 9 + Min(s[p + 8], 64));
  }

  lemma RectIgnoresTail(c: Config, st: State, s: Bytes, t: Bytes, p: nat)
    requires p <= |s| && WellFormed(st) && st.fbu.encoding.Some?
    requires RectBody(c, st, s, p).Done?
    ensures RectBody(c, st, s + t, p) == RectBody(c, st, s, p)
  {
    hide DataRect, CursorRect;
    var e := st.fbu.encoding.value;
    if e == CURSOR {
      CursorIgnoresTail(st, s, t, p);
    } else if e == DESKTOP_NAME {
      assert (s + t)[p + 4..p + 4 + U32(s, p)] == s[p + 4..p + 4 + U32(s, p)];
    } else if e == EXTENDED_DESKTOP_SIZE {
      assert ExtendedSizeRect(st, s + t, p) == ExtendedSizeRect(st, s, p);
    } else if e !in {LAST_RECT, QEMU_EXTENDED_KEY_EVENT, DESKTOP_SIZE, EXTENDED_MOUSE_BUTTONS, QEMU_LED_EVENT} {
      DataRectIgnoresTail(c, st, s, t, p);
    }
  }

  lemma DataRectIgnoresTail(c: Config, st: State, s: Bytes, t: Bytes, p: nat)
    requires p <= |s| && WellFormed(st) && st.fbu.encoding.Some?
    requires DataRect(c, st, s, p).Done?
    ensures DataRect(c, st, s + t, p) == DataRect(c, st, s, p)
  {
    var e := st.fbu.encoding.value;
    if e == RAW {
      RawIgnoresTail(c, st, s, t, p);
    } else if e == RRE {
      RreIgnoresTail(st, s, t, p);
    }
  }

  lemma CursorIgnoresTail(st: State, s: Bytes, t: Bytes, p: nat)
    requires p <= |s| && WellFormed(st) && st.fbu.encoding == Some(CURSOR)
    requires CursorRect(st, s, p).Done?
    ensures CursorRect(st, s + t, p) == CursorRect(st, s, p)
  {
    var middle := p + CursorPixels(st.fbu.rect);
    SliceIgnoresTail(s, t, p, middle);
    SliceIgnoresTail(s, t, middle, middle + CursorMask(st.fbu.rect));
  }

  lemma SliceIgnoresTail(s: Bytes, t: Bytes, i: nat, j: nat)
    requires i <= j <= |s|
    ensures (s + t)[i..j] == s[i..j]
  {
  }

  lemma RawIgnoresTail(c: Config, st: State, s: Bytes, t: Bytes, p: nat)
    requires p <= |s| && WellFormed(st) && st.fbu.encoding == Some(RAW)
    requires RawRect(c, st, s, p).Done?
    ensures RawRect(c, st, s + t, p) == RawRect(c, st, s, p)
  {
    var end := p + LineLength(c, st.fbu.rect);
    if end <= |s| {
      assert (s + t)[p..end] == s[p..end];
    }
  }

  lemma RreIgnoresTail(st: State, s: Bytes, t: Bytes, p: nat)
    requires p <= |s| && WellFormed(st) && st.fbu.encoding == Some(RRE)
    requires RreRect(st, s, p).Done?
    ensures RreRect(st, s + t, p) == RreRect(st, s, p)
  {
    if p + 8 <= |s| {
      assert (s + t)[p + 4..p + 8] == s[p + 4..p + 8];
      assert (s + t)[p..p + 4] == s[p..p + 4];
    }
  }

  lemma StepIgnoresTail(c: Config, st: State, s: Bytes, t: Bytes, p: nat)
    requires p <= |s| && WellFormed(st) && !st.flushing
    requires Step(c, st, s, p).Done?
    ensures Step(c, st, s + t, p) == Step(c, st, s, p)
  {
    if st.fbu.rects == 0 {
      MessageIgnoresTail(c, st, s, t, p);
    } else if st.fbu.encoding.Some? {
      RectIgnoresTail(c, st, s, t, p);
    }
  }

  // ---------- Runs that stop at the first failure ----------

  /** The message loop, left as soon as the connection has failed, and without a wait at a pause. */
  function Live(c: Config, st: State, s: Bytes, p: nat): (r: Run)
    requires p <= |s| && WellFormed(st) && !st.flushing
    ensures p <= r.pos <= |s| && WellFormed(r.st) && !r.st.flushing
    decreases |s| - p, Rank(st)
  {
    if st.failed then Run(st, p, [])
    else
      match Step(c, st, s, p)
      case More => Run(st, p, [])
      case Done(next, st', out, ok) =>
        if ok || st'.flushing then Prepend(out, Live(c, Resumed(st'), s, next)) else Run(st', next, out)
  }

  ghost predicate AtRest(c: Config, st: State, s: Bytes, p: nat)
    requires p <= |s| && WellFormed(st)
  {
    !st.flushing && Step(c, st, s, p).More?
  }

  predicate Quiet(out: seq<Output>) { forall o <- out :: !Stops(o) }

  predicate EndsInFailure(out: seq<Output>) {
    out != [] && Stops(out[|out| - 1]) && forall k :: 0 <= k < |out| - 1 ==> !Stops(out[k])
  }

  lemma {:induction false} UpToFailureAppend(a: seq<Output>, b: seq<Output>)
    ensures Quiet(a) ==> UpToFailure(a + b) == a + UpToFailure(b)
    ensures EndsInFailure(a) ==> UpToFailure(a + b) == a
  {
    if a == [] {
      assert a + b == b;
    } else {
      var rest := a[1..];
      assert (a + b)[1..] == rest + b && a == [a[0]] + rest;
      UpToFailureAppend(rest, b);
      if EndsInFailure(a) && !Stops(a[0]) {
        assert rest[|rest| - 1] == a[|a| - 1];
        assert EndsInFailure(rest);
      }
      if Quiet(a) {
        assert Quiet(rest) by { assert forall o <- rest :: o in a; }
        assert [a[0]] + (rest + UpToFailure(b)) == a + UpToFailure(b);
      }
    }
  }

  lemma PrependTwice(a: seq<Output>, b: seq<Output>, r: Run)
    ensures Prepend(a, Prepend(b, r)) == Prepend(a + b, r)
    ensures Prepend([], r) == r
  {
    assert a + (b + r.out) == (a + b) + r.out && [] + r.out == r.out;
  }

  lemma QuietAppend(a: seq<Output>, b: seq<Output>)
    requires Quiet(a) && Quiet(b)
    ensures Quiet(a + b)
  {
  }

  /** The loop h begins what the stopping loop l does: it has come to a state from which l goes on,
      and rests there or pauses; or both have failed, and h may have done more after that. */
  ghost predicate Begins(c: Config, h: Run, l: Run, s: Bytes, t: Bytes)
    requires h.pos <= |s| && WellFormed(h.st)
  {
    if h.st.failed then l.st.failed && UpToFailure(h.out) == l.out
    else
      && Quiet(h.out) && l == Prepend(h.out, Live(c, Resumed(h.st), s + t, h.pos))
      && (h.st.flushing || AtRest(c, h.st, s, h.pos))
  }

  /** What the real loop does is what the stopping loop does, and more only after a failure;
      bytes that have not arrived yet change nothing. */
  lemma {:induction false} HandleIsLive(c: Config, st: State, s: Bytes, t: Bytes, p: nat)
    requires p <= |s| && WellFormed(st) && !st.failed && !st.flushing
    ensures Begins(c, Handle(c, st, s, p), Live(c, st, s + t, p), s, t)
    decreases |s| - p, Rank(st)
  {
    var r := Step(c, st, s, p);
    if r.Done? {
      StepIgnoresTail(c, st, s, t, p);
      hide Step;
      if r.st.failed {
        UpToFailureAppend(r.out, []);
        assert r.out + [] == r.out;
        if r.ok {
          UpToFailureAppend(r.out, Handle(c, r.st, s, r.next).out);
          FailedStaysFailed(c, r.st, s, r.next);
        }
      } else if r.ok {
        HandleIsLive(c, r.st, s, t, r.next);
        var h := Handle(c, r.st, s, r.next);
        UpToFailureAppend(r.out, h.out);
        if !h.st.failed {
          PrependTwice(r.out, h.out, Live(c, Resumed(h.st), s + t, h.pos));
          QuietAppend(r.out, h.out);
        }
      }
    } else {
      PrependTwice([], [], Live(c, st, s + t, p));
    }
  }

  lemma {:induction false} FailedStaysFailed(c: Config, st: State, s: Bytes, p: nat)
    requires p <= |s| && WellFormed(st) && st.failed
    ensures Handle(c, st, s, p).st.failed
    decreases |s| - p, Rank(st)
  {
    if !st.flushing {
      var r := Step(c, st, s, p);
      if r.Done? && r.ok {
        FailedStaysFailed(c, r.st, s, r.next);
      }
    }
  }

  /** A run over more bytes goes through the state in which the shorter run waits. */
  lemma {:induction false} LiveResumes(c: Config, st: State, s: Bytes, t: Bytes, p: nat)
    requires p <= |s| && WellFormed(st) && !st.flushing
    ensures var r := Live(c, st, s, p);
            Live(c, st, s + t, p) == if r.st.failed then r else Prepend(r.out, Live(c, r.st, s + t, r.pos))
    decreases |s| - p, Rank(st)
  {
    if !st.failed {
      var r := Step(c, st, s, p);
      if r.Done? {
        StepIgnoresTail(c, st, s, t, p);
        hide Step;
        if r.ok || r.st.flushing {
          LiveResumes(c, Resumed(r.st), s, t, r.next);
          var l := Live(c, Resumed(r.st), s, r.next);
          if !l.st.failed {
            PrependTwice(r.out, l.out, Live(c, l.st, s + t, l.pos));
          }
        }
      } else {
        PrependTwice([], [], Live(c, st, s + t, p));
      }
    }
  }

  lemma {:induction false} FailedDeliversNothing(c: Config, st: State, s: Bytes, p: nat, events: seq<Event>)
    requires p <= |s| && WellFormed(st) && st.failed
    ensures var d := Deliver(c, st, s, p, events); d.out == [] && d.st.failed
    decreases |events|
  {
    if events != [] {
      var s' := s + Brings(events[0]);
      FailedDeliversNothing(c, React(c, st, s', p, events[0]).st, s', p, events[1..]);
    }
  }

  /** At rest, or paused. */
  ghost predicate Waits(c: Config, st: State, s: Bytes, p: nat)
    requires p <= |s| && WellFormed(st)
  {
    st.flushing || AtRest(c, st, s, p)
  }

  /** One event from a parser that waits. */
  lemma ReactIsLive(c: Config, st: State, s: Bytes, t: Bytes, p: nat, event: Event)
    requires p <= |s| && WellFormed(st) && !st.failed
    requires event.Flushed? ==> Waits(c, st, s, p)
    ensures Begins(c, React(c, st, s, p, event), Live(c, Resumed(st), s + t, p), s, t)
  {
    hide Live, Handle;
    PrependTwice([], [], Live(c, Resumed(st), s + t, p));
    if event.Chunk? && !st.flushing {
      HandleIsLive(c, st, s, t, p);
    } else if event.Chunk? {
      PausedStays(c, st, s, p);
    } else if st.flushing && p < |s| {
      HandleIsLive(c, Resumed(st), s, t, p);
    }
  }

  lemma PausedStays(c: Config, st: State, s: Bytes, p: nat)
    requires p <= |s| && WellFormed(st) && st.flushing
    ensures Handle(c, st, s, p) == Run(st, p, [])
  {
  }

  /** Any events that bring the bytes t after s do what the stopping loop does on s + t: all of it
      when nothing failed and the parser does not pause at the end. */
  lemma {:induction false} DeliverIsLive(c: Config, st: State, s: Bytes, p: nat, events: seq<Event>)
    requires p <= |s| && WellFormed(st) && !st.failed && Waits(c, st, s, p)
    ensures var d := Deliver(c, st, s, p, events);
            Begins(c, d, Live(c, Resumed(st), s + Data(events), p), s + Data(events), [])
    decreases |events|
  {
    hide Live, Handle, React;
    if events == [] {
      assert s + Data(events) == s && s + [] == s;
      PrependTwice([], [], Live(c, Resumed(st), s, p));
    } else {
      var event, rest := events[0], Data(events[1..]);
      var s' := s + Brings(event);
      assert s + Data(events) == s' + rest;
      assert event.Flushed? ==> s' == s;
      var r := React(c, st, s', p, event);
      ReactIsLive(c, st, s', rest, p, event);
      var tail := Deliver(c, r.st, s', r.pos, events[1..]);
      if r.st.failed {
        FailedDeliversNothing(c, r.st, s', r.pos, events[1..]);
        assert r.out + [] == r.out;
      } else {
        DeliverIsLive(c, r.st, s', r.pos, events[1..]);
        UpToFailureAppend(r.out, tail.out);
        var all := s' + rest;
        assert all + [] == all;
        if !tail.st.failed {
          PrependTwice(r.out, tail.out, Live(c, Resumed(tail.st), all, tail.pos));
          QuietAppend(r.out, tail.out);
        }
      }
    }
  }

  /** Main result: two courses of events that bring the same bytes to a parser that waits, and do
      not end in a pause, agree on every output up to the first failure; if nothing failed they
      agree on state, position and all outputs. */
  lemma ChunkingIndependence(c: Config, st: State, s: Bytes, p: nat, a: seq<Event>, b: seq<Event>)
    requires p <= |s| && WellFormed(st) && !st.failed && Waits(c, st, s, p)
    requires Data(a) == Data(b)
    requires !Deliver(c, st, s, p, a).st.flushing && !Deliver(c, st, s, p, b).st.flushing
    ensures var x, y := Deliver(c, st, s, p, a), Deliver(c, st, s, p, b);
            && UpToFailure(x.out) == UpToFailure(y.out)
            && x.st.failed == y.st.failed
            && (!x.st.failed ==> x == y)
  {
    hide Live, Deliver;
    DeliverIsLive(c, st, s, p, a);
    DeliverIsLive(c, st, s, p, b);
    AllOfIt(c, st, s, p, a);
    AllOfIt(c, st, s, p, b);
  }

  /** Events that do not end in a pause do all of what the stopping loop does. */
  lemma AllOfIt(c: Config, st: State, s: Bytes, p: nat, events: seq<Event>)
    requires p <= |s| && WellFormed(st) && !st.failed && Waits(c, st, s, p)
    requires !Deliver(c, st, s, p, events).st.flushing
    ensures var d, l := Deliver(c, st, s, p, events), Live(c, Resumed(st), s + Data(events), p);
            && UpToFailure(d.out) == l.out && d.st.failed == l.st.failed && (!d.st.failed ==> d == l)
  {
    hide Deliver;
    DeliverIsLive(c, st, s, p, events);
    var d := Deliver(c, st, s, p, events);
    var all := s + Data(events);
    assert all + [] == all;
    if !d.st.failed {
      assert Live(c, d.st, all, d.pos) == Run(d.st, d.pos, []);
      assert d.out + [] == d.out;
      UpToFailureAppend(d.out, []);
    }
  }

  // ---------- What a pause costs ----------

  /** The same parser with a display that never has anything queued. */
  function Prompt(c: Config): Config { c.(pending := _ => false) }

  /** Somewhere in the run the parser pauses at an update without rectangles. */
  function PausesAtEmpty(c: Config, st: State, s: Bytes, p: nat): bool
    requires p <= |s| && WellFormed(st) && !st.flushing
    decreases |s| - p, Rank(st)
  {
    if st.failed then false
    else
      match Step(c, st, s, p)
      case More => false
      case Done(next, st', out, ok) =>
        (ok || st'.flushing)
        && ((st'.flushing && st'.fbu.rects == 0) || PausesAtEmpty(c, Resumed(st'), s, next))
  }

  /** A step depends on the display only at an update header, where a pause loses the end of an
      update without rectangles and nothing else. */
  lemma StepPrompt(c: Config, st: State, s: Bytes, p: nat)
    requires p <= |s| && WellFormed(st) && !st.flushing
    ensures var r, q := Step(c, st, s, p), Step(Prompt(c), st, s, p);
            if r.Done? && r.st.flushing then
              q == Done(r.next, Resumed(r.st), if r.st.fbu.rects == 0 then UpdateDone(r.st.session) else [], true)
            else q == r
  {
    hide Message, RectBody;
    if st.fbu.rects == 0 && p < |s| {
      MessagePrompt(c, st, s, p);
    } else if st.fbu.encoding.Some? {
      RectPrompt(c, st, s, p);
    }
  }

  lemma MessagePrompt(c: Config, st: State, s: Bytes, p: nat)
    requires p < |s| && WellFormed(st) && !st.flushing && st.fbu.rects == 0
    ensures var r, q := Message(c, st, s, p), Message(Prompt(c), st, s, p);
            if r.Done? && r.st.flushing then
              q == Done(r.next, Resumed(r.st), if r.st.fbu.rects == 0 then UpdateDone(r.st.session) else [], true)
            else q == r
  {
    match s[p]
    case 0 =>
    case 3 => assert CutText(Prompt(c), st, s, p) == CutText(c, st, s, p);
    case 248 => assert Message(c, st, s, p) == Fence(st, s, p) == Message(Prompt(c), st, s, p);
    case _ =>
  }

  lemma RectPrompt(c: Config, st: State, s: Bytes, p: nat)
    requires p <= |s| && WellFormed(st) && st.fbu.encoding.Some?
    ensures RectBody(Prompt(c), st, s, p) == RectBody(c, st, s, p)
  {
    hide CursorRect, ExtendedSizeRect, NameRect, LedRect, RreRect, CopyRect;
  }

  /** Main result: whether and when the display makes the parser pause changes nothing exactly as
      long as no pause meets an update without rectangles. */
  lemma {:induction false} PausesCost(c: Config, st: State, s: Bytes, p: nat)
    requires p <= |s| && WellFormed(st) && !st.flushing
    ensures var l, q := Live(c, st, s, p), Live(Prompt(c), st, s, p);
            && l.st == q.st && l.pos == q.pos && |l.out| <= |q.out|
            && (l == q <==> !PausesAtEmpty(c, st, s, p)) && (|l.out| == |q.out| ==> l == q)
    decreases |s| - p, Rank(st)
  {
    if !st.failed {
      StepPrompt(c, st, s, p);
      hide Step;
      var r := Step(c, st, s, p);
      if r.Done? && (r.ok || r.st.flushing) {
        PausesCost(c, Resumed(r.st), s, r.next);
        var q := Step(Prompt(c), st, s, p);
        var l1, q1 := Live(c, Resumed(r.st), s, r.next), Live(Prompt(c), Resumed(r.st), s, r.next);
        PrependSame(r.out, l1.out, q.out, q1.out);
      }
    }
  }

  lemma PrependSame(a: seq<Output>, x: seq<Output>, b: seq<Output>, y: seq<Output>)
    requires |x| <= |y| && (a == b || (a == [] && b != []))
    ensures |a + x| <= |b + y| && (|x| == |y| && x == y && a == b ==> a + x == b + y)
    ensures a + x == b + y ==> a == b && x == y
  {
    if a + x == b + y {
      assert x == (a + x)[|a|..] && y == (b + y)[|b|..];
    }
  }

  const FRESH := State(Fbu(0, Rect(0, 0, 0, 0), None), 0, 0,
                       Session(0, 0, [], None, None, false, false, false, false, false, false, 0, 0, 0),
                       false, 0, false)

  /** After an unknown message type the loop goes on although the connection has failed, so what
      follows in the same chunk is still acted on: beyond a failure the split does matter. */
  lemma AfterFailureChunksMatter(c: Config)
    ensures Deliver(c, FRESH, [], 0, [Chunk([99, 2])]).out == [Failed, Bell]
    ensures Deliver(c, FRESH, [], 0, [Chunk([99]), Chunk([2])]).out == [Failed]
  {
    var failed := FRESH.(failed := true);
    var s: Bytes := [99, 2];
    assert [] + s == s;
    assert Step(c, FRESH, s, 0) == Done(1, failed, [Failed], true);
    assert Step(c, failed, s, 1) == Done(2, failed, [Bell], true);
    assert Step(c, failed, s, 2) == More;
    assert Handle(c, failed, s, 2) == Run(failed, 2, []);
    assert Handle(c, failed, s, 1) == Run(failed, 2, [Bell]);
    assert Handle(c, FRESH, s, 0) == Run(failed, 2, [Failed, Bell]);
    assert [Chunk([99, 2])][1..] == [];
    var one: Bytes := [99];
    assert [] + one == one;
    assert Step(c, FRESH, one, 0) == Done(1, failed, [Failed], true);
    assert Handle(c, failed, one, 1) == Run(failed, 1, []);
    assert Handle(c, FRESH, one, 0) == Run(failed, 1, [Failed]);
    FailedDeliversNothing(c, failed, one, 1, [Chunk([2])]);
    assert [Chunk([99]), Chunk([2])][1..] == [Chunk([2])];
  }

  /** An update without rectangles, announced while drawing is still queued. */
  const EMPTY_UPDATE: Bytes := [0, 0, 0, 0]

  /** Without the pause it is answered with a flip and the next request; with it, never, and a
      server that waits for the request sends nothing more. */
  lemma EmptyUpdateStalls(c: Config)
    requires c.pending(0)
    ensures Deliver(c, FRESH, [], 0, [Chunk(EMPTY_UPDATE), Flushed]).out == []
    ensures Deliver(Prompt(c), FRESH, [], 0, [Chunk(EMPTY_UPDATE), Flushed]).out == [Flip, UpdateRequest(0, 0)]
  {
    var s := EMPTY_UPDATE;
    assert [] + s == s && s + [] == s;
    var read := FRESH.(updates := 1);
    assert U16(s, 2) == 0;
    assert Step(c, FRESH, s, 0) == Done(4, read.(flushing := true), [], false);
    assert Step(Prompt(c), FRESH, s, 0) == Done(4, read, [Flip, UpdateRequest(0, 0)], true);
    assert Step(Prompt(c), read, s, 4) == More;
    assert Handle(Prompt(c), read, s, 4) == Run(read, 4, []);
    assert Handle(Prompt(c), FRESH, s, 0) == Run(read, 4, [Flip, UpdateRequest(0, 0)]);
    assert Handle(c, FRESH, s, 0) == Run(read.(flushing := true), 4, []);
    assert [Chunk(s), Flushed][1..] == [Flushed] && [Flushed][1..] == [];
    assert Deliver(c, read.(flushing := true), s, 4, [Flushed]).out == [];
    assert Deliver(Prompt(c), read, s, 4, [Flushed]).out == [];
  }
}
