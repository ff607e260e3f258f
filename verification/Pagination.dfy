/** Cursor pagination of the vibe app server: turns in both directions (_handler.py) and
    sessions, newest first (_host.py). */
module Pagination {
  import opened Common
  import Base64Codec

  datatype Direction = Forward | Backward

  datatype Page = Page(items: seq<string>, next: Option<string>, previous: Option<string>)

  /** The index of the first occurrence, or otherwise. */
  function Index(ids: seq<string>, id: string, otherwise: nat): (i: nat)
    ensures id in ids ==> i < |ids| && ids[i] == id && id !in ids[..i]
    ensures id !in ids ==> i == otherwise
  {
    if ids == [] then otherwise
    else if ids[0] == id then 0
    else if id in ids[1..] then 1 + Index(ids[1..], id, 0)
    else otherwise
  }

  /** _session_turns_list on the ids of the turns. */
  function TurnsList(turns: seq<string>, direction: Direction, cursor: Option<string>, limit: nat): Page
    requires limit >= 1
  {
    var (first, page) :=
      if direction.Backward? then
        if cursor.None? then
          var p := turns[Max(0, |turns| - limit)..];
          (Max(0, |turns| - |p|), p)
        else
          var end := Index(turns, cursor.value, 0);
          var f := Max(0, end - limit);
          (f, turns[f..end])
      else
        var f := if cursor.None? then 0
                 else if cursor.value in turns then Index(turns, cursor.value, 0) + 1 else |turns|;
        (f, turns[f..Min(f + limit, |turns|)]);
    var last := first + |page| - 1;
    var before := if page != [] && first > 0 then Some(page[0]) else None;
    var after := if page != [] && last < |turns| - 1 then Some(page[|page| - 1]) else None;
    if direction.Forward? then Page(page, after, before) else Page(page, before, after)
  }

  ghost predicate Unique<T>(s: seq<T>) { forall i, j :: 0 <= i < j < |s| ==> s[i] != s[j] }

  lemma IndexOfUnique(ids: seq<string>, i: nat, otherwise: nat)
    requires i < |ids| && Unique(ids)
    ensures ids[i] in ids && Index(ids, ids[i], otherwise) == i
  {
    assert ids[i] in ids;
  }

  /** The cursor of a forward request that continues at position f. */
  function ForwardCursor(turns: seq<string>, f: nat): Option<string>
    requires f <= |turns|
  {
    if f == 0 then None else Some(turns[f - 1])
  }

  /** The cursor of a backward request for what lies before position e. */
  function BackwardCursor(turns: seq<string>, e: nat): Option<string>
    requires e <= |turns|
  {
    if e == |turns| then None else Some(turns[e])
  }

  /** What a forward request at position f returns: the next limit turns, and cursors for
      exactly where they end and where they begin. */
  lemma ForwardPage(turns: seq<string>, f: nat, limit: nat)
    requires limit >= 1 && Unique(turns) && f < |turns|
    ensures var e := Min(f + limit, |turns|);
            TurnsList(turns, Forward, ForwardCursor(turns, f), limit)
            == Page(turns[f..e], if e < |turns| then Some(turns[e - 1]) else None,
                    if f > 0 then Some(turns[f]) else None)
  {
    if f > 0 {
      IndexOfUnique(turns, f - 1, 0);
    }
  }

  lemma BackwardPage(turns: seq<string>, e: nat, limit: nat)
    requires limit >= 1 && Unique(turns) && 0 < e <= |turns|
    ensures var f := Max(0, e - limit);
            TurnsList(turns, Backward, BackwardCursor(turns, e), limit)
            == Page(turns[f..e], if f > 0 then Some(turns[f]) else None,
                    if e < |turns| then Some(turns[e - 1]) else None)
  {
    if e < |turns| {
      IndexOfUnique(turns, e, 0);
    }
  }

  /** Turning round: the previous cursor of a page, used in the other direction, returns the
      page next to it, and leads back. */
  lemma TurnRound(turns: seq<string>, f: nat, limit: nat)
    requires limit >= 1 && Unique(turns) && 0 < f < |turns|
    ensures var page := TurnsList(turns, Forward, ForwardCursor(turns, f), limit);
            var back := TurnsList(turns, Backward, page.previous, limit);
            && back.items == turns[Max(0, f - limit)..f]
            && TurnsList(turns, Forward, back.previous, limit) == page
  {
    ForwardPage(turns, f, limit);
    BackwardPage(turns, f, limit);
    assert BackwardCursor(turns, f) == Some(turns[f]) && ForwardCursor(turns, f) == Some(turns[f - 1]);
  }

  lemma TurnRoundBackward(turns: seq<string>, e: nat, limit: nat)
    requires limit >= 1 && Unique(turns) && 0 < e < |turns|
    ensures var page := TurnsList(turns, Backward, BackwardCursor(turns, e), limit);
            var on := TurnsList(turns, Forward, page.previous, limit);
            && on.items == turns[e..Min(e + limit, |turns|)]
            && TurnsList(turns, Backward, on.previous, limit) == page
  {
    BackwardPage(turns, e, limit);
    ForwardPage(turns, e, limit);
    assert BackwardCursor(turns, e) == Some(turns[e]) && ForwardCursor(turns, e) == Some(turns[e - 1]);
  }

  /** A client that follows next cursors, for at most steps requests. */
  function Walk(turns: seq<string>, direction: Direction, cursor: Option<string>, limit: nat, steps: nat)
    : seq<seq<string>>
    requires limit >= 1
    decreases steps
  {
    if steps == 0 then []
    else
      var page := TurnsList(turns, direction, cursor, limit);
      [page.items] + if page.next.None? then [] else Walk(turns, direction, page.next, limit, steps - 1)
  }

  /** Main result, forwards: the pages are the turns from f on, in order and once each, and the
      walk has ended by itself after no more requests than turns. */
  lemma {:induction false} WalkForward(turns: seq<string>, f: nat, limit: nat, steps: nat, more: nat)
    requires limit >= 1 && Unique(turns) && f < |turns| && steps >= |turns| - f
    ensures Concat(Walk(turns, Forward, ForwardCursor(turns, f), limit, steps)) == turns[f..]
    ensures Walk(turns, Forward, ForwardCursor(turns, f), limit, steps + more)
         == Walk(turns, Forward, ForwardCursor(turns, f), limit, steps)
    decreases steps
  {
    hide TurnsList, Concat, Unique;
    ForwardPage(turns, f, limit);
    var e := Min(f + limit, |turns|);
    var rest: seq<seq<string>> := [];
    if e < |turns| {
      WalkForward(turns, e, limit, steps - 1, more);
      rest := Walk(turns, Forward, ForwardCursor(turns, e), limit, steps - 1);
    } else {
      ConcatEmpty<string>();
    }
    ConcatCons(turns[f..e], rest);
    assert turns[f..e] + turns[e..] == turns[f..];
  }

  /** Backwards: the same turns, page by page from the end. */
  lemma {:induction false} WalkBackward(turns: seq<string>, e: nat, limit: nat, steps: nat, more: nat)
    requires limit >= 1 && Unique(turns) && 0 < e <= |turns| && steps >= e
    ensures Concat(Reverse(Walk(turns, Backward, BackwardCursor(turns, e), limit, steps))) == turns[..e]
    ensures Walk(turns, Backward, BackwardCursor(turns, e), limit, steps + more)
         == Walk(turns, Backward, BackwardCursor(turns, e), limit, steps)
    decreases steps
  {
    hide TurnsList, Concat, Unique;
    BackwardPage(turns, e, limit);
    var f := Max(0, e - limit);
    var rest: seq<seq<string>> := [];
    if f > 0 {
      WalkBackward(turns, f, limit, steps - 1, more);
      rest := Walk(turns, Backward, BackwardCursor(turns, f), limit, steps - 1);
    } else {
      ConcatEmpty<string>();
    }
    assert ([turns[f..e]] + rest)[1..] == rest;
    assert Reverse([turns[f..e]] + rest) == Reverse(rest) + [turns[f..e]];
    ConcatSnoc(Reverse(rest), turns[f..e]);
    assert turns[..f] + turns[f..e] == turns[..e];
  }

  /** No turns: one empty page; an unknown cursor: an empty page without cursors, whichever way. */
  lemma NothingToShow(turns: seq<string>, direction: Direction, cursor: Option<string>, limit: nat)
    requires limit >= 1
    requires turns == [] || (cursor.Some? && cursor.value !in turns)
    ensures TurnsList(turns, direction, cursor, limit) == Page([], None, None)
  {
  }

  function Concat<T>(parts: seq<seq<T>>): seq<T> {
    if parts == [] then [] else parts[0] + Concat(parts[1..])
  }

  function Reverse<T>(s: seq<T>): seq<T> {
    if s == [] then [] else Reverse(s[1..]) + [s[0]]
  }

  lemma ConcatCons<T>(first: seq<T>, rest: seq<seq<T>>)
    ensures Concat([first] + rest) == first + Concat(rest)
  {
    assert ([first] + rest)[1..] == rest;
  }

  lemma {:induction false} ConcatSnoc<T>(parts: seq<seq<T>>, last: seq<T>)
    ensures Concat(parts + [last]) == Concat(parts) + last
  {
    if parts == [] {
      assert ([] + [last])[1..] == [];
    } else {
      assert (parts + [last])[1..] == parts[1..] + [last];
      ConcatSnoc(parts[1..], last);
    }
  }

  lemma ConcatEmpty<T>()
    ensures Concat<T>([]) == []
  {
  }

  // ---------- Sessions ----------

  datatype Session = Session(id: string, parent: Option<string>, updatedAt: string)

  /** What _encode_session_cursor encodes, and what decoding splits at the first NUL. */
  function Payload(s: Session): string { s.updatedAt + ['\0'] + s.id }

  function SplitAtNul(text: string): Option<(string, string)> {
    if text == [] then None
    else if text[0] == '\0' then Some(("", text[1..]))
    else
      match SplitAtNul(text[1..])
      case None => None
      case Some((a, b)) => Some(([text[0]] + a, b))
  }

  lemma {:induction false} SplitPayload(a: string, b: string)
    requires '\0' !in a
    ensures SplitAtNul(a + ['\0'] + b) == Some((a, b))
  {
    var text := a + ['\0'] + b;
    if a == [] {
      assert text == ['\0'] + b;
    } else {
      assert text[1..] == a[1..] + ['\0'] + b;
      SplitPayload(a[1..], b);
      assert text[0] == a[0] && [a[0]] + a[1..] == a;
    }
  }

  /** Library code: UTF-8, and the decoder of URL-safe base64 with what it refuses. */
  datatype Library = Library(utf8: string -> Bytes, fromUtf8: Bytes -> Option<string>, unbase64: Text -> Option<Bytes>)

  /** The URL-safe alphabet of section 5 of RFC 4648. */
  function UrlSafe(text: Text): Text {
    seq(|text|, i requires 0 <= i < |text| =>
      if text[i] == '+' as int then '-' as int else if text[i] == '/' as int then '_' as int else text[i])
  }

  function Base64Url(d: Bytes): Text { UrlSafe(Base64Codec.Encoded(d)) }

  /** The decoders undo the encoders. */
  ghost predicate Faithful(lib: Library) {
    && (forall s :: lib.fromUtf8(lib.utf8(s)) == Some(s))
    && (forall d :: lib.unbase64(Base64Url(d)) == Some(d))
  }

  /** rstrip("=") */
  function Stripped(text: Text): Text {
    if text != [] && text[|text| - 1] == Base64Codec.PAD then Stripped(text[..|text| - 1]) else text
  }

  /** As many padding characters as -len % 4. */
  function Padded(text: Text): Text { text + seq((4 - |text| % 4) % 4, _ => Base64Codec.PAD) }

  /** A text whose padding is what is due for a remainder of r bytes. */
  predicate EndsFor(w: Text, r: nat) {
    var n := |w|;
    && n >= 4 && n % 4 == 0 && (w[n - 1] == Base64Codec.PAD <==> r != 0)
    && (w[n - 2] == Base64Codec.PAD <==> r == 1) && w[n - 3] != Base64Codec.PAD
  }

  lemma OneGroupEnds(d: Bytes)
    requires 0 < |d| <= 3
    ensures EndsFor(Base64Codec.Encoded(d), |d| % 3)
  {
    hide Base64Codec.ToChar, Base64Codec.Value;
    Base64Codec.TablesAgree(d[0] % 4 * 16);
    if |d| == 2 {
      Base64Codec.TablesAgree(d[0] % 4 * 16 + d[1] / 16);
      Base64Codec.TablesAgree(d[1] % 16 * 4);
    } else if |d| == 3 {
      Base64Codec.QuadHasNoPad(d[0], d[1], d[2]);
      var q := Base64Codec.Quad(d[0], d[1], d[2]);
      assert q[1] in q && q[2] in q && q[3] in q;
    }
  }

  lemma GroupBefore(q: Text, rest: Text, r: nat)
    requires |q| == 4 && EndsFor(rest, r)
    ensures EndsFor(q + rest, r)
  {
    assert (|rest| + 4) % 4 == |rest| % 4;
  }

  lemma FirstGroup(d: Bytes)
    requires |d| > 3
    ensures Base64Codec.Encoded(d) == Base64Codec.Quad(d[0], d[1], d[2]) + Base64Codec.Encoded(d[3..])
    ensures |Base64Codec.Quad(d[0], d[1], d[2])| == 4 && |d[3..]| % 3 == |d| % 3
  {
    Base64Codec.OneGroupMore(|d| - 3);
  }

  /** How an encoding ends. */
  lemma {:induction false} EncodedEnds(d: Bytes)
    requires d != []
    ensures EndsFor(Base64Codec.Encoded(d), |d| % 3)
  {
    if |d| <= 3 {
      OneGroupEnds(d);
    } else {
      hide Base64Codec.Encoded, Base64Codec.Quad, EndsFor;
      EncodedEnds(d[3..]);
      FirstGroup(d);
      GroupBefore(Base64Codec.Quad(d[0], d[1], d[2]), Base64Codec.Encoded(d[3..]), |d| % 3);
    }
  }

  /** Taking the padding off and putting it back changes nothing. */
  lemma PadStripped(d: Bytes)
    ensures Padded(Stripped(Base64Url(d))) == Base64Url(d)
  {
    hide Base64Codec.Encoded, Padded, Stripped;
    if d == [] {
      NothingEncoded();
      NothingPadded();
    } else {
      EncodedEnds(d);
      assert EndsFor(Base64Url(d), |d| % 3);
      hide EndsFor, Base64Url;
      TextPadStripped(Base64Url(d), |d| % 3);
    }
  }

  lemma TextPadStripped(w: Text, r: nat)
    requires EndsFor(w, r) && r < 3
    ensures Padded(Stripped(w)) == w
  {
    var n := |w|;
    var kept := n - if r == 0 then 0 else if r == 1 then 2 else 1;
    StripsTo(w, kept);
    assert w == w[..kept] + w[kept..] && (4 - kept % 4) % 4 == n - kept;
  }

  lemma {:induction false} StripsTo(w: Text, kept: nat)
    requires kept <= |w| && (kept == 0 || w[kept - 1] != Base64Codec.PAD)
    requires forall i :: kept <= i < |w| ==> w[i] == Base64Codec.PAD
    ensures Stripped(w) == w[..kept]
    decreases |w|
  {
    if kept < |w| {
      StripsTo(w[..|w| - 1], kept);
      assert w[..|w| - 1][..kept] == w[..kept];
    } else {
      assert w[..kept] == w;
    }
  }

  lemma NothingPadded()
    ensures Padded(Stripped(UrlSafe([]))) == UrlSafe([])
  {
  }

  lemma NothingEncoded()
    ensures Base64Codec.Encoded([]) == []
  {
  }

  /** _encode_session_cursor */
  function Cursor(lib: Library, s: Session): Text { Stripped(Base64Url(lib.utf8(Payload(s)))) }

  /** None for a cursor that does not decode. */
  function DecodeCursor(lib: Library, cursor: Text): Option<string> {
    match lib.unbase64(Padded(cursor))
    case None => None
    case Some(d) => lib.fromUtf8(d)
  }

  /** A cursor decodes to the session it was made from. */
  lemma CursorRoundTrip(lib: Library, s: Session)
    requires Faithful(lib) && '\0' !in s.updatedAt
    ensures DecodeCursor(lib, Cursor(lib, s)) == Some(Payload(s)) && SplitAtNul(Payload(s)) == Some((s.updatedAt, s.id))
  {
    hide Padded, Stripped, Base64Url, SplitAtNul;
    PadStripped(lib.utf8(Payload(s)));
    SplitPayload(s.updatedAt, s.id);
  }

  /** _session_cursor_index: one past the session named, or the end. */
  function CursorIndex(lib: Library, sessions: seq<Session>, cursor: Option<Text>): (i: nat)
    ensures i <= |sessions|
  {
    if cursor.None? then 0
    else
      var payload := DecodeCursor(lib, cursor.value);
      if payload.None? then |sessions|
      else
        match SplitAtNul(payload.value)
        case None => |sessions|
        case Some((updatedAt, id)) => AfterSession(sessions, updatedAt, id)
  }

  function AfterSession(sessions: seq<Session>, updatedAt: string, id: string): (i: nat)
    ensures i <= |sessions|
  {
    if sessions == [] then 0
    else if sessions[0].updatedAt == updatedAt && sessions[0].id == id then 1
    else 1 + AfterSession(sessions[1..], updatedAt, id)
  }

  lemma {:induction false} AfterSessionIs(sessions: seq<Session>, i: nat)
    requires i < |sessions| && forall j, k :: 0 <= j < k < |sessions| ==> sessions[j].id != sessions[k].id
    ensures AfterSession(sessions, sessions[i].updatedAt, sessions[i].id) == i + 1
  {
    if i > 0 {
      assert sessions[0].id != sessions[i].id;
      AfterSessionIs(sessions[1..], i - 1);
    }
  }

  /** One response of project_session_list, from the filtered and sorted sessions. */
  function SessionPage(lib: Library, sessions: seq<Session>, cursor: Option<Text>, limit: nat)
    : (seq<Session>, Option<Text>)
  {
    var start := CursorIndex(lib, sessions, cursor);
    var page := sessions[start..Min(start + limit, |sessions|)];
    (page, if start + |page| < |sessions| && page != [] then Some(Cursor(lib, page[|page| - 1])) else None)
  }

  function WalkSessions(lib: Library, sessions: seq<Session>, cursor: Option<Text>, limit: nat, steps: nat)
    : seq<seq<Session>>
    decreases steps
  {
    if steps == 0 then []
    else
      var (page, next) := SessionPage(lib, sessions, cursor, limit);
      [page] + if next.None? then [] else WalkSessions(lib, sessions, next, limit, steps - 1)
  }

  /** Ids are unique, and no time stamp has a NUL. */
  ghost predicate ListOk(sessions: seq<Session>) {
    && (forall j, k :: 0 <= j < k < |sessions| ==> sessions[j].id != sessions[k].id)
    && (forall k :: 0 <= k < |sessions| ==> '\0' !in sessions[k].updatedAt)
  }

  /** The cursor that leads to session i. */
  function SessionCursor(lib: Library, sessions: seq<Session>, i: nat): Option<Text>
    requires i <= |sessions|
  {
    if i == 0 then None else Some(Cursor(lib, sessions[i - 1]))
  }

  /** Following next cursors lists every session once, in order, and has ended by itself after no
      more requests than sessions. */
  lemma {:induction false} WalkSessionsVisitsAll(lib: Library, sessions: seq<Session>, start: nat, limit: nat,
                                                 steps: nat, more: nat)
    requires limit >= 1 && Faithful(lib) && ListOk(sessions) && start < |sessions| && steps >= |sessions| - start
    ensures var cursor := SessionCursor(lib, sessions, start);
            && Concat(WalkSessions(lib, sessions, cursor, limit, steps)) == sessions[start..]
            && WalkSessions(lib, sessions, cursor, limit, steps + more)
            == WalkSessions(lib, sessions, cursor, limit, steps)
    decreases steps
  {
    hide SessionPage, Concat, Cursor, ListOk, WalkSessions, SessionCursor;
    var e := Min(start + limit, |sessions|);
    FirstRequest(lib, sessions, start, limit, steps);
    FirstRequest(lib, sessions, start, limit, steps + more);
    var rest: seq<seq<Session>> := [];
    if e < |sessions| {
      WalkSessionsVisitsAll(lib, sessions, e, limit, steps - 1, more);
      rest := WalkSessions(lib, sessions, SessionCursor(lib, sessions, e), limit, steps - 1);
    } else {
      ConcatEmpty<Session>();
    }
    ConcatCons(sessions[start..e], rest);
    assert sessions[start..e] + sessions[e..] == sessions[start..];
  }

  lemma FirstRequest(lib: Library, sessions: seq<Session>, start: nat, limit: nat, steps: nat)
    requires limit >= 1 && Faithful(lib) && start < |sessions| && ListOk(sessions) && steps > 0
    ensures var e := Min(start + limit, |sessions|);
            WalkSessions(lib, sessions, SessionCursor(lib, sessions, start), limit, steps)
            == [sessions[start..e]]
               + if e >= |sessions| then []
                 else WalkSessions(lib, sessions, SessionCursor(lib, sessions, e), limit, steps - 1)
  {
    hide SessionPage, Cursor, ListOk;
    SessionPageIs(lib, sessions, start, limit);
  }

  lemma SessionPageIs(lib: Library, sessions: seq<Session>, start: nat, limit: nat)
    requires limit >= 1 && Faithful(lib) && start < |sessions| && ListOk(sessions)
    ensures var e := Min(start + limit, |sessions|);
            SessionPage(lib, sessions, SessionCursor(lib, sessions, start), limit)
            == (sessions[start..e], if e < |sessions| then SessionCursor(lib, sessions, e) else None)
  {
    hide CursorIndex, Cursor, Faithful, ListOk;
    CursorIndexIs(lib, sessions, start);
  }

  /** The cursor that leads to a session does. */
  lemma CursorIndexIs(lib: Library, sessions: seq<Session>, start: nat)
    requires Faithful(lib) && start < |sessions| && ListOk(sessions)
    ensures CursorIndex(lib, sessions, SessionCursor(lib, sessions, start)) == start
  {
    hide Cursor, DecodeCursor, Faithful, SplitAtNul, Payload, AfterSession;
    if start > 0 {
      CursorRoundTrip(lib, sessions[start - 1]);
      AfterSessionIs(sessions, start - 1);
    }
  }

  /** A cursor that names no session of the list, or does not decode, gives an empty page and no
      cursor. */
  lemma UnknownSession(lib: Library, sessions: seq<Session>, cursor: Text, limit: nat)
    requires var payload := DecodeCursor(lib, cursor);
             || payload.None? || '\0' !in payload.value
             || forall s <- sessions :: payload.value != Payload(s)
    requires forall s <- sessions :: '\0' !in s.updatedAt
    ensures SessionPage(lib, sessions, Some(cursor), limit) == ([], None)
  {
    hide DecodeCursor;
    var payload := DecodeCursor(lib, cursor);
    if payload.Some? {
      SplitMeans(payload.value);
      var split := SplitAtNul(payload.value);
      if split.Some? {
        NotThere(sessions, split.value.0, split.value.1);
      }
    }
    assert sessions[|sessions|..] == [];
  }

  lemma {:induction false} SplitMeans(text: string)
    ensures match SplitAtNul(text)
            case None => '\0' !in text
            case Some((a, b)) => text == a + ['\0'] + b && '\0' in text
  {
    if text != [] && text[0] != '\0' {
      SplitMeans(text[1..]);
      match SplitAtNul(text[1..])
      case None =>
      case Some((a, b)) => assert text == [text[0]] + text[1..] == ([text[0]] + a) + ['\0'] + b;
    }
  }

  lemma {:induction false} NotThere(sessions: seq<Session>, updatedAt: string, id: string)
    requires forall s <- sessions :: Payload(s) != updatedAt + ['\0'] + id
    ensures AfterSession(sessions, updatedAt, id) == |sessions|
  {
    if sessions != [] {
      assert sessions[0] in sessions;
      NotThere(sessions[1..], updatedAt, id);
    }
  }
}
