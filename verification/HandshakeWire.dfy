/** What a server says during the handshake, as section 7 of RFC 6143 and VeNCrypt lay it out, and
    what comes of it: servers that follow the protocol are joined, the others are refused, with
    exactly the messages due. Nothing here uses the parser's own tables. */
module HandshakeWire {
  import opened Common
  import opened WebsockModel
  import opened HandshakeStream

  // ---------- Versions ----------

  /** The texts between "RFB " and the line end, as ASCII, that stand for each version. */
  lemma KnownVersions(text: Bytes)
    ensures VersionOf(text) == Some(0) <==> text == [48, 48, 48, 46, 48, 48, 48]
    ensures VersionOf(text) == Some(33) <==> text in {[48, 48, 51, 46, 48, 48, 51], [48, 48, 51, 46, 48, 48, 54]}
    ensures VersionOf(text) == Some(37) <==> text == [48, 48, 51, 46, 48, 48, 55]
    ensures VersionOf(text) == Some(38) <==>
              text in {[48, 48, 51, 46, 48, 48, 56], [48, 48, 51, 46, 56, 56, 57], [48, 48, 52, 46, 48, 48, 48],
                       [48, 48, 52, 46, 48, 48, 49], [48, 48, 53, 46, 48, 48, 48]}
    ensures VersionOf(text).None? || VersionOf(text).value in {0, 33, 37, 38}
  {
    assert Ascii("000.000") == [48, 48, 48, 46, 48, 48, 48];
    assert Ascii("003.003") == [48, 48, 51, 46, 48, 48, 51] && Ascii("003.006") == [48, 48, 51, 46, 48, 48, 54];
    assert Ascii("003.007") == [48, 48, 51, 46, 48, 48, 55] && Ascii("003.008") == [48, 48, 51, 46, 48, 48, 56];
    assert Ascii("003.889") == [48, 48, 51, 46, 56, 56, 57] && Ascii("004.000") == [48, 48, 52, 46, 48, 48, 48];
    assert Ascii("004.001") == [48, 48, 52, 46, 48, 48, 49] && Ascii("005.000") == [48, 48, 53, 46, 48, 48, 48];
  }

  /** A ProtocolVersion message: a known version is answered with itself, at most 3.8; a repeater is
      told the id and asked for the next one; anything else ends the connection. */
  lemma VersionTaken(h: Phase, s: Bytes, p: nat, text: Bytes)
    requires PhaseOk(h) && h.connection == Connecting && h.init == ProtocolVersion && |text| == 7
    requires At(s, p, [82, 70, 66, 32] + (text + [10]))
    ensures p <= |s|
    ensures OwnStep(h, s, p)
         == match VersionOf(text)
            case None => Taken(p + 12, h.(connection := Disconnected), [DisconnectEvent(false)], false)
            case Some(v) =>
              if v == 0 then Taken(p + 12, h, [RepeaterId], true)
              else Taken(p + 12, h.(init := Security, version := v), [ClientVersion(v)], false)
  {
    hide VersionOf;
    Parts(s, p, [82, 70, 66, 32], text + [10]);
    Parts(s, p + 4, text, [10]);
    KnownVersions(text);
    assert s[p + 4..p + 11] == text;
    assert [] + [DisconnectEvent(false)] == [DisconnectEvent(false)];
  }

  // ---------- Security types ----------

  /** The security types the client speaks, VeNCrypt being 19. */
  const KNOWN_TYPES: set<int> := {1, 2, 6, 16, 19, 22, 30, 113, 256}

  /** scheme is the first type of the list that the client speaks and does not avoid. */
  ghost predicate FirstKnown(types: seq<nat>, scheme: int, avoid: set<int>) {
    exists k :: 0 <= k < |types| && types[k] == scheme && scheme in KNOWN_TYPES - avoid
                && forall j :: 0 <= j < k ==> types[j] !in KNOWN_TYPES - avoid
  }

  lemma {:induction false} ChoiceIsFirst(types: seq<nat>, avoidVeNCrypt: bool)
    ensures var avoid := if avoidVeNCrypt then {19} else {};
            && (Choice(types, avoidVeNCrypt) == -1
                <==> forall k :: 0 <= k < |types| ==> types[k] !in KNOWN_TYPES - avoid)
            && (Choice(types, avoidVeNCrypt) != -1 ==> FirstKnown(types, Choice(types, avoidVeNCrypt), avoid))
  {
    var avoid: set<int> := if avoidVeNCrypt then {19} else {};
    if types != [] {
      var rest := types[1..];
      ChoiceIsFirst(rest, avoidVeNCrypt);
      if types[0] !in KNOWN_TYPES - avoid {
        if Choice(rest, avoidVeNCrypt) != -1 {
          var k :| 0 <= k < |rest| && rest[k] == Choice(rest, avoidVeNCrypt) && rest[k] in KNOWN_TYPES - avoid
                   && forall j :: 0 <= j < k ==> rest[j] !in KNOWN_TYPES - avoid;
          assert types[k + 1] == rest[k];
          assert forall j :: 0 <= j < k + 1 ==> types[j] == if j == 0 then types[0] else rest[j - 1];
        } else {
          assert forall k :: 0 <= k < |types| ==> types[k] == if k == 0 then types[0] else rest[k - 1];
        }
      } else {
        assert types[0] == Choice(types, avoidVeNCrypt);
      }
    }
  }

  lemma FirstIsChoice(types: seq<nat>, scheme: int, avoidVeNCrypt: bool)
    requires FirstKnown(types, scheme, if avoidVeNCrypt then {19} else {})
    ensures Choice(types, avoidVeNCrypt) == scheme && scheme >= 0
  {
    var avoid: set<int> := if avoidVeNCrypt then {19} else {};
    ChoiceIsFirst(types, avoidVeNCrypt);
    var c := Choice(types, avoidVeNCrypt);
    var k :| 0 <= k < |types| && types[k] == scheme && scheme in KNOWN_TYPES - avoid
             && forall j :: 0 <= j < k ==> types[j] !in KNOWN_TYPES - avoid;
    assert types[k] in KNOWN_TYPES - avoid;
    var i :| 0 <= i < |types| && types[i] == c && c in KNOWN_TYPES - avoid
             && forall j :: 0 <= j < i ==> types[j] !in KNOWN_TYPES - avoid;
  }

  /** What the server says about security types: a list, or (before 3.7) its own choice. */
  function OfferWire(version: nat, types: Bytes, scheme: nat): Bytes {
    if version >= 37 then [|types| % 0x100] + types else Wire32(scheme)
  }

  /** An offer from which the client takes the scheme. */
  ghost predicate Offers(version: nat, types: Bytes, scheme: nat) {
    if version >= 37 then |types| < 0x100 && FirstKnown(types, scheme, {}) else 0 < scheme < TWO32
  }

  lemma OfferTaken(h: Phase, s: Bytes, p: nat, types: Bytes, scheme: nat)
    requires PhaseOk(h) && h.init == Security && Offers(h.version, types, scheme)
    requires At(s, p, OfferWire(h.version, types, scheme))
    ensures p <= |s|
    ensures SecurityStep(h, s, p)
         == Taken(p + |OfferWire(h.version, types, scheme)|, h.(scheme := scheme, init := Authentication),
                  if h.version >= 37 then [SchemeChosen(scheme)] else [], true)
  {
    hide Choice, FirstKnown, U32, Wire32, At, Orderly;
    if h.version >= 37 {
      ListRead(s, p, types);
      FirstIsChoice(types, scheme, false);
      NotEmpty(types, scheme, {});
    } else {
      WireLengths();
      Slice(s, p, Wire32(scheme));
      At32(s, p, scheme);
    }
  }

  lemma NotEmpty(types: seq<nat>, scheme: int, avoid: set<int>)
    requires FirstKnown(types, scheme, avoid)
    ensures types != []
  {
  }

  lemma ListRead(s: Bytes, p: nat, types: Bytes)
    requires |types| < 0x100 && At(s, p, [|types| % 0x100] + types)
    ensures p + 1 + |types| <= |s| && s[p] == |types| && s[p + 1..p + 1 + |types|] == types
  {
    hide At;
    var n: Bytes := [|types| % 0x100];
    Parts(s, p, n, types);
    Slice(s, p + 1, types);
    At8(s, p, n, 0);
  }

  // ---------- Authentication ----------

  /** How a server authenticates the client; VeNCrypt offers subtypes and goes on with one of them. */
  datatype Auth =
    | ByNone
    | ByVnc(challenge: Bytes)
    | ByXvp(challenge: Bytes)
    | ByPlain
    | ByVeNCrypt(subtypes: seq<nat>, inner: Auth)

  function SchemeOf(a: Auth): nat {
    match a
    case ByNone => 1
    case ByVnc(_) => 2
    case ByXvp(_) => 22
    case ByPlain => 256
    case ByVeNCrypt(_, _) => 19
  }

  /** The challenge is whole, the client has what it is asked for, and of the subtypes the first one
      it can take is the one gone on with. */
  ghost predicate AuthOk(a: Auth, identity: Identity) {
    match a
    case ByNone => true
    case ByVnc(challenge) => |challenge| == 16 && identity.password
    case ByXvp(challenge) => |challenge| == 16 && identity.username && identity.password && identity.target
    case ByPlain => identity.username && identity.password
    case ByVeNCrypt(subtypes, inner) =>
      && 0 < |subtypes| < 0x100 && Fit32(subtypes)
      && FirstKnown(subtypes, SchemeOf(inner), {19}) && !inner.ByVeNCrypt? && AuthOk(inner, identity)
  }

  function WordsWire(words: seq<nat>): Bytes {
    if words == [] then [] else WordsWire(words[..|words| - 1]) + Wire32(words[|words| - 1])
  }

  function VeNCryptWire(subtypes: seq<nat>): Bytes {
    [0, 2] + ([0] + ([|subtypes| % 0x100] + WordsWire(subtypes)))
  }

  function AuthWire(a: Auth): Bytes {
    match a
    case ByNone => []
    case ByVnc(challenge) => challenge
    case ByXvp(challenge) => challenge
    case ByPlain => []
    case ByVeNCrypt(subtypes, inner) => VeNCryptWire(subtypes) + AuthWire(inner)
  }

  /** What the client sends meanwhile. */
  function AuthSends(a: Auth): seq<Output> {
    match a
    case ByNone => []
    case ByVnc(_) => [Credentials(2)]
    case ByXvp(_) => [Credentials(22), Credentials(2)]
    case ByPlain => [Credentials(256)]
    case ByVeNCrypt(_, inner) => [VeNCryptVersion, SubtypeChosen(SchemeOf(inner))] + AuthSends(inner)
  }

  /** SecurityResult is left out for None before 3.8. */
  predicate NoResult(version: nat, a: Auth) {
    version < 38 && (a.ByNone? || (a.ByVeNCrypt? && a.inner.ByNone?))
  }

  /** The phase in which the authentication leaves the client. */
  function Authenticated(h: Phase, a: Auth): Phase
  {
    var h1 := h.(init := if NoResult(h.version, a) then ClientInitialisation else SecurityResult);
    match a
    case ByXvp(_) => h1.(scheme := 2)
    case ByVeNCrypt(subtypes, inner) =>
      h1.(scheme := if inner.ByXvp? then 2 else SchemeOf(inner), veState := 4, veLength := |subtypes|)
    case _ => h1
  }

  lemma LastWordRead(s: Bytes, p: nat, words: seq<nat>, n: nat)
    requires |words| == n + 1 && At(s, p, WordsWire(words)) && words[n] < TWO32
    ensures var q := p + |WordsWire(words[..n])|;
            && At(s, p, WordsWire(words[..n])) && q + 4 <= |s| && U32(s, q) == words[n]
            && |WordsWire(words)| == |WordsWire(words[..n])| + 4
  {
    hide Wire32, U32, At;
    WireLengths();
    var front := WordsWire(words[..n]);
    Parts(s, p, front, Wire32(words[n]));
    Slice(s, p + |front|, Wire32(words[n]));
    At32(s, p + |front|, words[n]);
  }

  predicate Fit32(words: seq<nat>) { forall i :: 0 <= i < |words| ==> words[i] < TWO32 }

  lemma Fit32Front(words: seq<nat>, n: nat)
    requires Fit32(words) && n < |words|
    ensures Fit32(words[..n]) && words[n] < TWO32
  {
  }

  lemma {:induction false} WordsRead(s: Bytes, p: nat, words: seq<nat>)
    requires At(s, p, WordsWire(words)) && Fit32(words)
    ensures |WordsWire(words)| == 4 * |words| && p + 4 * |words| <= |s| && Words(s, p, |words|) == words
  {
    hide U32, At, Fit32, WordsWire;
    if words == [] {
      NoWords();
      Slice(s, p, []);
    } else {
      var n := |words| - 1;
      Fit32Front(words, n);
      LastWordRead(s, p, words, n);
      WordsRead(s, p, words[..n]);
      assert words == words[..n] + [words[n]];
    }
  }

  lemma NoWords()
    ensures WordsWire([]) == []
  {
  }

  /** Where the fields of a VeNCrypt negotiation are. */
  lemma VeNCryptFields(s: Bytes, p: nat, subtypes: seq<nat>)
    requires At(s, p, VeNCryptWire(subtypes)) && |subtypes| < 0x100 && Fit32(subtypes)
    ensures |VeNCryptWire(subtypes)| == 4 + 4 * |subtypes| && p + 4 + 4 * |subtypes| <= |s|
    ensures s[p] == 0 && s[p + 1] == 2 && s[p + 2] == 0 && s[p + 3] == |subtypes|
    ensures Words(s, p + 4, |subtypes|) == subtypes
  {
    hide WordsWire, At;
    var w2 := [|subtypes| % 0x100] + WordsWire(subtypes);
    Parts(s, p, [0, 2], [0] + w2);
    Parts(s, p + 2, [0], w2);
    Parts(s, p + 3, [|subtypes| % 0x100], WordsWire(subtypes));
    At8(s, p, [0, 2], 0);
    At8(s, p, [0, 2], 1);
    At8(s, p + 2, [0], 0);
    At8(s, p + 3, [|subtypes| % 0x100], 0);
    WordsRead(s, p + 4, subtypes);
  }

  lemma VeNCryptTaken(h: Phase, s: Bytes, p: nat, subtypes: seq<nat>, scheme: int)
    requires PhaseOk(h) && h.veState == 0 && FirstKnown(subtypes, scheme, {19})
    requires 0 < |subtypes| < 0x100 && Fit32(subtypes) && At(s, p, VeNCryptWire(subtypes))
    ensures p <= |s|
    ensures VeNCryptStep(h, s, p)
         == Taken(p + |VeNCryptWire(subtypes)|, h.(veState := 4, veLength := |subtypes|, scheme := scheme),
                  [VeNCryptVersion, SubtypeChosen(scheme)], true)
  {
    hide Words, Choice, FirstKnown, VeNCryptWire, Orderly;
    VeNCryptFields(s, p, subtypes);
    FirstIsChoice(subtypes, scheme, true);
    var v0 := VeOf(h);
    var v1, v2 := v0.(state := 1), v0.(state := 2);
    var v3 := v0.(state := 3, length := |subtypes|);
    var v4 := v3.(state := 4, scheme := scheme);
    assert VeNCryptField(v0, s, p) == Some((v1, p + 2)) && VeNCryptField(v1, s, p + 2) == Some((v2, p + 3));
    assert VeNCryptField(v2, s, p + 3) == Some((v3, p + 4));
    assert VeNCryptField(v3, s, p + 4) == Some((v4, p + 4 + 4 * |subtypes|));
    hide VeNCryptField;
    RunIsOver(v4, s, p + 4 + 4 * |subtypes|);
    assert VeNCryptRun(v2, s, p + 3) == VeNCryptRun(v3, s, p + 4) == (v4, p + 4 + 4 * |subtypes|);
    assert VeNCryptRun(v0, s, p) == VeNCryptRun(v1, s, p + 2) == VeNCryptRun(v2, s, p + 3);
    assert [VeNCryptVersion] + [SubtypeChosen(scheme)] == [VeNCryptVersion, SubtypeChosen(scheme)];
  }

  lemma GoesOn(h: Phase, s: Bytes, p: nat, turns: seq<Turn>, r: Taken)
    requires p <= |s| && PhaseOk(h) && TurnsOk(turns) && h.connection == Connecting
    requires InitStep(h, s, p, Next(turns).outcome, Next(turns).taken) == r && r.ret && Rest(h, turns) == turns
    ensures r.next <= |s| && PhaseOk(r.phase)
    ensures InitRun(h, s, p, turns) == Prepend(r.out, InitRun(r.phase, s, r.next, turns))
  {
    hide InitStep;
  }

  lemma SimpleAuthTaken(h: Phase, s: Bytes, p: nat, a: Auth, foreign: Outcome, taken: nat)
    requires PhaseOk(h) && ForeignOk(foreign, taken) && h.init == Authentication && h.scheme == SchemeOf(a)
    requires !a.ByVeNCrypt? && AuthOk(a, h.identity) && At(s, p, AuthWire(a))
    ensures p <= |s|
    ensures AuthStep(h, s, p, foreign, taken) == Taken(p + |AuthWire(a)|, Authenticated(h, a), AuthSends(a), true)
  {
    hide VeNCryptStep, ForeignStep, Orderly;
  }

  /** An authentication that goes well is gone through. */
  lemma AuthTaken(h: Phase, s: Bytes, p: nat, a: Auth, turns: seq<Turn>)
    requires PhaseOk(h) && TurnsOk(turns) && h.connection == Connecting && h.init == Authentication
    requires h.scheme == SchemeOf(a) && h.veState == 0 && AuthOk(a, h.identity) && At(s, p, AuthWire(a))
    ensures p + |AuthWire(a)| <= |s| && PhaseOk(Authenticated(h, a))
    ensures InitRun(h, s, p, turns)
         == Prepend(AuthSends(a), InitRun(Authenticated(h, a), s, p + |AuthWire(a)|, turns))
  {
    hide InitRun, FirstKnown, VeNCryptWire, VeNCryptStep, XvpStep, PlainStep, ForeignStep, Orderly;
    var turn := Next(turns);
    if a.ByVeNCrypt? {
      var inner, w := a.inner, VeNCryptWire(a.subtypes);
      Parts(s, p, w, AuthWire(inner));
      VeNCryptTaken(h, s, p, a.subtypes, SchemeOf(inner));
      var h1 := h.(veState := 4, veLength := |a.subtypes|, scheme := SchemeOf(inner));
      GoesOn(h, s, p, turns, Taken(p + |w|, h1, [VeNCryptVersion, SubtypeChosen(SchemeOf(inner))], true));
      SimpleAuthTaken(h1, s, p + |w|, inner, turn.outcome, turn.taken);
      GoesOn(h1, s, p + |w|, turns, Taken(p + |AuthWire(a)|, Authenticated(h1, inner), AuthSends(inner), true));
      assert Authenticated(h1, inner) == Authenticated(h, a);
      PrependTwice([VeNCryptVersion, SubtypeChosen(SchemeOf(inner))], AuthSends(inner),
                   InitRun(Authenticated(h, a), s, p + |AuthWire(a)|, turns));
    } else {
      SimpleAuthTaken(h, s, p, a, turn.outcome, turn.taken);
      GoesOn(h, s, p, turns, Taken(p + |AuthWire(a)|, Authenticated(h, a), AuthSends(a), true));
    }
  }

  // ---------- ServerInit ----------

  /** The ServerInit message; a TightVNC server adds lists of capabilities of 16 bytes each. */
  datatype Init = Init(width: nat, height: nat, format: Bytes, name: Bytes,
                       serverCaps: nat, clientCaps: nat, encodings: nat, caps: Bytes)

  predicate InitOk(i: Init) {
    && Fits16(i.width) && Fits16(i.height) && |i.format| == 16 && |i.name| < TWO32
    && Fits16(i.serverCaps) && Fits16(i.clientCaps) && Fits16(i.encodings)
    && |i.caps| == 16 * (i.serverCaps + i.clientCaps + i.encodings)
  }

  function CapsWire(i: Init): Bytes {
    Wire16(i.serverCaps) + (Wire16(i.clientCaps) + (Wire16(i.encodings) + ([0, 0] + i.caps)))
  }

  function InitWire(i: Init, tight: bool): Bytes {
    var last := i.name + if tight then CapsWire(i) else [];
    Wire16(i.width) + (Wire16(i.height) + (i.format + (Wire32(|i.name|) + last)))
  }

  lemma CapsRead(s: Bytes, q: nat, i: Init)
    requires InitOk(i) && At(s, q, CapsWire(i))
    ensures |CapsWire(i)| == 8 + |i.caps| && q + 8 + |i.caps| <= |s|
    ensures U16(s, q) == i.serverCaps && U16(s, q + 2) == i.clientCaps && U16(s, q + 4) == i.encodings
  {
    hide U16, Wire16, At;
    WireLengths();
    var w2 := [0, 0] + i.caps;
    Parts(s, q, Wire16(i.serverCaps), Wire16(i.clientCaps) + (Wire16(i.encodings) + w2));
    Parts(s, q + 2, Wire16(i.clientCaps), Wire16(i.encodings) + w2);
    Parts(s, q + 4, Wire16(i.encodings), w2);
    Slice(s, q + 6, w2);
    At16(s, q, i.serverCaps);
    At16(s, q + 2, i.clientCaps);
    At16(s, q + 4, i.encodings);
  }

  lemma InitRead(s: Bytes, p: nat, i: Init, tight: bool)
    requires InitOk(i) && At(s, p, InitWire(i, tight))
    ensures var q := p + 24 + |i.name|;
            && q <= |s| && U16(s, p) == i.width && U16(s, p + 2) == i.height
            && U32(s, p + 20) == |i.name| && s[p + 24..q] == i.name
            && |InitWire(i, tight)| == 24 + |i.name| + (if tight then |CapsWire(i)| else 0)
            && (tight ==> At(s, q, CapsWire(i)))
  {
    hide U16, U32, Wire16, Wire32, At, CapsWire;
    WireLengths();
    var w4 := if tight then CapsWire(i) else [];
    var w3 := Wire32(|i.name|) + (i.name + w4);
    Parts(s, p, Wire16(i.width), Wire16(i.height) + (i.format + w3));
    Parts(s, p + 2, Wire16(i.height), i.format + w3);
    Parts(s, p + 4, i.format, w3);
    Parts(s, p + 20, Wire32(|i.name|), i.name + w4);
    Parts(s, p + 24, i.name, w4);
    Slice(s, p + 20, Wire32(|i.name|));
    Slice(s, p + 24, i.name);
    At16(s, p, i.width);
    At16(s, p + 2, i.height);
    At32(s, p + 20, |i.name|);
  }

  lemma InitTaken(h: Phase, s: Bytes, p: nat, i: Init)
    requires PhaseOk(h) && h.connection == Connecting && h.init == ServerInitialisation
    requires InitOk(i) && At(s, p, InitWire(i, h.tight))
    ensures p <= |s|
    ensures ServerInitStep(h, s, p)
         == Taken(p + |InitWire(i, h.tight)|, h.(connection := Connected),
                  [ServerInit(i.width, i.height, i.name), ConnectEvent], true)
  {
    hide U16, U32, At, InitWire, CapsWire;
    InitRead(s, p, i, h.tight);
    if h.tight {
      CapsRead(s, p + 24 + |i.name|, i);
    }
  }

  // ---------- Servers that follow the protocol ----------

  function ResultWire(version: nat, a: Auth): Bytes { if NoResult(version, a) then [] else Wire32(0) }

  /** From the result of the authentication on. */
  lemma EndIsJoined(h: Phase, s: Bytes, p: nat, a: Auth, i: Init, turns: seq<Turn>)
    requires PhaseOk(h) && TurnsOk(turns) && h.connection == Connecting && InitOk(i)
    requires h.init == if NoResult(h.version, a) then ClientInitialisation else SecurityResult
    requires var w := ResultWire(h.version, a) + InitWire(i, h.tight); At(s, p, w) && |s| == p + |w|
    ensures InitRun(h, s, p, turns)
         == Taken(|s|, h.(connection := Connected, init := ServerInitialisation),
                  [ClientInit, ServerInit(i.width, i.height, i.name), ConnectEvent], false)
  {
    hide InitRun, InitWire, ServerInitStep, U32, Wire32, At;
    WireLengths();
    var result, last := ResultWire(h.version, a), InitWire(i, h.tight);
    Parts(s, p, result, last);
    Slice(s, p + |result|, last);
    var h1, p1 := h.(init := ClientInitialisation), p + |result|;
    if !NoResult(h.version, a) {
      At32(s, p, 0);
      GoesOn(h, s, p, turns, Taken(p1, h1, [], true));
    }
    var h2 := h1.(init := ServerInitialisation);
    GoesOn(h1, s, p1, turns, Taken(p1, h2, [ClientInit], true));
    InitTaken(h2, s, p1, i);
    var joined := [ServerInit(i.width, i.height, i.name), ConnectEvent];
    GoesOn(h2, s, p1, turns, Taken(|s|, h2.(connection := Connected), joined, true));
    RunEnds(h2.(connection := Connected), s, |s|, turns);
    assert [ClientInit] + (joined + []) == [ClientInit, ServerInit(i.width, i.height, i.name), ConnectEvent];
    assert [] + ([ClientInit] + (joined + [])) == [ClientInit] + (joined + []);
  }

  lemma RunEnds(h: Phase, s: Bytes, p: nat, turns: seq<Turn>)
    requires p <= |s| && PhaseOk(h) && TurnsOk(turns) && h.connection != Connecting
    ensures InitRun(h, s, p, turns) == Stay(h, p)
  {
  }

  /** All that a server says from Security on. */
  function ServerWire(version: nat, types: Bytes, a: Auth, i: Init, tight: bool): Bytes {
    OfferWire(version, types, SchemeOf(a)) + (AuthWire(a) + (ResultWire(version, a) + InitWire(i, tight)))
  }

  /** What the client sends and raises. */
  function JoinOutput(version: nat, a: Auth, i: Init): seq<Output> {
    (if version >= 37 then [SchemeChosen(SchemeOf(a))] else [])
    + (AuthSends(a) + [ClientInit, ServerInit(i.width, i.height, i.name), ConnectEvent])
  }

  /** Where the client ends up. */
  function Joined(h: Phase, a: Auth): Phase {
    Authenticated(h.(scheme := SchemeOf(a)), a).(connection := Connected, init := ServerInitialisation)
  }

  /** From the authentication on. */
  lemma AuthIsJoined(h: Phase, s: Bytes, p: nat, a: Auth, i: Init, turns: seq<Turn>)
    requires PhaseOk(h) && TurnsOk(turns) && h.connection == Connecting && h.init == Authentication
    requires h.scheme == SchemeOf(a) && h.veState == 0 && AuthOk(a, h.identity) && InitOk(i)
    requires var w := AuthWire(a) + (ResultWire(h.version, a) + InitWire(i, h.tight)); At(s, p, w) && |s| == p + |w|
    ensures InitRun(h, s, p, turns)
         == Taken(|s|, Authenticated(h, a).(connection := Connected, init := ServerInitialisation),
                  AuthSends(a) + [ClientInit, ServerInit(i.width, i.height, i.name), ConnectEvent], false)
  {
    hide InitRun, AuthWire, ResultWire, InitWire, AuthOk, AuthSends, InitOk, NoResult, At;
    Parts(s, p, AuthWire(a), ResultWire(h.version, a) + InitWire(i, h.tight));
    AuthTaken(h, s, p, a, turns);
    EndIsJoined(Authenticated(h, a), s, p + |AuthWire(a)|, a, i, turns);
  }

  /** Main result, the other way round: a server that offers a way to authenticate, accepts and sends
      its ServerInit is joined, in any version, with exactly the messages due. */
  lemma ServerIsJoined(h: Phase, s: Bytes, p: nat, types: Bytes, a: Auth, i: Init, turns: seq<Turn>)
    requires PhaseOk(h) && TurnsOk(turns) && h.connection == Connecting && h.init == Security && h.veState == 0
    requires Offers(h.version, types, SchemeOf(a)) && AuthOk(a, h.identity) && InitOk(i)
    requires p <= |s| && s[p..] == ServerWire(h.version, types, a, i, h.tight)
    ensures InitRun(h, s, p, turns) == Taken(|s|, Joined(h, a), JoinOutput(h.version, a, i), false)
  {
    hide InitRun, OfferWire, AuthWire, ResultWire, InitWire, Offers, AuthOk, AuthSends, InitOk, At;
    hide NoResult, Authenticated;
    var offer := OfferWire(h.version, types, SchemeOf(a));
    var rest := AuthWire(a) + (ResultWire(h.version, a) + InitWire(i, h.tight));
    AtEnd(s, p);
    Parts(s, p, offer, rest);
    OfferGoesOn(h, s, p, types, SchemeOf(a), turns);
    AuthIsJoined(h.(scheme := SchemeOf(a), init := Authentication), s, p + |offer|, a, i, turns);
    SameEnd(h, a);
  }

  lemma OfferGoesOn(h: Phase, s: Bytes, p: nat, types: Bytes, scheme: nat, turns: seq<Turn>)
    requires PhaseOk(h) && TurnsOk(turns) && h.connection == Connecting && h.init == Security
    requires Offers(h.version, types, scheme) && At(s, p, OfferWire(h.version, types, scheme))
    ensures var offer, h1 := OfferWire(h.version, types, scheme), h.(scheme := scheme, init := Authentication);
            && p + |offer| <= |s|
            && InitRun(h, s, p, turns)
               == Prepend(if h.version >= 37 then [SchemeChosen(scheme)] else [], InitRun(h1, s, p + |offer|, turns))
  {
    hide InitRun, OfferWire, SecurityStep, Offers;
    OfferTaken(h, s, p, types, scheme);
    var h1 := h.(scheme := scheme, init := Authentication);
    GoesOn(h, s, p, turns, Taken(p + |OfferWire(h.version, types, scheme)|, h1,
                                 if h.version >= 37 then [SchemeChosen(scheme)] else [], true));
  }

  lemma AtEnd(s: Bytes, p: nat)
    requires p <= |s|
    ensures At(s, p, s[p..]) && |s| == p + |s[p..]|
  {
  }

  lemma SameEnd(h: Phase, a: Auth)
    ensures Authenticated(h.(scheme := SchemeOf(a), init := Authentication), a)
              .(connection := Connected, init := ServerInitialisation) == Joined(h, a)
  {
  }

  /** The same in any chunks. */
  lemma ServerIsJoinedInChunks(h: Phase, s: Bytes, chunks: seq<Bytes>, types: Bytes, a: Auth, i: Init)
    requires Underway(h) && h.connection == Connecting && h.init == Security && h.veState == 0
    requires Offers(h.version, types, SchemeOf(a)) && AuthOk(a, h.identity) && InitOk(i)
    requires Flatten(chunks) == ServerWire(h.version, types, a, i, h.tight)
    ensures InitDeliver(h, s, |s|, chunks)
         == Taken(|s + Flatten(chunks)|, Joined(h, a), JoinOutput(h.version, a, i), false)
  {
    hide InitRun, InitDeliver, Offers, AuthOk, AuthSends, Flatten, Authenticated;
    var all := s + Flatten(chunks);
    assert all[|s|..] == Flatten(chunks);
    ServerSaysSomething(h.version, types, a, i, h.tight);
    FlattenNone<Byte>();
    HandshakeIgnoresChunks(h, s, |s|, chunks);
    ServerIsJoined(h, all, |s|, types, a, i, []);
  }

  lemma ServerSaysSomething(version: nat, types: Bytes, a: Auth, i: Init, tight: bool)
    ensures ServerWire(version, types, a, i, tight) != []
  {
    WireLengths();
  }

  // ---------- Servers that refuse, and offers that cannot be taken ----------

  function ReasonWire(reason: Bytes): Bytes { Wire32(|reason|) + reason }

  lemma ReasonTaken(h: Phase, s: Bytes, p: nat, reason: Bytes)
    requires PhaseOk(h) && h.connection == Connecting && h.init == SecurityReason
    requires |reason| < TWO32 && At(s, p, ReasonWire(reason))
    ensures p <= |s|
    ensures ReasonStep(h, s, p) == Taken(p + |ReasonWire(reason)|, h.(connection := Disconnected),
                                         [SecurityFailure(h.status, reason), DisconnectEvent(false)], false)
  {
    hide U32, Wire32, At;
    WireLengths();
    Parts(s, p, Wire32(|reason|), reason);
    Slice(s, p, Wire32(|reason|));
    Slice(s, p + 4, reason);
    At32(s, p, |reason|);
  }

  /** A server that refuses before offering anything is reported with status 1 and its reason. */
  lemma RefusalIsReported(h: Phase, s: Bytes, p: nat, reason: Bytes)
    requires PhaseOk(h) && h.connection == Connecting && h.init == Security && |reason| < TWO32
    requires At(s, p, (if h.version >= 37 then [0] else Wire32(0)) + ReasonWire(reason))
    ensures p <= |s|
    ensures var r := InitRun(h, s, p, []);
            && r.out == [SecurityFailure(1, reason), DisconnectEvent(false)] && r.phase.connection == Disconnected
            && r.next == p + (if h.version >= 37 then 1 else 4) + |ReasonWire(reason)|
  {
    hide U32, Wire32, At, InitRun, ReasonWire, Choice;
    WireLengths();
    var none := if h.version >= 37 then [0] else Wire32(0);
    Parts(s, p, none, ReasonWire(reason));
    Slice(s, p, none);
    var h1 := h.(init := SecurityReason, status := 1, scheme := if h.version >= 37 then h.scheme else 0);
    if h.version >= 37 {
      At8(s, p, [0], 0);
    } else {
      At32(s, p, 0);
    }
    GoesOn(h, s, p, [], Taken(p + |none|, h1, [], true));
    ReasonTaken(h1, s, p + |none|, reason);
    OwnRun(h1, s, p + |none|);
  }

  /** A server that rejects the authentication is reported with its status, and with its reason from
      version 3.8 on. */
  lemma RejectionIsReported(h: Phase, s: Bytes, p: nat, status: nat, reason: Bytes)
    requires PhaseOk(h) && h.connection == Connecting && h.init == SecurityResult
    requires 0 < status < TWO32 && |reason| < TWO32 && (h.version < 38 ==> reason == [])
    requires At(s, p, Wire32(status) + if h.version >= 38 then ReasonWire(reason) else [])
    ensures p <= |s|
    ensures var r := InitRun(h, s, p, []);
            r.out == [SecurityFailure(status, reason), DisconnectEvent(false)] && r.phase.connection == Disconnected
  {
    hide U32, Wire32, At, InitRun, ReasonWire;
    WireLengths();
    Parts(s, p, Wire32(status), if h.version >= 38 then ReasonWire(reason) else []);
    Slice(s, p, Wire32(status));
    At32(s, p, status);
    if h.version >= 38 {
      var h1 := h.(init := SecurityReason, status := status);
      GoesOn(h, s, p, [], Taken(p + 4, h1, [], true));
      ReasonTaken(h1, s, p + 4, reason);
      OwnRun(h1, s, p + 4);
    } else {
      OwnRun(h, s, p);
    }
  }

  /** An offer without any type the client speaks ends the connection. */
  lemma NothingToTake(h: Phase, s: Bytes, p: nat, types: Bytes)
    requires PhaseOk(h) && h.connection == Connecting && h.init == Security && h.version >= 37
    requires 0 < |types| < 0x100 && (forall t <- types :: t !in KNOWN_TYPES) && At(s, p, [|types| % 0x100] + types)
    ensures p <= |s|
    ensures var r := InitRun(h, s, p, []); r.out == [DisconnectEvent(false)] && r.phase.connection == Disconnected
  {
    hide InitRun, Choice;
    Parts(s, p, [|types| % 0x100], types);
    At8(s, p, [|types| % 0x100], 0);
    ChoiceIsFirst(types, false);
    OwnRun(h, s, p);
  }

  /** Without the credentials asked for the client asks its user and takes nothing. */
  lemma CredentialsAreAskedFor(h: Phase, s: Bytes, p: nat)
    requires PhaseOk(h) && h.connection == Connecting && h.init == Authentication && p + 16 <= |s|
    requires || (h.scheme == 2 && !h.identity.password)
             || (h.scheme == 256 && !(h.identity.username && h.identity.password))
             || (h.scheme == 22 && !(h.identity.username && h.identity.password && h.identity.target))
    ensures InitRun(h, s, p, []) == Taken(p, h, [CredentialsRequired], false)
  {
    hide InitRun, VeNCryptStep, ForeignStep;
    OwnRun(h, s, p);
  }

  /** A VeNCrypt server of another version, one that does not acknowledge, one without subtypes, and
      one without a subtype the client can take are all left. */
  lemma VeNCryptIsRefused(h: Phase, s: Bytes, p: nat, major: Byte, minor: Byte, ack: Byte, subtypes: seq<nat>)
    requires PhaseOk(h) && h.connection == Connecting && h.init == Authentication && h.scheme == 19 && h.veState == 0
    requires |subtypes| < 0x100 && Fit32(subtypes)
    requires !(major == 0 && minor == 2) || ack != 0 || subtypes == []
             || forall t <- subtypes :: t !in KNOWN_TYPES - {19}
    requires At(s, p, [major, minor] + ([ack] + ([|subtypes| % 0x100] + WordsWire(subtypes))))
    ensures p <= |s|
    ensures var r := InitRun(h, s, p, []);
            && r.out == (if major == 0 && minor == 2 then [VeNCryptVersion] else []) + [DisconnectEvent(false)]
            && r.phase.connection == Disconnected
  {
    hide InitRun, Words, Choice, WordsWire, At, Orderly;
    var w2 := [|subtypes| % 0x100] + WordsWire(subtypes);
    Parts(s, p, [major, minor], [ack] + w2);
    Parts(s, p + 2, [ack], w2);
    Parts(s, p + 3, [|subtypes| % 0x100], WordsWire(subtypes));
    At8(s, p, [major, minor], 0);
    At8(s, p, [major, minor], 1);
    At8(s, p + 2, [ack], 0);
    At8(s, p + 3, [|subtypes| % 0x100], 0);
    WordsRead(s, p + 4, subtypes);
    ChoiceIsFirst(subtypes, true);
    OwnRun(h, s, p);
    RefusedRun(VeOf(h), s, p, subtypes);
    assert [] + [DisconnectEvent(false)] == [DisconnectEvent(false)];
    assert [VeNCryptVersion] + [] == [VeNCryptVersion];
  }

  lemma RefusedRun(v: VeNCrypt, s: Bytes, p: nat, subtypes: seq<nat>)
    requires v.state == 0 && !v.failed && p + 4 + 4 * |subtypes| <= |s| && s[p + 3] == |subtypes|
    requires Words(s, p + 4, |subtypes|) == subtypes
    requires s[p] != 0 || s[p + 1] != 2 || s[p + 2] != 0 || subtypes == [] || Choice(subtypes, true) == -1
    ensures var r := VeNCryptRun(v, s, p).0;
            r.failed && r.state < 4 && (r.state > 0 <==> s[p] == 0 && s[p + 1] == 2)
  {
    hide Words, Choice;
    if s[p] == 0 && s[p + 1] == 2 {
      var v1, v2 := v.(state := 1), v.(state := 2);
      assert VeNCryptField(v, s, p) == Some((v1, p + 2));
      if s[p + 2] == 0 {
        assert VeNCryptField(v1, s, p + 2) == Some((v2, p + 3));
        if |subtypes| > 0 {
          var v3 := v2.(state := 3, length := |subtypes|);
          assert VeNCryptField(v2, s, p + 3) == Some((v3, p + 4));
          assert VeNCryptRun(v3, s, p + 4).0 == v3.(failed := true, scheme := -1);
        }
        assert VeNCryptRun(v2, s, p + 3).0.failed;
      }
      assert VeNCryptRun(v1, s, p + 2).0.failed && VeNCryptRun(v1, s, p + 2).0.state in {1, 2, 3};
    }
  }

  /** What a foreign negotiation does when it has its turn, and that TightVNC, once it has begun,
      makes the ServerInit longer. */
  lemma ForeignIsTaken(h: Phase, s: Bytes, p: nat, turn: Turn)
    requires PhaseOk(h) && h.init == Authentication && h.connection == Connecting && h.scheme in {6, 16, 30, 113, 129}
    requires p + turn.taken <= |s| && ForeignOk(turn.outcome, turn.taken)
    ensures var r := InitStep(h, s, p, turn.outcome, turn.taken);
            && r.next == p + turn.taken && r.phase.tight == (h.tight || (h.scheme == 16 && turn.taken > 0))
            && (turn.outcome.Wait? ==> !r.ret && r.out == [] && r.phase.init == Authentication)
            && (turn.outcome.Reject? ==>
                  !r.ret && r.out == [DisconnectEvent(false)] && r.phase.connection == Disconnected)
            && (turn.outcome.Accept? ==> r.ret && r.out == [] && r.phase.init == SecurityResult)
            && (turn.outcome.Switch? ==>
                  r.ret && r.phase.init == Authentication && r.phase.scheme == turn.outcome.scheme)
  {
  }

  /** Nothing may be negotiated before the socket is open, and no scheme that is not known. */
  lemma NothingElse(h: Phase, s: Bytes, p: nat)
    requires p <= |s| && PhaseOk(h) && h.connection == Connecting
    requires h.init == NotStarted || (h.init == Authentication && h.scheme !in KNOWN_TYPES && h.scheme != 129)
    ensures OwnStep(h, s, p) == Taken(p, h.(connection := Disconnected), [DisconnectEvent(false)], false)
  {
  }
}
