/** The handshake of sections 7.1 to 7.3 of RFC 6143, with VeNCrypt, as functions of the byte
    stream: what one step takes and does, and how steps go on when more bytes arrive. */
module HandshakeStream {
  import opened Common
  import opened WebsockModel

  datatype ConnectionState = Unused | Connecting | Connected | Disconnecting | Disconnected

  datatype InitState =
    | NotStarted | ProtocolVersion | Security | SecurityReason | Authentication
    | SecurityResult | ClientInitialisation | ServerInitialisation

  // Security types
  const NONE := 1
  const VNC_AUTH := 2
  const RA2NE := 6
  const TIGHT := 16
  const VENCRYPT := 19
  const XVP := 22
  const ARD := 30
  const MS_LOGON_II := 113
  const UNIX_LOGON := 129
  const PLAIN := 256

  predicate Supported(scheme: int) {
    scheme in {NONE, VNC_AUTH, RA2NE, TIGHT, VENCRYPT, XVP, ARD, MS_LOGON_II, PLAIN}
  }

  /** Negotiated in code that is not modelled. */
  predicate Foreign(scheme: int) { scheme in {RA2NE, TIGHT, ARD, MS_LOGON_II, UNIX_LOGON} }

  /** How such a negotiation may end: it waits, fails, succeeds, or (Tight) picks another scheme. */
  datatype Outcome = Wait | Reject | Accept | Switch(scheme: int)

  datatype Output =
    | ClientVersion(version: nat)
    | RepeaterId
    | SchemeChosen(scheme: int)
    | VeNCryptVersion
    | SubtypeChosen(scheme: int)
    | Credentials(scheme: int)
    | CredentialsRequired
    | SecurityFailure(status: nat, reason: Bytes)
    | ClientInit
    | ServerInit(width: nat, height: nat, name: Bytes)
    | ConnectEvent
    | DisconnectEvent(clean: bool)

  function Ascii(s: string): Bytes {
    seq(|s|, i requires 0 <= i < |s| => if s[i] as int < 256 then s[i] as int else 63)
  }

  /** The ten-fold version number for a ProtocolVersion text; 0 for the UltraVNC repeater. */
  function VersionOf(text: Bytes): Option<nat> {
    if text == Ascii("000.000") then Some(0)
    else if text == Ascii("003.003") || text == Ascii("003.006") then Some(33)
    else if text == Ascii("003.007") then Some(37)
    else if text == Ascii("003.008") || text == Ascii("003.889") || text == Ascii("004.000")
            || text == Ascii("004.001") || text == Ascii("005.000") then Some(38)
    else None
  }

  // ---------- The order of the handshake ----------

  /** The states a run has gone through when it is in state s; skipped: without SecurityResult. */
  predicate Passed(trace: seq<InitState>, s: InitState, skipped: bool) {
    var start := [ProtocolVersion, Security, Authentication];
    var checked := start + if skipped then [] else [SecurityResult];
    match s
    case NotStarted => trace == []
    case ProtocolVersion => trace == [ProtocolVersion]
    case Security => trace == [ProtocolVersion, Security]
    case SecurityReason =>
      trace == [ProtocolVersion, Security, SecurityReason] || trace == start + [SecurityResult, SecurityReason]
    case Authentication => trace == start
    case SecurityResult => trace == start + [SecurityResult]
    case ClientInitialisation => trace == checked + [ClientInitialisation]
    case ServerInitialisation => trace == checked + [ClientInitialisation, ServerInitialisation]
  }

  /** The order in which the states may follow one another. */
  predicate Follows(from: InitState, to: InitState) {
    match to
    case NotStarted => false
    case ProtocolVersion => from == NotStarted
    case Security => from == ProtocolVersion
    case Authentication => from == Security
    case SecurityResult => from == Authentication
    case SecurityReason => from == Security || from == SecurityResult
    case ClientInitialisation => from == SecurityResult || from == Authentication
    case ServerInitialisation => from == ClientInitialisation
  }

  function InitRank(s: InitState): nat {
    match s
    case NotStarted => 9
    case ProtocolVersion => 8
    case Security => 7
    case Authentication => 6
    case SecurityResult => 5
    case ClientInitialisation => 4
    case ServerInitialisation => 3
    case SecurityReason => 2
  }

  predicate Allowed(from: ConnectionState, to: ConnectionState) {
    match to
    case Connecting => from == Unused
    case Connected => from == Connecting
    case Disconnecting => from == Connecting || from == Connected
    case Disconnected => from == Disconnecting
    case Unused => false
  }

  lemma AllowedTransitions(from: ConnectionState, to: ConnectionState)
    ensures Allowed(from, to) <==>
              (from, to) in {(Unused, Connecting), (Connecting, Connected), (Connecting, Disconnecting),
                             (Connected, Disconnecting), (Disconnecting, Disconnected)}
  {
  }

  predicate Event(o: Output) { o.ConnectEvent? || o.DisconnectEvent? }

  function Connects(out: seq<Output>): nat {
    if out == [] then 0 else Connects(out[..|out| - 1]) + if out[|out| - 1].ConnectEvent? then 1 else 0
  }

  function Disconnects(out: seq<Output>): nat {
    if out == [] then 0 else Disconnects(out[..|out| - 1]) + if out[|out| - 1].DisconnectEvent? then 1 else 0
  }

  lemma OneMoreOutput(out: seq<Output>, o: Output)
    ensures Connects(out + [o]) == Connects(out) + if o.ConnectEvent? then 1 else 0
    ensures Disconnects(out + [o]) == Disconnects(out) + if o.DisconnectEvent? then 1 else 0
  {
    assert (out + [o])[..|out|] == out;
  }

  // ---------- VeNCrypt as a function of the stream ----------

  datatype VeNCrypt = VeNCrypt(state: nat, length: nat, scheme: int, failed: bool)

  /** The first type that is supported, in the server's order; VeNCrypt itself may be passed over. */
  function Choice(types: seq<nat>, avoidVeNCrypt: bool): int {
    if types == [] then -1
    else if Supported(types[0]) && !(avoidVeNCrypt && types[0] == VENCRYPT) then types[0]
    else Choice(types[1..], avoidVeNCrypt)
  }

  function Words(s: Bytes, p: nat, n: nat): (w: seq<nat>)
    requires p + 4 * n <= |s|
    ensures |w| == n
  {
    if n == 0 then [] else Words(s, p, n - 1) + [U32(s, p + 4 * (n - 1))]
  }

  /** The next field, if it is there in full: what it makes of the sub-state, and where it ends. */
  function VeNCryptField(v: VeNCrypt, s: Bytes, p: nat): (r: Option<(VeNCrypt, nat)>)
    requires p <= |s|
    ensures r.Some? ==> p <= r.value.1 <= |s|
    ensures r.Some? ==> r.value.0.failed || r.value.0.state == v.state + 1
  {
    if v.state == 0 then
      if |s| < p + 2 then None
      else if s[p] == 0 && s[p + 1] == 2 then Some((v.(state := 1), p + 2))
      else Some((v.(failed := true), p + 2))
    else if v.state == 1 then
      if |s| < p + 1 then None
      else if s[p] == 0 then Some((v.(state := 2), p + 1))
      else Some((v.(failed := true), p + 1))
    else if v.state == 2 then
      if |s| < p + 1 then None
      else if s[p] >= 1 then Some((v.(state := 3, length := s[p]), p + 1))
      else Some((v.(failed := true), p + 1))
    else if v.state == 3 then
      if |s| < p + 4 * v.length then None
      else
        var scheme := Choice(Words(s, p, v.length), true);
        if scheme == -1 then Some((v.(failed := true, scheme := -1), p + 4 * v.length))
        else Some((v.(state := 4, scheme := scheme), p + 4 * v.length))
    else None
  }

  /** Every field that is there in full, from position p on: the new sub-state and position. */
  function VeNCryptRun(v: VeNCrypt, s: Bytes, p: nat): (r: (VeNCrypt, nat))
    requires p <= |s|
    ensures p <= r.1 <= |s|
    decreases v.failed, 4 - v.state
  {
    if v.failed then (v, p)
    else
      match VeNCryptField(v, s, p)
      case None => (v, p)
      case Some((v1, q)) => if v1.failed then (v1, q) else VeNCryptRun(v1, s, q)
  }

  /** Sub-states only grow, and a run moves on in the stream exactly when its sub-state does
      or it fails: each field is consumed once. */
  lemma {:induction false} VeNCryptGrows(v: VeNCrypt, s: Bytes, p: nat)
    requires p <= |s| && (v.state == 3 ==> v.length > 0)
    ensures var r := VeNCryptRun(v, s, p);
            && r.0.state >= v.state && (v.state <= 4 ==> r.0.state <= 4) && (r.0.state == 3 ==> r.0.length > 0)
            && (r.1 > p <==> r.0.state > v.state || (r.0.failed && !v.failed))
    decreases 4 - v.state
  {
    var field := VeNCryptField(v, s, p);
    if !v.failed && field.Some? && !field.value.0.failed {
      hide Choice, Words;
      VeNCryptGrows(field.value.0, s, field.value.1);
    }
  }

  /** Chunking does not matter: going on later with more bytes is the run over all of them. */
  lemma {:induction false} VeNCryptResumes(v: VeNCrypt, s: Bytes, t: Bytes, p: nat)
    requires p <= |s|
    ensures var r := VeNCryptRun(v, s, p);
            VeNCryptRun(v, s + t, p) == VeNCryptRun(r.0, s + t, r.1)
    decreases 4 - v.state
  {
    var field := VeNCryptField(v, s, p);
    if !v.failed && field.Some? {
      if v.state == 3 {
        WordsIgnoreTail(s, t, p, v.length);
      }
      assert VeNCryptField(v, s + t, p) == field;
      if !field.value.0.failed {
        VeNCryptResumes(field.value.0, s, t, field.value.1);
      }
    }
  }

  lemma {:induction false} WordsIgnoreTail(s: Bytes, t: Bytes, p: nat, n: nat)
    requires p + 4 * n <= |s|
    ensures Words(s + t, p, n) == Words(s, p, n)
  {
    if n > 0 {
      WordsIgnoreTail(s, t, p, n - 1);
    }
  }

  lemma SliceOfSlice(s: Bytes, p: nat)
    requires p + 12 <= |s|
    ensures s[p..p + 12][4..11] == s[p + 4..p + 11]
  {
    var text := s[p..p + 12];
    var a, b := text[4..11], s[p + 4..p + 11];
    assert forall i :: 0 <= i < 7 ==> a[i] == text[4 + i] == s[p + 4 + i] == b[i];
    assert a == b;
  }

  // ---------- What one step of the handshake does ----------

  datatype Identity = Identity(username: bool, password: bool, target: bool)

  /** What the handshake remembers between steps. */
  datatype Phase = Phase(
    connection: ConnectionState, init: InitState, version: nat, scheme: int, tight: bool,
    veState: nat, veLength: nat, status: nat, identity: Identity)

  /** The end of a step: the position, the phase, what was sent and raised, and whether to go on. */
  datatype Taken = Taken(next: nat, phase: Phase, out: seq<Output>, ret: bool)

  predicate PhaseOk(h: Phase) { h.veState == 3 ==> h.veLength > 0 }

  /** A step stays within the bytes, and one that goes on has made progress. */
  predicate Orderly(r: Taken, h: Phase, s: Bytes, p: nat) {
    && p <= r.next <= |s| && PhaseOk(r.phase)
    && (r.ret ==> r.next > p || InitRank(r.phase.init) < InitRank(h.init))
    && r.phase.connection in {h.connection, Connected, Disconnected}
    && r.phase.identity == h.identity && (r.phase.init == ProtocolVersion ==> h.init == ProtocolVersion)
  }

  function AfterFail(c: ConnectionState): ConnectionState { if c == Unused then Unused else Disconnected }

  function FailOutput(c: ConnectionState): seq<Output> {
    if c == Unused || c == Disconnected then [] else [DisconnectEvent(false)]
  }

  function Stay(h: Phase, p: nat): Taken { Taken(p, h, [], false) }

  function Failed(h: Phase, next: nat, out: seq<Output>): Taken {
    Taken(next, h.(connection := AfterFail(h.connection)), out + FailOutput(h.connection), false)
  }

  /** Unknown versions are refused, a repeater is answered without a change of state, and
      otherwise the lower version is agreed on. */
  function VersionAnswer(h: Phase, v: Option<nat>, next: nat): Taken {
    match v
    case None => Failed(h, next, [])
    case Some(n) =>
      if n == 0 then Taken(next, h, [RepeaterId], true)
      else Taken(next, h.(init := Security, version := Min(n, 38)), [ClientVersion(Min(n, 38))], false)
  }

  function VersionStep(h: Phase, s: Bytes, p: nat): (r: Taken)
    requires p <= |s| && PhaseOk(h)
    ensures Orderly(r, h, s, p)
  {
    if |s| < p + 12 then Stay(h, p) else VersionAnswer(h, VersionOf(s[p + 4..p + 11]), p + 12)
  }

  function TypesAnswer(h: Phase, types: seq<nat>, next: nat): Taken {
    var scheme := Choice(types, false);
    if types == [] then Taken(next, h.(init := SecurityReason, status := 1), [], true)
    else if scheme == -1 then Failed(h.(scheme := -1), next, [])
    else Taken(next, h.(scheme := scheme, init := Authentication), [SchemeChosen(scheme)], true)
  }

  /** From version 3.7 on the server lists the types it offers; before, it decides. */
  function SecurityStep(h: Phase, s: Bytes, p: nat): (r: Taken)
    requires p <= |s| && PhaseOk(h) && h.init == Security
    ensures Orderly(r, h, s, p)
  {
    if h.version >= 37 then
      if |s| < p + 1 || |s| < p + 1 + s[p] then Stay(h, p)
      else TypesAnswer(h, s[p + 1..p + 1 + s[p]], p + 1 + s[p])
    else if |s| < p + 4 then Stay(h, p)
    else if U32(s, p) == 0 then Taken(p + 4, h.(scheme := 0, init := SecurityReason, status := 1), [], true)
    else Taken(p + 4, h.(scheme := U32(s, p), init := Authentication), [], true)
  }

  /** The reason is reported, and the connection ended, once all of it is there. */
  function ReasonStep(h: Phase, s: Bytes, p: nat): (r: Taken)
    requires p <= |s| && PhaseOk(h)
    ensures Orderly(r, h, s, p)
  {
    if |s| < p + 4 || |s| < p + 4 + U32(s, p) then Stay(h, p)
    else
      var next := p + 4 + U32(s, p);
      Failed(h, next, [SecurityFailure(h.status, s[p + 4..next])])
  }

  function Ask(h: Phase, p: nat): Taken { Taken(p, h, [CredentialsRequired], false) }

  function VncStep(h: Phase, s: Bytes, p: nat): (r: Taken)
    requires p <= |s| && PhaseOk(h)
    ensures Orderly(r, h, s, p)
  {
    if |s| < p + 16 then Stay(h, p)
    else if !h.identity.password then Ask(h, p)
    else Taken(p + 16, h.(init := SecurityResult), [Credentials(VNC_AUTH)], true)
  }

  function XvpStep(h: Phase, s: Bytes, p: nat): (r: Taken)
    requires p <= |s| && PhaseOk(h)
    ensures Orderly(r, h, s, p)
  {
    if !h.identity.username || !h.identity.password || !h.identity.target then Ask(h, p)
    else
      var r := VncStep(h.(scheme := VNC_AUTH), s, p);
      r.(out := [Credentials(XVP)] + r.out)
  }

  function PlainStep(h: Phase, p: nat): Taken {
    if !h.identity.username || !h.identity.password then Ask(h, p)
    else Taken(p, h.(init := SecurityResult), [Credentials(PLAIN)], true)
  }

  function VeOf(h: Phase): VeNCrypt { VeNCrypt(h.veState, h.veLength, h.scheme, false) }

  /** The end of a VeNCrypt run, seen from the phase it began in. */
  function VeNCryptEnd(h: Phase, v: VeNCrypt, next: nat): Taken {
    var h1 := h.(veState := v.state, veLength := v.length, scheme := v.scheme);
    var out := Sent(h, v.state) + if v.state == 4 then [SubtypeChosen(v.scheme)] else [];
    if v.failed then Failed(h1, next, out) else Taken(next, h1, out, v.state == 4)
  }

  /** One VeNCrypt field. */
  function FieldStep(h: Phase, s: Bytes, p: nat): Taken
    requires p <= |s|
  {
    match VeNCryptField(VeOf(h), s, p)
    case None => Stay(h, p)
    case Some((v, next)) =>
      var h1 := h.(veState := v.state, veLength := v.length, scheme := v.scheme);
      if v.failed then Failed(h1, next, [])
      else
        var out := if v.state == 1 then [VeNCryptVersion] else if v.state == 4 then [SubtypeChosen(v.scheme)] else [];
        Taken(next, h1, out, true)
  }

  /** What a VeNCrypt run that began in phase h has sent when it is in a later sub-state. */
  function Sent(h: Phase, state: nat): seq<Output> {
    if h.veState == 0 && state > 0 then [VeNCryptVersion] else []
  }

  /** The VeNCrypt run goal began in phase h and has come to phase h1 at position p. */
  predicate VeAt(h: Phase, h1: Phase, s: Bytes, p: nat, goal: (VeNCrypt, nat))
    requires p <= |s|
  {
    && VeNCryptRun(VeOf(h1), s, p) == goal && h.veState <= h1.veState < 4
    && h1 == h.(veState := h1.veState, veLength := h1.veLength)
  }

  /** The same, with what has been sent since out0. */
  predicate VeIn(h: Phase, h1: Phase, s: Bytes, p: nat, goal: (VeNCrypt, nat), out0: seq<Output>, out: seq<Output>) {
    p <= |s| && VeAt(h, h1, s, p, goal) && out == out0 + Sent(h, h1.veState)
  }

  lemma VeStarts(h: Phase, s: Bytes, p: nat, out: seq<Output>)
    requires p <= |s| && h.veState < 4
    ensures VeIn(h, h, s, p, VeNCryptRun(VeOf(h), s, p), out, out)
  {
    hide VeNCryptRun;
    assert out + [] == out;
  }

  /** With another field it goes on, or has ended. */
  lemma FieldGoesOn(h: Phase, h1: Phase, s: Bytes, p: nat, goal: (VeNCrypt, nat))
    requires p <= |s| && VeAt(h, h1, s, p, goal)
    ensures var r := FieldStep(h1, s, p);
            if r.ret && r.phase.veState < 4 then
              r.next <= |s| && VeAt(h, r.phase, s, r.next, goal)
              && Sent(h, h1.veState) + r.out == Sent(h, r.phase.veState)
            else r.(out := Sent(h, h1.veState) + r.out) == VeNCryptEnd(h, goal.0, goal.1)
  {
    hide Choice, Words, FailOutput, AfterFail;
    var field := VeNCryptField(VeOf(h1), s, p);
    var out := Sent(h, h1.veState);
    if field.None? {
      assert out + [] == out;
    } else if field.value.0.failed {
      assert out + ([] + FailOutput(h.connection)) == (out + []) + FailOutput(h.connection);
    } else if field.value.0.state == 4 {
      assert VeNCryptRun(field.value.0, s, field.value.1) == field.value;
    } else {
      assert out + [] == out;
    }
  }

  function VeNCryptStep(h: Phase, s: Bytes, p: nat): (r: Taken)
    requires p <= |s| && PhaseOk(h)
    ensures Orderly(r, h, s, p)
  {
    if h.veState >= 4 then Stay(h, p)
    else
      var (v, next) := VeNCryptRun(VeOf(h), s, p);
      VeNCryptGrows(VeOf(h), s, p);
      VeNCryptEnd(h, v, next)
  }

  /** foreign and taken stand for what code that is not modelled does and consumes. */
  predicate ForeignOk(foreign: Outcome, taken: nat) {
    foreign.Switch? ==> foreign.scheme in {VNC_AUTH, UNIX_LOGON} && taken > 0
  }

  function ForeignStep(h: Phase, s: Bytes, p: nat, foreign: Outcome, taken: nat): (r: Taken)
    requires p <= |s| && PhaseOk(h) && ForeignOk(foreign, taken) && h.init == Authentication
    ensures Orderly(r, h, s, p)
  {
    if taken > |s| - p then Stay(h, p)
    else
      ForeignEnd(if h.scheme == TIGHT && taken > 0 then h.(tight := true) else h, p + taken, foreign)
  }

  function ForeignEnd(h: Phase, next: nat, foreign: Outcome): Taken {
    match foreign
    case Wait => Stay(h, next)
    case Reject => Failed(h, next, [])
    case Accept => Taken(next, h.(init := SecurityResult), [], true)
    case Switch(scheme) => Taken(next, h.(scheme := scheme), [], true)
  }

  function AuthStep(h: Phase, s: Bytes, p: nat, foreign: Outcome, taken: nat): (r: Taken)
    requires p <= |s| && PhaseOk(h) && ForeignOk(foreign, taken) && h.init == Authentication
    ensures Orderly(r, h, s, p)
  {
    if h.scheme == NONE then
      Taken(p, h.(init := if h.version >= 38 then SecurityResult else ClientInitialisation), [], true)
    else if h.scheme == XVP then XvpStep(h, s, p)
    else if h.scheme == VNC_AUTH then VncStep(h, s, p)
    else if h.scheme == VENCRYPT then VeNCryptStep(h, s, p)
    else if h.scheme == PLAIN then PlainStep(h, p)
    else if Foreign(h.scheme) then ForeignStep(h, s, p, foreign, taken)
    else Failed(h, p, [])
  }

  /** From version 3.8 on a reason follows. */
  function ResultAnswer(h: Phase, status: nat, next: nat): Taken {
    if status == 0 then Taken(next, h.(init := ClientInitialisation), [], true)
    else if h.version >= 38 then Taken(next, h.(init := SecurityReason, status := status), [], true)
    else Failed(h, next, [SecurityFailure(status, [])])
  }

  function ResultStep(h: Phase, s: Bytes, p: nat): (r: Taken)
    requires p <= |s| && PhaseOk(h)
    ensures Orderly(r, h, s, p)
  {
    if |s| < p + 4 then Stay(h, p) else ResultAnswer(h, U32(s, p), p + 4)
  }

  /** Where a ServerInit message ends, once all of it is there; TightVNC adds capabilities. */
  function ServerInitEnd(s: Bytes, p: nat, tight: bool): (end: Option<nat>)
    ensures end.Some? ==> p + 24 <= end.value <= |s| && p + 24 + U32(s, p + 20) <= end.value
  {
    if |s| < p + 24 || |s| < p + 24 + U32(s, p + 20) then None
    else
      var q := p + 24 + U32(s, p + 20);
      if !tight then Some(q)
      else if |s| < q + 8 || |s| < q + 8 + 16 * (U16(s, q) + U16(s, q + 2) + U16(s, q + 4)) then None
      else Some(q + 8 + 16 * (U16(s, q) + U16(s, q + 2) + U16(s, q + 4)))
  }

  function ServerInitStep(h: Phase, s: Bytes, p: nat): (r: Taken)
    requires p <= |s| && PhaseOk(h)
    ensures Orderly(r, h, s, p)
  {
    match ServerInitEnd(s, p, h.tight)
    case None => Stay(h, p)
    case Some(end) =>
      var joined := ServerInit(U16(s, p), U16(s, p + 2), s[p + 24..p + 24 + U32(s, p + 20)]);
      if h.connection == Connecting then Taken(end, h.(connection := Connected), [joined, ConnectEvent], true)
      else Taken(end, h, [joined], true)
  }

  function InitStep(h: Phase, s: Bytes, p: nat, foreign: Outcome, taken: nat): (r: Taken)
    requires p <= |s| && PhaseOk(h) && ForeignOk(foreign, taken)
    ensures Orderly(r, h, s, p)
  {
    match h.init
    case ProtocolVersion => VersionStep(h, s, p)
    case Security => SecurityStep(h, s, p)
    case Authentication => AuthStep(h, s, p, foreign, taken)
    case SecurityResult => ResultStep(h, s, p)
    case SecurityReason => ReasonStep(h, s, p)
    case ClientInitialisation => Taken(p, h.(init := ServerInitialisation), [ClientInit], true)
    case ServerInitialisation => ServerInitStep(h, s, p)
    case NotStarted => Failed(h, p, [])
  }

  /** One call of a foreign negotiation. */
  datatype Turn = Turn(outcome: Outcome, taken: nat)

  predicate TurnsOk(turns: seq<Turn>) {
    forall k :: 0 <= k < |turns| ==> ForeignOk(turns[k].outcome, turns[k].taken)
  }

  /** Without a turn of its own a foreign negotiation waits. */
  function Next(turns: seq<Turn>): Turn { if turns == [] then Turn(Wait, 0) else turns[0] }

  function Rest(h: Phase, turns: seq<Turn>): seq<Turn> {
    if turns != [] && h.init == Authentication && Foreign(h.scheme) then turns[1..] else turns
  }

  /** The loop of _handleMessage while connecting; each foreign step takes its turn. */
  function InitRun(h: Phase, s: Bytes, p: nat, turns: seq<Turn>): (r: Taken)
    requires p <= |s| && PhaseOk(h) && TurnsOk(turns)
    ensures p <= r.next <= |s| && PhaseOk(r.phase) && !r.ret
    decreases |s| - p, InitRank(h.init)
  {
    if h.connection != Connecting then Stay(h, p)
    else
      var r := InitStep(h, s, p, Next(turns).outcome, Next(turns).taken);
      if !r.ret then r
      else
        var rest := InitRun(r.phase, s, r.next, Rest(h, turns));
        rest.(out := r.out + rest.out)
  }

  // ---------- Messages are taken whole ----------

  /** Negotiations that keep a sub-state of their own. */
  predicate Partial(h: Phase) { h.init == Authentication && (h.scheme == VENCRYPT || Foreign(h.scheme)) }

  /** r waits for a whole message, or has taken one and is the same with more bytes behind it. */
  predicate Whole(r: Taken, full: Taken, h: Phase, p: nat) {
    r == Stay(h, p) || ((r.ret || r.phase.connection != Connecting) && full == r)
  }

  /** A step that takes bytes takes a complete message: it is the same whatever follows. */
  lemma InitStepIgnoresTail(h: Phase, s: Bytes, t: Bytes, p: nat, foreign: Outcome, taken: nat)
    requires p <= |s| && PhaseOk(h) && ForeignOk(foreign, taken) && !Partial(h)
    ensures InitStep(h, s, p, foreign, taken).next > p ==>
              InitStep(h, s + t, p, foreign, taken) == InitStep(h, s, p, foreign, taken)
  {
    hide VersionStep, SecurityStep, ReasonStep, ResultStep, ServerInitStep, VeNCryptStep, ForeignStep, Orderly;
    match h.init
    case ProtocolVersion => VersionIgnoresTail(h, s, t, p);
    case Security => SecurityIsWhole(h, s, t, p);
    case SecurityReason => ReasonIsWhole(h, s, t, p);
    case SecurityResult => ResultIsWhole(h, s, t, p);
    case ServerInitialisation => ServerInitIsWhole(h, s, t, p);
    case _ =>
  }

  lemma VersionIgnoresTail(h: Phase, s: Bytes, t: Bytes, p: nat)
    requires p <= |s| && PhaseOk(h)
    ensures VersionStep(h, s, p).next > p ==> VersionStep(h, s + t, p) == VersionStep(h, s, p)
  {
    hide VersionOf, VersionAnswer, Orderly;
    if p + 12 <= |s| {
      assert (s + t)[p + 4..p + 11] == s[p + 4..p + 11];
    }
  }

  lemma SecurityIsWhole(h: Phase, s: Bytes, t: Bytes, p: nat)
    requires p <= |s| && PhaseOk(h) && h.init == Security
    ensures Whole(SecurityStep(h, s, p), SecurityStep(h, s + t, p), h, p)
  {
    hide Choice, FailOutput, Orderly;
    if p + 1 <= |s| && p + 1 + s[p] <= |s| {
      assert (s + t)[p + 1..p + 1 + s[p]] == s[p + 1..p + 1 + s[p]];
    }
  }

  lemma ReasonIsWhole(h: Phase, s: Bytes, t: Bytes, p: nat)
    requires p <= |s| && PhaseOk(h)
    ensures Whole(ReasonStep(h, s, p), ReasonStep(h, s + t, p), h, p)
  {
    hide FailOutput, Orderly;
    if p + 4 <= |s| && p + 4 + U32(s, p) <= |s| {
      assert (s + t)[p + 4..p + 4 + U32(s, p)] == s[p + 4..p + 4 + U32(s, p)];
    }
  }

  lemma ResultIsWhole(h: Phase, s: Bytes, t: Bytes, p: nat)
    requires p <= |s| && PhaseOk(h)
    ensures Whole(ResultStep(h, s, p), ResultStep(h, s + t, p), h, p)
  {
    hide FailOutput, Orderly;
  }

  lemma ServerInitIsWhole(h: Phase, s: Bytes, t: Bytes, p: nat)
    requires p <= |s| && PhaseOk(h)
    ensures Whole(ServerInitStep(h, s, p), ServerInitStep(h, s + t, p), h, p)
  {
    hide Orderly;
    if p + 24 <= |s| && p + 24 + U32(s, p + 20) <= |s| {
      assert (s + t)[p + 24..p + 24 + U32(s, p + 20)] == s[p + 24..p + 24 + U32(s, p + 20)];
      assert ServerInitEnd(s, p, h.tight).Some? ==> ServerInitEnd(s + t, p, h.tight) == ServerInitEnd(s, p, h.tight);
    }
  }

  // ---------- Chunks ----------

  /** From Security on, with all credentials given. ProtocolVersion is left out because the loop
      ends after it even when more bytes are there. */
  predicate Underway(h: Phase) {
    && PhaseOk(h) && h.init != ProtocolVersion
    && h.identity.username && h.identity.password && h.identity.target
  }

  /** A step without a turn of foreign code. */
  function OwnStep(h: Phase, s: Bytes, p: nat): (r: Taken)
    requires p <= |s| && PhaseOk(h)
    ensures Orderly(r, h, s, p)
  {
    InitStep(h, s, p, Wait, 0)
  }

  function Prepend(out: seq<Output>, r: Taken): Taken { r.(out := out + r.out) }

  /** A step on s that has bytes t behind it: the same, or, where it waited, gone on with. */
  ghost predicate Resumes(r: Taken, full: Taken, s: Bytes, t: Bytes)
    requires r.next <= |s| && PhaseOk(r.phase)
  {
    if r.ret || r.phase.connection != Connecting then full == r
    else full == Prepend(r.out, OwnStep(r.phase, s + t, r.next))
  }

  lemma StayResumes(h: Phase, s: Bytes, t: Bytes, p: nat)
    requires p <= |s| && PhaseOk(h) && h.connection == Connecting && OwnStep(h, s, p) == Stay(h, p)
    ensures Resumes(OwnStep(h, s, p), OwnStep(h, s + t, p), s, t)
  {
    hide OwnStep;
    var full := OwnStep(h, s + t, p);
    assert [] + full.out == full.out;
  }

  lemma {:induction false} VeNCryptKeepsScheme(v: VeNCrypt, s: Bytes, p: nat)
    requires p <= |s|
    ensures var r := VeNCryptRun(v, s, p).0; !r.failed && r.state < 4 ==> r.scheme == v.scheme
    decreases 4 - v.state
  {
    var field := VeNCryptField(v, s, p);
    if !v.failed && field.Some? && !field.value.0.failed && field.value.0.state < 4 {
      hide Choice, Words;
      VeNCryptKeepsScheme(field.value.0, s, field.value.1);
    }
  }

  lemma VeNCryptStepResumes(h: Phase, s: Bytes, t: Bytes, p: nat)
    requires p <= |s| && PhaseOk(h) && h.connection == Connecting && h.init == Authentication && h.scheme == VENCRYPT
    ensures Resumes(VeNCryptStep(h, s, p), VeNCryptStep(h, s + t, p), s, t)
  {
    hide VeNCryptRun, FailOutput, Orderly;
    if h.veState < 4 {
      var (v1, n1) := VeNCryptRun(VeOf(h), s, p);
      VeNCryptResumes(VeOf(h), s, t, p);
      VeNCryptGrows(VeOf(h), s, p);
      VeNCryptKeepsScheme(VeOf(h), s, p);
      if v1.failed || v1.state == 4 {
        RunIsOver(v1, s + t, n1);
      } else {
        var h1 := h.(veState := v1.state, veLength := v1.length, scheme := v1.scheme);
        VeNCryptGrows(v1, s + t, n1);
        SentInTwo(h, h1, VeNCryptRun(v1, s + t, n1).0, VeNCryptRun(v1, s + t, n1).1);
      }
    } else {
      StayResumes(h, s, t, p);
    }
  }

  lemma RunIsOver(v: VeNCrypt, s: Bytes, p: nat)
    requires p <= |s| && (v.failed || v.state == 4)
    ensures VeNCryptRun(v, s, p) == (v, p)
  {
  }

  /** What a VeNCrypt run sends in two parts. */
  lemma SentInTwo(h: Phase, h1: Phase, v: VeNCrypt, next: nat)
    requires h.veState <= h1.veState <= v.state && h1 == h.(veState := h1.veState, veLength := h1.veLength)
    ensures VeNCryptEnd(h, v, next) == Prepend(Sent(h, h1.veState) + [], VeNCryptEnd(h1, v, next))
  {
    hide FailOutput, AfterFail;
    var sub := if v.state == 4 then [SubtypeChosen(v.scheme)] else [];
    assert Sent(h, v.state) == Sent(h, h1.veState) + Sent(h1, v.state);
    assert Sent(h, h1.veState) + [] + (Sent(h1, v.state) + sub) == Sent(h, v.state) + sub;
    var fail := FailOutput(h.connection);
    assert Sent(h, h1.veState) + [] + (Sent(h1, v.state) + sub + fail) == Sent(h, v.state) + sub + fail;
  }

  lemma XvpStepResumes(h: Phase, s: Bytes, t: Bytes, p: nat)
    requires p <= |s| && Underway(h) && h.connection == Connecting && h.init == Authentication && h.scheme == XVP
    ensures Resumes(XvpStep(h, s, p), XvpStep(h, s + t, p), s, t)
  {
    hide Orderly;
    if |s| < p + 16 {
      assert [Credentials(XVP)] + [] == [Credentials(XVP)];
    }
  }

  /** Every other message is taken whole or not at all. */
  lemma MessageIsWhole(h: Phase, s: Bytes, t: Bytes, p: nat)
    requires p <= |s| && Underway(h) && !(h.init == Authentication && h.scheme in {VENCRYPT, XVP})
    ensures Whole(OwnStep(h, s, p), OwnStep(h, s + t, p), h, p)
  {
    hide SecurityStep, ReasonStep, ResultStep, ServerInitStep, FailOutput, Orderly;
    match h.init
    case Security => SecurityIsWhole(h, s, t, p);
    case SecurityReason => ReasonIsWhole(h, s, t, p);
    case SecurityResult => ResultIsWhole(h, s, t, p);
    case ServerInitialisation => ServerInitIsWhole(h, s, t, p);
    case _ =>
  }

  lemma OwnStepResumes(h: Phase, s: Bytes, t: Bytes, p: nat)
    requires p <= |s| && Underway(h) && h.connection == Connecting
    ensures Resumes(OwnStep(h, s, p), OwnStep(h, s + t, p), s, t)
    ensures Underway(OwnStep(h, s, p).phase)
  {
    if h.init == Authentication && h.scheme == VENCRYPT {
      hide VeNCryptStep;
      VeNCryptStepResumes(h, s, t, p);
    } else if h.init == Authentication && h.scheme == XVP {
      hide XvpStep;
      XvpStepResumes(h, s, t, p);
    } else {
      hide OwnStep;
      MessageIsWhole(h, s, t, p);
      if OwnStep(h, s, p) == Stay(h, p) {
        StayResumes(h, s, t, p);
      }
    }
  }

  lemma OwnRun(h: Phase, s: Bytes, p: nat)
    requires p <= |s| && PhaseOk(h)
    ensures InitRun(h, s, p, []) == if h.connection != Connecting then Stay(h, p)
                                    else var r := OwnStep(h, s, p);
                                         if r.ret then Prepend(r.out, InitRun(r.phase, s, r.next, [])) else r
  {
    hide InitStep;
  }

  /** A run of the loop, and the next one on more bytes, are together the run on all of them. */
  lemma {:induction false} InitRunResumes(h: Phase, s: Bytes, t: Bytes, p: nat)
    requires p <= |s| && Underway(h)
    ensures var r := InitRun(h, s, p, []);
            InitRun(h, s + t, p, []) == Prepend(r.out, InitRun(r.phase, s + t, r.next, [])) && Underway(r.phase)
    decreases |s| - p, InitRank(h.init)
  {
    hide InitRun, OwnStep;
    OwnRun(h, s, p);
    OwnRun(h, s + t, p);
    if h.connection == Connecting {
      OwnStepResumes(h, s, t, p);
      var r := OwnStep(h, s, p);
      if r.ret {
        InitRunResumes(r.phase, s, t, r.next);
        var r1 := InitRun(r.phase, s, r.next, []);
        PrependTwice(r.out, r1.out, InitRun(r1.phase, s + t, r1.next, []));
      } else {
        OwnRun(r.phase, s + t, r.next);
        if r.phase.connection != Connecting {
          assert r.out + [] == r.out;
        } else {
          var q := OwnStep(r.phase, s + t, r.next);
          if q.ret {
            PrependTwice(r.out, q.out, InitRun(q.phase, s + t, q.next, []));
          }
        }
      }
    }
  }

  lemma PrependTwice(a: seq<Output>, b: seq<Output>, r: Taken)
    ensures Prepend(a, Prepend(b, r)) == Prepend(a + b, r)
  {
    assert a + (b + r.out) == (a + b) + r.out;
  }

  /** _handleMessage for a message event: nothing without unread bytes. */
  function Handled(h: Phase, s: Bytes, p: nat): (r: Taken)
    requires p <= |s| && PhaseOk(h)
    ensures p <= r.next <= |s| && PhaseOk(r.phase)
  {
    if p == |s| then Stay(h, p) else InitRun(h, s, p, [])
  }

  /** One message event for each chunk. */
  function InitDeliver(h: Phase, s: Bytes, p: nat, chunks: seq<Bytes>): Taken
    requires p <= |s| && PhaseOk(h)
    decreases |chunks|
  {
    if chunks == [] then Stay(h, p)
    else
      var r := Handled(h, s + chunks[0], p);
      Prepend(r.out, InitDeliver(r.phase, s + chunks[0], r.next, chunks[1..]))
  }

  lemma {:induction false} NothingDelivered(h: Phase, s: Bytes, chunks: seq<Bytes>)
    requires PhaseOk(h) && Flatten(chunks) == []
    ensures InitDeliver(h, s, |s|, chunks) == Stay(h, |s|)
    decreases |chunks|
  {
    if chunks != [] {
      FlattenCons(chunks[0], chunks[1..]);
      assert chunks == [chunks[0]] + chunks[1..];
      assert s + chunks[0] == s;
      NothingDelivered(h, s, chunks[1..]);
    }
  }

  /** Main result: from Security on, however the bytes are cut into chunks, the handshake sends,
      raises and ends as on all of them at once. */
  lemma {:induction false} HandshakeIgnoresChunks(h: Phase, s: Bytes, p: nat, chunks: seq<Bytes>)
    requires p <= |s| && Underway(h) && chunks != [] && p < |s + Flatten(chunks)|
    ensures InitDeliver(h, s, p, chunks) == InitRun(h, s + Flatten(chunks), p, [])
    decreases |chunks|
  {
    hide InitRun, Flatten;
    var s1, rest := s + chunks[0], chunks[1..];
    FlattenCons(chunks[0], rest);
    assert chunks == [chunks[0]] + rest;
    assert s1 + Flatten(rest) == s + Flatten(chunks);
    FlattenNone<Byte>();
    var r := Handled(h, s1, p);
    if p == |s1| {
      HandshakeIgnoresChunks(h, s1, p, rest);
    } else {
      InitRunResumes(h, s1, Flatten(rest), p);
      if rest != [] && r.next < |s1 + Flatten(rest)| {
        HandshakeIgnoresChunks(r.phase, s1, r.next, rest);
      } else {
        assert Flatten(rest) == [] && s1 + [] == s1;
        NothingLeft(r.phase, s1, r.next, rest);
        assert r.out + [] == r.out;
      }
    }
  }

  lemma NothingLeft(h: Phase, s: Bytes, p: nat, rest: seq<Bytes>)
    requires p <= |s| && PhaseOk(h) && Flatten(rest) == [] && (rest == [] || p == |s|)
    ensures InitDeliver(h, s, p, rest) == Stay(h, p)
  {
    if rest != [] {
      NothingDelivered(h, s, rest);
    }
  }
}
