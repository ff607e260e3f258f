/** rfb.js before and around the connected phase: the connection states with their disconnect
    timer, and the handshake as the program negotiates it, proved against HandshakeStream. */
module HandshakeModel {
  import opened Common
  import opened WebsockModel
  import opened HandshakeStream
  import HandshakeWire

  class Handshake {
    const sock: Websock

    var connectionState: ConnectionState
    var initState: InitState
    var version: nat
    var authScheme: int
    var tight: bool
    var veNCryptState: nat
    var subtypesLength: nat
    /** The status to report with the reason for a refusal. */
    var securityStatus: nat
    var cleanDisconnect: bool
    /** Which credentials the user has given. */
    var identity: Identity
    /** The disconnect timer is pending. */
    var disconnTimer: bool
    /** The socket's close event still reaches us. */
    var closeHandler: bool
    /** Messages sent and events raised. */
    var out: seq<Output>

    /** The handshake states entered. */
    ghost var trace: seq<InitState>
    ghost var skipped: bool
    /** The number of connect events. */
    ghost var connects: nat

    /** One connect and one disconnect event at most; the timer runs exactly while disconnecting. */
    ghost predicate Lifecycle()
      reads `connectionState, `disconnTimer, `connects, `out
    {
      && (disconnTimer <==> connectionState == Disconnecting)
      && Disconnects(out) == (if connectionState == Disconnected then 1 else 0)
      && connects == Connects(out) && connects <= 1
      && (connectionState == Unused || connectionState == Connecting ==> connects == 0)
      && (connectionState == Connected ==> connects == 1)
    }

    /** The handshake went through its states in order, and whoever connected finished it. */
    ghost predicate InOrder()
      reads `initState, `trace, `skipped, `version, `authScheme, `connects
    {
      && Passed(trace, initState, skipped)
      && (skipped ==> version < 38 && authScheme == NONE)
      && (skipped ==> initState == ClientInitialisation || initState == ServerInitialisation)
      && (connects == 1 ==> initState == ServerInitialisation)
    }

    ghost predicate Valid()
      reads this, sock, sock.rQ
    {
      sock.ValidRecv() && Lifecycle() && InOrder() && (veNCryptState == 3 ==> subtypesLength > 0)
    }

    constructor (sock: Websock, identity: Identity)
      requires sock.Valid()
      ensures Valid() && this.sock == sock && connectionState == Unused && initState == NotStarted
      ensures connects == 0 && out == []
    {
      this.sock, this.identity := sock, identity;
      connectionState, initState := Unused, NotStarted;
      version, authScheme, tight, veNCryptState, subtypesLength, securityStatus := 0, -1, false, 0, 0, 0;
      cleanDisconnect, disconnTimer, closeHandler, out := true, false, true, [];
      trace, skipped, connects := [], false, 0;
    }

    ghost function Now(): Phase
      reads this
    {
      Phase(connectionState, initState, version, authScheme, tight,
            veNCryptState, subtypesLength, securityStatus, identity)
    }

    /** What has happened is the step r, after out0. */
    ghost predicate Took(r: Taken, ret: bool, out0: seq<Output>)
      reads this, sock
    {
      Now() == r.phase && sock.Pos() == r.next && out == out0 + r.out && ret == r.ret
    }

    /** The same for a run, which does not say whether to go on. */
    ghost predicate Ran(r: Taken, out0: seq<Output>)
      reads this, sock
    {
      Now() == r.phase && sock.Pos() == r.next && out == out0 + r.out
    }

    method Emit(o: Output)
      requires Lifecycle() && !Event(o)
      modifies `out
      ensures Lifecycle() && out == old(out) + [o]
    {
      OneMoreOutput(out, o);
      out := out + [o];
    }

    // ---------- Connection states ----------

    /** Transitions that are not allowed change nothing. */
    method UpdateConnectionState(state: ConnectionState)
      requires Lifecycle() && state != Unused
      requires state == Connected ==> initState == ServerInitialisation && InOrder()
      modifies `connectionState, `disconnTimer, `closeHandler, `out, `connects
      ensures Lifecycle()
      ensures connectionState == if Allowed(old(connectionState), state) then state else old(connectionState)
      ensures connects == old(connects) + if old(connectionState) == Connecting && state == Connected then 1 else 0
      ensures out == old(out) + if !Allowed(old(connectionState), state) then []
                                else if state == Connected then [ConnectEvent]
                                else if state == Disconnected then [DisconnectEvent(cleanDisconnect)] else []
      ensures closeHandler <==> old(closeHandler) && !(Allowed(old(connectionState), state) && state == Disconnected)
    {
      hide Lifecycle, InOrder;
      if state == connectionState || connectionState == Disconnected {
        return;
      }
      match state {
        case Connected =>
          if connectionState != Connecting { return; }
        case Disconnected =>
          if connectionState != Disconnecting { return; }
        case Connecting =>
          if connectionState != Unused { return; }
        case Disconnecting =>
          if connectionState != Connected && connectionState != Connecting { return; }
        case Unused =>
          return;
      }
      EnterConnectionState(state);
    }

    /** The state change actions. */
    method EnterConnectionState(state: ConnectionState)
      requires Lifecycle() && Allowed(connectionState, state)
      modifies `connectionState, `disconnTimer, `closeHandler, `out, `connects
      ensures Lifecycle() && connectionState == state
      ensures connects == old(connects) + if state == Connected then 1 else 0
      ensures out == old(out) + if state == Connected then [ConnectEvent]
                                else if state == Disconnected then [DisconnectEvent(cleanDisconnect)] else []
      ensures closeHandler <==> old(closeHandler) && state != Disconnected
    {
      hide Connects, Disconnects;
      connectionState := state;
      if disconnTimer && state != Disconnecting {
        disconnTimer := false;
        closeHandler := false;
      }
      if state == Connected {
        OneMoreOutput(out, ConnectEvent);
        connects := connects + 1;
        out := out + [ConnectEvent];
      } else if state == Disconnecting {
        disconnTimer := true;
      } else if state == Disconnected {
        OneMoreOutput(out, DisconnectEvent(cleanDisconnect));
        out := out + [DisconnectEvent(cleanDisconnect)];
      }
    }

    /** Once connecting, a failure always ends in the disconnected state. */
    method Fail()
      requires Lifecycle()
      modifies `connectionState, `disconnTimer, `closeHandler, `cleanDisconnect, `out, `connects
      ensures Lifecycle() && connects == old(connects) && !cleanDisconnect
      ensures connectionState == AfterFail(old(connectionState))
      ensures out == old(out) + FailOutput(old(connectionState))
    {
      cleanDisconnect := false;
      UpdateConnectionState(Disconnecting);
      UpdateConnectionState(Disconnected);
    }

    /** The end of the constructor: a raw channel may be open already. */
    method Connect(alreadyOpen: bool)
      requires Valid() && connectionState == Unused && initState == NotStarted
      modifies this
      ensures Valid() && out == old(out)
      ensures Now() == old(Now()).(connection := Connecting,
                                   init := if alreadyOpen then ProtocolVersion else NotStarted)
    {
      hide Websock.ValidRecv;
      UpdateConnectionState(Connecting);
      if alreadyOpen {
        SocketOpen();
      }
    }

    method Disconnect()
      requires Valid()
      modifies `connectionState, `disconnTimer, `closeHandler, `out, `connects
      ensures Valid() && out == old(out)
      ensures connectionState == if old(connectionState) in {Connecting, Connected} then Disconnecting
                                 else old(connectionState)
    {
      hide Websock.ValidRecv;
      UpdateConnectionState(Disconnecting);
    }

    method TimerFires()
      requires Valid() && disconnTimer
      modifies `connectionState, `disconnTimer, `closeHandler, `out, `connects
      ensures Valid() && connectionState == Disconnected && out == old(out) + [DisconnectEvent(cleanDisconnect)]
    {
      hide Websock.ValidRecv;
      UpdateConnectionState(Disconnected);
    }

    method SocketOpen()
      requires Valid()
      modifies this
      ensures Valid()
      ensures if old(connectionState) == Connecting && old(initState) == NotStarted then
                Now() == old(Now()).(init := ProtocolVersion) && out == old(out)
              else
                Now() == old(Now()).(connection := AfterFail(old(connectionState)))
                && out == old(out) + FailOutput(old(connectionState))
    {
      hide Websock.ValidRecv, Lifecycle, InOrder, AfterFail, FailOutput;
      if connectionState == Connecting && initState == NotStarted {
        Enter(ProtocolVersion);
      } else {
        Fail();
      }
    }

    method SocketClose()
      requires Valid() && closeHandler
      modifies this
      ensures Valid() && !closeHandler
      ensures connectionState == AfterFail(old(connectionState)) && initState == old(initState)
      ensures out == old(out) + if old(connectionState) in {Connected, Disconnecting} then
                                  [DisconnectEvent(old(cleanDisconnect))]
                                else FailOutput(old(connectionState))
    {
      hide Websock.ValidRecv, Lifecycle, InOrder;
      match connectionState {
        case Connecting => Fail();
        case Connected =>
          UpdateConnectionState(Disconnecting);
          UpdateConnectionState(Disconnected);
        case Disconnecting => UpdateConnectionState(Disconnected);
        case Disconnected => Fail();
        case Unused => Fail();
      }
      closeHandler := false;
    }

    // ---------- Handshake ----------

    /** The next state of the handshake is entered. */
    method Enter(s: InitState)
      requires Valid() && Follows(initState, s)
      requires initState == Authentication && s == ClientInitialisation ==> version < 38 && authScheme == NONE
      modifies `initState, `trace, `skipped
      ensures Valid() && initState == s
    {
      skipped := (skipped && s == ServerInitialisation) || (initState == Authentication && s == ClientInitialisation);
      initState := s;
      trace := trace + [s];
    }

    method SetScheme(scheme: int)
      requires Valid() && (initState == Security || initState == Authentication)
      modifies `authScheme
      ensures Valid() && authScheme == scheme
    {
      authScheme := scheme;
    }

    method NegotiateProtocolVersion() returns (ret: bool)
      requires Valid() && initState == ProtocolVersion
      modifies this, sock`rQi
      ensures Valid() && Took(VersionStep(old(Now()), sock.stream, old(sock.Pos())), ret, old(out))
    {
      hide Websock.ValidRecv, VersionOf, Lifecycle, InOrder, AfterFail, FailOutput;
      var wait := sock.Wait(12, 0);
      if wait { return false; }
      ghost var s, p := sock.stream, sock.Pos();
      var text := sock.RQshiftStr(12);
      SliceOfSlice(s, p);
      ret := AnswerVersion(VersionOf(text[4..11]));
    }

    method AnswerVersion(v: Option<nat>) returns (ret: bool)
      requires Valid() && initState == ProtocolVersion
      modifies this
      ensures Valid() && Took(VersionAnswer(old(Now()), v, sock.Pos()), ret, old(out))
    {
      hide Websock.ValidRecv, Lifecycle, AfterFail, FailOutput;
      if v.None? {
        Fail();
        return false;
      }
      if v.value == 0 {
        Emit(RepeaterId);
        return true;
      }
      version := if v.value > 38 then 38 else v.value;
      Emit(ClientVersion(version));
      Enter(Security);
      return false;
    }

    /** The first acceptable type of a list, or -1. */
    method Choose(types: seq<nat>, avoidVeNCrypt: bool) returns (scheme: int)
      ensures scheme == Choice(types, avoidVeNCrypt)
      ensures var taken: set<int> := {1, 2, 6, 16, 19, 22, 30, 113, 256} - if avoidVeNCrypt then {19} else {};
              && (scheme == -1 <==> forall k :: 0 <= k < |types| ==> types[k] !in taken)
              && (scheme != -1 ==> exists k :: 0 <= k < |types| && types[k] == scheme && scheme in taken
                                               && forall j :: 0 <= j < k ==> types[j] !in taken)
    {
      HandshakeWire.ChoiceIsFirst(types, avoidVeNCrypt);
      var i := 0;
      while i < |types|
        invariant i <= |types| && Choice(types, avoidVeNCrypt) == Choice(types[i..], avoidVeNCrypt)
      {
        if Supported(types[i]) && !(avoidVeNCrypt && types[i] == VENCRYPT) {
          return types[i];
        }
        i := i + 1;
      }
      return -1;
    }

    method NegotiateSecurity() returns (ret: bool)
      requires Valid() && initState == Security
      modifies this, sock`rQi
      ensures Valid() && Took(SecurityStep(old(Now()), sock.stream, old(sock.Pos())), ret, old(out))
    {
      hide Websock.ValidRecv, SecurityStep, Lifecycle, InOrder, AfterFail, FailOutput;
      if version >= 37 {
        ret := ChooseFromList();
      } else {
        ret := TakeServersScheme();
      }
    }

    /** Called on an empty queue the source reads a stale byte and goes back again: it waits. */
    method ChooseFromList() returns (ret: bool)
      requires Valid() && initState == Security && version >= 37
      modifies this, sock`rQi
      ensures Valid() && Took(SecurityStep(old(Now()), sock.stream, old(sock.Pos())), ret, old(out))
    {
      hide Websock.ValidRecv, Supported, Choice, Lifecycle, InOrder, AfterFail, FailOutput;
      var empty := sock.Wait(1, 0);
      if empty { return false; }
      var numTypes := sock.RQshift8();
      var wait := sock.Wait(numTypes, 1);
      if wait { return false; }
      ret := TakeTypes(numTypes);
    }

    method TakeTypes(numTypes: Byte) returns (ret: bool)
      requires Valid() && initState == Security && sock.rQi + numTypes <= sock.rQlen
      modifies this, sock`rQi
      ensures Valid()
      ensures var p := old(sock.Pos());
              Took(TypesAnswer(old(Now()), sock.stream[p..p + numTypes], p + numTypes), ret, old(out))
    {
      hide Websock.ValidRecv, Supported, Choice, Lifecycle, InOrder, AfterFail, FailOutput;
      if numTypes == 0 {
        securityStatus := 1;
        Enter(SecurityReason);
        return true;
      }
      ghost var s, p := sock.stream, sock.Pos();
      var types := sock.RQshiftBytes(numTypes);
      assert types == s[p..p + numTypes];
      ret := TakeChoice(types);
    }

    method TakeChoice(types: Bytes) returns (ret: bool)
      requires Valid() && initState == Security && types != []
      modifies this
      ensures Valid() && Took(TypesAnswer(old(Now()), types, sock.Pos()), ret, old(out))
    {
      hide Websock.ValidRecv, Supported, Choice, Lifecycle, InOrder, AfterFail, FailOutput;
      var scheme := Choose(types, false);
      SetScheme(scheme);
      if authScheme == -1 {
        Fail();
        return false;
      }
      Emit(SchemeChosen(authScheme));
      Enter(Authentication);
      return true;
    }

    method TakeServersScheme() returns (ret: bool)
      requires Valid() && initState == Security && version < 37
      modifies this, sock`rQi
      ensures Valid() && Took(SecurityStep(old(Now()), sock.stream, old(sock.Pos())), ret, old(out))
    {
      hide Websock.ValidRecv, U32, Lifecycle, InOrder, AfterFail, FailOutput;
      var wait := sock.Wait(4, 0);
      if wait { return false; }
      var scheme := sock.RQshift32();
      SetScheme(scheme);
      if authScheme == 0 {
        securityStatus := 1;
      }
      Enter(if authScheme == 0 then SecurityReason else Authentication);
      return true;
    }

    /** All of the reason, or nothing. */
    method ReadReason() returns (read: bool, reason: Bytes)
      requires sock.ValidRecv()
      modifies sock`rQi
      ensures sock.ValidRecv()
      ensures var s, p := sock.stream, old(sock.Pos());
              && (read <==> |s| >= p + 4 && |s| >= p + 4 + U32(s, p))
              && sock.Pos() == (if read then p + 4 + U32(s, p) else p)
              && (read ==> reason == s[p + 4..p + 4 + U32(s, p)])
    {
      hide Websock.ValidRecv, U32, Lifecycle, InOrder, AfterFail, FailOutput;
      reason := [];
      var wait := sock.Wait(4, 0);
      if wait { read := false; return; }
      var strlen := sock.RQshift32();
      if strlen > 0 {
        wait := sock.Wait(strlen, 4);
        if wait { read := false; return; }
        reason := sock.RQshiftStr(strlen);
      }
      read := true;
    }

    method HandleSecurityReason() returns (ret: bool)
      requires Valid()
      modifies this, sock`rQi
      ensures Valid() && Took(ReasonStep(old(Now()), sock.stream, old(sock.Pos())), ret, old(out))
    {
      hide Websock.ValidRecv, InOrder, Lifecycle, U32, AfterFail, FailOutput;
      var read, reason := ReadReason();
      if !read { return false; }
      ret := Refuse(reason);
    }

    /** The reason is reported and the connection fails. */
    method Refuse(reason: Bytes) returns (ret: bool)
      requires Valid()
      modifies this
      ensures Valid() && Took(Failed(old(Now()), sock.Pos(), [SecurityFailure(securityStatus, reason)]), ret, old(out))
    {
      hide Websock.ValidRecv, Lifecycle, InOrder, AfterFail, FailOutput;
      Emit(SecurityFailure(securityStatus, reason));
      Fail();
      return false;
    }

    method NegotiateStdVNCAuth() returns (ret: bool)
      requires Valid() && initState == Authentication
      modifies this, sock`rQi
      ensures Valid() && Took(VncStep(old(Now()), sock.stream, old(sock.Pos())), ret, old(out))
    {
      hide Websock.ValidRecv, Lifecycle, InOrder, AfterFail, FailOutput;
      var wait := sock.Wait(16, 0);
      if wait { return false; }
      if !identity.password {
        Emit(CredentialsRequired);
        return false;
      }
      var challenge := sock.RQshiftBytes(16);
      Emit(Credentials(VNC_AUTH));
      Enter(SecurityResult);
      return true;
    }

    method NegotiatePlainAuth() returns (ret: bool)
      requires Valid() && initState == Authentication
      modifies this
      ensures Valid() && Took(PlainStep(old(Now()), sock.Pos()), ret, old(out))
    {
      hide Websock.ValidRecv, Lifecycle, InOrder, AfterFail, FailOutput;
      if !identity.username || !identity.password {
        Emit(CredentialsRequired);
        return false;
      }
      Emit(Credentials(PLAIN));
      Enter(SecurityResult);
      return true;
    }

    method NegotiateXvpAuth() returns (ret: bool)
      requires Valid() && initState == Authentication
      modifies this, sock`rQi
      ensures Valid() && Took(XvpStep(old(Now()), sock.stream, old(sock.Pos())), ret, old(out))
    {
      hide Websock.ValidRecv, Lifecycle, InOrder, AfterFail, FailOutput;
      if !identity.username || !identity.password || !identity.target {
        Emit(CredentialsRequired);
        return false;
      }
      Emit(Credentials(XVP));
      SetScheme(VNC_AUTH);
      ret := NegotiateStdVNCAuth();
    }

    /** The VeNCrypt run goal has ended: for want of bytes, in a failure, or with a scheme. */
    ghost predicate VeEnded(h: Phase, goal: (VeNCrypt, nat), out0: seq<Output>, ret: bool)
      reads this, sock
    {
      Took(VeNCryptEnd(h, goal.0, goal.1), ret, out0)
    }

    lemma AfterField(h: Phase, h1: Phase, p1: nat, goal: (VeNCrypt, nat),
                     out0: seq<Output>, out1: seq<Output>, ret: bool)
      requires VeIn(h, h1, sock.stream, p1, goal, out0, out1) && Took(FieldStep(h1, sock.stream, p1), ret, out1)
      ensures if ret && veNCryptState < 4 then VeIn(h, Now(), sock.stream, sock.Pos(), goal, out0, out)
              else VeEnded(h, goal, out0, ret)
    {
      hide VeNCryptEnd, FieldStep, VeAt, Sent;
      FieldGoesOn(h, h1, sock.stream, p1, goal);
      var r := FieldStep(h1, sock.stream, p1);
      var before := Sent(h, h1.veState);
      assert (out0 + before) + r.out == out0 + (before + r.out);
    }

    /** The sub-state machine, falling through as far as the bytes reach. */
    method NegotiateVeNCryptAuth() returns (ret: bool)
      requires Valid() && initState == Authentication
      modifies this, sock`rQi
      ensures Valid() && Took(VeNCryptStep(old(Now()), sock.stream, old(sock.Pos())), ret, old(out))
    {
      hide Websock.ValidRecv, VeNCryptRun, VeNCryptEnd, FieldStep, Lifecycle, InOrder, VeIn;
      if veNCryptState >= 4 {
        return false;
      }
      ghost var h, out0, goal := Now(), out, VeNCryptRun(VeOf(Now()), sock.stream, sock.Pos());
      ghost var h1, p1, out1;
      VeStarts(h, sock.stream, sock.Pos(), out0);
      if veNCryptState == 0 {
        h1, p1, out1 := Now(), sock.Pos(), out;
        ret := ReadVersion();
        AfterField(h, h1, p1, goal, out0, out1, ret);
        if !ret { return false; }
      }
      if veNCryptState == 1 {
        h1, p1, out1 := Now(), sock.Pos(), out;
        ret := ReadAck();
        AfterField(h, h1, p1, goal, out0, out1, ret);
        if !ret { return false; }
      }
      if veNCryptState == 2 {
        h1, p1, out1 := Now(), sock.Pos(), out;
        ret := ReadSubtypesLength();
        AfterField(h, h1, p1, goal, out0, out1, ret);
        if !ret { return false; }
      }
      h1, p1, out1 := Now(), sock.Pos(), out;
      ret := ReadSubtypes();
      AfterField(h, h1, p1, goal, out0, out1, ret);
    }

    method ReadVersion() returns (ret: bool)
      requires Valid() && initState == Authentication && veNCryptState == 0
      modifies this, sock`rQi
      ensures Valid() && initState == Authentication && (ret ==> veNCryptState == 1)
      ensures Took(FieldStep(old(Now()), sock.stream, old(sock.Pos())), ret, old(out))
    {
      hide Websock.ValidRecv, InOrder, Lifecycle, AfterFail, FailOutput;
      var wait := sock.Wait(2, 0);
      if wait { return false; }
      var major := sock.RQshift8();
      var minor := sock.RQshift8();
      ret := AnswerVeNCrypt(major == 0 && minor == 2);
    }

    method AnswerVeNCrypt(known: bool) returns (ret: bool)
      requires Valid() && veNCryptState == 0
      modifies this
      ensures Valid()
      ensures Took(if known then Taken(sock.Pos(), old(Now()).(veState := 1), [VeNCryptVersion], true)
                   else Failed(old(Now()), sock.Pos(), []), ret, old(out))
    {
      hide Websock.ValidRecv, Lifecycle, InOrder, AfterFail, FailOutput;
      if !known {
        Fail();
        return false;
      }
      Emit(VeNCryptVersion);
      veNCryptState := 1;
      return true;
    }

    method ReadAck() returns (ret: bool)
      requires Valid() && initState == Authentication && veNCryptState == 1
      modifies this, sock`rQi
      ensures Valid() && initState == Authentication && (ret ==> veNCryptState == 2)
      ensures Took(FieldStep(old(Now()), sock.stream, old(sock.Pos())), ret, old(out))
    {
      hide Websock.ValidRecv, InOrder, Lifecycle, AfterFail, FailOutput;
      var wait := sock.Wait(1, 0);
      if wait { return false; }
      var res := sock.RQshift8();
      if res != 0 {
        Fail();
        return false;
      }
      veNCryptState := 2;
      return true;
    }

    method ReadSubtypesLength() returns (ret: bool)
      requires Valid() && initState == Authentication && veNCryptState == 2
      modifies this, sock`rQi
      ensures Valid() && initState == Authentication && (ret ==> veNCryptState == 3)
      ensures Took(FieldStep(old(Now()), sock.stream, old(sock.Pos())), ret, old(out))
    {
      hide Websock.ValidRecv, InOrder, Lifecycle, AfterFail, FailOutput;
      var wait := sock.Wait(1, 0);
      if wait { return false; }
      var length := sock.RQshift8();
      if length < 1 {
        Fail();
        return false;
      }
      subtypesLength := length;
      veNCryptState := 3;
      return true;
    }

    method ReadSubtypes() returns (ret: bool)
      requires Valid() && initState == Authentication && veNCryptState == 3
      modifies this, sock`rQi
      ensures Valid() && initState == Authentication && (ret ==> veNCryptState == 4)
      ensures Took(FieldStep(old(Now()), sock.stream, old(sock.Pos())), ret, old(out))
    {
      hide Websock.ValidRecv, Choice, Words, Lifecycle, InOrder, AfterFail, FailOutput;
      var wait := sock.Wait(4 * subtypesLength, 0);
      if wait { return false; }
      var subtypes := ReadWords(subtypesLength);
      ret := TakeSubtype(subtypes);
    }

    method TakeSubtype(subtypes: seq<nat>) returns (ret: bool)
      requires Valid() && initState == Authentication && veNCryptState == 3
      modifies this
      ensures Valid() && initState == Authentication
      ensures var scheme, h := Choice(subtypes, true), old(Now());
              Took(if scheme == -1 then Failed(h.(scheme := -1), sock.Pos(), [])
                   else Taken(sock.Pos(), h.(scheme := scheme, veState := 4), [SubtypeChosen(scheme)], true),
                   ret, old(out))
    {
      hide Websock.ValidRecv, Choice, Lifecycle, InOrder, AfterFail, FailOutput;
      var scheme := Choose(subtypes, true);
      SetScheme(scheme);
      if authScheme == -1 {
        Fail();
        return false;
      }
      Emit(SubtypeChosen(authScheme));
      veNCryptState := 4;
      return true;
    }

    method ReadWords(n: nat) returns (words: seq<nat>)
      requires sock.ValidRecv() && sock.rQi + 4 * n <= sock.rQlen
      modifies sock`rQi
      ensures sock.ValidRecv() && sock.rQi == old(sock.rQi) + 4 * n
      ensures words == Words(sock.stream, old(sock.Pos()), n)
    {
      hide Websock.ValidRecv, U32, Lifecycle, InOrder, AfterFail, FailOutput;
      words := [];
      var i := 0;
      while i < n
        invariant i <= n && sock.ValidRecv() && sock.rQi == old(sock.rQi) + 4 * i
        invariant words == Words(sock.stream, old(sock.Pos()), i)
      {
        var word := sock.RQshift32();
        words := words + [word];
        i := i + 1;
      }
    }

    method NegotiateAuthentication(foreign: Outcome, taken: nat) returns (ret: bool)
      requires Valid() && initState == Authentication && ForeignOk(foreign, taken)
      modifies this, sock`rQi
      ensures Valid() && Took(AuthStep(old(Now()), sock.stream, old(sock.Pos()), foreign, taken), ret, old(out))
    {
      hide Websock.ValidRecv, XvpStep, VncStep, VeNCryptStep, PlainStep, ForeignStep;
      hide Lifecycle, InOrder, AfterFail, FailOutput;
      if authScheme == NONE {
        if version >= 38 {
          Enter(SecurityResult);
        } else {
          Enter(ClientInitialisation);
        }
        return true;
      } else if authScheme == XVP {
        ret := NegotiateXvpAuth();
      } else if authScheme == VNC_AUTH {
        ret := NegotiateStdVNCAuth();
      } else if authScheme == VENCRYPT {
        ret := NegotiateVeNCryptAuth();
      } else if authScheme == PLAIN {
        ret := NegotiatePlainAuth();
      } else if Foreign(authScheme) {
        ret := ForeignAuth(foreign, taken);
      } else {
        Fail();
        ret := false;
      }
    }

    method ForeignAuth(foreign: Outcome, taken: nat) returns (ret: bool)
      requires Valid() && initState == Authentication && ForeignOk(foreign, taken)
      requires Foreign(authScheme)
      modifies this, sock`rQi
      ensures Valid() && Took(ForeignStep(old(Now()), sock.stream, old(sock.Pos()), foreign, taken), ret, old(out))
    {
      hide Websock.ValidRecv, Lifecycle, InOrder, AfterFail, FailOutput;
      if taken > sock.rQlen - sock.rQi {
        return false;
      }
      sock.RQskipBytes(taken);
      if authScheme == TIGHT && taken > 0 {
        tight := true;
      }
      ret := EndForeign(foreign);
    }

    method EndForeign(foreign: Outcome) returns (ret: bool)
      requires Valid() && initState == Authentication && Foreign(authScheme)
      modifies this
      ensures Valid()
      ensures Took(ForeignEnd(old(Now()), sock.Pos(), foreign), ret, old(out))
    {
      hide Websock.ValidRecv, Lifecycle, InOrder, AfterFail, FailOutput;
      match foreign {
        case Wait => ret := false;
        case Reject => Fail(); ret := false;
        case Accept => Enter(SecurityResult); ret := true;
        case Switch(scheme) => SetScheme(scheme); ret := true;
      }
    }

    method HandleSecurityResult() returns (ret: bool)
      requires Valid() && initState == SecurityResult
      modifies this, sock`rQi
      ensures Valid() && Took(ResultStep(old(Now()), sock.stream, old(sock.Pos())), ret, old(out))
    {
      hide Websock.ValidRecv, U32, Lifecycle, InOrder, AfterFail, FailOutput;
      var wait := sock.Wait(4, 0);
      if wait { return false; }
      var status := sock.RQshift32();
      ret := AnswerResult(status);
    }

    method AnswerResult(status: nat) returns (ret: bool)
      requires Valid() && initState == SecurityResult
      modifies this
      ensures Valid() && Took(ResultAnswer(old(Now()), status, sock.Pos()), ret, old(out))
    {
      hide Websock.ValidRecv, Lifecycle, InOrder, AfterFail, FailOutput;
      if status == 0 {
        Enter(ClientInitialisation);
        return true;
      }
      if version >= 38 {
        securityStatus := status;
        Enter(SecurityReason);
        return true;
      }
      Emit(SecurityFailure(status, []));
      Fail();
      return false;
    }

    method SendClientInit()
      requires Valid() && initState == ClientInitialisation
      modifies this
      ensures Valid() && Now() == old(Now()).(init := ServerInitialisation) && out == old(out) + [ClientInit]
    {
      hide Websock.ValidRecv, Lifecycle, InOrder, AfterFail, FailOutput;
      Emit(ClientInit);
      Enter(ServerInitialisation);
    }

    /** All of the message or none of it: three places may go back to its start. */
    method NegotiateServerInit() returns (ret: bool)
      requires Valid() && initState == ServerInitialisation
      modifies this, sock`rQi
      ensures Valid() && Took(ServerInitStep(old(Now()), sock.stream, old(sock.Pos())), ret, old(out))
    {
      hide Websock.ValidRecv, U16, U32, ServerInitEnd, Lifecycle, InOrder, AfterFail, FailOutput;
      var width, height, name;
      ret, width, height, name := ReadServerInit();
      if !ret {
        return false;
      }
      Join(width, height, name);
    }

    method Join(width: nat, height: nat, name: Bytes)
      requires Valid() && initState == ServerInitialisation
      modifies this
      ensures Valid()
      ensures Now() == if old(connectionState) == Connecting then old(Now()).(connection := Connected) else old(Now())
      ensures out == old(out) + if old(connectionState) == Connecting then
                                  [ServerInit(width, height, name), ConnectEvent]
                                else [ServerInit(width, height, name)]
    {
      hide Websock.ValidRecv, Lifecycle;
      Emit(ServerInit(width, height, name));
      UpdateConnectionState(Connected);
    }

    method ReadServerInit() returns (ret: bool, width: nat, height: nat, name: Bytes)
      requires sock.ValidRecv()
      modifies sock`rQi
      ensures sock.ValidRecv()
      ensures var s, p := sock.stream, old(sock.Pos());
              var end := ServerInitEnd(s, p, tight);
              && ret == end.Some? && sock.Pos() == (if ret then end.value else p)
              && (ret ==> width == U16(s, p) && height == U16(s, p + 2) && name == s[p + 24..p + 24 + U32(s, p + 20)])
    {
      hide Websock.ValidRecv, U16, U32, ServerInitEnd;
      width, height, name := 0, 0, [];
      var wait := sock.Wait(24, 0);
      if wait { ret := false; return; }
      width := sock.RQshift16();
      height := sock.RQshift16();
      sock.RQskipBytes(16);
      ret, name := ReadName();
    }

    /** The rest of the message, from the length of the name on. */
    method ReadName() returns (ret: bool, name: Bytes)
      requires sock.ValidRecv() && sock.rQi >= 20 && sock.rQi + 4 <= sock.rQlen
      modifies sock`rQi
      ensures sock.ValidRecv()
      ensures var s, p := sock.stream, old(sock.Pos()) - 20;
              var end := ServerInitEnd(s, p, tight);
              && ret == end.Some? && sock.Pos() == (if ret then end.value else p)
              && (ret ==> name == s[p + 24..p + 24 + U32(s, p + 20)])
    {
      hide Websock.ValidRecv, U16, U32;
      name := [];
      var nameLength := sock.RQshift32();
      var wait := sock.Wait(nameLength, 24);
      if wait { ret := false; return; }
      name := sock.RQshiftStr(nameLength);
      ret := true;
      if tight {
        ret := SkipTightCapabilities(nameLength);
      }
    }

    method SkipTightCapabilities(nameLength: nat) returns (ret: bool)
      requires sock.ValidRecv() && sock.rQi >= 24 + nameLength
      modifies sock`rQi
      ensures sock.ValidRecv()
      ensures var s, q := sock.stream, old(sock.Pos());
              && (ret <==> |s| >= q + 8 && |s| >= q + 8 + 16 * (U16(s, q) + U16(s, q + 2) + U16(s, q + 4)))
              && sock.Pos() == if ret then q + 8 + 16 * (U16(s, q) + U16(s, q + 2) + U16(s, q + 4))
                               else q - 24 - nameLength
    {
      hide Websock.ValidRecv, U16, Lifecycle, InOrder, AfterFail, FailOutput;
      var wait := sock.Wait(8, 24 + nameLength);
      if wait { return false; }
      var serverMessages := sock.RQshift16();
      var clientMessages := sock.RQshift16();
      var encodings := sock.RQshift16();
      sock.RQskipBytes(2);
      wait := sock.Wait((serverMessages + clientMessages + encodings) * 16, 32 + nameLength);
      if wait { return false; }
      sock.RQskipBytes(16 * serverMessages);
      sock.RQskipBytes(16 * clientMessages);
      sock.RQskipBytes(16 * encodings);
      return true;
    }

    /** sendCredentials, which also schedules a call of InitMsg. */
    method SetCredentials(given: Identity)
      requires Valid()
      modifies `identity
      ensures Valid() && identity == given
    {
      identity := given;
    }

    /** One handshake step; also what sendCredentials schedules, in whatever state it then finds. */
    method InitMsg(foreign: Outcome, taken: nat) returns (ret: bool)
      requires Valid() && ForeignOk(foreign, taken)
      modifies this, sock`rQi
      ensures Valid()
      ensures Took(InitStep(old(Now()), sock.stream, old(sock.Pos()), foreign, taken), ret, old(out))
    {
      hide Websock.ValidRecv, VersionStep, SecurityStep, AuthStep, ResultStep, ReasonStep, ServerInitStep;
      hide Lifecycle, InOrder, AfterFail, FailOutput;
      match initState {
        case ProtocolVersion => ret := NegotiateProtocolVersion();
        case Security => ret := NegotiateSecurity();
        case Authentication => ret := NegotiateAuthentication(foreign, taken);
        case SecurityResult => ret := HandleSecurityResult();
        case SecurityReason => ret := HandleSecurityReason();
        case ClientInitialisation =>
          SendClientInit();
          ret := true;
        case ServerInitialisation => ret := NegotiateServerInit();
        case NotStarted =>
          Fail();
          ret := false;
      }
    }

    /** _handleMessage while connecting; without data, or in another state, nothing happens. */
    method HandleMessage(turns: seq<Turn>)
      requires Valid() && TurnsOk(turns)
      modifies this, sock`rQi
      ensures Valid()
      ensures var h, s, p := old(Now()), sock.stream, old(sock.Pos());
              var r := if p == |s| then Stay(h, p) else InitRun(h, s, p, turns);
              Ran(r, old(out))
    {
      hide Websock.ValidRecv, Lifecycle, InOrder, InitStep, AfterFail, FailOutput;
      ghost var goal := InitRun(Now(), sock.stream, sock.Pos(), turns);
      ghost var out0 := out;
      var wait := sock.Wait(1, 0);
      if wait { return; }
      var left := turns;
      while connectionState == Connecting
        invariant Valid() && sock.Pos() <= |sock.stream| && TurnsOk(left)
        invariant var run := InitRun(Now(), sock.stream, sock.Pos(), left);
                  goal.phase == run.phase && goal.next == run.next && out0 + goal.out == out + run.out
        decreases sock.rQlen - sock.rQi, InitRank(initState)
      {
        var turn := Next(left);
        ghost var r, before := InitStep(Now(), sock.stream, sock.Pos(), turn.outcome, turn.taken), out;
        if left != [] && initState == Authentication && Foreign(authScheme) {
          left := left[1..];
        }
        var more := InitMsg(turn.outcome, turn.taken);
        if !more {
          break;
        }
        ghost var rest := InitRun(Now(), sock.stream, sock.Pos(), left);
        assert before + (r.out + rest.out) == (before + r.out) + rest.out;
      }
    }

    /** A network message while the handshake goes on, without foreign negotiations. */
    method OnMessage(data: Bytes) returns (ok: bool)
      requires Valid() && sock.Valid()
      modifies this, sock`rQi, sock`rQlen, sock`rQbufferSize, sock`rQ, sock`base, sock`stream, sock.rQ
      ensures ok <==> old(|sock.Unread()|) + |data| <= MAX_RQ_GROW_SIZE
      ensures sock.rQ == old(sock.rQ) || fresh(sock.rQ)
      ensures ok ==> Valid() && sock.Valid() && sock.stream == old(sock.stream) + data
      ensures ok ==> Ran(Handled(old(Now()), sock.stream, old(sock.Pos())), old(out))
    {
      hide Websock.ValidRecv, Websock.ValidSend, Lifecycle, InOrder, InitRun;
      ok := sock.RecvMessage(data);
      if ok {
        HandleMessage([]);
      }
    }

    /** Any sequence of network messages that fit is handled as InitDeliver says. */
    method OnMessages(chunks: seq<Bytes>) returns (ok: bool)
      requires Valid() && sock.Valid()
      modifies this, sock`rQi, sock`rQlen, sock`rQbufferSize, sock`rQ, sock`base, sock`stream, sock.rQ
      ensures sock.rQ == old(sock.rQ) || fresh(sock.rQ)
      ensures ok ==> Valid() && sock.Valid() && sock.stream == old(sock.stream) + Flatten(chunks)
      ensures ok ==> Ran(InitDeliver(old(Now()), old(sock.stream), old(sock.Pos()), chunks), old(out))
      decreases |chunks|
    {
      hide Websock.ValidRecv, Websock.ValidSend, Lifecycle, InOrder, InitRun, Handled;
      if chunks == [] {
        assert out + [] == out && sock.stream + [] == sock.stream;
        return true;
      }
      ghost var h, s, p, out0 := Now(), sock.stream, sock.Pos(), out;
      ok := OnMessage(chunks[0]);
      if !ok {
        return;
      }
      ok := OnMessages(chunks[1..]);
      FlattenCons(chunks[0], chunks[1..]);
      assert chunks == [chunks[0]] + chunks[1..];
      if ok {
        ghost var r := Handled(h, s + chunks[0], p);
        ghost var rest := InitDeliver(r.phase, s + chunks[0], r.next, chunks[1..]);
        assert out0 + (r.out + rest.out) == (out0 + r.out) + rest.out;
        assert s + (chunks[0] + Flatten(chunks[1..])) == (s + chunks[0]) + Flatten(chunks[1..]);
      }
    }

    /** In every reachable state the connect event has been raised at most once, and the disconnect
        event once exactly in the disconnected state, which is for good. */
    lemma EventsAtMostOnce()
      requires Valid()
      ensures Connects(out) <= 1 && Disconnects(out) == if connectionState == Disconnected then 1 else 0
      ensures connectionState == Connected ==> Connects(out) == 1
    {
    }

    /** Main result: in every reachable state, whoever is or was connected went through the
        handshake in order, and left out SecurityResult only for scheme None below version 3.8. */
    lemma ConnectedMeansNegotiated()
      requires Valid() && Connects(out) == 1
      ensures var start := [ProtocolVersion, Security, Authentication];
              var end := [ClientInitialisation, ServerInitialisation];
              && trace in {start + [SecurityResult] + end, start + end}
              && (trace == start + end ==> authScheme == NONE && version < 38)
    {
      var start, end := [ProtocolVersion, Security, Authentication], [ClientInitialisation, ServerInitialisation];
      assert start + [] == start;
      assert |start + [SecurityResult] + end| == 6 && |start + end| == 5;
    }
  }
}
