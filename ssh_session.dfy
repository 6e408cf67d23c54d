/**
  `SshSession`: one SSH connection with its table of local port forwards, and the
  collection of a remote command's output.

  The transport (russh), the listener sockets and the known_hosts file are outside the
  model: what they answer is passed in as parameters.
*/
module SshSession {
  import opened Base
  import opened Strings
  import opened SshConfig

  /** An authenticated connection (russh `client::Handle`), opaque. */
  datatype ConnectionHandle = ConnectionHandle(id: nat)

  /** The errors the session reports, one per `anyhow!` message or `?` it propagates. */
  datatype SessionError =
    | ConnectTimedOut
    | TransportError
    | HostKeyMismatch(host: string, port: uint16)
    | KeyLoadFailed
    | AgentNotImplemented
    | AuthenticationFailed
    | NotConnected
    | AlreadyForwarded(port: uint16)
    | BindFailed(port: uint16)
    | NoForward(port: uint16)

  // ---------------------------------------------------------------------------
  // Host key check (trust on first use)
  // ---------------------------------------------------------------------------

  /** A server public key, by its encoding. */
  type PublicKey = string

  datatype Endpoint = Endpoint(host: string, port: uint16)

  /** The known_hosts file: the key remembered for each host and port. */
  type KnownHosts = map<Endpoint, PublicKey>

  /**
    What russh's `check_known_hosts` answers for a host, a port and a key:
    `Ok(true)`, `Ok(false)` or `Err(_)`. The library itself is not modelled, so the
    answer is an input.
  */
  datatype KnownHostsAnswer = AnswerTrue | AnswerFalse | AnswerError

  /**
    `SshHandler::check_server_key`, deciding on the library's answer: `Ok(true)`
    accepts, `Ok(false)` rejects the connection as a host key mismatch, and an error
    accepts the key (trust on first use).
  */
  function CheckServerKey(answer: KnownHostsAnswer, host: string, port: uint16): (r: Result<bool, SessionError>)
    ensures r.Success? ==> r.value
    ensures r.Failure? <==> answer.AnswerFalse?
    ensures r.Failure? ==> r.error == HostKeyMismatch(host, port)
  {
    match answer
    case AnswerTrue => Success(true)
    case AnswerFalse => Failure(HostKeyMismatch(host, port))
    case AnswerError => Success(true)
  }

  /**
    The known_hosts file after `check_server_key`: only an error answer makes it call
    `learn_known_hosts`, and a failed save is only logged, leaving the file as it was.
  */
  function LearnHostKey(known: KnownHosts, ep: Endpoint, key: PublicKey, answer: KnownHostsAnswer, saveSucceeds: bool)
    : (r: KnownHosts)
    ensures answer.AnswerError? && saveSucceeds ==> ep in r && r[ep] == key
    ensures forall e :: e in known && e != ep ==> e in r && r[e] == known[e]
    ensures !(answer.AnswerError? && saveSucceeds) ==> r == known
  {
    if answer.AnswerError? && saveSucceeds then known[ep := key] else known
  }

  /**
    The meaning the handler's comments give to the library's answers: `Ok(true)` for a
    remembered key that matches, `Ok(false)` for a remembered key that differs, and an
    error for a host that is not in the file.
  */
  function CommentedAnswer(known: KnownHosts, ep: Endpoint, key: PublicKey): (a: KnownHostsAnswer)
    ensures a.AnswerTrue? <==> ep in known && known[ep] == key
    ensures a.AnswerFalse? <==> ep in known && known[ep] != key
    ensures a.AnswerError? <==> ep !in known
  {
    if ep !in known then AnswerError
    else if known[ep] == key then AnswerTrue
    else AnswerFalse
  }

  /**
    Trust on first use, under the commented meaning of the answers: an unknown host is
    accepted and its key learned; on the next connection the same key is accepted and
    any other key is rejected.
  */
  lemma TrustOnFirstUse(known: KnownHosts, host: string, port: uint16, key: PublicKey, other: PublicKey)
    requires Endpoint(host, port) !in known
    requires other != key
    ensures var ep := Endpoint(host, port);
      var learned := LearnHostKey(known, ep, key, CommentedAnswer(known, ep, key), true);
      && CheckServerKey(CommentedAnswer(known, ep, key), host, port) == Success(true)
      && CheckServerKey(CommentedAnswer(learned, ep, key), host, port) == Success(true)
      && CheckServerKey(CommentedAnswer(learned, ep, other), host, port) == Failure(HostKeyMismatch(host, port))
  {
  }

  /**
    Whatever the library means by an error, the handler trusts the key and records it
    when the save works, even over a different key already remembered for that host.
  */
  lemma ErrorAnswerTrustsAnyKey(known: KnownHosts, host: string, port: uint16, key: PublicKey)
    ensures CheckServerKey(AnswerError, host, port) == Success(true)
    ensures var learned := LearnHostKey(known, Endpoint(host, port), key, AnswerError, true);
      Endpoint(host, port) in learned && learned[Endpoint(host, port)] == key
  {
  }

  // ---------------------------------------------------------------------------
  // Connecting and authenticating
  // ---------------------------------------------------------------------------

  /** What the TCP connect (within its 10 s timeout) produced. */
  datatype TcpOutcome = ConnectTimeout | Unreachable | Reached(serverKey: PublicKey)

  /** The server's answer to the authentication request. */
  datatype AuthReply = AuthAccepted | AuthRejected | AuthProtocolError

  /** Everything `connect` learns from the outside world. */
  datatype ConnectEnv = ConnectEnv(
    tcp: TcpOutcome,
    knownHosts: KnownHosts,
    hostKeyAnswer: KnownHostsAnswer,
    saveSucceeds: bool,
    keyFileLoads: bool,
    reply: AuthReply,
    newHandle: ConnectionHandle)

  /** Whether the TCP connect reached a server and the handler accepted its key. */
  predicate KeyAccepted(config: Config, env: ConnectEnv)
  {
    env.tcp.Reached? && CheckServerKey(env.hostKeyAnswer, config.host, config.port).Success?
  }

  /**
    The decisions of `SshSession::connect`: connect, check the host key, then
    authenticate by the configured method. Agent authentication always fails, a key
    file that does not load fails, a rejected authentication fails, and only an
    accepted one yields a handle. The second component is the known_hosts file
    afterwards.
  */
  function Handshake(config: Config, env: ConnectEnv): (r: (Result<ConnectionHandle, SessionError>, KnownHosts))
    ensures env.tcp.ConnectTimeout? ==> r.0 == Failure(ConnectTimedOut)
    ensures env.tcp.Unreachable? ==> r.0 == Failure(TransportError)
    ensures env.tcp.Reached? && env.hostKeyAnswer.AnswerFalse? ==>
      r.0 == Failure(HostKeyMismatch(config.host, config.port))
    ensures KeyAccepted(config, env) && config.auth.Agent? ==> r.0 == Failure(AgentNotImplemented)
    ensures KeyAccepted(config, env) && config.auth.KeyFile? && !env.keyFileLoads ==> r.0 == Failure(KeyLoadFailed)
    ensures (KeyAccepted(config, env) && !config.auth.Agent? && (config.auth.KeyFile? ==> env.keyFileLoads)) ==>
      r.0 == (match env.reply
              case AuthAccepted => Success(env.newHandle)
              case AuthRejected => Failure(AuthenticationFailed)
              case AuthProtocolError => Failure(TransportError))
    ensures config.auth.Agent? ==> r.0.Failure?
    ensures r.0.Success? ==>
      && r.0.value == env.newHandle
      && KeyAccepted(config, env)
      && env.reply == AuthAccepted
      && (config.auth.KeyFile? ==> env.keyFileLoads)
    ensures !env.tcp.Reached? ==> r.1 == env.knownHosts
    ensures env.tcp.Reached? ==>
      r.1 == LearnHostKey(env.knownHosts, Endpoint(config.host, config.port), env.tcp.serverKey,
                          env.hostKeyAnswer, env.saveSucceeds)
  {
    match env.tcp
    case ConnectTimeout => (Failure(ConnectTimedOut), env.knownHosts)
    case Unreachable => (Failure(TransportError), env.knownHosts)
    case Reached(serverKey) =>
      var verdict := CheckServerKey(env.hostKeyAnswer, config.host, config.port);
      var known := LearnHostKey(env.knownHosts, Endpoint(config.host, config.port), serverKey,
                                env.hostKeyAnswer, env.saveSucceeds);
      if verdict.Failure? then (Failure(verdict.error), known)
      else
        var auth :=
          match config.auth
          case Password(_) => Success(env.reply)
          case KeyFile(_, _) => if env.keyFileLoads then Success(env.reply) else Failure(KeyLoadFailed)
          case Agent => Failure(AgentNotImplemented);
        if auth.Failure? then (Failure(auth.error), known)
        else
          match auth.value
          case AuthAccepted => (Success(env.newHandle), known)
          case AuthRejected => (Failure(AuthenticationFailed), known)
          case AuthProtocolError => (Failure(TransportError), known)
  }

  /** The default configuration authenticates through the agent, so it can never connect. */
  lemma DefaultConfigNeverConnects(env: ConnectEnv)
    ensures Handshake(DefaultConfig(), env).0.Failure?
    ensures env.tcp.Reached? && !env.hostKeyAnswer.AnswerFalse? ==>
      Handshake(DefaultConfig(), env).0 == Failure(AgentNotImplemented)
  {
  }

  // ---------------------------------------------------------------------------
  // Collecting a command's output (RFC 4254 sections 5.2, 5.3, 6.5 and 6.10)
  // ---------------------------------------------------------------------------

  /** The channel messages `exec_command` distinguishes; everything else is `OtherMsg`. */
  datatype ChannelMsg =
    | Data(data: seq<uint8>)
    | ExtendedData(data: seq<uint8>, ext: uint32)
    | ExitStatus(status: uint32)
    | Eof
    | Close
    | OtherMsg

  /**
    One outcome of waiting on the channel: a message, the end of the channel
    (`Ok(None)`), or a timeout (the 10 s per-message or the 60 s overall deadline).
  */
  datatype ChannelEvent = Message(msg: ChannelMsg) | ChannelEnded | WaitTimedOut

  /** Whether the session channel opened and accepted the exec request, and what it then delivered. */
  datatype ExecChannel = OpenFailed | ExecRequestFailed | Opened(events: seq<ChannelEvent>)

  /** `(exit_code, stdout)` as `exec_command` returns it. */
  datatype ExecOutput = ExecOutput(exitCode: int, stdout: string)

  /** The loop's variables: the output so far, `exit_code` and `got_eof`. */
  datatype ExecState = ExecState(stdout: seq<uint8>, exitCode: int, gotEof: bool)

  const InitialExecState := ExecState([], -1, false)

  /** `exit_status as i32` for a `u32` status: two's-complement reinterpretation. */
  function AsI32(x: uint32): (r: int)
    ensures -0x8000_0000 <= r < 0x8000_0000
    ensures r == x || r == x - 0x1_0000_0000
  {
    if x < 0x8000_0000 then x else x - 0x1_0000_0000
  }

  /** One turn of the loop: the new variables, and whether the loop breaks. */
  function Step(st: ExecState, ev: ChannelEvent): (ExecState, bool) {
    match ev
    case ChannelEnded => (st, true)
    case WaitTimedOut => (st, true)
    case Message(m) =>
      match m
      case Data(d) => (st.(stdout := st.stdout + d), false)
      case ExtendedData(d, _) => (st.(stdout := st.stdout + d), false)
      case ExitStatus(s) => (st.(exitCode := AsI32(s)), st.gotEof)
      case Eof => (st.(gotEof := true), st.exitCode != -1)
      case Close => (st, true)
      case OtherMsg => (st, false)
  }

  /** The loop run over the events, from the given variables, until it breaks or the events run out. */
  function Drain(events: seq<ChannelEvent>, st: ExecState): ExecState
    decreases |events|
  {
    if events == [] then st
    else
      var (next, stop) := Step(st, events[0]);
      if stop then next else Drain(events[1..], next)
  }

  /** `String::from_utf8_lossy` on ASCII text; any other byte becomes U+FFFD. */
  function Decode(bytes: seq<uint8>): (s: string)
    ensures |s| == |bytes|
    ensures forall i :: 0 <= i < |bytes| && bytes[i] < 0x80 ==> s[i] as int == bytes[i]
  {
    seq(|bytes|, i requires 0 <= i < |bytes| => if bytes[i] < 0x80 then bytes[i] as char else '\U{FFFD}')
  }

  /** What `exec_command` returns for a channel that delivered `events`. */
  function ExecResult(events: seq<ChannelEvent>): ExecOutput {
    var st := Drain(events, InitialExecState);
    ExecOutput(st.exitCode, Trim(Decode(st.stdout)))
  }

  /**
    What `exec_command` answers, by whether the session is connected and what the
    channel did: the contract of `Session.ExecCommand`, for callers that reason about
    several commands.
  */
  function ExecReply(connected: bool, channel: ExecChannel): (r: Result<ExecOutput, SessionError>)
    ensures !connected ==> r == Failure(NotConnected)
    ensures connected && !channel.Opened? ==> r == Failure(TransportError)
    ensures r.Success? ==> connected && channel.Opened? && r.value == ExecResult(channel.events)
  {
    if !connected then Failure(NotConnected)
    else if !channel.Opened? then Failure(TransportError)
    else Success(ExecResult(channel.events))
  }

  // The same results, defined over the events the loop consumed rather than by running it.

  /** Data and extended-data payloads, concatenated in arrival order. */
  function Payloads(events: seq<ChannelEvent>): seq<uint8> {
    if events == [] then []
    else
      var last := events[|events| - 1];
      Payloads(events[..|events| - 1]) +
        (if last.Message? && (last.msg.Data? || last.msg.ExtendedData?) then last.msg.data else [])
  }

  /** The last exit status received, as `i32`, or -1 when none was received. */
  function LastStatus(events: seq<ChannelEvent>): int {
    if events == [] then -1
    else
      var last := events[|events| - 1];
      if last.Message? && last.msg.ExitStatus? then AsI32(last.msg.status)
      else LastStatus(events[..|events| - 1])
  }

  predicate SawEof(events: seq<ChannelEvent>) {
    exists i :: 0 <= i < |events| && events[i] == Message(Eof)
  }

  /** After `prefix`, the event `ev` ends the loop. */
  predicate StopsAfter(prefix: seq<ChannelEvent>, ev: ChannelEvent) {
    match ev
    case ChannelEnded => true
    case WaitTimedOut => true
    case Message(m) =>
      match m
      case ExitStatus(_) => SawEof(prefix)
      case Eof => LastStatus(prefix) != -1
      case Close => true
      case _ => false
  }

  /** How many events the loop reads, starting at index `i`. */
  function ConsumedFrom(events: seq<ChannelEvent>, i: nat): (n: nat)
    requires i <= |events|
    ensures i <= n <= |events|
    decreases |events| - i
  {
    if i == |events| then i
    else if StopsAfter(events[..i], events[i]) then i + 1
    else ConsumedFrom(events, i + 1)
  }

  function StateAfter(events: seq<ChannelEvent>): ExecState {
    ExecState(Payloads(events), LastStatus(events), SawEof(events))
  }

  lemma StepAgrees(prefix: seq<ChannelEvent>, ev: ChannelEvent)
    ensures Step(StateAfter(prefix), ev) == (StateAfter(prefix + [ev]), StopsAfter(prefix, ev))
  {
    var p := prefix + [ev];
    assert p[..|p| - 1] == prefix;
    assert p[|p| - 1] == ev;
    assert Payloads(p) == Payloads(prefix) +
      (if ev.Message? && (ev.msg.Data? || ev.msg.ExtendedData?) then ev.msg.data else []);
    assert LastStatus(p) == if ev.Message? && ev.msg.ExitStatus? then AsI32(ev.msg.status) else LastStatus(prefix);
    assert SawEof(p) <==> SawEof(prefix) || ev == Message(Eof) by {
      if SawEof(p) && !SawEof(prefix) {
        var i :| 0 <= i < |p| && p[i] == Message(Eof);
        assert i == |prefix|;
      }
      if SawEof(prefix) {
        var i :| 0 <= i < |prefix| && prefix[i] == Message(Eof);
        assert p[i] == Message(Eof);
      }
      if ev == Message(Eof) {
        assert p[|prefix|] == Message(Eof);
      }
    }
    var st := StateAfter(prefix);
    var (next, stop) := Step(st, ev);
    assert next.stdout == Payloads(p);
    assert next.exitCode == LastStatus(p);
    assert next.gotEof == SawEof(p);
    assert stop == StopsAfter(prefix, ev);
  }

  lemma {:induction false} DrainFrom(events: seq<ChannelEvent>, i: nat)
    requires i <= |events|
    ensures Drain(events[i..], StateAfter(events[..i])) == StateAfter(events[..ConsumedFrom(events, i)])
    decreases |events| - i
  {
    if i < |events| {
      StepAgrees(events[..i], events[i]);
      assert events[..i] + [events[i]] == events[..i + 1];
      if !StopsAfter(events[..i], events[i]) {
        assert events[i..][1..] == events[i + 1..];
        DrainFrom(events, i + 1);
      }
    }
  }

  /**
    `exec_command`'s result, described without running the loop: the loop reads the
    events up to and including the first one that ends it (Close, channel end,
    timeout, a status after EOF, EOF after a status); the exit code is the last status
    among them, or -1, and the output is their payloads in arrival order, trimmed.
  */
  lemma ExecResultMeaning(events: seq<ChannelEvent>)
    ensures var consumed := events[..ConsumedFrom(events, 0)];
      ExecResult(events) == ExecOutput(LastStatus(consumed), Trim(Decode(Payloads(consumed))))
  {
    DrainFrom(events, 0);
    assert events[0..] == events;
    assert !SawEof(events[..0]);
    assert StateAfter(events[..0]) == InitialExecState;
  }

  /** Without any exit status among the events, the exit code is the -1 sentinel. */
  lemma {:induction false} NoStatusMeansMinusOne(events: seq<ChannelEvent>)
    requires forall i :: 0 <= i < |events| ==> !(events[i].Message? && events[i].msg.ExitStatus?)
    ensures ExecResult(events).exitCode == -1
  {
    ExecResultMeaning(events);
    var consumed := events[..ConsumedFrom(events, 0)];
    NoStatusInPrefix(consumed);
  }

  lemma {:induction false} NoStatusInPrefix(events: seq<ChannelEvent>)
    requires forall i :: 0 <= i < |events| ==> !(events[i].Message? && events[i].msg.ExitStatus?)
    ensures LastStatus(events) == -1
  {
    if events != [] {
      NoStatusInPrefix(events[..|events| - 1]);
    }
  }

  /** A timeout or the end of the channel ends the loop with the same result as Close. */
  lemma {:induction false} EndsLikeClose(pre: seq<ChannelEvent>, ending: ChannelEvent, after1: seq<ChannelEvent>, after2: seq<ChannelEvent>, st: ExecState)
    requires ending == ChannelEnded || ending == WaitTimedOut
    ensures Drain(pre + [ending] + after1, st) == Drain(pre + [Message(Close)] + after2, st)
    decreases |pre|
  {
    var a := pre + [ending] + after1;
    var b := pre + [Message(Close)] + after2;
    if pre != [] {
      assert a[0] == b[0] == pre[0];
      var (next, stop) := Step(st, pre[0]);
      if !stop {
        assert a[1..] == pre[1..] + [ending] + after1;
        assert b[1..] == pre[1..] + [Message(Close)] + after2;
        EndsLikeClose(pre[1..], ending, after1, after2, next);
      }
    }
  }

  lemma TimeoutGivesCloseResult(pre: seq<ChannelEvent>, after1: seq<ChannelEvent>, after2: seq<ChannelEvent>)
    ensures ExecResult(pre + [WaitTimedOut] + after1) == ExecResult(pre + [Message(Close)] + after2)
    ensures ExecResult(pre + [ChannelEnded] + after1) == ExecResult(pre + [Message(Close)] + after2)
  {
    EndsLikeClose(pre, WaitTimedOut, after1, after2, InitialExecState);
    EndsLikeClose(pre, ChannelEnded, after1, after2, InitialExecState);
  }

  // ---------------------------------------------------------------------------
  // The session object
  // ---------------------------------------------------------------------------

  /**
    The sending half of a forward's cancellation channel (`watch::Sender<bool>`):
    `cancelled` is the value the forward's accept loop watches.
  */
  class CancelSender {
    var cancelled: bool

    constructor ()
      ensures !cancelled
    {
      cancelled := false;
    }

    /** `tx.send(true)`. */
    method Send()
      modifies this
      ensures cancelled
    {
      cancelled := true;
    }
  }

  class Session {
    var config: Config
    var handle: Option<ConnectionHandle>
    /** Active port forwards: local port to the sender that cancels it. */
    var forwards: map<uint16, CancelSender>

    /** Every forward has a sender of its own. */
    ghost predicate Valid()
      reads this
    {
      forall p, q :: p in forwards && q in forwards && p != q ==> forwards[p] != forwards[q]
    }

    predicate IsConnected()
      reads this
    {
      handle.Some?
    }

    /** `SshSession::new`: not connected, no forwards. */
    constructor (config: Config)
      ensures this.config == config
      ensures handle == None && !IsConnected()
      ensures forwards == map[]
      ensures Valid()
    {
      this.config := config;
      handle := None;
      forwards := map[];
    }

    /**
      `SshSession::connect`: on success the new handle replaces the old one; on any
      failure the handle is left as it was. Forwards are never touched.
    */
    method Connect(env: ConnectEnv) returns (r: Outcome<SessionError>, knownHostsAfter: KnownHosts)
      modifies this`handle
      ensures var (h, known) := Handshake(config, env);
        && knownHostsAfter == known
        && (h.Success? ==> r == Pass && handle == Some(h.value))
        && (h.Failure? ==> r == Fail(h.error) && handle == old(handle))
      ensures r.Pass? ==> IsConnected()
    {
      var (h, known) := Handshake(config, env);
      knownHostsAfter := known;
      if h.Failure? {
        return Fail(h.error), knownHostsAfter;
      }
      handle := Some(h.value);
      r := Pass;
    }

    /**
      `SshSession::disconnect`: drops the handle and always succeeds, whatever the
      server answers; the forwards stay as they are.
    */
    method Disconnect() returns (r: Outcome<SessionError>)
      modifies this`handle
      ensures r == Pass
      ensures handle == None && !IsConnected()
      ensures forwards == old(forwards)
    {
      handle := None;
      r := Pass;
    }

    /**
      `start_port_forward`: a port already forwarded is refused first, then a session
      without a connection, then a failed bind; only success records the port, with a
      fresh, uncancelled sender, and leaves every other entry as it was.
    */
    method StartPortForward(localPort: uint16, remoteHost: string, remotePort: uint16, bindSucceeds: bool)
      returns (r: Outcome<SessionError>)
      requires Valid()
      modifies this`forwards
      ensures Valid()
      ensures old(localPort in forwards) ==> r == Fail(AlreadyForwarded(localPort))
      ensures localPort !in old(forwards) && handle.None? ==> r == Fail(NotConnected)
      ensures localPort !in old(forwards) && handle.Some? && !bindSucceeds ==> r == Fail(BindFailed(localPort))
      ensures r.Pass? <==> localPort !in old(forwards) && handle.Some? && bindSucceeds
      ensures r.Fail? ==> forwards == old(forwards)
      ensures r.Pass? ==>
        && localPort in forwards
        && fresh(forwards[localPort])
        && !forwards[localPort].cancelled
        && forwards == old(forwards)[localPort := forwards[localPort]]
    {
      if localPort in forwards {
        return Fail(AlreadyForwarded(localPort));
      }
      if handle.None? {
        return Fail(NotConnected);
      }
      if !bindSucceeds {
        return Fail(BindFailed(localPort));
      }
      var tx := new CancelSender();
      forwards := forwards[localPort := tx];
      r := Pass;
    }

    /**
      `stop_port_forward`: a forwarded port is removed and its forward is told to stop;
      an unknown port is an error and changes nothing. No other forward is touched.
    */
    method StopPortForward(localPort: uint16) returns (r: Outcome<SessionError>)
      requires Valid()
      modifies this`forwards, forwards.Values
      ensures Valid()
      ensures old(localPort in forwards) ==>
        r == Pass && forwards == old(forwards) - {localPort} && old(forwards)[localPort].cancelled
      ensures localPort !in old(forwards) ==> r == Fail(NoForward(localPort)) && forwards == old(forwards)
      ensures forall q :: q in forwards ==> forwards[q].cancelled == old(forwards[q].cancelled)
    {
      if localPort in forwards {
        var tx := forwards[localPort];
        forwards := forwards - {localPort};
        tx.Send();
        r := Pass;
      } else {
        r := Fail(NoForward(localPort));
      }
    }

    /** `stop_all_forwards`: the table is drained and every forward in it is told to stop. */
    method StopAllForwards()
      requires Valid()
      modifies this`forwards, forwards.Values
      ensures Valid()
      ensures forwards == map[]
      ensures forall p :: p in old(forwards) ==> old(forwards)[p].cancelled
    {
      while forwards != map[]
        invariant Valid()
        invariant forall p :: p in forwards ==> p in old(forwards) && forwards[p] == old(forwards)[p]
        invariant forall p :: p in old(forwards) && p !in forwards ==> old(forwards)[p].cancelled
        decreases forwards.Keys
      {
        var p :| p in forwards;
        var tx := forwards[p];
        forwards := forwards - {p};
        tx.Send();
      }
    }

    /** `active_forwards`: every forwarded port exactly once, in no promised order. */
    method ActiveForwards() returns (ports: seq<uint16>)
      ensures forall p :: p in ports <==> p in forwards
      ensures forall i, j :: 0 <= i < j < |ports| ==> ports[i] != ports[j]
    {
      ports := [];
      var rest := forwards.Keys;
      while rest != {}
        invariant rest <= forwards.Keys
        invariant forall p :: p in ports <==> p in forwards && p !in rest
        invariant forall i, j :: 0 <= i < j < |ports| ==> ports[i] != ports[j]
        decreases rest
      {
        var p :| p in rest;
        ports := ports + [p];
        rest := rest - {p};
      }
    }

    /**
      `exec_command`: without a connection it fails with "Not connected"; when the
      channel opens and takes the command, the messages are folded into
      `(exit_code, trimmed output)`.
    */
    method ExecCommand(command: string, channel: ExecChannel) returns (r: Result<ExecOutput, SessionError>)
      ensures handle.None? ==> r == Failure(NotConnected)
      ensures handle.Some? && (channel.OpenFailed? || channel.ExecRequestFailed?) ==> r == Failure(TransportError)
      ensures handle.Some? && channel.Opened? ==> r == Success(ExecResult(channel.events))
      ensures r == ExecReply(IsConnected(), channel)
    {
      if handle.None? {
        return Failure(NotConnected);
      }
      if !channel.Opened? {
        return Failure(TransportError);
      }
      var events := channel.events;
      var stdout: seq<uint8> := [];
      var exitCode := -1;
      var gotEof := false;
      var i := 0;
      while i < |events|
        invariant 0 <= i <= |events|
        invariant Drain(events[i..], ExecState(stdout, exitCode, gotEof)) == Drain(events, InitialExecState)
        decreases |events| - i
      {
        ghost var st := ExecState(stdout, exitCode, gotEof);
        assert events[i..][1..] == events[i + 1..];
        assert Drain(events[i..], st) ==
          if Step(st, events[i]).1 then Step(st, events[i]).0 else Drain(events[i + 1..], Step(st, events[i]).0);
        var brk := false;
        match events[i] {
          case ChannelEnded =>
            brk := true;
          case WaitTimedOut =>
            brk := true;
          case Message(m) =>
            match m {
              case Data(d) =>
                stdout := stdout + d;
              case ExtendedData(d, _) =>
                stdout := stdout + d;
              case ExitStatus(s) =>
                exitCode := AsI32(s);
                if gotEof {
                  brk := true;
                }
              case Eof =>
                gotEof := true;
                if exitCode != -1 {
                  brk := true;
                }
              case Close =>
                brk := true;
              case OtherMsg =>
            }
        }
        assert (ExecState(stdout, exitCode, gotEof), brk) == Step(st, events[i]);
        if brk {
          assert ExecState(stdout, exitCode, gotEof) == Drain(events, InitialExecState);
          break;
        }
        i := i + 1;
      }
      r := Success(ExecOutput(exitCode, Trim(Decode(stdout))));
    }
  }

  /**
    A forward, a refused duplicate, a stop, and a second stop that fails, seen by a
    caller: the four outcomes in order, and the table is back where it started.
  */
  method ForwardLifecycle(s: Session, port: uint16, host: string, remotePort: uint16)
    returns (outcomes: seq<Outcome<SessionError>>)
    requires s.Valid() && s.IsConnected() && port !in s.forwards
    modifies s, s.forwards.Values
    ensures outcomes == [Pass, Fail(AlreadyForwarded(port)), Pass, Fail(NoForward(port))]
    ensures s.Valid() && s.forwards == old(s.forwards) && s.handle == old(s.handle)
  {
    var first := s.StartPortForward(port, host, remotePort, true);
    var tx := s.forwards[port];
    var again := s.StartPortForward(port, host, remotePort, true);
    assert s.forwards[port] == tx && !tx.cancelled;
    var listed := s.ActiveForwards();
    assert port in listed;
    var stop := s.StopPortForward(port);
    assert tx.cancelled;
    listed := s.ActiveForwards();
    assert port !in listed;
    var stopAgain := s.StopPortForward(port);
    outcomes := [first, again, stop, stopAgain];
  }

  /** Disconnecting twice succeeds twice, ends disconnected and leaves the forwards running. */
  method DisconnectKeepsForwards(s: Session) returns (first: Outcome<SessionError>, second: Outcome<SessionError>)
    requires s.Valid()
    modifies s
    ensures first == Pass && second == Pass
    ensures !s.IsConnected()
    ensures s.forwards == old(s.forwards)
  {
    first := s.Disconnect();
    second := s.Disconnect();
  }
}
