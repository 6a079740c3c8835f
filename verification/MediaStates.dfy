/**
 The media connection stack as values: NiceConnection under DtlsTransport under WebRtcConnection.
 Each function is what one call of the original does to the state it owns.
 */
module MediaStates {
  import opened Options

  // ---- NiceConnection ----

  datatype IceState = IceInitial | CandidatesReceived | IceReady | IceFinished | IceFailed {
    /** The value of the enumerator. */
    function Rank(): nat {
      match this
      case IceInitial => 0
      case CandidatesReceived => 1
      case IceReady => 2
      case IceFinished => 3
      case IceFailed => 4
    }
  }

  const QUEUE_LIMIT := 1000

  /** What a received packet turns out to be when it is taken from the queue. */
  datatype Packet = Packet(component: nat, dtls: bool)

  /** `components` maps component identifiers 1, 2, ... to their states. */
  datatype Nice = Nice(ice: IceState, components: map<nat, IceState>, count: nat, gotLast: bool, queue: seq<Packet>)

  predicate AllIn(components: map<nat, IceState>, count: nat, state: IceState) {
    forall i :: 1 <= i <= count ==> i in components && components[i] == state
  }

  /** updateIceState: the state only moves up; the result is what the listener is told, if anything. */
  function UpdateIceState(n: Nice, state: IceState): (Nice, Option<IceState>) {
    if state.Rank() <= n.ice.Rank() then (n, None)
    else (n.(ice := state), if state == IceFinished then None else Some(state))
  }

  /** updateComponentState */
  function UpdateComponentState(n: Nice, component: nat, state: IceState): (Nice, Option<IceState>) {
    var n' := n.(components := n.components[component := state]);
    if state == IceReady && !AllIn(n'.components, n.count, IceReady) then (n', None)
    else if state == IceFailed && (!n.gotLast || !AllIn(n'.components, n.count, IceFailed)) then (n', None)
    else UpdateIceState(n', state)
  }

  /** queueData */
  function QueueData(n: Nice, p: Packet): Nice {
    if n.ice == IceReady && |n.queue| < QUEUE_LIMIT then n.(queue := n.queue + [p]) else n
  }

  // ---- Transport and DtlsTransport ----

  datatype TransportState = TrInitial | TrStarted | TrGathered | TrReady | TrFinished | TrFailed

  const MAX_RESENDS := 5
  const UINT := 0x1_0000_0000

  datatype Dtls = Dtls(state: TransportState, readyRtp: bool, readyRtcp: bool, running: bool, hasRtcp: bool,
                       rtpResends: nat, rtcpResends: nat)

  datatype Context = Rtp | Rtcp

  /** What a handler still has to do: calls of updateTransportState, each an assignment and then a notification. */
  datatype Todo = Update(state: TransportState) | Notify(state: TransportState)

  /** DtlsTransport::updateIceState; starting the handshake sends packets and changes no state here. */
  function OnIceState(d: Dtls, state: IceState): (Dtls, seq<Todo>) {
    if state == IceInitial && d.state != TrStarted then (d, [Update(TrStarted)])
    else if state == CandidatesReceived && d.state != TrGathered then (d, [Update(TrGathered)])
    else if state == IceFailed then (d.(running := false), [Update(TrFailed)])
    else (d, [])
  }

  /** onHandshakeCompleted, with setRtpParams accepting the keys or not. */
  function OnHandshakeCompleted(d: Dtls, ctx: Context, keysOk: bool): (Dtls, seq<Todo>) {
    var d' := if ctx == Rtp
              then d.(readyRtp := d.readyRtp || keysOk, readyRtcp := d.readyRtcp || !d.hasRtcp)
              else if d.hasRtcp then d.(readyRtcp := d.readyRtcp || keysOk) else d;
    var failed := !keysOk && (ctx == Rtp || d.hasRtcp);
    (d', (if failed then [Update(TrFailed)] else []) + (if d'.readyRtp && d'.readyRtcp then [Update(TrReady)] else []))
  }

  /** onHandshakeFailed */
  function OnHandshakeFailed(d: Dtls): (Dtls, seq<Todo>) {
    (d.(running := false), [Update(TrFailed)])
  }

  /** Resender::Resend; `max_resends_` is unsigned and counts down before it is looked at. */
  function OnResendTimer(d: Dtls, ctx: Context): (Dtls, seq<Todo>) {
    var left := if ctx == Rtp then d.rtpResends else d.rtcpResends;
    var next := (left + UINT - 1) % UINT;
    var d' := if ctx == Rtp then d.(rtpResends := next) else d.(rtcpResends := next);
    if left > 0 then (d', []) else OnHandshakeFailed(d')
  }

  // ---- WebRtcConnection ----

  datatype Media = Audio | Video

  datatype ConnState = ConnInitial | ConnStarted | ConnGathered | ConnReady | ConnFinished | ConnFailed {
    /** The value of the enumerator. */
    function Code(): nat {
      match this
      case ConnInitial => 101
      case ConnStarted => 102
      case ConnGathered => 103
      case ConnReady => 104
      case ConnFinished => 105
      case ConnFailed => 500
    }
  }

  /** What the session descriptions say. */
  datatype Config = Config(bundle: bool, trickle: bool, remoteAudio: bool, remoteVideo: bool, localAudio: bool,
      localVideo: bool)

  /** `told` is every state the event listener was notified of. */
  datatype Conn = Conn(cfg: Config, state: ConnState, sending: bool, told: seq<ConnState>)

  /** The state of the transport for `m`, where there is one. */
  type Transports = map<Media, TransportState>

  /** Every medium in use has its transport in the given state. */
  predicate AllAre(audio: bool, video: bool, ts: Transports, state: TransportState) {
    && (audio ==> Audio in ts && ts[Audio] == state)
    && (video ==> Video in ts && ts[Video] == state)
  }

  /** The state updateState computes. */
  function NextState(c: Conn, ts: Transports, state: TransportState): ConnState {
    match state
    case TrStarted =>
      if c.cfg.bundle || AllAre(c.cfg.remoteAudio, c.cfg.remoteVideo, ts, TrStarted) then ConnStarted else c.state
    case TrGathered =>
      if !c.cfg.trickle && (c.cfg.bundle || AllAre(c.cfg.localAudio, c.cfg.localVideo, ts, TrGathered))
          then ConnGathered else c.state
    case TrReady =>
      if c.cfg.bundle || AllAre(c.cfg.remoteAudio, c.cfg.remoteVideo, ts, TrReady) then ConnReady else c.state
    case TrFailed => ConnFailed
    case _ => c.state
  }

  /** updateState */
  function UpdateState(c: Conn, ts: Transports, state: TransportState): Conn {
    if ts == map[] || c.state == ConnFailed then c
    else
      var next := NextState(c, ts, state);
      var c' := if state == TrFailed then c.(sending := false) else c;
      if next == c.state then c' else c'.(state := next, told := c.told + [next])
  }

  /** Work done at once: each updateTransportState assigns and notifies with nothing in between. */
  function Perform(c: Conn, ts: Transports, m: Media, todo: seq<Todo>): (Conn, Transports)
    requires m in ts
    decreases |todo|
  {
    if todo == [] then (c, ts)
    else
      var w := todo[0];
      var ts' := if w.Update? then ts[m := w.state] else ts;
      var c' := if w.Update? && ts[m] == w.state then c else UpdateState(c, ts', w.state);
      Perform(c', ts', m, todo[1..])
  }
}
