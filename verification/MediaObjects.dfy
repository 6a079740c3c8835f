/**
 The objects of the media stack. Each callback, run to its end, is an event of MediaRuns followed by the work of
 the thread that carries it, so what is proved there of all interleavings holds of the objects.
 */
module MediaObjects {
  import opened Options
  import opened MediaStates
  import R = MediaRuns
  import P = MediaProgress

  class NiceConnection {
    var iceState: IceState
    var compStates: map<nat, IceState>
    const iceComponents: nat
    var receivedLastCandidate: bool
    var niceQueue: seq<Packet>

    ghost function View(): Nice
      reads this
    {
      Nice(iceState, compStates, iceComponents, receivedLastCandidate, niceQueue)
    }

    constructor (components: nat)
      ensures iceState == IceInitial && iceComponents == components && niceQueue == []
      ensures AllIn(compStates, components, IceInitial) && !receivedLastCandidate
    {
      iceState, iceComponents, receivedLastCandidate, niceQueue := IceInitial, components, false, [];
      compStates := map[];
      new;
      for i := 1 to components + 1
        invariant AllIn(compStates, i - 1, IceInitial)
        invariant iceState == IceInitial && !receivedLastCandidate && niceQueue == []
      {
        compStates := compStates[i := IceInitial];
      }
    }

    /** updateIceState; `told` is the call of the listener. */
    method UpdateIceState(state: IceState) returns (told: Option<IceState>)
      modifies `iceState
      ensures View() == MediaStates.UpdateIceState(old(View()), state).0
      ensures told == MediaStates.UpdateIceState(old(View()), state).1
      // The state never goes back, and the listener hears of every move but the one to NICE_FINISHED.
      ensures old(iceState).Rank() <= iceState.Rank() && state.Rank() <= iceState.Rank()
      ensures told == if iceState == old(iceState) || iceState == IceFinished then None else Some(iceState)
    {
      if state.Rank() <= iceState.Rank() {
        return None;
      }
      iceState := state;
      told := if state == IceFinished then None else Some(state);
    }

    /** The loops of updateComponentState. */
    method AllComponentsAre(state: IceState) returns (all: bool)
      ensures all <==> AllIn(compStates, iceComponents, state)
    {
      for i := 1 to iceComponents + 1
        invariant forall j :: 1 <= j < i ==> j in compStates && compStates[j] == state
      {
        if i !in compStates || compStates[i] != state {
          return false;
        }
      }
      all := true;
    }

    /** updateComponentState, called with NICE_READY or NICE_FAILED. */
    method UpdateComponentState(component: nat, state: IceState) returns (told: Option<IceState>)
      modifies `compStates, `iceState
      ensures View() == MediaStates.UpdateComponentState(old(View()), component, state).0
      ensures told == MediaStates.UpdateComponentState(old(View()), component, state).1
      ensures old(iceState).Rank() <= iceState.Rank()
      // Ready and failed are reached only when all components are, and failed only after the last candidate.
      ensures iceState == IceReady && old(iceState) != IceReady && state == IceReady ==>
              AllIn(compStates, iceComponents, IceReady)
      ensures iceState == IceFailed && old(iceState) != IceFailed && state == IceFailed ==>
                AllIn(compStates, iceComponents, IceFailed) && receivedLastCandidate
      // And when they are, the ICE connection gets there, unless it is past it.
      ensures state == IceReady && AllIn(compStates, iceComponents, IceReady) ==> iceState.Rank() >= IceReady.Rank()
      ensures state == IceFailed && receivedLastCandidate && AllIn(compStates, iceComponents, IceFailed) ==>
                iceState == IceFailed
    {
      compStates := compStates[component := state];
      if state == IceReady {
        var all := AllComponentsAre(IceReady);
        if !all {
          return None;
        }
      } else if state == IceFailed {
        if !receivedLastCandidate {
          return None;
        }
        var all := AllComponentsAre(IceFailed);
        if !all {
          return None;
        }
      }
      told := UpdateIceState(state);
    }

    method QueueData(p: Packet)
      modifies `niceQueue
      ensures View() == MediaStates.QueueData(old(View()), p)
      // Packets are only ever appended, while ICE is ready, and never more than the limit.
      ensures old(niceQueue) <= niceQueue <= old(niceQueue) + [p]
      ensures |old(niceQueue)| <= 1000 ==> |niceQueue| <= 1000
      ensures niceQueue != old(niceQueue) <==> iceState == IceReady && |old(niceQueue)| < 1000
    {
      if iceState == IceReady && |niceQueue| < QUEUE_LIMIT {
        niceQueue := niceQueue + [p];
      }
    }
  }

  /** One entry for each medium that has one. */
  function Both<T>(audio: Option<T>, video: Option<T>): map<Media, T> {
    match (audio, video)
    case (None, None) => map[]
    case (Some(a), None) => map[Audio := a]
    case (None, Some(v)) => map[Video := v]
    case (Some(a), Some(v)) => map[Audio := a, Video := v]
  }

  lemma {:induction false} BothUpdated<T>(a: Option<T>, v: Option<T>, a': Option<T>, v': Option<T>, m: Media, t: T)
    requires if m == Audio then a.Some? && a' == Some(t) && v' == v else v.Some? && v' == Some(t) && a' == a
    ensures Both(a', v') == Both(a, v)[m := t] && m in Both(a', v')
  {
  }

  class WebRtcConnection {
    const cfg: Config
    var globalState: ConnState
    var sending: bool
    var told: seq<ConnState>
    var audioTransport: DtlsTransport?
    var videoTransport: DtlsTransport?

    constructor (cfg: Config)
      ensures View() == Conn(cfg, ConnInitial, true, []) && audioTransport == null && videoTransport == null
    {
      this.cfg, globalState, sending, told := cfg, ConnInitial, true, [];
      audioTransport, videoTransport := null, null;
    }

    ghost function View(): Conn
      reads this
    {
      Conn(cfg, globalState, sending, told)
    }

    ghost function AudioSnap(): Option<R.Trans>
      reads this, audioTransport, if audioTransport == null then {} else {audioTransport.nice}
    {
      if audioTransport == null then None else Some(audioTransport.Snap())
    }

    ghost function VideoSnap(): Option<R.Trans>
      reads this, videoTransport, if videoTransport == null then {} else {videoTransport.nice}
    {
      if videoTransport == null then None else Some(videoTransport.Snap())
    }

    /** The whole connection as the machine knows it, between callbacks. */
    ghost function Snapshot(): R.Sys
      reads this, audioTransport, videoTransport
      reads if audioTransport == null then {} else {audioTransport.nice}
      reads if videoTransport == null then {} else {videoTransport.nice}
    {
      R.Sys(View(), Both(AudioSnap(), VideoSnap()))
    }

    /** The present, to be remembered while a callback runs. */
    lemma {:induction false} Before() returns (s: R.Sys, a: Option<R.Trans>, v: Option<R.Trans>)
      ensures s == Snapshot() && a == AudioSnap() && v == VideoSnap() && R.States(s) == States()
    {
      s, a, v := Snapshot(), AudioSnap(), VideoSnap();
    }

    /** Each transport knows its medium and this connection, and has an ICE connection of its own. */
    ghost predicate Assembled()
      reads this
    {
      && (audioTransport != null ==> audioTransport.listener == this && audioTransport.media == Audio)
      && (videoTransport != null ==> videoTransport.listener == this && videoTransport.media == Video)
      && (audioTransport != null && videoTransport != null ==> audioTransport.nice != videoTransport.nice)
    }

    /** The objects behind this one. */
    ghost function Parts(): set<object>
      reads this
    {
      (if audioTransport == null then {} else {audioTransport, audioTransport.nice})
      + (if videoTransport == null then {} else {videoTransport, videoTransport.nice})
    }

    ghost function AudioState(): Option<TransportState>
      reads this, audioTransport
    {
      if audioTransport == null then None else Some(audioTransport.state)
    }

    ghost function VideoState(): Option<TransportState>
      reads this, videoTransport
    {
      if videoTransport == null then None else Some(videoTransport.state)
    }

    ghost function States(): (ts: Transports)
      reads this, audioTransport, videoTransport
    {
      Both(AudioState(), VideoState())
    }

    /** The condition that every medium in use has its transport in the given state. */
    method AllChannelsAre(audio: bool, video: bool, state: TransportState) returns (all: bool)
      ensures all <==> AllAre(audio, video, States(), state)
    {
      all := (!audio || (audioTransport != null && audioTransport.state == state))
             && (!video || (videoTransport != null && videoTransport.state == state));
    }

    method UpdateState(state: TransportState)
      modifies `globalState, `sending, `told
      ensures View() == MediaStates.UpdateState(old(View()), States(), state)
      // A failed connection stays as it is; otherwise the listener is told exactly of a change, once.
      ensures old(globalState) == ConnFailed ==> View() == old(View())
      ensures told == old(told) + if globalState == old(globalState) then [] else [globalState]
      ensures state == TrFailed && States() != map[] ==> globalState == ConnFailed
      ensures sending ==> old(sending) && (state == TrFailed ==> States() == map[] || old(globalState) == ConnFailed)
      // What every transport in use has reached, the connection reaches.
      ensures old(globalState) != ConnFailed && States() != map[] ==>
                && (state == TrReady && (cfg.bundle || AllAre(cfg.remoteAudio, cfg.remoteVideo, States(), TrReady)) ==>
                      globalState == ConnReady)
                && (state == TrGathered && !cfg.trickle
                    && (cfg.bundle || AllAre(cfg.localAudio, cfg.localVideo, States(), TrGathered)) ==>
                      globalState == ConnGathered)
    {
      if videoTransport == null && audioTransport == null {
        return;
      }
      assert States() != map[] by {
        assert if videoTransport != null then Video in States() else Audio in States();
      }
      if globalState == ConnFailed {
        return;
      }
      var temp := Chosen(state);
      if state == TrFailed {
        sending := false;
      }
      if globalState == temp {
        return;
      }
      globalState := temp;
      told := told + [temp];
    }

    /** The switch of updateState. */
    method Chosen(state: TransportState) returns (temp: ConnState)
      ensures temp == NextState(View(), States(), state)
    {
      temp := globalState;
      var remote := AllChannelsAre(cfg.remoteAudio, cfg.remoteVideo, state);
      var local := AllChannelsAre(cfg.localAudio, cfg.localVideo, state);
      match state {
        case TrStarted =>
          if cfg.bundle || remote {
            temp := ConnStarted;
          }
        case TrGathered =>
          if (cfg.bundle || local) && !cfg.trickle {
            temp := ConnGathered;
          }
        case TrReady =>
          if cfg.bundle || remote {
            temp := ConnReady;
          }
        case TrFailed =>
          temp := ConnFailed;
        case _ =>
      }
    }
  }

  class DtlsTransport {
    const media: Media
    const listener: WebRtcConnection
    const nice: NiceConnection
    var state: TransportState
    var readyRtp: bool
    var readyRtcp: bool
    var running: bool
    const hasRtcp: bool
    var rtpResends: nat
    var rtcpResends: nat

    constructor (media: Media, listener: WebRtcConnection, nice: NiceConnection, rtcpMux: bool)
      ensures View() == Dtls(TrInitial, false, false, true, !rtcpMux, MAX_RESENDS, MAX_RESENDS)
      ensures this.media == media && this.listener == listener && this.nice == nice
    {
      this.media, this.listener, this.nice, hasRtcp := media, listener, nice, !rtcpMux;
      state, readyRtp, readyRtcp, running := TrInitial, false, false, true;
      rtpResends, rtcpResends := MAX_RESENDS, MAX_RESENDS;
    }

    ghost function View(): Dtls
      reads this
    {
      Dtls(state, readyRtp, readyRtcp, running, hasRtcp, rtpResends, rtcpResends)
    }

    /** The listener knows this transport by its medium. */
    ghost predicate Wired()
      reads this, listener
    {
      if media == Audio then listener.audioTransport == this && listener.videoTransport != this
      else listener.videoTransport == this && listener.audioTransport != this
    }

    /** This transport as the machine knows it, between callbacks. */
    ghost function Snap(): R.Trans
      reads this, nice
    {
      R.Trans(nice.View(), View(), R.AllIdle)
    }

    /** updateTransportState */
    method UpdateTransportState(s: TransportState)
      requires Wired()
      modifies `state, listener`globalState, listener`sending, listener`told
      ensures Wired() && View() == old(View()).(state := s)
      ensures listener.States() == old(listener.States())[media := s]
      ensures listener.View() ==
              if old(state) == s then old(listener.View()) else UpdateState(old(listener.View()), listener.States(), s)
      ensures old(listener.globalState) == ConnFailed || (s == TrFailed && old(state) != TrFailed) ==>
                listener.globalState == ConnFailed
    {
      ghost var a, v := listener.AudioState(), listener.VideoState();
      if s == state {
        BothUpdated(a, v, a, v, media, s);
        return;
      }
      state := s;
      BothUpdated(a, v, listener.AudioState(), listener.VideoState(), media, s);
      listener.UpdateState(s);
    }

    /** A list of calls of updateTransportState, performed one after the other. */
    method Do(todo: seq<Todo>)
      requires Wired() && forall i :: 0 <= i < |todo| ==> todo[i].Update?
      modifies `state, listener`globalState, listener`sending, listener`told
      decreases |todo|
      ensures Wired() && View() == old(View()).(state := state)
      ensures (listener.View(), listener.States()) == Perform(old(listener.View()), old(listener.States()), media, todo)
      ensures state == if todo == [] then old(state) else todo[|todo| - 1].state
      ensures old(listener.globalState) == ConnFailed ==> listener.globalState == ConnFailed
      ensures todo != [] && todo[0] == Update(TrFailed) && old(state) != TrFailed ==> listener.globalState == ConnFailed
    {
      if todo != [] {
        UpdateTransportState(todo[0].state);
        Do(todo[1..]);
      }
    }

    /** updateIceState */
    method OnIceState(ice: IceState)
      requires Wired()
      modifies `state, `running, listener`globalState, listener`sending, listener`told
      ensures Wired()
      ensures var want := MediaStates.OnIceState(old(View()), ice);
              && View() == want.0.(state := state)
              && (listener.View(), listener.States())
                  == Perform(old(listener.View()), old(listener.States()), media, want.1)
    {
      var todo: seq<Todo> := [];
      if ice == IceInitial && state != TrStarted {
        todo := [Update(TrStarted)];
      } else if ice == CandidatesReceived && state != TrGathered {
        todo := [Update(TrGathered)];
      } else if ice == IceFailed {
        running := false;
        todo := [Update(TrFailed)];
      }
      Do(todo);
    }

    method OnHandshakeCompleted(ctx: Context, keysOk: bool)
      requires Wired()
      modifies `state, `readyRtp, `readyRtcp, listener`globalState, listener`sending, listener`told
      ensures Wired()
      ensures var want := MediaStates.OnHandshakeCompleted(old(View()), ctx, keysOk);
              && View() == want.0.(state := state)
              && (listener.View(), listener.States())
                  == Perform(old(listener.View()), old(listener.States()), media, want.1)
      // Accepted keys count for their context, and for the other one if there is none of its own.
      ensures old(readyRtp) ==> readyRtp
      ensures old(readyRtcp) ==> readyRtcp
      ensures ctx == Rtp ==> (keysOk ==> readyRtp) && (!hasRtcp ==> readyRtcp)
      ensures ctx == Rtcp && keysOk && hasRtcp ==> readyRtcp
      // With keys for both contexts the transport is ready; keys that are refused fail the connection for good.
      ensures readyRtp && readyRtcp ==> state == TrReady
      ensures !keysOk && (ctx == Rtp || hasRtcp) && old(state) != TrFailed ==> listener.globalState == ConnFailed
    {
      var todo := KeysFor(ctx, keysOk);
      Do(todo);
    }

    /** The flags, and the calls of updateTransportState that follow. */
    method KeysFor(ctx: Context, keysOk: bool) returns (todo: seq<Todo>)
      modifies `readyRtp, `readyRtcp
      ensures var want := MediaStates.OnHandshakeCompleted(old(View()), ctx, keysOk);
              View() == want.0 && todo == want.1
      ensures forall i :: 0 <= i < |todo| ==> todo[i].Update?
      ensures !keysOk && (ctx == Rtp || hasRtcp) ==> todo != [] && todo[0] == Update(TrFailed)
      ensures readyRtp && readyRtcp ==> todo != [] && todo[|todo| - 1] == Update(TrReady)
    {
      todo := [];
      if ctx == Rtp {
        if keysOk {
          readyRtp := true;
        } else {
          todo := [Update(TrFailed)];
        }
        if !hasRtcp {
          readyRtcp := true;
        }
      }
      if ctx == Rtcp && hasRtcp {
        if keysOk {
          readyRtcp := true;
        } else {
          todo := [Update(TrFailed)];
        }
      }
      if readyRtp && readyRtcp {
        todo := todo + [Update(TrReady)];
      }
    }

    method OnHandshakeFailed()
      requires Wired()
      modifies `state, `running, listener`globalState, listener`sending, listener`told
      ensures Wired()
      ensures var want := MediaStates.OnHandshakeFailed(old(View()));
              && View() == want.0.(state := state)
              && (listener.View(), listener.States())
                  == Perform(old(listener.View()), old(listener.States()), media, want.1)
      ensures state == TrFailed && !running
      ensures old(state) != TrFailed ==> listener.globalState == ConnFailed
    {
      running := false;
      Do([Update(TrFailed)]);
    }

    /** Resender::Resend on a timer that was not cancelled. */
    method OnResendTimer(ctx: Context)
      requires Wired()
      modifies `state, `running, `rtpResends, `rtcpResends, listener`globalState, listener`sending, listener`told
      ensures Wired()
      ensures var want := MediaStates.OnResendTimer(old(View()), ctx);
              && View() == want.0.(state := state)
              && (listener.View(), listener.States())
                  == Perform(old(listener.View()), old(listener.States()), media, want.1)
    {
      var left := if ctx == Rtp then rtpResends else rtcpResends;
      if ctx == Rtp {
        rtpResends := (rtpResends + UINT - 1) % UINT;
      } else {
        rtcpResends := (rtcpResends + UINT - 1) % UINT;
      }
      if left == 0 {
        OnHandshakeFailed();
      }
    }

    // The callbacks, run to their ends.

    /** The two transports of the listener have ICE connections of their own. */
    ghost predicate Ready()
      reads this, listener
    {
      && Wired()
      && (listener.audioTransport != null && listener.videoTransport != null ==>
            listener.audioTransport.nice != listener.videoTransport.nice)
    }

    /** A new ICE state is passed on. */
    method Pass(told: Option<IceState>)
      requires Wired()
      modifies `state, `running, listener`globalState, listener`sending, listener`told
      ensures Wired()
      ensures var want := if told.None? then (old(View()), []) else MediaStates.OnIceState(old(View()), told.value);
              && View() == want.0.(state := state)
              && (listener.View(), listener.States())
                  == Perform(old(listener.View()), old(listener.States()), media, want.1)
    {
      if told.Some? {
        OnIceState(told.value);
      }
    }

    /** What a callback did to this transport, with the other one left alone, is the event handled. */
    lemma {:induction false} Concluded(s: R.Sys, a: Option<R.Trans>, v: Option<R.Trans>, e: R.Event)
      requires Wired() && s.ts == Both(a, v) && e.m == media && R.Enabled(s, e)
      requires if media == Audio then a.Some? && listener.VideoSnap() == v else v.Some? && listener.AudioSnap() == a
      requires R.Did(if media == Audio then a.value else v.value, s.conn, R.States(s), e,
                     Snap(), listener.View(), listener.States())
      ensures R.Handled(s, listener.Snapshot(), e)
    {
      BothUpdated(a, v, listener.AudioSnap(), listener.VideoSnap(), media, Snap());
      R.IsHandled(s, listener.Snapshot(), e, Snap(), listener.States());
    }

    /** gatheringDone */
    method GatheringDone()
      requires Ready()
      modifies `state, `running, nice`iceState, listener`globalState, listener`sending, listener`told
      ensures Ready() && R.Handled(old(listener.Snapshot()), listener.Snapshot(), R.GatheringDone(media))
    {
      ghost var s, a, v := listener.Before();
      RunGatheringDone();
      Concluded(s, a, v, R.GatheringDone(media));
    }

    method RunGatheringDone()
      requires Wired()
      modifies `state, `running, nice`iceState, listener`globalState, listener`sending, listener`told
      ensures Wired()
      ensures R.Did(old(Snap()), old(listener.View()), old(listener.States()), R.GatheringDone(media),
                    Snap(), listener.View(), listener.States())
    {
      ghost var t, c, ts := Snap(), listener.View(), listener.States();
      ghost var step := MediaStates.UpdateIceState(t.nice, CandidatesReceived);
      var told := nice.UpdateIceState(CandidatesReceived);
      Pass(told);
      R.PassedDid(t, c, ts, R.GatheringDone(media), step, Snap(), listener.View(), listener.States());
    }

    /** A component has become ready, or failed. */
    method ComponentState(component: nat, ready: bool)
      requires Ready()
      modifies `state, `running, nice`iceState, nice`compStates, listener`globalState, listener`sending, listener`told
      ensures Ready() && R.Handled(old(listener.Snapshot()), listener.Snapshot(),
              R.ComponentState(media, component, ready))
    {
      ghost var s, a, v := listener.Before();
      RunComponentState(component, ready);
      Concluded(s, a, v, R.ComponentState(media, component, ready));
    }

    method RunComponentState(component: nat, ready: bool)
      requires Wired()
      modifies `state, `running, nice`iceState, nice`compStates, listener`globalState, listener`sending, listener`told
      ensures Wired()
      ensures R.Did(old(Snap()), old(listener.View()), old(listener.States()),
              R.ComponentState(media, component, ready),
                    Snap(), listener.View(), listener.States())
    {
      ghost var t, c, ts := Snap(), listener.View(), listener.States();
      var state := if ready then IceReady else IceFailed;
      ghost var step := MediaStates.UpdateComponentState(t.nice, component, state);
      var told := nice.UpdateComponentState(component, state);
      Pass(told);
      R.PassedDid(t, c, ts, R.ComponentState(media, component, ready), step, Snap(), listener.View(),
                  listener.States());
    }

    /** A packet from the network. */
    method PacketIn(p: Packet)
      requires Ready()
      modifies nice`niceQueue
      ensures Ready() && R.Handled(old(listener.Snapshot()), listener.Snapshot(), R.PacketIn(media, p))
    {
      ghost var s, a, v := listener.Before();
      RunPacketIn(p);
      Concluded(s, a, v, R.PacketIn(media, p));
    }

    method RunPacketIn(p: Packet)
      requires Wired()
      modifies nice`niceQueue
      ensures Wired()
      ensures R.Did(old(Snap()), old(listener.View()), old(listener.States()), R.PacketIn(media, p),
                    Snap(), listener.View(), listener.States())
    {
      nice.QueueData(p);
    }

    /** One turn of getNiceDataLoop; `outcome` is what reading the packet leads to. */
    method PacketOut(outcome: R.Outcome)
      requires Ready() && R.Enabled(listener.Snapshot(), R.PacketOut(media, outcome))
      modifies `state, `running, `readyRtp, `readyRtcp, nice`niceQueue, listener`globalState, listener`sending,
          listener`told
      ensures Ready() && R.Handled(old(listener.Snapshot()), listener.Snapshot(), R.PacketOut(media, outcome))
    {
      ghost var s, a, v := listener.Before();
      RunPacketOut(outcome);
      Concluded(s, a, v, R.PacketOut(media, outcome));
    }

    method RunPacketOut(outcome: R.Outcome)
      requires Wired() && nice.niceQueue != []
      modifies `state, `running, `readyRtp, `readyRtcp, nice`niceQueue, listener`globalState, listener`sending,
          listener`told
      ensures Wired()
      ensures R.Did(old(Snap()), old(listener.View()), old(listener.States()), R.PacketOut(media, outcome),
                    Snap(), listener.View(), listener.States())
    {
      ghost var t, c, ts := Snap(), listener.View(), listener.States();
      var p := nice.niceQueue[0];
      nice.niceQueue := nice.niceQueue[1..];
      ReadPacket(p, outcome);
      R.ReadDid(t, c, ts, R.PacketOut(media, outcome), Snap(), listener.View(), listener.States());
    }

    method ReadPacket(p: Packet, outcome: R.Outcome)
      requires Wired()
      modifies `state, `running, `readyRtp, `readyRtcp, listener`globalState, listener`sending, listener`told
      ensures Wired()
      ensures var want := R.ReadBy(old(View()), p, outcome);
              && View() == want.0.(state := state)
              && (listener.View(), listener.States())
                  == Perform(old(listener.View()), old(listener.States()), media, want.1)
    {
      match outcome {
        case Nothing =>
        case Completed(keysOk) => OnHandshakeCompleted(R.ContextOf(p), keysOk);
        case Broken => OnHandshakeFailed();
      }
    }

    /** A resend timer that was not cancelled. */
    method ResendTimeout(ctx: Context)
      requires Ready()
      modifies `state, `running, `rtpResends, `rtcpResends, listener`globalState, listener`sending, listener`told
      ensures Ready() && R.Handled(old(listener.Snapshot()), listener.Snapshot(), R.ResendTimeout(media, ctx))
    {
      ghost var s, a, v := listener.Before();
      RunResendTimeout(ctx);
      Concluded(s, a, v, R.ResendTimeout(media, ctx));
    }

    method RunResendTimeout(ctx: Context)
      requires Wired()
      modifies `state, `running, `rtpResends, `rtcpResends, listener`globalState, listener`sending, listener`told
      ensures Wired()
      ensures R.Did(old(Snap()), old(listener.View()), old(listener.States()), R.ResendTimeout(media, ctx),
                    Snap(), listener.View(), listener.States())
    {
      OnResendTimer(ctx);
    }

    /** setReceivedLastCandidate */
    method LastCandidate(received: bool)
      requires Ready()
      modifies nice`receivedLastCandidate
      ensures Ready() && R.Handled(old(listener.Snapshot()), listener.Snapshot(), R.LastCandidate(media, received))
    {
      ghost var s, a, v := listener.Before();
      nice.receivedLastCandidate := received;
      Concluded(s, a, v, R.LastCandidate(media, received));
    }

    /** Whether the callback can come now: packets are read only while there are any. */
    method Comes(e: R.Event) returns (ok: bool)
      requires Ready() && e.m == media && !e.Work?
      ensures ok <==> R.Enabled(listener.Snapshot(), e)
    {
      ok := match e
        case PacketOut(_, outcome) =>
          running && nice.niceQueue != []
          && (outcome != R.Nothing ==> nice.niceQueue[0].dtls && (nice.niceQueue[0].component == 1 || hasRtcp))
        case _ => true;
    }

    /** Whichever callback the event stands for. */
    method Dispatch(e: R.Event)
      requires Ready() && e.m == media && !e.Work? && R.Enabled(listener.Snapshot(), e)
      modifies this, nice, listener`globalState, listener`sending, listener`told
      ensures Ready() && R.Handled(old(listener.Snapshot()), listener.Snapshot(), e)
    {
      match e
      case GatheringDone(_) => GatheringDone();
      case ComponentState(_, component, ready) => ComponentState(component, ready);
      case LastCandidate(_, received) => LastCandidate(received);
      case PacketIn(_, p) => PacketIn(p);
      case PacketOut(_, outcome) => PacketOut(outcome);
      case ResendTimeout(_, ctx) => ResendTimeout(ctx);
    }
  }

  /** setRemoteSdp on a new connection: one transport for everything, or one for each medium. */
  method Setup(cfg: Config, components: nat, rtcpMux: bool) returns (conn: WebRtcConnection)
    ensures fresh(conn) && fresh(conn.Parts()) && conn.Assembled() && conn.cfg == cfg
    ensures (conn.videoTransport != null <==> cfg.remoteVideo || cfg.bundle)
            && (conn.audioTransport != null <==> cfg.remoteAudio && !cfg.bundle)
    // An initial state of the machine, exactly if the two descriptions agree on the media.
    ensures R.Init(conn.Snapshot()) <==> Agreed(cfg)
  {
    conn := new WebRtcConnection(cfg);
    if cfg.remoteVideo || cfg.bundle {
      conn.videoTransport := NewTransport(Video, conn, components, rtcpMux);
    }
    if !cfg.bundle && cfg.remoteAudio {
      conn.audioTransport := NewTransport(Audio, conn, components, rtcpMux);
    }
    InitExactly(conn.View(), conn.AudioSnap(), conn.VideoSnap());
  }

  method NewTransport(media: Media, conn: WebRtcConnection, components: nat, rtcpMux: bool) returns (t: DtlsTransport)
    ensures fresh(t) && fresh(t.nice) && t.media == media && t.listener == conn
    ensures R.New(t.Snap())
  {
    var nice := new NiceConnection(components);
    t := new DtlsTransport(media, conn, nice, rtcpMux);
  }

  /** The descriptions agree on the media, or everything goes over one transport. */
  predicate Agreed(cfg: Config) {
    cfg.bundle || (cfg.localAudio == cfg.remoteAudio && cfg.localVideo == cfg.remoteVideo
                   && (cfg.remoteAudio || cfg.remoteVideo))
  }

  lemma {:induction false} InitExactly(c: Conn, a: Option<R.Trans>, v: Option<R.Trans>)
    requires c == Conn(c.cfg, ConnInitial, true, [])
    requires if v.Some? then (c.cfg.remoteVideo || c.cfg.bundle) && R.New(v.value)
             else !c.cfg.remoteVideo && !c.cfg.bundle
    requires if a.Some? then c.cfg.remoteAudio && !c.cfg.bundle && R.New(a.value)
             else !c.cfg.remoteAudio || c.cfg.bundle
    ensures R.Init(R.Sys(c, Both(a, v))) <==> Agreed(c.cfg)
  {
    assert v.Some? ==> Video in Both(a, v);
    assert a.Some? ==> Audio in Both(a, v);
  }

  /**
   The objects of a connection, driven by any callbacks: they do what the machine does. So ICE state and connection
   state only rise, notifications are only added, and a failed connection stays as it is.
   */
  method Drive(conn: WebRtcConnection, events: seq<R.Event>)
    requires conn.Assembled()
    modifies conn`globalState, conn`sending, conn`told, conn.Parts()
    ensures conn.Assembled() && conn.Snapshot() == R.Driven(old(conn.Snapshot()), events)
    ensures R.Inv(old(conn.Snapshot())) ==>
              R.Inv(conn.Snapshot()) && R.Upward(old(conn.Snapshot()), conn.Snapshot())
    // From the start on: what the transports have reached, the connection has reached.
    ensures R.Init(old(conn.Snapshot())) ==> P.Served(conn.Snapshot())
  {
    ghost var start := conn.Snapshot();
    for i := 0 to |events|
      invariant conn.Assembled() && conn.Snapshot() == R.Driven(start, events[..i])
    {
      R.DrivenMore(start, events, i);
      DriveOne(conn, events[i]);
    }
    assert events[..|events|] == events;
    DrivenServed(start, events, conn.Snapshot());
  }

  lemma {:induction false} DrivenServed(start: R.Sys, events: seq<R.Event>, end: R.Sys)
    requires end == R.Driven(start, events) && AtRest(end)
    ensures R.Inv(start) ==> R.Inv(end) && R.Upward(start, end)
    ensures R.Init(start) ==> P.Served(end)
  {
    if R.Inv(start) {
      R.DrivenUpward(start, events);
    }
    if R.Init(start) {
      R.InitOk(start);
      P.InitProgress(start);
      R.DrivenUpward(start, events);
      P.DrivenProgress(start, events);
      P.QuietIsServed(end);
    }
  }

  ghost predicate AtRest(s: R.Sys) {
    forall m :: m in s.ts ==> s.ts[m].todo == R.AllIdle
  }

  method DriveOne(conn: WebRtcConnection, e: R.Event)
    requires conn.Assembled()
    modifies conn`globalState, conn`sending, conn`told, conn.Parts()
    ensures conn.Assembled() && conn.Snapshot() == R.Reaction(old(conn.Snapshot()), e)
  {
    var transport := if e.m == Audio then conn.audioTransport else conn.videoTransport;
    if transport != null && !e.Work? {
      Receive(conn, transport, e);
    }
  }

  method Receive(conn: WebRtcConnection, transport: DtlsTransport, e: R.Event)
    requires conn.Assembled() && !e.Work?
    requires transport == if e.m == Audio then conn.audioTransport else conn.videoTransport
    modifies conn`globalState, conn`sending, conn`told, transport, transport.nice
    ensures conn.Assembled() && conn.Snapshot() == R.Reaction(old(conn.Snapshot()), e)
  {
    ghost var s := conn.Snapshot();
    assert transport.Ready();
    var ok := transport.Comes(e);
    if ok {
      ghost var a, v := conn.audioTransport, conn.videoTransport;
      transport.Dispatch(e);
      assert conn.audioTransport == a && conn.videoTransport == v;
      R.Reacts(s, conn.Snapshot(), e);
    }
  }
}
