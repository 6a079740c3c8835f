/**
 Every interleaving of the threads of a media connection: the ICE main loop, the packet loop and the
 resend timers of each transport. A call of updateTransportState is two steps, the assignment and
 the notification of the connection, with other threads in between.
 */
module MediaRuns {
  import opened Options
  import opened MediaStates

  datatype Thread = IceLoop | PacketLoop | RtpTimer | RtcpTimer

  /** One transport, and what each of its threads still has to do. */
  datatype Trans = Trans(nice: Nice, dtls: Dtls, todo: map<Thread, seq<Todo>>)

  datatype Sys = Sys(conn: Conn, ts: map<Media, Trans>)

  /** What reading a dequeued DTLS packet leads to. */
  datatype Outcome = Nothing | Completed(keysOk: bool) | Broken

  datatype Event =
    | GatheringDone(m: Media)
    | ComponentState(m: Media, component: nat, ready: bool)
    | LastCandidate(m: Media, received: bool)
    | PacketIn(m: Media, p: Packet)
    | PacketOut(m: Media, outcome: Outcome)
    | ResendTimeout(m: Media, ctx: Context)
    | Work(m: Media, thread: Thread)

  predicate Idle(t: Trans, thread: Thread) {
    thread in t.todo && t.todo[thread] == []
  }

  function States(s: Sys): (ts: Transports) {
    map m | m in s.ts :: s.ts[m].dtls.state
  }

  function TimerThread(ctx: Context): Thread {
    if ctx == Rtp then RtpTimer else RtcpTimer
  }

  function ContextOf(p: Packet): Context {
    if p.component == 1 then Rtp else Rtcp
  }

  /** A thread starts a callback only when it has finished the one before. */
  predicate Enabled(s: Sys, e: Event) {
    e.m in s.ts &&
    var t := s.ts[e.m];
    match e
    case GatheringDone(_) => Idle(t, IceLoop)
    case ComponentState(_, _, _) => Idle(t, IceLoop)
    case LastCandidate(_, _) => true
    case PacketIn(_, _) => Idle(t, IceLoop)
    case PacketOut(_, outcome) =>
      && Idle(t, PacketLoop) && t.dtls.running && t.nice.queue != []
      && (outcome != Nothing ==> t.nice.queue[0].dtls && (t.nice.queue[0].component == 1 || t.dtls.hasRtcp))
    case ResendTimeout(_, ctx) => Idle(t, TimerThread(ctx))
    case Work(_, thread) => thread in t.todo && t.todo[thread] != []
  }

  /** The ICE thread passes a new ICE state on to the transport. */
  function Passed(t: Trans, step: (Nice, Option<IceState>)): Trans {
    match step.1
    case None => t.(nice := step.0)
    case Some(state) =>
      var (d, todo) := OnIceState(t.dtls, state);
      Trans(step.0, d, t.todo[IceLoop := todo])
  }

  /** The packet loop takes the first packet off the queue and reads it. */
  function Dequeued(t: Trans, outcome: Outcome): Trans
    requires t.nice.queue != []
  {
    var p := t.nice.queue[0];
    var n := t.nice.(queue := t.nice.queue[1..]);
    var (d, todo) := ReadBy(t.dtls, p, outcome);
    Trans(n, d, t.todo[PacketLoop := todo])
  }

  /** What reading a packet comes to. */
  function ReadBy(d: Dtls, p: Packet, outcome: Outcome): (Dtls, seq<Todo>) {
    match outcome
    case Nothing => (d, [])
    case Completed(keysOk) => OnHandshakeCompleted(d, ContextOf(p), keysOk)
    case Broken => OnHandshakeFailed(d)
  }

  function TimedOut(t: Trans, ctx: Context): Trans {
    var (d, todo) := OnResendTimer(t.dtls, ctx);
    t.(dtls := d, todo := t.todo[TimerThread(ctx) := todo])
  }

  /** What an event other than Work does to the transport it concerns. */
  function NextTrans(t: Trans, e: Event): Trans
    requires !e.Work? && (e.PacketOut? ==> t.nice.queue != [])
  {
    match e
    case GatheringDone(_) => Passed(t, UpdateIceState(t.nice, CandidatesReceived))
    case ComponentState(_, c, ready) => Passed(t,
        UpdateComponentState(t.nice, c, if ready then IceReady else IceFailed))
    case LastCandidate(_, received) => t.(nice := t.nice.(gotLast := received))
    case PacketIn(_, p) => t.(nice := QueueData(t.nice, p))
    case PacketOut(_, outcome) => Dequeued(t, outcome)
    case ResendTimeout(_, ctx) => TimedOut(t, ctx)
  }

  function Next(s: Sys, e: Event): Sys
    requires Enabled(s, e)
  {
    var t := s.ts[e.m];
    if !e.Work? then s.(ts := s.ts[e.m := NextTrans(t, e)])
    else
      var rest := t.todo[e.thread][1..];
      match t.todo[e.thread][0]
      case Update(state) =>
        // updateTransportState: assign, then notify; nothing if the state is already there.
        if state == t.dtls.state then s.(ts := s.ts[e.m := t.(todo := t.todo[e.thread := rest])])
        else s.(ts := s.ts[e.m := t.(dtls := t.dtls.(state := state), todo :=
            t.todo[e.thread := [Notify(state)] + rest])])
      case Notify(state) =>
        Sys(UpdateState(s.conn, States(s), state), s.ts[e.m := t.(todo := t.todo[e.thread := rest])])
  }

  // ---- a handler run to its end ----

  /** The thread that carries an event's callback. */
  function ThreadOf(e: Event): Thread {
    match e
    case PacketOut(_, _) => PacketLoop
    case ResendTimeout(_, ctx) => TimerThread(ctx)
    case Work(_, thread) => thread
    case _ => IceLoop
  }

  /** An assignment is one step and its notification another. */
  function Steps(todo: seq<Todo>): nat {
    if todo == [] then 0 else (if todo[0].Update? then 2 else 1) + Steps(todo[1..])
  }

  /** All the pending work of one thread, with no other thread in between. */
  function WorkOff(s: Sys, m: Media, thread: Thread): Sys
    requires m in s.ts && thread in s.ts[m].todo
    decreases Steps(s.ts[m].todo[thread])
  {
    if s.ts[m].todo[thread] == [] then s
    else
      WorkShrinks(s, m, thread);
      WorkOff(Next(s, Work(m, thread)), m, thread)
  }

  lemma {:induction false} WorkShrinks(s: Sys, m: Media, thread: Thread)
    requires m in s.ts && thread in s.ts[m].todo && s.ts[m].todo[thread] != []
    ensures var s' := Next(s, Work(m, thread));
            m in s'.ts && thread in s'.ts[m].todo && Steps(s'.ts[m].todo[thread]) < Steps(s.ts[m].todo[thread])
  {
    var w, rest := s.ts[m].todo[thread][0], s.ts[m].todo[thread][1..];
    assert ([Notify(w.state)] + rest)[1..] == rest;
  }

  /** Working a thread's list off is performing it: assignments and nested notifications in order. */
  lemma {:induction false} WorkOffIsPerform(s: Sys, m: Media, thread: Thread)
    requires m in s.ts && thread in s.ts[m].todo
    ensures var (c, ts) := Perform(s.conn, States(s), m, s.ts[m].todo[thread]);
            m in ts && WorkOff(s, m, thread) == Done(s, m, thread, c, ts[m])
    decreases Steps(s.ts[m].todo[thread])
  {
    var t := s.ts[m];
    var todo := t.todo[thread];
    if todo == [] {
      assert t.todo[thread := []] == t.todo && s.ts[m := t] == s.ts;
    } else {
      WorkShrinks(s, m, thread);
      var s' := Next(s, Work(m, thread));
      WorkOffIsPerform(s', m, thread);
      WorkIsPerform(s, m, thread);
      var (c, ts) := Perform(s'.conn, States(s'), m, s'.ts[m].todo[thread]);
      DoneAlike(s, m, thread, c, ts[m]);
    }
  }

  /** The system with the thread's work done and the given outcome. */
  function Done(s: Sys, m: Media, thread: Thread, c: Conn, state: TransportState): Sys
    requires m in s.ts
  {
    var t := s.ts[m];
    Sys(c, s.ts[m := t.(dtls := t.dtls.(state := state), todo := t.todo[thread := []])])
  }

  lemma {:induction false} DoneAlike(s: Sys, m: Media, thread: Thread, c: Conn, state: TransportState)
    requires m in s.ts && thread in s.ts[m].todo && s.ts[m].todo[thread] != []
    ensures var s' := Next(s, Work(m, thread));
            m in s'.ts && Done(s', m, thread, c, state) == Done(s, m, thread, c, state)
  {
    var s', t := Next(s, Work(m, thread)), s.ts[m];
    assert s'.ts[m].todo[thread := []] == t.todo[thread := []];
    var done := t.(dtls := t.dtls.(state := state), todo := t.todo[thread := []]);
    assert s'.ts[m := done] == s.ts[m := done];
  }

  /** One step of the work leaves the same to be performed. */
  lemma {:induction false} WorkIsPerform(s: Sys, m: Media, thread: Thread)
    requires m in s.ts && thread in s.ts[m].todo && s.ts[m].todo[thread] != []
    ensures var s' := Next(s, Work(m, thread));
            && m in s'.ts && thread in s'.ts[m].todo
            && Perform(s.conn, States(s), m, s.ts[m].todo[thread])
                 == Perform(s'.conn, States(s'), m, s'.ts[m].todo[thread])
  {
    var t, s' := s.ts[m], Next(s, Work(m, thread));
    var w, rest := t.todo[thread][0], t.todo[thread][1..];
    if w.Update? && w.state != t.dtls.state {
      assert States(s') == States(s)[m := w.state];
      assert States(s')[m := w.state] == States(s');
      assert ([Notify(w.state)] + rest)[1..] == rest;
    } else {
      assert States(s') == States(s);
      assert States(s)[m := t.dtls.state] == States(s);
    }
  }

  /** No thread has anything to do. */
  const AllIdle: map<Thread, seq<Todo>> := map[IceLoop := [], PacketLoop := [], RtpTimer := [], RtcpTimer := []]

  /** What an event comes to when its callback runs to the end. */
  function Settled(s: Sys, e: Event): Sys
    requires Enabled(s, e) && !e.Work? && ThreadOf(e) in s.ts[e.m].todo
  {
    WorkOff(Next(s, e), e.m, ThreadOf(e))
  }

  /** That is the event, and then steps of the thread that carries its callback. */
  lemma {:induction false} WorkOffIsRun(s: Sys, m: Media, thread: Thread) returns (run: seq<Sys>, events: seq<Event>)
    requires m in s.ts && thread in s.ts[m].todo
    ensures IsRun(run, events) && run[0] == s && run[|events|] == WorkOff(s, m, thread)
    ensures forall i :: 0 <= i < |events| ==> events[i] == Work(m, thread)
    decreases Steps(s.ts[m].todo[thread])
  {
    if s.ts[m].todo[thread] == [] {
      run, events := [s], [];
    } else {
      WorkShrinks(s, m, thread);
      var run', events' := WorkOffIsRun(Next(s, Work(m, thread)), m, thread);
      run, events := [s] + run', [Work(m, thread)] + events';
      RunBefore(s, Work(m, thread), run', events');
    }
  }

  lemma {:induction false} RunBefore(s: Sys, e: Event, run: seq<Sys>, events: seq<Event>)
    requires Enabled(s, e) && IsRun(run, events) && run[0] == Next(s, e)
    ensures IsRun([s] + run, [e] + events)
  {
    var run', events' := [s] + run, [e] + events;
    forall i | 0 <= i < |events'| ensures Enabled(run'[i], events'[i]) && run'[i + 1] == Next(run'[i], events'[i]) {
      if i > 0 {
        assert events'[i] == events[i - 1] && run'[i] == run[i - 1] && run'[i + 1] == run[i];
      }
    }
  }

  // ---- the invariant ----

  predicate IceUp(n: Nice) {
    n.ice.Rank() >= 2
  }

  /** What a thread of a transport may still have to do. */
  predicate TodoOk(t: Trans, thread: Thread, w: Todo) {
    match w.state
    case TrGathered => thread == IceLoop && !IceUp(t.nice)
    case TrReady => IceUp(t.nice)
    case TrFailed => true
    case _ => false
  }

  ghost predicate TransOk(t: Trans) {
    && (t.dtls.readyRtp || t.dtls.readyRtcp || t.nice.queue != [] || t.dtls.state == TrReady ==> IceUp(t.nice))
    && t.dtls.state in {TrInitial, TrGathered, TrReady, TrFailed}
    && (forall thread {:trigger t.todo[thread]} :: thread in t.todo ==>
          forall i {:trigger t.todo[thread][i]} :: 0 <= i < |t.todo[thread]| ==> TodoOk(t, thread, t.todo[thread][i]))
  }

  /** The descriptions agree, or one transport carries everything. */
  predicate ConfigOk(s: Sys) {
    if s.conn.cfg.bundle then s.ts.Keys == {Video}
    else
      && s.conn.cfg.localAudio == s.conn.cfg.remoteAudio && s.conn.cfg.localVideo == s.conn.cfg.remoteVideo
      && (s.conn.cfg.remoteAudio || s.conn.cfg.remoteVideo)
  }

  /** A transport that was ready: its gathering is over for good. */
  predicate PastGathering(t: Trans) {
    IceUp(t.nice) && t.dtls.state != TrGathered
  }

  ghost predicate ConnOk(s: Sys) {
    && s.conn.state in {ConnInitial, ConnGathered, ConnReady, ConnFailed}
    && (s.conn.state == ConnReady && s.conn.cfg.bundle ==> forall m :: m in s.ts ==> IceUp(s.ts[m].nice))
    && (s.conn.state == ConnReady && !s.conn.cfg.bundle ==>
          && (s.conn.cfg.remoteAudio ==> Audio in s.ts && PastGathering(s.ts[Audio]))
          && (s.conn.cfg.remoteVideo ==> Video in s.ts && PastGathering(s.ts[Video])))
    && Told(s.conn)
  }

  /** The listener has been told an ascending list of states, ending with the present one. */
  ghost predicate Told(c: Conn) {
    && (forall i, j :: 0 <= i < j < |c.told| ==> c.told[i].Code() < c.told[j].Code())
    && (if c.told == [] then c.state == ConnInitial else c.state == c.told[|c.told| - 1] && c.told[0] != ConnInitial)
  }

  lemma {:induction false} ToldMore(c: Conn, state: ConnState)
    requires Told(c) && c.state.Code() < state.Code()
    ensures Told(c.(state := state, told := c.told + [state]))
  {
  }

  ghost predicate Inv(s: Sys) {
    && s.ts != map[] && ConfigOk(s) && ConnOk(s)
    && forall m :: m in s.ts ==> TransOk(s.ts[m])
  }

  /** A connection just set up: nothing gathered, no work under way. */
  ghost predicate Init(s: Sys) {
    && s.ts != map[] && ConfigOk(s)
    && s.conn.state == ConnInitial && s.conn.told == [] && s.conn.sending
    && forall m :: m in s.ts ==> New(s.ts[m])
  }

  ghost predicate New(t: Trans) {
    && t.nice.ice == IceInitial && AllIn(t.nice.components, t.nice.count, IceInitial) && t.nice.queue == []
    && t.dtls.running && t.dtls.state == TrInitial && !t.dtls.readyRtp && !t.dtls.readyRtcp
    && t.dtls.rtpResends == t.dtls.rtcpResends == MAX_RESENDS
    && forall thread :: thread in t.todo ==> t.todo[thread] == []
  }

  lemma {:induction false} InitOk(s: Sys)
    requires Init(s)
    ensures Inv(s)
  {
  }

  /** Events other than Work: the ICE state does not go back, and the transport keeps its invariant. */
  lemma {:induction false} TransStep(t: Trans, e: Event)
    requires TransOk(t) && !e.Work? && (e.PacketOut? ==> t.nice.queue != [])
    requires (e.GatheringDone? || e.ComponentState?) ==> Idle(t, IceLoop)
    ensures TransOk(NextTrans(t, e))
    ensures t.nice.ice.Rank() <= NextTrans(t, e).nice.ice.Rank()
    ensures NextTrans(t, e).dtls.state == t.dtls.state
  {
    var t' := NextTrans(t, e);
    TransUp(t, e);
    forall thread | thread in t'.todo
      ensures forall i {:trigger t'.todo[thread][i]} :: 0 <= i < |t'.todo[thread]| ==>
              TodoOk(t', thread, t'.todo[thread][i])
    {
      TodoStep(t, e, thread);
    }
  }

  lemma {:induction false} TransUp(t: Trans, e: Event)
    requires TransOk(t) && !e.Work? && (e.PacketOut? ==> t.nice.queue != [])
    ensures var t' := NextTrans(t, e);
            && t'.dtls.state == t.dtls.state && t.nice.ice.Rank() <= t'.nice.ice.Rank()
            && (t'.dtls.readyRtp || t'.dtls.readyRtcp || t'.nice.queue != [] || t'.dtls.state == TrReady ==>
                  IceUp(t'.nice))
  {
  }

  lemma {:induction false} TodoStep(t: Trans, e: Event, thread: Thread)
    requires TransOk(t) && !e.Work? && (e.PacketOut? ==> t.nice.queue != [])
    requires (e.GatheringDone? || e.ComponentState?) ==> Idle(t, IceLoop)
    requires thread in NextTrans(t, e).todo
    ensures var t' := NextTrans(t, e);
            forall i {:trigger t'.todo[thread][i]} :: 0 <= i < |t'.todo[thread]| ==>
              TodoOk(t', thread, t'.todo[thread][i])
  {
    var t' := NextTrans(t, e);
    forall i | 0 <= i < |t'.todo[thread]| ensures TodoOk(t', thread, t'.todo[thread][i]) {
      if thread in t.todo && t.todo[thread] == t'.todo[thread] {
        assert TodoOk(t, thread, t.todo[thread][i]);
      }
    }
  }

  /** Finishing a piece of work keeps the transport's invariant, whether or not it sets the state. */
  lemma {:induction false} WorkTrans(t: Trans, thread: Thread, rest: seq<Todo>, d: Dtls)
    requires TransOk(t) && thread in t.todo
    requires d == t.dtls || (d == t.dtls.(state := d.state) && d.state in {TrGathered, TrReady, TrFailed}
                             && (d.state == TrReady ==> IceUp(t.nice)))
    requires forall i :: 0 <= i < |rest| ==> TodoOk(t, thread, rest[i])
    ensures TransOk(t.(dtls := d, todo := t.todo[thread := rest]))
  {
    var t' := t.(dtls := d, todo := t.todo[thread := rest]);
    forall th | th in t'.todo
      ensures forall i {:trigger t'.todo[th][i]} :: 0 <= i < |t'.todo[th]| ==> TodoOk(t', th, t'.todo[th][i])
    {
      if th != thread {
        assert t'.todo[th] == t.todo[th];
      }
    }
  }

  /** A ready connection has a transport that its gathering rule would have to wait for in vain. */
  lemma {:induction false} SomePastGathering(s: Sys)
    requires Inv(s) && s.conn.state == ConnReady && !s.conn.cfg.bundle
    ensures !AllAre(s.conn.cfg.localAudio, s.conn.cfg.localVideo, States(s), TrGathered)
  {
    var w := if s.conn.cfg.remoteAudio then Audio else Video;
    assert PastGathering(s.ts[w]) && States(s)[w] == s.ts[w].dtls.state;
  }

  /** The heart of it: a notification moves the connection up, or leaves it. */
  lemma {:induction false} NotifyStep(s: Sys, m: Media, thread: Thread, state: TransportState)
    requires Inv(s) && m in s.ts && TodoOk(s.ts[m], thread, Notify(state))
    ensures var c := UpdateState(s.conn, States(s), state);
            && c.cfg == s.conn.cfg && ConnOk(s.(conn := c)) && s.conn.told <= c.told
            && s.conn.state.Code() <= c.state.Code()
            && (s.conn.state == ConnFailed ==> c == s.conn)
            && (c.state == s.conn.state ==> c.told == s.conn.told)
  {
    NotifyKeeps(s, m, thread, state);
    NotifyUpward(s, m, thread, state);
  }

  lemma {:induction false} NotifyKeeps(s: Sys, m: Media, thread: Thread, state: TransportState)
    requires Inv(s) && m in s.ts && TodoOk(s.ts[m], thread, Notify(state))
    ensures ConnOk(s.(conn := UpdateState(s.conn, States(s), state)))
  {
    NotifyTold(s, m, thread, state);
    NotifyReady(s, m, thread, state);
  }

  lemma {:induction false} NotifyTold(s: Sys, m: Media, thread: Thread, state: TransportState)
    requires Inv(s) && m in s.ts && TodoOk(s.ts[m], thread, Notify(state))
    ensures Told(UpdateState(s.conn, States(s), state))
  {
    var c := UpdateState(s.conn, States(s), state);
    NotifyUpward(s, m, thread, state);
    if c.state != s.conn.state {
      ToldMore(s.conn, c.state);
    }
  }

  lemma {:induction false} NotifyReady(s: Sys, m: Media, thread: Thread, state: TransportState)
    requires Inv(s) && m in s.ts && TodoOk(s.ts[m], thread, Notify(state))
    ensures var c := UpdateState(s.conn, States(s), state);
            && c.state in {ConnInitial, ConnGathered, ConnReady, ConnFailed} && c.cfg == s.conn.cfg
            && (c.state == ConnReady && c.cfg.bundle ==> forall m :: m in s.ts ==> IceUp(s.ts[m].nice))
            && (c.state == ConnReady && !c.cfg.bundle ==>
                  && (c.cfg.remoteAudio ==> Audio in s.ts && PastGathering(s.ts[Audio]))
                  && (c.cfg.remoteVideo ==> Video in s.ts && PastGathering(s.ts[Video])))
  {
  }

  lemma {:induction false} NotifyUpward(s: Sys, m: Media, thread: Thread, state: TransportState)
    requires Inv(s) && m in s.ts && TodoOk(s.ts[m], thread, Notify(state))
    ensures var c := UpdateState(s.conn, States(s), state);
            && c.cfg == s.conn.cfg && s.conn.told <= c.told
            && s.conn.state.Code() <= c.state.Code()
            && (s.conn.state == ConnFailed ==> c == s.conn)
            && (c.state == s.conn.state ==> c.told == s.conn.told)
  {
    if s.conn.state == ConnReady && !s.conn.cfg.bundle {
      SomePastGathering(s);
    }
  }

  /** Replacing one transport by another that is no further back, with the connection as it was. */
  lemma {:induction false} Replaced(s: Sys, m: Media, t: Trans)
    requires Inv(s) && m in s.ts && TransOk(t) && s.ts[m].nice.ice.Rank() <= t.nice.ice.Rank()
    requires t.dtls.state == TrGathered ==> s.ts[m].dtls.state == TrGathered || !IceUp(t.nice)
    ensures Inv(s.(ts := s.ts[m := t])) && Upward(s, s.(ts := s.ts[m := t]))
  {
    assert s.ts[m := t].Keys == s.ts.Keys;
  }

  lemma {:induction false} WorkStep(s: Sys, e: Event)
    requires Inv(s) && Enabled(s, e) && e.Work?
    ensures Inv(Next(s, e)) && Upward(s, Next(s, e))
  {
    var t := s.ts[e.m];
    var w, rest := t.todo[e.thread][0], t.todo[e.thread][1..];
    assert TodoOk(t, e.thread, w);
    forall i | 0 <= i < |rest| ensures TodoOk(t, e.thread, rest[i]) {
      assert rest[i] == t.todo[e.thread][i + 1];
    }
    if w.Notify? {
      var c := UpdateState(s.conn, States(s), w.state);
      WorkTrans(t, e.thread, rest, t.dtls);
      NotifyStep(s, e.m, e.thread, w.state);
      Replaced(s.(conn := c), e.m, t.(todo := t.todo[e.thread := rest]));
    } else {
      var d := t.dtls.(state := w.state);
      var todo := if w.state != t.dtls.state then [Notify(w.state)] + rest else rest;
      WorkTrans(t, e.thread, todo, d);
      Replaced(s, e.m, t.(dtls := d, todo := t.todo[e.thread := todo]));
    }
  }

  /** Every step keeps the invariant, and moves the ICE states and the connection only upwards. */
  lemma {:induction false} Step(s: Sys, e: Event)
    requires Inv(s) && Enabled(s, e)
    ensures Inv(Next(s, e)) && Upward(s, Next(s, e))
  {
    if e.Work? {
      WorkStep(s, e);
    } else {
      TransStep(s.ts[e.m], e);
      Replaced(s, e.m, NextTrans(s.ts[e.m], e));
    }
  }

  /** A callback run to its end keeps the invariant and moves nothing back. */
  lemma {:induction false} SettledUpward(s: Sys, e: Event)
    requires Inv(s) && Enabled(s, e) && !e.Work? && ThreadOf(e) in s.ts[e.m].todo
    ensures Inv(Settled(s, e)) && Upward(s, Settled(s, e))
  {
    Step(s, e);
    WorkOffUpward(Next(s, e), e.m, ThreadOf(e));
    UpwardChain(s, Next(s, e), Settled(s, e));
  }

  lemma {:induction false} WorkOffUpward(s: Sys, m: Media, thread: Thread)
    requires Inv(s) && m in s.ts && thread in s.ts[m].todo
    ensures Inv(WorkOff(s, m, thread)) && Upward(s, WorkOff(s, m, thread))
    decreases Steps(s.ts[m].todo[thread])
  {
    if s.ts[m].todo[thread] != [] {
      WorkShrinks(s, m, thread);
      var s' := Next(s, Work(m, thread));
      Step(s, Work(m, thread));
      WorkOffUpward(s', m, thread);
      UpwardChain(s, s', WorkOff(s, m, thread));
    }
  }

  /** The callback of an idle transport, run to its end, leads from `s` to `s'`, and keeps what all runs keep. */
  ghost predicate Handled(s: Sys, s': Sys, e: Event) {
    && Enabled(s, e) && !e.Work? && ThreadOf(e) in s.ts[e.m].todo
    && s' == Settled(s, e) && (Inv(s) ==> Inv(s') && Upward(s, s'))
  }

  /** What the callback did to an idle transport, the connection and the transports' states. */
  ghost predicate Did(t: Trans, c: Conn, ts: Transports, e: Event, t': Trans, c': Conn, ts': Transports) {
    && t.todo == t'.todo == AllIdle && !e.Work? && (e.PacketOut? ==> t.nice.queue != []) && e.m in ts && e.m in ts'
    && var u := NextTrans(t, e);
       && ThreadOf(e) in u.todo && t'.nice == u.nice && t'.dtls == u.dtls.(state := ts'[e.m])
       && (c', ts') == Perform(c, ts, e.m, u.todo[ThreadOf(e)])
  }

  lemma {:induction false} IsHandled(s: Sys, s': Sys, e: Event, t': Trans, ts': Transports)
    requires Enabled(s, e) && Did(s.ts[e.m], s.conn, States(s), e, t', s'.conn, ts') && s'.ts == s.ts[e.m := t']
    ensures Handled(s, s', e)
  {
    SettledIs(s, e, NextTrans(s.ts[e.m], e));
    if Inv(s) {
      SettledUpward(s, e);
    }
  }

  /** A callback is run to its end; one that is not enabled does not come. */
  function Reaction(s: Sys, e: Event): Sys {
    if Enabled(s, e) && !e.Work? && ThreadOf(e) in s.ts[e.m].todo then Settled(s, e) else s
  }

  lemma {:induction false} Reacts(s: Sys, s': Sys, e: Event)
    requires Handled(s, s', e)
    ensures s' == Reaction(s, e)
  {
  }

  /** One callback after the other. */
  function Driven(s: Sys, events: seq<Event>): Sys
    decreases events
  {
    if events == [] then s else Driven(Reaction(s, events[0]), events[1..])
  }

  lemma {:induction false} DrivenMore(start: Sys, events: seq<Event>, i: nat)
    requires i < |events|
    ensures Driven(start, events[..i + 1]) == Reaction(Driven(start, events[..i]), events[i])
    decreases i
  {
    assert events[..i + 1][0] == events[0];
    if i == 0 {
      assert events[..1][1..] == [];
    } else {
      DrivenMore(Reaction(start, events[0]), events[1..], i - 1);
      assert events[..i + 1][1..] == events[1..][..i] && events[..i][1..] == events[1..][..i - 1];
    }
  }

  /** Callbacks one after the other keep the invariant and move nothing back. */
  lemma {:induction false} DrivenUpward(s: Sys, events: seq<Event>)
    requires Inv(s)
    ensures Inv(Driven(s, events)) && Upward(s, Driven(s, events))
    decreases events
  {
    if events != [] {
      var s' := Reaction(s, events[0]);
      if s' != s {
        SettledUpward(s, events[0]);
      }
      DrivenUpward(s', events[1..]);
      UpwardChain(s, s', Driven(s, events));
    }
  }

  lemma {:induction false} SettledIs(s: Sys, e: Event, t: Trans)
    requires Enabled(s, e) && !e.Work? && s.ts[e.m].todo == AllIdle && t == NextTrans(s.ts[e.m], e)
    ensures ThreadOf(e) in t.todo
    ensures var (c, ts) := Perform(s.conn, States(s), e.m, t.todo[ThreadOf(e)]);
            e.m in ts && Settled(s, e) == Sys(c, s.ts[e.m := Trans(t.nice, t.dtls.(state := ts[e.m]), AllIdle)])
  {
    var s1, thread := s.(ts := s.ts[e.m := t]), ThreadOf(e);
    CallbackThread(s.ts[e.m], e);
    assert Next(s, e) == s1;
    assert States(s1) == States(s);
    WorkOffIsPerform(s1, e.m, thread);
    var (c, ts) := Perform(s.conn, States(s), e.m, t.todo[thread]);
    DoneIdle(s, e.m, thread, t, c, ts[e.m]);
  }

  lemma {:induction false} DoneIdle(s: Sys, m: Media, thread: Thread, t: Trans, c: Conn, state: TransportState)
    requires m in s.ts && t.todo[thread := []] == AllIdle
    ensures Done(s.(ts := s.ts[m := t]), m, thread, c, state)
            == Sys(c, s.ts[m := Trans(t.nice, t.dtls.(state := state), AllIdle)])
  {
    var done := Trans(t.nice, t.dtls.(state := state), AllIdle);
    assert s.ts[m := t][m := done] == s.ts[m := done];
  }

  /** An event leaves the transport's state to the thread that carries its callback. */
  lemma {:induction false} CallbackThread(t: Trans, e: Event)
    requires !e.Work? && (e.PacketOut? ==> t.nice.queue != []) && t.todo == AllIdle
    ensures var t' := NextTrans(t, e);
            && t'.dtls.state == t.dtls.state && ThreadOf(e) in t'.todo
            && t'.todo[ThreadOf(e) := []] == AllIdle
  {
    OwnThread(t, e);
    var thread, t' := ThreadOf(e), NextTrans(t, e);
    assert thread in AllIdle;
    BackToIdle(thread, t'.todo[thread]);
  }

  /** Only that thread gets anything to do. */
  lemma {:induction false} OwnThread(t: Trans, e: Event)
    requires !e.Work? && (e.PacketOut? ==> t.nice.queue != []) && ThreadOf(e) in t.todo
    ensures var t', thread := NextTrans(t, e), ThreadOf(e);
            t'.dtls.state == t.dtls.state && thread in t'.todo && t'.todo == t.todo[thread := t'.todo[thread]]
  {
    var thread := ThreadOf(e);
    assert t.todo == t.todo[thread := t.todo[thread]];
  }

  lemma {:induction false} BackToIdle(thread: Thread, todo: seq<Todo>)
    ensures AllIdle[thread := todo][thread := []] == AllIdle
  {
  }

  /** What Did asks, for a callback of the ICE thread. */
  lemma {:induction false} PassedDid(t: Trans, c: Conn, ts: Transports, e: Event, step: (Nice, Option<IceState>),
                                     t': Trans, c': Conn, ts': Transports)
    requires t.todo == t'.todo == AllIdle && ThreadOf(e) == IceLoop && !e.Work? && e.m in ts && e.m in ts'
    requires NextTrans(t, e) == Passed(t, step) && t'.nice == step.0
    requires var want := if step.1.None? then (t.dtls, []) else OnIceState(t.dtls, step.1.value);
             t'.dtls == want.0.(state := ts'[e.m]) && (c', ts') == Perform(c, ts, e.m, want.1)
    ensures Did(t, c, ts, e, t', c', ts')
  {
  }

  /** What Did asks, for a packet that was read. */
  lemma {:induction false} ReadDid(t: Trans, c: Conn, ts: Transports, e: Event, t': Trans, c': Conn, ts': Transports)
    requires t.todo == t'.todo == AllIdle && e.PacketOut? && t.nice.queue != [] && e.m in ts && e.m in ts'
    requires t'.nice == t.nice.(queue := t.nice.queue[1..])
    requires var want := ReadBy(t.dtls, t.nice.queue[0], e.outcome);
             t'.dtls == want.0.(state := ts'[e.m]) && (c', ts') == Perform(c, ts, e.m, want.1)
    ensures Did(t, c, ts, e, t', c', ts')
  {
  }

  /** Nothing goes back from `s` to `t`. */
  ghost predicate Upward(s: Sys, t: Sys) {
    && s.ts.Keys == t.ts.Keys
    && (forall m :: m in s.ts ==> s.ts[m].nice.ice.Rank() <= t.ts[m].nice.ice.Rank())
    && s.conn.state.Code() <= t.conn.state.Code()
    && s.conn.told <= t.conn.told
    && (s.conn.state == ConnFailed ==> t.conn == s.conn)
  }

  /** `run` is a run of the system under the given events. */
  ghost predicate IsRun(run: seq<Sys>, events: seq<Event>) {
    && |run| == |events| + 1
    && forall i {:trigger events[i]} :: 0 <= i < |events| ==>
        Enabled(run[i], events[i]) && run[i + 1] == Next(run[i], events[i])
  }

  lemma {:induction false} Reachable(run: seq<Sys>, events: seq<Event>, j: nat)
    requires IsRun(run, events) && Init(run[0]) && j < |run|
    ensures Inv(run[j])
  {
    if j == 0 {
      InitOk(run[0]);
    } else {
      Reachable(run, events, j - 1);
      Step(run[j - 1], events[j - 1]);
    }
  }

  /** In every reachable state: only the four states, and the listener knows exactly how it came to them. */
  lemma {:induction false} StatesTold(run: seq<Sys>, events: seq<Event>, j: nat)
    requires IsRun(run, events) && Init(run[0]) && j < |run|
    ensures run[j].conn.state in {ConnInitial, ConnGathered, ConnReady, ConnFailed} && Told(run[j].conn)
  {
    Reachable(run, events, j);
  }

  lemma {:induction false} StepUpward(run: seq<Sys>, events: seq<Event>, j: nat)
    requires IsRun(run, events) && Init(run[0]) && j < |events|
    ensures Upward(run[j], run[j + 1])
  {
    Reachable(run, events, j);
    Step(run[j], events[j]);
  }

  lemma {:induction false} UpwardChain(a: Sys, b: Sys, c: Sys)
    requires Upward(a, b) && Upward(b, c)
    ensures Upward(a, c)
  {
    assert a.conn.told <= c.conn.told;
  }

  /**
   Over every run from the start: ICE states never go back; the connection passes through
   INITIAL, GATHERED, READY, FAILED in that order, skipping some perhaps; the listener's list only
   grows; and once the connection has failed it stays exactly as it is.
   */
  lemma {:induction false} Monotone(run: seq<Sys>, events: seq<Event>, i: nat, j: nat)
    requires IsRun(run, events) && Init(run[0]) && i <= j < |run|
    ensures Upward(run[i], run[j])
    decreases j
  {
    if i < j {
      Monotone(run, events, i, j - 1);
      StepUpward(run, events, j - 1);
      UpwardChain(run[i], run[j - 1], run[j]);
    }
  }
}
