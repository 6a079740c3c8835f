/**
 What the media connection owes: in every state of every interleaving, whatever the transports have reached is
 reached by the connection too, or a thread is still on its way to say so.
 */
module MediaProgress {
  import opened Options
  import opened MediaStates
  import opened MediaRuns

  /** The transports that are asked for are in the given state: the one of a bundle, or one for each medium. */
  predicate Everywhere(s: Sys, audio: bool, video: bool, state: TransportState) {
    if s.conn.cfg.bundle then Video in s.ts && s.ts[Video].dtls.state == state
    else
      && (audio ==> Audio in s.ts && s.ts[Audio].dtls.state == state)
      && (video ==> Video in s.ts && s.ts[Video].dtls.state == state)
  }

  /** The transports call for a new state of the connection. */
  predicate Demanded(s: Sys, target: TransportState) {
    match target
    case TrGathered =>
      !s.conn.cfg.trickle && Everywhere(s, s.conn.cfg.localAudio, s.conn.cfg.localVideo, TrGathered)
    case TrReady => Everywhere(s, s.conn.cfg.remoteAudio, s.conn.cfg.remoteVideo, TrReady)
    case TrFailed => exists m :: m in s.ts && s.ts[m].dtls.state == TrFailed
    case _ => false
  }

  /** The connection is there, or past it. */
  predicate Reached(c: Conn, target: TransportState) {
    match target
    case TrGathered => c.state in {ConnGathered, ConnReady, ConnFailed}
    case TrReady => c.state in {ConnReady, ConnFailed}
    case _ => c.state == ConnFailed
  }

  /** The thread is about to tell the connection. */
  predicate Announced(t: Trans, thread: Thread, target: TransportState) {
    thread in t.todo && t.todo[thread] != [] && t.todo[thread][0] == Notify(target)
  }

  ghost predicate Pending(s: Sys, target: TransportState) {
    exists m, thread :: m in s.ts && Announced(s.ts[m], thread, target)
  }

  ghost predicate Due(s: Sys, target: TransportState) {
    Demanded(s, target) ==> Reached(s.conn, target) || Pending(s, target)
  }

  ghost predicate Has(t: Trans, w: Todo) {
    exists thread :: thread in t.todo && w in t.todo[thread]
  }

  /** With all its components ready, ICE is ready or past it. */
  predicate IceDue(n: Nice) {
    n.count >= 1 && AllIn(n.components, n.count, IceReady) ==> n.ice.Rank() >= IceReady.Rank()
  }

  /** The same within a transport, from its ICE connection and its keys on. */
  ghost predicate TransDue(t: Trans) {
    && IceDue(t.nice)
    && (t.nice.ice == CandidatesReceived ==> t.dtls.state != TrInitial || Has(t, Update(TrGathered)))
    && (t.nice.ice == IceFailed ==> !t.dtls.running)
    && (t.dtls.readyRtp && t.dtls.readyRtcp ==> t.dtls.state in {TrReady, TrFailed} || Has(t, Update(TrReady)))
  }

  /** A transport that has stopped has failed the connection, or is about to. */
  ghost predicate StopDue(s: Sys) {
    (exists m :: m in s.ts && !s.ts[m].dtls.running) ==> s.conn.state == ConnFailed || Failing(s)
  }

  ghost predicate Failing(s: Sys) {
    exists m :: m in s.ts && (Has(s.ts[m], Update(TrFailed)) || Has(s.ts[m], Notify(TrFailed)))
  }

  ghost predicate Progress(s: Sys) {
    && Due(s, TrGathered) && Due(s, TrReady) && Due(s, TrFailed)
    && StopDue(s)
    && forall m :: m in s.ts ==> TransDue(s.ts[m])
  }

  lemma {:induction false} InitProgress(s: Sys)
    requires Init(s)
    ensures Progress(s)
  {
    forall m | m in s.ts ensures TransDue(s.ts[m]) {
      var n := s.ts[m].nice;
      assert n.count >= 1 ==> n.components[1] == IceInitial;
    }
  }

  // Notifications.

  lemma {:induction false} NotifyReaches(s: Sys, m: Media, thread: Thread, target: TransportState)
    requires Inv(s) && m in s.ts && TodoOk(s.ts[m], thread, Notify(target)) && Demanded(s, target)
    ensures Reached(UpdateState(s.conn, States(s), target), target)
  {
    assert m in States(s);
    NotifyUpward(s, m, thread, target);
  }

  lemma {:induction false} NotifyKeepsReached(s: Sys, m: Media, thread: Thread, state: TransportState,
                                              target: TransportState)
    requires Inv(s) && m in s.ts && TodoOk(s.ts[m], thread, Notify(state)) && Reached(s.conn, target)
    ensures Reached(UpdateState(s.conn, States(s), state), target)
  {
    NotifyStep(s, m, thread, state);
  }

  /** What a thread has to do stays while others take steps. */
  lemma {:induction false} TodoStays(s: Sys, e: Event, m: Media, thread: Thread)
    requires Enabled(s, e) && m in s.ts && thread in s.ts[m].todo && s.ts[m].todo[thread] != []
    requires !(e.Work? && e.m == m && e.thread == thread)
    ensures var s' := Next(s, e);
            m in s'.ts && thread in s'.ts[m].todo && s'.ts[m].todo[thread] == s.ts[m].todo[thread]
  {
  }

  /** Only an assignment makes a new demand, and the thread that made it announces it next. */
  lemma {:induction false} NewDemand(s: Sys, e: Event, target: TransportState)
    requires Inv(s) && Enabled(s, e) && Demanded(Next(s, e), target)
    ensures Demanded(s, target) || Pending(Next(s, e), target)
  {
    var s', t, t' := Next(s, e), s.ts[e.m], Next(s, e).ts[e.m];
    SameConfig(s, e);
    if t'.dtls.state == t.dtls.state {
      SameDemand(s, s', target);
    } else {
      AssignedNow(s, e);
      if t'.dtls.state == target {
        assert Announced(t', e.thread, target);
      } else {
        OtherDemand(s, s', e.m, target);
      }
    }
  }

  lemma {:induction false} SameConfig(s: Sys, e: Event)
    requires Inv(s) && Enabled(s, e)
    ensures Next(s, e).conn.cfg == s.conn.cfg && Next(s, e).ts == s.ts[e.m := Next(s, e).ts[e.m]]
  {
  }

  lemma {:induction false} AssignedNow(s: Sys, e: Event)
    requires Enabled(s, e) && Next(s, e).ts[e.m].dtls.state != s.ts[e.m].dtls.state
    ensures e.Work? && Announced(Next(s, e).ts[e.m], e.thread, Next(s, e).ts[e.m].dtls.state)
  {
  }

  lemma {:induction false} SameDemand(s: Sys, s': Sys, target: TransportState)
    requires s'.conn.cfg == s.conn.cfg && s'.ts.Keys == s.ts.Keys
    requires forall m :: m in s.ts ==> s'.ts[m].dtls.state == s.ts[m].dtls.state
    ensures Demanded(s', target) == Demanded(s, target)
  {
  }

  lemma {:induction false} OtherDemand(s: Sys, s': Sys, m: Media, target: TransportState)
    requires Inv(s) && s'.conn.cfg == s.conn.cfg && m in s.ts && m in s'.ts && s'.ts == s.ts[m := s'.ts[m]]
    requires s'.ts[m].dtls.state != target && Demanded(s', target)
    ensures Demanded(s, target)
  {
  }

  lemma {:induction false} DueStep(s: Sys, e: Event, target: TransportState)
    requires Inv(s) && Enabled(s, e) && Due(s, target)
    ensures Due(Next(s, e), target)
  {
    var s' := Next(s, e);
    if Demanded(s', target) {
      NewDemand(s, e, target);
      if Demanded(s, target) {
        MetStep(s, e, target);
      }
    }
  }

  /** A demand that was met or announced still is. */
  lemma {:induction false} MetStep(s: Sys, e: Event, target: TransportState)
    requires Inv(s) && Enabled(s, e) && Demanded(s, target) && (Reached(s.conn, target) || Pending(s, target))
    ensures Reached(Next(s, e).conn, target) || Pending(Next(s, e), target)
  {
    if Reached(s.conn, target) {
      ReachedStep(s, e, target);
    } else {
      var m, thread :| m in s.ts && Announced(s.ts[m], thread, target);
      if e.Work? && e.m == m && e.thread == thread {
        assert TodoOk(s.ts[m], thread, s.ts[m].todo[thread][0]);
        NotifyReaches(s, m, thread, target);
      } else {
        TodoStays(s, e, m, thread);
        assert Announced(Next(s, e).ts[m], thread, target);
      }
    }
  }

  lemma {:induction false} ReachedStep(s: Sys, e: Event, target: TransportState)
    requires Inv(s) && Enabled(s, e) && Reached(s.conn, target)
    ensures Reached(Next(s, e).conn, target)
  {
    if e.Work? && s.ts[e.m].todo[e.thread][0].Notify? {
      var w := s.ts[e.m].todo[e.thread][0];
      assert TodoOk(s.ts[e.m], e.thread, w);
      NotifyKeepsReached(s, e.m, e.thread, w.state, target);
    }
  }

  // Within a transport.

  lemma {:induction false} HasStays(s: Sys, e: Event, w: Todo)
    requires Enabled(s, e) && Has(s.ts[e.m], w) && !(e.Work? && s.ts[e.m].todo[e.thread][0] == w)
    ensures e.m in Next(s, e).ts && Has(Next(s, e).ts[e.m], w)
  {
    var t, t' := s.ts[e.m], Next(s, e).ts[e.m];
    var thread :| thread in t.todo && w in t.todo[thread];
    if e.Work? && e.thread == thread {
      var i :| 0 <= i < |t.todo[thread]| && t.todo[thread][i] == w;
      assert w == t.todo[thread][1..][i - 1];
      assert w in t'.todo[thread];
    } else {
      TodoStays(s, e, e.m, thread);
      assert w in t'.todo[thread];
    }
  }

  lemma {:induction false} TransDueStep(s: Sys, e: Event)
    requires Inv(s) && Enabled(s, e) && TransDue(s.ts[e.m])
    ensures TransDue(Next(s, e).ts[e.m])
  {
    if e.Work? {
      WorkDue(s, e);
    } else {
      IceStep(s, e);
      GatherStep(s, e);
      KeysStep(s, e);
    }
  }

  /** All components ready, or the ICE connection failed. */
  lemma {:induction false} IceStep(s: Sys, e: Event)
    requires Inv(s) && Enabled(s, e) && TransDue(s.ts[e.m]) && !e.Work?
    ensures var t' := Next(s, e).ts[e.m]; IceDue(t'.nice) && (t'.nice.ice == IceFailed ==> !t'.dtls.running)
  {
    var n := s.ts[e.m].nice;
    if e.ComponentState? {
      ComponentDue(n, e.component, if e.ready then IceReady else IceFailed);
    }
    StopsOnFailure(s, e);
  }

  lemma {:induction false} ComponentDue(n: Nice, component: nat, state: IceState)
    requires IceDue(n) && state in {IceReady, IceFailed}
    ensures IceDue(UpdateComponentState(n, component, state).0)
  {
    var components := n.components[component := state];
    if state == IceFailed && n.count >= 1 && AllIn(components, n.count, IceReady) {
      forall i | 1 <= i <= n.count ensures i in n.components && n.components[i] == IceReady {
        assert i in components && components[i] == IceReady;
      }
    }
  }

  lemma {:induction false} StopsOnFailure(s: Sys, e: Event)
    requires Enabled(s, e) && !e.Work? && (s.ts[e.m].nice.ice == IceFailed ==> !s.ts[e.m].dtls.running)
    ensures var t' := Next(s, e).ts[e.m]; t'.nice.ice == IceFailed ==> !t'.dtls.running
  {
  }

  lemma {:induction false} GatherStep(s: Sys, e: Event)
    requires Inv(s) && Enabled(s, e) && TransDue(s.ts[e.m]) && !e.Work?
    ensures var t' := Next(s, e).ts[e.m];
            t'.nice.ice == CandidatesReceived ==> t'.dtls.state != TrInitial || Has(t', Update(TrGathered))
  {
    var t, t' := s.ts[e.m], Next(s, e).ts[e.m];
    if t.nice.ice == CandidatesReceived && Has(t, Update(TrGathered)) {
      HasStays(s, e, Update(TrGathered));
    }
    if e.GatheringDone? && t.nice.ice == IceInitial && t.dtls.state == TrInitial {
      assert Update(TrGathered) in t'.todo[IceLoop];
    }
  }

  lemma {:induction false} KeysStep(s: Sys, e: Event)
    requires Inv(s) && Enabled(s, e) && TransDue(s.ts[e.m]) && !e.Work?
    ensures var t' := Next(s, e).ts[e.m];
            t'.dtls.readyRtp && t'.dtls.readyRtcp ==>
              t'.dtls.state in {TrReady, TrFailed} || Has(t', Update(TrReady))
  {
    var t, t' := s.ts[e.m], Next(s, e).ts[e.m];
    if e.PacketOut? && e.outcome.Completed? {
      CompletedDue(t.dtls, ContextOf(t.nice.queue[0]), e.outcome.keysOk);
      assert t'.dtls.readyRtp && t'.dtls.readyRtcp ==> Update(TrReady) in t'.todo[PacketLoop];
    } else {
      FlagsKept(s, e);
      if Has(t, Update(TrReady)) {
        HasStays(s, e, Update(TrReady));
      }
    }
  }

  /** Only a completed handshake sets the flags, and no callback by itself sets the state. */
  lemma {:induction false} FlagsKept(s: Sys, e: Event)
    requires Enabled(s, e) && !e.Work? && !(e.PacketOut? && e.outcome.Completed?)
    ensures var t, t' := s.ts[e.m], Next(s, e).ts[e.m];
            && t'.dtls.readyRtp == t.dtls.readyRtp && t'.dtls.readyRtcp == t.dtls.readyRtcp
            && t'.dtls.state == t.dtls.state
  {
  }

  lemma {:induction false} CompletedDue(d: Dtls, ctx: Context, keysOk: bool)
    ensures var (d', todo) := OnHandshakeCompleted(d, ctx, keysOk);
            && (d'.readyRtp && d'.readyRtcp ==> Update(TrReady) in todo)
            && (!keysOk && (ctx == Rtp || d.hasRtcp) ==> Update(TrFailed) in todo)
  {
    var todo := OnHandshakeCompleted(d, ctx, keysOk).1;
    assert todo != [] ==> todo[|todo| - 1] in todo && todo[0] in todo;
  }

  /** An assignment fulfils what was due, or leaves it. */
  lemma {:induction false} WorkDue(s: Sys, e: Event)
    requires Inv(s) && Enabled(s, e) && TransDue(s.ts[e.m]) && e.Work?
    ensures TransDue(Next(s, e).ts[e.m])
  {
    var t, t' := s.ts[e.m], Next(s, e).ts[e.m];
    var w := t.todo[e.thread][0];
    assert TodoOk(t, e.thread, w);
    if w != Update(TrGathered) && Has(t, Update(TrGathered)) {
      HasStays(s, e, Update(TrGathered));
    }
    if w != Update(TrReady) && Has(t, Update(TrReady)) {
      HasStays(s, e, Update(TrReady));
    }
  }

  // Transports that stop.

  lemma {:induction false} StopStep(s: Sys, e: Event)
    requires Inv(s) && Enabled(s, e) && StopDue(s) && Due(s, TrFailed)
    ensures StopDue(Next(s, e))
  {
    var s' := Next(s, e);
    if exists m :: m in s'.ts && !s'.ts[m].dtls.running {
      if exists m :: m in s.ts && !s.ts[m].dtls.running {
        if s.conn.state == ConnFailed {
          ReachedStep(s, e, TrFailed);
        } else {
          FailingStep(s, e);
        }
      } else {
        StopsNow(s, e);
      }
    }
  }

  lemma {:induction false} StopsNow(s: Sys, e: Event)
    requires Inv(s) && Enabled(s, e) && s.ts[e.m].dtls.running
    requires forall m :: m in s.ts ==> s.ts[m].dtls.running
    requires exists m :: m in Next(s, e).ts && !Next(s, e).ts[m].dtls.running
    ensures Failing(Next(s, e))
  {
    var t' := Next(s, e).ts[e.m];
    assert !t'.dtls.running && !e.Work?;
    StoppedBy(s.ts[e.m], e);
    assert Has(t', Update(TrFailed));
  }

  lemma {:induction false} StoppedBy(t: Trans, e: Event)
    requires !e.Work? && (e.PacketOut? ==> t.nice.queue != []) && t.dtls.running && !NextTrans(t, e).dtls.running
    ensures ThreadOf(e) in NextTrans(t, e).todo && Update(TrFailed) in NextTrans(t, e).todo[ThreadOf(e)]
  {
  }

  /** A failure under way is announced in the end. */
  lemma {:induction false} FailingStep(s: Sys, e: Event)
    requires Inv(s) && Enabled(s, e) && Failing(s) && Due(s, TrFailed)
    ensures Next(s, e).conn.state == ConnFailed || Failing(Next(s, e))
  {
    var s' := Next(s, e);
    var m :| m in s.ts && (Has(s.ts[m], Update(TrFailed)) || Has(s.ts[m], Notify(TrFailed)));
    if m != e.m {
      OtherKept(s, e, m);
    } else if e.Work? && s.ts[m].todo[e.thread][0].state == TrFailed {
      FailureWorked(s, e);
    } else if Has(s.ts[m], Update(TrFailed)) {
      HasStays(s, e, Update(TrFailed));
    } else {
      HasStays(s, e, Notify(TrFailed));
    }
  }

  lemma {:induction false} OtherKept(s: Sys, e: Event, m: Media)
    requires Enabled(s, e) && m in s.ts && m != e.m
    ensures m in Next(s, e).ts && Next(s, e).ts[m] == s.ts[m]
  {
  }

  lemma {:induction false} FailureWorked(s: Sys, e: Event)
    requires Inv(s) && Enabled(s, e) && Due(s, TrFailed) && e.Work? && s.ts[e.m].todo[e.thread][0].state == TrFailed
    ensures Next(s, e).conn.state == ConnFailed || Failing(Next(s, e))
  {
    var t, s' := s.ts[e.m], Next(s, e);
    var w := t.todo[e.thread][0];
    if w.Notify? {
      assert e.m in States(s);
    } else if t.dtls.state == TrFailed {
      assert Demanded(s, TrFailed);
      MetStep(s, e, TrFailed);
      if Pending(s', TrFailed) {
        var m, thread :| m in s'.ts && Announced(s'.ts[m], thread, TrFailed);
        assert Notify(TrFailed) in s'.ts[m].todo[thread];
        assert Has(s'.ts[m], Notify(TrFailed));
      }
    } else {
      assert Notify(TrFailed) in s'.ts[e.m].todo[e.thread];
      assert Has(s'.ts[e.m], Notify(TrFailed));
    }
  }

  // Whole runs.

  lemma {:induction false} ProgressStep(s: Sys, e: Event)
    requires Inv(s) && Enabled(s, e) && Progress(s)
    ensures Progress(Next(s, e))
  {
    DueStep(s, e, TrGathered);
    DueStep(s, e, TrReady);
    DueStep(s, e, TrFailed);
    StopStep(s, e);
    TransDueStep(s, e);
    SameConfig(s, e);
  }

  /** In every state of every run. */
  lemma {:induction false} AlwaysProgress(run: seq<Sys>, events: seq<Event>, j: nat)
    requires IsRun(run, events) && Init(run[0]) && j < |run|
    ensures Progress(run[j])
  {
    if j == 0 {
      InitProgress(run[0]);
    } else {
      AlwaysProgress(run, events, j - 1);
      Reachable(run, events, j - 1);
      ProgressTo(run[j - 1], events[j - 1], run[j]);
    }
  }

  lemma {:induction false} ProgressTo(s: Sys, e: Event, s': Sys)
    requires Inv(s) && Enabled(s, e) && Progress(s) && s' == Next(s, e)
    ensures Progress(s')
  {
    ProgressStep(s, e);
  }

  /** No thread has anything left to do. */
  ghost predicate NoWork(s: Sys) {
    forall m, thread :: m in s.ts && thread in s.ts[m].todo ==> s.ts[m].todo[thread] == []
  }

  /** Both contexts of the transports that are asked for have keys. */
  predicate Keyed(s: Sys) {
    && (s.conn.cfg.bundle || s.conn.cfg.remoteVideo ==>
          Video in s.ts && s.ts[Video].dtls.readyRtp && s.ts[Video].dtls.readyRtcp)
    && (!s.conn.cfg.bundle && s.conn.cfg.remoteAudio ==>
          Audio in s.ts && s.ts[Audio].dtls.readyRtp && s.ts[Audio].dtls.readyRtcp)
  }

  /** The connection has everything it is owed. */
  ghost predicate Served(s: Sys) {
    && (Demanded(s, TrGathered) ==> s.conn.state in {ConnGathered, ConnReady, ConnFailed})
    && (Demanded(s, TrReady) ==> s.conn.state in {ConnReady, ConnFailed})
    && (Keyed(s) ==> s.conn.state in {ConnReady, ConnFailed})
    && ((exists m :: m in s.ts && (s.ts[m].dtls.state == TrFailed || !s.ts[m].dtls.running)) ==>
          s.conn.state == ConnFailed)
    && (forall m :: m in s.ts ==>
          && IceDue(s.ts[m].nice)
          && (s.ts[m].nice.ice == CandidatesReceived ==> s.ts[m].dtls.state != TrInitial)
          && (s.ts[m].nice.ice == IceFailed ==> s.conn.state == ConnFailed))
  }

  lemma {:induction false} NothingPending(s: Sys, m: Media, w: Todo)
    requires NoWork(s) && m in s.ts
    ensures !Has(s.ts[m], w) && !Pending(s, w.state)
  {
  }

  /** With all work done, the connection is where its transports are. */
  lemma {:induction false} QuietIsServed(s: Sys)
    requires Inv(s) && Progress(s) && NoWork(s)
    ensures Served(s)
  {
    forall m, state | m in s.ts
      ensures !Has(s.ts[m], Update(state)) && !Has(s.ts[m], Notify(state)) && !Pending(s, state)
    {
      NothingPending(s, m, Update(state));
      NothingPending(s, m, Notify(state));
    }
    var m :| m in s.ts;
    assert !Pending(s, TrGathered) && !Pending(s, TrReady) && !Pending(s, TrFailed) && !Failing(s);
    if Keyed(s) {
      KeyedIsReady(s);
    }
  }

  lemma {:induction false} KeyedIsReady(s: Sys)
    requires Inv(s) && Progress(s) && NoWork(s) && Keyed(s)
    ensures Demanded(s, TrReady) || Demanded(s, TrFailed)
  {
    forall m | m in s.ts ensures !Has(s.ts[m], Update(TrReady)) {
      NothingPending(s, m, Update(TrReady));
    }
    forall m | m in s.ts && s.ts[m].dtls.readyRtp && s.ts[m].dtls.readyRtcp
      ensures s.ts[m].dtls.state in {TrReady, TrFailed}
    {
      assert TransDue(s.ts[m]);
    }
  }

  // Callbacks run to their ends.

  lemma {:induction false} WorkOffProgress(s: Sys, m: Media, thread: Thread)
    requires Inv(s) && Progress(s) && m in s.ts && thread in s.ts[m].todo
    ensures Progress(WorkOff(s, m, thread))
    decreases Steps(s.ts[m].todo[thread])
  {
    if s.ts[m].todo[thread] != [] {
      WorkShrinks(s, m, thread);
      var s' := Next(s, Work(m, thread));
      Step(s, Work(m, thread));
      ProgressStep(s, Work(m, thread));
      WorkOffProgress(s', m, thread);
    }
  }

  lemma {:induction false} DrivenProgress(s: Sys, events: seq<Event>)
    requires Inv(s) && Progress(s)
    ensures Progress(Driven(s, events))
    decreases events
  {
    if events != [] {
      var e, s' := events[0], Reaction(s, events[0]);
      if Enabled(s, e) && !e.Work? && ThreadOf(e) in s.ts[e.m].todo {
        Step(s, e);
        ProgressStep(s, e);
        WorkOffProgress(Next(s, e), e.m, ThreadOf(e));
        SettledUpward(s, e);
      }
      DrivenProgress(s', events[1..]);
    }
  }

  // What leads there.

  /** Accepted keys count for the context of the packet that completed the handshake. */
  lemma {:induction false} KeysComeIn(s: Sys, e: Event)
    requires Enabled(s, e) && e.PacketOut? && e.outcome == Completed(true)
    ensures var p, d, d' := s.ts[e.m].nice.queue[0], s.ts[e.m].dtls, Next(s, e).ts[e.m].dtls;
            && (p.component == 1 ==> d'.readyRtp && (d.hasRtcp || d'.readyRtcp))
            && (p.component != 1 ==> d'.readyRtcp && d'.readyRtp == d.readyRtp)
  {
  }

  function Resends(d: Dtls, ctx: Context): nat {
    if ctx == Rtp then d.rtpResends else d.rtcpResends
  }

  /** `n` timeouts of a context's timer. */
  function TimedOutTimes(d: Dtls, ctx: Context, n: nat): Dtls
    decreases n
  {
    if n == 0 then d else TimedOutTimes(OnResendTimer(d, ctx).0, ctx, n - 1)
  }

  /** As many timeouts as there are resends left change nothing else, and the next one fails the handshake. */
  lemma {:induction false} TimeoutsFail(d: Dtls, ctx: Context)
    requires Resends(d, ctx) < UINT
    ensures var d' := TimedOutTimes(d, ctx, Resends(d, ctx));
            && d'.running == d.running && OnResendTimer(d', ctx).1 == [Update(TrFailed)]
            && !OnResendTimer(d', ctx).0.running
    ensures Resends(d, ctx) > 0 ==> OnResendTimer(d, ctx).1 == []
    decreases Resends(d, ctx)
  {
    if Resends(d, ctx) > 0 {
      CountsDown(Resends(d, ctx));
      TimeoutsFail(OnResendTimer(d, ctx).0, ctx);
    }
  }

  /** For a new transport that is the sixth. */
  lemma {:induction false} SixthTimeoutFails(t: Trans, ctx: Context)
    requires New(t)
    ensures var d := TimedOutTimes(t.dtls, ctx, 5); d.running && OnResendTimer(d, ctx).1 == [Update(TrFailed)]
  {
    TimeoutsFail(t.dtls, ctx);
  }

  lemma {:induction false} CountsDown(n: nat)
    requires 0 < n < UINT
    ensures (n + UINT - 1) % UINT == n - 1
  {
  }
}
