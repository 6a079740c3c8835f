/**
 The wake-up protocol between the threads that queue work and the one thread that takes it: cWorkerThread with
 PushTask, and NiceConnection::getPacket with queueData. Each shared access is a step of its own.
 */
module WorkerWakeup {
  import opened Options

  datatype Kind = Worker | Packets

  /** Where the consumer stands. */
  datatype Pc<T> =
    | Top                // before it takes the lock
    | Locked             // about to look at the loop condition
    | Unlocking          // found nothing, about to give up the lock
    | Waiting            // in Wait()
    | Woken              // Wait() has returned
    | Relock             // about to take the lock again
    | Checked            // has left the loop
    | Holding(task: T)   // has taken a task, still under the lock
    | Running(task: T)
    | Done

  /** How far the pusher inside the critical section has come. */
  datatype Phase = Entered | Pushed | Signalled

  datatype Lock = Free | ByConsumer | ByPusher(phase: Phase)

  /** The end: not asked for, the flag raised, the event set after it. */
  datatype End = No | Raised | Announced

  /** `pushed` and `ran` record the whole past: what was queued and what was run, in order. */
  datatype State<T> = State(kind: Kind, queue: seq<T>, event: bool, lock: Lock, pc: Pc<T>, end: End, pushed: seq<T>,
      ran: seq<T>)

  datatype Step<T> = Enter | Push(task: T) | Drop | Set | Leave | Consume | Raise | Announce

  function Initial<T>(kind: Kind): State<T> {
    State(kind, [], false, Free, Top, No, [], [])
  }

  /** The state after a step, if the step can be taken. */
  function Next<T>(s: State<T>, step: Step<T>): Option<State<T>> {
    match step
    case Enter => if s.lock == Free then Some(s.(lock := ByPusher(Entered))) else None
    case Push(task) =>
      if s.lock == ByPusher(Entered) && (s.kind == Packets ==> |s.queue| < 1000)
      then Some(s.(queue := s.queue + [task], pushed := s.pushed + [task], lock := ByPusher(Pushed))) else None
    case Drop =>
      if s.lock == ByPusher(Entered) && s.kind == Packets && |s.queue| >= 1000 then Some(s.(lock := Free)) else None
    case Set => if s.lock == ByPusher(Pushed) then Some(s.(event := true, lock := ByPusher(Signalled))) else None
    case Leave => if s.lock == ByPusher(Signalled) then Some(s.(lock := Free)) else None
    case Consume => Consumed(s)
    case Raise => if s.end == No then Some(s.(end := Raised)) else None
    case Announce => if s.end == Raised then Some(s.(event := true, end := Announced)) else None
  }

  /** The consumer's next step. */
  function Consumed<T>(s: State<T>): Option<State<T>> {
    match s.pc
    case Top => if s.lock == Free then Some(s.(lock := ByConsumer, pc := Locked)) else None
    case Locked =>
      if s.queue == [] && (s.kind == Worker ==> s.end == No) then Some(s.(pc := Unlocking)) else Some(s.(pc := Checked))
    case Unlocking => Some(s.(lock := Free, pc := Waiting))
    case Waiting => if s.event then Some(s.(event := false, pc := Woken)) else None
    case Woken =>
      if s.kind == Packets && s.end != No
      // getPacket takes the lock and gives it back on its way out, and its packet of length -1 ends the reading loop.
      then (if s.lock == Free then Some(s.(pc := Done)) else None)
      else Some(s.(pc := Relock))
    case Relock => if s.lock == Free then Some(s.(lock := ByConsumer, pc := Locked)) else None
    case Checked =>
      if s.kind == Worker && s.end != No then Some(s.(lock := Free, pc := Done))
      else if s.queue == [] then None
      else Some(s.(queue := s.queue[1..], pc := Holding(s.queue[0])))
    case Holding(task) => Some(s.(lock := Free, pc := Running(task)))
    case Running(task) => Some(s.(ran := s.ran + [task], pc := Top))
    case Done => None
  }

  function Run<T>(s: State<T>, steps: seq<Step<T>>): Option<State<T>>
    decreases steps
  {
    if steps == [] then Some(s)
    else match Next(s, steps[0])
      case None => None
      case Some(s') => Run(s', steps[1..])
  }

  predicate UnderLock<T>(pc: Pc<T>) {
    pc.Locked? || pc.Unlocking? || pc.Checked? || pc.Holding?
  }

  function Current<T>(pc: Pc<T>): seq<T> {
    match pc
    case Holding(task) => [task]
    case Running(task) => [task]
    case _ => []
  }

  ghost predicate Inv<T>(s: State<T>) {
    && (s.lock == ByConsumer <==> UnderLock(s.pc))
    // Every task queued was run, is being run, or waits, in the order of queueing.
    && s.ran + Current(s.pc) + s.queue == s.pushed
    && (s.pc.Unlocking? ==> s.queue == [])
    // Nobody waits for a signal that will not come.
    && (s.pc.Waiting? && s.queue != [] && !s.event ==> s.lock == ByPusher(Pushed))
    && (s.pc.Checked? ==> s.queue != [] || (s.kind == Worker && s.end != No))
    && ((s.pc.Unlocking? || s.pc.Waiting? || (s.kind == Packets && !s.pc.Woken? && !s.pc.Done?))
        && s.end == Announced ==>
             s.event)
             }

  lemma {:induction false} InvStep<T>(s: State<T>, step: Step<T>)
    requires Inv(s) && Next(s, step).Some?
    ensures Inv(Next(s, step).value)
  {
    var s' := Next(s, step).value;
    if step.Push? {
      assert s.ran + Current(s.pc) + (s.queue + [step.task]) == s.pushed + [step.task];
    } else if step.Consume? {
      ConsumeKeepsOrder(s, s');
    }
  }

  lemma {:induction false} ConsumeKeepsOrder<T>(s: State<T>, s': State<T>)
    requires s.ran + Current(s.pc) + s.queue == s.pushed && Consumed(s) == Some(s')
    ensures s'.ran + Current(s'.pc) + s'.queue == s'.pushed
  {
    if s.pc.Checked? && s'.pc.Holding? {
      assert s.queue == [s.queue[0]] + s.queue[1..];
    }
  }

  lemma {:induction false} RunInv<T>(s: State<T>, steps: seq<Step<T>>)
    requires Inv(s) && Run(s, steps).Some?
    ensures Inv(Run(s, steps).value)
    decreases steps
  {
    if steps != [] {
      InvStep(s, steps[0]);
      RunInv(Next(s, steps[0]).value, steps[1..]);
    }
  }

  /**
   In no state that any interleaving leads to does the consumer wait, work being queued and the event not set,
   unless a pusher is between its push and its Set.
   */
  lemma {:induction false} NoLostWakeup<T>(kind: Kind, steps: seq<Step<T>>)
    requires Run(Initial<T>(kind), steps).Some?
    ensures var s := Run(Initial<T>(kind), steps).value;
            s.pc.Waiting? && s.queue != [] && !s.event ==> s.lock == ByPusher(Pushed)
  {
    RunInv(Initial<T>(kind), steps);
  }

  /** Nor does it wait with the event not set once the end has been announced. */
  lemma {:induction false} EndIsNoticed<T>(kind: Kind, steps: seq<Step<T>>)
    requires Run(Initial<T>(kind), steps).Some?
    ensures var s := Run(Initial<T>(kind), steps).value;
            s.pc.Waiting? && s.end == Announced ==> s.event
  {
    RunInv(Initial<T>(kind), steps);
  }

  /**
   Tasks are run in the order in which they were queued, each at most once; the queue is never found empty when one
   is taken.
   */
  lemma {:induction false} RunInOrder<T>(kind: Kind, steps: seq<Step<T>>)
    requires Run(Initial<T>(kind), steps).Some?
    ensures var s := Run(Initial<T>(kind), steps).value;
            && s.ran <= s.pushed && s.pushed[|s.ran|..] == Current(s.pc) + s.queue
            && (s.pc.Checked? && !(s.kind == Worker && s.end != No) ==> s.queue != [])
  {
    RunInv(Initial<T>(kind), steps);
  }

  // Progress, while nobody new comes in.

  /** Steps of those already under way. */
  predicate Internal<T>(step: Step<T>) {
    step.Push? || step.Drop? || step.Set? || step.Leave? || step.Consume?
  }

  function PcRank<T>(pc: Pc<T>): nat {
    match pc
    case Unlocking => 7
    case Waiting => 6
    case Woken => 5
    case Running(_) => 5
    case Top => 4
    case Relock => 4
    case Locked => 3
    case Checked => 2
    case Holding(_) => 1
    case Done => 0
  }

  function LockRank(lock: Lock): nat {
    match lock
    case ByPusher(Entered) => 3
    case ByPusher(Pushed) => 2
    case ByPusher(Signalled) => 1
    case _ => 0
  }

  function Rank<T>(s: State<T>): nat {
    PcRank(s.pc) + LockRank(s.lock)
  }

  /** There is a task to start, and nobody has asked for the end. */
  predicate Due<T>(s: State<T>) {
    (s.queue != [] || s.pc.Holding?) && s.end == No && !s.pc.Done?
  }

  predicate Starts<T>(s: State<T>, step: Step<T>) {
    s.pc.Holding? && step == Consume
  }

  /** Somebody under way can always take a step … */
  lemma {:induction false} NotStuck<T>(s: State<T>, task: T) returns (step: Step<T>)
    requires Inv(s) && Due(s)
    ensures Internal(step) && Next(s, step).Some?
  {
    match s.lock
    case ByPusher(phase) =>
      match phase {
        case Entered => step := if s.kind == Packets && |s.queue| >= 1000 then Drop else Push(task);
        case Pushed => step := Set;
        case Signalled => step := Leave;
      }
    case _ => step := Consume;
  }

  /** … and every such step comes nearer to the start of the next task, or is that start. */
  lemma {:induction false} Nearer<T>(s: State<T>, step: Step<T>)
    requires Inv(s) && Due(s) && Internal(step) && Next(s, step).Some?
    ensures var s' := Next(s, step).value;
            if Starts(s, step) then s'.pc == Running(s.pc.task) else Due(s') && Rank(s') < Rank(s)
  {
  }

  /** The number of tasks started on the way. */
  function Started<T>(s: State<T>, steps: seq<Step<T>>): nat
    decreases steps
  {
    if steps == [] then 0
    else match Next(s, steps[0])
      case None => 0
      case Some(s') => (if Starts(s, steps[0]) then 1 else 0) + Started(s', steps[1..])
  }

  /** So, whatever the schedule, the next task starts within ten steps of those under way. */
  lemma {:induction false} StartsSoon<T>(s: State<T>, steps: seq<Step<T>>)
    requires Inv(s) && Due(s) && Run(s, steps).Some?
    requires forall k :: 0 <= k < |steps| ==> Internal(steps[k])
    ensures Started(s, steps) == 0 ==> |steps| <= Rank(s) <= 9
    decreases steps
  {
    if steps != [] {
      var s' := Next(s, steps[0]).value;
      InvStep(s, steps[0]);
      Nearer(s, steps[0]);
      if !Starts(s, steps[0]) {
        StartsSoon(s', steps[1..]);
      }
    }
  }
}
