/** Sequence-number rewriting in WebRtcConnection across visits to slide-show mode. */
module SlideShow {

  type u16 = x: int | 0 <= x < 0x1_0000

  function Wrap16(x: int): u16 {
    x % 0x1_0000
  }

  /** Numbers may be wrapped early or late. */
  lemma {:induction false} WrapTwice(x: int, k: int)
    ensures Wrap16(Wrap16(x) + k) == Wrap16(x + k)
  {
  }

  /** The fields deliverVideoData_, setSlideShowMode and onTransportData share. */
  datatype Seqs = Seqs(seqNo: u16, sendSeqNo: u16, offset: u16, grace: bool, slide: bool)

  /** A video packet that is not RED: its number, and whether it starts a key frame or ends a frame. */
  datatype Packet = Packet(number: u16, keyframe: bool, marker: bool)

  /** A packet put on the send queue: its own number, the number computed for it, the number it leaves with. */
  datatype Sent = Sent(own: u16, computed: u16, emitted: u16)

  /** queueData takes a computed number of 0 for "leave the number alone". */
  function Rewritten(own: u16, seqNum: u16): u16 {
    if seqNum == 0 then own else seqNum
  }

  /** deliverVideoData_ */
  function Deliver(s: Seqs, p: Packet): (Seqs, seq<Sent>) {
    var s := s.(sendSeqNo := p.number);
    if s.slide then
      if p.keyframe || s.grace
      then (s.(seqNo := Wrap16(s.seqNo + 1), grace := !p.marker),
          [Sent(p.number, s.seqNo, Rewritten(p.number, s.seqNo))])
      else (s, [])
    else if s.offset > 0 then
      var n := Wrap16(p.number - s.offset);
      (s, [Sent(p.number, n, Rewritten(p.number, n))])
    else (s, [Sent(p.number, p.number, p.number)])
  }

  /** setSlideShowMode */
  function SetMode(s: Seqs, slide: bool): Seqs {
    if s.slide == slide then s
    else if slide then s.(seqNo := Wrap16(s.sendSeqNo - s.offset), grace := false, slide := true)
    else s.(offset := Wrap16(s.sendSeqNo - s.seqNo + 1), slide := false)
  }

  /** The publisher's number that a NACK for `pid` is turned into. */
  function Feedback(s: Seqs, pid: u16): u16 {
    if s.offset > 0 then Wrap16(pid + s.offset) else pid
  }

  /** The number the next forwarded packet will be given. */
  function Upcoming(s: Seqs): u16 {
    if s.slide then s.seqNo else Wrap16(s.sendSeqNo + 1 - s.offset)
  }

  class VideoForwarder {
    var seqNo: u16
    var sendSeqNo: u16
    var seqNoOffset: u16
    var grace: bool
    var slideShowMode: bool
    var shouldSendFeedback: bool
    var sendQueue: seq<Sent>

    ghost function View(): Seqs
      reads this
    {
      Seqs(seqNo, sendSeqNo, seqNoOffset, grace, slideShowMode)
    }

    constructor ()
      ensures View() == Seqs(1000, 0, 0, false, false) && sendQueue == [] && shouldSendFeedback
    {
      seqNo, sendSeqNo, seqNoOffset, grace := 1000, 0, 0, false;
      slideShowMode, shouldSendFeedback, sendQueue := false, true, [];
    }

    /** queueData: the packet leaves renumbered unless the number given is 0; a full queue drops it. */
    method QueueData(own: u16, seqNum: u16, computed: u16)
      modifies `sendQueue
      ensures sendQueue == old(sendQueue) +
                if |old(sendQueue)| < 1000 then [Sent(own, computed, Rewritten(own, seqNum))] else []
    {
      if |sendQueue| < 1000 {
        var number := own;
        if seqNum != 0 {
          number := seqNum;
        }
        sendQueue := sendQueue + [Sent(own, computed, number)];
      }
    }

    method DeliverVideoData(p: Packet)
      modifies `seqNo, `sendSeqNo, `grace, `sendQueue
      ensures View() == Deliver(old(View()), p).0
      ensures sendQueue == old(sendQueue) + if |old(sendQueue)| < 1000 then Deliver(old(View()), p).1 else []
      // In slide-show mode a key frame goes out up to its marker, outside it everything does.
      ensures |sendQueue| > |old(sendQueue)| <==>
              |old(sendQueue)| < 1000 && (!old(slideShowMode) || p.keyframe || old(grace))
      ensures slideShowMode ==> (grace <==> (p.keyframe || old(grace)) && !p.marker)
      // The publisher's next packet gets the number due, and the number due moves on by one if it is forwarded.
      ensures p.number == Wrap16(old(sendSeqNo) + 1) ==>
                && (|sendQueue| > |old(sendQueue)| ==> sendQueue[|sendQueue| - 1].computed == Upcoming(old(View())))
                && Upcoming(View()) == Wrap16(Upcoming(old(View())) + |Deliver(old(View()), p).1|)
    {
      DeliverRules(View(), p);
      sendSeqNo := p.number;
      if slideShowMode {
        if p.keyframe {
          grace := true;
        }
        if grace {
          var n := seqNo;
          seqNo := Wrap16(seqNo + 1);
          QueueData(p.number, n, n);
          if p.marker {
            grace := false;
          }
        }
      } else if seqNoOffset > 0 {
        var n := Wrap16(sendSeqNo - seqNoOffset);
        QueueData(p.number, n, n);
      } else {
        QueueData(p.number, 0, p.number);
      }
    }

    method SetSlideShowMode(state: bool)
      modifies `seqNo, `seqNoOffset, `grace, `slideShowMode, `shouldSendFeedback
      ensures View() == SetMode(old(View()), state)
      ensures shouldSendFeedback == if old(slideShowMode) == state then old(shouldSendFeedback) else !state
      // Leaving the mode, or staying, keeps the number due; entering it puts the number back by one.
      ensures Upcoming(View()) == Wrap16(Upcoming(old(View())) - if state && !old(slideShowMode) then 1 else 0)
    {
      ModeStep(View(), state);
      if slideShowMode == state {
        return;
      }
      if state {
        seqNo := Wrap16(sendSeqNo - seqNoOffset);
        grace, slideShowMode, shouldSendFeedback := false, true, false;
      } else {
        seqNoOffset := Wrap16(sendSeqNo - seqNo + 1);
        slideShowMode, shouldSendFeedback := false, true;
      }
    }

    /** The NACKs of a compound feedback packet in onTransportData. */
    method RewriteNacks(pids: seq<u16>) returns (out: seq<u16>)
      ensures |out| == |pids| && forall i :: 0 <= i < |pids| ==> out[i] == Feedback(View(), pids[i])
    {
      if seqNoOffset == 0 {
        return pids;
      }
      out := [];
      for i := 0 to |pids|
        invariant |out| == i && forall j :: 0 <= j < i ==> out[j] == Feedback(View(), pids[j])
      {
        out := out + [Wrap16(pids[i] + seqNoOffset)];
      }
    }
  }

  lemma {:induction false} DeliverRules(s: Seqs, p: Packet)
    ensures var (s', sent) := Deliver(s, p);
            && (sent != [] <==> !s.slide || p.keyframe || s.grace)
            && (s.slide ==> (s'.grace <==> (p.keyframe || s.grace) && !p.marker))
            && (p.number == Wrap16(s.sendSeqNo + 1) ==>
                  (sent != [] ==> |sent| == 1 && sent[0].computed == Upcoming(s))
                  && Upcoming(s') == Wrap16(Upcoming(s) + |sent|))
  {
    if p.number == Wrap16(s.sendSeqNo + 1) {
      PacketStep(s, p);
    }
  }

  datatype Event = Video(p: Packet) | Mode(slide: bool)

  function Step(s: Seqs, e: Event): (Seqs, seq<Sent>) {
    match e
    case Video(p) => Deliver(s, p)
    case Mode(slide) => (SetMode(s, slide), [])
  }

  /** The publisher's packets come one after the other. */
  predicate Consecutive(s: Seqs, events: seq<Event>)
    decreases events
  {
    events == [] ||
    (&& (events[0].Video? ==> events[0].p.number == Wrap16(s.sendSeqNo + 1))
     && Consecutive(Step(s, events[0]).0, events[1..]))
  }

  function Run(s: Seqs, events: seq<Event>): (Seqs, seq<Sent>)
    decreases events
  {
    if events == [] then (s, [])
    else
      var step := Step(s, events[0]);
      var rest := Run(step.0, events[1..]);
      (rest.0, step.1 + rest.1)
  }

  /** How often slide-show mode is entered. */
  function Entries(s: Seqs, events: seq<Event>): nat
    decreases events
  {
    if events == [] then 0
    else (if events[0].Mode? && events[0].slide && !s.slide then 1 else 0) + Entries(Step(s, events[0]).0, events[1..])
  }

  /** A packet takes the upcoming number and moves it on by one; entering slide-show mode moves it back by one. */
  lemma {:induction false} UpcomingStep(s: Seqs, e: Event)
    requires e.Video? ==> e.p.number == Wrap16(s.sendSeqNo + 1)
    ensures var (s', sent) := Step(s, e);
            && |sent| <= 1
            && (|sent| == 1 ==>
                 sent[0].computed == Upcoming(s)
                 && sent[0].emitted == Rewritten(sent[0].own, Upcoming(s)))
            && Upcoming(s') == Wrap16(Upcoming(s) + |sent| - if e.Mode? && e.slide && !s.slide then 1 else 0)
  {
    if e.Video? {
      PacketStep(s, e.p);
    } else {
      ModeStep(s, e.slide);
    }
  }

  lemma {:induction false} PacketStep(s: Seqs, p: Packet)
    requires p.number == Wrap16(s.sendSeqNo + 1)
    ensures var (s', sent) := Deliver(s, p);
            && |sent| <= 1
            && (|sent| == 1 ==>
                 sent[0].computed == Upcoming(s)
                 && sent[0].emitted == Rewritten(sent[0].own, Upcoming(s)))
            && Upcoming(s') == Wrap16(Upcoming(s) + |sent|)
  {
    NumberDue(s.sendSeqNo, s.offset);
    var (s', sent) := Deliver(s, p);
    if s.slide {
      assert |sent| == 0 ==> s'.seqNo == s.seqNo;
    } else {
      assert s' == s.(sendSeqNo := p.number) && |sent| == 1;
    }
  }

  lemma {:induction false} ModeStep(s: Seqs, slide: bool)
    ensures Upcoming(SetMode(s, slide)) == Wrap16(Upcoming(s) - if slide && !s.slide then 1 else 0)
  {
    if s.slide == slide {
      WrapSmall(Upcoming(s));
    } else if slide {
      NumberRevisited(s.sendSeqNo, s.offset);
    } else {
      NumberReopened(s.sendSeqNo, s.seqNo);
      WrapSmall(s.seqNo);
    }
  }

  lemma {:induction false} WrapSmall(x: u16)
    ensures Wrap16(x) == x
  {
  }

  /** Outside slide-show mode: the number a packet gets, and the one due after it. */
  lemma {:induction false} NumberDue(a: u16, o: u16)
    ensures Wrap16(Wrap16(a + 1) - o) == Wrap16(a + 1 - o)
    ensures Wrap16(Wrap16(a + 1) + 1 - o) == Wrap16(Wrap16(a + 1 - o) + 1)
  {
    WrapTwice(a + 1, 0 - o);
    WrapTwice(a + 1, 1 - o);
    WrapTwice(a + 1 - o, 1);
  }

  /** Entering slide-show mode makes the number due one less. */
  lemma {:induction false} NumberRevisited(a: u16, o: u16)
    ensures Wrap16(a - o) == Wrap16(Wrap16(a + 1 - o) - 1)
  {
    WrapTwice(a + 1 - o, -1);
  }

  /** The offset chosen on leaving slide-show mode gives the publisher's next packet the number due. */
  lemma {:induction false} NumberReopened(a: u16, n: u16)
    ensures Wrap16(a + 1 - Wrap16(a - n + 1)) == n
  {
  }

  /** Over every run: numbers go up by one per forwarded packet and down by one per slide-show visit. */
  lemma {:induction false} Ledger(s: Seqs, events: seq<Event>)
    requires Consecutive(s, events)
    ensures Upcoming(Run(s, events).0) == Wrap16(Upcoming(s) + |Run(s, events).1| - Entries(s, events))
    decreases events
  {
    if events != [] {
      UpcomingStep(s, events[0]);
      var s' := Step(s, events[0]).0;
      Ledger(s', events[1..]);
      var entered := if events[0].Mode? && events[0].slide && !s.slide then 1 else 0;
      WrapTwice(Upcoming(s) + |Step(s, events[0]).1| - entered, |Run(s', events[1..]).1| - Entries(s', events[1..]));
    }
  }

  /**
   Two packets forwarded one after the other, with `between` other events: the second number is one
   more than the first, less one for each time slide-show mode was entered in between. So it is the
   next number within a mode and on leaving slide-show mode, and the same number again for the first
   packet of a slide-show visit.
   */
  lemma {:induction false} Neighbours(s: Seqs, first: Event, between: seq<Event>, second: Event)
    requires Consecutive(s, [first] + between + [second])
    requires |Step(s, first).1| == 1 && Run(Step(s, first).0, between).1 == []
    requires |Step(Run(Step(s, first).0, between).0, second).1| == 1
    ensures var s1 := Step(s, first).0;
            var s2 := Run(s1, between).0;
            && Step(s2, second).1[0].computed == Wrap16(Step(s, first).1[0].computed + 1 - Entries(s1, between))
            // Every computed number but 0 is the number the packet leaves with.
            && Step(s2, second).1[0].emitted == Rewritten(Step(s2, second).1[0].own, Step(s2, second).1[0].computed)
  {
    var s1 := Step(s, first).0;
    var s2 := Run(s1, between).0;
    var all := [first] + between + [second];
    assert all[1..] == between + [second];
    ConsecutiveSplit(s1, between, second);
    UpcomingStep(s, first);
    Ledger(s1, between);
    UpcomingStep(s2, second);
    WrapTwice(Upcoming(s) + 1, 0 - Entries(s1, between));
  }

  lemma {:induction false} ConsecutiveSplit(s: Seqs, events: seq<Event>, last: Event)
    requires Consecutive(s, events + [last])
    ensures Consecutive(s, events) && (last.Video? ==> last.p.number == Wrap16(Run(s, events).0.sendSeqNo + 1))
    decreases events
  {
    if events == [] {
      assert events + [last] == [last];
    } else {
      assert (events + [last])[1..] == events[1..] + [last] && (events + [last])[0] == events[0];
      ConsecutiveSplit(Step(s, events[0]).0, events[1..], last);
    }
  }

  // Which packets are forwarded.

  /** Whether slide-show mode is on after the events. */
  predicate Sliding(slide: bool, events: seq<Event>)
    decreases events
  {
    if events == [] then slide
    else Sliding(if events[0].Mode? then events[0].slide else slide, events[1..])
  }

  /** A picture is complete with its marker, and no picture goes on when the mode is left. */
  predicate Ends(e: Event) {
    match e
    case Video(p) => p.marker
    case Mode(slide) => !slide
  }

  /** Event `j` is the start of a key frame within the mode, and nothing has ended it since. */
  ghost predicate OpenFrom(slide: bool, events: seq<Event>, j: nat)
    requires j < |events|
  {
    && events[j].Video? && events[j].p.keyframe && Sliding(slide, events[..j])
    && forall k :: j <= k < |events| ==> !Ends(events[k])
  }

  /** A key frame is under way. */
  ghost predicate Open(slide: bool, events: seq<Event>) {
    exists j :: 0 <= j < |events| && OpenFrom(slide, events, j)
  }

  lemma {:induction false} RunSnoc(s: Seqs, events: seq<Event>, last: Event)
    ensures Run(s, events + [last]).0 == Step(Run(s, events).0, last).0
    ensures Sliding(s.slide, events + [last]) == if last.Mode? then last.slide else Sliding(s.slide, events)
    decreases events
  {
    if events == [] {
      assert [] + [last] == [last];
      assert [last][1..] == [];
    } else {
      assert (events + [last])[0] == events[0] && (events + [last])[1..] == events[1..] + [last];
      RunSnoc(Step(s, events[0]).0, events[1..], last);
    }
  }

  lemma {:induction false} OpenSnoc(slide: bool, events: seq<Event>, last: Event)
    ensures Open(slide, events + [last])
            <==> !Ends(last) && (Open(slide, events) || (last.Video? && last.p.keyframe && Sliding(slide, events)))
  {
    var all, n := events + [last], |events|;
    assert all[..n] == events && all[n] == last;
    forall j | 0 <= j < n ensures all[..j] == events[..j] && all[j] == events[j] {
    }
    if Open(slide, all) {
      var j :| 0 <= j < |all| && OpenFrom(slide, all, j);
      assert !Ends(all[n]);
      assert j < n ==> OpenFrom(slide, events, j);
    }
    if !Ends(last) && Open(slide, events) {
      var j :| 0 <= j < |events| && OpenFrom(slide, events, j);
      assert OpenFrom(slide, all, j);
    }
    if !Ends(last) && last.Video? && last.p.keyframe && Sliding(slide, events) {
      assert OpenFrom(slide, all, n);
    }
  }

  /** In slide-show mode `grace_` says that a key frame is under way. */
  lemma {:induction false} GraceIs(s: Seqs, events: seq<Event>)
    requires s.slide ==> !s.grace
    ensures var end := Run(s, events).0;
            end.slide == Sliding(s.slide, events) && (end.slide ==> (end.grace <==> Open(s.slide, events)))
    decreases |events|
  {
    if events != [] {
      var front, last := events[..|events| - 1], events[|events| - 1];
      assert events == front + [last];
      GraceIs(s, front);
      RunSnoc(s, front, last);
      OpenSnoc(s.slide, front, last);
      if !Sliding(s.slide, front) {
        NeverOpen(s.slide, front);
      }
    }
  }

  lemma {:induction false} NeverOpen(slide: bool, events: seq<Event>)
    requires !Sliding(slide, events)
    ensures !Open(slide, events)
    decreases |events|
  {
    if events != [] {
      var front, last := events[..|events| - 1], events[|events| - 1];
      assert events == front + [last];
      RunSnoc(Seqs(0, 0, 0, false, slide), front, last);
      OpenSnoc(slide, front, last);
      if last.Video? {
        NeverOpen(slide, front);
      }
    }
  }

  /**
   After any events, a packet is forwarded if and only if slide-show mode is off, or it starts a key frame, or it
   belongs to one that started in this visit to the mode and has had no marker yet.
   */
  lemma {:induction false} ForwardedExactly(s: Seqs, events: seq<Event>, p: Packet)
    requires s.slide ==> !s.grace
    ensures |Deliver(Run(s, events).0, p).1|
            == if !Sliding(s.slide, events) || p.keyframe || Open(s.slide, events) then 1 else 0
  {
    GraceIs(s, events);
  }

  /** The offset, and with it the meaning of a NACK, changes only when slide-show mode is left. */
  lemma {:induction false} OffsetKept(s: Seqs, e: Event)
    ensures Step(s, e).0.offset == s.offset || Leaves(s, e)
  {
  }

  predicate Leaves(s: Seqs, e: Event) {
    s.slide && e == Mode(false)
  }

  /** No event of the run leaves slide-show mode. */
  predicate NeverLeaves(s: Seqs, events: seq<Event>)
    decreases events
  {
    events == [] || (!Leaves(s, events[0]) && NeverLeaves(Step(s, events[0]).0, events[1..]))
  }

  lemma {:induction false} OffsetKeptOver(s: Seqs, events: seq<Event>)
    requires NeverLeaves(s, events)
    ensures Run(s, events).0.offset == s.offset
    decreases events
  {
    if events != [] {
      OffsetKept(s, events[0]);
      OffsetKeptOver(Step(s, events[0]).0, events[1..]);
    }
  }

  /**
   A NACK for a packet sent outside slide-show mode, whatever has happened since short of leaving that mode again,
   comes back to the publisher's number if and only if that number is not the offset itself.
   */
  lemma {:induction false} NackMapsBack(s: Seqs, p: Packet, events: seq<Event>)
    requires !s.slide && NeverLeaves(Deliver(s, p).0, events)
    ensures var (s', sent) := Deliver(s, p);
            && |sent| == 1
            && (Feedback(Run(s', events).0, sent[0].emitted) == p.number <==> s.offset == 0 || p.number != s.offset)
  {
    OffsetKeptOver(Deliver(s, p).0, events);
    BackAndForth(p.number, s.offset);
  }

  lemma {:induction false} BackAndForth(n: u16, o: u16)
    ensures Wrap16(Wrap16(n - o) + o) == n
    ensures Wrap16(n - o) == 0 <==> n == o
    ensures o > 0 ==> Wrap16(n + o) != n
  {
  }

  /** With an offset of 5, a NACK for packet 5 is taken for one for packet 10. */
  lemma {:induction false} NackMissed()
    ensures var s := Seqs(0, 4, 5, false, false);
            var (s', sent) := Deliver(s, Packet(5, false, false));
            |sent| == 1 && sent[0].emitted == 5 && Feedback(s', sent[0].emitted) == 10
  {
  }
}
