/** Sender, receiver and a network that loses, duplicates and reorders packets. */
module Protocol {
  import opened Segments
  import opened CongestionWindow
  import opened Receiver
  import opened Sender

  /** `data` and `acks` are the packets in flight each way; `got` records the sequence numbers delivered,
      and `finished` that transmit returned true. */
  datatype System = System(
    snd: SenderState,
    rcv: ReceiverState,
    data: multiset<Packet>,
    acks: multiset<Packet>,
    got: set<nat>,
    clock: nat,
    finished: bool)

  function Boot(garbage: int): System {
    System(Sender.Start(garbage), Receiver.INITIAL, multiset{}, multiset{}, {}, 0, false)
  }

  datatype Step =
    | Send(now: nat)
    | AckArrives(p: Packet, now: nat)
    | TimerExpires
    | DataArrives(p: Packet)
    | LoseData(p: Packet) | CopyData(p: Packet)
    | LoseAck(p: Packet) | CopyAck(p: Packet)

  /** The sender waits for a packet only when its send loop has stopped; the receiver stops at FIN. */
  predicate Enabled(s: System, step: Step) {
    match step
    case Send(now) => !s.finished && Sending(s.snd) && s.clock <= now
    case AckArrives(p, now) => !s.finished && !Sending(s.snd) && p in s.acks && s.clock <= now
    case TimerExpires => !s.finished && !Sending(s.snd)
    case DataArrives(p) => !s.rcv.fin && p in s.data
    case LoseData(p) => p in s.data
    case CopyData(p) => p in s.data
    case LoseAck(p) => p in s.acks
    case CopyAck(p) => p in s.acks
  }

  /** A new ack whose seek would carry the stream away from filePosition_. */
  predicate Overtakes(s: SenderState, p: Packet) {
    !IsFinal(p) && IsNew(s, p) && 0 < Tellg(s.msg) < p.ackNum && s.filePos != p.ackNum - 1
  }

  /** `repaired` selects a sender whose newAck moves filePosition_ together with the stream. */
  function Apply(f: string, s: System, step: Step, repaired: bool): System {
    match step
    case Send(now) =>
      var (snd, p) := SendNext(f, s.snd, now);
      s.(snd := snd, data := s.data + multiset{p}, clock := now)
    case AckArrives(p, now) =>
      var (snd, ps, status) := OnAck(f, s.snd, p, now);
      s.(snd := if repaired && Overtakes(s.snd, p) then snd.(filePos := p.ackNum - 1) else snd,
         data := s.data + multiset(ps), acks := s.acks - multiset{p}, clock := now, finished := status == 1)
    case TimerExpires => s.(snd := TimeOut(s.snd))
    case DataArrives(p) =>
      var (rcv, ack) := OnPacket(s.rcv, p);
      s.(rcv := rcv, data := s.data - multiset{p}, acks := s.acks + multiset{ack}, got := s.got + {p.seqNum})
    case LoseData(p) => s.(data := s.data - multiset{p})
    case CopyData(p) => s.(data := s.data + multiset{p})
    case LoseAck(p) => s.(acks := s.acks - multiset{p})
    case CopyAck(p) => s.(acks := s.acks + multiset{p})
  }

  ghost predicate Runs(f: string, s: System, steps: seq<Step>, repaired: bool)
    decreases |steps|
  {
    steps == [] || (Enabled(s, steps[0]) && Runs(f, Apply(f, s, steps[0], repaired), steps[1..], repaired))
  }

  ghost function Final(f: string, s: System, steps: seq<Step>, repaired: bool): System
    decreases |steps|
  {
    if steps == [] then s else Final(f, Apply(f, s, steps[0], repaired), steps[1..], repaired)
  }

  /** The steps lead from the start to s. */
  ghost predicate Reaches(f: string, garbage: int, steps: seq<Step>, s: System) {
    Runs(f, Boot(garbage), steps, false) && s == Final(f, Boot(garbage), steps, false)
  }

  predicate Overtaken(s: System, step: Step) {
    step.AckArrives? && Overtakes(s.snd, step.p)
  }

  /** No ack of the run overtakes the position being sent. */
  ghost predicate NoneOvertakes(f: string, s: System, steps: seq<Step>, repaired: bool)
    decreases |steps|
  {
    steps == [] || (!Overtaken(s, steps[0]) && NoneOvertakes(f, Apply(f, s, steps[0], repaired), steps[1..], repaired))
  }

  // ----- what holds in every run -----

  /** Every ack answers a packet that was sent, and none claims more than the receiver has. */
  ghost predicate AcksHonest(s: System) {
    forall a :: a in s.acks ==>
      a.ack && a.seqNum in s.snd.times && 0 < a.ackNum <= s.rcv.acked + 1 && (a.fin ==> s.rcv.fin)
  }

  ghost predicate DataKnown(s: System) {
    forall p :: p in s.data ==> p.seqNum in s.snd.times
  }

  ghost predicate TimesPast(s: System) {
    forall k :: k in s.snd.times ==> s.snd.times[k] <= s.clock
  }

  ghost predicate Always(s: System) {
    && AcksHonest(s) && DataKnown(s) && TimesPast(s)
    && s.snd.acked <= s.rcv.acked + 1
    && (s.finished ==> s.rcv.fin)
  }

  lemma {:induction false} DrainGrows(r: ReceiverState)
    ensures Drain(r).acked >= r.acked && (r.fin ==> Drain(r).fin)
    decreases |r.buffer|
  {
    if r.acked + 1 in r.buffer {
      DrainGrows(Take(r));
    }
  }

  /** Sending and receiving only add to the record of send times. */
  ghost predicate Recorded(before: map<nat, nat>, after: map<nat, nat>, now: nat) {
    && before.Keys <= after.Keys
    && forall k :: k in after ==> after[k] == now || (k in before && after[k] == before[k])
  }

  lemma AckRecords(f: string, s: SenderState, p: Packet, now: nat)
    ensures var (s', ps, status) := OnAck(f, s, p, now);
            && Recorded(s.times, s'.times, now)
            && (forall q :: q in ps ==> q.seqNum in s'.times)
            && s'.acked == (if !IsFinal(p) && IsNew(s, p) then p.ackNum else s.acked)
            && (status == 1 <==> IsFinal(p))
  {
    hide StrLen, Blank, Read, OnDupAck, OnNewAck;
  }

  lemma AckKeepsAlways(f: string, s: System, p: Packet, now: nat, repaired: bool)
    requires Always(s) && Enabled(s, AckArrives(p, now))
    ensures Always(Apply(f, s, AckArrives(p, now), repaired))
  {
    hide OnAck, Sending, Overtakes;
    AckRecords(f, s.snd, p, now);
    var ps := OnAck(f, s.snd, p, now).1;
    assert forall q :: q in multiset(ps) ==> q in ps;
  }

  lemma DataKeepsAlways(f: string, s: System, p: Packet, repaired: bool)
    requires Always(s) && Enabled(s, DataArrives(p))
    ensures Always(Apply(f, s, DataArrives(p), repaired))
  {
    hide StrLen, Blank, Drain;
    DrainGrows(Append(s.rcv, p.data, p.fin));
  }

  predicate NetworkStep(step: Step) {
    step.LoseData? || step.CopyData? || step.LoseAck? || step.CopyAck?
  }

  /** Losing and copying packets keeps whatever holds of every packet in flight. */
  lemma NetworkKeepsAlways(f: string, s: System, step: Step, repaired: bool)
    requires Always(s) && Enabled(s, step) && NetworkStep(step)
    ensures Always(Apply(f, s, step, repaired))
  {
    var s' := Apply(f, s, step, repaired);
    NetworkInventsNothing(f, s, step, repaired);
    hide Apply, Enabled;
  }

  lemma NetworkInventsNothing(f: string, s: System, step: Step, repaired: bool)
    requires Enabled(s, step) && NetworkStep(step)
    ensures var s' := Apply(f, s, step, repaired);
            && s' == s.(data := s'.data, acks := s'.acks)
            && (forall p :: p in s'.data ==> p in s.data)
            && (forall p :: p in s'.acks ==> p in s.acks)
  {
  }

  lemma StepKeepsAlways(f: string, s: System, step: Step, repaired: bool)
    requires Always(s) && Enabled(s, step)
    ensures Always(Apply(f, s, step, repaired))
  {
    match step
    case AckArrives(p, now) =>
      AckKeepsAlways(f, s, p, now, repaired);
    case DataArrives(p) =>
      DataKeepsAlways(f, s, p, repaired);
    case Send(now) =>
      hide StrLen, Blank, Read, Sending;
    case TimerExpires =>
      hide OnTimeout;
    case _ =>
      NetworkKeepsAlways(f, s, step, repaired);
  }

  lemma {:induction false} RunKeepsAlways(f: string, s: System, steps: seq<Step>, repaired: bool)
    requires Always(s) && Runs(f, s, steps, repaired)
    ensures Always(Final(f, s, steps, repaired))
    decreases |steps|
  {
    hide Always, Apply, Enabled;
    if steps != [] {
      StepKeepsAlways(f, s, steps[0], repaired);
      RunKeepsAlways(f, Apply(f, s, steps[0], repaired), steps[1..], repaired);
    }
  }

  /** Every run of the code, overtaken or not: an ack in flight answers a packet that was sent, never claims
      more than was received, and carries FIN only if the receiver finished. Hence an ack always finds its send
      time, and with a clock that does not run backwards the elapsed time does not wrap around. */
  lemma AcksAreHonest(f: string, garbage: int, steps: seq<Step>, now: nat)
    requires Runs(f, Boot(garbage), steps, false)
    ensures var s := Final(f, Boot(garbage), steps, false);
            && s.snd.acked <= s.rcv.acked + 1
            && (s.finished ==> s.rcv.fin)
            && forall a :: a in s.acks ==>
                 && a.ack && 0 < a.ackNum <= s.rcv.acked + 1 && (a.fin ==> s.rcv.fin)
                 && a.seqNum in s.snd.times
                 && (now >= s.clock ==> s.snd.times[a.seqNum] <= now)
  {
    hide Apply, Enabled;
    RunKeepsAlways(f, Boot(garbage), steps, false);
  }

  // ----- the window, in every run of the system -----

  function EventsOf(s: System, step: Step): seq<Event> {
    match step
    case Send(_) => [Sent]
    case AckArrives(p, _) => [EventOf(s.snd, p)]
    case TimerExpires => [TimedOut]
    case _ => []
  }

  ghost function Events(f: string, s: System, steps: seq<Step>): seq<Event>
    decreases |steps|
  {
    if steps == [] then [] else EventsOf(s, steps[0]) + Events(f, Apply(f, s, steps[0], false), steps[1..])
  }

  function AckCount(steps: seq<Step>): nat {
    if steps == [] then 0 else (if steps[0].AckArrives? then 1 else 0) + AckCount(steps[1..])
  }

  lemma StepDrivesWindow(f: string, s: System, step: Step)
    requires Enabled(s, step)
    ensures var w, w', es := s.snd.win, Apply(f, s, step, false).snd.win, EventsOf(s, step);
            && |es| <= 1
            && (es == [] ==> w' == w && !step.AckArrives?)
            && (es != [] ==> Allowed(w, es[0]) && w' == OnEvent(w, es[0]) && (Arrives(es[0]) <==> step.AckArrives?))
  {
    hide OnAck, StrLen, Blank, Read;
    if step.AckArrives? {
      AckDrivesWindow(f, s.snd, step.p, step.now);
    }
  }

  lemma {:induction false} RunDrivesWindow(f: string, s: System, steps: seq<Step>)
    requires Runs(f, s, steps, false)
    ensures var es := Events(f, s, steps);
            && CongestionWindow.Run(s.snd.win, es)
            && Final(f, s, steps, false).snd.win == After(s.snd.win, es)
            && Arrivals(es) == AckCount(steps)
    decreases |steps|
  {
    hide Apply, Enabled, EventsOf, OnEvent;
    if steps != [] {
      StepDrivesWindow(f, s, steps[0]);
      var s1 := Apply(f, s, steps[0], false);
      RunDrivesWindow(f, s1, steps[1..]);
      var e, es := EventsOf(s, steps[0]), Events(f, s1, steps[1..]);
      assert if e == [] then e + es == es else (e + es)[1..] == es && (e + es)[0] == e[0];
    }
  }

  /** The window facts hold for the sender inside the system, whatever the network does. */
  lemma WindowInEveryRun(f: string, garbage: int, steps: seq<Step>)
    requires Runs(f, Boot(garbage), steps, false)
    ensures var w := Final(f, Boot(garbage), steps, false).snd.win;
            && Inv(w)
            && (w.cwnd == 0 ==> w.mode == CongestionAvoidance && w.ssthresh == 0)
            && w.notAcked <= Max(MAX_NOT_ACKED, w.cwnd + 1)
            && w.cwnd <= 1 + AckCount(steps)
  {
    hide Apply, Enabled, Inv;
    RunDrivesWindow(f, Boot(garbage), steps);
    Reachable(garbage, Events(f, Boot(garbage), steps));
  }

  // ----- the wire -----

  /** Whenever the stream is good it stands at filePosition_. */
  predicate Synced(s: SenderState) {
    s.msg.Good? ==> s.msg.pos == s.filePos
  }

  /** newAck, and with it every reaction to a packet, keeps stream and filePosition_ together
      exactly when the ack does not overtake. */
  lemma SyncedIff(f: string, s: SenderState, p: Packet, now: nat)
    requires Synced(s)
    ensures Synced(OnAck(f, s, p, now).0) <==> !Overtakes(s, p)
  {
    hide StrLen, Blank, OnDupAck, OnNewAck;
  }

  /** Both positions of the sender are places where a segment may start. */
  ghost predicate Placed(f: string, s: SenderState) {
    Synced(s) && SegPos(f, s.filePos) && Aligned(s.acked - 1) && s.acked - 1 <= |f|
  }

  ghost predicate Wire(f: string, s: System) {
    && Placed(f, s.snd)
    && (forall p :: p in s.data ==> IsSegment(f, p))
    && Numbers(f, s.got) && s.rcv == Canon(f, s.got)
    && (forall a :: a in s.acks && !a.fin ==> a.ackNum > 0 && Aligned(a.ackNum - 1))
  }

  lemma SendOnWire(f: string, s: SenderState, now: nat)
    requires Placed(f, s) && Sending(s)
    ensures var (s', p) := SendNext(f, s, now);
            Placed(f, s') && p == Seg(f, s.filePos) && IsSegment(f, p)
  {
    hide StrLen, Blank, Read;
    ReadSegment(f, s.filePos);
    if !IsLast(f, s.filePos) {
      AlignedAfter(s.filePos);
    }
  }

  /** Any retransmission is the segment at the acked position, and afterwards the sender stands where it stood. */
  lemma RetransmitOnWire(f: string, s: SenderState, now: nat)
    requires Placed(f, s)
    ensures var (s', p) := Retransmit(f, s, now);
            && Placed(f, s') && s'.filePos == s.filePos && s'.acked == s.acked
            && p == Seg(f, s.acked - 1) && IsSegment(f, p)
  {
    hide StrLen, Blank, Read, Aligned;
    ReadSegment(f, s.acked - 1);
  }

  lemma AckOnWire(f: string, s: SenderState, p: Packet, now: nat, repaired: bool)
    requires Placed(f, s) && (repaired || !Overtakes(s, p))
    requires p.ack && !p.fin ==> p.ackNum > 0 && Aligned(p.ackNum - 1) && p.ackNum - 1 <= |f|
    ensures var (s1, ps, _) := OnAck(f, s, p, now);
            var s' := if repaired && Overtakes(s, p) then s1.(filePos := p.ackNum - 1) else s1;
            Placed(f, s') && forall q :: q in ps ==> IsSegment(f, q)
  {
    hide StrLen, Blank, OnDupAck, OnNewAck, Retransmit;
    if !IsFinal(p) && IsDup(s, p) && ThirdDup(s.win) {
      RetransmitOnWire(f, s.(win := OnDupAck(s.win)), now);
    }
  }

  lemma AckKeepsWire(f: string, s: System, p: Packet, now: nat, repaired: bool)
    requires Always(s) && Wire(f, s) && Enabled(s, AckArrives(p, now))
    requires repaired || !Overtakes(s.snd, p)
    ensures Wire(f, Apply(f, s, AckArrives(p, now), repaired))
  {
    hide OnAck, Sending, Overtakes, Placed, IsSegment, Canon;
    CanonFacts(f, s.got);
    AckOnWire(f, s.snd, p, now, repaired);
    var ps := OnAck(f, s.snd, p, now).1;
    assert forall q :: q in multiset(ps) ==> q in ps;
  }

  lemma OnPacketAcks(r: ReceiverState, p: Packet)
    ensures OnPacket(r, p).1 == Ack(OnPacket(r, p).0, p.seqNum)
    ensures OnPacket(r, p).0.acked >= r.acked
  {
    hide StrLen, Blank;
    DrainGrows(Append(r, p.data, p.fin));
  }

  lemma DataKeepsWire(f: string, s: System, p: Packet, repaired: bool)
    requires Wire(f, s) && Enabled(s, DataArrives(p))
    ensures Wire(f, Apply(f, s, DataArrives(p), repaired))
  {
    hide StrLen, Blank, OnPacket, Canon, Placed, Seg, Aligned, Min, FirstGap;
    OnSegment(f, s.got, p.seqNum - 1);
    OnPacketAcks(s.rcv, p);
    CanonFacts(f, s.got + {p.seqNum});
  }

  lemma SendKeepsWire(f: string, s: System, now: nat, repaired: bool)
    requires Wire(f, s) && Enabled(s, Send(now))
    ensures Wire(f, Apply(f, s, Send(now), repaired))
  {
    hide Canon, SendNext, IsSegment, Placed, Sending;
    SendOnWire(f, s.snd, now);
  }

  lemma TimerKeepsWire(f: string, s: System, repaired: bool)
    requires Wire(f, s)
    ensures Wire(f, Apply(f, s, TimerExpires, repaired))
  {
    hide Canon, IsSegment, OnTimeout;
  }

  lemma NetworkKeepsWire(f: string, s: System, step: Step, repaired: bool)
    requires Wire(f, s) && Enabled(s, step) && NetworkStep(step)
    ensures Wire(f, Apply(f, s, step, repaired))
  {
    hide Canon, IsSegment, Placed;
    NetworkInventsNothing(f, s, step, repaired);
    hide Apply, Enabled;
  }

  lemma StepKeepsWire(f: string, s: System, step: Step, repaired: bool)
    requires Always(s) && Wire(f, s) && Enabled(s, step)
    requires repaired || !Overtaken(s, step)
    ensures Wire(f, Apply(f, s, step, repaired))
  {
    hide Always, Wire, Apply;
    match step
    case Send(now) => SendKeepsWire(f, s, now, repaired);
    case AckArrives(p, now) => AckKeepsWire(f, s, p, now, repaired);
    case TimerExpires => TimerKeepsWire(f, s, repaired);
    case DataArrives(p) => DataKeepsWire(f, s, p, repaired);
    case _ => NetworkKeepsWire(f, s, step, repaired);
  }

  lemma {:induction false} RunKeepsWire(f: string, s: System, steps: seq<Step>, repaired: bool)
    requires Always(s) && Wire(f, s) && Runs(f, s, steps, repaired)
    requires repaired || NoneOvertakes(f, s, steps, repaired)
    ensures Always(Final(f, s, steps, repaired)) && Wire(f, Final(f, s, steps, repaired))
    decreases |steps|
  {
    hide Always, Wire, Apply, Enabled, Overtaken;
    if steps != [] {
      StepKeepsAlways(f, s, steps[0], repaired);
      StepKeepsWire(f, s, steps[0], repaired);
      RunKeepsWire(f, Apply(f, s, steps[0], repaired), steps[1..], repaired);
    }
  }

  /** End-to-end safety. In every run in which no ack overtakes the position being sent, and in every run at all
      of a sender whose newAck moves filePosition_ with the stream: the bytes received are a prefix of the bytes
      the segments carry, transmit returns true only when they are all there, the sender never believes more to
      be received than is, both its positions are segment starts, every data packet ever in flight is a segment
      of the file, and every ack below FIN stands on a segment boundary. */
  lemma Safety(f: string, garbage: int, steps: seq<Step>, repaired: bool)
    requires Runs(f, Boot(garbage), steps, repaired)
    requires repaired || NoneOvertakes(f, Boot(garbage), steps, repaired)
    ensures var s := Final(f, Boot(garbage), steps, repaired);
            && s.rcv.acked <= |f| && s.rcv.recvData == Delivered(f)[..s.rcv.acked]
            && (s.finished ==> s.rcv.recvData == Delivered(f))
            && (s.rcv.fin ==> s.rcv.recvData == Delivered(f))
            && (!s.rcv.fin ==> Aligned(s.rcv.acked))
            && s.snd.acked <= s.rcv.acked + 1
            && Placed(f, s.snd)
            && (forall p :: p in s.data ==> IsSegment(f, p))
            && (forall a :: a in s.acks ==> a.ackNum > 0 && (a.fin ==> s.rcv.fin) && (!a.fin ==> Aligned(a.ackNum - 1)))
  {
    hide Apply, Enabled, IsSegment, Canon;
    InitialIsCanon(f);
    RunKeepsWire(f, Boot(garbage), steps, repaired);
    CanonFacts(f, Final(f, Boot(garbage), steps, repaired).got);
  }
}
