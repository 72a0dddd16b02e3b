/** Segment boundaries in every run, overtaken or not. */
module Alignment {
  import opened Segments
  import opened CongestionWindow
  import opened Receiver
  import opened Sender
  import opened Protocol

  /** A payload without FIN fills its packet. */
  predicate Full(data: string, fin: bool) {
    fin || |data| == 100
  }

  ghost predicate FullBuffer(r: ReceiverState) {
    forall k :: k in r.buffer ==> Full(r.buffer[k].0, r.buffer[k].1)
  }

  predicate OnBoundary(r: ReceiverState) {
    r.fin || Aligned(r.acked)
  }

  ghost predicate Blocks(s: System) {
    && (forall p :: p in s.data ==> Full(p.data, p.fin))
    && FullBuffer(s.rcv) && OnBoundary(s.rcv)
    && (forall a :: a in s.acks && !a.fin ==> a.ackNum > 0 && Aligned(a.ackNum - 1))
    && Aligned(s.snd.acked - 1)
  }

  lemma {:induction false} DrainOnBoundary(r: ReceiverState)
    requires FullBuffer(r) && OnBoundary(r)
    ensures FullBuffer(Drain(r)) && OnBoundary(Drain(r))
    decreases |r.buffer|
  {
    if r.acked + 1 in r.buffer {
      assert Aligned(r.acked) ==> Aligned(r.acked + 100);
      DrainOnBoundary(Take(r));
    }
  }

  lemma PacketOnBoundary(r: ReceiverState, p: Packet)
    requires FullBuffer(r) && OnBoundary(r) && Full(p.data, p.fin)
    ensures FullBuffer(OnPacket(r, p).0) && OnBoundary(OnPacket(r, p).0)
  {
    hide StrLen, Blank;
    if p.seqNum == r.acked + 1 {
      var r1 := Append(r, p.data, p.fin);
      assert Aligned(r.acked) ==> Aligned(r.acked + 100);
      DrainOnBoundary(r1);
    }
  }

  /** Whatever the sender's positions are, a read that does not fail the stream yields 100 bytes. */
  lemma EmitsFull(f: string, s: SenderState, now: nat)
    ensures Full(SendNext(f, s, now).1.data, SendNext(f, s, now).1.fin)
    ensures Full(Retransmit(f, s, now).1.data, Retransmit(f, s, now).1.fin)
  {
    hide StrLen, Blank;
  }

  lemma AckOnBoundary(f: string, s: SenderState, p: Packet, now: nat)
    requires Aligned(s.acked - 1)
    requires p.ack && !p.fin ==> p.ackNum > 0 && Aligned(p.ackNum - 1)
    ensures Aligned(OnAck(f, s, p, now).0.acked - 1)
    ensures forall q :: q in OnAck(f, s, p, now).1 ==> Full(q.data, q.fin)
  {
    hide StrLen, Blank, Read, Aligned, Full, OnDupAck, OnNewAck;
    EmitsFull(f, s.(win := OnDupAck(s.win)), now);
  }

  lemma SendKeepsBlocks(f: string, s: System, now: nat, repaired: bool)
    requires Blocks(s)
    ensures Blocks(Apply(f, s, Send(now), repaired))
  {
    hide StrLen, Blank, Aligned, Full, Read, FullBuffer, OnBoundary;
    EmitsFull(f, s.snd, now);
  }

  lemma AckKeepsBlocks(f: string, s: System, p: Packet, now: nat, repaired: bool)
    requires Blocks(s) && p in s.acks
    ensures Blocks(Apply(f, s, AckArrives(p, now), repaired))
  {
    hide Aligned, Full, OnAck, Overtakes, FullBuffer, OnBoundary;
    AckOnBoundary(f, s.snd, p, now);
    var ps := OnAck(f, s.snd, p, now).1;
    assert forall q :: q in multiset(ps) ==> q in ps;
  }

  lemma DataAckOnBoundary(r: ReceiverState, p: Packet)
    requires OnBoundary(OnPacket(r, p).0)
    ensures var a := OnPacket(r, p).1; a.fin || (a.ackNum > 0 && Aligned(a.ackNum - 1))
  {
    hide OnPacket;
    OnPacketAcks(r, p);
  }

  lemma DataKeepsBlocks(f: string, s: System, p: Packet, repaired: bool)
    requires Blocks(s) && p in s.data
    ensures Blocks(Apply(f, s, DataArrives(p), repaired))
  {
    hide Aligned, Full, OnPacket, FullBuffer, OnBoundary;
    PacketOnBoundary(s.rcv, p);
    DataAckOnBoundary(s.rcv, p);
  }

  lemma NetworkKeepsBlocks(f: string, s: System, step: Step, repaired: bool)
    requires Blocks(s) && Enabled(s, step) && NetworkStep(step)
    ensures Blocks(Apply(f, s, step, repaired))
  {
    NetworkInventsNothing(f, s, step, repaired);
    hide Apply, Enabled, Aligned, Full, FullBuffer, OnBoundary;
  }

  lemma StepKeepsBlocks(f: string, s: System, step: Step, repaired: bool)
    requires Blocks(s) && Enabled(s, step)
    ensures Blocks(Apply(f, s, step, repaired))
  {
    match step
    case Send(now) => hide Blocks, Apply; SendKeepsBlocks(f, s, now, repaired);
    case AckArrives(p, now) => hide Blocks, Apply; AckKeepsBlocks(f, s, p, now, repaired);
    case TimerExpires => hide Full, Aligned, FullBuffer, OnBoundary, OnTimeout;
    case DataArrives(p) => hide Blocks, Apply; DataKeepsBlocks(f, s, p, repaired);
    case _ => hide Blocks, Apply; NetworkKeepsBlocks(f, s, step, repaired);
  }

  lemma {:induction false} RunKeepsBlocks(f: string, s: System, steps: seq<Step>, repaired: bool)
    requires Blocks(s) && Runs(f, s, steps, repaired)
    ensures Blocks(Final(f, s, steps, repaired))
    decreases |steps|
  {
    hide Blocks, Apply, Enabled;
    if steps != [] {
      StepKeepsBlocks(f, s, steps[0], repaired);
      RunKeepsBlocks(f, Apply(f, s, steps[0], repaired), steps[1..], repaired);
    }
  }

  /** Every run, of the code or of the repaired sender: until FIN the receiver stands on a multiple of 100, and
      every ack without FIN, like the position it gives the sender, is one more than a multiple of 100. */
  lemma AcksOnBoundaries(f: string, garbage: int, steps: seq<Step>, repaired: bool)
    requires Runs(f, Boot(garbage), steps, repaired)
    ensures var s := Final(f, Boot(garbage), steps, repaired);
            && (s.rcv.fin || s.rcv.acked % 100 == 0)
            && s.snd.acked % 100 == 1
            && forall a :: a in s.acks && !a.fin ==> a.ackNum % 100 == 1
  {
    hide Apply, Enabled;
    RunKeepsBlocks(f, Boot(garbage), steps, repaired);
    var s := Final(f, Boot(garbage), steps, repaired);
    AlignedIsMultiple(s.rcv.acked);
    AlignedIsMultiple(s.snd.acked - 1);
    forall a | a in s.acks && !a.fin ensures a.ackNum % 100 == 1 {
      AlignedIsMultiple(a.ackNum - 1);
    }
  }

  /** The byte count that leaving fast recovery divides by 100 is a multiple of 100 in every run, so the loop there
      takes exactly the newly covered segments off those outstanding, and the window becomes the threshold. */
  lemma AckCoversWholeSegments(f: string, garbage: int, steps: seq<Step>, repaired: bool, a: Packet, now: nat)
    requires Runs(f, Boot(garbage), steps, repaired)
    requires a in Final(f, Boot(garbage), steps, repaired).acks && !a.fin
    requires IsNew(Final(f, Boot(garbage), steps, repaired).snd, a)
    ensures var s := Final(f, Boot(garbage), steps, repaired);
            var w, w' := s.snd.win, Apply(f, s, AckArrives(a, now), repaired).snd.win;
            && (a.ackNum - s.snd.acked) % 100 == 0 && a.ackNum > s.snd.acked
            && (w.mode == FastRecovery ==>
                  && 100 * (w.notAcked - w'.notAcked) == a.ackNum - s.snd.acked
                  && w'.cwnd == w.ssthresh / 100 && w'.ssthresh == w.ssthresh
                  && w'.mode == CongestionAvoidance && w'.caAckCount == 0 && w'.dupAckCount == 0)
            && (w.mode != FastRecovery ==> w.notAcked - w'.notAcked == 1)
  {
    hide Final, Runs;
    AcksOnBoundaries(f, garbage, steps, repaired);
    hide TakeNewAck;
  }

  /** The same for the code, whose threshold in recovery is a whole number of segments. */
  lemma LeavingRecovery(f: string, garbage: int, steps: seq<Step>, a: Packet, now: nat)
    requires Runs(f, Boot(garbage), steps, false)
    requires a in Final(f, Boot(garbage), steps, false).acks && !a.fin
    requires var snd := Final(f, Boot(garbage), steps, false).snd; IsNew(snd, a) && snd.win.mode == FastRecovery
    ensures var s := Final(f, Boot(garbage), steps, false);
            var w, w' := s.snd.win, Apply(f, s, AckArrives(a, now), false).snd.win;
            100 * w'.cwnd == w.ssthresh && 100 * (w.notAcked - w'.notAcked) == a.ackNum - s.snd.acked
  {
    hide Final, Runs, Apply;
    AckCoversWholeSegments(f, garbage, steps, false, a, now);
    WindowInEveryRun(f, garbage, steps);
  }
}
