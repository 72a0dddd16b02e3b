/** For which file lengths the code, as it is, delivers safely in every run. */
module ShortFiles {
  import opened Segments
  import opened CongestionWindow
  import opened Receiver
  import opened Sender
  import opened Protocol
  import opened Overtaking

  lemma FourBlocks(p: nat)
    requires Aligned(p) && p < 400
    ensures p in {0, 100, 200, 300}
  {
    assert p >= 100 ==> Aligned(p - 100);
    assert p >= 200 ==> Aligned(p - 200);
    assert p >= 300 ==> Aligned(p - 300);
  }

  /** Until the first ack only the first segment is ever sent. */
  ghost predicate Opening(f: string, s: System) {
    var w := s.snd.win;
    && w.mode == SlowStart && w.cwnd == 1 && w.dupAckCount == 0
    && (w.notAcked == 0 ==> s.snd.filePos == 0 && s.snd.msg == Good(0))
    && (w.notAcked != 0 ==> w.notAcked == 1 && s.snd.filePos == SegEnd(f, 0)
                            && s.snd.msg == if IsLast(f, 0) then Failed else Good(100))
    && s.got <= {1}
    && (forall p :: p in s.data ==> p.seqNum == 1)
    && (forall a :: a in s.acks ==> a.fin || a.ackNum >= 101)
  }

  /** Later the sender never waits at position 100, so an ack can overtake it only from 200 to 300. */
  ghost predicate Later(f: string, s: SenderState)
    requires s.acked - 1 <= |f|
  {
    && s.filePos >= 100
    && (s.msg == Good(100) ==> CanSend(s.win))
    && (s.msg.Failed? ==> s.filePos == |f| || IsLast(f, s.acked - 1))
  }

  ghost predicate InStep(f: string, s: System) {
    && Placed(f, s.snd)
    && (if s.snd.acked == 1 then Opening(f, s) else Later(f, s.snd))
  }

  /** After the one possible overtaking the sender is at the last segment and can only mislabel that one. */
  ghost predicate OutOfStep(s: System) {
    && s.snd.acked == 301 && s.rcv.acked >= 300
    && (s.snd.msg.Failed? || (s.snd.msg == Good(300) && s.snd.filePos == 200))
  }

  ghost predicate Stale(s: System, p: Packet) {
    p.seqNum == 201 && s.rcv.acked >= 300
  }

  ghost predicate ShortInv(f: string, s: System) {
    && Always(s)
    && (InStep(f, s) || OutOfStep(s))
    && (forall p :: p in s.data ==> IsSegment(f, p) || Stale(s, p))
    && Numbers(f, s.got) && s.rcv == Canon(f, s.got)
    && (forall a :: a in s.acks && !a.fin ==> a.ackNum > 0 && Aligned(a.ackNum - 1))
  }

  lemma SendInStep(f: string, s: System, now: nat)
    requires |f| < 400 && ShortInv(f, s) && Enabled(s, Send(now)) && InStep(f, s)
    ensures ShortInv(f, Apply(f, s, Send(now), false))
  {
    hide StrLen, Blank, Read, Canon, Always, Aligned;
    StepKeepsAlways(f, s, Send(now), false);
    SendOnWire(f, s.snd, now);
    ReadSegment(f, s.snd.filePos);
  }

  lemma SendOutOfStep(f: string, s: System, now: nat)
    requires |f| < 400 && ShortInv(f, s) && Enabled(s, Send(now)) && OutOfStep(s)
    ensures ShortInv(f, Apply(f, s, Send(now), false))
  {
    hide StrLen, Blank, Read, Canon, Always, IsSegment;
    StepKeepsAlways(f, s, Send(now), false);
    CanonFacts(f, s.got);
    ReadSegment(f, 300);
  }

  lemma TimerKeepsShort(f: string, s: System)
    requires |f| < 400 && ShortInv(f, s) && Enabled(s, TimerExpires)
    ensures ShortInv(f, Apply(f, s, TimerExpires, false))
  {
    hide Canon, Always, IsSegment;
    StepKeepsAlways(f, s, TimerExpires, false);
    CanonFacts(f, s.got);
    assert Aligned(300);
  }

  /** A mislabelled packet comes too late to do harm. */
  lemma StaleIsIgnored(f: string, s: System, p: Packet)
    requires Numbers(f, s.got) && s.rcv == Canon(f, s.got) && Stale(s, p)
    ensures OnPacket(s.rcv, p).0 == s.rcv && s.got + {p.seqNum} == s.got
  {
    hide StrLen, Blank, EarlyOf;
    assert Aligned(200);
    assert 200 < FirstGap(f, s.got, 0);
  }

  lemma FirstAlone(f: string, got: set<nat>)
    requires Numbers(f, got) && got <= {1}
    ensures Canon(f, got).acked <= 100
  {
    hide StrLen, Blank, EarlyOf;
    assert Aligned(100);
    assert FirstGap(f, got, 0) <= 100;
  }

  lemma StaleKeepsShort(f: string, s: System, p: Packet)
    requires |f| < 400 && ShortInv(f, s) && Enabled(s, DataArrives(p)) && Stale(s, p)
    ensures ShortInv(f, Apply(f, s, DataArrives(p), false))
  {
    hide StrLen, Blank, Canon, Always, OnPacket, IsSegment, Placed;
    StepKeepsAlways(f, s, DataArrives(p), false);
    CanonFacts(f, s.got);
    StaleIsIgnored(f, s, p);
    OnPacketAcks(s.rcv, p);
  }

  lemma DataKeepsOpening(f: string, s: System, p: Packet)
    requires Opening(f, s) && Numbers(f, s.got) && s.rcv == Canon(f, s.got)
    requires Enabled(s, DataArrives(p)) && IsSegment(f, p)
    ensures Opening(f, Apply(f, s, DataArrives(p), false))
  {
    hide StrLen, Blank, Canon, OnPacket, Seg;
    OnSegment(f, s.got, 0);
    CanonFacts(f, s.got + {1});
    AlignedAfter(0);
    assert FirstGap(f, s.got + {1}, 0) >= 100;
  }

  lemma DataKeepsShort(f: string, s: System, p: Packet)
    requires |f| < 400 && ShortInv(f, s) && Enabled(s, DataArrives(p)) && IsSegment(f, p)
    ensures ShortInv(f, Apply(f, s, DataArrives(p), false))
  {
    hide StrLen, Blank, Canon, Always, OnPacket, Placed, FirstGap, Seg, Later, Opening;
    StepKeepsAlways(f, s, DataArrives(p), false);
    OnSegment(f, s.got, p.seqNum - 1);
    OnPacketAcks(s.rcv, p);
    CanonFacts(f, s.got + {p.seqNum});
    if s.snd.acked == 1 {
      DataKeepsOpening(f, s, p);
    }
  }

  /** The only overtaking from a state in step. */
  lemma OvertakingInStep(f: string, s: System, p: Packet)
    requires |f| < 400 && ShortInv(f, s) && InStep(f, s)
    requires !Sending(s.snd) && p in s.acks && Overtakes(s.snd, p)
    ensures p.ackNum == 301 && s.snd.msg == Good(200) && s.snd.filePos == 200
  {
    hide StrLen, Blank, Canon, IsSegment;
    CanonFacts(f, s.got);
    FourBlocks(p.ackNum - 1);
    FourBlocks(s.snd.filePos);
    if s.snd.acked == 1 {
      FirstAlone(f, s.got);
      assert false;
    }
  }

  lemma AckKeepsLater(f: string, s: SenderState, p: Packet, now: nat)
    requires |f| < 400 && Placed(f, s) && s.acked > 1 && Later(f, s) && !Overtakes(s, p) && !Sending(s)
    requires p.ack && !p.fin ==> p.ackNum > 0 && Aligned(p.ackNum - 1) && p.ackNum - 1 <= |f|
    ensures Placed(f, OnAck(f, s, p, now).0) && OnAck(f, s, p, now).0.acked > 1 && Later(f, OnAck(f, s, p, now).0)
    ensures forall q :: q in OnAck(f, s, p, now).1 ==> IsSegment(f, q)
  {
    hide StrLen, Blank, Read, OnDupAck, OnNewAck;
    AckOnWire(f, s, p, now, false);
    ReadSegment(f, s.acked - 1);
    AlignedAfter(s.acked - 1);
  }

  lemma AckEndsOpening(f: string, s: System, p: Packet, now: nat)
    requires |f| < 400 && ShortInv(f, s) && InStep(f, s) && s.snd.acked == 1
    requires Enabled(s, AckArrives(p, now)) && !Overtakes(s.snd, p) && !IsFinal(p)
    ensures var (snd, ps, _) := OnAck(f, s.snd, p, now);
            ps == [] && Placed(f, snd) && snd.acked > 1 && Later(f, snd)
  {
    hide StrLen, Blank, Canon, IsSegment;
    CanonFacts(f, s.got);
    FirstAlone(f, s.got);
    AckOnWire(f, s.snd, p, now, false);
  }

  /** A retransmission at the last segment is right even out of step. */
  lemma RetransmitLast(f: string, s: SenderState, now: nat)
    requires 300 <= |f| < 400 && s.acked == 301
    ensures var (s', p) := Retransmit(f, s, now);
            s'.acked == 301 && s'.msg == Failed && IsSegment(f, p)
  {
    hide StrLen, Blank, Read;
    assert Aligned(300);
    ReadSegment(f, 300);
  }

  lemma AckAtLast(f: string, s: SenderState, p: Packet, now: nat)
    requires 300 <= |f| < 400 && s.acked == 301 && p.ack && (p.fin || p.ackNum <= 301)
    ensures var (s', ps, _) := OnAck(f, s, p, now);
            && s'.acked == 301 && (s'.msg == Failed || (s'.msg == s.msg && s'.filePos == s.filePos))
            && forall q :: q in ps ==> IsSegment(f, q)
  {
    hide StrLen, Blank, IsSegment, Retransmit, OnDupAck;
    RetransmitLast(f, s.(win := OnDupAck(s.win)), now);
  }

  lemma AckOutOfStep(f: string, s: System, p: Packet, now: nat)
    requires |f| < 400 && ShortInv(f, s) && OutOfStep(s) && Enabled(s, AckArrives(p, now))
    ensures ShortInv(f, Apply(f, s, AckArrives(p, now), false))
  {
    hide StrLen, Blank, Canon, IsSegment, OnAck;
    StepKeepsAlways(f, s, AckArrives(p, now), false);
    CanonFacts(f, s.got);
    if !p.fin {
      FourBlocks(p.ackNum - 1);
    }
    AckAtLast(f, s.snd, p, now);
    var ps := OnAck(f, s.snd, p, now).1;
    assert forall q :: q in multiset(ps) ==> q in ps;
  }

  /** The rest of the invariant after a packet that leaves the sender in step. */
  lemma AckInStep(f: string, s: System, p: Packet, now: nat)
    requires ShortInv(f, s) && Enabled(s, AckArrives(p, now))
    requires var (snd, ps, _) := OnAck(f, s.snd, p, now);
             Placed(f, snd) && snd.acked > 1 && Later(f, snd) && forall q :: q in ps ==> IsSegment(f, q)
    ensures ShortInv(f, Apply(f, s, AckArrives(p, now), false))
  {
    hide StrLen, Blank, Canon, IsSegment, Placed, Later, Sending, OnAck, Always;
    StepKeepsAlways(f, s, AckArrives(p, now), false);
    var ps := OnAck(f, s.snd, p, now).1;
    assert forall q :: q in multiset(ps) ==> q in ps;
  }

  lemma FinalKeepsShort(f: string, s: System, p: Packet, now: nat)
    requires ShortInv(f, s) && Enabled(s, AckArrives(p, now)) && IsFinal(p)
    ensures ShortInv(f, Apply(f, s, AckArrives(p, now), false))
  {
    hide StrLen, Blank, Canon, IsSegment, Placed, Later, Sending, Always;
    StepKeepsAlways(f, s, AckArrives(p, now), false);
  }

  lemma AckKeepsShort(f: string, s: System, p: Packet, now: nat)
    requires |f| < 400 && ShortInv(f, s) && Enabled(s, AckArrives(p, now))
    ensures ShortInv(f, Apply(f, s, AckArrives(p, now), false))
  {
    hide StrLen, Blank, Canon, IsSegment;
    if OutOfStep(s) {
      AckOutOfStep(f, s, p, now);
    } else if IsFinal(p) {
      FinalKeepsShort(f, s, p, now);
    } else if Overtakes(s.snd, p) {
      OvertakingKeepsShort(f, s, p, now);
    } else {
      hide Apply, OnAck, Placed, Later, Sending, Opening;
      CanonFacts(f, s.got);
      if s.snd.acked == 1 {
        AckEndsOpening(f, s, p, now);
      } else {
        AckKeepsLater(f, s.snd, p, now);
      }
      AckInStep(f, s, p, now);
    }
  }

  lemma OvertakingKeepsShort(f: string, s: System, p: Packet, now: nat)
    requires |f| < 400 && ShortInv(f, s) && InStep(f, s)
    requires Enabled(s, AckArrives(p, now)) && Overtakes(s.snd, p)
    ensures ShortInv(f, Apply(f, s, AckArrives(p, now), false))
  {
    hide StrLen, Blank, Canon, IsSegment, OnNewAck;
    OvertakingInStep(f, s, p);
    StepKeepsAlways(f, s, AckArrives(p, now), false);
  }

  lemma NetworkKeepsShort(f: string, s: System, step: Step)
    requires ShortInv(f, s) && Enabled(s, step)
    requires NetworkStep(step)
    ensures ShortInv(f, Apply(f, s, step, false))
  {
    hide StrLen, Blank, Canon, IsSegment, Placed, Later, Always;
    StepKeepsAlways(f, s, step, false);
    NetworkInventsNothing(f, s, step, false);
    hide Apply, Enabled;
  }

  lemma StepKeepsShort(f: string, s: System, step: Step)
    requires |f| < 400 && ShortInv(f, s) && Enabled(s, step)
    ensures ShortInv(f, Apply(f, s, step, false))
  {
    hide Apply, Always, InStep, OutOfStep, Canon, Sending;
    match step
    case Send(now) =>
      if OutOfStep(s) {
        SendOutOfStep(f, s, now);
      } else {
        SendInStep(f, s, now);
      }
    case AckArrives(p, now) => AckKeepsShort(f, s, p, now);
    case TimerExpires => TimerKeepsShort(f, s);
    case DataArrives(p) =>
      if Stale(s, p) {
        StaleKeepsShort(f, s, p);
      } else {
        DataKeepsShort(f, s, p);
      }
    case _ => NetworkKeepsShort(f, s, step);
  }

  lemma {:induction false} RunKeepsShort(f: string, s: System, steps: seq<Step>)
    requires |f| < 400 && ShortInv(f, s) && Runs(f, s, steps, false)
    ensures ShortInv(f, Final(f, s, steps, false))
    decreases |steps|
  {
    hide ShortInv, Apply, Enabled;
    if steps != [] {
      StepKeepsShort(f, s, steps[0]);
      RunKeepsShort(f, Apply(f, s, steps[0], false), steps[1..]);
    }
  }

  // ----- the result -----

  /** In every run of a short file the only ack that can overtake moves the stream from byte 200 to byte 300. */
  lemma OnlyOneOvertaking(f: string, garbage: int, steps: seq<Step>, p: Packet)
    requires |f| < 400 && Runs(f, Boot(garbage), steps, false)
    requires var s := Final(f, Boot(garbage), steps, false);
             !Sending(s.snd) && p in s.acks && Overtakes(s.snd, p)
    ensures var snd := Final(f, Boot(garbage), steps, false).snd;
            p.ackNum == 301 && snd.msg == Good(200) && snd.filePos == 200
  {
    var s := Final(f, Boot(garbage), steps, false);
    hide Apply, Enabled, Canon, InStep, IsSegment, Runs, Final, Sending;
    BootIsShort(f, garbage);
    RunKeepsShort(f, Boot(garbage), steps);
    if InStep(f, s) {
      OvertakingInStep(f, s, p);
    } else {
      CanonFacts(f, s.got);
      FourBlocks(p.ackNum - 1);
      assert false;
    }
  }

  /** What a user of transmit and receive relies on. */
  ghost predicate Sound(f: string, s: System) {
    && s.rcv.recvData <= Delivered(f)
    && (s.rcv.fin ==> s.rcv.recvData == Delivered(f))
    && (s.finished ==> s.rcv.fin)
  }

  lemma ShortFilesAreSound(f: string, garbage: int, steps: seq<Step>)
    requires |f| < 400 && Runs(f, Boot(garbage), steps, false)
    ensures Sound(f, Final(f, Boot(garbage), steps, false))
  {
    hide Apply, Enabled, Canon, InStep, OutOfStep, IsSegment;
    assert ShortInv(f, Boot(garbage)) by { BootIsShort(f, garbage); }
    RunKeepsShort(f, Boot(garbage), steps);
    CanonFacts(f, Final(f, Boot(garbage), steps, false).got);
  }

  lemma BootIsShort(f: string, garbage: int)
    ensures ShortInv(f, Boot(garbage))
  {
    InitialIsCanon(f);
  }

  /** The code delivers a file safely in every run exactly when the file has less than 400 bytes: four segments
      are the least that an ack can overtake with harm. */
  lemma SoundIffShort(f: string, garbage: int)
    ensures (forall steps :: Runs(f, Boot(garbage), steps, false) ==> Sound(f, Final(f, Boot(garbage), steps, false)))
            <==> |f| < 400
  {
    if |f| < 400 {
      forall steps | Runs(f, Boot(garbage), steps, false)
        ensures Sound(f, Final(f, Boot(garbage), steps, false))
      {
        ShortFilesAreSound(f, garbage, steps);
      }
    } else {
      var steps := CodeLosesBytes(f, garbage);
      assert !Sound(f, Final(f, Boot(garbage), steps, false));
    }
  }
}
