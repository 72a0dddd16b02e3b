/** A run of the code, for every file of at least 400 bytes, in which an ack overtakes the re-sent position
    and the file arrives without its fourth segment. */
module Overtaking {
  import opened Segments
  import opened CongestionWindow
  import opened Receiver
  import opened Sender
  import opened Protocol

  // ----- building a run step by step -----

  lemma {:induction false} Extend(f: string, s: System, steps: seq<Step>, step: Step)
    requires Runs(f, s, steps, false) && Enabled(Final(f, s, steps, false), step)
    ensures Runs(f, s, steps + [step], false)
    ensures Final(f, s, steps + [step], false) == Apply(f, Final(f, s, steps, false), step, false)
    decreases |steps|
  {
    hide Apply, Enabled;
    if steps == [] {
      assert steps + [step] == [step];
    } else {
      Extend(f, Apply(f, s, steps[0], false), steps[1..], step);
      assert (steps + [step])[1..] == steps[1..] + [step];
    }
  }

  lemma Next(f: string, g: int, steps: seq<Step>, s: System, step: Step) returns (steps': seq<Step>, s': System)
    requires Reaches(f, g, steps, s) && Enabled(s, step)
    ensures Reaches(f, g, steps', s') && s' == Apply(f, s, step, false)
  {
    Extend(f, Boot(g), steps, step);
    steps', s' := steps + [step], Apply(f, s, step, false);
  }

  /** What a stage of the run needs to know: the sender's fields, and how much the receiver has. */
  predicate At(s: System, w: Window, acked: nat, filePos: nat, msg: Stream, received: nat, early: set<nat>) {
    && s.snd.win == w && s.snd.acked == acked && s.snd.filePos == filePos && s.snd.msg == msg
    && s.rcv.acked == received == |s.rcv.recvData| && s.rcv.buffer.Keys == early
    && (forall k :: k in early ==> s.rcv.buffer[k].1 == false && |s.rcv.buffer[k].0| == 100)
    && s.clock == 0 && !s.finished
  }

  /** So far only segments of the file were delivered. */
  ghost predicate Faithful(f: string, s: System) {
    Numbers(f, s.got) && s.rcv == Canon(f, s.got)
  }

  lemma DeliverFaithful(f: string, s: System, p: Packet)
    requires Faithful(f, s) && Enabled(s, DataArrives(p)) && IsSegment(f, p)
    ensures Faithful(f, Apply(f, s, DataArrives(p), false))
  {
    hide StrLen, Blank, Seg, Canon, OnPacket;
    OnSegment(f, s.got, p.seqNum - 1);
  }

  lemma SendStep(f: string, g: int, steps: seq<Step>, s: System, w: Window,
                 acked: nat, filePos: nat, pos: nat, received: nat, early: set<nat>)
    returns (steps': seq<Step>, s': System, p: Packet)
    requires Reaches(f, g, steps, s) && At(s, w, acked, filePos, Good(pos), received, early)
    requires pos <= |f| && CanSend(w)
    ensures Reaches(f, g, steps', s')
    ensures At(s', OnSend(w), acked, filePos + (SegEnd(f, pos) - pos),
               if IsLast(f, pos) then Failed else Good(pos + 100), received, early)
    ensures p == Packet(filePos + 1, 0, false, IsLast(f, pos), Blank(f[pos..SegEnd(f, pos)]))
    ensures filePos == pos && Aligned(pos) ==> IsSegment(f, p)
    ensures p in s'.data && s.data <= s'.data && s'.rcv == s.rcv && s'.acks == s.acks && s'.got == s.got
  {
    hide StrLen, Blank, Read, Reaches;
    ReadSegment(f, pos);
    steps', s' := Next(f, g, steps, s, Send(0));
    p := SendNext(f, s.snd, 0).1;
  }

  lemma AckStep(f: string, g: int, steps: seq<Step>, s: System, a: Packet, w: Window,
                acked: nat, filePos: nat, pos: nat, received: nat)
    returns (steps': seq<Step>, s': System)
    requires Reaches(f, g, steps, s) && At(s, w, acked, filePos, Good(pos), received, {})
    requires a in s.acks && a.ack && !a.fin && a.ackNum > acked && !CanSend(w)
    ensures Reaches(f, g, steps', s')
    ensures At(s', OnNewAck(w, (a.ackNum - acked) / 100), a.ackNum, filePos,
               Good(if 0 < pos < a.ackNum then a.ackNum - 1 else pos), received, {})
    ensures s'.rcv == s.rcv && s'.acks == s.acks - multiset{a} && s'.got == s.got
  {
    hide OnNewAck, Reaches;
    steps', s' := Next(f, g, steps, s, AckArrives(a, 0));
  }

  /** Arrival of a full segment that continues the file, with at most one early segment behind it. */
  lemma DataStep(f: string, g: int, steps: seq<Step>, s: System, p: Packet, w: Window,
                 acked: nat, filePos: nat, msg: Stream, received: nat, early: set<nat>)
    returns (steps': seq<Step>, s': System, a: Packet)
    requires Reaches(f, g, steps, s) && At(s, w, acked, filePos, msg, received, early) && !s.rcv.fin
    requires p in s.data && p.seqNum == received + 1 && !p.fin && |p.data| == 100
    requires early == {} || early == {received + 101}
    ensures Reaches(f, g, steps', s')
    ensures var received' := received + if early == {} then 100 else 200;
            && At(s', w, acked, filePos, msg, received', {})
            && a == Packet(received + 1, received' + 1, true, false, "")
    ensures a in s'.acks && !s'.rcv.fin
    ensures early == {} ==> s'.rcv.recvData == s.rcv.recvData + p.data
    ensures Faithful(f, s) && IsSegment(f, p) ==> Faithful(f, s')
  {
    hide Reaches, Faithful, IsSegment;
    DrainOne(Append(s.rcv, p.data, p.fin));
    steps', s' := Next(f, g, steps, s, DataArrives(p));
    a := OnPacket(s.rcv, p).1;
    if Faithful(f, s) && IsSegment(f, p) {
      DeliverFaithful(f, s, p);
    }
  }

  lemma DrainOne(r: ReceiverState)
    requires r.acked == |r.recvData|
    requires r.buffer.Keys == {}
             || (r.buffer.Keys == {r.acked + 1}
                 && r.buffer[r.acked + 1].1 == false && |r.buffer[r.acked + 1].0| == 100)
    ensures var d := Drain(r);
            && d.acked == r.acked + (if r.buffer.Keys == {} then 0 else 100) == |d.recvData|
            && d.fin == r.fin && d.buffer.Keys == {}
            && (r.buffer.Keys == {} ==> d == r)
  {
    if r.buffer.Keys != {} {
      assert Take(r).buffer.Keys == {};
      assert Drain(Take(r)) == Take(r);
    }
  }

  lemma EarlyStep(f: string, g: int, steps: seq<Step>, s: System, p: Packet, w: Window,
                  acked: nat, filePos: nat, msg: Stream, received: nat)
    returns (steps': seq<Step>, s': System)
    requires Reaches(f, g, steps, s) && At(s, w, acked, filePos, msg, received, {}) && !s.rcv.fin
    requires p in s.data && p.seqNum > received + 1 && !p.fin && |p.data| == 100
    ensures Reaches(f, g, steps', s') && At(s', w, acked, filePos, msg, received, {p.seqNum}) && !s'.rcv.fin
    ensures Packet(p.seqNum, received + 1, true, false, "") in s'.acks
    ensures Faithful(f, s) && IsSegment(f, p) ==> Faithful(f, s')
  {
    hide Reaches, StrLen, Blank, Faithful, IsSegment;
    steps', s' := Next(f, g, steps, s, DataArrives(p));
    if Faithful(f, s) && IsSegment(f, p) {
      DeliverFaithful(f, s, p);
    }
  }

  lemma TimerStep(f: string, g: int, steps: seq<Step>, s: System, w: Window,
                  acked: nat, filePos: nat, msg: Stream, received: nat, early: set<nat>)
    returns (steps': seq<Step>, s': System)
    requires Reaches(f, g, steps, s) && At(s, w, acked, filePos, msg, received, early)
    requires !Sending(s.snd) && acked > 0
    ensures Reaches(f, g, steps', s') && s'.rcv == s.rcv && s'.acks == s.acks && s'.got == s.got
    ensures At(s', OnTimeout(w), acked, acked - 1, Good(acked - 1), received, early)
  {
    hide Reaches;
    steps', s' := Next(f, g, steps, s, TimerExpires);
  }

  // ----- the overtaking -----

  /** The first segment is acknowledged, and slow start opens the window to two. */
  lemma OpenWindow(f: string, g: int) returns (steps: seq<Step>, s: System)
    requires |f| >= 400
    ensures Reaches(f, g, steps, s) && Faithful(f, s) && !s.rcv.fin
    ensures At(s, Window(SlowStart, 2, 1000, 0, 0, g), 101, 100, Good(100), 100, {})
  {
    hide StrLen, Blank, Apply, Delivered, IsSegment, Canon;
    InitialIsCanon(f);
    steps, s := [], Boot(g);
    var w := Fresh(g);
    assert Reaches(f, g, steps, s) && Faithful(f, s) && At(s, w, 1, 0, Good(0), 0, {});
    hide Reaches, At, Faithful;
    var p, a;
    steps, s, p := SendStep(f, g, steps, s, w, 1, 0, 0, 0, {});
    steps, s, a := DataStep(f, g, steps, s, p, w.(notAcked := 1), 1, 100, Good(100), 0, {});
    steps, s := AckStep(f, g, steps, s, a, w.(notAcked := 1), 1, 100, 100, 100);
  }

  /** The second segment is lost, the third arrives early. */
  lemma LoseSecond(f: string, g: int) returns (steps: seq<Step>, s: System)
    requires |f| >= 400
    ensures Reaches(f, g, steps, s) && Faithful(f, s) && !s.rcv.fin
    ensures At(s, Window(SlowStart, 2, 1000, 2, 0, g), 101, 300, Good(300), 100, {201})
    ensures Packet(201, 101, true, false, "") in s.acks
  {
    hide StrLen, Blank, Reaches, Apply, At, IsSegment, Canon;
    var p;
    var w := Window(SlowStart, 2, 1000, 0, 0, g);
    steps, s := OpenWindow(f, g);
    steps, s, p := SendStep(f, g, steps, s, w, 101, 100, 100, 100, {});
    steps, s, p := SendStep(f, g, steps, s, w.(notAcked := 1), 101, 200, 200, 100, {});
    assert Aligned(200);
    steps, s := EarlyStep(f, g, steps, s, p, w.(notAcked := 2), 101, 300, Good(300), 100);
  }

  /** A timeout re-sends the second segment; its ack covers the third as well, and overtakes the sender:
      the stream moves to 300 while filePosition_ stays at 200. */
  lemma Overtake(f: string, g: int) returns (steps: seq<Step>, s: System)
    requires |f| >= 400
    ensures Reaches(f, g, steps, s) && Faithful(f, s) && !s.rcv.fin
    ensures At(s, Window(CongestionAvoidance, 2, 100, 0, 0, 0), 301, 200, Good(300), 300, {})
  {
    var p, a;
    steps, s := LoseSecond(f, g);
    assert !Sending(s.snd);
    hide StrLen, Blank, Reaches, Apply, At, IsSegment, Canon;
    steps, s := TimerStep(f, g, steps, s, Window(SlowStart, 2, 1000, 2, 0, g), 101, 300, Good(300), 100, {201});
    steps, s, p := SendStep(f, g, steps, s, Window(SlowStart, 1, 100, 0, 0, g), 101, 100, 100, 100, {201});
    assert Aligned(100);
    steps, s, a :=
      DataStep(f, g, steps, s, p, Window(SlowStart, 1, 100, 1, 0, g), 101, 200, Good(200), 100, {201});
    steps, s := AckStep(f, g, steps, s, a, Window(SlowStart, 1, 100, 1, 0, g), 101, 200, 200, 300);
  }

  // ----- what it leads to -----

  /** Every payload carries the number of the segment before it: the receiver has the first three segments and,
      from byte 300 on, what the file has from byte 400 on; the next payload to be sent is that of n + 100. */
  ghost predicate Shifted(f: string, s: System, n: nat) {
    var w := s.snd.win;
    && 300 <= n && n + 100 <= |f| && Aligned(n)
    && At(s, w, s.snd.acked, n, Good(n + 100), n, {}) && !s.rcv.fin
    && s.rcv.recvData == Delivered(f)[..300] + Delivered(f)[400..n + 100]
    && w.mode == CongestionAvoidance && CanSend(w)
    && s.snd.acked <= n + 1
  }

  /** The re-sent third segment is ignored, and everything behind it is out of place. */
  lemma BeginShifted(f: string, g: int) returns (steps: seq<Step>, s: System)
    requires |f| >= 400
    ensures Reaches(f, g, steps, s) && Shifted(f, s, 300)
  {
    hide StrLen, Blank, Reaches, Apply, Delivered, Canon, IsSegment;
    var p;
    var w := Window(CongestionAvoidance, 2, 100, 0, 0, 0);
    steps, s := Overtake(f, g);
    CanonFacts(f, s.got);
    steps, s, p := SendStep(f, g, steps, s, w, 301, 200, 300, 300, {});
    assert Aligned(300);
    var d := Delivered(f);
    assert d[..300] + d[400..400] == d[..300];
  }

  /** One more payload is taken for the one before it. */
  lemma StayShifted(f: string, g: int, steps: seq<Step>, s: System, n: nat)
    returns (steps': seq<Step>, s': System)
    requires Reaches(f, g, steps, s) && Shifted(f, s, n) && !IsLast(f, n + 100)
    ensures Reaches(f, g, steps', s') && Shifted(f, s', n + 100)
  {
    hide StrLen, Blank, Reaches, Apply, Delivered, IsSegment, Faithful;
    var w, acked, d := s.snd.win, s.snd.acked, Delivered(f);
    var p, a;
    AlignedAfter(n);
    AlignedAfter(n + 100);
    DeliveredAt(f, n + 100);
    steps', s', p := SendStep(f, g, steps, s, w, acked, n, n + 100, n, {});
    steps', s', a := DataStep(f, g, steps', s', p, OnSend(w), acked, n + 100, Good(n + 200), n, {});
    assert d[..300] + d[400..n + 100] + d[n + 100..n + 200] == d[..300] + d[400..n + 200];
    if !CanSend(OnSend(w)) {
      steps', s' := AckStep(f, g, steps', s', a, OnSend(w), acked, n + 100, n + 200, n + 100);
    }
  }

  lemma {:induction false} ReachEnd(f: string, g: int, steps: seq<Step>, s: System, n: nat)
    returns (steps': seq<Step>, s': System, n': nat)
    requires Reaches(f, g, steps, s) && Shifted(f, s, n)
    ensures Reaches(f, g, steps', s') && Shifted(f, s', n') && IsLast(f, n' + 100)
    decreases |f| - n
  {
    hide Reaches, Shifted;
    assert n + 100 <= |f| by { ShiftedWithin(f, s, n); }
    if IsLast(f, n + 100) {
      steps', s', n' := steps, s, n;
    } else {
      steps', s' := StayShifted(f, g, steps, s, n);
      steps', s', n' := ReachEnd(f, g, steps', s', n + 100);
    }
  }

  lemma ShiftedWithin(f: string, s: System, n: nat)
    requires Shifted(f, s, n)
    ensures n + 100 <= |f|
  {
  }

  /** A FIN packet with the expected number ends the connection. */
  lemma FinishStep(f: string, g: int, steps: seq<Step>, s: System, p: Packet)
    returns (steps': seq<Step>, s': System)
    requires Reaches(f, g, steps, s) && s.clock == 0 && !s.finished && !s.rcv.fin && !Sending(s.snd)
    requires p in s.data && p.seqNum == s.rcv.acked + 1 && p.fin && s.rcv.buffer == map[]
    ensures Reaches(f, g, steps', s') && s'.finished && s'.clock == 0
    ensures s'.rcv.recvData == s.rcv.recvData + p.data
  {
    hide Reaches;
    var s1;
    steps', s1 := Next(f, g, steps, s, DataArrives(p));
    steps', s' := Next(f, g, steps', s1, AckArrives(OnPacket(s.rcv, p).1, 0));
  }

  /** The code can lose the fourth segment of every file of at least 400 bytes: the receiver finishes without it
      and transmit reports success. */
  lemma CodeLosesBytes(f: string, garbage: int) returns (steps: seq<Step>)
    requires |f| >= 400
    ensures Runs(f, Boot(garbage), steps, false)
    ensures var s := Final(f, Boot(garbage), steps, false);
            && s.finished && s.rcv.fin && s.clock == 0
            && s.rcv.recvData == Delivered(f)[..300] + Delivered(f)[400..]
  {
    hide StrLen, Blank, Apply, Delivered, IsSegment;
    var s, n, p;
    steps, s := BeginShifted(f, garbage);
    steps, s, n := ReachEnd(f, garbage, steps, s, 300);
    AlignedAfter(n);
    DeliveredAt(f, n + 100);
    var d := Delivered(f);
    steps, s, p := SendStep(f, garbage, steps, s, s.snd.win, s.snd.acked, n, n + 100, n, {});
    steps, s := FinishStep(f, garbage, steps, s, p);
    assert d[..300] + d[400..n + 100] + d[n + 100..] == d[..300] + d[400..];
    assert d[n + 100..|f|] == d[n + 100..];
    RunKeepsAlways(f, Boot(garbage), steps, false);
  }
}
