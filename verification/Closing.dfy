/** Which files let a run close the congestion window. */
module Closing {
  import opened Segments
  import opened CongestionWindow
  import opened Receiver
  import opened Sender
  import opened Protocol
  import opened Overtaking
  import opened ShortFiles

  // ----- a run that closes the window -----

  /** The network copies an ack and delivers one of the copies, which is a duplicate to the sender. */
  lemma DupStep(f: string, g: int, steps: seq<Step>, s: System, a: Packet, w: Window,
                acked: nat, filePos: nat, pos: nat, received: nat, early: set<nat>)
    returns (steps': seq<Step>, s': System)
    requires Reaches(f, g, steps, s) && At(s, w, acked, filePos, Good(pos), received, early)
    requires a in s.acks && a.ack && !a.fin && a.ackNum <= acked <= |f| && !CanSend(w)
    ensures Reaches(f, g, steps', s') && a in s'.acks && s.data <= s'.data && s'.rcv == s.rcv
    ensures !ThirdDup(w) ==> At(s', OnDupAck(w), acked, filePos, Good(pos), received, early)
    ensures ThirdDup(w) && !IsLast(f, acked - 1) ==>
              At(s', OnSend(OnDupAck(w)), acked, pos, Good(pos), received, early)
  {
    hide Reaches, OnDupAck, StrLen, Blank;
    var s1;
    steps', s1 := Next(f, g, steps, s, CopyAck(a));
    ReadSegment(f, acked - 1);
    hide Read;
    steps', s' := Next(f, g, steps', s1, AckArrives(a, 0));
  }

  /** The send loop runs until the window or the end of the file stops it. */
  lemma {:induction false} SendUntilBlocked(f: string, g: int, steps: seq<Step>, s: System, w: Window,
                                            acked: nat, filePos: nat, msg: Stream, received: nat, early: set<nat>)
    returns (steps': seq<Step>, s': System)
    requires Reaches(f, g, steps, s) && At(s, w, acked, filePos, msg, received, early)
    requires msg.Good? ==> msg.pos <= |f|
    ensures Reaches(f, g, steps', s') && !Sending(s'.snd)
    ensures At(s', w.(notAcked := s'.snd.win.notAcked), acked, s'.snd.filePos, s'.snd.msg, received, early)
    ensures s.data <= s'.data && s'.rcv == s.rcv && s'.acks == s.acks
    decreases MAX_NOT_ACKED - w.notAcked
  {
    hide Reaches, Apply, StrLen, Blank;
    if Sending(s.snd) {
      var pos := msg.pos;
      var p;
      steps', s', p := SendStep(f, g, steps, s, w, acked, filePos, pos, received, early);
      steps', s' := SendUntilBlocked(f, g, steps', s', OnSend(w), acked, filePos + (SegEnd(f, pos) - pos),
                                     if IsLast(f, pos) then Failed else Good(pos + 100), received, early);
    } else {
      steps', s' := steps, s;
    }
  }

  /** The first segment is acknowledged, and a copy of the ack stays in flight. */
  lemma FirstAckCopied(f: string, g: int) returns (steps: seq<Step>, s: System, a: Packet)
    requires |f| >= 200
    ensures Reaches(f, g, steps, s) && !s.rcv.fin
    ensures At(s, Window(SlowStart, 2, 1000, 0, 0, g), 101, 100, Good(100), 100, {})
    ensures a in s.acks && a == Packet(1, 101, true, false, "")
  {
    steps, s := [], Boot(g);
    var w := Fresh(g);
    assert Reaches(f, g, steps, s) && At(s, w, 1, 0, Good(0), 0, {});
    hide StrLen, Blank, Reaches, Apply, At, Delivered;
    var p;
    steps, s, p := SendStep(f, g, steps, s, w, 1, 0, 0, 0, {});
    steps, s, a := DataStep(f, g, steps, s, p, w.(notAcked := 1), 1, 100, Good(100), 0, {});
    steps, s := CopyStep(f, g, steps, s, a, w.(notAcked := 1), 1, 100, Good(100), 100, {});
    steps, s := AckStep(f, g, steps, s, a, w.(notAcked := 1), 1, 100, 100, 100);
  }

  /** After a timeout the second segment is sent again. */
  lemma ReSendSecond(f: string, g: int) returns (steps: seq<Step>, s: System, a: Packet, p: Packet)
    requires |f| >= 200
    ensures Reaches(f, g, steps, s) && !s.rcv.fin
    ensures At(s, Window(SlowStart, 1, 100, 1, 0, g), 101, 200, Good(200), 100, {})
    ensures a in s.acks && a == Packet(1, 101, true, false, "")
    ensures p in s.data && p.seqNum == 101 && !p.fin && |p.data| == 100
  {
    hide StrLen, Blank, Reaches, Apply, At;
    steps, s, a := FirstAckCopied(f, g);
    var w := Window(SlowStart, 2, 1000, 0, 0, g);
    steps, s := SendUntilBlocked(f, g, steps, s, w, 101, 100, Good(100), 100, {});
    w := w.(notAcked := s.snd.win.notAcked);
    steps, s := TimerStep(f, g, steps, s, w, 101, s.snd.filePos, s.snd.msg, 100, {});
    steps, s, p := SendStep(f, g, steps, s, Window(SlowStart, 1, 100, 0, 0, g), 101, 100, 100, 100, {});
  }

  lemma CopyStep(f: string, g: int, steps: seq<Step>, s: System, a: Packet, w: Window,
                 acked: nat, filePos: nat, msg: Stream, received: nat, early: set<nat>)
    returns (steps': seq<Step>, s': System)
    requires Reaches(f, g, steps, s) && At(s, w, acked, filePos, msg, received, early) && a in s.acks
    ensures Reaches(f, g, steps', s') && At(s', w, acked, filePos, msg, received, early)
    ensures s'.acks[a] >= 2 && s'.data == s.data && s'.rcv == s.rcv
  {
    hide Reaches;
    steps', s' := Next(f, g, steps, s, CopyAck(a));
  }

  /** Three duplicates meet a window of one, so recovery starts with a threshold of zero, and ends with it. */
  lemma CloseWindow(f: string, g: int) returns (steps: seq<Step>, s: System)
    requires |f| >= 200
    ensures Reaches(f, g, steps, s) && s.snd.win.cwnd == 0
    ensures |f| >= 400 ==> s.snd.msg.Good?
  {
    hide StrLen, Blank, Reaches, Apply;
    var a, p, b;
    steps, s, a, p := ReSendSecond(f, g);
    var w := Window(SlowStart, 1, 100, 1, 0, g);
    steps, s := DupStep(f, g, steps, s, a, w, 101, 200, 200, 100, {});
    steps, s := DupStep(f, g, steps, s, a, w.(dupAckCount := 1), 101, 200, 200, 100, {});
    steps, s := DupStep(f, g, steps, s, a, w.(dupAckCount := 2), 101, 200, 200, 100, {});
    w := Window(FastRecovery, 3, 0, 1, 3, g);
    if |f| >= 400 {
      var q;
      steps, s, q := SendStep(f, g, steps, s, w, 101, 200, 200, 100, {});
      steps, s, q := SendStep(f, g, steps, s, w.(notAcked := 2), 101, 300, 300, 100, {});
    } else {
      steps, s := SendUntilBlocked(f, g, steps, s, w, 101, 200, Good(200), 100, {});
    }
    w := w.(notAcked := s.snd.win.notAcked);
    steps, s, b := DataStep(f, g, steps, s, p, w, 101, s.snd.filePos, s.snd.msg, 100, {});
    steps, s := LeaveRecovery(f, g, steps, s, b);
  }

  lemma LeaveRecovery(f: string, g: int, steps: seq<Step>, s: System, b: Packet)
    returns (steps': seq<Step>, s': System)
    requires Reaches(f, g, steps, s) && s.clock == 0 && !s.finished && !Sending(s.snd)
    requires s.snd.win.mode == FastRecovery && s.snd.win.ssthresh == 0
    requires b in s.acks && b.ack && !b.fin && b.ackNum > s.snd.acked
    ensures Reaches(f, g, steps', s') && s'.snd.win.cwnd == 0
    ensures s'.snd.msg.Good? <==> s.snd.msg.Good?
  {
    hide Reaches;
    steps', s' := Next(f, g, steps, s, AckArrives(b, 0));
  }

  // ----- the files that are too short for it -----

  /** Below 200 bytes no new ack arrives outside slow start. */
  lemma StepKeepsOpen(f: string, s: System, step: Step)
    requires |f| < 200 && ShortInv(f, s) && Enabled(s, step) && s.snd.win.cwnd > 0
    ensures Apply(f, s, step, false).snd.win.cwnd > 0
  {
    hide StrLen, Blank, Canon, IsSegment, Read;
    if step.AckArrives? && !IsFinal(step.p) && IsNew(s.snd, step.p) {
      CanonFacts(f, s.got);
      FourBlocks(step.p.ackNum - 1);
      FourBlocks(s.snd.acked - 1);
    }
  }

  lemma {:induction false} RunKeepsOpen(f: string, s: System, steps: seq<Step>)
    requires |f| < 200 && ShortInv(f, s) && Runs(f, s, steps, false) && s.snd.win.cwnd > 0
    ensures Final(f, s, steps, false).snd.win.cwnd > 0
    decreases |steps|
  {
    hide ShortInv, Apply, Enabled;
    if steps != [] {
      StepKeepsOpen(f, s, steps[0]);
      StepKeepsShort(f, s, steps[0]);
      RunKeepsOpen(f, Apply(f, s, steps[0], false), steps[1..]);
    }
  }

  lemma BootStaysOpen(f: string, garbage: int, steps: seq<Step>)
    requires |f| < 200 && Runs(f, Boot(garbage), steps, false)
    ensures Final(f, Boot(garbage), steps, false).snd.win.cwnd != 0
  {
    hide ShortInv, Runs, Final;
    BootIsShort(f, garbage);
    RunKeepsOpen(f, Boot(garbage), steps);
  }

  /** There is no floor under the threshold: some run closes the window exactly when the file has at least 200 bytes. */
  lemma WindowClosesIff(f: string, garbage: int)
    ensures (exists steps :: Runs(f, Boot(garbage), steps, false)
                             && Final(f, Boot(garbage), steps, false).snd.win.cwnd == 0)
            <==> |f| >= 200
  {
    hide Runs, Final, Boot;
    if |f| >= 200 {
      var steps, s := CloseWindow(f, garbage);
      assert Runs(f, Boot(garbage), steps, false) && Final(f, Boot(garbage), steps, false).snd.win.cwnd == 0;
    } else {
      forall steps | Runs(f, Boot(garbage), steps, false)
        ensures Final(f, Boot(garbage), steps, false).snd.win.cwnd != 0
      {
        BootStaysOpen(f, garbage, steps);
      }
    }
  }

  // ----- closing it before the end of the file -----

  /** Below 400 bytes: a closed window finds the stream at its end, and in a recovery that will close the window
      the stream is ahead of what the recovery may send. */
  predicate Guarded(s: SenderState) {
    && (s.win.cwnd == 0 ==> s.msg.Failed?)
    && (s.win.mode == FastRecovery && s.win.ssthresh < 100 && s.msg.Good? ==>
          s.win.notAcked >= 1 && s.msg.pos >= 100 + 100 * s.win.notAcked)
  }

  /** A retransmission from a waiting sender of a short file leaves the stream at 200 or more, or failed. */
  lemma RetransmitAhead(f: string, s: System, now: nat)
    requires |f| < 400 && ShortInv(f, s) && s.snd.acked > 1 && !Sending(s.snd)
    ensures var m := Retransmit(f, s.snd, now).0.msg; m.Good? ==> m.pos >= 200
  {
    hide StrLen, Blank, Canon, IsSegment, Always;
    if InStep(f, s) && s.snd.msg.Good? {
      FourBlocks(if s.snd.filePos == |f| then 0 else s.snd.filePos);
    }
    FourBlocks(s.snd.acked - 1);
  }

  lemma AckKeepsGuarded(f: string, s: System, p: Packet, now: nat)
    requires |f| < 400 && ShortInv(f, s) && Guarded(s.snd) && Inv(s.snd.win) && Enabled(s, AckArrives(p, now))
    ensures Guarded(OnAck(f, s.snd, p, now).0)
  {
    hide StrLen, Blank, Canon, IsSegment, Read;
    if !IsFinal(p) && IsDup(s.snd, p) && ThirdDup(s.snd.win) {
      RetransmitAhead(f, s, now);
    }
  }

  lemma StepKeepsGuarded(f: string, s: System, step: Step)
    requires |f| < 400 && ShortInv(f, s) && Guarded(s.snd) && Inv(s.snd.win) && Enabled(s, step)
    ensures Guarded(Apply(f, s, step, false).snd)
  {
    hide StrLen, Blank, Canon, IsSegment, ShortInv, OnAck, Inv;
    if step.AckArrives? {
      AckKeepsGuarded(f, s, step.p, step.now);
    }
  }

  lemma {:induction false} RunKeepsGuarded(f: string, s: System, steps: seq<Step>)
    requires |f| < 400 && ShortInv(f, s) && Runs(f, s, steps, false)
    requires Guarded(s.snd) && Inv(s.snd.win) && Outstanding(s.snd.win)
    ensures Guarded(Final(f, s, steps, false).snd)
    decreases |steps|
  {
    hide ShortInv, Apply, Enabled, Guarded, Inv, Outstanding, OnEvent, EventsOf;
    if steps != [] {
      StepKeepsGuarded(f, s, steps[0]);
      StepKeepsShort(f, s, steps[0]);
      StepDrivesWindow(f, s, steps[0]);
      if EventsOf(s, steps[0]) != [] {
        StepKeeps(s.snd.win, EventsOf(s, steps[0])[0]);
      }
      RunKeepsGuarded(f, Apply(f, s, steps[0], false), steps[1..]);
    }
  }

  lemma BootIsGuarded(f: string, garbage: int, steps: seq<Step>)
    requires |f| < 400 && Runs(f, Boot(garbage), steps, false)
    ensures Guarded(Final(f, Boot(garbage), steps, false).snd)
  {
    hide ShortInv, Runs, Final;
    BootIsShort(f, garbage);
    RunKeepsGuarded(f, Boot(garbage), steps);
  }

  /** Some run closes the window with file data still to send exactly when the file has at least 400 bytes. */
  lemma WindowClosesEarlyIff(f: string, garbage: int)
    ensures (exists steps :: Runs(f, Boot(garbage), steps, false)
                             && Final(f, Boot(garbage), steps, false).snd.win.cwnd == 0
                             && Final(f, Boot(garbage), steps, false).snd.msg.Good?)
            <==> |f| >= 400
  {
    hide Runs, Final, Boot;
    if |f| >= 400 {
      var steps, s := CloseWindow(f, garbage);
      assert Runs(f, Boot(garbage), steps, false) && Final(f, Boot(garbage), steps, false).snd.win.cwnd == 0;
    } else {
      forall steps | Runs(f, Boot(garbage), steps, false)
        ensures Guarded(Final(f, Boot(garbage), steps, false).snd)
      {
        BootIsGuarded(f, garbage, steps);
      }
    }
  }
}
