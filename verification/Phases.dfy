/** What the sender does when packets are lost: fast retransmit, recovery and timeout inside the system. */
module Phases {
  import opened Segments
  import opened CongestionWindow
  import opened Sender
  import opened Protocol

  // ----- what is sent -----

  /** A retransmission leaves stream and filePosition_ together where the stream stood, even if that was the end of
      the file, unless the segment sent was itself the last. That also brings overtaken positions together. */
  lemma RetransmitReturns(f: string, s: SenderState, now: nat)
    requires s.acked - 1 <= |f|
    ensures var (s', p) := Retransmit(f, s, now);
            && p == Seg(f, s.acked - 1)
            && s'.filePos == (if s.msg.Good? then s.msg.pos else s.filePos)
            && s'.msg == (if IsLast(f, s.acked - 1) then Failed else Good(s'.filePos))
            && s'.win == OnSend(s.win) && s'.times == s.times[s.acked := now]
  {
    hide StrLen, Blank, Read;
    ReadSegment(f, s.acked - 1);
  }

  /** The sends that recovery allows at once when the third duplicate finds window c. */
  function Room(c: nat): nat {
    if c < 46 then 2 else if c < 48 then 1 else 0
  }

  /** The third duplicate ack re-sends the missing segment and then up to two more from where sending stood; at the
      end of the file that is the empty FIN packet. Re-sending the last segment ends the burst. */
  lemma FastRetransmit(f: string, s: SenderState, p: Packet, now: nat, later: nat)
    requires Placed(f, s) && !IsFinal(p) && IsDup(s, p) && ThirdDup(s.win)
    ensures var (s1, ps, status) := OnAck(f, s, p, now);
            var more, rest, room := SendAll(f, s1, later).1, AllSegs(f, s.filePos), Room(s.win.cwnd);
            && ps == [Seg(f, s.acked - 1)] && status == 0
            && s1.msg == (if IsLast(f, s.acked - 1) then Failed else Good(s.filePos)) && s1.filePos == s.filePos
            && more == (if IsLast(f, s.acked - 1) then [] else rest[..if room < |rest| then room else |rest|])
  {
    hide Retransmit, Seg, StrLen, Blank, Aligned;
    var s0 := s.(win := OnDupAck(s.win));
    RetransmitReturns(f, s0, now);
    var s1 := OnAck(f, s, p, now).0;
    if s1.msg.Good? {
      SendLoop(f, s1, later);
      CutNumbering(f, s.filePos);
    }
  }

  /** Third duplicate after the whole file was sent: one more FIN packet follows the missing segment. */
  lemma FastRetransmitAtEnd(f: string, s: SenderState, p: Packet, now: nat, later: nat)
    requires Placed(f, s) && !IsFinal(p) && IsDup(s, p) && ThirdDup(s.win)
    requires s.msg.Failed? && s.filePos == |f| && !IsLast(f, s.acked - 1)
    ensures var s1 := OnAck(f, s, p, now).0;
            && s1.msg == Good(|f|)
            && SendAll(f, s1, later).1 == if s.win.cwnd < 48 then [Seg(f, |f|)] else []
  {
    hide OnAck, SendAll, Seg;
    FastRetransmit(f, s, p, now, later);
    assert AllSegs(f, |f|) == [Seg(f, |f|)];
  }

  /** A timeout sends exactly the segment at the acked position again, whatever the two positions were. */
  lemma TimeoutResends(f: string, s: SenderState, now: nat)
    requires s.acked - 1 <= |f|
    ensures var (s', ps) := SendAll(f, TimeOut(s), now);
            && ps == [Seg(f, s.acked - 1)] && Synced(s')
            && s'.filePos == SegEnd(f, s.acked - 1) && s'.acked == s.acked
  {
    hide Seg;
    SendLoop(f, TimeOut(s), now);
    CutNumbering(f, s.acked - 1);
  }

  // ----- the window -----

  /** In every run the sender is in fast recovery exactly while three or more duplicates have come in a row; it then
      works with half of the window it had, opened by three and one for every later duplicate. */
  lemma RecoveryInEveryRun(f: string, garbage: int, steps: seq<Step>)
    requires Runs(f, Boot(garbage), steps, false)
    ensures var w, es := Final(f, Boot(garbage), steps, false).snd.win, Events(f, Boot(garbage), steps);
            && (w.mode == FastRecovery <==> DupRun(es) >= 3)
            && w == After(Fresh(garbage), es)
            && (w.mode == FastRecovery ==> exists i :: RecoveringSince(Fresh(garbage), es, i))
  {
    hide Apply, Enabled, RecoveringSince, DupRun;
    RunDrivesWindow(f, Boot(garbage), steps);
    var es := Events(f, Boot(garbage), steps);
    RecoveryIff(garbage, es);
    if After(Fresh(garbage), es).mode == FastRecovery {
      var i := RecoveryHalves(garbage, es);
    }
  }

  /** From a timeout on, as long as neither a duplicate nor another timeout comes, the window of the running system
      is the one that its new acks have regrown. */
  lemma TimeoutInEveryRun(f: string, s: System, steps: seq<Step>)
    requires Enabled(s, TimerExpires)
    requires var s1 := Apply(f, s, TimerExpires, false); Runs(f, s1, steps, false) && Smooth(Events(f, s1, steps))
    ensures var s1 := Apply(f, s, TimerExpires, false);
            var es := Events(f, s1, steps);
            Regrown(s.snd.win.cwnd, Final(f, s1, steps, false).snd.win, NewAcks(es), Sents(es))
  {
    hide Regrown, Events, Smooth, NewAcks, Sents;
    var s1 := Apply(f, s, TimerExpires, false);
    RunDrivesWindow(f, s1, steps);
    Regrowth(s.snd.win, Events(f, s1, steps));
  }
}
