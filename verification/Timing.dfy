/** The round-trip estimator of the sender inside the system. */
module Timing {
  import opened Segments
  import opened CongestionWindow
  import opened RoundTrip
  import opened Sender
  import opened Protocol

  /** The receive and send time that a step gives the estimator: those of a new ack below FIN. */
  ghost function Measured(s: System, step: Step): seq<(nat, nat)> {
    if step.AckArrives? && !IsFinal(step.p) && IsNew(s.snd, step.p) && step.p.seqNum in s.snd.times then
      [(step.now, s.snd.times[step.p.seqNum])]
    else []
  }

  ghost function Trace(f: string, s: System, steps: seq<Step>): seq<(nat, nat)>
    decreases |steps|
  {
    if steps == [] then [] else Measured(s, steps[0]) + Trace(f, Apply(f, s, steps[0], false), steps[1..])
  }

  /** How many new acks below FIN reach the sender. */
  ghost function NewAcks(f: string, s: System, steps: seq<Step>): nat
    decreases |steps|
  {
    if steps == [] then 0
    else
      (if steps[0].AckArrives? && !IsFinal(steps[0].p) && IsNew(s.snd, steps[0].p) then 1 else 0)
      + NewAcks(f, Apply(f, s, steps[0], false), steps[1..])
  }

  lemma RetransmitKeepsRtt(f: string, s: SenderState, now: nat)
    ensures Retransmit(f, s, now).0.rtt == s.rtt
  {
    hide StrLen, Blank, Read;
  }

  lemma StepMeasures(f: string, s: System, step: Step)
    requires Always(s) && Enabled(s, step)
    ensures var s', m := Apply(f, s, step, false), Measured(s, step);
            && s'.snd.rtt == Updates(s.snd.rtt, m)
            && s.clock <= s'.clock
            && (forall x :: x in m ==> x.1 <= x.0 <= s'.clock)
            && |m| == if step.AckArrives? && !IsFinal(step.p) && IsNew(s.snd, step.p) then 1 else 0
  {
    hide StrLen, Blank, Read, Update, Retransmit, OnDupAck, OnNewAck;
    if step.AckArrives? {
      RetransmitKeepsRtt(f, s.snd.(win := OnDupAck(s.snd.win)), step.now);
      var m := Measured(s, step);
      if m != [] {
        assert m[1..] == [];
        assert Updates(s.snd.rtt, m) == Update(s.snd.rtt, m[0].0, m[0].1);
      }
    }
  }

  lemma {:induction false} UpdatesConcat(r: Rtt, a: seq<(nat, nat)>, b: seq<(nat, nat)>)
    ensures Updates(r, a + b) == Updates(Updates(r, a), b)
    decreases |a|
  {
    hide Update;
    if a == [] {
      assert a + b == b;
    } else {
      assert (a + b)[1..] == a[1..] + b;
      UpdatesConcat(Update(r, a[0].0, a[0].1), a[1..], b);
    }
  }

  lemma {:induction false} RunMeasures(f: string, s: System, steps: seq<Step>)
    requires Always(s) && Runs(f, s, steps, false)
    ensures var s', t := Final(f, s, steps, false), Trace(f, s, steps);
            && s'.snd.rtt == Updates(s.snd.rtt, t)
            && s.clock <= s'.clock
            && (forall x :: x in t ==> x.1 <= x.0 <= s'.clock)
            && |t| == NewAcks(f, s, steps)
    decreases |steps|
  {
    hide Always, Apply, Enabled, Measured, Updates;
    if steps == [] {
      assert Updates(s.snd.rtt, []) == s.snd.rtt by { UpdatesNone(s.snd.rtt); }
    } else {
      var s1 := Apply(f, s, steps[0], false);
      StepMeasures(f, s, steps[0]);
      StepKeepsAlways(f, s, steps[0], false);
      RunMeasures(f, s1, steps[1..]);
      UpdatesConcat(s.snd.rtt, Measured(s, steps[0]), Trace(f, s1, steps[1..]));
    }
  }

  lemma UpdatesNone(r: Rtt)
    ensures Updates(r, []) == r
  {
  }

  lemma {:induction false} IntervalOf(r: Rtt, acks: seq<(nat, nat)>)
    ensures var r' := Updates(r, acks);
            r'.timeoutInterval == if acks == [] then r.timeoutInterval else r'.estimated + 4 * r'.deviation
    decreases |acks|
  {
    hide Blend;
    if acks != [] {
      IntervalOf(Update(r, acks[0].0, acks[0].1), acks[1..]);
    }
  }

  lemma {:induction false} SamplesIn(acks: seq<(nat, nat)>, lo: int, hi: int)
    requires forall x :: x in acks ==> lo <= x.0 - x.1 <= hi
    ensures forall s :: s in Samples(acks) ==> lo <= s <= hi
    decreases |acks|
  {
    if acks != [] {
      assert acks[0] in acks;
      SamplesIn(acks[1..], lo, hi);
    }
  }

  function Lower(a: int, b: int): int {
    if a < b then a else b
  }

  /** In every run that ends before the clock overflows, the sender's estimates are the two filters over the elapsed
      times of the run's new acks, one for each: none is missing and none is negative. So they stay within the
      range of those times widened by 100 ms and 20 ms, their starts. */
  lemma EstimatesInEveryRun(f: string, garbage: int, steps: seq<Step>, lo: int, hi: int)
    requires Runs(f, Boot(garbage), steps, false) && Final(f, Boot(garbage), steps, false).clock < ULONG
    requires forall x :: x in Trace(f, Boot(garbage), steps) ==> lo <= x.0 - x.1 <= hi
    ensures var t, r := Trace(f, Boot(garbage), steps), Final(f, Boot(garbage), steps, false).snd.rtt;
            && |t| == NewAcks(f, Boot(garbage), steps) && (forall x :: x in t ==> x.1 <= x.0)
            && r.estimated == Moves(100000, Samples(t), 8) && r.deviation == Moves(20000, Samples(t), 4)
            && Lower(lo, 100000) <= r.estimated <= Max(hi, 100000)
            && Lower(lo, 20000) <= r.deviation <= Max(hi, 20000)
            && r.timeoutInterval == if t == [] then 100000 else r.estimated + 4 * r.deviation
  {
    hide Apply, Enabled, Update, Moves, Runs, Final, Trace, NewAcks;
    var t := Trace(f, Boot(garbage), steps);
    RunMeasures(f, Boot(garbage), steps);
    assert forall i :: 0 <= i < |t| ==> t[i] in t;
    UpdatesAreMoves(RoundTrip.INITIAL, t);
    IntervalOf(RoundTrip.INITIAL, t);
    SamplesIn(t, lo, hi);
    StaysInRange(100000, Samples(t), 8, Lower(lo, 100000), Max(hi, 100000));
    StaysInRange(20000, Samples(t), 4, Lower(lo, 20000), Max(hi, 20000));
  }

  // ----- the recorded times -----

  /** What a step hands to the socket, and when. */
  function SentAt(f: string, s: System, step: Step): seq<(Packet, nat)> {
    match step
    case Send(now) => [(SendNext(f, s.snd, now).1, now)]
    case AckArrives(p, now) =>
      var ps := OnAck(f, s.snd, p, now).1;
      seq(|ps|, i requires 0 <= i < |ps| => (ps[i], now))
    case _ => []
  }

  ghost function SendLog(f: string, s: System, steps: seq<Step>): seq<(Packet, nat)>
    decreases |steps|
  {
    if steps == [] then [] else SentAt(f, s, steps[0]) + SendLog(f, Apply(f, s, steps[0], false), steps[1..])
  }

  /** Entering a log into a table of times. */
  function Book(times: map<nat, nat>, log: seq<(Packet, nat)>): map<nat, nat> {
    if log == [] then times
    else
      var last := log[|log| - 1];
      Book(times, log[..|log| - 1])[last.0.seqNum := last.1]
  }

  lemma {:induction false} BookConcat(times: map<nat, nat>, a: seq<(Packet, nat)>, b: seq<(Packet, nat)>)
    ensures Book(times, a + b) == Book(Book(times, a), b)
    decreases |b|
  {
    if b == [] {
      assert a + b == a;
    } else {
      assert (a + b)[..|a + b| - 1] == a + b[..|b| - 1];
      BookConcat(times, a, b[..|b| - 1]);
    }
  }

  lemma RetransmitBooks(f: string, s: SenderState, now: nat)
    ensures var (s', p) := Retransmit(f, s, now); s'.times == s.times[p.seqNum := now]
  {
    hide StrLen, Blank, Read;
  }

  lemma BookOne(times: map<nat, nat>, p: Packet, now: nat)
    ensures Book(times, [(p, now)]) == times[p.seqNum := now]
  {
    assert [(p, now)][..0] == [];
  }

  lemma AckBooks(f: string, s: System, p: Packet, now: nat)
    ensures OnAck(f, s.snd, p, now).0.times == Book(s.snd.times, SentAt(f, s, AckArrives(p, now)))
  {
    hide Retransmit, OnDupAck, OnNewAck, Update;
    var log := SentAt(f, s, AckArrives(p, now));
    if log != [] {
      var s1 := s.snd.(win := OnDupAck(s.snd.win));
      RetransmitBooks(f, s1, now);
      BookOne(s.snd.times, Retransmit(f, s1, now).1, now);
      assert log == [(Retransmit(f, s1, now).1, now)];
    }
  }

  lemma StepBooks(f: string, s: System, step: Step)
    ensures Apply(f, s, step, false).snd.times == Book(s.snd.times, SentAt(f, s, step))
  {
    hide StrLen, Blank, Read, OnAck;
    match step
    case Send(now) => hide Book; BookOne(s.snd.times, SendNext(f, s.snd, now).1, now);
    case AckArrives(p, now) => hide Book, SentAt; AckBooks(f, s, p, now);
    case _ =>
  }

  lemma {:induction false} RunBooks(f: string, s: System, steps: seq<Step>)
    ensures Final(f, s, steps, false).snd.times == Book(s.snd.times, SendLog(f, s, steps))
    decreases |steps|
  {
    hide Apply, SentAt;
    if steps != [] {
      StepBooks(f, s, steps[0]);
      var s1 := Apply(f, s, steps[0], false);
      RunBooks(f, s1, steps[1..]);
      BookConcat(s.snd.times, SentAt(f, s, steps[0]), SendLog(f, s1, steps[1..]));
    }
  }

  /** Entry i of the log is the last for sequence number k. */
  predicate LastFor(log: seq<(Packet, nat)>, k: nat, i: nat) {
    && i < |log| && log[i].0.seqNum == k
    && forall j :: i < j < |log| ==> log[j].0.seqNum != k
  }

  lemma {:induction false} BookedLast(times: map<nat, nat>, log: seq<(Packet, nat)>, k: nat)
    ensures k in Book(times, log) <==> k in times || exists i :: 0 <= i < |log| && log[i].0.seqNum == k
    ensures forall i: nat :: LastFor(log, k, i) ==> Book(times, log)[k] == log[i].1
    decreases |log|
  {
    if log != [] {
      var before := log[..|log| - 1];
      BookedLast(times, before, k);
      forall i: nat | LastFor(log, k, i) ensures Book(times, log)[k] == log[i].1 {
        if i < |before| {
          assert log[|log| - 1].0.seqNum != k;
          assert LastFor(before, k, i);
        }
      }
    }
  }

  /** The time recorded for a sequence number is that of the last packet sent under it, and there is one for exactly
      the numbers sent: after a retransmission the ack is measured from the retransmission. */
  lemma TimesAreLastSends(f: string, garbage: int, steps: seq<Step>, k: nat)
    requires Runs(f, Boot(garbage), steps, false)
    ensures var times, log := Final(f, Boot(garbage), steps, false).snd.times, SendLog(f, Boot(garbage), steps);
            && (k in times <==> exists i :: 0 <= i < |log| && log[i].0.seqNum == k)
            && forall i: nat :: LastFor(log, k, i) ==> k in times && times[k] == log[i].1
  {
    RunBooks(f, Boot(garbage), steps);
    BookedLast(map[], SendLog(f, Boot(garbage), steps), k);
  }
}
