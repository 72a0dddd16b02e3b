/** transmit() inside the system: its executions are runs, so what holds of every run holds of the object. */
module Executions {
  import opened Segments
  import opened CongestionWindow
  import opened Receiver
  import opened Sender
  import opened Protocol
  import opened Overtaking
  import opened ShortFiles

  /** One pass of transmit's loop: what receiver and network do after the burst, and what ends the wait. */
  datatype Pass = Pass(env: seq<Step>, input: Input)

  function Inputs(passes: seq<Pass>): (inputs: seq<Input>)
    ensures |inputs| == |passes| && forall i :: 0 <= i < |passes| ==> inputs[i] == passes[i].input
  {
    if passes == [] then [] else [passes[0].input] + Inputs(passes[1..])
  }

  /** A step in which the sender has no part. */
  predicate Outside(step: Step) {
    step.DataArrives? || NetworkStep(step)
  }

  function Sends(now: nat, n: nat): seq<Step> {
    if n == 0 then [] else [Send(now)] + Sends(now, n - 1)
  }

  /** As many sends as the send loop makes. */
  function BurstSteps(f: string, s: SenderState, now: nat): seq<Step> {
    Sends(now, |SendAll(f, s, now).1|)
  }

  function Wake(i: Input): Step {
    match i
    case Arrival(_, now, p) => AckArrives(p, now)
    case Silence(_) => TimerExpires
  }

  ghost function BeforeWake(f: string, s: System, p: Pass): System {
    Final(f, Final(f, s, BurstSteps(f, s.snd, p.input.sendTime), false), p.env, false)
  }

  ghost function AfterPass(f: string, s: System, p: Pass): System {
    Apply(f, BeforeWake(f, s, p), Wake(p.input), false)
  }

  /** The clock does not run backwards, and what arrives is in flight. */
  ghost predicate Feasible(f: string, s: System, p: Pass) {
    && s.clock <= p.input.sendTime
    && (forall e :: e in p.env ==> Outside(e))
    && Runs(f, Final(f, s, BurstSteps(f, s.snd, p.input.sendTime), false), p.env, false)
    && (p.input.Arrival? ==>
          p.input.packet in BeforeWake(f, s, p).acks && BeforeWake(f, s, p).clock <= p.input.receiveTime)
  }

  /** The passes can happen one after the other, until transmit returns. */
  ghost predicate Feeds(f: string, s: System, passes: seq<Pass>)
    decreases |passes|
  {
    s.finished || passes == [] || (Feasible(f, s, passes[0]) && Feeds(f, AfterPass(f, s, passes[0]), passes[1..]))
  }

  ghost function Schedule(f: string, s: System, passes: seq<Pass>): seq<Step>
    decreases |passes|
  {
    if s.finished || passes == [] then []
    else
      BurstSteps(f, s.snd, passes[0].input.sendTime) + passes[0].env + [Wake(passes[0].input)]
      + Schedule(f, AfterPass(f, s, passes[0]), passes[1..])
  }

  /** The packets that the sender hands to the socket in a run. */
  ghost function SentIn(f: string, s: System, steps: seq<Step>): seq<Packet>
    decreases |steps|
  {
    if steps == [] then []
    else
      (match steps[0]
       case Send(now) => [SendNext(f, s.snd, now).1]
       case AckArrives(p, now) => OnAck(f, s.snd, p, now).1
       case _ => [])
      + SentIn(f, Apply(f, s, steps[0], false), steps[1..])
  }

  lemma {:induction false} Append(f: string, s: System, a: seq<Step>, b: seq<Step>)
    requires Runs(f, s, a, false) && Runs(f, Final(f, s, a, false), b, false)
    ensures Runs(f, s, a + b, false)
    ensures Final(f, s, a + b, false) == Final(f, Final(f, s, a, false), b, false)
    ensures SentIn(f, s, a + b) == SentIn(f, s, a) + SentIn(f, Final(f, s, a, false), b)
    decreases |a|
  {
    hide Apply, Enabled;
    if a == [] {
      assert a + b == b;
    } else {
      assert (a + b)[1..] == a[1..] + b;
      Append(f, Apply(f, s, a[0], false), a[1..], b);
    }
  }

  lemma {:induction false} BurstIsARun(f: string, s: System, now: nat)
    requires !s.finished && s.clock <= now
    ensures var (snd, ps) := SendAll(f, s.snd, now);
            var steps := BurstSteps(f, s.snd, now);
            && Runs(f, s, steps, false) && SentIn(f, s, steps) == ps
            && Final(f, s, steps, false).snd == snd && !Sending(snd) && !Final(f, s, steps, false).finished
    decreases MAX_NOT_ACKED - s.snd.win.notAcked
  {
    hide SendNext;
    if Sending(s.snd) {
      var s1 := Apply(f, s, Send(now), false);
      assert s1.snd.win == OnSend(s.snd.win) by { SendCounts(f, s.snd, now); }
      BurstIsARun(f, s1, now);
      assert BurstSteps(f, s.snd, now) == [Send(now)] + BurstSteps(f, s1.snd, now);
    }
  }

  lemma SendCounts(f: string, s: SenderState, now: nat)
    ensures SendNext(f, s, now).0.win == OnSend(s.win)
  {
    hide StrLen, Blank, Read;
  }

  lemma OutsideStep(f: string, s: System, step: Step)
    requires Outside(step)
    ensures var s' := Apply(f, s, step, false);
            && s'.snd == s.snd && s'.finished == s.finished && s'.clock == s.clock
            && !step.Send? && !step.AckArrives?
  {
    hide OnPacket;
  }

  lemma {:induction false} OutsideKeepsSender(f: string, s: System, env: seq<Step>)
    requires Runs(f, s, env, false) && forall e :: e in env ==> Outside(e)
    ensures var s' := Final(f, s, env, false); s'.snd == s.snd && s'.finished == s.finished
    ensures SentIn(f, s, env) == []
    decreases |env|
  {
    hide Apply, Outside, Enabled;
    if env != [] {
      assert env[0] in env;
      OutsideStep(f, s, env[0]);
      OutsideKeepsSender(f, Apply(f, s, env[0], false), env[1..]);
    }
  }

  /** One pass of transmit's loop is a stretch of a run. */
  lemma PassIsARun(f: string, s: System, p: Pass)
    requires !s.finished && Feasible(f, s, p)
    ensures var steps := BurstSteps(f, s.snd, p.input.sendTime) + p.env + [Wake(p.input)];
            var (snd, ps) := SendAll(f, s.snd, p.input.sendTime);
            var (snd', qs, status) := React(f, snd, p.input);
            && Runs(f, s, steps, false) && Final(f, s, steps, false) == AfterPass(f, s, p)
            && SentIn(f, s, steps) == ps + qs
            && AfterPass(f, s, p).snd == snd' && (AfterPass(f, s, p).finished <==> status == 1)
  {
    hide SendAll, React, BurstSteps, Runs, Final, SentIn, Apply, Outside, Sending;
    var burst := BurstSteps(f, s.snd, p.input.sendTime);
    BurstIsARun(f, s, p.input.sendTime);
    OutsideKeepsSender(f, Final(f, s, burst, false), p.env);
    Append(f, s, burst, p.env);
    WakeIsARun(f, BeforeWake(f, s, p), p.input);
    Append(f, s, burst + p.env, [Wake(p.input)]);
  }

  lemma WakeIsARun(f: string, s: System, input: Input)
    requires !s.finished && !Sending(s.snd)
    requires input.Arrival? ==> input.packet in s.acks && s.clock <= input.receiveTime
    ensures var steps, s' := [Wake(input)], Apply(f, s, Wake(input), false);
            var (snd, qs, status) := React(f, s.snd, input);
            && Runs(f, s, steps, false) && Final(f, s, steps, false) == s' && SentIn(f, s, steps) == qs
            && s'.snd == snd && (s'.finished <==> status == 1)
  {
    hide OnAck, OnTimeout;
    var s' := Apply(f, s, Wake(input), false);
    assert [Wake(input)][1..] == [];
    assert Final(f, s', [], false) == s' && SentIn(f, s', []) == [];
  }

  /** Whatever the network delivers to transmit(), its execution is a run of the system: same packets sent,
      same final state of the sender, and true exactly when the run has finished. */
  lemma {:induction false} TransmitIsARun(f: string, s: System, passes: seq<Pass>)
    requires !s.finished && Feeds(f, s, passes)
    ensures var steps := Schedule(f, s, passes);
            var (snd, ps, finished) := TransmitAll(f, s.snd, Inputs(passes));
            && Runs(f, s, steps, false) && SentIn(f, s, steps) == ps
            && Final(f, s, steps, false).snd == snd && Final(f, s, steps, false).finished == finished
    decreases |passes|
  {
    hide SendAll, React, BurstSteps, AfterPass, Feasible, Apply;
    if passes != [] {
      var p, s1, rest := passes[0], AfterPass(f, s, passes[0]), passes[1..];
      assert Inputs(passes)[1..] == Inputs(rest);
      var steps := BurstSteps(f, s.snd, p.input.sendTime) + p.env + [Wake(p.input)];
      PassIsARun(f, s, p);
      if s1.finished {
        assert steps + [] == steps;
      } else {
        TransmitIsARun(f, s1, rest);
        Append(f, s, steps, Schedule(f, s1, rest));
      }
    }
  }

  // ----- and runs are executions -----

  /** The state once the send loop has stopped. */
  ghost function Ahead(f: string, s: System): System {
    Final(f, s, BurstSteps(f, s.snd, s.clock), false)
  }

  lemma AheadOfSend(f: string, s: System)
    requires Sending(s.snd)
    ensures Ahead(f, Apply(f, s, Send(s.clock), false)) == Ahead(f, s)
  {
    hide SendNext;
  }

  /** Sending does not disturb a step in which the sender has no part. */
  lemma SendCommutes(f: string, s: System, e: Step)
    requires Outside(e) && Enabled(s, e)
    ensures var s1, s2 := Apply(f, s, Send(s.clock), false), Apply(f, s, e, false);
            Enabled(s1, e) && Apply(f, s1, e, false) == Apply(f, s2, Send(s.clock), false)
  {
    hide SendNext, OnPacket;
    var p := SendNext(f, s.snd, s.clock).1;
    if e.DataArrives? || e.LoseData? {
      assert s.data + multiset{p} - multiset{e.p} == s.data - multiset{e.p} + multiset{p};
    } else if e.CopyData? {
      assert s.data + multiset{p} + multiset{e.p} == s.data + multiset{e.p} + multiset{p};
    }
  }

  lemma {:induction false} BurstCommutes(f: string, s: System, e: Step)
    requires Outside(e) && Enabled(s, e)
    ensures Enabled(Ahead(f, s), e) && Apply(f, Ahead(f, s), e, false) == Ahead(f, Apply(f, s, e, false))
    decreases MAX_NOT_ACKED - s.snd.win.notAcked
  {
    var s1, s2 := Apply(f, s, Send(s.clock), false), Apply(f, s, e, false);
    assert s2.snd == s.snd && s2.clock == s.clock by { OutsideStep(f, s, e); }
    assert s1.snd == SendNext(f, s.snd, s.clock).0 && s1.clock == s.clock;
    hide Apply, SendNext, Enabled, Outside;
    if Sending(s.snd) {
      SendCounts(f, s.snd, s.clock);
      SendCommutes(f, s, e);
      BurstCommutes(f, s1, e);
      AheadOfSend(f, s);
      AheadOfSend(f, s2);
    }
  }

  lemma {:induction false} ClockRunsOn(f: string, s: System, steps: seq<Step>)
    requires Runs(f, s, steps, false)
    ensures Final(f, s, steps, false).clock >= s.clock
    decreases |steps|
  {
    hide SendNext, OnAck, OnPacket, OnTimeout;
    if steps != [] {
      ClockRunsOn(f, Apply(f, s, steps[0], false), steps[1..]);
    }
  }

  /** Once transmit has returned nothing more is received. */
  lemma {:induction false} FinishedKeepsData(f: string, s: System, steps: seq<Step>)
    requires Runs(f, s, steps, false) && s.finished && s.rcv.fin
    ensures Final(f, s, steps, false).rcv == s.rcv
    decreases |steps|
  {
    hide SendNext, OnAck, OnPacket, OnTimeout;
    if steps != [] {
      FinishedKeepsData(f, Apply(f, s, steps[0], false), steps[1..]);
    }
  }

  /** The start of a pass, and where it stands: what the network did so far, with the burst made first. */
  ghost predicate InPass(f: string, start: System, env: seq<Step>, s: System) {
    && Always(s) && !start.finished && !s.finished && s.clock == start.clock
    && (forall e :: e in env ==> Outside(e))
    && Runs(f, Ahead(f, start), env, false) && Final(f, Ahead(f, start), env, false) == Ahead(f, s)
  }

  lemma OneStep(f: string, s: System, e: Step)
    requires Enabled(s, e)
    ensures Runs(f, s, [e], false) && Final(f, s, [e], false) == Apply(f, s, e, false)
  {
    hide Apply, Enabled;
    assert [e][1..] == [];
  }

  /** The network's next step comes after the burst as well. */
  lemma PassGoesOn(f: string, start: System, env: seq<Step>, s: System, e: Step)
    requires InPass(f, start, env, s) && Outside(e) && Enabled(s, e)
    ensures InPass(f, start, env + [e], Apply(f, s, e, false))
  {
    hide Always, Ahead, Apply, Outside, Enabled, Runs, Final, SentIn;
    OutsideStep(f, s, e);
    StepKeepsAlways(f, s, e, false);
    BurstCommutes(f, s, e);
    OneStep(f, Ahead(f, s), e);
    Append(f, Ahead(f, start), env, [e]);
  }

  /** The step that ends the wait ends the pass. */
  lemma PassEnds(f: string, start: System, env: seq<Step>, s: System, input: Input)
    requires InPass(f, start, env, s) && Enabled(s, Wake(input)) && input.sendTime == s.clock
    ensures Feasible(f, start, Pass(env, input))
    ensures AfterPass(f, start, Pass(env, input)) == Apply(f, s, Wake(input), false)
  {
    hide Always, Apply, Outside;
    assert Ahead(f, s) == s;
  }

  lemma OnePass(f: string, s: System, p: Pass)
    requires !s.finished && Feasible(f, s, p) && AfterPass(f, s, p).finished
    ensures Feeds(f, s, [p]) && Final(f, s, Schedule(f, s, [p]), false) == AfterPass(f, s, p)
  {
    hide BurstSteps, AfterPass, Feasible, Apply, Runs, Final, SendAll, React;
    PassIsARun(f, s, p);
    var steps := BurstSteps(f, s.snd, p.input.sendTime) + p.env + [Wake(p.input)];
    assert [p][1..] == [] && steps + [] == steps;
  }

  lemma MorePasses(f: string, s: System, p: Pass, rest: seq<Pass>)
    requires !s.finished && Feasible(f, s, p) && !AfterPass(f, s, p).finished && Feeds(f, AfterPass(f, s, p), rest)
    ensures Feeds(f, s, [p] + rest)
    ensures var s1 := AfterPass(f, s, p);
            Final(f, s, Schedule(f, s, [p] + rest), false) == Final(f, s1, Schedule(f, s1, rest), false)
  {
    var s1 := AfterPass(f, s, p);
    hide BurstSteps, AfterPass, Feasible, Apply, Runs, Final, SendAll, React;
    PassIsARun(f, s, p);
    var steps := BurstSteps(f, s.snd, p.input.sendTime) + p.env + [Wake(p.input)];
    assert ([p] + rest)[1..] == rest;
    TransmitIsARun(f, s1, rest);
    Append(f, s, steps, Schedule(f, s1, rest));
  }

  /** Making every burst at once, a finished run becomes an execution of transmit with the same data received. */
  lemma {:induction false} RunIsTransmit(f: string, start: System, env: seq<Step>, s: System, steps: seq<Step>)
    returns (passes: seq<Pass>)
    requires InPass(f, start, env, s) && Runs(f, s, steps, false)
    requires Final(f, s, steps, false).finished && Final(f, s, steps, false).clock == s.clock
    ensures Feeds(f, start, passes)
    ensures var z := Final(f, start, Schedule(f, start, passes), false);
            z.finished && z.rcv == Final(f, s, steps, false).rcv
    decreases |steps|
  {
    var s1 := Apply(f, s, steps[0], false);
    ClockRunsOn(f, s1, steps[1..]);
    StepKeepsAlways(f, s, steps[0], false);
    match steps[0]
    case Send(now) =>
      AheadOfSend(f, s);
      passes := RunIsTransmit(f, start, env, s1, steps[1..]);
    case AckArrives(p, now) =>
      passes := AfterWake(f, start, env, s, steps, Arrival(s.clock, now, p));
    case TimerExpires =>
      passes := AfterWake(f, start, env, s, steps, Silence(s.clock));
    case e =>
      PassGoesOn(f, start, env, s, e);
      passes := RunIsTransmit(f, start, env + [e], s1, steps[1..]);
  }

  lemma {:induction false} AfterWake(f: string, start: System, env: seq<Step>, s: System, steps: seq<Step>, i: Input)
    returns (passes: seq<Pass>)
    requires InPass(f, start, env, s) && Runs(f, s, steps, false)
    requires Final(f, s, steps, false).finished && Final(f, s, steps, false).clock == s.clock
    requires steps != [] && steps[0] == Wake(i) && i.sendTime == s.clock
    ensures Feeds(f, start, passes)
    ensures var z := Final(f, start, Schedule(f, start, passes), false);
            z.finished && z.rcv == Final(f, s, steps, false).rcv
    decreases |steps|, 0
  {
    var s1, p := Apply(f, s, steps[0], false), Pass(env, i);
    ClockRunsOn(f, s1, steps[1..]);
    StepKeepsAlways(f, s, steps[0], false);
    PassEnds(f, start, env, s, i);
    if s1.finished {
      FinishedKeepsData(f, s1, steps[1..]);
      OnePass(f, start, p);
      passes := [p];
    } else {
      var rest := RunIsTransmit(f, s1, [], s1, steps[1..]);
      MorePasses(f, start, p, rest);
      passes := [p] + rest;
    }
  }

  /** A whole transfer by the sender object: when transmit returns true, the receiver has what the segments of the
      file carry, for every file below 400 bytes and, for longer files, if no ack overtook. */
  method Transfer(f: string, garbage: int, passes: seq<Pass>) returns (finished: bool)
    requires Feeds(f, Boot(garbage), passes)
    ensures var s := Final(f, Boot(garbage), Schedule(f, Boot(garbage), passes), false);
            && finished == s.finished
            && (finished ==> s.rcv.fin)
            && (finished && |f| < 400 ==> s.rcv.recvData == Delivered(f))
            && (finished && NoneOvertakes(f, Boot(garbage), Schedule(f, Boot(garbage), passes), false) ==>
                  s.rcv.recvData == Delivered(f))
  {
    hide Apply, Enabled, Schedule, TransmitAll, IsSegment;
    var sender := new SenderStateMachine(f, garbage);
    finished := sender.Transmit(Inputs(passes));
    TransmitIsARun(f, Boot(garbage), passes);
    ghost var steps := Schedule(f, Boot(garbage), passes);
    AcksAreHonest(f, garbage, steps, 0);
    if |f| < 400 {
      ShortFilesAreSound(f, garbage, steps);
    }
    if NoneOvertakes(f, Boot(garbage), steps, false) {
      Safety(f, garbage, steps, false);
    }
  }

  /** The result, for transmit itself: a true return means that the receiver has what the segments of the file
      carry, exactly when the file has less than 400 bytes. */
  lemma TransmitSafeIffShort(f: string, garbage: int)
    ensures (forall passes :: Feeds(f, Boot(garbage), passes) && TransmitAll(f, Start(garbage), Inputs(passes)).2 ==>
               Final(f, Boot(garbage), Schedule(f, Boot(garbage), passes), false).rcv.recvData == Delivered(f))
            <==> |f| < 400
  {
    hide Apply, Enabled, Schedule, TransmitAll, Delivered;
    if |f| < 400 {
      forall passes | Feeds(f, Boot(garbage), passes) && TransmitAll(f, Start(garbage), Inputs(passes)).2
        ensures Final(f, Boot(garbage), Schedule(f, Boot(garbage), passes), false).rcv.recvData == Delivered(f)
      {
        TransmitIsARun(f, Boot(garbage), passes);
        ShortFilesAreSound(f, garbage, Schedule(f, Boot(garbage), passes));
      }
    } else {
      var s := Boot(garbage);
      var steps := CodeLosesBytes(f, garbage);
      var passes := RunIsTransmit(f, s, [], s, steps);
      TransmitIsARun(f, s, passes);
      assert |Final(f, s, Schedule(f, s, passes), false).rcv.recvData| < |Delivered(f)|;
    }
  }
}
