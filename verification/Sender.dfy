/** The sending end (MP2/sender_state_machine.cpp). */
module Sender {
  import opened Segments
  import opened CongestionWindow
  import opened RoundTrip

  /** The input file stream: where it stands, or that a read hit the end of the file. */
  datatype Stream = Good(pos: nat) | Failed

  function Tellg(m: Stream): int {
    if m.Good? then m.pos else -1
  }

  /** Seeking does not revive a stream whose failbit is set. */
  function Seekg(m: Stream, pos: nat): Stream {
    if m.Good? then Good(pos) else Failed
  }

  /** read(buffer, 100): the bytes got, and the stream afterwards. */
  function Read(f: string, m: Stream): (string, Stream) {
    if m.Good? && m.pos + 100 <= |f| then (f[m.pos..m.pos + 100], Good(m.pos + 100))
    else (if m.Good? && m.pos <= |f| then f[m.pos..] else "", Failed)
  }

  type Position = n: nat | n > 0 witness 1

  datatype SenderState = SenderState(
    win: Window,
    acked: Position,           // 1-based position of the next byte the receiver wants
    filePos: nat,
    msg: Stream,
    times: map<nat, nat>,      // when each sequence number was last sent
    rtt: Rtt)

  function Start(garbage: int): SenderState {
    SenderState(Fresh(garbage), 1, 0, Good(0), map[], INITIAL)
  }

  // ----- sending -----

  /** sendData: number the payload by filePos, remember the time, count it as outstanding. */
  function Emit(s: SenderState, data: string, now: nat): (SenderState, Packet) {
    var num := s.filePos + 1;
    (s.(times := s.times[num := now], win := OnSend(s.win)), Packet(num, 0, false, s.msg.Failed?, Blank(data)))
  }

  /** One pass of the send loop. */
  function SendNext(f: string, s: SenderState, now: nat): (SenderState, Packet) {
    var (data, m) := Read(f, s.msg);
    var (s1, p) := Emit(s.(msg := m), data, now);
    (s1.(filePos := s1.filePos + |data|), p)
  }

  predicate Sending(s: SenderState) {
    s.msg.Good? && CanSend(s.win)
  }

  /** The send loop. */
  function SendAll(f: string, s: SenderState, now: nat): (SenderState, seq<Packet>)
    decreases MAX_NOT_ACKED - s.win.notAcked
  {
    if !Sending(s) then (s, [])
    else
      var (s1, p) := SendNext(f, s, now);
      var (s2, ps) := SendAll(f, s1, now);
      (s2, [p] + ps)
  }

  /** retransmitMissingSegment: send the segment at the acked position, then return to where sending stood. */
  function Retransmit(f: string, s: SenderState, now: nat): (SenderState, Packet) {
    var start := if s.msg.Failed? then s.filePos else s.msg.pos;
    var (data, m) := Read(f, Good(s.acked - 1));
    var (s1, p) := Emit(s.(msg := m, filePos := s.acked - 1), data, now);
    (s1.(msg := Seekg(m, start), filePos := start), p)
  }

  // ----- receiving -----

  predicate IsFinal(p: Packet) {
    p.fin && p.ack
  }

  predicate IsDup(s: SenderState, p: Packet) {
    p.ack && s.acked >= p.ackNum
  }

  predicate IsNew(s: SenderState, p: Packet) {
    p.ack && s.acked < p.ackNum
  }

  /** newAck, for an ack that is new; dupAckCount_ is reset by OnNewAck. */
  function TakeNewAck(s: SenderState, p: Packet, now: nat): SenderState
    requires IsNew(s, p)
  {
    s.(rtt := if p.seqNum in s.times then Update(s.rtt, now, s.times[p.seqNum]) else s.rtt,
       acked := p.ackNum,
       msg := if 0 < Tellg(s.msg) < p.ackNum then Seekg(s.msg, p.ackNum - 1) else s.msg)
  }

  function EventOf(s: SenderState, p: Packet): Event {
    if IsFinal(p) then Ignored
    else if IsDup(s, p) then DupAck
    else if IsNew(s, p) then NewAck((p.ackNum - s.acked) / 100)
    else Ignored
  }

  /** ssReceive, caReceive and frReceive for a packet that arrived: new state, packets sent, status. */
  function OnAck(f: string, s: SenderState, p: Packet, now: nat): (SenderState, seq<Packet>, int) {
    if IsFinal(p) then (s, [], 1)
    else if IsDup(s, p) then
      var s1 := s.(win := OnDupAck(s.win));
      if ThirdDup(s.win) then
        var (s2, again) := Retransmit(f, s1, now);
        (s2, [again], 0)
      else (s1, [], 0)
    else if IsNew(s, p) then
      (TakeNewAck(s, p, now).(win := OnNewAck(s.win, (p.ackNum - s.acked) / 100)), [], 0)
    else (s, [], 0)
  }

  function TimeOut(s: SenderState): SenderState {
    s.(win := OnTimeout(s.win), msg := Good(s.acked - 1), filePos := s.acked - 1)
  }

  // ----- transmit -----

  /** What one pass of transmit's loop meets: the clock while sending, then a packet or a timeout. */
  datatype Input = Arrival(sendTime: nat, receiveTime: nat, packet: Packet) | Silence(sendTime: nat)

  function React(f: string, s: SenderState, i: Input): (SenderState, seq<Packet>, int) {
    match i
    case Arrival(_, now, p) => OnAck(f, s, p, now)
    case Silence(_) => (TimeOut(s), [], 0)
  }

  /** transmit(), fed with its inputs: final state, packets sent, and whether it returned true. */
  function TransmitAll(f: string, s: SenderState, inputs: seq<Input>): (SenderState, seq<Packet>, bool)
    decreases |inputs|
  {
    if inputs == [] then (s, [], false)
    else
      var (s1, ps) := SendAll(f, s, inputs[0].sendTime);
      var (s2, qs, status) := React(f, s1, inputs[0]);
      if status == 1 then (s2, ps + qs, true)
      else
        var (s3, rs, finished) := TransmitAll(f, s2, inputs[1..]);
        (s3, ps + qs + rs, finished)
  }

  /** A FIN ack ends the transfer. */
  predicate Ends(i: Input) {
    i.Arrival? && IsFinal(i.packet)
  }

  // ----- what the pieces promise -----

  /** transmit() returns true exactly when a FIN ack is among what it meets. */
  lemma {:induction false} TrueIffFinalAck(f: string, s: SenderState, inputs: seq<Input>)
    ensures TransmitAll(f, s, inputs).2 <==> exists i :: 0 <= i < |inputs| && Ends(inputs[i])
    decreases |inputs|
  {
    hide SendAll, Retransmit, OnDupAck, OnNewAck;
    if inputs != [] {
      var s1 := React(f, SendAll(f, s, inputs[0].sendTime).0, inputs[0]).0;
      TrueIffFinalAck(f, s1, inputs[1..]);
      if i :| 0 <= i < |inputs| && Ends(inputs[i]) {
        assert i == 0 || inputs[1..][i - 1] == inputs[i];
      }
    }
  }

  /** Reading at a position within the file yields the payload of the segment there. */
  lemma ReadSegment(f: string, pos: nat)
    requires pos <= |f|
    ensures Read(f, Good(pos)) == (f[pos..SegEnd(f, pos)], if IsLast(f, pos) then Failed else Good(pos + 100))
  {
    assert f[pos..] == f[pos..|f|];
  }

  /** How many packets the send loop sends from position pos. */
  function Burst(f: string, w: Window, pos: nat): nat
    requires pos <= |f|
  {
    var left := (|f| - pos) / 100 + 1;
    var room := Max(0, (if w.cwnd < MAX_NOT_ACKED then w.cwnd else MAX_NOT_ACKED) - w.notAcked);
    if left < room then left else room
  }

  lemma SendOne(f: string, s: SenderState, now: nat)
    requires s.msg.Good? && s.filePos == s.msg.pos <= |f|
    ensures var pos := s.filePos;
            SendNext(f, s, now) ==
              (s.(win := OnSend(s.win), filePos := SegEnd(f, pos),
                  msg := if IsLast(f, pos) then Failed else Good(pos + 100), times := s.times[pos + 1 := now]),
               Seg(f, pos))
  {
    hide StrLen, Blank, Read;
    ReadSegment(f, s.filePos);
  }

  /** The send loop from a position sends the next segments, as many as the file and the window allow. */
  lemma {:induction false} SendLoop(f: string, s: SenderState, now: nat)
    requires s.msg.Good? && s.filePos == s.msg.pos <= |f|
    ensures var pos, n := s.filePos, Burst(f, s.win, s.filePos);
            var (s', ps) := SendAll(f, s, now);
            && n <= |AllSegs(f, pos)| && ps == AllSegs(f, pos)[..n]
            && s'.win == s.win.(notAcked := s.win.notAcked + n)
            && (if n == |AllSegs(f, pos)| then s'.msg == Failed && s'.filePos == |f|
                else s'.msg == Good(pos + 100 * n) && s'.filePos == pos + 100 * n)
            && s'.acked == s.acked
    decreases MAX_NOT_ACKED - s.win.notAcked
  {
    hide SendNext, Seg;
    CutNumbering(f, s.filePos);
    if Sending(s) {
      SendOne(f, s, now);
      var (s1, p) := SendNext(f, s, now);
      if IsLast(f, s.filePos) {
        assert SendAll(f, s1, now) == (s1, []);
      } else {
        CutNumbering(f, s1.filePos);
        SendLoop(f, s1, now);
        var ps := SendAll(f, s1, now).1;
        assert [p] + ps == ([p] + AllSegs(f, s1.filePos))[..|ps| + 1];
      }
    }
  }

  /** The congestion window sees nothing of a sender but its events. */
  lemma AckDrivesWindow(f: string, s: SenderState, p: Packet, now: nat)
    ensures OnAck(f, s, p, now).0.win == OnEvent(s.win, EventOf(s, p))
  {
  }

  /** A packet that is no ack is ignored, with or without FIN; an ack is the final one, a duplicate up to and
      including the acked position, or new. */
  lemma OnlyAcksMatter(f: string, s: SenderState, p: Packet, now: nat)
    ensures !p.ack ==> OnAck(f, s, p, now) == (s, [], 0)
    ensures p.ack && !p.fin && p.ackNum <= s.acked ==> OnAck(f, s, p, now).0.win.dupAckCount == s.win.dupAckCount + 1
    ensures p.ack && !p.fin && p.ackNum > s.acked ==> OnAck(f, s, p, now).0.acked == p.ackNum
    ensures p.ack && p.fin ==> OnAck(f, s, p, now) == (s, [], 1)
  {
    hide StrLen, Blank, Read;
  }

  // ----- the object -----

  class SenderStateMachine {
    /** Contents of the file being sent; each clock reading is an argument. */
    const file: string
    var state: Mode
    var cwnd: nat
    var ssthresh: nat
    var notAcked: int
    var dupAckCount: nat
    var caAckCount: int
    var ackedPosition: Position
    var filePosition: nat
    var message: Stream
    var sendTimes: map<nat, nat>
    var estimatedRTT: nat
    var devRTT: nat
    var timeoutInterval: nat
    /** Everything handed to the socket, oldest first. */
    var outbox: seq<Packet>

    function Win(): Window
      reads this
    {
      Window(state, cwnd, ssthresh, notAcked, dupAckCount, caAckCount)
    }

    function State(): SenderState
      reads this
    {
      SenderState(Win(), ackedPosition, filePosition, message, sendTimes, Rtt(estimatedRTT, devRTT, timeoutInterval))
    }

    constructor (file: string, garbage: int)
      ensures this.file == file && State() == Start(garbage) && outbox == []
    {
      this.file := file;
      state, cwnd, ssthresh, notAcked, dupAckCount, caAckCount := SlowStart, 1, 1000, 0, 0, garbage;
      ackedPosition, filePosition, message, sendTimes := 1, 0, Good(0), map[];
      estimatedRTT, devRTT, timeoutInterval := 100000, 20000, 100000;
      outbox := [];
    }

    /** Copies strlen(data) bytes into a zeroed packet; returns the number of bytes sent. */
    method SendData(data: string, now: nat) returns (bytesSent: nat)
      modifies this`sendTimes, this`notAcked, this`outbox
      ensures var (s, p) := Emit(old(State()), data, now);
              State() == s && outbox == old(outbox) + [p] && bytesSent == |data|
    {
      var payload := Zeros(|data|);
      var i := 0;
      while i < StrLen(data)
        invariant 0 <= i <= StrLen(data) && payload == data[..i] + Zeros(|data| - i)
      {
        payload := payload[i := data[i]];
        i := i + 1;
      }
      var num := filePosition + 1;
      sendTimes := sendTimes[num := now];
      outbox := outbox + [Packet(num, 0, false, message.Failed?, payload)];
      notAcked := notAcked + 1;
      return |data|;
    }

    method ReadMessage() returns (data: string)
      modifies this`message
      ensures (data, message) == Read(file, old(message))
    {
      var (d, m) := Read(file, message);
      data, message := d, m;
    }

    /** The inner loop of transmit: send as much as the window and the file allow. */
    method SendBurst(now: nat)
      modifies this
      ensures var (s, ps) := SendAll(file, old(State()), now);
              State() == s && outbox == old(outbox) + ps
    {
      hide StrLen, Blank, Read;
      ghost var all := SendAll(file, State(), now);
      while message.Good? && notAcked < cwnd && notAcked < MAX_NOT_ACKED
        invariant var (s, ps) := SendAll(file, State(), now);
                  s == all.0 && outbox + ps == old(outbox) + all.1
        decreases MAX_NOT_ACKED - notAcked
      {
        ghost var before, sent := State(), outbox;
        var data := ReadMessage();
        var bytesSent := SendData(data, now);
        filePosition := filePosition + bytesSent;
        ghost var p := SendNext(file, before, now).1;
        ghost var later := SendAll(file, State(), now).1;
        assert (sent + [p]) + later == sent + ([p] + later);
      }
      assert outbox + [] == outbox;
    }

    method RetransmitMissingSegment(now: nat)
      modifies this
      ensures var (s, p) := Retransmit(file, old(State()), now);
              State() == s && outbox == old(outbox) + [p]
    {
      var startPosition := Tellg(message);
      if startPosition == -1 {
        message := Good(filePosition);
        startPosition := filePosition;
      }
      message := Seekg(message, ackedPosition - 1);
      filePosition := ackedPosition - 1;
      var data := ReadMessage();
      var _ := SendData(data, now);
      message := Seekg(message, startPosition);
      filePosition := startPosition;
    }

    method UpdateRTT(seqNum: nat, now: nat)
      modifies this`estimatedRTT, this`devRTT, this`timeoutInterval
      ensures var s := old(State());
              State() == s.(rtt := if seqNum in s.times then Update(s.rtt, now, s.times[seqNum]) else s.rtt)
    {
      if seqNum !in sendTimes {
        return;
      }
      var sendTime := sendTimes[seqNum];
      estimatedRTT := Blend(ALPHA, estimatedRTT, Elapsed(now, sendTime));
      if sendTime > now {
        devRTT := Blend(BETA, devRTT, sendTime - now);
      } else {
        devRTT := Blend(BETA, devRTT, now - sendTime);
      }
      timeoutInterval := estimatedRTT + 4 * devRTT;
    }

    method DupAck(p: Packet) returns (dup: bool)
      modifies this`dupAckCount
      ensures dup == IsDup(old(State()), p)
      ensures dupAckCount == old(dupAckCount) + if dup then 1 else 0
    {
      if p.ack && ackedPosition >= p.ackNum {
        dupAckCount := dupAckCount + 1;
        return true;
      }
      return false;
    }

    method NewAck(p: Packet, now: nat) returns (isNew: bool)
      modifies this
      ensures outbox == old(outbox)
      ensures isNew == IsNew(old(State()), p)
      ensures var s := old(State());
              State() == if isNew then TakeNewAck(s, p, now).(win := s.win.(dupAckCount := 0)) else s
    {
      if p.ack && ackedPosition < p.ackNum {
        UpdateRTT(p.seqNum, now);
        ackedPosition := p.ackNum;
        if Tellg(message) < ackedPosition && Tellg(message) > 0 {
          message := Seekg(message, ackedPosition - 1);
        }
        dupAckCount := 0;
        return true;
      }
      return false;
    }

    method ProcessTimeout()
      modifies this
      ensures State() == TimeOut(old(State())) && outbox == old(outbox)
    {
      ssthresh := cwnd * 100 / 2;
      cwnd := 1;
      dupAckCount := 0;
      if Tellg(message) == -1 {
        message := Good(ackedPosition - 1);
      } else {
        message := Seekg(message, ackedPosition - 1);
      }
      filePosition := ackedPosition - 1;
      notAcked := 0;
      state := SlowStart;
    }

    /** The block that ssReceive and caReceive share for the third duplicate ack. */
    method EnterFastRecovery(now: nat)
      requires state != FastRecovery && dupAckCount == 3
      modifies this
      ensures var s := old(State());
              var (s1, p) := Retransmit(file, s.(win := OnDupAck(s.win.(dupAckCount := 2))), now);
              State() == s1 && outbox == old(outbox) + [p]
    {
      hide Retransmit;
      ssthresh := cwnd / 2 * 100;
      cwnd := ssthresh / 100 + 3;
      notAcked := cwnd - 3;
      state := FastRecovery;
      RetransmitMissingSegment(now);
    }

    method SsReceive(p: Packet, now: nat) returns (status: int)
      requires state == SlowStart
      modifies this
      ensures Reacted(old(State()), old(outbox), p, now, status)
    {
      hide Retransmit;
      assert outbox + [] == outbox;
      if p.fin && p.ack {
        return 1;
      }
      var dup := DupAck(p);
      if dup {
        if dupAckCount == 3 {
          EnterFastRecovery(now);
        }
        return 0;
      }
      var isNew := NewAck(p, now);
      if isNew {
        cwnd := cwnd + 1;
        if cwnd * 100 >= ssthresh {
          caAckCount := 0;
          state := CongestionAvoidance;
        }
        notAcked := notAcked - 1;
      }
      return 0;
    }

    method CaReceive(p: Packet, now: nat) returns (status: int)
      requires state == CongestionAvoidance
      modifies this
      ensures Reacted(old(State()), old(outbox), p, now, status)
    {
      hide Retransmit;
      assert outbox + [] == outbox;
      if p.fin && p.ack {
        return 1;
      }
      var dup := DupAck(p);
      if dup {
        if dupAckCount == 3 {
          EnterFastRecovery(now);
        }
        return 0;
      }
      var isNew := NewAck(p, now);
      if isNew {
        caAckCount := caAckCount + 1;
        if cwnd == caAckCount {
          cwnd := cwnd + 1;
          caAckCount := 0;
        }
        notAcked := notAcked - 1;
      }
      return 0;
    }

    method FrReceive(p: Packet, now: nat) returns (status: int)
      requires state == FastRecovery
      modifies this
      ensures Reacted(old(State()), old(outbox), p, now, status)
    {
      hide Retransmit;
      assert outbox + [] == outbox;
      if p.fin && p.ack {
        return 1;
      }
      var dup := DupAck(p);
      if dup {
        cwnd := cwnd + 1;
        return 0;
      }
      var temp := ackedPosition;
      var isNew := NewAck(p, now);
      if isNew {
        cwnd := ssthresh / 100;
        caAckCount := 0;
        state := CongestionAvoidance;
        ghost var s := State();
        for i := 0 to (p.ackNum - temp) / 100
          invariant State() == s.(win := s.win.(notAcked := s.win.notAcked - i)) && outbox == old(outbox)
        {
          notAcked := notAcked - 1;
        }
      }
      return 0;
    }

    /** The new state and the packets sent are those of OnAck. */
    ghost predicate Reacted(before: SenderState, sent: seq<Packet>, p: Packet, now: nat, status: int)
      reads this
    {
      var (s, ps, r) := OnAck(file, before, p, now);
      State() == s && outbox == sent + ps && status == r
    }

    /** The wait of one pass of transmit: a timeout, or a packet handled as the state demands. */
    method Wait(input: Input) returns (status: int)
      modifies this
      ensures var (s, ps, r) := React(file, old(State()), input);
              State() == s && outbox == old(outbox) + ps && status == r
    {
      match input {
        case Silence(_) =>
          ProcessTimeout();
          status := 0;
          assert old(outbox) + [] == old(outbox);
        case Arrival(_, now, p) =>
          match state {
            case SlowStart => status := SsReceive(p, now);
            case CongestionAvoidance => status := CaReceive(p, now);
            case FastRecovery => status := FrReceive(p, now);
          }
      }
    }

    /** transmit(), fed with what each wait for a packet brings. */
    method Transmit(inputs: seq<Input>) returns (finished: bool)
      modifies this
      ensures var (s, ps, done) := TransmitAll(file, old(State()), inputs);
              State() == s && outbox == old(outbox) + ps && finished == done
      ensures finished <==> exists i :: 0 <= i < |inputs| && Ends(inputs[i])
    {
      hide SendAll, React, Ends;
      ghost var all := TransmitAll(file, State(), inputs);
      TrueIffFinalAck(file, State(), inputs);
      var i := 0;
      assert inputs[i..] == inputs;
      while i < |inputs|
        invariant 0 <= i <= |inputs|
        invariant var (s, ps, done) := TransmitAll(file, State(), inputs[i..]);
                  s == all.0 && outbox + ps == old(outbox) + all.1 && done == all.2
      {
        ghost var sent := outbox;
        assert inputs[i..][1..] == inputs[i + 1..];
        ghost var ps := SendAll(file, State(), inputs[i].sendTime).1;
        SendBurst(inputs[i].sendTime);
        ghost var qs := React(file, State(), inputs[i]).1;
        var status := Wait(inputs[i]);
        i := i + 1;
        if status == 1 {
          assert (sent + ps) + qs == sent + (ps + qs);
          return true;
        }
        ghost var rs := TransmitAll(file, State(), inputs[i..]).1;
        assert ((sent + ps) + qs) + rs == sent + (ps + qs + rs);
      }
      assert outbox + [] == outbox;
      return false;
    }
  }
}
