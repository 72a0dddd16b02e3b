/** The receiving end (MP2/receiver_state_machine.cpp). */
module Receiver {
  import opened Segments

  /** A payload held back because it arrived early, with its FIN flag. */
  type Early = (string, bool)

  datatype ReceiverState = ReceiverState(recvData: string, acked: nat, fin: bool, buffer: map<nat, Early>)

  const INITIAL := ReceiverState("", 0, false, map[])

  /** Append the payload that continues the file. */
  function Append(r: ReceiverState, data: string, fin: bool): ReceiverState {
    r.(recvData := r.recvData + data, acked := r.acked + |data|, fin := r.fin || fin)
  }

  /** One round of checkEarlyData: the next payload leaves the buffer. */
  function Take(r: ReceiverState): ReceiverState
    requires r.acked + 1 in r.buffer
  {
    var (data, fin) := r.buffer[r.acked + 1];
    Append(r, data, fin).(buffer := r.buffer - {r.acked + 1})
  }

  /** checkEarlyData: move buffered payloads into the file while the next one is there. */
  function Drain(r: ReceiverState): ReceiverState
    decreases |r.buffer|
  {
    if r.acked + 1 in r.buffer then Drain(Take(r)) else r
  }

  function Ack(r: ReceiverState, seqNum: nat): Packet {
    Packet(seqNum, r.acked + 1, true, r.fin, "")
  }

  /** One pass of the loop in receive(), for a packet that was not dropped: new state and the ack sent. */
  function OnPacket(r: ReceiverState, p: Packet): (ReceiverState, Packet) {
    var next :=
      if p.seqNum > r.acked + 1 then r.(buffer := r.buffer[p.seqNum := (Blank(p.data), p.fin)])
      else if p.seqNum < r.acked + 1 then r
      else Drain(Append(r, p.data, p.fin));
    (next, Ack(next, p.seqNum))
  }

  // ----- the state is a function of the set of segments delivered -----

  /** The sequence numbers in `got` are those of segments of `f`. */
  ghost predicate Numbers(f: string, got: set<nat>) {
    forall k :: k in got ==> k > 0 && SegPos(f, k - 1)
  }

  /** The first multiple of 100 from `p` on whose segment was not delivered, or one past the end of the file. */
  function FirstGap(f: string, got: set<nat>, p: nat): (g: nat)
    requires Aligned(p)
    ensures Aligned(g) && p <= g
    ensures g <= |f| ==> g + 1 !in got
    ensures forall q :: p <= q < g && Aligned(q) ==> q + 1 in got && q <= |f|
    decreases |f| + 100 - p
  {
    if p > |f| || p + 1 !in got then p
    else
      AlignedAfter(p);
      FirstGap(f, got, p + 100)
  }

  lemma FirstGapIs(f: string, got: set<nat>, p: nat, g: nat)
    requires Aligned(p) && Aligned(g) && p <= g
    requires g <= |f| ==> g + 1 !in got
    requires forall q :: p <= q < g && Aligned(q) ==> q + 1 in got && q <= |f|
    ensures FirstGap(f, got, p) == g
    decreases g - p
  {
    if p < g {
      AlignedGap(p, g);
      AlignedAfter(p);
      FirstGapIs(f, got, p + 100, g);
    }
  }

  function Min(a: nat, b: nat): nat {
    if a < b then a else b
  }

  function EarlyOf(f: string, p: nat): Early
    requires p <= |f|
  {
    (Seg(f, p).data, IsLast(f, p))
  }

  /** Position p still waits in the buffer once everything below the multiple q is consumed. */
  predicate Waiting(f: string, p: nat, q: nat) {
    p >= q || (p == |f| && !Aligned(p))
  }

  ghost function Held(f: string, got: set<nat>, q: nat): map<nat, Early>
    requires Numbers(f, got)
  {
    map k | k in got && Waiting(f, k - 1, q) :: EarlyOf(f, k - 1)
  }

  /** Everything below q is in the file; the other delivered segments wait in the buffer. */
  ghost function Consumed(f: string, got: set<nat>, q: nat): ReceiverState
    requires Numbers(f, got)
  {
    ReceiverState(Delivered(f)[..Min(q, |f|)], Min(q, |f|), q > |f|, Held(f, got, q))
  }

  /** The state after the segments numbered in `got` were delivered, in whatever order. */
  ghost function Canon(f: string, got: set<nat>): ReceiverState
    requires Numbers(f, got)
  {
    var g := FirstGap(f, got, 0);
    if g > |f| then ReceiverState(Delivered(f), |f|, true, map[]) else Consumed(f, got, g)
  }

  lemma HeldNext(f: string, got: set<nat>, q: nat)
    requires Numbers(f, got) && Aligned(q) && q <= |f| && q + 1 in got
    ensures Held(f, got, q + 100) == Held(f, got, q) - {q + 1}
  {
    hide EarlyOf, StrLen;
    forall k | k in got && k - 1 > q ensures Waiting(f, k - 1, q + 100) {
      if Aligned(k - 1) {
        AlignedGap(q, k - 1);
      }
    }
  }

  lemma HoldEarly(f: string, got: set<nat>, p: nat, q: nat)
    requires Numbers(f, got) && SegPos(f, p) && p > q
    ensures Held(f, got + {p + 1}, q) == Held(f, got, q)[p + 1 := EarlyOf(f, p)]
  {
    hide EarlyOf, StrLen;
  }

  lemma ConsumeNext(f: string, got: set<nat>, q: nat)
    requires Numbers(f, got) && Aligned(q) && q <= |f| && q + 1 in got
    ensures q + 1 in Consumed(f, got, q).buffer
    ensures Take(Consumed(f, got, q)) == Consumed(f, got, q + 100)
  {
    hide StrLen, Blank;
    HeldNext(f, got, q);
    DeliveredAt(f, q);
    var g, e := Delivered(f), SegEnd(f, q);
    assert g[..q] + g[q..e] == g[..e];
    assert Held(f, got, q)[q + 1] == EarlyOf(f, q);
  }

  lemma {:induction false} DrainReachesGap(f: string, got: set<nat>, q: nat)
    requires Numbers(f, got) && Aligned(q) && q <= |f| + 100
    requires forall p :: 0 <= p < q && Aligned(p) ==> p + 1 in got && p <= |f|
    ensures Drain(Consumed(f, got, q)) == Canon(f, got)
    decreases |f| + 100 - q
  {
    hide StrLen, EarlyOf, Take;
    if q > |f| {
      FirstGapIs(f, got, 0, q);
      DrainLeftover(f, got, q);
    } else if q + 1 !in got {
      FirstGapIs(f, got, 0, q);
    } else {
      ConsumeNext(f, got, q);
      AlignedAfter(q);
      DrainReachesGap(f, got, q + 100);
    }
  }

  /** At the end of the file the only thing left to drain is an empty segment numbered |f| + 1. */
  lemma DrainLeftover(f: string, got: set<nat>, q: nat)
    requires Numbers(f, got) && Aligned(q) && q > |f|
    ensures Drain(Consumed(f, got, q)) == ReceiverState(Delivered(f), |f|, true, map[])
  {
    hide StrLen, Blank, Delivered, Aligned, EarlyOf;
    var c := Consumed(f, got, q);
    var done := ReceiverState(Delivered(f), |f|, true, map[]);
    assert c.recvData == Delivered(f);
    assert forall k :: k in c.buffer ==> k == |f| + 1;
    if |f| + 1 in c.buffer {
      assert c.buffer[|f| + 1] == ("", true) by { EndIsEmpty(f); }
      assert c.buffer - {|f| + 1} == map[];
      assert Take(c) == done;
      assert Drain(done) == done;
    } else {
      assert c == done;
    }
  }

  lemma EndIsEmpty(f: string)
    ensures EarlyOf(f, |f|) == ("", true)
  {
    hide StrLen;
  }

  lemma OnNext(f: string, got: set<nat>, g: nat)
    requires Numbers(f, got) && g == FirstGap(f, got, 0) <= |f| && Aligned(g)
    ensures OnPacket(Canon(f, got), Seg(f, g)).0 == Canon(f, got + {g + 1})
  {
    hide StrLen, Blank, Delivered, Aligned;
    var got' := got + {g + 1};
    assert Held(f, got, g) == Held(f, got', g) - {g + 1};
    ConsumeNext(f, got', g);
    assert Take(Consumed(f, got', g)) == Append(Consumed(f, got, g), Seg(f, g).data, IsLast(f, g)) by {
      assert Held(f, got', g)[g + 1] == EarlyOf(f, g);
    }
    AlignedAfter(g);
    DrainReachesGap(f, got', g + 100);
  }

  lemma OnEarly(f: string, got: set<nat>, p: nat)
    requires Numbers(f, got) && SegPos(f, p) && FirstGap(f, got, 0) <= |f| && p > FirstGap(f, got, 0)
    ensures OnPacket(Canon(f, got), Seg(f, p)).0 == Canon(f, got + {p + 1})
    ensures FirstGap(f, got + {p + 1}, 0) == FirstGap(f, got, 0)
  {
    hide StrLen, Blank, Delivered, Aligned;
    var g := FirstGap(f, got, 0);
    FirstGapIs(f, got + {p + 1}, 0, g);
    BlankTwice(f[p..SegEnd(f, p)]);
    HoldEarly(f, got, p, g);
  }

  lemma OnOld(f: string, got: set<nat>, p: nat)
    requires Numbers(f, got) && SegPos(f, p) && FirstGap(f, got, 0) <= |f| && p < FirstGap(f, got, 0)
    ensures OnPacket(Canon(f, got), Seg(f, p)).0 == Canon(f, got) && got + {p + 1} == got
  {
    hide StrLen, Blank, Delivered, Held, Drain;
  }

  lemma CanonAcked(f: string, got: set<nat>)
    requires Numbers(f, got)
    ensures Canon(f, got).acked == Min(FirstGap(f, got, 0), |f|) && (Canon(f, got).fin <==> FirstGap(f, got, 0) > |f|)
  {
    hide StrLen, Blank, Held, FirstGap;
  }

  lemma AckOf(r: ReceiverState, p: Packet)
    ensures OnPacket(r, p).1 == Ack(OnPacket(r, p).0, p.seqNum)
  {
  }

  /** One delivery adds its number to the set, and the ack names the first byte still missing. */
  lemma OnSegment(f: string, got: set<nat>, p: nat)
    requires Numbers(f, got) && SegPos(f, p)
    requires !Canon(f, got).fin
    ensures var (r, ack) := OnPacket(Canon(f, got), Seg(f, p));
            && r == Canon(f, got + {p + 1})
            && ack == Packet(p + 1, Min(FirstGap(f, got + {p + 1}, 0), |f|) + 1, true, r.fin, "")
  {
    hide StrLen, Blank, OnPacket, Canon, FirstGap, Min;
    var g := FirstGap(f, got, 0);
    CanonAcked(f, got);
    CanonAcked(f, got + {p + 1});
    AckOf(Canon(f, got), Seg(f, p));
    if p > g {
      OnEarly(f, got, p);
    } else if p < g {
      OnOld(f, got, p);
    } else {
      OnNext(f, got, g);
    }
  }

  // ----- confluence and completeness -----

  lemma InitialIsCanon(f: string)
    ensures INITIAL == Canon(f, {})
  {
    FirstGapIs(f, {}, 0, 0);
  }

  lemma CanonFacts(f: string, got: set<nat>)
    requires Numbers(f, got)
    ensures var r := Canon(f, got);
            && r.acked <= |f| && r.recvData == Delivered(f)[..r.acked]
            && (!r.fin ==> Aligned(r.acked))
            && (r.fin ==> r == ReceiverState(Delivered(f), |f|, true, map[]))
            && (r.fin <==> forall p :: 0 <= p <= |f| && Aligned(p) ==> p + 1 in got)
  {
    hide StrLen, Blank, EarlyOf;
    var g := FirstGap(f, got, 0);
    if g > |f| {
      forall p | 0 <= p <= |f| && Aligned(p) ensures p + 1 in got {
        assert p < g;
      }
    }
  }

  /** More deliveries do not disturb a finished receiver. */
  lemma FinishedStays(f: string, got: set<nat>, more: set<nat>)
    requires Numbers(f, got) && Numbers(f, more) && got <= more && Canon(f, got).fin
    ensures Canon(f, more) == Canon(f, got)
  {
    hide StrLen, Blank, EarlyOf;
    FirstGapIs(f, more, 0, FirstGap(f, got, 0));
  }

  /** What receive() makes of a list of packets that were not dropped; the loop stops at FIN. */
  function DeliverAll(r: ReceiverState, ps: seq<Packet>): ReceiverState
    decreases |ps|
  {
    if r.fin || ps == [] then r else DeliverAll(OnPacket(r, ps[0]).0, ps[1..])
  }

  predicate IsSegment(f: string, p: Packet) {
    p.seqNum > 0 && SegPos(f, p.seqNum - 1) && p == Seg(f, p.seqNum - 1)
  }

  ghost predicate SegmentsOf(f: string, ps: seq<Packet>) {
    forall p :: p in ps ==> IsSegment(f, p)
  }

  function NumbersOf(ps: seq<Packet>): set<nat> {
    set p | p in ps :: p.seqNum
  }

  lemma NumbersOfSegments(f: string, ps: seq<Packet>)
    requires SegmentsOf(f, ps)
    ensures Numbers(f, NumbersOf(ps))
  {
  }

  lemma {:induction false} DeliverAllIsCanon(f: string, got: set<nat>, ps: seq<Packet>)
    requires Numbers(f, got) && SegmentsOf(f, ps) && Numbers(f, got + NumbersOf(ps))
    ensures DeliverAll(Canon(f, got), ps) == Canon(f, got + NumbersOf(ps))
    decreases |ps|
  {
    hide StrLen, Blank, EarlyOf, Seg, Canon, OnPacket;
    if Canon(f, got).fin {
      FinishedStays(f, got, got + NumbersOf(ps));
    } else if ps == [] {
      assert got + NumbersOf(ps) == got;
    } else {
      var k := ps[0].seqNum;
      assert ps[0] in ps;
      OnSegment(f, got, k - 1);
      assert NumbersOf(ps) == {k} + NumbersOf(ps[1..]) by {
        assert ps == [ps[0]] + ps[1..];
      }
      assert got + {k} + NumbersOf(ps[1..]) == got + NumbersOf(ps);
      DeliverAllIsCanon(f, got + {k}, ps[1..]);
    }
  }

  /** The receiver's state depends on the set of segments delivered, not on their order or number. */
  lemma Confluence(f: string, ps: seq<Packet>, qs: seq<Packet>)
    requires SegmentsOf(f, ps) && SegmentsOf(f, qs)
    requires NumbersOf(ps) == NumbersOf(qs)
    ensures DeliverAll(INITIAL, ps) == DeliverAll(INITIAL, qs)
  {
    hide StrLen, Blank, EarlyOf, Seg, Canon, OnPacket;
    InitialIsCanon(f);
    NumbersOfSegments(f, ps);
    assert {} + NumbersOf(ps) == NumbersOf(ps);
    DeliverAllIsCanon(f, {}, ps);
    DeliverAllIsCanon(f, {}, qs);
  }

  /** Receiving ends exactly when every segment was delivered at least once, and then with the whole file. */
  lemma Completeness(f: string, ps: seq<Packet>)
    requires SegmentsOf(f, ps)
    ensures var r := DeliverAll(INITIAL, ps);
            && (r.fin <==> forall p :: 0 <= p <= |f| && Aligned(p) ==> p + 1 in NumbersOf(ps))
            && (r.fin ==> r.recvData == Delivered(f) && r.buffer == map[])
            && r.acked <= |f| && r.recvData == Delivered(f)[..r.acked]
  {
    hide StrLen, Blank, EarlyOf, Seg, Canon, OnPacket;
    InitialIsCanon(f);
    NumbersOfSegments(f, ps);
    assert {} + NumbersOf(ps) == NumbersOf(ps);
    DeliverAllIsCanon(f, {}, ps);
    CanonFacts(f, NumbersOf(ps));
  }

  // ----- the simulated loss in receivePacket -----

  datatype Loss = Loss(
    rsn: nat,
    periodic: bool,
    lossPeriod: nat,
    specific: bool,
    specificPackets: seq<nat>,
    specificPosition: nat)

  /** Whether the next arrival is dropped, and the state of the loss rule afterwards. */
  function Arrive(l: Loss): (bool, Loss) {
    var l1 := l.(rsn := l.rsn + 1);
    if l1.periodic && (l1.rsn == 1 || l1.rsn % (l1.lossPeriod + 1) == 0) then (true, l1)
    else if l1.specific && l1.specificPosition < |l1.specificPackets|
            && l1.rsn == l1.specificPackets[l1.specificPosition] then
      (true, l1.(specificPosition := l1.specificPosition + 1))
    else (false, l1)
  }

  function Survivors(l: Loss, ps: seq<Packet>): seq<Packet>
    decreases |ps|
  {
    if ps == [] then []
    else
      var (drop, l1) := Arrive(l);
      (if drop then [] else [ps[0]]) + Survivors(l1, ps[1..])
  }

  /** The loop of receive(): final state, final loss state and the acks sent. */
  function ReceiveAll(r: ReceiverState, l: Loss, ps: seq<Packet>): (ReceiverState, Loss, seq<Packet>)
    decreases |ps|
  {
    if r.fin || ps == [] then (r, l, [])
    else
      var (drop, l1) := Arrive(l);
      if drop then ReceiveAll(r, l1, ps[1..])
      else
        var (r1, ack) := OnPacket(r, ps[0]);
        var (r2, l2, acks) := ReceiveAll(r1, l1, ps[1..]);
        (r2, l2, [ack] + acks)
  }

  lemma {:induction false} LossOnlyFilters(r: ReceiverState, l: Loss, ps: seq<Packet>)
    ensures ReceiveAll(r, l, ps).0 == DeliverAll(r, Survivors(l, ps))
    decreases |ps|
  {
    hide OnPacket;
    if !r.fin && ps != [] {
      var (drop, l1) := Arrive(l);
      var rest := Survivors(l1, ps[1..]);
      if drop {
        assert [] + rest == rest;
        LossOnlyFilters(r, l1, ps[1..]);
      } else {
        assert ([ps[0]] + rest)[1..] == rest;
        LossOnlyFilters(OnPacket(r, ps[0]).0, l1, ps[1..]);
      }
    }
  }

  // ----- which arrivals are lost, by their number -----

  /** Arrivals are counted from 1. */
  predicate PeriodicallyLost(l: Loss, k: nat) {
    l.periodic && (k == 1 || k % (l.lossPeriod + 1) == 0)
  }

  /** The list of losses as far as its numbers rise above `last`; behind that the rule is stuck. It also is at a
      number that the periodic rule takes. */
  function Rising(l: Loss, list: seq<nat>, last: nat): seq<nat> {
    if list == [] || list[0] <= last || PeriodicallyLost(l, list[0]) then []
    else [list[0]] + Rising(l, list[1..], list[0])
  }

  function Pending(l: Loss): seq<nat> {
    if l.specificPosition <= |l.specificPackets| then l.specificPackets[l.specificPosition..] else []
  }

  /** Whether arrival number k, still to come, is lost. */
  predicate Lost(l: Loss, k: nat) {
    PeriodicallyLost(l, k) || (l.specific && k in Rising(l, Pending(l), l.rsn))
  }

  /** Whether the packet at index i of those that arrive next is lost. */
  predicate LostAt(l: Loss, i: nat) {
    Lost(l, l.rsn + i + 1)
  }

  predicate Increasing(list: seq<nat>, last: nat) {
    && (forall k :: k in list ==> k > last)
    && forall i, j :: 0 <= i < j < |list| ==> list[i] < list[j]
  }

  lemma IncreasingRest(list: seq<nat>, last: nat)
    requires list != [] && Increasing(list, last)
    ensures list[0] > last && Increasing(list[1..], list[0])
  {
    var rest := list[1..];
    assert list[0] in list;
    assert forall i :: 0 <= i < |rest| ==> rest[i] == list[i + 1];
    forall k | k in rest ensures k > list[0] {
      var i :| 0 <= i < |rest| && rest[i] == k;
      assert list[0] < list[i + 1];
    }
  }

  lemma IncreasingCons(list: seq<nat>, last: nat)
    requires list != [] && list[0] > last && Increasing(list[1..], list[0])
    ensures Increasing(list, last)
  {
    var rest := list[1..];
    assert list == [list[0]] + rest;
    forall k | k in list ensures k > last {
      assert k == list[0] || k in rest;
    }
    forall i, j | 0 <= i < j < |list| ensures list[i] < list[j] {
      assert list[j] == rest[j - 1] && rest[j - 1] in rest;
      assert i > 0 ==> list[i] == rest[i - 1];
    }
  }

  /** The specific rule drops its whole list when the numbers rise from above those that have gone by. */
  lemma {:induction false} RisingWhole(l: Loss, list: seq<nat>, last: nat)
    requires !l.periodic
    ensures Rising(l, list, last) == list <==> Increasing(list, last)
    decreases |list|
  {
    if list != [] {
      hide Increasing;
      var rest := list[1..];
      if Increasing(list, last) {
        IncreasingRest(list, last);
      } else if list[0] > last && Increasing(rest, list[0]) {
        IncreasingCons(list, last);
      }
      RisingWhole(l, rest, list[0]);
      assert list == [list[0]] + rest;
      if last < list[0] {
        assert Rising(l, list, last)[1..] == Rising(l, rest, list[0]);
      }
    }
  }

  /** From the start: the periodic rule loses the first arrival and every (lossPeriod + 1)-th, and a rising list of
      positive numbers loses exactly the arrivals it names. */
  lemma LossFromStart(lossPeriod: nat, list: seq<nat>, i: nat)
    ensures var l := Loss(0, true, lossPeriod, false, list, 0);
            LostAt(l, i) <==> i + 1 == 1 || (i + 1) % (lossPeriod + 1) == 0
    ensures Increasing(list, 0) ==>
              var l := Loss(0, false, lossPeriod, true, list, 0);
              LostAt(l, i) <==> i + 1 in list
  {
    var l := Loss(0, false, lossPeriod, true, list, 0);
    assert Pending(l) == list;
    RisingWhole(l, list, 0);
  }

  /** One arrival: what it loses, and that the losses to come stay the same. */
  lemma ArriveLoses(l: Loss, k: nat)
    ensures Arrive(l).0 <==> Lost(l, l.rsn + 1)
    ensures k > l.rsn + 1 ==> (Lost(Arrive(l).1, k) <==> Lost(l, k))
  {
    hide Rising;
    var l1, list := Arrive(l).1, Pending(l);
    RisingStep(l, list, l.rsn);
    RisingSame(l, l1, list, l.rsn + 1);
    if list != [] {
      RisingSame(l, l1, list[1..], l.rsn + 1);
    }
  }

  lemma {:induction false} RisingSame(l: Loss, l1: Loss, list: seq<nat>, last: nat)
    requires l1.periodic == l.periodic && l1.lossPeriod == l.lossPeriod
    ensures Rising(l1, list, last) == Rising(l, list, last)
    decreases |list|
  {
    if list != [] {
      RisingSame(l, l1, list[1..], list[0]);
    }
  }

  lemma RisingStep(l: Loss, list: seq<nat>, n: nat)
    ensures n + 1 in Rising(l, list, n) <==> list != [] && list[0] == n + 1 && !PeriodicallyLost(l, n + 1)
    ensures list != [] && list[0] == n + 1 && !PeriodicallyLost(l, n + 1) ==>
              forall k :: k in Rising(l, list, n) <==> k == n + 1 || k in Rising(l, list[1..], n + 1)
    ensures list == [] || list[0] != n + 1 ==> Rising(l, list, n + 1) == Rising(l, list, n)
    ensures PeriodicallyLost(l, n + 1) ==> Rising(l, list, n + 1) == Rising(l, list, n)
  {
    if list != [] {
      RisingAbove(l, list[1..], list[0]);
    }
  }

  lemma {:induction false} RisingAbove(l: Loss, list: seq<nat>, last: nat)
    ensures forall k :: k in Rising(l, list, last) ==> k > last
    decreases |list|
  {
    if list != [] && list[0] > last {
      RisingAbove(l, list[1..], list[0]);
    }
  }

  lemma LaterLosses(l: Loss, i: nat)
    ensures LostAt(Arrive(l).1, i) <==> LostAt(l, i + 1)
    ensures Arrive(l).0 <==> LostAt(l, 0)
  {
    hide Lost, Arrive;
    ArriveCounts(l);
    ArriveLoses(l, l.rsn + i + 2);
  }

  /** The packets at these positions, in this order. */
  ghost predicate Selects(at: seq<nat>, ps: seq<Packet>, qs: seq<Packet>) {
    && |at| == |qs|
    && (forall j :: 0 <= j < |at| ==> at[j] < |ps| && qs[j] == ps[at[j]])
    && (forall i, j :: 0 <= i < j < |at| ==> at[i] < at[j])
  }

  /** The surviving packets, in order, are those whose arrival number the rules do not lose. */
  lemma {:induction false} SurvivorsByNumber(l: Loss, ps: seq<Packet>) returns (at: seq<nat>)
    ensures Selects(at, ps, Survivors(l, ps))
    ensures forall i: nat :: i in at <==> i < |ps| && !LostAt(l, i)
    decreases |ps|
  {
    hide LostAt, Arrive, Selects;
    if ps == [] {
      at := [];
      assert Selects(at, ps, []) by { SelectsNone(); }
    } else {
      var rest := SurvivorsByNumber(Arrive(l).1, ps[1..]);
      at := Shift(rest, Arrive(l).0);
      ShiftMembers(rest, Arrive(l).0);
      ShiftSelects(rest, ps, Survivors(Arrive(l).1, ps[1..]), Arrive(l).0);
      hide Shift, Survivors;
      forall i: nat ensures i in at <==> i < |ps| && !LostAt(l, i) {
        LaterLosses(l, if i == 0 then 0 else i - 1);
      }
    }
  }

  lemma SelectsNone()
    ensures Selects([], [], [])
  {
  }

  /** Positions moved up by one, behind position 0 unless that is dropped. */
  function Shift(at: seq<nat>, drop: bool): seq<nat> {
    (if drop then [] else [0]) + seq(|at|, j requires 0 <= j < |at| => at[j] + 1)
  }

  lemma ShiftSelects(at: seq<nat>, ps: seq<Packet>, qs: seq<Packet>, drop: bool)
    requires ps != [] && Selects(at, ps[1..], qs)
    ensures Selects(Shift(at, drop), ps, (if drop then [] else [ps[0]]) + qs)
  {
  }

  lemma ShiftMembers(at: seq<nat>, drop: bool)
    ensures forall i: nat :: i in Shift(at, drop) <==> (i == 0 && !drop) || (i > 0 && i - 1 in at)
  {
    var moved := seq(|at|, j requires 0 <= j < |at| => at[j] + 1);
    forall i: nat ensures i in moved <==> i > 0 && i - 1 in at {
      if i > 0 && i - 1 in at {
        var j :| 0 <= j < |at| && at[j] == i - 1;
        assert moved[j] == i;
      }
    }
  }

  lemma ArriveCounts(l: Loss)
    ensures Arrive(l).1.rsn == l.rsn + 1
  {
  }

  /** Segment number k was received and not lost. */
  ghost predicate GotThrough(l: Loss, ps: seq<Packet>, k: nat) {
    exists i :: 0 <= i < |ps| && ps[i].seqNum == k && !LostAt(l, i)
  }

  lemma SurvivingNumbers(l: Loss, ps: seq<Packet>, k: nat)
    ensures k in NumbersOf(Survivors(l, ps)) <==> GotThrough(l, ps, k)
  {
    hide LostAt, Survivors;
    var at := SurvivorsByNumber(l, ps);
    if k in NumbersOf(Survivors(l, ps)) {
      var p :| p in Survivors(l, ps) && p.seqNum == k;
      var j :| 0 <= j < |at| && Survivors(l, ps)[j] == p;
      assert at[j] in at;
    }
    if GotThrough(l, ps, k) {
      var i :| 0 <= i < |ps| && ps[i].seqNum == k && !LostAt(l, i);
      assert i in at;
      var j :| 0 <= j < |at| && at[j] == i;
      assert Survivors(l, ps)[j].seqNum == k;
    }
  }

  /** With the simulated loss, receive() finishes exactly when the arrivals whose numbers are not lost cover the
      file. */
  lemma CompletenessUnderLoss(f: string, l: Loss, ps: seq<Packet>)
    requires SegmentsOf(f, ps)
    ensures var r := ReceiveAll(INITIAL, l, ps).0;
            && (r.fin <==> forall p :: 0 <= p <= |f| && Aligned(p) ==> GotThrough(l, ps, p + 1))
            && (r.fin ==> r.recvData == Delivered(f) && r.buffer == map[])
            && r.acked <= |f| && r.recvData == Delivered(f)[..r.acked]
  {
    hide StrLen, Blank, EarlyOf, Seg, Canon, OnPacket, GotThrough;
    var at := SurvivorsByNumber(l, ps);
    LossOnlyFilters(INITIAL, l, ps);
    Completeness(f, Survivors(l, ps));
    forall p | 0 <= p <= |f| && Aligned(p)
      ensures p + 1 in NumbersOf(Survivors(l, ps)) <==> GotThrough(l, ps, p + 1)
    {
      SurvivingNumbers(l, ps, p + 1);
    }
  }

  // ----- the acks -----

  /** What the loop answers to packets that were not dropped, until it stops at FIN. */
  function Answers(r: ReceiverState, ps: seq<Packet>): seq<Packet>
    decreases |ps|
  {
    if r.fin || ps == [] then []
    else
      var (r1, ack) := OnPacket(r, ps[0]);
      [ack] + Answers(r1, ps[1..])
  }

  lemma {:induction false} LossOnlyFiltersAcks(r: ReceiverState, l: Loss, ps: seq<Packet>)
    ensures ReceiveAll(r, l, ps).2 == Answers(r, Survivors(l, ps))
    decreases |ps|
  {
    hide OnPacket;
    if !r.fin && ps != [] {
      var (drop, l1) := Arrive(l);
      var rest := Survivors(l1, ps[1..]);
      if drop {
        assert [] + rest == rest;
        LossOnlyFiltersAcks(r, l1, ps[1..]);
      } else {
        assert ([ps[0]] + rest)[1..] == rest;
        LossOnlyFiltersAcks(OnPacket(r, ps[0]).0, l1, ps[1..]);
      }
    }
  }

  /** Ack j after the segments ps, on top of those already in got. */
  ghost predicate Cumulative(f: string, got: set<nat>, ps: seq<Packet>, j: nat, ack: Packet)
    requires j < |ps|
  {
    var now := got + NumbersOf(ps[..j + 1]);
    && Numbers(f, now) && ack.seqNum == ps[j].seqNum && ack.ack && ack.data == ""
    && ack.ackNum == Min(FirstGap(f, now, 0), |f|) + 1
    && (ack.fin <==> FirstGap(f, now, 0) > |f|)
  }

  /** The answers to ps are cumulative, and end with the first FIN or with ps. */
  ghost predicate AnswersFit(f: string, got: set<nat>, ps: seq<Packet>, acks: seq<Packet>) {
    && |acks| <= |ps|
    && (forall j :: 0 <= j < |acks| ==> Cumulative(f, got, ps, j, acks[j]))
    && (forall j :: 0 <= j < |acks| - 1 ==> !acks[j].fin)
    && (|acks| < |ps| ==> acks != [] && acks[|acks| - 1].fin)
  }

  lemma FitMore(f: string, got: set<nat>, ps: seq<Packet>, ack: Packet, later: seq<Packet>)
    requires ps != [] && Cumulative(f, got, ps, 0, ack)
    requires if ack.fin then later == [] else AnswersFit(f, got + {ps[0].seqNum}, ps[1..], later)
    ensures AnswersFit(f, got, ps, [ack] + later)
  {
    hide FirstGap, Numbers, NumbersOf, Aligned;
    var acks := [ack] + later;
    forall j | 0 <= j < |acks|
      ensures j < |ps| && Cumulative(f, got, ps, j, acks[j]) && (acks[j].fin ==> j == |acks| - 1)
    {
      if j > 0 {
        assert acks[j] == later[j - 1];
        assert Cumulative(f, got + {ps[0].seqNum}, ps[1..], j - 1, later[j - 1]);
        NumbersOfPrefix(got, ps, j);
      }
    }
  }

  lemma {:induction false} AnswersAreCumulative(f: string, got: set<nat>, ps: seq<Packet>)
    requires Numbers(f, got) && SegmentsOf(f, ps) && !Canon(f, got).fin
    ensures AnswersFit(f, got, ps, Answers(Canon(f, got), ps))
    decreases |ps|
  {
    hide IsSegment, OnPacket, Answers, Canon, Cumulative, Numbers, AnswersFit;
    if ps == [] {
      NoAnswers(Canon(f, got), ps);
      assert AnswersFit(f, got, ps, []) by { NothingFits(f, got); }
    } else {
      FirstAnswer(f, got, ps);
      var got1, rest := got + {ps[0].seqNum}, ps[1..];
      if Canon(f, got1).fin {
        NoAnswers(Canon(f, got1), rest);
      } else {
        AnswersAreCumulative(f, got1, rest);
      }
      FitMore(f, got, ps, OnPacket(Canon(f, got), ps[0]).1, Answers(Canon(f, got1), rest));
    }
  }

  lemma NothingFits(f: string, got: set<nat>)
    ensures AnswersFit(f, got, [], [])
  {
  }

  lemma NoAnswers(r: ReceiverState, ps: seq<Packet>)
    requires r.fin || ps == []
    ensures Answers(r, ps) == []
  {
  }

  lemma FirstAnswer(f: string, got: set<nat>, ps: seq<Packet>)
    requires Numbers(f, got) && SegmentsOf(f, ps) && !Canon(f, got).fin && ps != []
    ensures var k := ps[0].seqNum;
            && Numbers(f, got + {k})
            && Answers(Canon(f, got), ps) ==
                 [OnPacket(Canon(f, got), ps[0]).1] + Answers(Canon(f, got + {k}), ps[1..])
            && Cumulative(f, got, ps, 0, OnPacket(Canon(f, got), ps[0]).1)
            && (OnPacket(Canon(f, got), ps[0]).1.fin <==> Canon(f, got + {k}).fin)
  {
    hide StrLen, Blank, EarlyOf, Seg, OnPacket, Delivered, FirstGap;
    assert ps[0] in ps;
    OnSegment(f, got, ps[0].seqNum - 1);
    assert ps[..1] == [ps[0]];
    assert NumbersOf([ps[0]]) == {ps[0].seqNum};
  }

  lemma NumbersOfPrefix(got: set<nat>, ps: seq<Packet>, j: nat)
    requires j < |ps| && ps != []
    ensures got + NumbersOf(ps[..j + 1]) == got + {ps[0].seqNum} + NumbersOf(ps[1..][..j])
  {
    assert ps[..j + 1] == [ps[0]] + ps[1..][..j];
  }

  /** receive() answers every arrival that is not lost until the file is complete, and no other: ack j names the
      first byte missing after the first j + 1 of them, and only the last ack can carry FIN. */
  lemma AcksUnderLoss(f: string, l: Loss, ps: seq<Packet>)
    requires SegmentsOf(f, ps)
    ensures AnswersFit(f, {}, Survivors(l, ps), ReceiveAll(INITIAL, l, ps).2)
  {
    hide IsSegment, OnPacket, Answers, Canon, LostAt, AnswersFit;
    InitialIsCanon(f);
    LossOnlyFiltersAcks(INITIAL, l, ps);
    var at := SurvivorsByNumber(l, ps);
    AnswersAreCumulative(f, {}, Survivors(l, ps));
  }

  class ReceiverStateMachine {
    var recvData: string
    var ackedPosition: nat
    var fin: bool
    var buffer: map<nat, Early>
    var RSN: nat
    const periodic: bool
    const lossPeriod: nat
    const specific: bool
    const specificPackets: seq<nat>
    var specificPosition: nat
    /** Everything handed to the socket, oldest first. */
    var outbox: seq<Packet>

    function State(): ReceiverState
      reads this
    {
      ReceiverState(recvData, ackedPosition, fin, buffer)
    }

    function LossState(): Loss
      reads this
    {
      Loss(RSN, periodic, lossPeriod, specific, specificPackets, specificPosition)
    }

    constructor (periodic: bool, lossPeriod: nat, specific: bool, specificPackets: seq<nat>)
      ensures State() == INITIAL && outbox == []
      ensures LossState() == Loss(0, periodic, lossPeriod, specific, specificPackets, 0)
    {
      recvData, ackedPosition, fin, buffer, RSN := "", 0, false, map[], 0;
      this.periodic, this.lossPeriod := periodic, lossPeriod;
      this.specific, this.specificPackets, specificPosition := specific, specificPackets, 0;
      outbox := [];
    }

    method SaveData(data: string)
      modifies this`recvData
      ensures recvData == old(recvData) + data
    {
      for i := 0 to |data|
        invariant recvData == old(recvData) + data[..i]
      {
        recvData := recvData + [data[i]];
      }
    }

    method ProcessPacket(p: Packet)
      modifies this`fin, this`recvData, this`ackedPosition
      ensures State() == Append(old(State()), p.data, p.fin)
    {
      if p.fin {
        fin := true;
      }
      SaveData(p.data);
      ackedPosition := ackedPosition + |p.data|;
    }

    method StoreEarlyData(num: nat, data: string, fin: bool)
      modifies this`buffer
      ensures State() == old(State()).(buffer := old(buffer)[num := (Blank(data), fin)])
    {
      var text := data[..StrLen(data)];
      assert Resize(text, |data|) == Blank(data);
      buffer := buffer[num := (Resize(text, |data|), fin)];
    }

    method CheckEarlyData()
      modifies this`fin, this`recvData, this`ackedPosition, this`buffer
      ensures State() == Drain(old(State()))
    {
      while ackedPosition + 1 in buffer
        invariant Drain(State()) == Drain(old(State()))
        decreases |buffer|
      {
        var num := ackedPosition + 1;
        var (data, last) := buffer[num];
        SaveData(data);
        ackedPosition := ackedPosition + |data|;
        if last {
          fin := true;
        }
        buffer := buffer - {num};
      }
    }

    method ReceivePacket() returns (dropped: bool)
      modifies this`RSN, this`specificPosition
      ensures (dropped, LossState()) == Arrive(old(LossState()))
    {
      RSN := RSN + 1;
      if periodic {
        if RSN == 1 || RSN % (lossPeriod + 1) == 0 {
          return true;
        }
      }
      if specific && specificPosition < |specificPackets| {
        if RSN == specificPackets[specificPosition] {
          specificPosition := specificPosition + 1;
          return true;
        }
      }
      return false;
    }

    method SendAck(seqNum: nat)
      modifies this`outbox
      ensures outbox == old(outbox) + [Ack(State(), seqNum)]
    {
      outbox := outbox + [Packet(seqNum, ackedPosition + 1, true, fin, "")];
    }

    /** receive(), fed with the packets that reach the socket; it returns at FIN or when they run out. */
    method Receive(incoming: seq<Packet>)
      modifies this
      ensures var (r, l, acks) := ReceiveAll(old(State()), old(LossState()), incoming);
              State() == r && LossState() == l && outbox == old(outbox) + acks
    {
      hide Arrive, Blank, StrLen;
      ghost var all := ReceiveAll(State(), LossState(), incoming);
      var i := 0;
      assert incoming[i..] == incoming;
      while !fin && i < |incoming|
        invariant 0 <= i <= |incoming|
        invariant var (r, l, acks) := ReceiveAll(State(), LossState(), incoming[i..]);
                  r == all.0 && l == all.1 && outbox + acks == old(outbox) + all.2
      {
        var p := incoming[i];
        ghost var r0, l0, sent := State(), LossState(), outbox;
        assert incoming[i..][1..] == incoming[i + 1..];
        i := i + 1;
        var dropped := ReceivePacket();
        if dropped {
          continue;
        }
        ghost var (r1, ack) := OnPacket(r0, p);
        ghost var later := ReceiveAll(r1, LossState(), incoming[i..]).2;
        assert (sent + [ack]) + later == sent + ([ack] + later);
        if p.seqNum > ackedPosition + 1 {
          StoreEarlyData(p.seqNum, p.data, p.fin);
          SendAck(p.seqNum);
          continue;
        }
        if p.seqNum < ackedPosition + 1 {
          SendAck(p.seqNum);
          continue;
        }
        ProcessPacket(p);
        CheckEarlyData();
        SendAck(p.seqNum);
      }
      assert outbox + [] == outbox;
    }
  }
}
