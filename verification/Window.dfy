/** The congestion window of the sender, driven by what happens to its packets
    (MP2/sender_state_machine.cpp:208-349). Window sizes are in segments, ssthresh in bytes. */
module CongestionWindow {

  datatype Mode = SlowStart | CongestionAvoidance | FastRecovery

  datatype Window = Window(mode: Mode, cwnd: nat, ssthresh: nat, notAcked: int, dupAckCount: nat, caAckCount: int)

  const MAX_NOT_ACKED: int := 25

  /** caAckCount_ is not set by the constructor, so it starts with any value. */
  function Fresh(garbage: int): Window {
    Window(SlowStart, 1, 1000, 0, 0, garbage)
  }

  /** The guard of the send loop, apart from the state of the file stream. */
  predicate CanSend(w: Window) {
    w.notAcked < w.cwnd && w.notAcked < MAX_NOT_ACKED
  }

  function OnSend(w: Window): Window {
    w.(notAcked := w.notAcked + 1)
  }

  /** Whether a duplicate ack makes the sender retransmit. */
  predicate ThirdDup(w: Window) {
    w.mode != FastRecovery && w.dupAckCount + 1 == 3
  }

  /** Effect of a duplicate ack, before the retransmission it may cause. */
  function OnDupAck(w: Window): Window {
    var w1 := w.(dupAckCount := w.dupAckCount + 1);
    if w.mode == FastRecovery then w1.(cwnd := w.cwnd + 1)
    else if ThirdDup(w) then
      w1.(mode := FastRecovery, ssthresh := w.cwnd / 2 * 100, cwnd := w.cwnd / 2 + 3, notAcked := w.cwnd / 2)
    else w1
  }

  /** Effect of an ack that moves the acked position forward by `covered` whole segments. */
  function OnNewAck(w: Window, covered: nat): Window {
    var w1 := w.(dupAckCount := 0);
    match w.mode
    case SlowStart =>
      var w2 := w1.(cwnd := w.cwnd + 1, notAcked := w.notAcked - 1);
      if w2.cwnd * 100 >= w.ssthresh then w2.(mode := CongestionAvoidance, caAckCount := 0) else w2
    case CongestionAvoidance =>
      var w2 := w1.(caAckCount := w.caAckCount + 1, notAcked := w.notAcked - 1);
      if w.cwnd == w2.caAckCount then w2.(cwnd := w.cwnd + 1, caAckCount := 0) else w2
    case FastRecovery =>
      w1.(mode := CongestionAvoidance, cwnd := w.ssthresh / 100, caAckCount := 0, notAcked := w.notAcked - covered)
  }

  function OnTimeout(w: Window): Window {
    w.(mode := SlowStart, ssthresh := w.cwnd * 100 / 2, cwnd := 1, dupAckCount := 0, notAcked := 0)
  }

  /** The things that can happen to the window; all but Sent and TimedOut are arriving packets. */
  datatype Event = Sent | NewAck(covered: nat) | DupAck | Ignored | TimedOut

  predicate Arrives(e: Event) {
    e.NewAck? || e.DupAck? || e.Ignored?
  }

  predicate Allowed(w: Window, e: Event) {
    e.Sent? ==> CanSend(w)
  }

  function OnEvent(w: Window, e: Event): Window {
    match e
    case Sent => OnSend(w)
    case NewAck(covered) => OnNewAck(w, covered)
    case DupAck => if ThirdDup(w) then OnSend(OnDupAck(w)) else OnDupAck(w)
    case Ignored => w
    case TimedOut => OnTimeout(w)
  }

  // ----- what every run keeps -----

  ghost predicate Inv(w: Window) {
    && (w.dupAckCount >= 3 <==> w.mode == FastRecovery)
    && (w.mode == SlowStart ==> w.cwnd == 1 || (1 <= w.cwnd && 100 * w.cwnd < w.ssthresh))
    && (w.mode == CongestionAvoidance ==>
          && 100 * w.cwnd >= w.ssthresh
          && (w.cwnd == 0 <==> w.caAckCount >= w.cwnd)
          && 0 <= w.caAckCount
          && (w.cwnd == 0 ==> w.ssthresh == 0))
    && (w.mode == FastRecovery ==> w.ssthresh % 100 == 0 && w.cwnd >= w.ssthresh / 100 + 3)
  }

  /** Sent but not acked: in fast recovery the bound is the one of the window that recovery will leave. */
  ghost predicate Outstanding(w: Window) {
    var c := if w.mode == FastRecovery then w.ssthresh / 100 else w.cwnd;
    w.notAcked <= MAX_NOT_ACKED || w.notAcked <= c + 1
  }

  /** Window growth still to be paid for: duplicate acks count until fast recovery has used them. */
  ghost function Potential(w: Window): nat {
    w.cwnd + if w.mode == FastRecovery then 0 else w.dupAckCount
  }

  function Max(a: int, b: int): int {
    if a < b then b else a
  }

  lemma NewAckKeeps(w: Window, covered: nat)
    requires Inv(w) && Outstanding(w)
    ensures Inv(OnNewAck(w, covered)) && Outstanding(OnNewAck(w, covered))
    ensures Potential(OnNewAck(w, covered)) <= Max(1, Potential(w) + 1)
  {
  }

  lemma StepKeeps(w: Window, e: Event)
    requires Inv(w) && Outstanding(w) && Allowed(w, e)
    ensures Inv(OnEvent(w, e)) && Outstanding(OnEvent(w, e))
    ensures Potential(OnEvent(w, e)) <= Max(1, Potential(w) + if Arrives(e) then 1 else 0)
  {
    if e.NewAck? {
      hide Inv, Outstanding, Potential, OnNewAck;
      NewAckKeeps(w, e.covered);
    }
  }

  /** A run in which the send loop respects its guard. */
  ghost predicate Run(w: Window, es: seq<Event>)
    decreases |es|
  {
    es == [] || (Allowed(w, es[0]) && Run(OnEvent(w, es[0]), es[1..]))
  }

  ghost function After(w: Window, es: seq<Event>): Window
    decreases |es|
  {
    if es == [] then w else After(OnEvent(w, es[0]), es[1..])
  }

  ghost function Arrivals(es: seq<Event>): nat {
    if es == [] then 0 else (if Arrives(es[0]) then 1 else 0) + Arrivals(es[1..])
  }

  lemma {:induction false} RunKeeps(w: Window, es: seq<Event>)
    requires Inv(w) && Outstanding(w) && Run(w, es)
    ensures Inv(After(w, es)) && Outstanding(After(w, es))
    ensures Potential(After(w, es)) <= Max(1, Potential(w)) + Arrivals(es)
    decreases |es|
  {
    hide OnEvent, Potential, Inv, Outstanding;
    if es != [] {
      StepKeeps(w, es[0]);
      RunKeeps(OnEvent(w, es[0]), es[1..]);
    }
  }

  /** In every reachable state: the mode fits the numbers, a closed window means congestion avoidance with
      a zero threshold, at most max(25, cwnd + 1) segments are outstanding, and the window never exceeds
      one plus the number of packets received, although one duplicate ack can raise it by up to 3. */
  lemma Reachable(garbage: int, es: seq<Event>)
    requires Run(Fresh(garbage), es)
    ensures var w := After(Fresh(garbage), es);
            && Inv(w)
            && (w.cwnd == 0 ==> w.mode == CongestionAvoidance && w.ssthresh == 0)
            && w.notAcked <= Max(MAX_NOT_ACKED, w.cwnd + 1)
            && w.cwnd <= 1 + Arrivals(es)
  {
    RunKeeps(Fresh(garbage), es);
  }

  // ----- counting events -----

  function Sents(es: seq<Event>): nat {
    if es == [] then 0 else Sents(es[..|es| - 1]) + if es[|es| - 1].Sent? then 1 else 0
  }

  function NewAcks(es: seq<Event>): nat {
    if es == [] then 0 else NewAcks(es[..|es| - 1]) + if es[|es| - 1].NewAck? then 1 else 0
  }

  function Dups(es: seq<Event>): nat {
    if es == [] then 0 else Dups(es[..|es| - 1]) + if es[|es| - 1].DupAck? then 1 else 0
  }

  lemma CountLast(es: seq<Event>, e: Event)
    ensures Sents(es + [e]) == Sents(es) + if e.Sent? then 1 else 0
    ensures NewAcks(es + [e]) == NewAcks(es) + if e.NewAck? then 1 else 0
    ensures Dups(es + [e]) == Dups(es) + if e.DupAck? then 1 else 0
  {
    assert (es + [e])[..|es|] == es;
  }

  /** Neither a duplicate ack nor a timeout. */
  predicate Smooth(es: seq<Event>) {
    forall e :: e in es ==> e.NewAck? || e.Sent? || e.Ignored?
  }

  lemma {:induction false} AfterAppend(w: Window, es: seq<Event>, e: Event)
    ensures After(w, es + [e]) == OnEvent(After(w, es), e)
    ensures Run(w, es + [e]) <==> Run(w, es) && Allowed(After(w, es), e)
    decreases |es|
  {
    hide OnEvent, Allowed;
    if es == [] {
      assert es + [e] == [e] && [e][1..] == [];
      assert After(w, [e]) == After(OnEvent(w, e), []);
      assert Run(OnEvent(w, e), []);
    } else {
      assert (es + [e])[1..] == es[1..] + [e];
      AfterAppend(OnEvent(w, es[0]), es[1..], e);
    }
  }

  lemma AfterLast(w: Window, es: seq<Event>)
    requires es != []
    ensures var before := es[..|es| - 1];
            && After(w, es) == OnEvent(After(w, before), es[|es| - 1])
            && (Run(w, es) <==> Run(w, before) && Allowed(After(w, before), es[|es| - 1]))
  {
    hide After, Run, OnEvent, Allowed;
    assert es == es[..|es| - 1] + [es[|es| - 1]];
    AfterAppend(w, es[..|es| - 1], es[|es| - 1]);
  }

  /** New acks never open a closed window again: only a timeout or a third duplicate ack can. */
  lemma {:induction false} ClosedStaysClosed(w: Window, es: seq<Event>)
    requires w.mode == CongestionAvoidance && w.cwnd == 0 && w.caAckCount >= 0
    requires Smooth(es)
    ensures After(w, es).cwnd == 0
    decreases |es|
  {
    if es != [] {
      assert es[0] in es;
      ClosedStaysClosed(OnEvent(w, es[0]), es[1..]);
    }
  }

  // ----- additive increase -----

  /** 0 + 1 + ... + (n-1): the acks it takes to open the window from 0 to n. */
  function Triangle(n: nat): nat {
    if n == 0 then 0 else Triangle(n - 1) + n - 1
  }

  lemma TriangleClosed(n: nat)
    ensures 2 * Triangle(n) == n * (n - 1)
  {
  }

  lemma {:induction false} TriangleSplit(c: nat, d: nat)
    ensures Triangle(c + d) == Triangle(c) + c * d + Triangle(d)
    decreases d
  {
    if d > 0 {
      TriangleSplit(c, d - 1);
      assert c * d == c * (d - 1) + c;
    }
  }

  lemma {:induction false} TriangleGrows(m: nat, n: nat)
    requires m < n
    ensures Triangle(n) >= Triangle(m) + m
    decreases n
  {
    if m + 1 < n {
      TriangleGrows(m, n - 1);
    }
  }

  lemma TriangleUnique(m: nat, r: nat, n: nat, s: nat)
    requires r < m && s < n && Triangle(m) + r == Triangle(n) + s
    ensures m == n && r == s
  {
    if m < n {
      TriangleGrows(m, n);
    } else if n < m {
      TriangleGrows(n, m);
    }
  }

  ghost predicate Avoiding(w: Window) {
    w.mode == CongestionAvoidance && 0 <= w.caAckCount < w.cwnd
  }

  ghost function Credit(w: Window): int {
    Triangle(w.cwnd) + w.caAckCount
  }

  /** In congestion avoidance every new ack adds exactly one to the credit and takes one off the outstanding
      segments, however many it covers. */
  lemma {:induction false} CreditGrows(w: Window, es: seq<Event>)
    requires Avoiding(w) && Smooth(es)
    ensures var w' := After(w, es);
            && Avoiding(w') && w'.cwnd >= w.cwnd && w'.ssthresh == w.ssthresh
            && Credit(w') == Credit(w) + NewAcks(es)
            && w'.notAcked == w.notAcked + Sents(es) - NewAcks(es)
    decreases |es|
  {
    if es != [] {
      assert es[|es| - 1] in es;
      AfterLast(w, es);
      CreditGrows(w, es[..|es| - 1]);
    }
  }

  /** After k new acks from window c the window is c + d, for the one d with k = c*d + d*(d-1)/2 + r, r < c + d. */
  lemma AdditiveIncrease(w: Window, es: seq<Event>, d: nat, r: nat)
    requires w.mode == CongestionAvoidance && w.cwnd >= 1 && w.caAckCount == 0
    requires Smooth(es)
    ensures var w' := After(w, es);
            w'.cwnd == w.cwnd + d && w'.caAckCount == r
            <==> NewAcks(es) == w.cwnd * d + d * (d - 1) / 2 + r && r < w.cwnd + d
  {
    hide NewAcks, Sents, After;
    var w', c := After(w, es), w.cwnd;
    CreditGrows(w, es);
    TriangleSplit(c, d);
    TriangleClosed(d);
    assert d * (d - 1) / 2 == Triangle(d);
    if NewAcks(es) == c * d + d * (d - 1) / 2 + r && r < c + d {
      TriangleUnique(w'.cwnd, w'.caAckCount, c + d, r);
    }
  }

  // ----- decrease -----

  /** Duplicate acks since the last new ack or timeout. */
  function DupRun(es: seq<Event>): nat {
    if es == [] then 0
    else
      var rest := DupRun(es[..|es| - 1]);
      match es[|es| - 1]
      case DupAck => rest + 1
      case NewAck(_) => 0
      case TimedOut => 0
      case _ => rest
  }

  /** The sender is in fast recovery exactly while it has seen three or more duplicates in a row. */
  lemma {:induction false} RecoveryIff(garbage: int, es: seq<Event>)
    requires Run(Fresh(garbage), es)
    ensures var w := After(Fresh(garbage), es);
            w.dupAckCount == DupRun(es) && (w.mode == FastRecovery <==> DupRun(es) >= 3)
    decreases |es|
  {
    Reachable(garbage, es);
    if es != [] {
      AfterLast(Fresh(garbage), es);
      RecoveryIff(garbage, es[..|es| - 1]);
    }
  }

  /** Three duplicate acks in a row halve the window, rounded down to whole segments, and leave room for three. */
  lemma ThreeDuplicates(w: Window)
    requires w.mode != FastRecovery && w.dupAckCount == 0
    ensures var w' := After(w, [DupAck, DupAck, DupAck]);
            && w'.mode == FastRecovery && w'.ssthresh % 100 == 0
            && 100 * w.cwnd - 100 <= 2 * w'.ssthresh <= 100 * w.cwnd
            && 100 * w'.cwnd == w'.ssthresh + 300 && 100 * w'.notAcked == w'.ssthresh + 100
  {
    var w1 := OnEvent(w, DupAck);
    var w2 := OnEvent(w1, DupAck);
    assert [DupAck, DupAck, DupAck][1..] == [DupAck, DupAck];
    assert [DupAck, DupAck][1..] == [DupAck];
    assert [DupAck][1..] == [];
    assert After(w, [DupAck, DupAck, DupAck]) == After(w1, [DupAck, DupAck]) == After(w2, [DupAck]);
    assert After(w2, [DupAck]) == After(OnEvent(w2, DupAck), []);
  }

  /** The window in a recovery that began at window c, after so many more duplicates and sends. */
  ghost predicate Halved(c: nat, w: Window, dups: nat, sents: nat) {
    && w.ssthresh % 100 == 0 && 100 * c - 100 <= 2 * w.ssthresh <= 100 * c
    && 100 * w.cwnd == w.ssthresh + 300 + 100 * dups
    && 100 * w.notAcked == w.ssthresh + 100 + 100 * sents
  }

  /** Sends and packets that do not end a recovery. */
  predicate Steady(es: seq<Event>) {
    forall e :: e in es ==> e.Sent? || e.DupAck? || e.Ignored?
  }

  /** Event i made recovery begin: the threshold is half of the window it found, every later duplicate opened the
      window by one, and besides the retransmission only what was sent since is outstanding. */
  ghost predicate RecoveringSince(w0: Window, es: seq<Event>, i: nat) {
    && i < |es| && es[i].DupAck? && Steady(es[i + 1..])
    && After(w0, es[..i]).mode != FastRecovery && After(w0, es[..i]).dupAckCount == 2
    && Halved(After(w0, es[..i]).cwnd, After(w0, es), Dups(es[i + 1..]), Sents(es[i + 1..]))
  }

  lemma RecoveryBegins(w0: Window, es: seq<Event>, e: Event)
    requires After(w0, es).mode != FastRecovery && After(w0, es + [e]).mode == FastRecovery
    ensures RecoveringSince(w0, es + [e], |es|)
  {
    hide After;
    AfterAppend(w0, es, e);
    assert (es + [e])[|es| + 1..] == [] && (es + [e])[..|es|] == es;
  }

  lemma HalvedGoesOn(c: nat, w: Window, e: Event, dups: nat, sents: nat)
    requires Halved(c, w, dups, sents) && w.mode == FastRecovery == OnEvent(w, e).mode
    ensures e.Sent? || e.DupAck? || e.Ignored?
    ensures Halved(c, OnEvent(w, e), dups + if e.DupAck? then 1 else 0, sents + if e.Sent? then 1 else 0)
  {
  }

  lemma RecoveryGoesOn(w0: Window, es: seq<Event>, e: Event, i: nat)
    requires RecoveringSince(w0, es, i)
    requires After(w0, es).mode == FastRecovery == After(w0, es + [e]).mode
    ensures RecoveringSince(w0, es + [e], i)
  {
    hide After, OnEvent, Halved, Dups, Sents, NewAcks;
    AfterAppend(w0, es, e);
    var soFar := es[i + 1..];
    assert (es + [e])[..i] == es[..i] && (es + [e])[i + 1..] == soFar + [e];
    CountLast(soFar, e);
    HalvedGoesOn(After(w0, es[..i]).cwnd, After(w0, es), e, Dups(soFar), Sents(soFar));
  }

  /** Whoever is in fast recovery has halved its window, in every run. */
  lemma {:induction false} RecoveryHalves(garbage: int, es: seq<Event>) returns (i: nat)
    requires After(Fresh(garbage), es).mode == FastRecovery
    ensures RecoveringSince(Fresh(garbage), es, i)
    decreases |es|
  {
    hide OnEvent, RecoveringSince;
    assert es != [];
    var before, last := es[..|es| - 1], es[|es| - 1];
    assert es == before + [last];
    if After(Fresh(garbage), before).mode == FastRecovery {
      i := RecoveryHalves(garbage, before);
      RecoveryGoesOn(Fresh(garbage), before, last, i);
    } else {
      i := |before|;
      RecoveryBegins(Fresh(garbage), before, last);
    }
  }

  /** How many new acks slow start takes after a timeout at window c. */
  function SlowStartAcks(c: nat): nat {
    if c <= 4 then 1 else (c + 1) / 2 - 1
  }

  /** The window k new acks and so many sends after a timeout at window c. */
  ghost predicate Regrown(c: nat, w: Window, k: nat, sents: nat) {
    && 2 * w.ssthresh == 100 * c && w.dupAckCount == 0 && w.notAcked == sents - k
    && (w.mode == SlowStart <==> k == 0 || 2 * (k + 1) < c)
    && (w.mode == SlowStart ==> w.cwnd == k + 1)
    && (w.mode != SlowStart ==>
          && Avoiding(w) && k >= SlowStartAcks(c)
          && Credit(w) == Triangle(SlowStartAcks(c) + 1) + k - SlowStartAcks(c))
  }

  lemma RegrownGoesOn(c: nat, w: Window, e: Event, k: nat, sents: nat)
    requires Regrown(c, w, k, sents) && (e.NewAck? || e.Sent? || e.Ignored?)
    ensures Regrown(c, OnEvent(w, e), k + if e.NewAck? then 1 else 0, sents + if e.Sent? then 1 else 0)
  {
  }

  /** After a timeout at window c the threshold is half of it, to the half segment. Slow start opens the window by
      one per new ack as long as it is below that, and additive increase takes over from there. */
  lemma {:induction false} Regrowth(w: Window, es: seq<Event>)
    requires Smooth(es)
    ensures Regrown(w.cwnd, After(OnTimeout(w), es), NewAcks(es), Sents(es))
    decreases |es|
  {
    if es != [] {
      var before, last := es[..|es| - 1], es[|es| - 1];
      assert es == before + [last] && last in es;
      hide After, Regrown, NewAcks, Sents, Dups, OnEvent, OnTimeout;
      AfterAppend(OnTimeout(w), before, last);
      Regrowth(w, before);
      CountLast(before, last);
      RegrownGoesOn(w.cwnd, After(OnTimeout(w), before), last, NewAcks(before), Sents(before));
    }
  }
}
