/** The round-trip estimator, in exact arithmetic (MP2/sender_state_machine.cpp:386-415). Times are in microseconds. */
module RoundTrip {

  datatype Rtt = Rtt(estimated: nat, deviation: nat, timeoutInterval: nat)

  const INITIAL := Rtt(100000, 20000, 100000)
  const ALPHA := 0.125
  const BETA := 0.25
  const ULONG: int := 0x1_0000_0000_0000_0000

  /** Subtraction of unsigned longs. */
  function Elapsed(receiveTime: nat, sendTime: nat): nat {
    (receiveTime - sendTime) % ULONG
  }

  /** (1-gain)*old + gain*sample, truncated on assignment to an integer. */
  function Blend(gain: real, old_: nat, sample: nat): (r: nat)
    requires gain == ALPHA || gain == BETA
  {
    var x := (1.0 - gain) * old_ as real + gain * sample as real;
    assert gain == ALPHA ==> x == 0.875 * old_ as real + 0.125 * sample as real;
    assert gain == BETA ==> x == 0.75 * old_ as real + 0.25 * sample as real;
    x.Floor
  }

  function Update(r: Rtt, receiveTime: nat, sendTime: nat): Rtt {
    var est := Blend(ALPHA, r.estimated, Elapsed(receiveTime, sendTime));
    var distance := if sendTime > receiveTime then sendTime - receiveTime else receiveTime - sendTime;
    var dev := Blend(BETA, r.deviation, distance);
    Rtt(est, dev, est + 4 * dev)
  }

  /** Integer form of both filters (n is 8 for the estimate, 4 for the deviation): one n-th of the distance
      to the sample, rounded down. */
  function Move(old_: int, sample: int, n: int): int
    requires n == 4 || n == 8
  {
    old_ + (sample - old_) / n
  }

  lemma UpdateIsTwoMoves(r: Rtt, receiveTime: nat, sendTime: nat)
    requires sendTime <= receiveTime < sendTime + ULONG
    ensures var s := receiveTime - sendTime;
            var r' := Update(r, receiveTime, sendTime);
            && r'.estimated == Move(r.estimated, s, 8)
            && r'.deviation == Move(r.deviation, s, 4)
            && r'.timeoutInterval == r'.estimated + 4 * r'.deviation
  {
    var s := receiveTime - sendTime;
    BlendIsMove(ALPHA, 8, r.estimated, s);
    BlendIsMove(BETA, 4, r.deviation, s);
  }

  /** When the clock has run backwards the subtraction of unsigned longs wraps around: the estimate is pulled towards
      2^64 less the difference, the deviation towards the difference. */
  lemma UpdateBackwards(r: Rtt, receiveTime: nat, sendTime: nat)
    requires receiveTime < sendTime < receiveTime + ULONG
    ensures var s := sendTime - receiveTime;
            var r' := Update(r, receiveTime, sendTime);
            && r'.estimated == Move(r.estimated, ULONG - s, 8)
            && r'.deviation == Move(r.deviation, s, 4)
            && r'.timeoutInterval == r'.estimated + 4 * r'.deviation
  {
    var s := sendTime - receiveTime;
    assert Elapsed(receiveTime, sendTime) == ULONG - s;
    BlendIsMove(ALPHA, 8, r.estimated, ULONG - s);
    BlendIsMove(BETA, 4, r.deviation, s);
  }

  lemma BlendIsMove(gain: real, n: int, old_: nat, sample: nat)
    requires (gain == ALPHA && n == 8) || (gain == BETA && n == 4)
    ensures Blend(gain, old_, sample) == Move(old_, sample, n)
  {
    var q := (sample - old_) / n;
    var x := (1.0 - gain) * old_ as real + gain * sample as real;
    assert x == old_ as real + gain * (sample - old_) as real;
    assert n * q <= sample - old_ < n * q + n;
    assert (old_ + q) as real <= x < (old_ + q) as real + 1.0;
  }

  // ----- runs of the filter -----

  function Moves(e: int, samples: seq<int>, n: int): int
    requires n == 4 || n == 8
    decreases |samples|
  {
    if samples == [] then e else Moves(Move(e, samples[0], n), samples[1..], n)
  }

  /** The estimator over a run of acks, each given by its receive and send time. */
  function Updates(r: Rtt, acks: seq<(nat, nat)>): Rtt
    decreases |acks|
  {
    if acks == [] then r else Updates(Update(r, acks[0].0, acks[0].1), acks[1..])
  }

  function Samples(acks: seq<(nat, nat)>): seq<int>
    decreases |acks|
  {
    if acks == [] then [] else [acks[0].0 as int - acks[0].1] + Samples(acks[1..])
  }

  /** Under a clock that does not run backwards the estimator is two such filters over the elapsed times. */
  lemma {:induction false} UpdatesAreMoves(r: Rtt, acks: seq<(nat, nat)>)
    requires forall i :: 0 <= i < |acks| ==> acks[i].1 <= acks[i].0 < acks[i].1 + ULONG
    ensures Updates(r, acks).estimated == Moves(r.estimated, Samples(acks), 8)
    ensures Updates(r, acks).deviation == Moves(r.deviation, Samples(acks), 4)
    decreases |acks|
  {
    hide Update, Move;
    if acks != [] {
      var r' := Update(r, acks[0].0, acks[0].1);
      UpdateIsTwoMoves(r, acks[0].0, acks[0].1);
      assert Samples(acks)[1..] == Samples(acks[1..]);
      UpdatesAreMoves(r', acks[1..]);
    }
  }

  /** The estimate never leaves the range of the samples, widened by its starting value. */
  lemma {:induction false} StaysInRange(e: int, samples: seq<int>, n: int, lo: int, hi: int)
    requires (n == 4 || n == 8) && lo <= e <= hi
    requires forall s :: s in samples ==> lo <= s <= hi
    ensures lo <= Moves(e, samples, n) <= hi
    decreases |samples|
  {
    if samples != [] {
      assert samples[0] in samples;
      assert forall s :: s in samples[1..] ==> s in samples;
      MoveTowards(e, samples[0], n);
      StaysInRange(Move(e, samples[0], n), samples[1..], n, lo, hi);
    }
  }

  /** One update: stuck within n-1 below the sample, strictly closer without overshooting elsewhere. */
  lemma MoveTowards(e: int, s: int, n: int)
    requires n == 4 || n == 8
    ensures s - (n - 1) <= e <= s <==> Move(e, s, n) == e
    ensures e < s - (n - 1) ==> e < Move(e, s, n) <= s
    ensures e > s ==> s <= Move(e, s, n) < e
  {
    StepSize(s - e, n);
  }

  /** Dividing a distance, rounding down. */
  lemma StepSize(x: int, n: int)
    requires n == 4 || n == 8
    ensures 0 <= x < n <==> x / n == 0
    ensures x >= n ==> 0 < x / n <= x
    ensures x < 0 ==> x <= x / n < 0
  {
    if n == 4 {
      assert x / n == x / 4;
    } else {
      assert x / n == x / 8;
    }
  }

  function Repeat(s: int, k: nat): seq<int> {
    seq(k, _ => s)
  }

  /** Under a constant sample the estimate settles within |e - s| updates and then stays: on s itself
      from above, at most n-1 short of it from below. */
  lemma {:induction false} Settles(e: int, s: int, n: int, k: nat)
    requires (n == 4 || n == 8) && k >= if e < s then s - e else e - s
    ensures s - (n - 1) <= Moves(e, Repeat(s, k), n) <= s
    ensures e >= s ==> Moves(e, Repeat(s, k), n) == s
    decreases k
  {
    MoveTowards(e, s, n);
    if k > 0 {
      assert Repeat(s, k)[1..] == Repeat(s, k - 1);
      if s - (n - 1) <= e <= s {
        Stuck(e, s, n, k);
      } else {
        Settles(Move(e, s, n), s, n, k - 1);
      }
    }
  }

  lemma {:induction false} Stuck(e: int, s: int, n: int, k: nat)
    requires (n == 4 || n == 8) && s - (n - 1) <= e <= s
    ensures Moves(e, Repeat(s, k), n) == e
    decreases k
  {
    MoveTowards(e, s, n);
    if k > 0 {
      assert Repeat(s, k)[1..] == Repeat(s, k - 1);
      Stuck(e, s, n, k - 1);
    }
  }
}
