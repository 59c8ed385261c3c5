/** The adaptive retransmission timer of `UDPStream.drain`, over the reals. */
module RetransmissionTimer {
  import opened Reals

  datatype Timer = Timer(srtt: real, rttvar: real, rto: real)

  const INITIAL := Timer(0.2, 0.1, 0.5)

  /** The update on a first-attempt acknowledgement. */
  function Sample(t: Timer, rtt: real): Timer {
    var err := rtt - t.srtt;
    var rttvar := t.rttvar + 0.25 * (Abs(err) - t.rttvar);
    var srtt := t.srtt + 0.125 * err;
    Timer(srtt, rttvar, Max(0.1, Min(5.0, srtt + 4.0 * rttvar)))
  }

  function Samples(t: Timer, rtts: seq<real>): Timer
    decreases |rtts|
  {
    if rtts == [] then t else Sample(Samples(t, rtts[..|rtts| - 1]), rtts[|rtts| - 1])
  }

  /** How long attempt number `attempt` waits. */
  function Timeout(base: real, attempt: nat): real {
    Min(5.0, Max(0.05, Doubled(base, attempt)))
  }

  /** Over any round-trip times at all the estimates stay non-negative and the timeout stays
      within its clamps; times between `lo` and `hi` keep the mean between them and the deviation
      below their distance. */
  lemma {:induction false} EstimatesBounded(rtts: seq<real>, lo: real, hi: real)
    requires 0.0 <= lo <= 0.2 <= hi
    requires forall k :: 0 <= k < |rtts| ==> lo <= rtts[k] <= hi
    ensures var t := Samples(INITIAL, rtts);
      && lo <= t.srtt <= hi && 0.0 <= t.rttvar <= Max(0.1, hi - lo) && 0.1 <= t.rto <= 5.0
    decreases |rtts|
  {
    if rtts != [] {
      EstimatesBounded(rtts[..|rtts| - 1], lo, hi);
    }
  }

  /** The update is rule 2.3 of RFC 6298 with its gains of one eighth and one quarter, the deviation
      measured against the old mean, and the timeout clamped to [0.1, 5]; but the RFC's rule 2.2 for the
      first measurement, mean R and deviation R/2, is met by no measurement at all, because the first
      one is blended with the defaults like any other. */
  lemma FollowsRfc6298(t: Timer, rtt: real)
    ensures var n := Sample(t, rtt);
      && n.rttvar == 0.75 * t.rttvar + 0.25 * Abs(t.srtt - rtt)
      && n.srtt == 0.875 * t.srtt + 0.125 * rtt
      && (0.1 <= n.srtt + 4.0 * n.rttvar <= 5.0 ==> n.rto == n.srtt + 4.0 * n.rttvar)
      && (n.srtt + 4.0 * n.rttvar < 0.1 ==> n.rto == 0.1) && (n.srtt + 4.0 * n.rttvar > 5.0 ==> n.rto == 5.0)
    ensures var first := Sample(INITIAL, rtt); !(first.srtt == rtt && first.rttvar == rtt / 2.0)
  {
  }

  /** On a steady round-trip time the mean closes an eighth of the distance with every sample. */
  lemma {:induction false} MeanConverges(rtts: seq<real>, rtt: real)
    requires forall k :: 0 <= k < |rtts| ==> rtts[k] == rtt
    ensures Samples(INITIAL, rtts).srtt - rtt == Decay(|rtts|) * (0.2 - rtt)
    decreases |rtts|
  {
    if rtts != [] {
      MeanConverges(rtts[..|rtts| - 1], rtt);
    }
  }

  /** `(7/8)**n`. */
  function Decay(n: nat): real {
    if n == 0 then 1.0 else 0.875 * Decay(n - 1)
  }

  /** The samples `drain` takes are never negative, so these bounds always apply. */
  lemma {:induction false} EstimatesNonNegative(rtts: seq<real>)
    requires forall k :: 0 <= k < |rtts| ==> 0.0 <= rtts[k]
    ensures var t := Samples(INITIAL, rtts); 0.0 <= t.srtt && 0.0 <= t.rttvar && 0.1 <= t.rto <= 5.0
    decreases |rtts|
  {
    if rtts != [] {
      EstimatesNonNegative(rtts[..|rtts| - 1]);
    }
  }

  /** With the timeout in its range the lower clamp of the wait never binds and waits never shrink. */
  lemma {:induction false} TimeoutsGrow(base: real, attempt: nat)
    requires 0.1 <= base <= 5.0
    ensures Timeout(base, attempt) == Min(5.0, Doubled(base, attempt))
    ensures 0.1 <= Doubled(base, attempt) && 0.1 <= Timeout(base, attempt) <= Timeout(base, attempt + 1) <= 5.0
  {
    if attempt > 0 {
      TimeoutsGrow(base, attempt - 1);
    }
  }

  function Sum(s: seq<real>): real {
    if s == [] then 0.0 else Sum(s[..|s| - 1]) + s[|s| - 1]
  }

  predicate Timers(t: Timer) {
    0.0 <= t.srtt && 0.0 <= t.rttvar && 0.1 <= t.rto <= 5.0
  }

  lemma SampleInRange(t: Timer, rtt: real)
    requires Timers(t) && 0.0 <= rtt
    ensures Timers(Sample(t, rtt))
  {
  }

  /** Waits that never shrink and add up to at most five seconds each. */
  predicate Waits(waits: seq<real>, base: real) {
    && (forall k :: 0 <= k < |waits| ==> waits[k] == Timeout(base, k))
    && (forall k :: 0 <= k < |waits| - 1 ==> waits[k] <= waits[k + 1])
    && Sum(waits) <= 5.0 * |waits| as real
  }

  /** The first wait is the timeout itself, and each is twice the one before, up to five seconds. */
  lemma WaitsDouble(waits: seq<real>, base: real)
    requires 0.1 <= base <= 5.0 && Waits(waits, base)
    ensures waits != [] ==> waits[0] == base
    ensures forall k :: 0 <= k < |waits| - 1 ==> waits[k + 1] == Min(5.0, 2.0 * waits[k])
  {
    forall k | 0 <= k < |waits| - 1 ensures waits[k + 1] == Min(5.0, 2.0 * waits[k]) {
      TimeoutsGrow(base, k);
      TimeoutsGrow(base, k + 1);
    }
    assert Doubled(base, 0) == base;
  }

  /** Waits that start at `first`, each twice the one before, up to five seconds; so they never shrink. */
  predicate BacksOff(waits: seq<real>, first: real) {
    && (waits != [] ==> waits[0] == first)
    && forall k :: 0 <= k < |waits| - 1 ==> waits[k + 1] == (if waits[k] < 2.5 then 2.0 * waits[k] else 5.0) >= waits[k]
  }

  lemma WaitsFacts(waits: seq<real>, base: real)
    requires 0.1 <= base <= 5.0 && Waits(waits, base)
    ensures BacksOff(waits, base) && Sum(waits) <= 5.0 * |waits| as real
  {
    WaitsDouble(waits, base);
  }

  lemma NoWaits(base: real)
    ensures Waits([], base)
  {
  }

  lemma WaitAdded(waits: seq<real>, base: real)
    requires 0.1 <= base <= 5.0 && Waits(waits, base)
    ensures Waits(waits + [Timeout(base, |waits|)], base)
  {
    var more := waits + [Timeout(base, |waits|)];
    assert more[..|waits|] == waits;
    TimeoutsGrow(base, |waits|);
    if waits != [] {
      TimeoutsGrow(base, |waits| - 1);
    }
    hide Timeout;
  }
}
