/** The leaky-bucket rate limiter's `take` step. Times are integer
    nanoseconds: `now` is the clock reading the step starts from, and the
    step reports the duration it asks the clock to sleep, if any. */
module LeakyBucket {
  import opened Wrappers
  import opened Ints

  const NANOS_PER_SECOND: nat := 1_000_000_000

  /** `max_slack_time`: the most negative sleep debt the limiter keeps,
      `slack` seconds below zero. */
  function MaxSlack(slack: u32): (r: int)
    ensures r <= 0
    ensures r % NANOS_PER_SECOND == 0 && -r / NANOS_PER_SECOND == slack
  {
    -(slack * NANOS_PER_SECOND)
  }

  /** The limiter's mutable part: the time of the last granted request and
      the pending sleep debt (negative: time in hand). */
  datatype Limiter = Limiter(last: Option<int>, sleepDur: int)

  /** What one `take` produces: the new state, the time it returns and the
      sleep it asked for. */
  datatype Step = Step(state: Limiter, time: int, slept: Option<nat>)

  /** A freshly built limiter: no request yet, no debt. */
  const Fresh: Limiter := Limiter(None, 0)

  /** A later `take` needs a clock reading no earlier than `last`; the
      elapsed-time conversion panics otherwise. */
  predicate CanTake(l: Limiter, now: int)
  {
    l.last.Some? ==> l.last.value <= now
  }

  /** `take_impl` as written. */
  function Take(l: Limiter, now: int, perReq: nat, slack: u32): (r: Step)
    requires CanTake(l, now)
    ensures r.state.last == Some(r.time) && r.time >= now
    ensures l.last.None? ==> r.time == now && r.slept.None? && r.state.sleepDur == l.sleepDur
    ensures r.slept.Some? <==> l.last.Some? && r.time > now
    ensures r.slept.Some? ==> r.time == now + r.slept.value && r.state.sleepDur == 0
  {
    if l.last.None? then Step(Limiter(Some(now), l.sleepDur), now, None)
    else
      var d := perReq + (now - l.last.value);
      var d' := if d < MaxSlack(slack) then MaxSlack(slack) else d;
      if d' > 0 then Step(Limiter(Some(now + d'), 0), now + d', Some(d'))
      else Step(Limiter(Some(now), d'), now, None)
  }

  /** As written, the slack clamp never applies, and every later `take`
      returns `perReq` plus twice the time elapsed since `last`: the longer
      the limiter has been idle, the longer it sleeps. */
  lemma AsWrittenSpacing(l: Limiter, now: int, perReq: nat, slack: u32)
    requires l.last.Some? && l.last.value <= now
    ensures perReq + (now - l.last.value) >= MaxSlack(slack)
    ensures var r := Take(l, now, perReq, slack);
      r.time - l.last.value == perReq + 2 * (now - l.last.value)
  {
  }

  /** The input that shows the sign error: with 10 ms per request, a second
      request arriving a whole second after the first is still made to
      sleep 1.01 s, where a limiter would let it through at once. */
  lemma AsWrittenOversleeps()
    ensures var first := Take(Fresh, 0, 10_000_000, 0);
      var second := Take(first.state, NANOS_PER_SECOND, 10_000_000, 0);
      second.slept == Some(1_010_000_000) && second.time == 2_010_000_000
  {
  }

  /** `sleep_dur` stays between `-slack` seconds and zero. */
  predicate DebtInRange(l: Limiter, slack: u32)
  {
    MaxSlack(slack) <= l.sleepDur <= 0
  }

  /** The step the limiter evidently intends, as in the leaky-bucket
      limiter it follows: the debt accumulates `perReq` minus the elapsed
      time, clamped at `-slack` seconds; a positive debt is slept off. */
  function IntendedTake(l: Limiter, now: int, perReq: nat, slack: u32): (r: Step)
    requires CanTake(l, now)
    ensures r.state.last == Some(r.time) && r.time >= now
    ensures r.slept.Some? <==> r.time > now
    ensures r.slept.Some? ==> r.time == now + r.slept.value && r.state.sleepDur == 0
    ensures DebtInRange(l, slack) ==> DebtInRange(r.state, slack)
  {
    if l.last.None? then Step(Limiter(Some(now), l.sleepDur), now, None)
    else
      var d := l.sleepDur + perReq - (now - l.last.value);
      var d' := if d < MaxSlack(slack) then MaxSlack(slack) else d;
      if d' > 0 then Step(Limiter(Some(now + d'), 0), now + d', Some(d'))
      else Step(Limiter(Some(now), d'), now, None)
  }

  /** One step of the corrected limiter: the time granted advances past
      `last` by `perReq`, less the debt paid off. */
  lemma IntendedSpacing(l: Limiter, now: int, perReq: nat, slack: u32)
    requires l.last.Some? && l.last.value <= now
    ensures var r := IntendedTake(l, now, perReq, slack);
      r.time - l.last.value >= perReq + l.sleepDur - r.state.sleepDur
  {
  }

  /** The corrected limiter lets a request through without sleeping when it
      arrives at least `perReq` after the last one and no debt is pending. */
  lemma IntendedNoSleepWhenSpaced(l: Limiter, now: int, perReq: nat, slack: u32)
    requires l.last.Some? && l.last.value + perReq <= now && l.sleepDur <= 0
    ensures IntendedTake(l, now, perReq, slack).slept.None?
    ensures IntendedTake(l, now, perReq, slack).time == now
  {
  }

  /** The times a sequence of clock readings is granted by the corrected
      limiter, with its final state; `None` when a reading precedes the
      `last` it would be measured from. */
  function RunIntended(l: Limiter, nows: seq<int>, perReq: nat, slack: u32): Option<(Limiter, seq<int>)>
    decreases |nows|
  {
    if nows == [] then Some((l, []))
    else if !CanTake(l, nows[0]) then None
    else
      var r := IntendedTake(l, nows[0], perReq, slack);
      match RunIntended(r.state, nows[1..], perReq, slack)
      case None => None
      case Some(rest) => Some((rest.0, [r.time] + rest.1))
  }

  /** The rate guarantee of the corrected limiter: counted from a granted
      time `t0`, the `k+1`-th following request is granted no earlier than
      `(k+1) * perReq` later, less at most the `slack` seconds of credit. */
  lemma {:induction false} IntendedRate(l: Limiter, nows: seq<int>, perReq: nat, slack: u32)
    requires l.last.Some? && DebtInRange(l, slack)
    requires RunIntended(l, nows, perReq, slack).Some?
    ensures var ts := RunIntended(l, nows, perReq, slack).value.1;
      |ts| == |nows| &&
      forall k :: 0 <= k < |ts| ==> ts[k] - l.last.value >= (k + 1) * perReq + l.sleepDur
    decreases |nows|
  {
    if nows != [] {
      var r := IntendedTake(l, nows[0], perReq, slack);
      IntendedSpacing(l, nows[0], perReq, slack);
      var rest := RunIntended(r.state, nows[1..], perReq, slack).value;
      IntendedRate(r.state, nows[1..], perReq, slack);
      var ts := RunIntended(l, nows, perReq, slack).value.1;
      assert ts == [r.time] + rest.1;
      forall k | 0 < k < |ts|
        ensures ts[k] - l.last.value >= (k + 1) * perReq + l.sleepDur
      {
        assert ts[k] == rest.1[k - 1];
        assert (k + 1) * perReq == k * perReq + perReq;
      }
    }
  }

  /** The limiter object: `last` and `sleep_dur` change on every `take`;
      the configuration does not. The clock becomes the `now` argument
      and the sleep it is asked for the `slept` result. */
  class LeakyBucketLimiterImpl {
    var last: Option<int>
    var sleepDur: int
    const perReq: nat
    const slack: u32

    /** `LeakyBucketLimiter::new`: no request yet, zero debt. */
    constructor (perReq: nat, slack: u32)
      ensures last.None? && sleepDur == 0
      ensures this.perReq == perReq && this.slack == slack
    {
      this.perReq := perReq;
      this.slack := slack;
      last := None;
      sleepDur := 0;
    }

    /** `take_impl` given the clock reading `now`. */
    method TakeImpl(now: int) returns (t: int, slept: Option<nat>)
      requires last.Some? ==> last.value <= now
      modifies this
      ensures Take(old(Limiter(last, sleepDur)), now, perReq, slack)
        == Step(Limiter(last, sleepDur), t, slept)
      ensures t >= now && last == Some(t)
    {
      if last.None? {
        last := Some(now);
        return now, None;
      }
      sleepDur := perReq + (now - last.value);
      sleepDur := if sleepDur < MaxSlack(slack) then MaxSlack(slack) else sleepDur;
      if sleepDur > 0 {
        var current := sleepDur;
        sleepDur := 0;
        slept := Some(current);
        last := Some(now + current);
      } else {
        slept := None;
        last := Some(now);
      }
      t := last.value;
    }
  }
}
