/** Fidge/Mattern vector clock of one process, as `VectorClockHandler` keeps
    it: one counter per process, ticked locally on every event and merged
    pointwise with the clocks carried by incoming messages. Counters are
    unbounded here (the source's are `u64`). */
module VectorClock {
  import opened Wrappers
  import opened Ints

  /** Number of processes, and the index of the owning process. */
  datatype Cfg = Cfg(proc: nat, me: nat)

  /** `a` happened before or equals `b`, entry by entry. */
  ghost predicate AtMost(a: seq<nat>, b: seq<nat>)
  {
    |a| == |b| && forall i :: 0 <= i < |a| ==> a[i] <= b[i]
  }

  /** The causal order of two clocks of equal length: equal, strictly
      before, strictly after, or concurrent (`None`). */
  ghost function Compare(a: seq<nat>, b: seq<nat>): Option<Ordering>
    requires |a| == |b|
  {
    if a == b then Some(Equal)
    else if AtMost(a, b) then Some(Less)
    else if AtMost(b, a) then Some(Greater)
    else None
  }

  function Flip(o: Option<Ordering>): Option<Ordering>
  {
    match o
    case Some(Less) => Some(Greater)
    case Some(Greater) => Some(Less)
    case _ => o
  }

  /** A local event of process `me`. */
  function Tick(c: seq<nat>, me: nat): (r: seq<nat>)
    requires me < |c|
    ensures |r| == |c| && r[me] == c[me] + 1
    ensures forall i :: 0 <= i < |c| && i != me ==> r[i] == c[i]
  {
    c[me := c[me] + 1]
  }

  /** Entry-wise maximum over the common prefix of `c` and `o` (the source
      zips the two vectors); entries of `c` past `|o|` are kept. */
  function Merge(c: seq<nat>, o: seq<nat>): (r: seq<nat>)
  {
    seq(|c|, i requires 0 <= i < |c| => if i < |o| && o[i] > c[i] then o[i] else c[i])
  }

  /** Receiving `o`: tick, then merge. */
  function Receive(c: seq<nat>, me: nat, o: seq<nat>): seq<nat>
    requires me < |c|
  {
    Merge(Tick(c, me), o)
  }

  /** Swapping the arguments of the comparison swaps `Less` and `Greater`. */
  lemma CompareSwap(a: seq<nat>, b: seq<nat>)
    requires |a| == |b|
    ensures Compare(b, a) == Flip(Compare(a, b))
  {
  }

  /** Receiving never lowers an entry, keeps the length, strictly raises the
      receiver's own entry, and leaves the receiver at or above the message
      when both have the same length. */
  lemma ReceiveDominates(c: seq<nat>, me: nat, o: seq<nat>)
    requires me < |c|
    ensures |Receive(c, me, o)| == |c|
    ensures forall i :: 0 <= i < |c| ==> c[i] <= Receive(c, me, o)[i]
    ensures c[me] < Receive(c, me, o)[me]
    ensures |o| == |c| ==> AtMost(o, Receive(c, me, o))
    ensures |o| == |c| ==> Compare(Receive(c, me, o), o) in {Some(Greater), Some(Equal)}
    ensures Compare(Receive(c, me, o), c) == Some(Greater)
  {
    var r := Receive(c, me, o);
    assert r != c by { assert r[me] != c[me]; }
    assert AtMost(c, r);
  }

  /** The scenario of the unit test: with three processes, c sends to b and
      b sends to a; then a sends to b while b sends to c. */
  lemma ThreeProcessScenario()
    ensures var z := [0, 0, 0];
            var c1 := Tick(z, 2);
            var b1 := Receive(z, 1, c1);
            var b2 := Tick(b1, 1);
            var a1 := Receive(z, 0, b2);
            && Compare(a1, b2) == Some(Greater)
            && Compare(a1, c1) == Some(Greater)
            && Compare(b2, c1) == Some(Greater)
            && var a2 := Tick(a1, 0);
               var b3 := Tick(b2, 1);
               Compare(Receive(b3, 1, a2), Receive(c1, 2, b3)) == None
  {
    ScenarioFirstRound();
    ScenarioSecondRound();
    var a1, b2, c1 := [1, 2, 1], [0, 2, 1], [0, 0, 1];
    assert AtMost(b2, a1) && AtMost(c1, a1) && AtMost(c1, b2);
    var b4, c2 := [2, 4, 1], [0, 3, 2];
    assert b4[0] > c2[0] && b4[2] < c2[2];
  }

  /** The clocks of the scenario's first round: c sends to b, b ticks and
      sends to a. */
  lemma ScenarioFirstRound()
    ensures Tick([0, 0, 0], 2) == [0, 0, 1]
    ensures Receive([0, 0, 0], 1, [0, 0, 1]) == [0, 1, 1]
    ensures Tick([0, 1, 1], 1) == [0, 2, 1]
    ensures Receive([0, 0, 0], 0, [0, 2, 1]) == [1, 2, 1]
  {
    assert Receive([0, 0, 0], 1, [0, 0, 1]) == Merge([0, 1, 0], [0, 0, 1]);
    assert Receive([0, 0, 0], 0, [0, 2, 1]) == Merge([1, 0, 0], [0, 2, 1]);
  }

  /** The clocks of the second round: a and b tick, then each receives the
      other's message. */
  lemma ScenarioSecondRound()
    ensures Tick([1, 2, 1], 0) == [2, 2, 1]
    ensures Tick([0, 2, 1], 1) == [0, 3, 1]
    ensures Receive([0, 3, 1], 1, [2, 2, 1]) == [2, 4, 1]
    ensures Receive([0, 0, 1], 2, [0, 3, 1]) == [0, 3, 2]
  {
    assert Receive([0, 3, 1], 1, [2, 2, 1]) == Merge([0, 4, 1], [2, 2, 1]);
    assert Receive([0, 0, 1], 2, [0, 3, 1]) == Merge([0, 0, 2], [0, 3, 1]);
  }

  class VectorClockHandler {
    const cfg: Cfg
    const clock: array<nat>

    /** The clock has one entry per process. */
    ghost predicate Valid()
      reads this
    {
      clock.Length == cfg.proc
    }

    /** A clock of `cfg.proc` zeros; the source asserts `proc != 0`. */
    constructor (cfg: Cfg)
      requires cfg.proc != 0
      ensures Valid() && this.cfg == cfg && fresh(clock)
      ensures clock[..] == seq(cfg.proc, _ => 0)
    {
      this.cfg := cfg;
      clock := new nat[cfg.proc](_ => 0);
    }

    /** Causal comparison of this clock with `other`, counting the entries
        where each side is ahead; the source asserts equal lengths. */
    method Comp(other: seq<nat>) returns (r: Option<Ordering>)
      requires Valid() && |other| == cfg.proc
      ensures r == Compare(clock[..], other)
    {
      var larger, smaller := 0, 0;
      var i := 0;
      while i < clock.Length
        invariant i <= clock.Length
        invariant larger == 0 <==> forall j :: 0 <= j < i ==> clock[j] <= other[j]
        invariant smaller == 0 <==> forall j :: 0 <= j < i ==> other[j] <= clock[j]
      {
        if clock[i] < other[i] {
          smaller := smaller + 1;
        } else if clock[i] > other[i] {
          larger := larger + 1;
        }
        i := i + 1;
      }
      if larger == 0 && smaller == 0 {
        assert clock[..] == other by {
          forall j | 0 <= j < |other| ensures clock[..][j] == other[j] {
            assert clock[j] <= other[j] && other[j] <= clock[j];
          }
        }
        r := Some(Equal);
      } else if larger == 0 {
        r := Some(Less);
      } else if smaller == 0 {
        r := Some(Greater);
      } else {
        assert clock[..] != other && !AtMost(clock[..], other) && !AtMost(other, clock[..]);
        r := None;
      }
    }

    /** A send: tick the own entry and hand out a copy of the clock. */
    method SendVec() returns (v: seq<nat>)
      requires Valid() && cfg.me < cfg.proc
      modifies clock
      ensures clock[..] == Tick(old(clock[..]), cfg.me)
      ensures v == clock[..]
    {
      clock[cfg.me] := clock[cfg.me] + 1;
      v := clock[..];
    }

    /** A local event: tick the own entry. */
    method InnerEvent()
      requires Valid() && cfg.me < cfg.proc
      modifies clock
      ensures clock[..] == Tick(old(clock[..]), cfg.me)
    {
      clock[cfg.me] := clock[cfg.me] + 1;
    }

    /** A receive: tick the own entry, then raise every entry to the
        incoming one where that is larger. */
    method ReceiveVec(other: seq<nat>)
      requires Valid() && cfg.me < cfg.proc
      modifies clock
      ensures clock[..] == Receive(old(clock[..]), cfg.me, other)
    {
      clock[cfg.me] := clock[cfg.me] + 1;
      ghost var ticked := clock[..];
      var i := 0;
      while i < clock.Length && i < |other|
        invariant i <= clock.Length
        invariant forall j :: 0 <= j < i ==> clock[j] == Merge(ticked, other)[j]
        invariant forall j :: i <= j < clock.Length ==> clock[j] == ticked[j]
      {
        if other[i] > clock[i] {
          clock[i] := other[i];
        }
        i := i + 1;
      }
      assert clock[..] == Merge(ticked, other);
    }
  }
}
