/** Snowflake-style 64-bit ids: bit 63 unused, a 41-bit millisecond
    timestamp in bits 22..63, a 10-bit node id in bits 12..22 and a 12-bit
    sequence number in bits 0..12; and the per-node generator that hands out
    sequence numbers within one millisecond. The millisecond reading of the
    node's clock is a parameter of `Generate`. */
module Snowflake {
  import opened Wrappers

  /** Bit offsets of the fields: `SEQ_ID_RANGE = 0..12`, `NODE_ID_RANGE =
      12..22`, `TIMESTAMP_RANGE = 22..63`. */
  const NODE_ID_SHIFT: nat := 0x1000               // 2^12
  const TIMESTAMP_SHIFT: nat := 0x40_0000          // 2^22

  const SEQ_ID_LIMIT: nat := 0x1000                // 2^12
  const NODE_ID_LIMIT: nat := 0x400                // 2^10
  const TIMESTAMP_LIMIT: nat := 0x200_0000_0000    // 2^41
  const ID_LIMIT: nat := 0x8000_0000_0000_0000     // 2^63: bit 63 stays clear

  /** The values `set_bits` accepts for each field. */
  predicate InRange(nodeId: int, timestamp: int, seqId: int)
  {
    0 <= nodeId < NODE_ID_LIMIT && 0 <= timestamp < TIMESTAMP_LIMIT && 0 <= seqId < SEQ_ID_LIMIT
  }

  /** `Id::new`: the three fields written into their bit ranges of 0. */
  function NewId(nodeId: int, timestamp: int, seqId: int): (id: nat)
    requires InRange(nodeId, timestamp, seqId)
    ensures id < ID_LIMIT
  {
    seqId + nodeId * NODE_ID_SHIFT + timestamp * TIMESTAMP_SHIFT
  }

  /** `Id::node_id`: bits 12..22. */
  function NodeIdOf(id: nat): (r: nat)
    ensures r < NODE_ID_LIMIT
  {
    (id / NODE_ID_SHIFT) % NODE_ID_LIMIT
  }

  /** Bits 22..63. */
  function TimestampOf(id: nat): (r: nat)
    ensures r < TIMESTAMP_LIMIT
  {
    (id / TIMESTAMP_SHIFT) % TIMESTAMP_LIMIT
  }

  /** Bits 0..12. */
  function SeqIdOf(id: nat): (r: nat)
    ensures r < SEQ_ID_LIMIT
  {
    id % SEQ_ID_LIMIT
  }

  /** Every field reads back what was written into it. */
  lemma FieldsRoundTrip(nodeId: int, timestamp: int, seqId: int)
    requires InRange(nodeId, timestamp, seqId)
    ensures NodeIdOf(NewId(nodeId, timestamp, seqId)) == nodeId
    ensures TimestampOf(NewId(nodeId, timestamp, seqId)) == timestamp
    ensures SeqIdOf(NewId(nodeId, timestamp, seqId)) == seqId
  {
    var id := NewId(nodeId, timestamp, seqId);
    var high := nodeId + timestamp * NODE_ID_LIMIT;
    assert id == seqId + high * NODE_ID_SHIFT;
    DivModUnique(id, NODE_ID_SHIFT, high, seqId);
    DivModUnique(high, NODE_ID_LIMIT, timestamp, nodeId);
    assert id == nodeId * NODE_ID_SHIFT + seqId + timestamp * TIMESTAMP_SHIFT;
    DivModUnique(id, TIMESTAMP_SHIFT, timestamp, nodeId * NODE_ID_SHIFT + seqId);
  }

  /** Quotient and remainder are unique. */
  lemma DivModUnique(x: int, d: int, q: int, r: int)
    requires 0 < d && 0 <= r < d && x == q * d + r
    ensures x / d == q && x % d == r
  {
    var q', r' := x / d, x % d;
    assert (q - q') * d == r' - r;
    if q > q' {
      MulAtLeast(q - q', d);
    } else if q < q' {
      MulAtLeast(q' - q, d);
    }
  }

  lemma MulAtLeast(k: int, d: int)
    requires k >= 1 && d > 0
    ensures k * d >= d
  {
  }

  /** Different in-range triples give different ids. */
  lemma NewIdInjective(n1: int, t1: int, s1: int, n2: int, t2: int, s2: int)
    requires InRange(n1, t1, s1) && InRange(n2, t2, s2)
    requires NewId(n1, t1, s1) == NewId(n2, t2, s2)
    ensures n1 == n2 && t1 == t2 && s1 == s2
  {
    FieldsRoundTrip(n1, t1, s1);
    FieldsRoundTrip(n2, t2, s2);
  }

  /** Ids order by timestamp first, then by sequence number. */
  lemma NewIdOrder(n: int, t1: int, s1: int, t2: int, s2: int)
    requires InRange(n, t1, s1) && InRange(n, t2, s2)
    requires t1 < t2 || (t1 == t2 && s1 < s2)
    ensures NewId(n, t1, s1) < NewId(n, t2, s2)
  {
    if t1 < t2 {
      assert (t2 - t1) * TIMESTAMP_SHIFT >= TIMESTAMP_SHIFT;
    }
  }

  class Node {
    const nodeId: int
    var seqId: int
    /** The millisecond of the last id handed out, if any. */
    var time: Option<int>

    constructor (nodeId: int)
      ensures this.nodeId == nodeId && seqId == 0 && time == None
    {
      this.nodeId := nodeId;
      seqId := 0;
      time := None;
    }

    /** The sequence number the next id at `timestamp` would carry. */
    function NextSeqId(timestamp: int): int
      reads this
    {
      if time == Some(timestamp) then seqId else 0
    }

    /** The next id at millisecond `timestamp`: a new millisecond restarts
        the sequence at 0, the same millisecond takes the next number.
        `set_bits` panics on a field that does not fit its range. */
    method Generate(timestamp: int) returns (id: nat)
      requires InRange(nodeId, timestamp, NextSeqId(timestamp))
      modifies this
      ensures time == Some(timestamp)
      ensures old(time) != Some(timestamp) ==> seqId == 1 && id == NewId(nodeId, timestamp, 0)
      ensures old(time) == Some(timestamp) ==> seqId == old(seqId) + 1 && id == NewId(nodeId, timestamp, old(seqId))
      ensures NodeIdOf(id) == nodeId && TimestampOf(id) == timestamp
    {
      var changed := false;
      match time {
        case None => changed := true;
        case Some(t) =>
          if t != timestamp {
            changed := true;
          }
      }
      var issued: int;
      if changed {
        time := Some(timestamp);
        issued := 0;
        seqId := 1;
      } else {
        issued := seqId;
        seqId := seqId + 1;
      }
      id := NewId(nodeId, timestamp, issued);
      FieldsRoundTrip(nodeId, timestamp, issued);
    }
  }
}
