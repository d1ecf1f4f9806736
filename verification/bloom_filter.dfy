/** Bloom filter with double hashing: sizing from a `Config`, adding and
    querying keys by their 64-bit hash, and the byte image that
    `dump_filter` writes and `parse` reads back (filter bytes, then the
    number of hash functions, then the key count as 8 big-endian bytes).

    The hash of a key (`bloom_hash`) is a parameter; `usize` is taken to be
    64 bits wide, so the trailer is 9 bytes; bit `p` of the filter is bit
    `p % 8` (least significant first) of byte `p / 8`. */
module BloomFilter {
  import opened Wrappers
  import opened Ints
  import opened ByteOrder

  datatype Config = Config(bitsPerKey: nat, estimateKeyNumber: nat, bloomSize: nat)

  /** Bytes after the filter bytes: one for the hash-function count and
      `size_of::<usize>()` for the key count. */
  const META_SIZE: nat := 9

  const MAX_HASH_FUNCTIONS: nat := 30

  /** `x` rounded up to a whole number of bytes. */
  function RoundUpToByte(x: nat): (r: nat)
    ensures r % 8 == 0 && x <= r < x + 8
  {
    ((x + 7) / 8) * 8
  }

  /** Number of bits of a new filter. */
  function BitsSize(cfg: Config): (r: nat)
    ensures r % 8 == 0
    ensures cfg.bloomSize >= cfg.estimateKeyNumber ==> cfg.bloomSize <= r < cfg.bloomSize + 8
    ensures cfg.bloomSize < cfg.estimateKeyNumber && cfg.bitsPerKey * cfg.estimateKeyNumber > 64 ==>
              cfg.bitsPerKey * cfg.estimateKeyNumber <= r < cfg.bitsPerKey * cfg.estimateKeyNumber + 8
    ensures cfg.bloomSize < cfg.estimateKeyNumber && cfg.bitsPerKey * cfg.estimateKeyNumber <= 64 ==> r == 64
  {
    if cfg.bloomSize >= cfg.estimateKeyNumber then RoundUpToByte(cfg.bloomSize)
    else if cfg.bitsPerKey * cfg.estimateKeyNumber > 64 then RoundUpToByte(cfg.bitsPerKey * cfg.estimateKeyNumber)
    else 64
  }

  /** Bits per key: the configured value, or, when the config gives none,
      the filter's bits divided (rounding down) by the key estimate. */
  function BitsPerKey(cfg: Config): (r: nat)
    requires cfg.bitsPerKey != 0 || cfg.estimateKeyNumber != 0
    ensures cfg.bitsPerKey != 0 ==> r == cfg.bitsPerKey
    ensures cfg.bitsPerKey == 0 ==>
              r * cfg.estimateKeyNumber <= BitsSize(cfg) < (r + 1) * cfg.estimateKeyNumber
  {
    if cfg.bitsPerKey == 0 then BitsSize(cfg) / cfg.estimateKeyNumber else cfg.bitsPerKey
  }

  /** Number of hash functions of a new filter: the product of the key
      estimate and the bits per key, clamped into `[1, 30]`. `None` is the
      division by zero when neither bits per key nor a key estimate is
      given. */
  function HashFuncNumber(cfg: Config): (r: Option<nat>)
    ensures r.None? <==> cfg.bitsPerKey == 0 && cfg.estimateKeyNumber == 0
    ensures r.Some? ==> 1 <= r.value <= MAX_HASH_FUNCTIONS
    ensures r.Some? ==>
              var product := cfg.estimateKeyNumber * BitsPerKey(cfg);
              && (product > MAX_HASH_FUNCTIONS ==> r.value == MAX_HASH_FUNCTIONS)
              && (product < 1 ==> r.value == 1)
              && (1 <= product <= MAX_HASH_FUNCTIONS ==> r.value == product)
  {
    if cfg.bitsPerKey == 0 && cfg.estimateKeyNumber == 0 then None
    else
      var product := cfg.estimateKeyNumber * BitsPerKey(cfg);
      Some(if product > MAX_HASH_FUNCTIONS then MAX_HASH_FUNCTIONS else if product < 1 then 1 else product)
  }

  /** As written, a config that leaves bits per key to be derived (as
      `new_with_estimate` does) and has more than 60 bits gets the maximum
      of 30 hash functions: the estimate times the derived bits per key is
      close to the number of bits. */
  lemma EstimatedConfigUsesMaxHashes(cfg: Config)
    requires cfg.bitsPerKey == 0 && 0 < cfg.estimateKeyNumber <= cfg.bloomSize && cfg.bloomSize > 60
    ensures HashFuncNumber(cfg) == Some(MAX_HASH_FUNCTIONS)
  {
    var m := BitsSize(cfg);
    assert m >= 64 by {
      assert m % 8 == 0 && m >= cfg.bloomSize;
    }
    FloorProductAboveMax(m, cfg.estimateKeyNumber, BitsPerKey(cfg));
  }

  /** With `b = m / e` for `e <= m` and `m >= 64`, the product `e * b`
      exceeds 30. */
  lemma FloorProductAboveMax(m: nat, e: nat, b: nat)
    requires 0 < e <= m && m >= 64
    requires b * e <= m < (b + 1) * e
    ensures e * b > MAX_HASH_FUNCTIONS
  {
    if e > MAX_HASH_FUNCTIONS {
      assert b >= 1 by {
        assert m < (b + 1) * e && e <= m;
      }
      assert e * b >= e;
    } else {
      assert e * b + e > m;
    }
  }

  /** The hash-function count the sizing evidently intends: `k = (m / n) *
      ln 2`, with `ln 2` taken as `0.69` as in the LevelDB filter policy
      this sizing follows, clamped into `[1, 30]`. */
  function IntendedHashFuncNumber(cfg: Config): (r: Option<nat>)
    ensures r.None? <==> cfg.bitsPerKey == 0 && cfg.estimateKeyNumber == 0
    ensures r.Some? ==> 1 <= r.value <= MAX_HASH_FUNCTIONS
    ensures r.Some? ==>
              var k := BitsPerKey(cfg) * 69 / 100;
              && (k > MAX_HASH_FUNCTIONS ==> r.value == MAX_HASH_FUNCTIONS)
              && (k < 1 ==> r.value == 1)
              && (1 <= k <= MAX_HASH_FUNCTIONS ==> r.value == k)
  {
    if cfg.bitsPerKey == 0 && cfg.estimateKeyNumber == 0 then None
    else
      var k := BitsPerKey(cfg) * 69 / 100;
      Some(if k > MAX_HASH_FUNCTIONS then MAX_HASH_FUNCTIONS else if k < 1 then 1 else k)
  }

  /** The intended count never exceeds the bits per key (except for the
      floor of one function), however many keys are expected. */
  lemma IntendedAtMostBitsPerKey(cfg: Config)
    requires cfg.bitsPerKey != 0 || cfg.estimateKeyNumber != 0
    ensures IntendedHashFuncNumber(cfg).Some?
    ensures IntendedHashFuncNumber(cfg).value <= if BitsPerKey(cfg) < 1 then 1 else BitsPerKey(cfg)
  {
  }

  /** The sizing of `new_with_estimate(0.01, 100)`: 665 requested bits give
      672 bits and 6 bits per key; as written the filter uses 30 hash
      functions, where `6 * ln 2` calls for 4. */
  lemma EstimatedConfigExample()
    ensures var cfg := Config(0, 100, 665);
      && BitsSize(cfg) == 672 && BitsPerKey(cfg) == 6
      && HashFuncNumber(cfg) == Some(30)
      && IntendedHashFuncNumber(cfg) == Some(4)
  {
    EstimatedConfigUsesMaxHashes(Config(0, 100, 665));
  }

  /** The value of a filter: key count, hash-function count and bits. */
  datatype Filter = Filter(currentKey: u64, hashFuncNumber: byte, bits: seq<bool>)

  /** `rotate_right(33)` of a 64-bit value. */
  function RotateRight33(h: u64): (r: u64)
  {
    h / 0x2_0000_0000 + (h % 0x2_0000_0000) * 0x8000_0000
  }

  /** The `i`-th probe position of hash `h` in a filter of `size` bits. */
  function Probe(h: u64, i: nat, size: nat): (p: nat)
    requires size > 0
    ensures p < size
  {
    ((h + i * RotateRight33(h)) % U64_MODULUS) % size
  }

  /** The positions of the first `k` probes. */
  function Probes(h: u64, k: nat, size: nat): set<nat>
  {
    if size == 0 then {} else set i | 0 <= i < k :: Probe(h, i, size)
  }

  /** Probing is possible: `% bit_size` divides by zero on an empty filter
      that has hash functions. */
  predicate CanProbe(f: Filter)
  {
    f.hashFuncNumber == 0 || |f.bits| > 0
  }

  /** The filter after adding a key of hash `h`. */
  function Added(f: Filter, h: u64): (g: Filter)
    requires CanProbe(f)
  {
    Filter((f.currentKey + 1) % U64_MODULUS, f.hashFuncNumber,
           seq(|f.bits|, p requires 0 <= p < |f.bits| => f.bits[p] || p in Probes(h, f.hashFuncNumber, |f.bits|)))
  }

  /** A key of hash `h` may have been added: every probe bit is set. */
  predicate MayMatch(f: Filter, h: u64)
    requires CanProbe(f)
  {
    forall i :: 0 <= i < f.hashFuncNumber ==> f.bits[Probe(h, i, |f.bits|)]
  }

  /** Adding only sets bits, sets exactly the probe bits, and counts the key. */
  lemma AddedSetsProbes(f: Filter, h: u64)
    requires CanProbe(f)
    ensures CanProbe(Added(f, h)) && |Added(f, h).bits| == |f.bits|
    ensures Added(f, h).hashFuncNumber == f.hashFuncNumber
    ensures Added(f, h).currentKey == (f.currentKey + 1) % U64_MODULUS
    ensures forall p :: 0 <= p < |f.bits| && f.bits[p] ==> Added(f, h).bits[p]
    ensures forall p :: 0 <= p < |f.bits| && !f.bits[p] && Added(f, h).bits[p] ==>
              exists i :: 0 <= i < f.hashFuncNumber && p == Probe(h, i, |f.bits|)
    ensures MayMatch(Added(f, h), h)
  {
    var g := Added(f, h);
    forall i | 0 <= i < f.hashFuncNumber
      ensures g.bits[Probe(h, i, |f.bits|)]
    {
      assert Probe(h, i, |f.bits|) in Probes(h, f.hashFuncNumber, |f.bits|);
    }
  }

  /** The filter after adding keys of hashes `hs`, first to last. */
  function AddedAll(f: Filter, hs: seq<u64>): Filter
    requires CanProbe(f)
    ensures |AddedAll(f, hs).bits| == |f.bits| && AddedAll(f, hs).hashFuncNumber == f.hashFuncNumber
    decreases |hs|
  {
    if hs == [] then f
    else
      AddedSetsProbes(f, hs[0]);
      AddedAll(Added(f, hs[0]), hs[1..])
  }

  /** No false negatives: once a key is added it matches, whatever is added
      after it. */
  lemma {:induction false} NoFalseNegatives(f: Filter, h: u64, later: seq<u64>)
    requires CanProbe(f)
    ensures CanProbe(Added(f, h)) && MayMatch(AddedAll(Added(f, h), later), h)
    decreases |later|
  {
    AddedSetsProbes(f, h);
    MatchSurvives(Added(f, h), h, later);
  }

  lemma {:induction false} MatchSurvives(f: Filter, h: u64, later: seq<u64>)
    requires CanProbe(f) && MayMatch(f, h)
    ensures MayMatch(AddedAll(f, later), h)
    decreases |later|
  {
    if later != [] {
      AddedSetsProbes(f, later[0]);
      MatchSurvives(Added(f, later[0]), h, later[1..]);
    }
  }

  /** The value of a byte whose bits, least significant first, are `bs`. */
  function ByteOfBits(bs: seq<bool>): (r: nat)
    ensures r < Pow2(|bs|)
  {
    if bs == [] then 0 else (if bs[0] then 1 else 0) + 2 * ByteOfBits(bs[1..])
  }

  function Pow2(n: nat): (r: nat)
    ensures r >= 1
  {
    if n == 0 then 1 else 2 * Pow2(n - 1)
  }

  /** The `n` low bits of `x`, least significant first. */
  function BitsOfByte(x: nat, n: nat): (r: seq<bool>)
    ensures |r| == n
  {
    if n == 0 then [] else [x % 2 == 1] + BitsOfByte(x / 2, n - 1)
  }

  lemma {:induction false} ByteRoundTrip(bs: seq<bool>)
    ensures BitsOfByte(ByteOfBits(bs), |bs|) == bs
  {
    if bs != [] {
      ByteRoundTrip(bs[1..]);
      var b := if bs[0] then 1 else 0;
      var r := ByteOfBits(bs[1..]);
      assert (b + 2 * r) % 2 == b && (b + 2 * r) / 2 == r;
    }
  }

  /** The bytes holding `bits`, eight bits to a byte. */
  function Pack(bits: seq<bool>): (r: seq<byte>)
    requires |bits| % 8 == 0
    ensures |r| == |bits| / 8
  {
    if bits == [] then []
    else
      assert Pow2(8) == 256;
      [ByteOfBits(bits[..8]) as byte] + Pack(bits[8..])
  }

  /** The bits held by `bytes`. */
  function Unpack(bytes: seq<byte>): (r: seq<bool>)
    ensures |r| == 8 * |bytes|
  {
    if bytes == [] then [] else BitsOfByte(bytes[0], 8) + Unpack(bytes[1..])
  }

  lemma {:induction false} PackRoundTrip(bits: seq<bool>)
    requires |bits| % 8 == 0
    ensures Unpack(Pack(bits)) == bits
    decreases |bits|
  {
    if bits != [] {
      ByteRoundTrip(bits[..8]);
      PackRoundTrip(bits[8..]);
      assert Pack(bits)[1..] == Pack(bits[8..]);
      assert bits == bits[..8] + bits[8..];
    }
  }

  /** Packing a whole number of bytes followed by more bits. */
  lemma {:induction false} PackAppend(a: seq<bool>, b: seq<bool>)
    requires |a| % 8 == 0 && |b| % 8 == 0
    ensures Pack(a + b) == Pack(a) + Pack(b)
    decreases |a|
  {
    if a != [] {
      assert (a + b)[..8] == a[..8];
      assert (a + b)[8..] == a[8..] + b;
      PackAppend(a[8..], b);
    } else {
      assert a + b == b;
    }
  }

  /** Packing one more octet appends its byte. */
  lemma PackStep(bits: seq<bool>, i: nat)
    requires 8 * (i + 1) <= |bits|
    ensures Pow2(8) == 256
    ensures Pack(bits[..8 * (i + 1)]) == Pack(bits[..8 * i]) + [ByteOfBits(bits[8 * i..8 * i + 8]) as byte]
  {
    var octet := bits[8 * i..8 * i + 8];
    PackAppend(bits[..8 * i], octet);
    assert bits[..8 * (i + 1)] == bits[..8 * i] + octet;
    assert octet[..8] == octet && octet[8..] == [];
    assert Pack(octet) == [ByteOfBits(octet) as byte];
  }

  /** The byte image `dump_filter` writes. */
  function Dumped(f: Filter): (s: seq<byte>)
    requires |f.bits| % 8 == 0
    ensures |s| == |f.bits| / 8 + META_SIZE
  {
    Pack(f.bits) + [f.hashFuncNumber] + BigEndian(f.currentKey, 8)
  }

  /** What `parse` reads from `s`; `None` is the panic on an input of at
      most `META_SIZE + 1` bytes. */
  function Parsed(s: seq<byte>): (r: Option<Filter>)
    ensures r.None? <==> |s| <= META_SIZE + 1
    ensures r.Some? ==> |r.value.bits| == 8 * (|s| - META_SIZE) && r.value.hashFuncNumber == s[|s| - META_SIZE]
  {
    if |s| <= META_SIZE + 1 then None
    else
      var n := |s| - META_SIZE;
      Pow256Of8();
      Some(Filter(FromBigEndian(s[n + 1..]), s[n], Unpack(s[..n])))
  }

  /** Parsing a dump restores the filter whenever the dump has at least two
      filter bytes. */
  lemma DumpParseRoundTrip(f: Filter)
    requires |f.bits| % 8 == 0 && |f.bits| / 8 >= 2
    ensures Parsed(Dumped(f)) == Some(f)
  {
    var s := Dumped(f);
    var n := |f.bits| / 8;
    assert s[..n] == Pack(f.bits);
    assert s[n] == f.hashFuncNumber;
    assert s[n + 1..] == BigEndian(f.currentKey, 8);
    PackRoundTrip(f.bits);
    Pow256Of8();
    BigEndianRoundTrip(f.currentKey, 8);
  }

  /** A dump of a filter with a single filter byte is refused. */
  lemma OneByteDumpRefused(f: Filter)
    requires |f.bits| == 8
    ensures Parsed(Dumped(f)).None?
  {
  }

  class BloomFilter {
    var currentKey: u64
    var hashFuncNumber: byte
    var bitSize: nat
    var bitVec: array<bool>

    ghost predicate Valid()
      reads this
    {
      bitVec.Length == bitSize && bitSize % 8 == 0
    }

    /** The filter's value. */
    function View(): Filter
      reads this, bitVec
    {
      Filter(currentKey, hashFuncNumber, bitVec[..])
    }

    /** A new, empty filter sized by `cfg`; the source divides by zero when
        `cfg` gives neither bits per key nor a key estimate. */
    constructor New(cfg: Config)
      requires HashFuncNumber(cfg).Some?
      ensures Valid() && fresh(bitVec)
      ensures View() == Filter(0, HashFuncNumber(cfg).value, seq(BitsSize(cfg), _ => false))
    {
      var bits := BitsSize(cfg);
      currentKey := 0;
      hashFuncNumber := HashFuncNumber(cfg).value;
      bitSize := bits;
      bitVec := new bool[bits](_ => false);
    }

    /** The filter a byte image describes; the source panics on an image of
        at most `META_SIZE + 1` bytes. */
    constructor Parse(s: seq<byte>)
      requires Parsed(s).Some?
      ensures Valid() && fresh(bitVec)
      ensures Some(View()) == Parsed(s)
    {
      var n := |s| - META_SIZE;
      Pow256Of8();
      currentKey := FromBigEndian(s[n + 1..]);
      hashFuncNumber := s[n];
      bitSize := n * 8;
      var bits := Unpack(s[..n]);
      var a := new bool[n * 8](i requires 0 <= i < n * 8 => bits[i]);
      assert a[..] == bits;
      bitVec := a;
    }

    /** Counts the key and sets its probe bits. */
    method Add(h: u64)
      requires Valid() && CanProbe(View())
      modifies this, bitVec
      ensures Valid() && bitVec == old(bitVec) && bitSize == old(bitSize)
      ensures View() == Added(old(View()), h)
    {
      ghost var bits := bitVec[..];
      currentKey := (currentKey + 1) % U64_MODULUS;
      SetProbes(h);
      assert Added(old(View()), h).bits == Marked(bits, h, hashFuncNumber);
    }

    /** The probe loop of `add`: sets bit `Probe(h, i, bitSize)` for every
        hash function `i`, and nothing else. */
    method SetProbes(h: u64)
      requires Valid() && (hashFuncNumber == 0 || bitSize > 0)
      modifies bitVec
      ensures bitVec[..] == Marked(old(bitVec[..]), h, hashFuncNumber)
    {
      ghost var bits := bitVec[..];
      var base := h;
      var delta := RotateRight33(h);
      var i := 0;
      while i < hashFuncNumber
        invariant i <= hashFuncNumber
        invariant base == (h + i * delta) % U64_MODULUS
        invariant bitVec[..] == Marked(bits, h, i)
      {
        var bitPos := base % bitSize;
        MarkedStep(bits, h, i);
        bitVec[bitPos] := true;
        base := NextBase(h, i, delta, base);
        i := i + 1;
      }
    }

    /** Whether every probe bit of the key is set, stopping at the first
        clear one. */
    method KeyMayMatch(h: u64) returns (r: bool)
      requires Valid() && CanProbe(View())
      ensures r == MayMatch(View(), h)
    {
      ghost var f := View();
      var base := h;
      var delta := RotateRight33(h);
      var i := 0;
      while i < hashFuncNumber
        invariant i <= hashFuncNumber
        invariant base == (h + i * delta) % U64_MODULUS
        invariant forall j :: 0 <= j < i ==> f.bits[Probe(h, j, |f.bits|)]
      {
        var bitPos := base % bitSize;
        assert bitPos == Probe(h, i, |f.bits|) && f.bits[bitPos] == bitVec[bitPos];
        if !bitVec[bitPos] {
          return false;
        }
        base := NextBase(h, i, delta, base);
        i := i + 1;
      }
      return true;
    }

    /** The byte image of the filter. */
    method DumpFilter() returns (resp: seq<byte>)
      requires Valid()
      ensures resp == Dumped(View())
    {
      ghost var bits := bitVec[..];
      var reserveBytes := bitSize / 8;
      resp := [];
      var i := 0;
      while i < reserveBytes
        invariant i <= reserveBytes
        invariant resp == Pack(bits[..8 * i])
      {
        PackStep(bits, i);
        assert bitVec[8 * i..8 * i + 8] == bits[8 * i..8 * i + 8];
        resp := resp + [ByteOfBits(bitVec[8 * i..8 * i + 8]) as byte];
        i := i + 1;
      }
      assert bits[..8 * reserveBytes] == bits;
      resp := resp + [hashFuncNumber];
      resp := resp + BigEndian(currentKey, 8);
    }
  }

  /** One step of the wrapping probe sequence. */
  function NextBase(h: u64, i: nat, delta: u64, base: u64): (r: u64)
    requires base == (h + i * delta) % U64_MODULUS
    ensures r == (h + (i + 1) * delta) % U64_MODULUS
  {
    ModAddStep(h + i * delta, delta);
    (base + delta) % U64_MODULUS
  }

  lemma ModAddStep(a: nat, d: nat)
    ensures (a % U64_MODULUS + d) % U64_MODULUS == (a + d) % U64_MODULUS
  {
    var q := a / U64_MODULUS;
    assert a == q * U64_MODULUS + a % U64_MODULUS;
    ModShift(a % U64_MODULUS + d, q);
  }

  lemma ModShift(x: nat, q: nat)
    ensures (x + q * U64_MODULUS) % U64_MODULUS == x % U64_MODULUS
  {
    if q > 0 {
      ModShift(x, q - 1);
      assert x + q * U64_MODULUS == (x + (q - 1) * U64_MODULUS) + U64_MODULUS;
    }
  }

  /** `bits` with the first `k` probe bits of `h` set. */
  function Marked(bits: seq<bool>, h: u64, k: nat): (r: seq<bool>)
    ensures |r| == |bits|
  {
    seq(|bits|, p requires 0 <= p < |bits| => bits[p] || p in Probes(h, k, |bits|))
  }

  /** Setting the next probe bit extends the marking by one probe. */
  lemma MarkedStep(bits: seq<bool>, h: u64, i: nat)
    requires |bits| > 0
    ensures Marked(bits, h, i + 1) == Marked(bits, h, i)[Probe(h, i, |bits|) := true]
  {
    ProbesStep(h, i, |bits|);
  }

  lemma ProbesStep(h: u64, i: nat, size: nat)
    requires size > 0
    ensures Probes(h, i + 1, size) == Probes(h, i, size) + {Probe(h, i, size)}
  {
  }
}
