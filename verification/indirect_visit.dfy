/** Two stores of fixed 64-byte rows: one holding the rows themselves, one
    holding a flat byte buffer and a table of 32-bit offsets into it, read
    through a raw 64-byte window. */
module IndirectVisit {
  import opened Wrappers
  import opened Ints

  const ROW_SIZE: nat := 64
  /** The largest allocation, in bytes, a Rust vector may request. */
  const ISIZE_MAX: nat := 0x7FFF_FFFF_FFFF_FFFF

  /** `Row`: exactly 64 bytes. */
  type Row = s: seq<byte> | |s| == ROW_SIZE witness seq(ROW_SIZE, _ => 0)

  /** A row of 64 zero bytes. */
  function ZeroRow(): Row { seq(ROW_SIZE, _ => 0) }

  /** `DirectRows`: the rows in order. */
  datatype DirectRows = DirectRows(rows: seq<Row>)

  /** `IndirectRows`: row `i` starts at byte `offsets[i]` of `rows`. */
  datatype IndirectRows = IndirectRows(offsets: seq<u32>, rows: seq<byte>)

  /** Every offset's 64-byte window lies inside the buffer: the condition
      under which the raw read in `index` is defined. */
  predicate WindowsInBounds(r: IndirectRows)
  {
    forall i :: 0 <= i < |r.offsets| ==> r.offsets[i] + ROW_SIZE <= |r.rows|
  }

  /** The offset pushed for row `i`: `i * 64` cast to `u32`, which keeps the
      low 32 bits. */
  function OffsetOf(i: nat): (r: u32)
    ensures r <= 64 * i && r % ROW_SIZE == 0
    ensures 64 * i < U32_MODULUS ==> r == 64 * i
  {
    (64 * i) % U32_MODULUS
  }

  /** What `DirectRows::new_with_size(sz)` builds: `sz` zero rows. */
  predicate IsFreshDirect(d: DirectRows, sz: nat)
  {
    |d.rows| == sz && forall i :: 0 <= i < sz ==> d.rows[i] == ZeroRow()
  }

  /** What `IndirectRows::new_with_size(sz)` builds: offsets `OffsetOf(i)`
      over `64 * sz` zero bytes. */
  predicate IsFreshIndirect(r: IndirectRows, sz: nat)
  {
    && |r.offsets| == sz
    && (forall i :: 0 <= i < sz ==> r.offsets[i] == OffsetOf(i))
    && |r.rows| == ROW_SIZE * sz
    && (forall j :: 0 <= j < |r.rows| ==> r.rows[j] == 0)
  }

  /** `DirectRows::new_with_size`; the allocation panics past `isize::MAX`
      bytes. */
  method NewDirect(sz: nat) returns (d: DirectRows)
    requires ROW_SIZE * sz <= ISIZE_MAX
    ensures IsFreshDirect(d, sz)
  {
    d := DirectRows(seq(sz, _ => ZeroRow()));
  }

  /** `IndirectRows::new_with_size`: pushes one offset per row, then fills
      the buffer with zeros. */
  method NewIndirect(sz: nat) returns (r: IndirectRows)
    requires ROW_SIZE * sz <= ISIZE_MAX
    ensures IsFreshIndirect(r, sz)
    ensures WindowsInBounds(r)
  {
    var offsets: seq<u32> := [];
    var i := 0;
    while i < sz
      invariant 0 <= i <= sz && |offsets| == i
      invariant forall j :: 0 <= j < i ==> offsets[j] == OffsetOf(j)
    {
      offsets := offsets + [((i * 64) % U32_MODULUS) as u32];
      i := i + 1;
    }
    r := IndirectRows(offsets, seq(ROW_SIZE * sz, _ => 0));
    FreshWindowsInBounds(r, sz);
  }

  /** A freshly built indirect store never reads outside its buffer, for
      every size: a truncated offset is still below `64 * i`. */
  lemma FreshWindowsInBounds(r: IndirectRows, sz: nat)
    requires IsFreshIndirect(r, sz)
    ensures WindowsInBounds(r)
  {
    forall i | 0 <= i < |r.offsets|
      ensures r.offsets[i] + ROW_SIZE <= |r.rows|
    {
      assert r.offsets[i] == OffsetOf(i) <= 64 * i;
    }
  }

  /** While `64 * sz` fits in 32 bits, row `i` starts at byte `64 * i`. */
  lemma FreshOffsetsExact(r: IndirectRows, sz: nat)
    requires IsFreshIndirect(r, sz) && ROW_SIZE * sz <= U32_MODULUS
    ensures forall i :: 0 <= i < sz ==> r.offsets[i] == ROW_SIZE * i
  {
  }

  /** Past `2^26` rows the truncated offsets repeat: row `i + 2^26` reads
      the same window as row `i`. */
  lemma FreshOffsetsWrap(r: IndirectRows, sz: nat, i: nat)
    requires IsFreshIndirect(r, sz) && i + 0x400_0000 < sz
    ensures r.offsets[i + 0x400_0000] == r.offsets[i]
  {
    assert 64 * (i + 0x400_0000) == 64 * i + U32_MODULUS;
  }

  /** `Index for DirectRows`: row `i`; `None` where the vector index panics. */
  function DirectIndex(d: DirectRows, i: nat): (r: Option<Row>)
    ensures r.Some? <==> i < |d.rows|
    ensures r.Some? ==> r.value == d.rows[i]
  {
    if i < |d.rows| then Some(d.rows[i]) else None
  }

  /** `Index for IndirectRows`: the 64 bytes from `offsets[i]`; `None` where
      the offset lookup panics. */
  function IndirectIndex(r: IndirectRows, i: nat): (res: Option<Row>)
    requires WindowsInBounds(r)
    ensures res.Some? <==> i < |r.offsets|
    ensures res.Some? ==> res.value == r.rows[r.offsets[i]..r.offsets[i] + ROW_SIZE]
  {
    if i < |r.offsets| then Some(r.rows[r.offsets[i]..r.offsets[i] + ROW_SIZE]) else None
  }

  /** Freshly built direct and indirect stores of the same size answer every
      index alike: the same zero row in range, a panic out of range. */
  lemma FreshStoresAgree(d: DirectRows, r: IndirectRows, sz: nat)
    requires IsFreshDirect(d, sz) && IsFreshIndirect(r, sz)
    ensures WindowsInBounds(r)
    ensures forall i: nat :: DirectIndex(d, i) == IndirectIndex(r, i)
  {
    FreshWindowsInBounds(r, sz);
    forall i: nat
      ensures DirectIndex(d, i) == IndirectIndex(r, i)
    {
      if i < sz {
        var w := r.rows[r.offsets[i]..r.offsets[i] + ROW_SIZE];
        assert forall j :: 0 <= j < ROW_SIZE ==> w[j] == 0;
        assert w == ZeroRow();
      }
    }
  }
}
