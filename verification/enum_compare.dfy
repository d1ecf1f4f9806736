/** Sort keys over a small dynamically typed value, `Datum`, in four
    layouts: one sorted column of values (`NonChunkedVec`), sorted rows of
    values (`NonChunkedSortKeys`), a column stored as a typed chunk
    (`ChunkedVec`), and rows stored as typed columns and searched on their
    first column (`ChunkedSortKeys`). Rows are the `content` of a
    `NonChunkedVec`, here a `seq<Datum>`. */
module EnumCompare {
  import opened Wrappers
  import opened Ints
  import opened SortedVec

  datatype Datum = Null | I64(x64: i64) | I32(x32: i32) | Bytes(bytes: seq<byte>)

  predicate SameKind(a: Datum, b: Datum)
  {
    (a.Null? && b.Null?) || (a.I64? && b.I64?) || (a.I32? && b.I32?) || (a.Bytes? && b.Bytes?)
  }

  /** `u8::partial_cmp`. */
  function ByteCmp(x: byte, y: byte): Option<Ordering>
  {
    Some(Cmp(x, y))
  }

  lemma {:induction false} BytesCmpDefined(a: seq<byte>, b: seq<byte>)
    ensures Lex(ByteCmp, a, b).Some?
    decreases |a|
  {
    if a != [] && b != [] && ByteCmp(a[0], b[0]) == Some(Equal) {
      BytesCmpDefined(a[1..], b[1..]);
    }
  }

  /** `Datum::partial_cmp`: `Null` sorts first, values of one variant
      compare as numbers or byte strings, and every other pair reaches
      `unimplemented!()`, shown as `None`. */
  function DatumCmp(a: Datum, b: Datum): (r: Option<Ordering>)
    ensures r.Some? <==> a.Null? || SameKind(a, b)
    ensures a.Null? ==> r == Some(if b.Null? then Equal else Less)
  {
    match (a, b)
    case (Null, Null) => Some(Equal)
    case (Null, _) => Some(Less)
    case (I64(x), I64(y)) => Some(Cmp(x, y))
    case (I32(x), I32(y)) => Some(Cmp(x, y))
    case (Bytes(x), Bytes(y)) =>
      BytesCmpDefined(x, y);
      Lex(ByteCmp, x, y)
    case _ => None
  }

  /** The comparison of values is an order: `Equal` exactly on equal
      values, `Greater` the mirror of `Less`, `Less` transitive. */
  lemma DatumCmpIsOrder()
    ensures IsOrder(DatumCmp)
  {
    assert IsOrder(ByteCmp);
    forall a ensures DatumCmp(a, a) == Some(Equal) {
      if a.Bytes? {
        LexReflexive(ByteCmp, a.bytes);
      }
    }
    forall a, b | DatumCmp(a, b) == Some(Equal)
      ensures a == b
    {
      if a.Bytes? && b.Bytes? {
        LexEqual(ByteCmp, a.bytes, b.bytes);
      }
    }
    forall a, b | DatumCmp(a, b) == Some(Greater)
      ensures DatumCmp(b, a) == Some(Less)
    {
      if a.Bytes? && b.Bytes? {
        LexMirror(ByteCmp, a.bytes, b.bytes);
      }
    }
    forall a, b, c | DatumCmp(a, b) == Some(Less) && DatumCmp(b, c) == Some(Less)
      ensures DatumCmp(a, c) == Some(Less)
    {
      if a.Bytes? && b.Bytes? && c.Bytes? {
        LexTransitive(ByteCmp, a.bytes, b.bytes, c.bytes);
      }
    }
  }

  /** A non-`Null` value compared with `Null` panics, although `Null`
      compared with it is `Less`. */
  lemma NullOnlyOnTheLeft(d: Datum)
    requires !d.Null?
    ensures DatumCmp(Null, d) == Some(Less) && DatumCmp(d, Null) == None
  {
  }

  /** The order `#[derive(PartialOrd)]` gives rows: lexicographic on
      `DatumCmp`. */
  function RowCmp(a: seq<Datum>, b: seq<Datum>): Option<Ordering>
  {
    Lex(DatumCmp, a, b)
  }

  lemma RowCmpIsOrder()
    ensures IsOrder(RowCmp)
  {
    DatumCmpIsOrder();
    forall a ensures RowCmp(a, a) == Some(Equal) {
      LexReflexive(DatumCmp, a);
    }
    forall a, b | RowCmp(a, b) == Some(Equal)
      ensures a == b
    {
      LexEqual(DatumCmp, a, b);
    }
    forall a, b | RowCmp(a, b) == Some(Greater)
      ensures RowCmp(b, a) == Some(Less)
    {
      LexMirror(DatumCmp, a, b);
    }
    forall a, b, c | RowCmp(a, b) == Some(Less) && RowCmp(b, c) == Some(Less)
      ensures RowCmp(a, c) == Some(Less)
    {
      LexTransitive(DatumCmp, a, b, c);
    }
  }

  /** One column of values. */
  class NonChunkedVec {
    var content: seq<Datum>

    constructor (content: seq<Datum>)
      ensures this.content == content
    {
      this.content := content;
    }

    method Append(d: Datum)
      modifies this
      ensures content == old(content) + [d]
    {
      content := content + [d];
    }

    /** The number of values held. */
    function Len(): (r: nat)
      reads this
      ensures r == |content|
    {
      |content|
    }

    /** `remove(pos)`, which panics when `pos >= len`. */
    method Delete(pos: nat)
      requires pos < |content|
      modifies this
      ensures content == old(content)[..pos] + old(content)[pos + 1..]
      ensures Sorted(DatumCmp, old(content)) ==> Sorted(DatumCmp, content)
    {
      content := content[..pos] + content[pos + 1..];
      if Sorted(DatumCmp, old(content)) {
        DeleteKeepsSorted(DatumCmp, old(content), pos);
      }
    }

    /** Places `d` at the partition point of `v < d`; every comparison of an
        element with `d` must not panic. */
    method Insert(d: Datum)
      requires Comparable(DatumCmp, content, d)
      modifies this
      ensures content == InsertSorted(DatumCmp, old(content), d)
      ensures Sorted(DatumCmp, old(content)) ==> Sorted(DatumCmp, content)
    {
      content := InsertSorted(DatumCmp, content, d);
      if Sorted(DatumCmp, old(content)) {
        DatumCmpIsOrder();
        InsertKeepsSorted(DatumCmp, old(content), d);
      }
    }

    /** The partition point of `v < d`: the number of elements below `d`
        when the column is sorted. */
    function LowerBound(d: Datum): (r: nat)
      requires Comparable(DatumCmp, content, d)
      reads this
      ensures r <= |content|
      ensures Sorted(DatumCmp, content) ==> r == CountLess(DatumCmp, content, d)
      ensures Sorted(DatumCmp, content) ==>
                forall i :: 0 <= i < |content| ==> (i < r <==> Lt(DatumCmp, content[i], d))
    {
      DatumCmpIsOrder();
      CountsLessWhenSorted(DatumCmp, content, d);
      PartitionPoint(DatumCmp, content, d)
    }
  }

  /** Rows of values, kept in row order. */
  class NonChunkedSortKeys {
    var data: seq<seq<Datum>>

    constructor ()
      ensures data == []
    {
      data := [];
    }

    method Append(row: seq<Datum>)
      modifies this
      ensures data == old(data) + [row]
    {
      data := data + [row];
    }

    /** The number of rows held. */
    function Len(): (r: nat)
      reads this
      ensures r == |data|
    {
      |data|
    }

    /** `remove(pos)`, which panics when `pos >= len`. */
    method Delete(pos: nat)
      requires pos < |data|
      modifies this
      ensures data == old(data)[..pos] + old(data)[pos + 1..]
      ensures Sorted(RowCmp, old(data)) ==> Sorted(RowCmp, data)
    {
      data := data[..pos] + data[pos + 1..];
      if Sorted(RowCmp, old(data)) {
        DeleteKeepsSorted(RowCmp, old(data), pos);
      }
    }

    method Insert(row: seq<Datum>)
      requires Comparable(RowCmp, data, row)
      modifies this
      ensures data == InsertSorted(RowCmp, old(data), row)
      ensures Sorted(RowCmp, old(data)) ==> Sorted(RowCmp, data)
    {
      data := InsertSorted(RowCmp, data, row);
      if Sorted(RowCmp, old(data)) {
        RowCmpIsOrder();
        InsertKeepsSorted(RowCmp, old(data), row);
      }
    }

    function LowerBound(row: seq<Datum>): (r: nat)
      requires Comparable(RowCmp, data, row)
      reads this
      ensures r <= |data|
      ensures Sorted(RowCmp, data) ==> r == CountLess(RowCmp, data, row)
      ensures Sorted(RowCmp, data) ==>
                forall i :: 0 <= i < |data| ==> (i < r <==> Lt(RowCmp, data[i], row))
    {
      RowCmpIsOrder();
      CountsLessWhenSorted(RowCmp, data, row);
      PartitionPoint(RowCmp, data, row)
    }
  }

  /** A column stored unboxed, one chunk type per value type. */
  datatype ChunkedVec =
    | I32Chunk(x32s: seq<i32>)
    | I64Chunk(x64s: seq<i64>)
    | BytesChunk(bytess: seq<seq<byte>>)

  /** The chunk read as a column of values, each tagged with the chunk's
      type. */
  function Column(c: ChunkedVec): seq<Datum>
  {
    match c
    case I32Chunk(v) => seq(|v|, i requires 0 <= i < |v| => I32(v[i]))
    case I64Chunk(v) => seq(|v|, i requires 0 <= i < |v| => I64(v[i]))
    case BytesChunk(v) => seq(|v|, i requires 0 <= i < |v| => Bytes(v[i]))
  }

  /** `ChunkedVec::len`: the number of values in the column. */
  function ChunkLen(c: ChunkedVec): (r: nat)
    ensures r == |Column(c)|
  {
    match c
    case I32Chunk(v) => |v|
    case I64Chunk(v) => |v|
    case BytesChunk(v) => |v|
  }

  /** Element `i` of the chunk, read from its typed vector: value `i` of
      the column. */
  function ChunkAt(c: ChunkedVec, i: nat): (r: Datum)
    requires i < ChunkLen(c)
    ensures r == Column(c)[i]
    ensures Accepts(c, r)
  {
    match c
    case I32Chunk(v) => I32(v[i])
    case I64Chunk(v) => I64(v[i])
    case BytesChunk(v) => Bytes(v[i])
  }

  /** The chunk type stores values of `d`'s variant. */
  predicate Accepts(c: ChunkedVec, d: Datum)
  {
    (c.I32Chunk? && d.I32?) || (c.I64Chunk? && d.I64?) || (c.BytesChunk? && d.Bytes?)
  }

  /** `ChunkedVec::append`: pushes onto the chunk of `d`'s type; any other
      pairing (a `Null` included) reaches `unimplemented!()`, shown as
      `None`. */
  function ChunkAppend(c: ChunkedVec, d: Datum): (r: Option<ChunkedVec>)
    ensures r.Some? <==> Accepts(c, d)
    ensures r.Some? ==> Column(r.value) == Column(c) + [d]
    ensures r.Some? ==> forall e :: Accepts(r.value, e) <==> Accepts(c, e)
  {
    match (d, c)
    case (I32(x), I32Chunk(v)) => Some(I32Chunk(v + [x]))
    case (I64(x), I64Chunk(v)) => Some(I64Chunk(v + [x]))
    case (Bytes(x), BytesChunk(v)) => Some(BytesChunk(v + [x]))
    case _ => None
  }

  /** Rows stored as typed columns. */
  class ChunkedSortKeys {
    var data: seq<ChunkedVec>

    constructor ()
      ensures data == []
    {
      data := [];
    }

    /** `append`: value `i` of the row goes onto column `i`. The debug-only
        length check is not modelled; a row longer than the store indexes
        past the columns and a value of the wrong type reaches
        `unimplemented!()`, so both are excluded. */
    method Append(row: seq<Datum>)
      requires |row| <= |data|
      requires forall i :: 0 <= i < |row| ==> Accepts(data[i], row[i])
      modifies this
      ensures |data| == |old(data)|
      ensures forall i :: 0 <= i < |row| ==> data[i] == ChunkAppend(old(data)[i], row[i]).value
      ensures forall i :: |row| <= i < |data| ==> data[i] == old(data)[i]
    {
      var idx := 0;
      while idx < |row|
        invariant idx <= |row| && |data| == |old(data)|
        invariant forall i :: 0 <= i < idx ==> data[i] == ChunkAppend(old(data)[i], row[i]).value
        invariant forall i :: idx <= i < |data| ==> data[i] == old(data)[i]
      {
        data := data[idx := ChunkAppend(data[idx], row[idx]).value];
        idx := idx + 1;
      }
    }

    /** The length of the first column; panics on a store with no column. */
    function Len(): (r: nat)
      requires |data| > 0
      reads this
      ensures r == |Column(data[0])|
    {
      ChunkLen(data[0])
    }

    /** `compare_idx`: row `idx`'s first value against the key's first
        value, read from the typed chunk. Every other pairing, an empty key
        or store and an index past the column panic. */
    function CompareIdx(idx: nat, key: seq<Datum>): (r: Option<Ordering>)
      requires |key| > 0 && |data| > 0 && Accepts(data[0], key[0]) && idx < ChunkLen(data[0])
      reads this
      ensures r.Some? && r == DatumCmp(Column(data[0])[idx], key[0])
    {
      match (key[0], data[0])
      case (I32(x), I32Chunk(v)) => Some(Cmp(v[idx], x))
      case (I64(x), I64Chunk(v)) => Some(Cmp(v[idx], x))
      case (Bytes(x), BytesChunk(v)) =>
        BytesCmpDefined(v[idx], x);
        Lex(ByteCmp, v[idx], x)
    }

    /** `lower_bound`: binary search on the first column. It keeps a row
        below the key just left of `lower` and a row not below it at
        `upper`, so on a sorted first column it ends at the number of rows
        below the key. */
    method LowerBound(key: seq<Datum>) returns (r: nat)
      requires |data| > 0
      requires Len() > 0 ==> |key| > 0 && Accepts(data[0], key[0])
      ensures r <= Len()
      ensures 0 < r ==> Lt(DatumCmp, Column(data[0])[r - 1], key[0])
      ensures r < Len() ==> !Lt(DatumCmp, Column(data[0])[r], key[0])
      ensures |key| > 0 && Sorted(DatumCmp, Column(data[0])) ==> r == CountLess(DatumCmp, Column(data[0]), key[0])
    {
      ghost var col := Column(data[0]);
      var upper := Len();
      var lower := 0;
      while upper > lower
        invariant 0 <= lower <= upper <= |col|
        invariant 0 < lower ==> Lt(DatumCmp, col[lower - 1], key[0])
        invariant upper < |col| ==> !Lt(DatumCmp, col[upper], key[0])
        decreases upper - lower
      {
        var current := lower + (upper - lower) / 2;
        match CompareIdx(current, key).value {
          case Less =>
            lower := current + 1;
          case Equal =>
            upper := current;
          case Greater =>
            upper := current;
        }
      }
      r := lower;
      if |key| > 0 && Sorted(DatumCmp, col) {
        DatumCmpIsOrder();
        BoundaryCountsLess(DatumCmp, col, key[0], r);
      }
    }
  }
}
