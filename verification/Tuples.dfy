/** Rows as bytes: encoding a list of values under a schema and reading one column back. */
module Tuples {
  import opened Bytes
  import opened Options

  datatype ColumnType = INT | FLOAT | VARCHAR | CHAR | UNKNOWN

  datatype Column = Column(colType: ColumnType, name: string, size: SizeT)

  /** The declared sizes are C++ `int`s, which is how `value_at` handles them. */
  predicate SizesAreInts(cols: seq<Column>)
  {
    forall i :: 0 <= i < |cols| ==> cols[i].size < 0x8000_0000
  }

  /** A stored value; a float is kept as its four bytes. */
  datatype Value =
    | IntValue(n: int)
    | FloatValue(bits: Data)
    | StringValue(s: Data)

  /** `long` narrowed to a two's complement `int`. */
  function ToInt32(n: int): int
  {
    var m := n % 0x1_0000_0000;
    if m < 0x8000_0000 then m else m - 0x1_0000_0000
  }

  predicate IsInt32(n: int)
  {
    -0x8000_0000 <= n < 0x8000_0000
  }

  function EncodeInt(n: int): (b: Data)
    ensures |b| == HALF
  {
    Encode(n % 0x1_0000_0000, HALF)
  }

  function DecodeInt(b: Data): int
    requires |b| == HALF
  {
    ToInt32(Decode(b))
  }

  lemma IntRoundTrip(n: int)
    ensures DecodeInt(EncodeInt(n)) == ToInt32(n)
  {
    WordWidth();
    DecodeEncode(n % 0x1_0000_0000, HALF);
    hide Encode, Decode;
  }

  /** The value has the column's type; `create_tuple` asserts this. */
  predicate TypeMatches(v: Value, c: Column)
  {
    match v
    case IntValue(_) => c.colType == INT
    case FloatValue(bits) => c.colType == FLOAT && |bits| == HALF
    case StringValue(_) => c.colType == VARCHAR || c.colType == CHAR
  }

  predicate Typed(vals: seq<Value>, cols: seq<Column>)
  {
    |vals| <= |cols| && forall i :: 0 <= i < |vals| ==> TypeMatches(vals[i], cols[i])
  }

  function EncodeValue(v: Value, c: Column): Data
  {
    match v
    case IntValue(n) => EncodeInt(n)
    case FloatValue(bits) => bits
    case StringValue(s) => (if c.colType == VARCHAR then EncodeInt(|s|) else []) + s
  }

  /** The row bytes: the values' encodings one after the other. */
  function EncodeRow(vals: seq<Value>, cols: seq<Column>): Data
    requires |vals| <= |cols|
  {
    if vals == [] then []
    else EncodeRow(vals[..|vals| - 1], cols) + EncodeValue(vals[|vals| - 1], cols[|vals| - 1])
  }

  // ---------------------------------------------------------------- reading

  /** `memcpy` of an int at `pos`; None where that would leave the row. */
  function ReadInt(data: Data, pos: nat): Option<int>
  {
    if pos + HALF <= |data| then Some(DecodeInt(data[pos..pos + HALF])) else None
  }

  function ReadBytes(data: Data, pos: nat, size: int): Option<Value>
  {
    if 0 <= size && pos + size <= |data| then Some(StringValue(data[pos..pos + size])) else None
  }

  /** The value of a column of this type at `pos`. */
  function ReadValue(data: Data, pos: nat, c: Column): Option<Value>
  {
    match c.colType
    case INT =>
      var n := ReadInt(data, pos);
      if n.Some? then Some(IntValue(n.value)) else None
    case FLOAT =>
      if pos + HALF <= |data| then Some(FloatValue(data[pos..pos + HALF])) else None
    case CHAR => ReadBytes(data, pos, ToInt32(c.size))
    case VARCHAR =>
      var size := ReadInt(data, pos);
      if size.Some? then ReadBytes(data, pos + HALF, size.value) else None
    case UNKNOWN => None
  }

  /** Where the next column starts; None if that is not within the row, which the source asserts, or
      cannot be read. */
  function SkipValue(data: Data, pos: nat, c: Column): (r: Option<nat>)
    ensures r.Some? ==> r.value <= |data|
  {
    var next: Option<int> := match c.colType
      case INT => Some(pos + HALF)
      case FLOAT => Some(pos + HALF)
      case CHAR => Some(pos + c.size)
      case VARCHAR =>
        (var size := ReadInt(data, pos);
         if size.Some? then Some(pos + HALF + size.value) else None)
      case UNKNOWN => None;
    if next.Some? && 0 <= next.value <= |data| then Some(next.value) else None
  }

  /** The start of column `i`. */
  function Start(data: Data, cols: seq<Column>, i: nat): (r: Option<nat>)
    requires i <= |cols|
    ensures r.Some? ==> r.value <= |data|
  {
    if i == 0 then Some(0)
    else
      var p := Start(data, cols, i - 1);
      if p.Some? then SkipValue(data, p.value, cols[i - 1]) else None
  }

  /** `value_at`; None where the source would assert or read outside the row. */
  function ValueAt(data: Data, cols: seq<Column>, i: nat): Option<Value>
    requires i < |cols|
  {
    var p := Start(data, cols, i);
    if p.Some? then ReadValue(data, p.value, cols[i]) else None
  }

  // ---------------------------------------------------------------- round trip

  /** The value survives its encoding: an INT of 32 bits, a VARCHAR whose length is an `int`, a CHAR of
      exactly the column's size. */
  predicate Storable(v: Value, c: Column)
  {
    match v
    case IntValue(n) => IsInt32(n)
    case FloatValue(_) => true
    case StringValue(s) => |s| < 0x8000_0000 && (c.colType == CHAR ==> |s| == c.size)
  }

  /** `data` holds the encoding of `v` at `pos`. */
  ghost predicate HoldsAt(data: Data, pos: nat, v: Value, c: Column)
  {
    pos + |EncodeValue(v, c)| <= |data| && data[pos..pos + |EncodeValue(v, c)|] == EncodeValue(v, c)
  }

  lemma ReadIntAt(data: Data, pos: nat, n: int)
    requires pos + HALF <= |data| && data[pos..pos + HALF] == EncodeInt(n)
    ensures ReadInt(data, pos) == Some(ToInt32(n))
  {
    IntRoundTrip(n);
    hide EncodeInt, DecodeInt;
  }

  lemma LengthAt(data: Data, pos: nat, s: Data, c: Column)
    requires HoldsAt(data, pos, StringValue(s), c) && c.colType == VARCHAR
    ensures ReadInt(data, pos) == Some(ToInt32(|s|))
    ensures pos + HALF + |s| <= |data| && data[pos + HALF..pos + HALF + |s|] == s
  {
    var e := EncodeValue(StringValue(s), c);
    assert data[pos..pos + HALF] == e[..HALF] == EncodeInt(|s|);
    assert data[pos + HALF..pos + HALF + |s|] == e[HALF..] == s;
    ReadIntAt(data, pos, |s|);
  }

  lemma StorableNarrow(n: int)
    ensures ToInt32(n) == n <==> IsInt32(n)
  {}

  /** One encoded value reads back as itself exactly when it is storable. */
  lemma ReadBackIff(data: Data, pos: nat, v: Value, c: Column)
    requires TypeMatches(v, c) && HoldsAt(data, pos, v, c) && c.size < 0x8000_0000
    ensures ReadValue(data, pos, c) == Some(v) <==> Storable(v, c)
  {
    hide EncodeInt, DecodeInt;
    match v {
      case IntValue(n) =>
        ReadIntAt(data, pos, n);
        StorableNarrow(n);
      case FloatValue(bits) =>
      case StringValue(s) =>
        if c.colType == VARCHAR {
          LengthAt(data, pos, s, c);
          StorableNarrow(|s|);
        } else {
          assert EncodeValue(v, c) == s;
          StorableNarrow(c.size);
        }
    }
  }

  /** A storable value is skipped to exactly its end. */
  lemma SkipStorable(data: Data, pos: nat, v: Value, c: Column)
    requires TypeMatches(v, c) && HoldsAt(data, pos, v, c) && Storable(v, c)
    ensures SkipValue(data, pos, c) == Some(pos + |EncodeValue(v, c)|)
  {
    hide EncodeInt, DecodeInt;
    if v.StringValue? && c.colType == VARCHAR {
      LengthAt(data, pos, v.s, c);
      StorableNarrow(|v.s|);
    }
  }

  lemma {:induction false} RowHolds(vals: seq<Value>, cols: seq<Column>, n: nat, i: nat)
    requires i < n <= |vals| <= |cols|
    ensures |EncodeRow(vals[..i], cols)| + |EncodeValue(vals[i], cols[i])| <= |EncodeRow(vals[..n], cols)|
    ensures HoldsAt(EncodeRow(vals[..n], cols), |EncodeRow(vals[..i], cols)|, vals[i], cols[i])
    decreases n
  {
    hide EncodeValue;
    assert vals[..n][..n - 1] == vals[..n - 1];
    if i < n - 1 {
      RowHolds(vals, cols, n - 1, i);
      var a := EncodeRow(vals[..n - 1], cols);
      var p := |EncodeRow(vals[..i], cols)|;
      var q := p + |EncodeValue(vals[i], cols[i])|;
      assert EncodeRow(vals[..n], cols)[p..q] == a[p..q];
    }
  }

  /** The start found by skipping is the length of the encoding of the values before. */
  lemma {:induction false} StartIs(vals: seq<Value>, cols: seq<Column>, i: nat)
    requires Typed(vals, cols) && i <= |vals|
    requires forall j :: 0 <= j < i ==> Storable(vals[j], cols[j])
    ensures Start(EncodeRow(vals, cols), cols, i) == Some(|EncodeRow(vals[..i], cols)|)
  {
    hide EncodeValue, SkipValue, Storable;
    assert vals[..|vals|] == vals;
    if i > 0 {
      StartIs(vals, cols, i - 1);
      RowHolds(vals, cols, |vals|, i - 1);
      SkipStorable(EncodeRow(vals, cols), |EncodeRow(vals[..i - 1], cols)|, vals[i - 1], cols[i - 1]);
      assert vals[..i][..i - 1] == vals[..i - 1];
    }
  }

  lemma ColumnIff(vals: seq<Value>, cols: seq<Column>, i: nat)
    requires Typed(vals, cols) && SizesAreInts(cols) && i < |vals|
    requires forall j :: 0 <= j < i ==> Storable(vals[j], cols[j])
    ensures ValueAt(EncodeRow(vals, cols), cols, i) == Some(vals[i]) <==> Storable(vals[i], cols[i])
  {
    hide EncodeValue, ReadValue, Storable, EncodeRow;
    assert vals[..|vals|] == vals;
    StartIs(vals, cols, i);
    RowHolds(vals, cols, |vals|, i);
    ReadBackIff(EncodeRow(vals, cols), |EncodeRow(vals[..i], cols)|, vals[i], cols[i]);
  }

  /** Every column of the row reads back as the value given for it if and only if all values are
      storable. */
  lemma RowRoundTripIff(vals: seq<Value>, cols: seq<Column>)
    requires Typed(vals, cols) && SizesAreInts(cols)
    ensures (forall i :: 0 <= i < |vals| ==> ValueAt(EncodeRow(vals, cols), cols, i) == Some(vals[i])) <==>
            (forall i :: 0 <= i < |vals| ==> Storable(vals[i], cols[i]))
  {
    hide EncodeRow, ValueAt, Storable;
    if i :| 0 <= i < |vals| && !Storable(vals[i], cols[i]) {
      FirstUnstorable(vals, cols, i);
    } else {
      forall i | 0 <= i < |vals|
        ensures ValueAt(EncodeRow(vals, cols), cols, i) == Some(vals[i])
      {
        ColumnIff(vals, cols, i);
      }
    }
  }

  lemma {:induction false} FirstUnstorable(vals: seq<Value>, cols: seq<Column>, i: nat)
    requires Typed(vals, cols) && SizesAreInts(cols) && i < |vals| && !Storable(vals[i], cols[i])
    ensures exists k :: 0 <= k <= i && ValueAt(EncodeRow(vals, cols), cols, k) != Some(vals[k])
    decreases i
  {
    hide EncodeRow, ValueAt, Storable;
    if j :| 0 <= j < i && !Storable(vals[j], cols[j]) {
      FirstUnstorable(vals, cols, j);
    } else {
      ColumnIff(vals, cols, i);
    }
  }

  // ---------------------------------------------------------------- the loops

  /** One turn of `create_tuple`'s loop. */
  method AppendValue(record: Data, v: Value, c: Column) returns (r: Data)
    requires TypeMatches(v, c)
    ensures r == record + EncodeValue(v, c)
  {
    match v {
      case IntValue(n) =>
        r := record + EncodeInt(n);
      case FloatValue(bits) =>
        r := record + bits;
      case StringValue(s) =>
        r := record;
        if c.colType == VARCHAR {
          r := r + EncodeInt(|s|);
        }
        r := r + s;
    }
  }

  /** `Tuple::create_tuple` */
  method CreateTuple(vals: seq<Value>, cols: seq<Column>) returns (record: Data)
    requires Typed(vals, cols)
    ensures record == EncodeRow(vals, cols)
  {
    hide EncodeValue;
    record := [];
    var idx := 0;
    while idx < |vals|
      invariant idx <= |vals|
      invariant record == EncodeRow(vals[..idx], cols)
    {
      record := AppendValue(record, vals[idx], cols[idx]);
      assert vals[..idx + 1][..idx] == vals[..idx];
      idx := idx + 1;
    }
    assert vals[..idx] == vals;
  }

  /** `Tuple::value_at` */
  method ReadColumn(data: Data, cols: seq<Column>, idx: nat) returns (v: Option<Value>)
    requires idx < |cols|
    ensures v == ValueAt(data, cols, idx)
  {
    hide SkipValue, ReadValue;
    var pos := 0;
    var i := 0;
    while i < idx
      invariant i <= idx && pos <= |data|
      invariant Start(data, cols, i) == Some(pos)
    {
      var next := SkipValue(data, pos, cols[i]);
      if next == None {
        StartStuck(data, cols, i + 1, idx);
        return None;
      }
      pos := next.value;
      i := i + 1;
    }
    v := ReadValue(data, pos, cols[idx]);
  }

  lemma {:induction false} StartStuck(data: Data, cols: seq<Column>, i: nat, j: nat)
    requires i <= j <= |cols| && Start(data, cols, i) == None
    ensures Start(data, cols, j) == None
    decreases j
  {
    if i < j {
      StartStuck(data, cols, i, j - 1);
    }
  }
}
