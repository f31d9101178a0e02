/** A bitmap over bytes: bit `i` is bit `i % 8`, counted from the low end, of byte `i / 8`. */
module BitMaps {
  import opened Bytes
  import opened Options

  // one byte as the bit operators see it

  function Mask(k: nat): bv8
    requires k < 8
  {
    1 << k
  }

  predicate MaskBit(v: bv8, k: nat)
    requires k < 8
  {
    v & Mask(k) != 0
  }

  function WithMaskBit(v: bv8, k: nat, bit: bool): bv8
    requires k < 8
  {
    if bit then v | Mask(k) else v & !Mask(k)
  }

  lemma MasksApart(k: nat, j: nat)
    requires k < 8 && j < 8
    ensures Mask(k) & Mask(j) == if k == j then Mask(k) else 0
    ensures Mask(k) != 0
  {}

  lemma MaskAlgebra(v: bv8, m: bv8, n: bv8)
    requires m & n == 0
    ensures (v | m) & n == v & n && (v & !m) & n == v & n
  {}

  lemma MaskSelf(v: bv8, m: bv8)
    ensures (v | m) & m == m && (v & !m) & m == 0
  {}

  lemma MaskBitAfterSet(v: bv8, k: nat, bit: bool, j: nat)
    requires k < 8 && j < 8
    ensures MaskBit(WithMaskBit(v, k, bit), j) == if j == k then bit else MaskBit(v, j)
  {
    hide Mask;
    MasksApart(k, j);
    MaskSelf(v, Mask(k));
    if k != j {
      MaskAlgebra(v, Mask(k), Mask(j));
    }
  }

  predicate ByteBit(b: Byte, k: nat)
    requires k < 8
  {
    MaskBit(b as bv8, k)
  }

  function WithByteBit(b: Byte, k: nat, bit: bool): Byte
    requires k < 8
  {
    WithMaskBit(b as bv8, k, bit) as Byte
  }

  lemma ThereAndBack(v: bv8)
    ensures (v as Byte) as bv8 == v
  {}

  lemma ByteBitAfterSet(b: Byte, k: nat, bit: bool, j: nat)
    requires k < 8 && j < 8
    ensures ByteBit(WithByteBit(b, k, bit), j) == if j == k then bit else ByteBit(b, j)
  {
    hide MaskBit, WithMaskBit;
    var v := WithMaskBit(b as bv8, k, bit);
    ThereAndBack(v);
    MaskBitAfterSet(b as bv8, k, bit, j);
  }

  predicate Bit(d: Data, i: nat)
    requires i < 8 * |d|
  {
    ByteBit(d[i / 8], i % 8)
  }

  function WithBit(d: Data, i: nat, bit: bool): (r: Data)
    requires i < 8 * |d|
    ensures |r| == |d|
  {
    d[i / 8 := WithByteBit(d[i / 8], i % 8, bit)]
  }

  /** Setting one bit changes that bit and no other, also within the same byte. */
  lemma BitAfterSet(d: Data, i: nat, bit: bool, j: nat)
    requires i < 8 * |d| && j < 8 * |d|
    ensures Bit(WithBit(d, i, bit), j) == if j == i then bit else Bit(d, j)
  {
    hide WithByteBit, ByteBit;
    if i / 8 == j / 8 {
      ByteBitAfterSet(d[i / 8], i % 8, bit, j % 8);
    }
  }

  /** The least index from `lo` on whose bit equals `bit`. */
  function FirstFrom(d: Data, bit: bool, lo: nat): (r: Option<nat>)
    ensures r.Some? ==> lo <= r.value < 8 * |d| && Bit(d, r.value) == bit
    ensures forall i :: lo <= i < (if r.Some? then r.value else 8 * |d|) ==> Bit(d, i) != bit
    decreases 8 * |d| - lo
  {
    if lo >= 8 * |d| then None
    else if Bit(d, lo) == bit then Some(lo)
    else FirstFrom(d, bit, lo + 1)
  }

  /** An index is the answer exactly when it matches and nothing before it does; there is none exactly
      when nothing matches. */
  lemma FirstFromIff(d: Data, bit: bool, lo: nat, i: nat)
    ensures FirstFrom(d, bit, lo) == Some(i) <==>
            lo <= i < 8 * |d| && Bit(d, i) == bit && forall j :: lo <= j < i ==> Bit(d, j) != bit
    ensures FirstFrom(d, bit, lo) == None <==> forall j :: lo <= j < 8 * |d| ==> Bit(d, j) != bit
  {
    hide Bit;
    var r := FirstFrom(d, bit, lo);
    if lo <= i < 8 * |d| && Bit(d, i) == bit && forall j :: lo <= j < i ==> Bit(d, j) != bit {
      assert r.Some?;
      assert !(r.value < i) && !(i < r.value);
    }
  }

  lemma FirstFromUnfolds(d: Data, bit: bool, lo: nat)
    ensures FirstFrom(d, bit, lo) ==
      if lo >= 8 * |d| then None
      else if Bit(d, lo) == bit then Some(lo)
      else FirstFrom(d, bit, lo + 1)
  {
    hide Bit;
  }

  /** The number of set bits below `n`. */
  function CountBits(d: Data, n: nat): (c: nat)
    requires n <= 8 * |d|
    ensures c <= n
  {
    if n == 0 then 0 else CountBits(d, n - 1) + (if Bit(d, n - 1) then 1 else 0)
  }

  lemma {:induction false} CountSame(d: Data, e: Data, n: nat)
    requires n <= 8 * |d| && n <= 8 * |e|
    requires forall i :: 0 <= i < n ==> Bit(d, i) == Bit(e, i)
    ensures CountBits(d, n) == CountBits(e, n)
  {
    hide ByteBit;
    if n > 0 {
      CountSame(d, e, n - 1);
    }
  }

  /** Turning a clear bit on, or a set one off, moves the count by exactly one. */
  lemma {:induction false} CountAfterSet(d: Data, i: nat, bit: bool, n: nat)
    requires i < n <= 8 * |d|
    ensures CountBits(WithBit(d, i, bit), n) ==
      CountBits(d, n) + (if bit && !Bit(d, i) then 1 else if !bit && Bit(d, i) then -1 else 0)
  {
    hide ByteBit, WithByteBit, WithBit;
    BitAfterSet(d, i, bit, n - 1);
    if i == n - 1 {
      forall j | 0 <= j < n - 1
        ensures Bit(WithBit(d, i, bit), j) == Bit(d, j)
      {
        BitAfterSet(d, i, bit, j);
      }
      CountSame(WithBit(d, i, bit), d, n - 1);
    } else {
      CountAfterSet(d, i, bit, n - 1);
    }
  }

  lemma ZeroByteClear(k: nat)
    requires k < 8
    ensures !ByteBit(0, k)
  {}

  /** `while (bitmap_.size() * 8 <= idx) bitmap_.push_back('\0')` */
  function Grown(d: Data, idx: nat): (r: Data)
    ensures idx < 8 * |r|
    ensures |r| == if idx < 8 * |d| then |d| else idx / 8 + 1
    ensures |d| <= |r| && r[..|d|] == d
    ensures forall i :: |d| <= i < |r| ==> r[i] == 0
    decreases idx - 8 * |d|
  {
    if 8 * |d| <= idx then
      var r := Grown(d + [0], idx);
      assert r[..|d|] == r[..|d| + 1][..|d|];
      assert r[..|d| + 1] == d + [0];
      r
    else d
  }

  lemma GrownBit(d: Data, idx: nat, i: nat)
    requires i < 8 * |Grown(d, idx)|
    ensures Bit(Grown(d, idx), i) == (i < 8 * |d| && Bit(d, i))
  {
    hide ByteBit;
    if i < 8 * |d| {
      assert Grown(d, idx)[i / 8] == Grown(d, idx)[..|d|][i / 8];
    } else {
      assert i / 8 >= |d|;
      ZeroByteClear(i % 8);
    }
  }

  lemma {:induction false} GrownCountFrom(d: Data, idx: nat, n: nat)
    requires 8 * |d| <= n <= 8 * |Grown(d, idx)|
    ensures CountBits(Grown(d, idx), n) == CountBits(d, 8 * |d|)
    decreases n
  {
    hide ByteBit, Bit, Grown;
    if n == 8 * |d| {
      forall i | 0 <= i < n
        ensures Bit(Grown(d, idx), i) == Bit(d, i)
      {
        GrownBit(d, idx, i);
      }
      CountSame(Grown(d, idx), d, n);
    } else {
      GrownBit(d, idx, n - 1);
      GrownCountFrom(d, idx, n - 1);
    }
  }

  /** Growing the bitmap adds no set bit. */
  lemma GrownCount(d: Data, idx: nat)
    ensures CountBits(Grown(d, idx), 8 * |Grown(d, idx)|) == CountBits(d, 8 * |d|)
  {
    GrownCountFrom(d, idx, 8 * |Grown(d, idx)|);
  }

  /** The bitmap object: it owns the bytes that the header's `bitmap_` vector holds. */
  class BitMap {
    var data: Data

    constructor (d: Data)
      ensures data == d
    {
      data := d;
    }

    method Get(i: nat) returns (b: bool)
      requires i < 8 * |data|
      ensures b == Bit(data, i)
    {
      var index := i / 8;
      var offset := i % 8;
      b := ByteBit(data[index], offset);
    }

    method Set(i: nat, bit: bool)
      requires i < 8 * |data|
      modifies this
      ensures data == WithBit(old(data), i, bit)
    {
      var index := i / 8;
      var offset := i % 8;
      data := data[index := WithByteBit(data[index], offset, bit)];
    }

    method First(bit: bool) returns (idx: Option<nat>)
      ensures idx == FirstFrom(data, bit, 0)
      ensures idx.Some? ==> idx.value < 8 * |data| && Bit(data, idx.value) == bit
      ensures forall i :: 0 <= i < (if idx.Some? then idx.value else 8 * |data|) ==> Bit(data, i) != bit
    {
      hide Bit, FirstFrom;
      FirstFromUnfolds(data, bit, 8 * |data|);
      var i := 0;
      while i < 8 * |data|
        invariant i <= 8 * |data|
        invariant FirstFrom(data, bit, 0) == FirstFrom(data, bit, i)
      {
        FirstFromUnfolds(data, bit, i);
        var b := Get(i);
        if b == bit {
          return Some(i);
        }
        i := i + 1;
      }
      idx := None;
    }

    method FirstAfter(bit: bool, cur: nat) returns (idx: Option<nat>)
      ensures idx == FirstFrom(data, bit, cur + 1)
      ensures idx.Some? ==> cur < idx.value < 8 * |data| && Bit(data, idx.value) == bit
      ensures forall i :: cur < i < (if idx.Some? then idx.value else 8 * |data|) ==> Bit(data, i) != bit
    {
      if 8 * |data| <= cur {
        FirstFromUnfolds(data, bit, cur + 1);
        return None;
      }
      hide Bit, FirstFrom;
      FirstFromUnfolds(data, bit, 8 * |data|);
      var i := cur + 1;
      while i < 8 * |data|
        invariant cur < i <= 8 * |data|
        invariant FirstFrom(data, bit, cur + 1) == FirstFrom(data, bit, i)
      {
        FirstFromUnfolds(data, bit, i);
        var b := Get(i);
        if b == bit {
          return Some(i);
        }
        i := i + 1;
      }
      idx := None;
    }

    /** The growing loop of `BufferPool::new_page`. */
    method Grow(idx: nat)
      modifies this
      ensures data == Grown(old(data), idx)
    {
      while 8 * |data| <= idx
        invariant Grown(data, idx) == Grown(old(data), idx)
        decreases idx - 8 * |data|
      {
        data := data + [0];
      }
    }
  }
}
