/** Raw memory: bytes, little-endian machine words, and `memcpy` into a buffer. */
module Bytes {

  type Byte = b: int | 0 <= b < 256
  type Data = seq<Byte>

  // sizeof(size_t) and sizeof(int) on the platform the storage files are written for
  const WORD: nat := 8
  const HALF: nat := 4
  const WORD_LIMIT: nat := 0x1_0000_0000_0000_0000

  /** A `size_t`. */
  type SizeT = n: nat | n < WORD_LIMIT

  function Pow256(n: nat): (p: nat)
    ensures p > 0
  {
    if n == 0 then 1 else 256 * Pow256(n - 1)
  }

  lemma WordWidth()
    ensures Pow256(WORD) == WORD_LIMIT
    ensures Pow256(HALF) == 0x1_0000_0000
  {
    assert Pow256(4) == 0x1_0000_0000;
    assert Pow256(5) == 256 * Pow256(4);
    assert Pow256(6) == 256 * Pow256(5);
    assert Pow256(7) == 256 * Pow256(6);
  }

  /** The `n` low bytes of `x`, least significant first. */
  function Encode(x: nat, n: nat): (b: Data)
    ensures |b| == n
    decreases n
  {
    if n == 0 then [] else [x % 256] + Encode(x / 256, n - 1)
  }

  function Decode(b: Data): nat
  {
    if b == [] then 0 else b[0] + 256 * Decode(b[1..])
  }

  /** A remainder is the only number below the divisor that the quotient brings back. */
  lemma Remainder(x: nat, d: nat, q: nat, r: nat)
    requires d > 0 && r < d && x == q * d + r
    ensures x % d == r
  {
    var k := q - x / d;
    assert x == x / d * d + x % d;
    assert k * d == x % d - r by { Distribute(q, x / d, d); }
    if k > 0 {
      Grows(k, d);
    } else if k < 0 {
      Grows(-k, d);
    }
  }

  lemma Distribute(a: int, b: int, d: int)
    ensures (a - b) * d == a * d - b * d
  {}

  lemma Grows(k: nat, d: nat)
    requires k > 0
    ensures k * d >= d
  {}

  lemma RemainderOfByte(x: nat, p: nat)
    requires p > 0
    ensures x % (256 * p) == x % 256 + 256 * (x / 256 % p)
  {
    var y := x / 256;
    var q, r := y / p, y % p;
    assert y == q * p + r;
    assert x == q * (256 * p) + (x % 256 + 256 * r) by { Reorder(q, p); }
    Remainder(x, 256 * p, q, x % 256 + 256 * r);
  }

  lemma Reorder(q: nat, p: nat)
    ensures 256 * (q * p) == q * (256 * p)
  {}

  /** A number narrowed to `n` bytes reads back modulo 256^n, so it survives when it fits. */
  lemma {:induction false} DecodeEncode(x: nat, n: nat)
    ensures Decode(Encode(x, n)) == x % Pow256(n) < Pow256(n)
    ensures x < Pow256(n) ==> Decode(Encode(x, n)) == x
    decreases n
  {
    if n > 0 {
      DecodeEncode(x / 256, n - 1);
      var rest := Encode(x / 256, n - 1);
      assert Encode(x, n) == [x % 256] + rest;
      assert Encode(x, n)[1..] == rest;
      assert Decode(Encode(x, n)) == x % 256 + 256 * Decode(rest);
      RemainderOfByte(x, Pow256(n - 1));
    }
  }

  lemma {:induction false} DecodeZeros(n: nat)
    ensures Decode(Zeros(n)) == 0
  {
    if n > 0 {
      DecodeZeros(n - 1);
      assert Zeros(n)[1..] == Zeros(n - 1);
    }
  }

  function Zeros(n: nat): (b: Data)
    ensures |b| == n
  {
    seq(n, i => 0)
  }

  /** What `memcpy(b + off, src, |src|)` leaves in `b`. */
  function Splice(b: Data, off: nat, src: Data): (r: Data)
    requires off + |src| <= |b|
    ensures |r| == |b|
    ensures forall i :: 0 <= i < |b| ==> r[i] == if off <= i < off + |src| then src[i - off] else b[i]
  {
    b[..off] + src + b[off + |src|..]
  }

  lemma SpliceInside(b: Data, off: nat, src: Data)
    requires off + |src| <= |b|
    ensures Splice(b, off, src)[off..off + |src|] == src
  {}

  lemma SpliceOutside(b: Data, off: nat, src: Data, lo: nat, hi: nat)
    requires off + |src| <= |b|
    requires lo <= hi <= |b| && (hi <= off || off + |src| <= lo)
    ensures Splice(b, off, src)[lo..hi] == b[lo..hi]
  {}

  function ReadWord(b: Data, off: nat): nat
    requires off + WORD <= |b|
  {
    Decode(b[off..off + WORD])
  }

  function WriteWord(b: Data, off: nat, x: nat): (r: Data)
    requires off + WORD <= |b|
    ensures |r| == |b|
  {
    Splice(b, off, Encode(x, WORD))
  }

  lemma ReadBackWord(b: Data, off: nat, x: nat)
    requires off + WORD <= |b| && x < WORD_LIMIT
    ensures ReadWord(WriteWord(b, off, x), off) == x
  {
    SpliceInside(b, off, Encode(x, WORD));
    WordWidth();
    DecodeEncode(x, WORD);
  }

  lemma WriteWordOutside(b: Data, off: nat, x: nat, lo: nat, hi: nat)
    requires off + WORD <= |b|
    requires lo <= hi <= |b| && (hi <= off || off + WORD <= lo)
    ensures WriteWord(b, off, x)[lo..hi] == b[lo..hi]
  {
    SpliceOutside(b, off, Encode(x, WORD), lo, hi);
  }

  lemma ReadOtherWord(b: Data, off: nat, x: nat, at: nat)
    requires off + WORD <= |b| && at + WORD <= |b|
    requires at + WORD <= off || off + WORD <= at
    ensures ReadWord(WriteWord(b, off, x), at) == ReadWord(b, at)
  {
    WriteWordOutside(b, off, x, at, at + WORD);
  }

  lemma ReadZeroWord(n: nat, off: nat)
    requires off + WORD <= n
    ensures ReadWord(Zeros(n), off) == 0
  {
    assert Zeros(n)[off..off + WORD] == Zeros(WORD);
    DecodeZeros(WORD);
  }

  /** `memcpy(dst + off, src, |src|)` */
  method CopyInto(dst: array<Byte>, off: nat, src: Data)
    requires off + |src| <= dst.Length
    modifies dst
    ensures dst[..] == Splice(old(dst[..]), off, src)
  {
    forall i | 0 <= i < |src| {
      dst[off + i] := src[i];
    }
  }

  /** `memcpy(dst + off, &x, sizeof(size_t))` */
  method PutWord(dst: array<Byte>, off: nat, x: nat)
    requires off + WORD <= dst.Length
    modifies dst
    ensures dst[..] == WriteWord(old(dst[..]), off, x)
  {
    CopyInto(dst, off, Encode(x, WORD));
  }

  /** `memcpy(&x, src + off, sizeof(size_t))` */
  method GetWord(src: array<Byte>, off: nat) returns (x: nat)
    requires off + WORD <= src.Length
    ensures x == ReadWord(src[..], off)
  {
    x := Decode(src[off..off + WORD]);
    assert src[off..off + WORD] == src[..][off..off + WORD];
  }
}
