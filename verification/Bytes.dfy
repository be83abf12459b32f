/** Byte strings and the little-endian integer codec of kvstore/src/tablet.cc.

    A std::string is modelled as `Data`. Offsets are absolute: a parser looks at a buffer and a
    position in it, as the source does, so its lemmas speak of `b[off..off + n]`.
 */
module Bytes {
  type Byte = x: int | 0 <= x < 0x100
  type Data = seq<Byte>

  const U32: int := 0x1_0000_0000
  const U64: int := 0x1_0000_0000_0000_0000

  datatype Option<+T> = None | Some(value: T)

  /** The low byte of v. */
  function ByteOf(v: nat): Byte {
    v % 0x100
  }

  /** The low n bytes of v, least significant first; what does not fit is cut off. */
  function PutLE(v: nat, n: nat): (b: Data)
    ensures |b| == n
  {
    if n == 0 then [] else [ByteOf(v)] + PutLE(v / 0x100, n - 1)
  }

  function LEAt(b: Data, off: nat, n: nat): nat
    requires off + n <= |b|
    decreases n
  {
    if n == 0 then 0 else b[off] as int + 0x100 * LEAt(b, off + 1, n - 1)
  }

  function Width(n: nat): (w: nat)
    ensures w > 0
  {
    if n == 0 then 1 else 0x100 * Width(n - 1)
  }

  function PutU32(v: nat): (b: Data) ensures |b| == 4 { PutLE(v, 4) }

  function PutU64(v: nat): (b: Data) ensures |b| == 8 { PutLE(v, 8) }

  function U32At(b: Data, off: nat): (v: nat)
    requires off + 4 <= |b|
    ensures v < U32
  {
    LEAtBound(b, off, 4);
    LEAt(b, off, 4)
  }

  function U64At(b: Data, off: nat): (v: nat)
    requires off + 8 <= |b|
    ensures v < U64
  {
    LEAtBound(b, off, 8);
    assert Width(8) == 0x100 * 0x100 * 0x100 * 0x100 * Width(4);
    LEAt(b, off, 8)
  }

  lemma {:induction false} LEAtBound(b: Data, off: nat, n: nat)
    requires off + n <= |b|
    ensures LEAt(b, off, n) < Width(n)
    decreases n
  {
    if n > 0 {
      LEAtBound(b, off + 1, n - 1);
    }
  }

  /** Reading back what was written gives the value modulo the width of the field. */
  lemma {:induction false} LERoundTrip(b: Data, off: nat, v: nat, n: nat)
    requires HasAt(b, off, PutLE(v, n))
    ensures LEAt(b, off, n) == v % Width(n)
    decreases n
  {
    if n > 0 {
      HasAtSplit(b, off, [ByteOf(v)], PutLE(v / 0x100, n - 1));
      assert b[off] == b[off..off + 1][0];
      LERoundTrip(b, off + 1, v / 0x100, n - 1);
      ModStep(v, Width(n - 1));
    }
  }

  /** A field is read from its own bytes only. */
  lemma {:induction false} LELocal(b: Data, c: Data, off: nat, n: nat)
    requires off + n <= |b| && off + n <= |c| && b[off..off + n] == c[off..off + n]
    ensures LEAt(b, off, n) == LEAt(c, off, n)
    decreases n
  {
    if n > 0 {
      assert b[off] == b[off..off + n][0] == c[off..off + n][0] == c[off];
      assert b[off + 1..off + n] == b[off..off + n][1..] == c[off..off + n][1..] == c[off + 1..off + n];
      LELocal(b, c, off + 1, n - 1);
    }
  }

  lemma ModStep(v: nat, w: nat)
    requires w > 0
    ensures v % (0x100 * w) == v % 0x100 + 0x100 * (v / 0x100 % w)
  {
    var h := v / 0x100;
    var q := h / w;
    assert h == w * q + h % w;
    assert v == (0x100 * w) * q + (0x100 * (h % w) + v % 0x100);
    UniqueRemainder(v, 0x100 * w, q, 0x100 * (h % w) + v % 0x100);
  }

  lemma UniqueRemainder(v: nat, d: nat, q: int, r: nat)
    requires d > 0 && v == d * q + r && r < d
    ensures v % d == r
  {
    var q', r' := v / d, v % d;
    assert d * (q - q') == r' - r;
    Multiple(d, q - q');
  }

  lemma Multiple(d: nat, k: int)
    ensures k >= 1 ==> d * k >= d
    ensures k <= -1 ==> d * k + d <= 0
  {
  }

  /** A value below the field's bound survives the truncation. */
  lemma Small32(v: nat)
    ensures v < U32 <==> v % U32 == v
  {
    assert v % 0x1_0000_0000 == v % U32;
  }

  lemma Small64(v: nat)
    ensures v < U64 <==> v % U64 == v
  {
    assert v % 0x1_0000_0000_0000_0000 == v % U64;
  }

  lemma U32RoundTrip(b: Data, off: nat, v: nat)
    requires HasAt(b, off, PutU32(v))
    ensures U32At(b, off) == v % U32
  {
    LERoundTrip(b, off, v, 4);
  }

  lemma U64RoundTrip(b: Data, off: nat, v: nat)
    requires HasAt(b, off, PutU64(v))
    ensures U64At(b, off) == v % U64
  {
    LERoundTrip(b, off, v, 8);
    assert Width(8) == 0x100 * 0x100 * 0x100 * 0x100 * Width(4);
  }

  lemma U32Local(b: Data, c: Data, off: nat)
    requires off + 4 <= |b| && off + 4 <= |c| && b[off..off + 4] == c[off..off + 4]
    ensures U32At(b, off) == U32At(c, off)
  {
    LELocal(b, c, off, 4);
  }

  /** What sits at a position of a buffer. */
  predicate HasAt(b: Data, off: nat, part: Data) {
    off + |part| <= |b| && b[off..off + |part|] == part
  }

  lemma HasAtSplit(b: Data, off: nat, p: Data, q: Data)
    requires HasAt(b, off, p + q)
    ensures HasAt(b, off, p) && HasAt(b, off + |p|, q)
  {
    assert b[off..off + |p|] == b[off..off + |p + q|][..|p|] == p;
    assert b[off + |p|..off + |p| + |q|] == b[off..off + |p + q|][|p|..] == q;
  }

  lemma HasAtSelf(pre: Data, part: Data, post: Data)
    ensures HasAt(pre + part + post, |pre|, part)
  {
  }
}
