/** The row-key Bloom filter of kvstore/src/bloom.h: a packed bit array and three 64-bit hashes.

    A filter value is `seq<bv8>` of `BYTES` cells; class `BloomFilter` keeps one in an array and
    changes it in place.
 */
module Bloom {
  import opened Bytes

  const BITS: nat := 2097152
  const BYTES: nat := 262144
  const NHASH: nat := 3

  type Cells = s: seq<bv8> | |s| == BYTES witness seq(BYTES, i => 0)

  // ----- hashes: unsigned 64-bit arithmetic, so every step is taken modulo U64 -----

  function Djb2Of(s: Data): (h: nat)
    ensures h < U64
  {
    if s == [] then 5381
    else (33 * Djb2Of(s[..|s| - 1]) + s[|s| - 1] as int) % 0x1_0000_0000_0000_0000
  }

  /** Exclusive-or of a 64-bit word with one byte: only the low byte changes. */
  function XorLow(h: nat, c: Byte): nat {
    h - h % 0x100 + ((h % 0x100) as bv8 ^ c as bv8) as int
  }

  function FnvOf(s: Data): (h: nat)
    ensures h < U64
  {
    if s == [] then 14695981039346656037
    else (1099511628211 * XorLow(FnvOf(s[..|s| - 1]), s[|s| - 1])) % 0x1_0000_0000_0000_0000
  }

  function SdbmOf(s: Data): (h: nat)
    ensures h < U64
  {
    if s == [] then 0
    else (65599 * SdbmOf(s[..|s| - 1]) + s[|s| - 1] as int) % 0x1_0000_0000_0000_0000
  }

  function HashOf(key: Data, seed: nat): (h: nat)
    ensures h < U64
  {
    if seed == 0 then Djb2Of(key) else if seed == 1 then FnvOf(key) else SdbmOf(key)
  }

  /** `((h << 5) + h) + c` in 64 bits. */
  lemma Djb2Step(h: nat, c: Byte)
    ensures (h * 32 % 0x1_0000_0000_0000_0000 + h + c as int) % 0x1_0000_0000_0000_0000
            == (33 * h + c as int) % 0x1_0000_0000_0000_0000
  {
  }

  /** `c + (h << 6) + (h << 16) - h` in 64 bits. */
  lemma SdbmStep(h: nat, c: Byte)
    ensures (c as int + h * 64 % 0x1_0000_0000_0000_0000
            + h * 65536 % 0x1_0000_0000_0000_0000 - h) % 0x1_0000_0000_0000_0000
            == (65599 * h + c as int) % 0x1_0000_0000_0000_0000
  {
    var a, b := h * 64 / 0x1_0000_0000_0000_0000, h * 65536 / 0x1_0000_0000_0000_0000;
    WrapShift(65599 * h + c as int, a + b);
  }

  lemma WrapShift(x: int, k: int)
    ensures (x - 0x1_0000_0000_0000_0000 * k) % 0x1_0000_0000_0000_0000 == x % 0x1_0000_0000_0000_0000
  {
  }

  method Djb2(s: Data) returns (h: nat)
    ensures h == Djb2Of(s)
  {
    h := 5381;
    for i := 0 to |s|
      invariant h == Djb2Of(s[..i])
    {
      assert s[..i + 1][..i] == s[..i];
      Djb2Step(h, s[i]);
      h := (h * 32 % 0x1_0000_0000_0000_0000 + h + s[i] as int) % 0x1_0000_0000_0000_0000;
    }
    assert s[..|s|] == s;
  }

  method Fnv1a(s: Data) returns (h: nat)
    ensures h == FnvOf(s)
  {
    h := 14695981039346656037;
    for i := 0 to |s|
      invariant h == FnvOf(s[..i])
    {
      assert s[..i + 1][..i] == s[..i];
      h := XorLow(h, s[i]);
      h := h * 1099511628211 % 0x1_0000_0000_0000_0000;
    }
    assert s[..|s|] == s;
  }

  method Sdbm(s: Data) returns (h: nat)
    ensures h == SdbmOf(s)
  {
    h := 0;
    for i := 0 to |s|
      invariant h == SdbmOf(s[..i])
    {
      assert s[..i + 1][..i] == s[..i];
      SdbmStep(h, s[i]);
      h := (s[i] as int + h * 64 % 0x1_0000_0000_0000_0000 + h * 65536 % 0x1_0000_0000_0000_0000 - h)
           % 0x1_0000_0000_0000_0000;
    }
    assert s[..|s|] == s;
  }

  method Hash(key: Data, seed: nat) returns (h: nat)
    ensures h == HashOf(key, seed)
  {
    if seed == 0 {
      h := Djb2(key);
    } else if seed == 1 {
      h := Fnv1a(key);
    } else {
      h := Sdbm(key);
    }
  }

  // ----- packed bits -----

  function SetIn(cell: bv8, i: nat): bv8
    requires i < 8
  {
    cell | (1 << i)
  }

  predicate IsSet(cell: bv8, i: nat)
    requires i < 8
  {
    (cell >> i) & 1 == 1
  }

  predicate Bit(cells: Cells, pos: nat)
    requires pos < BITS
  {
    IsSet(cells[pos / 8], pos % 8)
  }

  function WithBit(cells: Cells, pos: nat): Cells
    requires pos < BITS
  {
    cells[pos / 8 := SetIn(cells[pos / 8], pos % 8)]
  }

  lemma SetInSets(cell: bv8, i: nat, j: nat)
    requires i < 8 && j < 8
    ensures IsSet(SetIn(cell, i), j) <==> i == j || IsSet(cell, j)
  {
    SetInEight(cell, i);
    assert j == 0 || j == 1 || j == 2 || j == 3 || j == 4 || j == 5 || j == 6 || j == 7;
  }

  lemma SetInEight(cell: bv8, i: nat)
    requires i < 8
    ensures IsSet(SetIn(cell, i), 0) <==> i == 0 || IsSet(cell, 0)
    ensures IsSet(SetIn(cell, i), 1) <==> i == 1 || IsSet(cell, 1)
    ensures IsSet(SetIn(cell, i), 2) <==> i == 2 || IsSet(cell, 2)
    ensures IsSet(SetIn(cell, i), 3) <==> i == 3 || IsSet(cell, 3)
    ensures IsSet(SetIn(cell, i), 4) <==> i == 4 || IsSet(cell, 4)
    ensures IsSet(SetIn(cell, i), 5) <==> i == 5 || IsSet(cell, 5)
    ensures IsSet(SetIn(cell, i), 6) <==> i == 6 || IsSet(cell, 6)
    ensures IsSet(SetIn(cell, i), 7) <==> i == 7 || IsSet(cell, 7)
  {
    assert i == 0 || i == 1 || i == 2 || i == 3 || i == 4 || i == 5 || i == 6 || i == 7;
  }

  /** Setting one packed bit changes that bit and no other of the two million. */
  lemma WithBitSets(cells: Cells, p: nat, q: nat)
    requires p < BITS && q < BITS
    ensures Bit(WithBit(cells, p), q) <==> p == q || Bit(cells, q)
  {
    if p / 8 == q / 8 {
      SetInSets(cells[p / 8], p % 8, q % 8);
    }
  }

  // ----- filter -----

  function Position(key: Data, seed: nat): (pos: nat)
    ensures pos < BITS
  {
    HashOf(key, seed) % 2097152
  }

  function Empty(): Cells {
    seq(BYTES, i => 0)
  }

  function AddUpTo(cells: Cells, key: Data, n: nat): Cells {
    if n == 0 then cells else WithBit(AddUpTo(cells, key, n - 1), Position(key, n - 1))
  }

  function Added(cells: Cells, key: Data): Cells {
    AddUpTo(cells, key, NHASH)
  }

  predicate Passes(cells: Cells, key: Data) {
    forall i: nat :: i < NHASH ==> Bit(cells, Position(key, i))
  }

  lemma {:induction false} AddUpToSets(cells: Cells, key: Data, n: nat, q: nat)
    requires q < BITS
    ensures Bit(AddUpTo(cells, key, n), q) <==> Bit(cells, q) || exists i: nat :: i < n && Position(key, i) == q
  {
    if n > 0 {
      AddUpToSets(cells, key, n - 1, q);
      WithBitSets(AddUpTo(cells, key, n - 1), Position(key, n - 1), q);
    }
  }

  /** No false negatives: an added key passes, and a key that passed before still does. */
  lemma AddedPasses(cells: Cells, key: Data, other: Data)
    ensures Passes(Added(cells, key), key)
    ensures Passes(cells, other) ==> Passes(Added(cells, key), other)
  {
    forall i: nat | i < NHASH
      ensures Bit(Added(cells, key), Position(key, i))
      ensures Bit(cells, Position(other, i)) ==> Bit(Added(cells, key), Position(other, i))
    {
      AddUpToSets(cells, key, NHASH, Position(key, i));
      AddUpToSets(cells, key, NHASH, Position(other, i));
    }
  }

  /** `BloomFilter::deserialize`: zeros, overwritten by as many bytes as the stream still holds. */
  function CellsAt(b: Data, off: nat): Cells {
    seq(BYTES, i requires 0 <= i < BYTES => if off + i < |b| then (b[off + i] as int) as bv8 else 0)
  }


  function BytesOf(cells: Cells): (b: Data)
    ensures |b| == BYTES
  {
    seq(BYTES, i requires 0 <= i < BYTES => cells[i] as int)
  }

  lemma CellsRoundTrip(b: Data, off: nat, cells: Cells)
    requires HasAt(b, off, BytesOf(cells))
    ensures CellsAt(b, off) == cells
  {
    var got := CellsAt(b, off);
    forall i | 0 <= i < BYTES
      ensures got[i] == cells[i]
    {
      assert b[off + i] == b[off..off + BYTES][i] == cells[i] as int;
      CellRoundTrip(cells[i]);
    }
  }

  lemma CellRoundTrip(c: bv8)
    ensures (c as int) as bv8 == c
  {
  }

  class BloomFilter {
    var bits: array<bv8>

    ghost predicate Valid()
      reads this
    {
      bits.Length == BYTES
    }

    ghost function Contents(): Cells
      reads this, bits
      requires Valid()
    {
      bits[..]
    }

    constructor ()
      ensures Valid() && fresh(bits) && Contents() == Empty()
    {
      bits := new bv8[BYTES](i => 0);
      new;
      assert bits[..] == Empty();
    }

    method SetBit(pos: nat)
      requires Valid() && pos < BITS
      modifies bits
      ensures Contents() == WithBit(old(Contents()), pos)
    {
      bits[pos / 8] := bits[pos / 8] | (1 << (pos % 8));
    }

    method GetBit(pos: nat) returns (on: bool)
      requires Valid() && pos < BITS
      ensures on == Bit(Contents(), pos)
    {
      on := (bits[pos / 8] >> (pos % 8)) & 1 == 1;
    }

    method Add(key: Data)
      requires Valid()
      modifies bits
      ensures Contents() == Added(old(Contents()), key)
    {
      for i := 0 to NHASH
        invariant Contents() == AddUpTo(old(Contents()), key, i)
      {
        var h := Hash(key, i);
        SetBit(h % 2097152);
      }
    }

    method MayContain(key: Data) returns (may: bool)
      requires Valid()
      ensures may == Passes(Contents(), key)
    {
      for i := 0 to NHASH
        invariant forall j: nat :: j < i ==> Bit(Contents(), Position(key, j))
      {
        var h := Hash(key, i);
        var on := GetBit(h % 2097152);
        if !on {
          assert !Bit(Contents(), Position(key, i));
          return false;
        }
      }
      return true;
    }

    method Serialize() returns (b: Data)
      requires Valid()
      ensures b == BytesOf(Contents())
    {
      b := seq(BYTES, i requires 0 <= i < BYTES && bits.Length == BYTES reads this, bits => bits[i] as int);
    }

    method Deserialize(b: Data, off: nat)
      requires Valid()
      modifies this
      ensures Valid() && fresh(bits) && Contents() == CellsAt(b, off)
    {
      bits := new bv8[BYTES](i requires 0 <= i < BYTES => if off + i < |b| then (b[off + i] as int) as bv8 else 0);
      assert bits[..] == CellsAt(b, off);
    }
  }
}
