/** SHA-256 of frontend/src/password.h, the buffered class against the one-shot definition of sections
    5.1.1, 4.1.2 and 6.2.2 of FIPS 180-4. */
module Sha256 {
  import opened Bytes
  import opened Listing

  type Octets = seq<bv8>

  /** Eight words: a hash value, or the working variables a to h. */
  datatype Words = Words(a: bv32, b: bv32, c: bv32, d: bv32, e: bv32, f: bv32, g: bv32, h: bv32)

  // ----- the standard -----

  // The word operations have names so that a proof can treat them as symbols.

  function Add(x: bv32, y: bv32): bv32 { x + y }

  function Add4(x: bv32, y: bv32, z: bv32, u: bv32): bv32 { x + y + z + u }

  function Xor(x: bv32, y: bv32): bv32 { x ^ y }

  function And(x: bv32, y: bv32): bv32 { x & y }

  function Not(x: bv32): bv32 { !x }

  function Shr(x: bv32, n: bv32): bv32
    requires n <= 32
  {
    x >> n
  }

  function Rotr(x: bv32, n: bv32): bv32
    requires n <= 32
  {
    (x >> n) | (x << (32 - n))
  }

  function Sigma0(x: bv32): bv32 { Xor(Xor(Rotr(x, 2), Rotr(x, 13)), Rotr(x, 22)) }

  function Sigma1(x: bv32): bv32 { Xor(Xor(Rotr(x, 6), Rotr(x, 11)), Rotr(x, 25)) }

  function LowSigma0(x: bv32): bv32 { Xor(Xor(Rotr(x, 7), Rotr(x, 18)), Shr(x, 3)) }

  function LowSigma1(x: bv32): bv32 { Xor(Xor(Rotr(x, 17), Rotr(x, 19)), Shr(x, 10)) }

  function Ch(x: bv32, y: bv32, z: bv32): bv32 { Xor(And(x, y), And(Not(x), z)) }

  function Maj(x: bv32, y: bv32, z: bv32): bv32 { Xor(Xor(And(x, y), And(x, z)), And(y, z)) }

  function InitialHash(): Words {
    Words(0x6a09e667, 0xbb67ae85, 0x3c6ef372, 0xa54ff53a, 0x510e527f, 0x9b05688c, 0x1f83d9ab, 0x5be0cd19)
  }

  /** The table has eight rows of eight. */
  function ConstantRow(r: nat): (k: seq<bv32>)
    requires r < 8
    ensures |k| == 8
  {
    if r == 0 then [0x428a2f98, 0x71374491, 0xb5c0fbcf, 0xe9b5dba5, 0x3956c25b, 0x59f111f1, 0x923f82a4, 0xab1c5ed5]
    else if r == 1 then [0xd807aa98, 0x12835b01, 0x243185be, 0x550c7dc3, 0x72be5d74, 0x80deb1fe, 0x9bdc06a7, 0xc19bf174]
    else if r == 2 then [0xe49b69c1, 0xefbe4786, 0x0fc19dc6, 0x240ca1cc, 0x2de92c6f, 0x4a7484aa, 0x5cb0a9dc, 0x76f988da]
    else if r == 3 then [0x983e5152, 0xa831c66d, 0xb00327c8, 0xbf597fc7, 0xc6e00bf3, 0xd5a79147, 0x06ca6351, 0x14292967]
    else if r == 4 then [0x27b70a85, 0x2e1b2138, 0x4d2c6dfc, 0x53380d13, 0x650a7354, 0x766a0abb, 0x81c2c92e, 0x92722c85]
    else if r == 5 then [0xa2bfe8a1, 0xa81a664b, 0xc24b8b70, 0xc76c51a3, 0xd192e819, 0xd6990624, 0xf40e3585, 0x106aa070]
    else if r == 6 then [0x19a4c116, 0x1e376c08, 0x2748774c, 0x34b0bcb5, 0x391c0cb3, 0x4ed8aa4a, 0x5b9cca4f, 0x682e6ff3]
    else [0x748f82ee, 0x78a5636f, 0x84c87814, 0x8cc70208, 0x90befffa, 0xa4506ceb, 0xbef9a3f7, 0xc67178f2]
  }

  function Constants(): (k: seq<bv32>)
    ensures |k| == 64
  {
    ConstantRow(0) + ConstantRow(1) + ConstantRow(2) + ConstantRow(3)
    + ConstantRow(4) + ConstantRow(5) + ConstantRow(6) + ConstantRow(7)
  }

  lemma ConstantAt(r: nat, i: nat)
    requires r < 8 && i < 8
    ensures Constants()[8 * r + i] == ConstantRow(r)[i]
  {
    hide ConstantRow;
  }

  function WordOf(b0: bv8, b1: bv8, b2: bv8, b3: bv8): bv32 {
    ((b0 as bv32) << 24) | ((b1 as bv32) << 16) | ((b2 as bv32) << 8) | (b3 as bv32)
  }

  function BytesOf(w: bv32): (b: Octets)
    ensures |b| == 4
  {
    [((w >> 24) & 0xff) as bv8, ((w >> 16) & 0xff) as bv8, ((w >> 8) & 0xff) as bv8, (w & 0xff) as bv8]
  }

  /** The message schedule. */
  function Schedule(block: Octets, t: nat): bv32
    requires |block| == 64 && t < 64
  {
    if t < 16 then WordOf(block[4 * t], block[4 * t + 1], block[4 * t + 2], block[4 * t + 3])
    else
      Add4(LowSigma1(Schedule(block, t - 2)), Schedule(block, t - 7), LowSigma0(Schedule(block, t - 15)),
           Schedule(block, t - 16))
  }

  function Round(v: Words, k: bv32, w: bv32): Words {
    var t1 := Add(Add(Add(Add(v.h, Sigma1(v.e)), Ch(v.e, v.f, v.g)), k), w);
    var t2 := Add(Sigma0(v.a), Maj(v.a, v.b, v.c));
    Words(Add(t1, t2), v.a, v.b, v.c, Add(v.d, t1), v.e, v.f, v.g)
  }

  function Rounds(v: Words, block: Octets, t: nat): Words
    requires |block| == 64 && t <= 64
  {
    if t == 0 then v else Round(Rounds(v, block, t - 1), Constants()[t - 1], Schedule(block, t - 1))
  }

  function Sum(x: Words, y: Words): Words {
    Words(Add(x.a, y.a), Add(x.b, y.b), Add(x.c, y.c), Add(x.d, y.d), Add(x.e, y.e), Add(x.f, y.f), Add(x.g, y.g),
          Add(x.h, y.h))
  }

  function Compress(v: Words, block: Octets): Words
    requires |block| == 64
  {
    Sum(v, Rounds(v, block, 64))
  }

  /** The hash value after all blocks of m. */
  function Chain(m: Octets): Words
    requires |m| % 64 == 0
  {
    if m == [] then InitialHash() else Compress(Chain(m[..|m| - 64]), m[|m| - 64..])
  }

  function Power256(n: nat): (p: nat)
    ensures p > 0
  {
    if n == 0 then 1 else 0x100 * Power256(n - 1)
  }

  /** The last n bytes of v, most significant first. */
  function BigEndian(v: nat, n: nat): (b: Data)
    ensures |b| == n
  {
    if n == 0 then [] else BigEndian(v / 0x100, n - 1) + [ByteOf(v)]
  }

  function Octet(b: Byte): bv8 { (b as int) as bv8 }

  /** A message length in bits, in 64 bits. */
  function BitCount(n: nat): nat {
    8 * n % 0x1_0000_0000_0000_0000
  }

  function AsOctets(b: Data): (o: Octets)
    ensures |o| == |b|
  {
    seq(|b|, i requires 0 <= i < |b| => Octet(b[i]))
  }

  function Zeros(n: nat): (z: Octets)
    ensures |z| == n
  {
    seq(n, i => 0)
  }

  /** Section 5.1.1: a one bit, zeros up to 448 bits modulo 512, and the length in bits. */
  function Pad(m: Octets): Octets {
    m + [0x80] + Zeros((55 - |m|) % 64) + AsOctets(BigEndian(BitCount(|m|), 8))
  }

  lemma PadIsWhole(m: Octets)
    ensures |Pad(m)| % 64 == 0
  {
  }

  lemma ZerosNone()
    ensures Zeros(0) == []
  {
  }

  lemma ZerosMore(m: Octets, k: nat)
    ensures m + Zeros(k) + [0] == m + Zeros(k + 1)
  {
    assert Zeros(k) + [0] == Zeros(k + 1);
  }

  /** No more zeros than needed: the padded message is the shortest that holds the message, the one bit and the
      length. */
  lemma PadIsShortest(m: Octets)
    ensures |m| + 9 <= |Pad(m)| < |m| + 9 + 64
    ensures Pad(m)[..|m|] == m && Pad(m)[|m|] == 0x80
    ensures forall i :: |m| < i < |Pad(m)| - 8 ==> Pad(m)[i] == 0
  {
    hide BigEndian, Octet;
  }

  function BytesOfWords(ws: seq<bv32>): (d: Octets)
    ensures |d| == 4 * |ws|
  {
    if ws == [] then [] else BytesOfWords(ws[..|ws| - 1]) + BytesOf(ws[|ws| - 1])
  }

  function ListOf(v: Words): (ws: seq<bv32>)
    ensures |ws| == 8
  {
    [v.a, v.b, v.c, v.d, v.e, v.f, v.g, v.h]
  }

  function Hash(m: Octets): (d: Octets)
    ensures |d| == 32
  {
    PadIsWhole(m);
    BytesOfWords(ListOf(Chain(Pad(m))))
  }

  // ----- what the length field says -----

  function FromBigEndian(b: Data): nat {
    if b == [] then 0 else 0x100 * FromBigEndian(b[..|b| - 1]) + b[|b| - 1] as int
  }

  lemma {:induction false} BigEndianReads(v: nat, n: nat)
    requires v < Power256(n)
    ensures FromBigEndian(BigEndian(v, n)) == v
  {
    if n > 0 {
      BigEndianReads(v / 0x100, n - 1);
      var b := BigEndian(v, n);
      assert b[..n - 1] == BigEndian(v / 0x100, n - 1);
    }
  }

  /** Byte k from the left of the big-endian form, as the shift in the code selects it. */
  lemma {:induction false} BigEndianAt(v: nat, n: nat, k: nat)
    requires k < n
    ensures BigEndian(v, n)[k] == ByteOf(v / Power256(n - 1 - k))
  {
    if k < n - 1 {
      BigEndianAt(v / 0x100, n - 1, k);
      DivideTwice(v, Power256(n - 2 - k));
    }
  }

  lemma DivideTwice(v: nat, p: nat)
    requires p > 0
    ensures (v / 0x100) / p == v / (0x100 * p)
  {
    var u := v / 0x100;
    var q, r := u / p, u % p;
    assert u == p * q + r;
    var rest := 0x100 * r + v % 0x100;
    assert (0x100 * p) * q == 0x100 * (p * q);
    QuotientIs(v, 0x100 * p, q, rest);
  }

  lemma AtLeastOnce(d: int, x: int)
    requires d > 0 && x >= 1
    ensures d * x >= d
  {
  }

  lemma QuotientIs(v: int, d: int, q: int, r: int)
    requires d > 0 && 0 <= r < d && v == d * q + r
    ensures v / d == q
  {
    var k, s := v / d, v % d;
    assert d * (k - q) == d * k - d * q == r - s;
    assert d * (q - k) == d * q - d * k == s - r;
    if k > q {
      AtLeastOnce(d, k - q);
    } else if k < q {
      AtLeastOnce(d, q - k);
    }
  }

  // ----- the buffered class -----

  /** How much of a message has been compressed; the rest waits in the buffer. */
  function Whole(n: nat): nat {
    n - n % 64
  }

  lemma WholeGrows(n: nat, k: nat)
    requires n % 64 + k <= 64
    ensures Whole(n + k) == if n % 64 + k == 64 then n + k else Whole(n)
    ensures (n + k) % 64 == if n % 64 + k == 64 then 0 else n % 64 + k
  {
  }

  lemma ChainOneMore(m: Octets, block: Octets)
    requires |m| % 64 == 0 && |block| == 64
    ensures Chain(m + block) == Compress(Chain(m), block)
  {
    assert (m + block)[..|m + block| - 64] == m;
  }

  lemma AnyOrder(x: bv32, y: bv32, z: bv32, u: bv32)
    ensures Add4(x, y, z, u) == Add4(u, z, y, x)
  {
  }

  /** The code adds the four terms in the opposite order. */
  lemma ScheduleEnd(block: Octets, t: nat)
    requires |block| == 64 && 16 <= t < 64
    ensures Schedule(block, t)
            == Add4(Schedule(block, t - 16), LowSigma0(Schedule(block, t - 15)), Schedule(block, t - 7),
                    LowSigma1(Schedule(block, t - 2)))
  {
    hide LowSigma0, LowSigma1, WordOf, Add4;
    AnyOrder(Schedule(block, t - 16), LowSigma0(Schedule(block, t - 15)), Schedule(block, t - 7),
             LowSigma1(Schedule(block, t - 2)));
  }

  lemma BitsAdd(x: nat, n: nat)
    ensures (BitCount(x) + BitCount(n)) % 0x1_0000_0000_0000_0000 == BitCount(x + n)
  {
  }

  function WordsOf(s: seq<bv32>): Words
    requires |s| == 8
  {
    Words(s[0], s[1], s[2], s[3], s[4], s[5], s[6], s[7])
  }

  /** What state and buffer stand for once the message `fed` has been taken in. */
  ghost predicate Holding(fed: Octets, state: seq<bv32>, buffer: Octets, bufferLen: nat) {
    && |state| == 8 && |buffer| == 64 && bufferLen == |fed| % 64
    && WordsOf(state) == Chain(fed[..Whole(|fed|)])
    && buffer[..bufferLen] == fed[Whole(|fed|)..]
  }

  lemma HoldingNothing(state: seq<bv32>, buffer: Octets)
    requires |state| == 8 && |buffer| == 64 && WordsOf(state) == InitialHash()
    ensures Holding([], state, buffer, 0)
  {
  }

  lemma HoldingMore(fed: Octets, state: seq<bv32>, buffer: Octets, n: nat, piece: Octets, after: Octets)
    requires Holding(fed, state, buffer, n) && n + |piece| < 64
    requires |after| == 64 && after[..n + |piece|] == buffer[..n] + piece
    ensures Holding(fed + piece, state, after, n + |piece|)
  {
    hide Chain, WordsOf;
    WholeGrows(|fed|, |piece|);
    assert (fed + piece)[..Whole(|fed|)] == fed[..Whole(|fed|)];
    assert (fed + piece)[Whole(|fed|)..] == fed[Whole(|fed|)..] + piece;
  }

  lemma HoldingFull(fed: Octets, state: seq<bv32>, buffer: Octets, n: nat, piece: Octets, after: Octets,
                    next: seq<bv32>)
    requires Holding(fed, state, buffer, n) && n + |piece| == 64 && piece != []
    requires |after| == 64 && after == buffer[..n] + piece
    requires |next| == 8 && WordsOf(next) == Compress(WordsOf(state), after)
    ensures Holding(fed + piece, next, after, 0)
  {
    hide Chain, WordsOf, Compress;
    WholeGrows(|fed|, |piece|);
    var w := Whole(|fed|);
    assert fed + piece == fed[..w] + after;
    assert (fed + piece)[..|fed + piece|] == fed + piece && (fed + piece)[|fed + piece|..] == [];
    ChainOneMore(fed[..w], after);
  }

  // ----- the padding -----

  lemma PadCount(n: nat, k: nat)
    requires k <= (55 - n) % 64
    ensures (n + 1 + k) % 64 == 56 <==> k == (55 - n) % 64
  {
  }

  lemma NextPlace(n: nat)
    requires n % 64 != 56
    ensures (56 - (n + 1) % 64) % 64 < (56 - n % 64) % 64
  {
  }

  lemma BytesOneMore(ws: seq<bv32>, i: nat)
    requires i < |ws|
    ensures BytesOfWords(ws[..i + 1]) == BytesOfWords(ws[..i]) + BytesOf(ws[i])
  {
    hide BytesOf;
    assert ws[..i + 1][..i] == ws[..i];
  }

  lemma ListOfWords(s: seq<bv32>)
    requires |s| == 8
    ensures ListOf(WordsOf(s)) == s
  {
  }

  /** A right shift by the bits of `p`, a power of 256, and a mask: `(bits >> (56 - 8 * i)) & 0xff`. */
  function Shifted(v: nat, p: nat): bv8
    requires p > 0
  {
    Octet(ByteOf(v / p))
  }

  lemma LengthAt(v: nat, i: nat)
    requires i < 8
    ensures AsOctets(BigEndian(v, 8))[i] == Shifted(v, Power256(7 - i))
  {
    hide Power256, BigEndian, Octet;
    BigEndianAt(v, 8, i);
  }

  class Sha256 {
    const state: array<bv32>
    const buffer: array<bv8>
    var bufferLen: nat
    var totalBits: nat
    ghost var fed: Octets

    ghost predicate Valid()
      reads this, state, buffer
    {
      Holding(fed, state[..], buffer[..], bufferLen) && totalBits == BitCount(|fed|)
    }

    constructor ()
      ensures Valid() && fed == [] && fresh(state) && fresh(buffer)
    {
      state, buffer := new bv32[8], new bv8[64];
      bufferLen, totalBits, fed := 0, 0, [];
      new;
      Reset();
    }

    method Reset()
      requires state.Length == 8 && buffer.Length == 64
      modifies this, state
      ensures Valid() && fed == []
    {
      hide Holding, InitialHash, Chain;
      var h := InitialHash();
      state[0], state[1], state[2], state[3] := h.a, h.b, h.c, h.d;
      state[4], state[5], state[6], state[7] := h.e, h.f, h.g, h.h;
      bufferLen, totalBits, fed := 0, 0, [];
      HoldingNothing(state[..], buffer[..]);
    }

    /** `transform`: one block into the state. */
    method Transform()
      requires state.Length == 8 && buffer.Length == 64
      modifies state
      ensures WordsOf(state[..]) == Compress(WordsOf(old(state[..])), buffer[..])
    {
      hide Schedule, Rounds, Constants, WordOf, Sum, Round;
      var k := Constants();
      var w := ScheduleOf(buffer);
      ghost var block := buffer[..];
      var v := Words(state[0], state[1], state[2], state[3], state[4], state[5], state[6], state[7]);
      ghost var start := v;
      RoundsStart(start, block);
      for i := 0 to 64
        invariant v == Rounds(start, block, i)
        modifies {}
      {
        RoundsStep(start, block, i);
        v := RoundOf(v, k[i], w[i]);
      }
      AddInto(v);
    }

    method AddInto(v: Words)
      requires state.Length == 8
      modifies state
      ensures WordsOf(state[..]) == Sum(WordsOf(old(state[..])), v)
    {
      hide Add;
      var h := WordsOf(state[..]);
      state[0], state[1], state[2], state[3] := Add(h.a, v.a), Add(h.b, v.b), Add(h.c, v.c), Add(h.d, v.d);
      state[4], state[5], state[6], state[7] := Add(h.e, v.e), Add(h.f, v.f), Add(h.g, v.g), Add(h.h, v.h);
    }

    /** One turn of the copying loop: `take` bytes into the buffer, and a full buffer into the state. */
    method Fill(data: array<bv8>, pos: nat, take: nat)
      requires Holding(fed, state[..], buffer[..], bufferLen) && data != buffer
      requires pos + take <= data.Length && 0 < take && bufferLen + take <= 64
      modifies this`bufferLen, this`fed, state, buffer
      ensures fed == old(fed) + data[pos..pos + take]
      ensures Holding(fed, state[..], buffer[..], bufferLen)
    {
      hide Holding, Chain, Compress, WordsOf;
      ghost var was, words, n, piece := buffer[..], state[..], bufferLen, data[pos..pos + take];
      HoldingShape(fed, words, was, n);
      for i := 0 to take
        invariant buffer[..n + i] == was[..n] + piece[..i]
        modifies buffer
      {
        buffer[bufferLen + i] := data[pos + i];
        assert piece[i] == data[pos + i] && piece[..i + 1] == piece[..i] + [piece[i]];
        assert buffer[..n + i + 1] == buffer[..n + i] + [buffer[n + i]];
      }
      assert piece[..take] == piece && buffer[..][..n + take] == buffer[..n + take];
      assert state[..] == words;
      bufferLen := bufferLen + take;
      if bufferLen == 64 {
        assert buffer[..] == buffer[..64];
        Transform();
        HoldingFull(fed, words, was, n, piece, buffer[..], state[..]);
        bufferLen := 0;
      } else {
        HoldingMore(fed, state[..], was, n, piece, buffer[..]);
      }
      fed := fed + piece;
    }

    /** `update`. However a message is cut into updates, only what was fed in all matters. */
    method Update(data: array<bv8>)
      requires Valid() && data != buffer
      modifies this, state, buffer
      ensures Valid() && fed == old(fed) + data[..]
    {
      hide Holding, BitCount;
      totalBits := (totalBits + BitCount(data.Length)) % 0x1_0000_0000_0000_0000;
      BitsAdd(|fed|, data.Length);
      HoldingShape(fed, state[..], buffer[..], bufferLen);
      var pos, len := 0, data.Length;
      while len > 0
        invariant 0 <= pos && 0 <= len && pos + len == data.Length && bufferLen < 64
        invariant fed == old(fed) + data[..pos] && Holding(fed, state[..], buffer[..], bufferLen)
        invariant totalBits == BitCount(|old(fed)| + data.Length)
      {
        var take := 64 - bufferLen;
        if take > len { take := len; }
        Fill(data, pos, take);
        HoldingShape(fed, state[..], buffer[..], bufferLen);
        assert data[..pos + take] == data[..pos] + data[pos..pos + take];
        pos, len := pos + take, len - take;
      }
      assert data[..pos] == data[..];
    }

    /** `final`: the padding is fed in byte by byte until 56 bytes wait in the buffer, the length goes in
        directly, and the digest is that of the standard's padded message. The object is spent. */
    method Final(out: array<bv8>)
      requires Valid() && out != buffer && out.Length >= 32
      modifies this, state, buffer, out
      ensures out[..] == Hash(old(fed)) + old(out[32..])
    {
      hide Holding, Chain, BytesOfWords, ListOf, WordsOf, BigEndian, Power256, Shifted, BitCount, Zeros, AsOctets;
      var bits := totalBits;
      ZerosNone();
      ghost var m := fed;
      var one := new bv8[1][0x80];
      var zero := new bv8[1][0];
      Update(one);
      ghost var k := 0;
      assert fed == m + [0x80] + Zeros(0);
      HoldingShape(fed, state[..], buffer[..], bufferLen);
      while bufferLen != 56
        invariant Valid() && k <= (55 - |m|) % 64 && fed == m + [0x80] + Zeros(k)
        invariant bufferLen == |fed| % 64 && zero[..] == [0]
        invariant out[..] == old(out[..])
        decreases (56 - |fed| % 64) % 64
      {
        PadCount(|m|, k);
        NextPlace(|fed|);
        Update(zero);
        HoldingShape(fed, state[..], buffer[..], bufferLen);
        ZerosMore(m + [0x80], k);
        k := k + 1;
      }
      PadCount(|m|, k);
      PutLength(bits);
      ghost var length := AsOctets(BigEndian(bits, 8));
      assert fed + length == Pad(m);
      PadIsWhole(m);
      WriteDigest(out);
    }

    /** The length in bits behind the padding, and the last block into the state. */
    method PutLength(bits: nat)
      requires Holding(fed, state[..], buffer[..], 56)
      modifies state, buffer
      ensures state.Length == 8 && |fed + AsOctets(BigEndian(bits, 8))| % 64 == 0
      ensures WordsOf(state[..]) == Chain(fed + AsOctets(BigEndian(bits, 8)))
    {
      hide Holding, Chain, WordsOf, BigEndian, Power256, Shifted, Compress;
      ghost var was, words, length := buffer[..], state[..], AsOctets(BigEndian(bits, 8));
      HoldingShape(fed, words, was, 56);
      for i := 0 to 8
        invariant buffer[..56 + i] == was[..56] + length[..i]
        modifies buffer
      {
        LengthAt(bits, i);
        buffer[56 + i] := Shifted(bits, Power256(7 - i));
        assert length[..i + 1] == length[..i] + [length[i]];
        assert buffer[..56 + i + 1] == buffer[..56 + i] + [buffer[56 + i]];
      }
      assert buffer[..] == buffer[..64] == was[..56] + length && state[..] == words;
      Transform();
      HoldingFull(fed, words, was, 56, length, was[..56] + length, state[..]);
      HoldingAll(fed + length, state[..], was[..56] + length);
    }

    method WriteDigest(out: array<bv8>)
      requires state.Length == 8 && out.Length >= 32
      modifies out
      ensures out[..] == BytesOfWords(ListOf(WordsOf(state[..]))) + old(out[32..])
    {
      hide BytesOf, BytesOfWords, ListOf, WordsOf;
      ghost var ws, was := state[..], out[..];
      ListOfWords(ws);
      NoBytes();
      for i := 0 to 8
        invariant out[..] == BytesOfWords(ws[..i]) + was[4 * i..]
        modifies out
      {
        BytesOneMore(ws, i);
        var b := BytesOf(state[i]);
        Splice(BytesOfWords(ws[..i]), b, was);
        Write4(out, 4 * i, b);
      }
      assert ws[..8] == ws;
    }
  }

  lemma Splice(done: Octets, b: Octets, was: Octets)
    requires |done| + |b| <= |was|
    ensures var s := done + was[|done|..];
            s[..|done|] + b + s[|done| + |b|..] == (done + b) + was[|done| + |b|..]
  {
  }

  lemma NoBytes()
    ensures BytesOfWords([]) == []
  {
  }

  method Write4(out: array<bv8>, at: nat, b: Octets)
    requires |b| == 4 && at + 4 <= out.Length
    modifies out
    ensures out[..] == old(out[..])[..at] + b + old(out[..])[at + 4..]
  {
    out[at] := b[0];
    out[at + 1] := b[1];
    out[at + 2] := b[2];
    out[at + 3] := b[3];
  }

  lemma HoldingAll(fed: Octets, state: seq<bv32>, buffer: Octets)
    requires Holding(fed, state, buffer, 0)
    ensures |fed| % 64 == 0 && WordsOf(state) == Chain(fed)
  {
    hide Chain, WordsOf;
    assert fed[..Whole(|fed|)] == fed;
  }

  /** One-shot use, and use in any number of pieces of any sizes: the same digest. */
  method HashOf(data: array<bv8>, out: array<bv8>)
    requires out.Length >= 32
    modifies out
    ensures out[..] == Hash(old(data[..])) + old(out[32..])
  {
    hide Holding, Hash;
    var h := new Sha256();
    h.Update(data);
    assert h.fed == data[..];
    h.Final(out);
  }

  method HashOfPieces(pieces: seq<array<bv8>>, out: array<bv8>)
    requires out.Length >= 32
    modifies out
    ensures out[..] == Hash(Concat(seq(|pieces|, i requires 0 <= i < |pieces| => old(pieces[i][..])))) + old(out[32..])
  {
    hide Holding, Hash;
    var h := new Sha256();
    ghost var contents := seq(|pieces|, i requires 0 <= i < |pieces| => old(pieces[i][..]));
    for k := 0 to |pieces|
      invariant h.Valid() && h.fed == Concat(contents[..k]) && fresh(h) && fresh(h.state) && fresh(h.buffer)
      invariant out[..] == old(out[..])
    {
      assert contents[..k + 1] == contents[..k] + [contents[k]];
      ConcatOneMore(contents[..k], contents[k]);
      assert pieces[k][..] == old(pieces[k][..]);
      h.Update(pieces[k]);
    }
    assert contents[..|pieces|] == contents;
    h.Final(out);
  }

  lemma HoldingShape(fed: Octets, state: seq<bv32>, buffer: Octets, n: nat)
    requires Holding(fed, state, buffer, n)
    ensures |state| == 8 && |buffer| == 64 && n == |fed| % 64 && n < 64
  {
  }

  lemma RoundsStart(v: Words, block: Octets)
    requires |block| == 64
    ensures Rounds(v, block, 0) == v
  {
  }

  lemma RoundsStep(v: Words, block: Octets, t: nat)
    requires |block| == 64 && t < 64
    ensures Rounds(v, block, t + 1) == Round(Rounds(v, block, t), Constants()[t], Schedule(block, t))
  {
    hide Round, Schedule;
  }

  /** The body of the round loop, variable by variable. */
  method RoundOf(v: Words, k: bv32, w: bv32) returns (r: Words)
    ensures r == Round(v, k, w)
  {
    hide Rotr, Add, Xor, And, Not;
    var a, b, c, d, e, f, g, h := v.a, v.b, v.c, v.d, v.e, v.f, v.g, v.h;
    var s1 := Xor(Xor(Rotr(e, 6), Rotr(e, 11)), Rotr(e, 25));
    var ch := Xor(And(e, f), And(Not(e), g));
    var temp1 := Add(Add(Add(Add(h, s1), ch), k), w);
    var s0 := Xor(Xor(Rotr(a, 2), Rotr(a, 13)), Rotr(a, 22));
    var maj := Xor(Xor(And(a, b), And(a, c)), And(b, c));
    var temp2 := Add(s0, maj);
    h := g;
    g := f;
    f := e;
    e := Add(d, temp1);
    d := c;
    c := b;
    b := a;
    a := Add(temp1, temp2);
    r := Words(a, b, c, d, e, f, g, h);
  }

  method ScheduleOf(block: array<bv8>) returns (w: array<bv32>)
    requires block.Length == 64
    ensures fresh(w) && w.Length == 64 && forall t :: 0 <= t < 64 ==> w[t] == Schedule(block[..], t)
  {
    hide Schedule, WordOf, Rotr, Add4, Xor, Shr;
    w := new bv32[64];
    for t := 0 to 16
      invariant forall j :: 0 <= j < t ==> w[j] == Schedule(block[..], j)
    {
      ScheduleStart(block[..], t);
      w[t] := WordOf(block[4 * t], block[4 * t + 1], block[4 * t + 2], block[4 * t + 3]);
    }
    for t := 16 to 64
      invariant forall j :: 0 <= j < t ==> w[j] == Schedule(block[..], j)
    {
      ScheduleEnd(block[..], t);
      var s0 := Xor(Xor(Rotr(w[t - 15], 7), Rotr(w[t - 15], 18)), Shr(w[t - 15], 3));
      var s1 := Xor(Xor(Rotr(w[t - 2], 17), Rotr(w[t - 2], 19)), Shr(w[t - 2], 10));
      w[t] := Add4(w[t - 16], s0, w[t - 7], s1);
    }
  }

  lemma ScheduleStart(block: Octets, t: nat)
    requires |block| == 64 && t < 16
    ensures Schedule(block, t) == WordOf(block[4 * t], block[4 * t + 1], block[4 * t + 2], block[4 * t + 3])
  {
    hide WordOf;
  }
}
