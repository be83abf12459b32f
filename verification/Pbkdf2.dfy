/** HMAC-SHA256 and PBKDF2 of frontend/src/password.h against section 2 of RFC 2104 and section 5.2 of
    RFC 2898. Buffers are arrays, so that the code may read a message from the array it writes to. */
module Pbkdf2 {
  import opened Bytes
  import opened Sha256

  function XorWith(b: Octets, c: bv8): (x: Octets)
    ensures |x| == |b|
  {
    seq(|b|, i requires 0 <= i < |b| => b[i] ^ c)
  }

  function XorSeq(a: Octets, b: Octets): (x: Octets)
    requires |a| == |b|
    ensures |x| == |a|
  {
    seq(|a|, i requires 0 <= i < |a| => a[i] ^ b[i])
  }

  /** The key, hashed first if it is longer than a block, then filled up with zeros. */
  function KeyBlock(key: Octets): (k: Octets)
    ensures |k| == 64
  {
    if |key| > 64 then Hash(key) + Zeros(32) else key + Zeros(64 - |key|)
  }

  function Hmac(key: Octets, msg: Octets): (d: Octets)
    ensures |d| == 32
  {
    Hash(XorWith(KeyBlock(key), 0x5c) + Hash(XorWith(KeyBlock(key), 0x36) + msg))
  }

  /** The key block of the code: zeroed, then overwritten from the left. */
  method MakeKeyBlock(key: array<bv8>) returns (k: array<bv8>)
    ensures fresh(k) && k[..] == KeyBlock(key[..])
  {
    hide Hash, Zeros;
    k := new bv8[64](_ => 0);
    ZeroCells(k[..]);
    if key.Length > 64 {
      HashOf(key, k);
      ZeroCells(k[32..]);
    } else {
      ghost var was := key[..];
      for i := 0 to key.Length
        invariant k[..i] == was[..i] && k[i..] == Zeros(64 - i)
        modifies k
      {
        ZerosTail(64 - i);
        k[i] := key[i];
        assert was[..i + 1] == was[..i] + [was[i]] && k[..i + 1] == k[..i] + [k[i]];
        assert k[i + 1..] == Zeros(64 - i)[1..];
      }
      assert k[..] == k[..key.Length] + k[key.Length..] && was[..key.Length] == was;
    }
  }

  lemma ZeroCells(s: Octets)
    requires forall i :: 0 <= i < |s| ==> s[i] == 0
    ensures s == Zeros(|s|)
  {
  }

  lemma ZerosTail(n: nat)
    requires n > 0
    ensures Zeros(n)[1..] == Zeros(n - 1)
  {
  }

  method XorBlock(k: array<bv8>, c: bv8) returns (x: array<bv8>)
    ensures fresh(x) && x[..] == XorWith(k[..], c)
  {
    x := new bv8[k.Length];
    for i := 0 to k.Length
      invariant forall j :: 0 <= j < i ==> x[j] == k[j] ^ c
    {
      x[i] := k[i] ^ c;
    }
  }

  /** `hmac_sha256`. `out` may be the message or the key. */
  method HmacSha256(key: array<bv8>, msg: array<bv8>, out: array<bv8>)
    requires out.Length >= 32
    modifies out
    ensures out[..] == Hmac(old(key[..]), old(msg[..])) + old(out[32..])
  {
    hide Hash, XorWith, KeyBlock;
    ghost var block, text, tail := KeyBlock(key[..]), msg[..], out[32..];
    var k := MakeKeyBlock(key);
    var ipad := XorBlock(k, 0x36);
    var opad := XorBlock(k, 0x5c);
    var inner := new bv8[32];
    HashTwo(ipad, msg, inner);
    assert inner[32..] == [] && inner[..] == Hash(XorWith(block, 0x36) + text);
    assert opad[..] == XorWith(block, 0x5c) && out[32..] == tail;
    HashTwo(opad, inner, out);
  }

  method HashTwo(pad: array<bv8>, msg: array<bv8>, out: array<bv8>)
    requires out.Length >= 32
    modifies out
    ensures out[..] == Hash(old(pad[..]) + old(msg[..])) + old(out[32..])
  {
    hide Hash, Holding, BitCount;
    var h := new Sha256();
    h.Update(pad);
    h.Update(msg);
    assert h.fed == pad[..] + msg[..];
    h.Final(out);
  }

  // ----- the derivation -----

  /** INT(i), four octets, most significant first. */
  function Int32(i: nat): (b: Octets)
    ensures |b| == 4
  {
    AsOctets(BigEndian(i, 4))
  }

  /** U_c of block i. */
  function U(password: Octets, salt: Octets, c: nat, i: nat): (u: Octets)
    requires c >= 1
    ensures |u| == 32
  {
    if c == 1 then Hmac(password, salt + Int32(i)) else Hmac(password, U(password, salt, c - 1, i))
  }

  /** F(P, S, c, i): U_1 to U_c xored together. */
  function F(password: Octets, salt: Octets, c: nat, i: nat): (f: Octets)
    requires c >= 1
    ensures |f| == 32
  {
    if c == 1 then U(password, salt, 1, i) else XorSeq(F(password, salt, c - 1, i), U(password, salt, c, i))
  }

  /** T_1 to T_n. */
  function Blocks(password: Octets, salt: Octets, c: nat, n: nat): (t: Octets)
    requires c >= 1
    ensures |t| == 32 * n
  {
    if n == 0 then [] else Blocks(password, salt, c, n - 1) + F(password, salt, c, n)
  }

  function Derived(password: Octets, salt: Octets, c: nat, len: nat): (k: Octets)
    requires c >= 1
    ensures |k| == len
  {
    Blocks(password, salt, c, (len + 31) / 32)[..len]
  }

  /** An iteration count of zero acts as one. */
  function Effective(iterations: nat): nat {
    if iterations < 1 then 1 else iterations
  }

  /** The four bytes that the code pushes. The counter wraps after 2^32 - 1, where the standard stops. */
  method PushIndex(salt: Octets, blockIndex: nat) returns (msg: array<bv8>)
    requires blockIndex < U32
    ensures fresh(msg) && msg[..] == salt + Int32(blockIndex)
  {
    var bytes := [Shifted(blockIndex, 0x100_0000), Shifted(blockIndex, 0x1_0000), Shifted(blockIndex, 0x100),
                  Shifted(blockIndex, 1)];
    IndexBytes(blockIndex, bytes);
    var all := salt + bytes;
    msg := new bv8[|all|](i requires 0 <= i < |all| => all[i]);
    assert msg[..] == all;
  }

  lemma IndexBytes(v: nat, bytes: Octets)
    requires bytes == [Shifted(v, 0x100_0000), Shifted(v, 0x1_0000), Shifted(v, 0x100), Shifted(v, 1)]
    ensures bytes == Int32(v)
  {
    hide BigEndian, Octet;
    BigEndianAt(v, 4, 0);
    BigEndianAt(v, 4, 1);
    BigEndianAt(v, 4, 2);
    BigEndianAt(v, 4, 3);
    assert Power256(0) == 1 && Power256(1) == 0x100 && Power256(2) == 0x1_0000 && Power256(3) == 0x100_0000;
  }

  lemma Int32Wraps(i: nat)
    ensures Int32(i % 0x1_0000_0000) == Int32(i)
  {
    hide AsOctets;
    var j := i % 0x1_0000_0000;
    assert BigEndian(j, 4) == BigEndian(i, 4) by {
      ByteWraps(i);
      BigEndianFour(i);
      BigEndianFour(j);
    }
  }

  lemma BigEndianFour(v: nat)
    ensures BigEndian(v, 4) == [ByteOf(v / 0x100 / 0x100 / 0x100), ByteOf(v / 0x100 / 0x100), ByteOf(v / 0x100),
                                ByteOf(v)]
  {
    hide ByteOf;
    assert BigEndian(v / 0x100 / 0x100, 2) == [ByteOf(v / 0x100 / 0x100 / 0x100), ByteOf(v / 0x100 / 0x100)] by {
      assert BigEndian(v / 0x100 / 0x100 / 0x100, 1) == [ByteOf(v / 0x100 / 0x100 / 0x100)];
    }
  }

  lemma ByteStep(x: nat, m: nat)
    ensures ByteOf(x + 0x100 * m) == ByteOf(x) && (x + 0x100 * m) / 0x100 == x / 0x100 + m
  {
  }

  lemma ByteWraps(i: nat)
    ensures var j := i % 0x1_0000_0000;
            && ByteOf(j) == ByteOf(i) && ByteOf(j / 0x100) == ByteOf(i / 0x100)
            && ByteOf(j / 0x100 / 0x100) == ByteOf(i / 0x100 / 0x100)
            && ByteOf(j / 0x100 / 0x100 / 0x100) == ByteOf(i / 0x100 / 0x100 / 0x100)
  {
    hide ByteOf;
    var j, q := i % 0x1_0000_0000, i / 0x1_0000_0000;
    ByteStep(j, 0x100_0000 * q);
    ByteStep(j / 0x100, 0x1_0000 * q);
    ByteStep(j / 0x100 / 0x100, 0x100 * q);
    ByteStep(j / 0x100 / 0x100 / 0x100, q);
  }

  /** One block: `u` is read and overwritten in place, `acc` gathers the xors. */
  method DeriveBlock(password: array<bv8>, salt: Octets, iterations: nat, blockIndex: nat) returns (acc: array<bv8>)
    requires blockIndex < U32
    ensures fresh(acc) && acc[..] == F(password[..], salt, Effective(iterations), blockIndex)
  {
    hide Hmac, XorSeq, Int32, F, U;
    var msg := PushIndex(salt, blockIndex);
    var u := new bv8[32];
    HmacSha256(password, msg, u);
    assert u[32..] == [];
    acc := new bv8[32](i requires 0 <= i < 32 reads u => u[i]);
    assert acc[..] == u[..];
    ghost var p := password[..];
    FStart(p, salt, blockIndex);
    var i := 1;
    while i < iterations
      invariant 1 <= i <= Effective(iterations)
      invariant u[..] == U(p, salt, i, blockIndex) && acc[..] == F(p, salt, i, blockIndex)
      modifies u, acc
    {
      FStep(p, salt, i + 1, blockIndex);
      HmacSha256(password, u, u);
      assert u[32..] == [];
      XorInto(acc, u);
      i := i + 1;
    }
  }

  lemma FStart(p: Octets, salt: Octets, i: nat)
    ensures U(p, salt, 1, i) == Hmac(p, salt + Int32(i)) && F(p, salt, 1, i) == U(p, salt, 1, i)
  {
    hide Hmac, Int32;
  }

  lemma FStep(p: Octets, salt: Octets, c: nat, i: nat)
    requires c >= 2
    ensures U(p, salt, c, i) == Hmac(p, U(p, salt, c - 1, i))
    ensures F(p, salt, c, i) == XorSeq(F(p, salt, c - 1, i), U(p, salt, c, i))
  {
    hide Hmac, Int32, XorSeq;
  }

  method XorInto(acc: array<bv8>, u: array<bv8>)
    requires acc.Length == u.Length && acc != u
    modifies acc
    ensures acc[..] == XorSeq(old(acc[..]), u[..])
  {
    for j := 0 to acc.Length
      invariant forall k :: 0 <= k < j ==> acc[k] == old(acc[k]) ^ u[k]
      invariant forall k :: j <= k < acc.Length ==> acc[k] == old(acc[k])
    {
      acc[j] := acc[j] ^ u[j];
    }
  }

  /** `pbkdf2_sha256`: the output is the standard's derived key, for every output length. */
  method Pbkdf2Sha256(password: array<bv8>, salt: Octets, iterations: nat, out: array<bv8>)
    requires password != out
    modifies out
    ensures out[..] == Derived(password[..], salt, Effective(iterations), out.Length)
  {
    hide F, Blocks, Int32;
    ghost var p, c := password[..], Effective(iterations);
    var blockIndex, produced := 1, 0;
    ghost var n := 0;
    BlocksStart(p, salt, c);
    while produced < out.Length
      invariant 0 <= produced <= out.Length && blockIndex == (n + 1) % 0x1_0000_0000
      invariant produced == if 32 * n <= out.Length then 32 * n else out.Length
      invariant n == (produced + 31) / 32
      invariant out[..produced] == Blocks(p, salt, c, n)[..produced]
      modifies out
    {
      var acc := DeriveBlock(password, salt, iterations, blockIndex);
      FWraps(p, salt, c, n + 1);
      BlocksStep(p, salt, c, n);
      var take := if out.Length - produced < 32 then out.Length - produced else 32;
      Copy(out, produced, acc, take);
      assert out[..produced + take] == out[..produced] + acc[..take];
      assert Blocks(p, salt, c, n + 1)[..produced + take] == Blocks(p, salt, c, n) + acc[..take];
      produced := produced + take;
      blockIndex := (blockIndex + 1) % 0x1_0000_0000;
      n := n + 1;
    }
    assert out[..produced] == out[..];
  }

  lemma BlocksStart(p: Octets, salt: Octets, c: nat)
    requires c >= 1
    ensures Blocks(p, salt, c, 0) == []
  {
  }

  lemma BlocksStep(p: Octets, salt: Octets, c: nat, n: nat)
    requires c >= 1
    ensures Blocks(p, salt, c, n + 1) == Blocks(p, salt, c, n) + F(p, salt, c, n + 1)
  {
    hide F;
  }

  lemma {:induction false} UWraps(p: Octets, salt: Octets, c: nat, i: nat)
    requires c >= 1
    ensures U(p, salt, c, i % 0x1_0000_0000) == U(p, salt, c, i)
  {
    hide Hmac, Int32;
    if c == 1 {
      Int32Wraps(i);
    } else {
      UWraps(p, salt, c - 1, i);
    }
  }

  lemma {:induction false} FWraps(p: Octets, salt: Octets, c: nat, i: nat)
    requires c >= 1
    ensures F(p, salt, c, i % 0x1_0000_0000) == F(p, salt, c, i)
  {
    hide U, XorSeq;
    UWraps(p, salt, c, i);
    if c > 1 {
      FWraps(p, salt, c - 1, i);
    }
  }

  /** memcpy. */
  method Copy(out: array<bv8>, at: nat, from: array<bv8>, n: nat)
    requires at + n <= out.Length && n <= from.Length && out != from
    modifies out
    ensures out[..] == old(out[..at]) + from[..n] + old(out[at + n..])
  {
    for i := 0 to n
      invariant forall k :: 0 <= k < i ==> out[at + k] == from[k]
      invariant forall k :: 0 <= k < out.Length && !(at <= k < at + i) ==> out[k] == old(out[k])
    {
      out[at + i] := from[i];
    }
  }

  // ----- known values -----

  function Same(n: nat, c: bv8): (s: Octets)
    ensures |s| == n
  {
    seq(n, i => c)
  }

  /** The key of the first test case of RFC 4231, twenty octets 0b: the blocks that are hashed in front. */
  lemma HmacTwenty(msg: Octets)
    ensures Hmac(Same(20, 0x0b), msg)
            == Hash(Same(20, 0x57) + Same(44, 0x5c) + Hash(Same(20, 0x3d) + Same(44, 0x36) + msg))
  {
    hide Hash;
    assert XorWith(KeyBlock(Same(20, 0x0b)), 0x36) == Same(20, 0x3d) + Same(44, 0x36);
    assert XorWith(KeyBlock(Same(20, 0x0b)), 0x5c) == Same(20, 0x57) + Same(44, 0x5c);
  }

  /** A key longer than a block is as good as its digest, and zeros behind a key that fits change nothing. */
  lemma HmacKeys(key: Octets, n: nat, msg: Octets)
    ensures |key| > 64 ==> Hmac(key, msg) == Hmac(Hash(key), msg)
    ensures |key| + n <= 64 ==> Hmac(key + Zeros(n), msg) == Hmac(key, msg)
  {
    hide Hash, XorWith;
    if |key| + n <= 64 {
      assert Zeros(n) + Zeros(64 - |key| - n) == Zeros(64 - |key|);
      assert KeyBlock(key + Zeros(n)) == key + Zeros(n) + Zeros(64 - |key| - n);
      assert KeyBlock(key + Zeros(n)) == KeyBlock(key);
    }
  }

  lemma FirstIndexes()
    ensures Int32(1) == [0, 0, 0, 1] && Int32(2) == [0, 0, 0, 2] && Int32(0x01020304) == [1, 2, 3, 4]
  {
    hide AsOctets, BigEndian, Int32;
    BigEndianFour(1);
    BigEndianFour(2);
    BigEndianFour(0x01020304);
    OctetsOf(1);
    OctetsOf(2);
    OctetsOf(0x01020304);
  }

  lemma OctetsOf(v: nat)
    ensures |Int32(v)| == 4 && forall i :: 0 <= i < 4 ==> Int32(v)[i] == Octet(BigEndian(v, 4)[i])
  {
  }

  /** One and two iterations, and the second block: which octets are fed to HMAC and which are xored. */
  lemma DerivedKnown(p: Octets, salt: Octets)
    ensures Derived(p, salt, 1, 32) == Hmac(p, salt + [0, 0, 0, 1])
    ensures var u := Hmac(p, salt + [0, 0, 0, 1]);
            forall j :: 0 <= j < 32 ==> Derived(p, salt, 2, 32)[j] == u[j] ^ Hmac(p, u)[j]
    ensures Derived(p, salt, 1, 64)[32..] == Hmac(p, salt + [0, 0, 0, 2])
  {
    hide Hmac, Int32;
    FirstIndexes();
    assert Blocks(p, salt, 1, 0) == [];
    assert Blocks(p, salt, 1, 1) == [] + F(p, salt, 1, 1);
    assert Blocks(p, salt, 2, 0) == [];
    assert Blocks(p, salt, 2, 1) == [] + F(p, salt, 2, 1);
    FStep(p, salt, 2, 1);
    assert Blocks(p, salt, 1, 2) == Blocks(p, salt, 1, 1) + F(p, salt, 1, 2);
  }

  /** A shorter key is the beginning of a longer one. */
  lemma DerivedPrefix(p: Octets, salt: Octets, c: nat, m: nat, n: nat)
    requires c >= 1 && m <= n
    ensures Derived(p, salt, c, m) == Derived(p, salt, c, n)[..m]
  {
    hide F, Blocks;
    BlocksPrefix(p, salt, c, (m + 31) / 32, (n + 31) / 32);
  }

  lemma {:induction false} BlocksPrefix(p: Octets, salt: Octets, c: nat, m: nat, n: nat)
    requires c >= 1 && m <= n
    ensures Blocks(p, salt, c, m) == Blocks(p, salt, c, n)[..32 * m]
  {
    hide F;
    if m < n {
      BlocksPrefix(p, salt, c, m, n - 1);
    } else {
      assert Blocks(p, salt, c, n)[..32 * n] == Blocks(p, salt, c, n);
    }
  }
}
