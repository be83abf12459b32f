/** Stored credentials of frontend/src/password.h: hex, the timing-safe comparison, hashing and verifying,
    plaintext records from before hashing included. Strings are octets; the salt is a parameter. */
module Password {
  import opened Bytes
  import opened Sha256
  import opened Pbkdf2

  // ----- hex -----

  function HexDigit(n: bv8): bv8 {
    if n < 10 then 0x30 + n else 0x61 + (n - 10)
  }

  function HexValue(c: bv8): Option<bv8> {
    if 0x30 <= c <= 0x39 then Some(c - 0x30)
    else if 0x61 <= c <= 0x66 then Some(c - 0x61 + 10)
    else if 0x41 <= c <= 0x46 then Some(c - 0x41 + 10)
    else None
  }

  /** The two digits of a byte. */
  function Pair(d: bv8): (p: Octets)
    ensures |p| == 2
  {
    [HexDigit((d >> 4) & 0x0f), HexDigit(d & 0x0f)]
  }

  function Hex(data: Octets): (h: Octets)
    ensures |h| == 2 * |data|
  {
    if data == [] then []
    else Hex(data[..|data| - 1]) + Pair(data[|data| - 1])
  }

  /** Upper-case digits are read as lower-case ones. */
  function Lower(c: bv8): bv8 {
    if 0x41 <= c <= 0x46 then c + 0x20 else c
  }

  function Joined(b: Octets, hi: Option<bv8>, lo: Option<bv8>): Option<Octets> {
    if hi.Some? && lo.Some? then Some(b + [(hi.value << 4) | lo.value]) else None
  }

  function Unhex(hex: Octets): Option<Octets> {
    if hex == [] then Some([])
    else if |hex| == 1 then None
    else
      match Unhex(hex[..|hex| - 2])
      case None => None
      case Some(b) =>
        Joined(b, HexValue(hex[|hex| - 2]), HexValue(hex[|hex| - 1]))
  }

  lemma HexOneMore(b: Octets, d: bv8)
    ensures Hex(b + [d]) == Hex(b) + Pair(d)
  {
    hide HexDigit;
    assert (b + [d])[..|b|] == b;
  }

  lemma UnhexOneMore(h: Octets, p: Octets)
    requires |p| == 2
    ensures Unhex(h + p) == match Unhex(h) case None => None case Some(b) => Joined(b, HexValue(p[0]), HexValue(p[1]))
  {
    hide HexValue;
    assert (h + p)[..|h|] == h;
  }

  method ToHex(data: Octets) returns (out: Octets)
    ensures out == Hex(data)
  {
    hide HexDigit, Hex;
    out := [];
    HexOfNothing();
    for i := 0 to |data|
      invariant out == Hex(data[..i])
    {
      HexOneMore(data[..i], data[i]);
      assert data[..i + 1] == data[..i] + [data[i]];
      ghost var was := out;
      out := out + [HexDigit((data[i] >> 4) & 0x0f)];
      out := out + [HexDigit(data[i] & 0x0f)];
      assert out == was + Pair(data[i]);
    }
    assert data[..|data|] == data;
  }

  lemma HexOfNothing()
    ensures Hex([]) == []
  {
  }

  method FromHex(hex: Octets) returns (out: Option<Octets>)
    ensures out == Unhex(hex)
  {
    hide HexValue;
    if |hex| % 2 != 0 {
      OddIsRefused(hex);
      return None;
    }
    var b := [];
    var i := 0;
    while i < |hex|
      invariant i <= |hex| && i % 2 == 0 && Unhex(hex[..i]) == Some(b)
    {
      assert hex[..i + 2][..i] == hex[..i];
      var hi, lo := HexValue(hex[i]), HexValue(hex[i + 1]);
      if hi == None || lo == None {
        UnhexFails(hex, i + 2);
        return None;
      }
      b := b + [(hi.value << 4) | lo.value];
      i := i + 2;
    }
    assert hex[..|hex|] == hex;
    out := Some(b);
  }

  lemma {:induction false} OddIsRefused(hex: Octets)
    requires |hex| % 2 == 1
    ensures Unhex(hex) == None
  {
    hide HexValue;
    if |hex| > 1 {
      OddIsRefused(hex[..|hex| - 2]);
    }
  }

  lemma {:induction false} UnhexFails(hex: Octets, n: nat)
    requires n <= |hex| && |hex| % 2 == 0 && n % 2 == 0 && Unhex(hex[..n]) == None
    ensures Unhex(hex) == None
    decreases |hex| - n
  {
    hide HexValue;
    if n == |hex| {
      assert hex[..n] == hex;
    } else {
      assert hex[..n + 2][..n] == hex[..n];
      UnhexFails(hex, n + 2);
    }
  }

  lemma ByteThroughHex(d: bv8)
    ensures HexValue(HexDigit((d >> 4) & 0x0f)) == Some((d >> 4) & 0x0f)
    ensures HexValue(HexDigit(d & 0x0f)) == Some(d & 0x0f)
    ensures (((d >> 4) & 0x0f) << 4) | (d & 0x0f) == d
  {
  }

  lemma DigitsThroughByte(c: bv8, e: bv8)
    requires HexValue(c).Some? && HexValue(e).Some?
    ensures var d := (HexValue(c).value << 4) | HexValue(e).value;
            HexDigit((d >> 4) & 0x0f) == Lower(c) && HexDigit(d & 0x0f) == Lower(e)
  {
  }

  lemma {:induction false} HexRoundTrip(data: Octets)
    ensures Unhex(Hex(data)) == Some(data)
  {
    hide HexDigit, HexValue, Hex, Unhex;
    if data == [] {
      NothingThroughHex();
    } else {
      var init, d := data[..|data| - 1], data[|data| - 1];
      assert init + [d] == data;
      HexRoundTrip(init);
      HexOneMore(init, d);
      UnhexOneMore(Hex(init), Pair(d));
      ByteThroughHex(d);
    }
  }

  lemma NothingThroughHex()
    ensures Unhex(Hex([])) == Some([])
  {
  }

  function Lowered(h: Octets): (l: Octets)
    ensures |l| == |h|
  {
    seq(|h|, i requires 0 <= i < |h| => Lower(h[i]))
  }

  /** What is read as hex prints back as the same digits in lower case. */
  lemma {:induction false} UnhexPrints(h: Octets)
    requires Unhex(h).Some?
    ensures Hex(Unhex(h).value) == Lowered(h)
  {
    hide HexDigit, HexValue, Lower, Hex, Unhex;
    UnhexShape(h);
    if h == [] {
      NothingThroughHex();
      HexOfNothing();
    } else {
      var n := |h| - 2;
      UnhexOneMore(h[..n], h[n..]);
      assert h[..n] + h[n..] == h;
      UnhexPrints(h[..n]);
      DigitsThroughByte(h[n], h[n + 1]);
      HexOneMore(Unhex(h[..n]).value, (HexValue(h[n]).value << 4) | HexValue(h[n + 1]).value);
      assert Lowered(h) == Lowered(h[..n]) + [Lower(h[n]), Lower(h[n + 1])];
    }
  }

  lemma UnhexShape(h: Octets)
    requires Unhex(h).Some?
    ensures |h| != 1
  {
  }

  // ----- comparison -----

  /** What `constant_time_equals` decides: sizes equal in 32 bits, equal bytes as far as both go, and
      nothing but zero bytes beyond. */
  ghost predicate Matches(a: Octets, b: Octets) {
    && |a| % 0x1_0000_0000 == |b| % 0x1_0000_0000
    && forall i :: 0 <= i < |a| || 0 <= i < |b| ==>
         (if i < |a| then a[i] else 0) == (if i < |b| then b[i] else 0)
  }

  /** The size difference is kept in 32 bits; only whether it is zero can matter. */
  function SizeDiff(m: nat, n: nat): bv32 {
    if m % 0x1_0000_0000 == n % 0x1_0000_0000 then 0 else 1
  }

  /** In the source the sizes are xored and the low 32 bits kept: those are zero exactly when the sizes agree
      in their low 32 bits. */
  lemma LowXor(x: bv64, y: bv64)
    ensures (x ^ y) & 0xffff_ffff == 0 <==> x & 0xffff_ffff == y & 0xffff_ffff
  {
  }

  lemma OrZero(diff: bv32, x: bv8, y: bv8)
    ensures diff | ((x ^ y) as bv32) == 0 <==> diff == 0 && x == y
  {
  }

  lemma OrZeroByte(diff: bv32, x: bv8)
    ensures diff | (x as bv32) == 0 <==> diff == 0 && x == 0
  {
  }

  method ConstantTimeEquals(a: Octets, b: Octets) returns (same: bool)
    ensures same <==> Matches(a, b)
  {
    var diff := SizeDiff(|a|, |b|);
    var n := if |a| < |b| then |a| else |b|;
    for i := 0 to n
      invariant diff == 0 <==> SizeDiff(|a|, |b|) == 0 && a[..i] == b[..i]
    {
      OrZero(diff, a[i], b[i]);
      assert a[..i + 1] == a[..i] + [a[i]] && b[..i + 1] == b[..i] + [b[i]];
      diff := diff | ((a[i] ^ b[i]) as bv32);
    }
    var longer := if |a| >= |b| then a else b;
    for i := n to |longer|
      invariant diff == 0 <==> SizeDiff(|a|, |b|) == 0 && a[..n] == b[..n] && forall k :: n <= k < i ==> longer[k] == 0
    {
      OrZeroByte(diff, longer[i]);
      diff := diff | (longer[i] as bv32);
    }
    same := diff == 0;
    MatchesMeans(a, b, n, longer);
  }

  lemma MatchesMeans(a: Octets, b: Octets, n: nat, longer: Octets)
    requires n == (if |a| < |b| then |a| else |b|) && longer == (if |a| >= |b| then a else b)
    ensures Matches(a, b) <==>
            SizeDiff(|a|, |b|) == 0 && a[..n] == b[..n] && forall k :: n <= k < |longer| ==> longer[k] == 0
  {
    if Matches(a, b) {
      assert forall k :: 0 <= k < n ==> a[k] == b[k];
    }
    if a[..n] == b[..n] {
      assert forall k :: 0 <= k < n ==> a[..n][k] == a[k] && b[..n][k] == b[k];
    }
  }

  /** The comparison is equality on all strings of these two sizes. */
  ghost predicate ComparesEqual(m: nat, n: nat) {
    forall a: Octets, b: Octets :: |a| == m && |b| == n ==> (Matches(a, b) <==> a == b)
  }

  /** Exactly when it is equality depends on the sizes alone: they are the same, or differ in their low 32
      bits. Otherwise all-zero strings of those sizes match though they differ. */
  lemma MatchesIsEqualityExactly(m: nat, n: nat)
    ensures ComparesEqual(m, n) <==> m == n || m % 0x1_0000_0000 != n % 0x1_0000_0000
  {
    if m == n {
      forall a: Octets, b: Octets | |a| == m && |b| == n
        ensures Matches(a, b) <==> a == b
      {
        if Matches(a, b) {
          assert forall i :: 0 <= i < |a| ==> a[i] == b[i];
        }
      }
    } else if m % 0x1_0000_0000 == n % 0x1_0000_0000 {
      assert Matches(Zeros(m), Zeros(n)) && |Zeros(m)| == m && |Zeros(n)| == n;
    }
  }

  // ----- credentials -----

  const DOLLAR: bv8 := 0x24
  const CURRENT_ITERATIONS: nat := 120000
  const MAX_ITERATIONS: nat := 10000000

  /** "pbkdf2_sha256$" */
  function Prefix(): (p: Octets)
    ensures |p| == 14
  {
    [0x70, 0x62, 0x6b, 0x64, 0x66, 0x32, 0x5f, 0x73, 0x68, 0x61, 0x32, 0x35, 0x36, 0x24]
  }

  predicate IsHashed(stored: Octets) {
    Prefix() <= stored
  }

  function DigitOf(n: nat): bv8
    requires n < 10
  {
    match n
    case 0 => 0x30
    case 1 => 0x31
    case 2 => 0x32
    case 3 => 0x33
    case 4 => 0x34
    case 5 => 0x35
    case 6 => 0x36
    case 7 => 0x37
    case 8 => 0x38
    case _ => 0x39
  }

  predicate IsDigit(c: bv8) {
    0x30 <= c <= 0x39
  }

  function DigitValue(c: bv8): (n: nat)
    ensures n < 10
  {
    match c
    case 0x31 => 1
    case 0x32 => 2
    case 0x33 => 3
    case 0x34 => 4
    case 0x35 => 5
    case 0x36 => 6
    case 0x37 => 7
    case 0x38 => 8
    case 0x39 => 9
    case _ => 0
  }

  /** std::to_string. */
  function Decimal(n: nat): (d: Octets)
    ensures d != []
  {
    if n < 10 then [DigitOf(n)] else Decimal(n / 10) + [DigitOf(n % 10)]
  }

  function DigitRun(s: Octets): (n: nat)
    ensures n <= |s|
  {
    if s == [] || !IsDigit(s[0]) then 0 else 1 + DigitRun(s[1..])
  }

  function ValueOf(ds: Octets): nat {
    if ds == [] then 0 else 10 * ValueOf(ds[..|ds| - 1]) + DigitValue(ds[|ds| - 1])
  }

  predicate IsSpace(c: bv8) {
    c == 0x20 || 0x09 <= c <= 0x0d
  }

  function SkipSpaces(s: Octets): Octets {
    if s != [] && IsSpace(s[0]) then SkipSpaces(s[1..]) else s
  }

  /** std::stoul: spaces, a sign, digits, and whatever follows them; a minus sign negates in 64 bits. */
  function Stoul(s: Octets): Option<nat> {
    var t := SkipSpaces(s);
    var u := if t != [] && (t[0] == 0x2b || t[0] == 0x2d) then t[1..] else t;
    var v := ValueOf(u[..DigitRun(u)]);
    if DigitRun(u) == 0 || v >= U64 then None
    else if t[0] == 0x2d && v > 0 then Some(U64 - v)
    else Some(v)
  }

  function Find(s: Octets, c: bv8, from: nat): (k: nat)
    requires from <= |s|
    ensures from <= k <= |s| && (k < |s| ==> s[k] == c)
    decreases |s| - from
  {
    if from == |s| || s[from] == c then from else Find(s, c, from + 1)
  }

  datatype Fields = Fields(iterations: nat, salt: Octets, key: Octets)

  function ParseFields(stored: Octets): Option<Fields>
    requires IsHashed(stored)
  {
    var body := stored[14..];
    var d1 := Find(body, DOLLAR, 0);
    if d1 == |body| then None else
    var d2 := Find(body, DOLLAR, d1 + 1);
    if d2 == |body| then None else
    var parsed := Stoul(body[..d1]);
    if parsed == None || parsed.value == 0 || parsed.value > MAX_ITERATIONS then None else
    var salt := Unhex(body[d1 + 1..d2]);
    if salt == None || salt.value == [] then None else
    var key := body[d2 + 1..];
    if key == [] || |key| % 2 != 0 then None else Some(Fields(parsed.value, salt.value, key))
  }

  datatype Verdict = Verdict(ok: bool, needsRehash: bool)

  ghost function Judge(password: Octets, stored: Octets): Verdict {
    if stored == [] then Verdict(false, false)
    else if !IsHashed(stored) then Verdict(Matches(password, stored), Matches(password, stored))
    else
      match ParseFields(stored)
      case None => Verdict(false, false)
      case Some(f) =>
        var ok := Matches(Hex(Derived(password, f.salt, Effective(f.iterations), |f.key| / 2)), f.key);
        Verdict(ok, ok && f.iterations < CURRENT_ITERATIONS)
  }

  /** `verify_password`, records from before hashing included. */
  method VerifyPassword(password: array<bv8>, stored: Octets) returns (v: Verdict)
    ensures v == Judge(password[..], stored)
  {
    hide ParseFields, Derived, Matches, Hex, Prefix;
    if stored == [] { return Verdict(false, false); }
    if !IsHashed(stored) {
      var same := ConstantTimeEquals(password[..], stored);
      return Verdict(same, same);
    }
    var parsed := ParseFields(stored);
    match parsed {
      case None => return Verdict(false, false);
      case Some(f) =>
        var dk := new bv8[|f.key| / 2];
        Pbkdf2Sha256(password, f.salt, f.iterations, dk);
        var hex := ToHex(dk[..]);
        var same := ConstantTimeEquals(hex, f.key);
        v := Verdict(same, same && f.iterations < CURRENT_ITERATIONS);
    }
  }

  function Credential(password: Octets, salt: Octets, iterations: nat): Octets {
    Prefix() + Decimal(iterations) + [DOLLAR] + Hex(salt) + [DOLLAR]
      + Hex(Derived(password, salt, Effective(iterations), 32))
  }

  /** `hash_password`, with the salt it drew. */
  method HashPassword(password: array<bv8>, salt: Octets, iterations: nat) returns (stored: Octets)
    ensures stored == Credential(password[..], salt, iterations)
  {
    hide Derived, Hex, Prefix, Decimal;
    var dk := new bv8[32];
    Pbkdf2Sha256(password, salt, iterations, dk);
    var s := ToHex(salt);
    var k := ToHex(dk[..]);
    stored := Prefix() + Decimal(iterations) + [DOLLAR] + s + [DOLLAR] + k;
  }

  predicate AllDigits(s: Octets) {
    forall i :: 0 <= i < |s| ==> IsDigit(s[i])
  }

  lemma DigitThrough(n: nat)
    requires n < 10
    ensures IsDigit(DigitOf(n)) && DigitValue(DigitOf(n)) == n
  {
  }

  lemma {:induction false} DecimalReads(n: nat)
    ensures AllDigits(Decimal(n)) && ValueOf(Decimal(n)) == n
  {
    hide IsDigit, DigitOf, DigitValue;
    DigitThrough(n % 10);
    if n >= 10 {
      DecimalReads(n / 10);
      assert Decimal(n)[..|Decimal(n)| - 1] == Decimal(n / 10);
    } else {
      assert n % 10 == n;
      assert [DigitOf(n)][..0] == [];
    }
  }

  lemma {:induction false} AllDigitsRun(s: Octets)
    requires AllDigits(s)
    ensures DigitRun(s) == |s|
  {
    hide IsDigit;
    if s != [] {
      AllDigitsRun(s[1..]);
    }
  }

  lemma DigitIsPlain(c: bv8)
    requires IsDigit(c)
    ensures !IsSpace(c) && c != 0x2b && c != 0x2d && c != DOLLAR
  {
  }

  /** Reading back what std::to_string printed. */
  lemma StoulReads(n: nat)
    requires n < U64
    ensures Stoul(Decimal(n)) == Some(n)
  {
    hide IsDigit, IsSpace, DigitRun, ValueOf, Decimal;
    var d := Decimal(n);
    DecimalReads(n);
    AllDigitsRun(d);
    DigitIsPlain(d[0]);
    assert d[..|d|] == d;
  }

  predicate NoDollar(s: Octets) {
    forall i :: 0 <= i < |s| ==> s[i] != DOLLAR
  }

  lemma {:induction false} HexHasNoDollar(data: Octets)
    ensures NoDollar(Hex(data))
  {
    hide HexDigit;
    if data != [] {
      HexHasNoDollar(data[..|data| - 1]);
      NibblesAreNotDollar(data[|data| - 1]);
    }
  }

  lemma NibblesAreNotDollar(d: bv8)
    ensures HexDigit((d >> 4) & 0x0f) != DOLLAR && HexDigit(d & 0x0f) != DOLLAR
  {
  }

  lemma DecimalHasNoDollar(n: nat)
    ensures NoDollar(Decimal(n))
  {
    hide IsDigit, Decimal;
    DecimalReads(n);
    forall i | 0 <= i < |Decimal(n)|
      ensures Decimal(n)[i] != DOLLAR
    {
      DigitIsPlain(Decimal(n)[i]);
    }
  }

  lemma {:induction false} FindSkips(s: Octets, from: nat, k: nat)
    requires from <= k < |s| && s[k] == DOLLAR && NoDollar(s[from..k])
    ensures Find(s, DOLLAR, from) == k
    decreases k - from
  {
    if from < k {
      assert s[from..k][0] == s[from] && s[from..k][1..] == s[from + 1..k];
      FindSkips(s, from + 1, k);
    }
  }

  lemma CutsApart(prefix: Octets, a: Octets, b: Octets, c: Octets)
    requires |prefix| == 14
    ensures var stored := prefix + a + [DOLLAR] + b + [DOLLAR] + c;
            var body := stored[14..];
            && prefix <= stored && |body| == |a| + |b| + |c| + 2
            && body[0..|a|] == body[..|a|] == a && body[|a|] == DOLLAR
            && body[|a| + 1..|a| + 1 + |b|] == b && body[|a| + 1 + |b|] == DOLLAR
            && body[|a| + 1 + |b| + 1..] == c
  {
    var stored := prefix + a + [DOLLAR] + b + [DOLLAR] + c;
    assert stored[..14] == prefix;
    assert stored[14..] == a + [DOLLAR] + b + [DOLLAR] + c;
  }

  /** A stored credential comes apart into what went in, unless its cost is out of range. */
  lemma CredentialParses(iterations: nat, salt: Octets, key: Octets)
    requires salt != [] && iterations < U32 && key != []
    ensures var stored := Prefix() + Decimal(iterations) + [DOLLAR] + Hex(salt) + [DOLLAR] + Hex(key);
            IsHashed(stored)
            && ParseFields(stored) == if 1 <= iterations <= MAX_ITERATIONS
                                      then Some(Fields(iterations, salt, Hex(key))) else None
  {
    hide Hex, Decimal, Stoul, Unhex, Find, NoDollar, Prefix;
    var body := (Prefix() + Decimal(iterations) + [DOLLAR] + Hex(salt) + [DOLLAR] + Hex(key))[14..];
    var d1 := |Decimal(iterations)|;
    var d2 := d1 + 1 + |Hex(salt)|;
    CutsApart(Prefix(), Decimal(iterations), Hex(salt), Hex(key));
    DecimalHasNoDollar(iterations);
    FindSkips(body, 0, d1);
    HexHasNoDollar(salt);
    FindSkips(body, d1 + 1, d2);
    StoulReads(iterations);
    HexRoundTrip(salt);
  }

  lemma HexInjective(a: Octets, b: Octets)
    requires Hex(a) == Hex(b)
    ensures a == b
  {
    hide Hex, Unhex;
    HexRoundTrip(a);
    HexRoundTrip(b);
  }

  /** A password verifies against the credential made from another exactly when the cost is in range and
      both derive the same key; in particular every password verifies against its own. The upgrade is
      asked for exactly below the current cost. */
  lemma VerifiesExactly(p: Octets, q: Octets, salt: Octets, iterations: nat)
    requires salt != [] && iterations < U32
    ensures var v := Judge(q, Credential(p, salt, iterations));
            && (v.ok <==> 1 <= iterations <= MAX_ITERATIONS
                          && Derived(q, salt, Effective(iterations), 32) == Derived(p, salt, Effective(iterations), 32))
            && (v.needsRehash <==> v.ok && iterations < CURRENT_ITERATIONS)
  {
    hide Derived, ParseFields, Matches, Hex, Decimal, Prefix, IsHashed;
    var key := Derived(p, salt, Effective(iterations), 32);
    var other := Derived(q, salt, Effective(iterations), 32);
    CredentialParses(iterations, salt, key);
    MatchesIsEqualityExactly(|Hex(other)|, |Hex(key)|);
    if Hex(other) == Hex(key) {
      HexInjective(other, key);
    }
  }

  // ----- every stored record -----

  /** An empty record lets nobody in. */
  lemma EmptyNeverVerifies(password: Octets)
    ensures Judge(password, []) == Verdict(false, false)
  {
  }

  /** On plaintext records of n octets and passwords of m the verdict is that of equality, and a record that
      lets somebody in is to be replaced. */
  ghost predicate JudgesPlaintext(m: nat, n: nat) {
    forall password: Octets, stored: Octets ::
      |password| == m && |stored| == n && !IsHashed(stored) ==>
        var v := Judge(password, stored);
        (v.ok <==> password == stored) && (v.needsRehash <==> v.ok)
  }

  /** Exactly when that is so depends on the sizes alone. */
  lemma PlaintextExactly(m: nat, n: nat)
    requires n > 0
    ensures JudgesPlaintext(m, n) <==> m == n || m % 0x1_0000_0000 != n % 0x1_0000_0000
  {
    hide Matches, Derived, ParseFields, Hex;
    MatchesIsEqualityExactly(m, n);
    if m == n || m % 0x1_0000_0000 != n % 0x1_0000_0000 {
      assert ComparesEqual(m, n);
    } else {
      ZerosMatch(m, n);
      assert Zeros(n)[0] == 0 && Prefix()[0] != 0;
      assert !IsHashed(Zeros(n)) && |Zeros(m)| == m && |Zeros(n)| == n;
    }
  }

  lemma ZerosMatch(m: nat, n: nat)
    requires m % 0x1_0000_0000 == n % 0x1_0000_0000
    ensures Matches(Zeros(m), Zeros(n))
  {
  }

  /** A record of the form prefix, cost, salt, key, apart by dollars: the cost a number in range, the salt hex
      and not empty, the key of an even number of characters and not empty. */
  predicate WellFormed(stored: Octets, cost: Octets, salt: Octets, f: Fields) {
    && stored == Prefix() + cost + [DOLLAR] + salt + [DOLLAR] + f.key
    && NoDollar(cost) && NoDollar(salt)
    && Stoul(cost) == Some(f.iterations) && 1 <= f.iterations <= MAX_ITERATIONS
    && Unhex(salt) == Some(f.salt) && f.salt != [] && f.key != [] && |f.key| % 2 == 0
  }

  lemma {:induction false} FindMeans(s: Octets, from: nat)
    requires from <= |s|
    ensures var k := Find(s, DOLLAR, from);
            from <= k <= |s| && NoDollar(s[from..k]) && (k < |s| ==> s[k] == DOLLAR)
    decreases |s| - from
  {
    if from < |s| && s[from] != DOLLAR {
      FindMeans(s, from + 1);
      var k := Find(s, DOLLAR, from + 1);
      assert s[from..k] == [s[from]] + s[from + 1..k];
    }
  }

  lemma ParsesWhenWellFormed(stored: Octets, cost: Octets, salt: Octets, f: Fields)
    requires WellFormed(stored, cost, salt, f)
    ensures IsHashed(stored) && ParseFields(stored) == Some(f)
  {
    hide Stoul, Unhex, Find, NoDollar, Prefix;
    CutsApart(Prefix(), cost, salt, f.key);
    var body := stored[14..];
    FindSkips(body, 0, |cost|);
    FindSkips(body, |cost| + 1, |cost| + 1 + |salt|);
  }

  lemma WellFormedWhenParses(stored: Octets) returns (cost: Octets, salt: Octets)
    requires IsHashed(stored) && ParseFields(stored).Some?
    ensures WellFormed(stored, cost, salt, ParseFields(stored).value)
  {
    hide Stoul, Unhex, Find, NoDollar, Prefix;
    var body := stored[14..];
    FindMeans(body, 0);
    var d1 := Find(body, DOLLAR, 0);
    FindMeans(body, d1 + 1);
    var d2 := Find(body, DOLLAR, d1 + 1);
    cost, salt := body[..d1], body[d1 + 1..d2];
    assert body[0..d1] == cost;
    JoinsBack(body, d1, d2);
    assert stored == Prefix() + body;
    assert Prefix() + (cost + [DOLLAR] + salt + [DOLLAR] + body[d2 + 1..])
        == Prefix() + cost + [DOLLAR] + salt + [DOLLAR] + body[d2 + 1..];
  }

  lemma JoinsBack(body: Octets, d1: nat, d2: nat)
    requires d1 < d2 < |body| && body[d1] == DOLLAR && body[d2] == DOLLAR
    ensures body == body[..d1] + [DOLLAR] + body[d1 + 1..d2] + [DOLLAR] + body[d2 + 1..]
  {
  }

  /** A hashed record verifies exactly if it has that form and its key is the one the password derives, with its
      own salt, cost and length; the upgrade is asked for exactly below the current cost. */
  lemma HashedExactly(password: Octets, stored: Octets)
    requires IsHashed(stored)
    ensures Judge(password, stored).ok <==>
            exists cost, salt, f :: WellFormed(stored, cost, salt, f)
                                    && Matches(Hex(Derived(password, f.salt, f.iterations, |f.key| / 2)), f.key)
    ensures forall cost, salt, f :: WellFormed(stored, cost, salt, f) ==>
              (Judge(password, stored).needsRehash
               <==> Judge(password, stored).ok && f.iterations < CURRENT_ITERATIONS)
  {
    hide Matches, Hex, Derived, ParseFields, WellFormed, Prefix;
    forall cost, salt, f | WellFormed(stored, cost, salt, f)
      ensures ParseFields(stored) == Some(f) && Effective(f.iterations) == f.iterations
    {
      ParsesWhenWellFormed(stored, cost, salt, f);
      CostInRange(stored, cost, salt, f);
    }
    if ParseFields(stored).Some? {
      var cost, salt := WellFormedWhenParses(stored);
      assert WellFormed(stored, cost, salt, ParseFields(stored).value);
    }
  }

  lemma CostInRange(stored: Octets, cost: Octets, salt: Octets, f: Fields)
    requires WellFormed(stored, cost, salt, f)
    ensures Effective(f.iterations) == f.iterations
  {
    hide Stoul, Unhex, Prefix;
  }

  // ----- known values -----

  /** 0f and a5 are printed in lower case. */
  lemma HexKnown()
    ensures Hex([0x0f, 0xa5]) == [0x30, 0x66, 0x61, 0x35]
  {
    var all: Octets := [0x0f, 0xa5];
    var one: Octets := [0x0f];
    assert all[..1] == one && one[..0] == [];
    assert Hex(one) == [] + [0x30, 0x66];
  }

  /** Digits are read in either case, and nothing next to them. */
  lemma DigitsKnown()
    ensures HexValue(0x30) == Some(0) && HexValue(0x39) == Some(9) && HexValue(0x61) == Some(10)
    ensures HexValue(0x66) == Some(15) && HexValue(0x41) == Some(10) && HexValue(0x46) == Some(15)
    ensures HexValue(0x2f) == None && HexValue(0x3a) == None && HexValue(0x60) == None && HexValue(0x67) == None
    ensures HexValue(0x40) == None && HexValue(0x47) == None && Unhex([]) == Some([]) && Unhex([0x30]) == None
  {
  }

  /** All ten digits, printed. */
  lemma DecimalKnown()
    ensures Decimal(1234567890) == [0x31, 0x32, 0x33, 0x34, 0x35, 0x36, 0x37, 0x38, 0x39, 0x30]
  {
    assert Decimal(1) == [0x31];
    assert Decimal(12) == [0x31, 0x32];
    assert Decimal(123) == [0x31, 0x32, 0x33];
    assert Decimal(1234) == [0x31, 0x32, 0x33, 0x34];
    assert Decimal(12345) == [0x31, 0x32, 0x33, 0x34, 0x35];
    assert Decimal(123456) == [0x31, 0x32, 0x33, 0x34, 0x35, 0x36];
    assert Decimal(1234567) == [0x31, 0x32, 0x33, 0x34, 0x35, 0x36, 0x37];
    assert Decimal(12345678) == [0x31, 0x32, 0x33, 0x34, 0x35, 0x36, 0x37, 0x38];
    assert Decimal(123456789) == [0x31, 0x32, 0x33, 0x34, 0x35, 0x36, 0x37, 0x38, 0x39];
  }

  /** std::stoul on " 12x", "+7", "-1", "x" and "". */
  lemma StoulKnown()
    ensures Stoul([0x20, 0x31, 0x32, 0x78]) == Some(12) && Stoul([0x2b, 0x37]) == Some(7)
    ensures Stoul([0x2d, 0x31]) == Some(0xffff_ffff_ffff_ffff)
    ensures Stoul([0x78]) == None && Stoul([]) == None
  {
    var s: Octets := [0x20, 0x31, 0x32, 0x78];
    var t: Octets := [0x31, 0x32, 0x78];
    assert s[1..] == t && SkipSpaces(t) == t;
    assert t[1..] == [0x32, 0x78] && [0x32, 0x78][1..] == [0x78];
    assert t[..2] == [0x31, 0x32] && [0x31, 0x32][..1] == [0x31] && [0x31][..0] == [];
    assert DigitRun(t) == 2 && ValueOf([0x31]) == 1 && ValueOf([0x31, 0x32]) == 12;
    assert [0x2b, 0x37][1..] == [0x37] && [0x37][..1] == [0x37] && [0x37][..0] == [];
    assert [0x2d, 0x31][1..] == [0x31] && [0x31][..1] == [0x31];
    assert DigitRun([0x37]) == 1 && DigitRun([0x31]) == 1 && ValueOf([0x37]) == 7;
  }

  lemma PrefixText()
    ensures forall i :: 0 <= i < 14 ==> Prefix()[i] as int == "pbkdf2_sha256$"[i] as int
    ensures DOLLAR as int == '$' as int
  {
  }
}
