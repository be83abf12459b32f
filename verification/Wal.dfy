/** The byte format of the write-ahead log (kvstore/src/tablet.cc:143-197, 562-626):

      u32 magic | u8 code | u32 row length | u32 column length | u32 value length | row | column | value

    Entries carry no log sequence number and no checksum. A scan stops at the first position where no
    whole entry can be read; everything behind that position is the torn tail.
 */
module Wal {
  import opened Bytes
  import opened Table

  const WAL_MAGIC: nat := 0xABCD_1234
  const HEADER: nat := 17

  datatype Parse = NoEntry | Found(entry: Entry, next: nat)
  datatype Scan = Scan(entries: seq<Entry>, end: nat)

  function Header(e: Entry): (b: Data)
    ensures |b| == HEADER
  {
    PutU32(WAL_MAGIC) + [e.code] + PutU32(|e.row|) + PutU32(|e.col|) + PutU32(|e.val|)
  }

  function EncodeEntry(e: Entry): (b: Data)
    ensures |b| == HEADER + |e.row| + |e.col| + |e.val|
  {
    Header(e) + (e.row + e.col + e.val)
  }

  function EncodeLog(es: seq<Entry>): Data {
    if es == [] then [] else EncodeEntry(es[0]) + EncodeLog(es[1..])
  }

  /** The three strings fit their 32-bit length fields. */
  predicate FitsEntry(e: Entry) {
    |e.row| < U32 && |e.col| < U32 && |e.val| < U32
  }

  predicate FitsLog(es: seq<Entry>) {
    forall i :: 0 <= i < |es| ==> FitsEntry(es[i])
  }

  function ParseEntryAt(b: Data, off: nat): (p: Parse)
    ensures p.Found? ==> off + HEADER <= p.next <= |b|
  {
    if off + HEADER > |b| || U32At(b, off) != WAL_MAGIC then NoEntry
    else
      var r, c, v := U32At(b, off + 5), U32At(b, off + 9), U32At(b, off + 13);
      var at := off + HEADER;
      if at + r + c + v > |b| then NoEntry
      else Found(Entry(b[off + 4], b[at..at + r], b[at + r..at + r + c], b[at + r + c..at + r + c + v]), at + r + c + v)
  }

  /** All whole entries from a position on, and the boundary they end at. */
  function ScanLog(b: Data, off: nat): (s: Scan)
    requires off <= |b|
    ensures off <= s.end <= |b|
    decreases |b| - off
  {
    match ParseEntryAt(b, off)
    case NoEntry => Scan([], off)
    case Found(e, next) => var rest := ScanLog(b, next); Scan([e] + rest.entries, rest.end)
  }

  /** `replay_wal` reads one record field by field and gives up at the first short read
      (kvstore/src/tablet.cc:569-595). */
  method ReadEntry(b: Data, off: nat) returns (p: Parse)
    requires off <= |b|
    ensures p == ParseEntryAt(b, off)
  {
    hide U32At;
    if off + 4 > |b| { return NoEntry; }
    var magic := U32At(b, off);
    if magic != WAL_MAGIC { return NoEntry; }
    if off + 5 > |b| { return NoEntry; }
    var code := b[off + 4];
    if off + 9 > |b| { return NoEntry; }
    var rowlen := U32At(b, off + 5);
    if off + 13 > |b| { return NoEntry; }
    var collen := U32At(b, off + 9);
    if off + 17 > |b| { return NoEntry; }
    var vallen := U32At(b, off + 13);
    var at := off + 17;
    if at + rowlen > |b| { return NoEntry; }
    var row := b[at..at + rowlen];
    at := at + rowlen;
    if at + collen > |b| { return NoEntry; }
    var col := b[at..at + collen];
    at := at + collen;
    if at + vallen > |b| { return NoEntry; }
    var val := b[at..at + vallen];
    return Found(Entry(code, row, col, val), at + vallen);
  }

  lemma HeaderReads(b: Data, off: nat, e: Entry)
    requires HasAt(b, off, Header(e))
    ensures U32At(b, off) == WAL_MAGIC && b[off + 4] == e.code
    ensures U32At(b, off + 5) == |e.row| <==> |e.row| < U32
    ensures U32At(b, off + 9) == |e.col| <==> |e.col| < U32
    ensures U32At(b, off + 13) == |e.val| <==> |e.val| < U32
  {
    hide U32At, PutU32, HasAt;
    assert HEADER == 17;
    var m, r, c, v := PutU32(WAL_MAGIC), PutU32(|e.row|), PutU32(|e.col|), PutU32(|e.val|);
    HasAtSplit(b, off, m + [e.code] + r + c, v);
    HasAtSplit(b, off, m + [e.code] + r, c);
    HasAtSplit(b, off, m + [e.code], r);
    HasAtSplit(b, off, m, [e.code]);
    HasByte(b, off + 4, e.code);
    U32RoundTrip(b, off, WAL_MAGIC);
    U32RoundTrip(b, off + 5, |e.row|);
    U32RoundTrip(b, off + 9, |e.col|);
    U32RoundTrip(b, off + 13, |e.val|);
    Small32(WAL_MAGIC);
    Small32(|e.row|);
    Small32(|e.col|);
    Small32(|e.val|);
  }

  lemma HasByte(b: Data, off: nat, x: Byte)
    requires HasAt(b, off, [x])
    ensures b[off] == x
  {
    assert b[off] == b[off..off + 1][0];
  }

  /** An encoded entry is read back whole wherever it stands, provided its lengths fit. */
  lemma ParseEncoded(b: Data, off: nat, e: Entry)
    requires HasAt(b, off, EncodeEntry(e)) && FitsEntry(e)
    ensures ParseEntryAt(b, off) == Found(e, off + |EncodeEntry(e)|)
  {
    hide U32At, HasAt, Header, ParseEntryAt;
    HasAtSplit(b, off, Header(e), e.row + e.col + e.val);
    HeaderReads(b, off, e);
    ParsePayload(b, off, e);
  }

  /** Once the header has been read, the payload decides. */
  lemma ParsePayload(b: Data, off: nat, e: Entry)
    requires off + HEADER <= |b| && U32At(b, off) == WAL_MAGIC && b[off + 4] == e.code
    requires U32At(b, off + 5) == |e.row| && U32At(b, off + 9) == |e.col| && U32At(b, off + 13) == |e.val|
    requires HasAt(b, off + HEADER, e.row + e.col + e.val)
    ensures ParseEntryAt(b, off) == Found(e, off + HEADER + |e.row| + |e.col| + |e.val|)
  {
    hide U32At;
    var at := off + HEADER;
    HasAtSplit(b, at, e.row + e.col, e.val);
    HasAtSplit(b, at, e.row, e.col);
  }

  /** The format is faithful exactly on entries whose lengths fit: a longer one is never read back. */
  lemma EntryRoundTrip(pre: Data, e: Entry, post: Data)
    ensures ParseEntryAt(pre + EncodeEntry(e) + post, |pre|) == Found(e, |pre| + |EncodeEntry(e)|)
            <==> FitsEntry(e)
  {
    var b := pre + EncodeEntry(e) + post;
    HasAtSelf(pre, EncodeEntry(e), post);
    hide U32At, Header, HasAt;
    if FitsEntry(e) {
      hide ParseEntryAt;
      ParseEncoded(b, |pre|, e);
    } else {
      HasAtSplit(b, |pre|, Header(e), e.row + e.col + e.val);
      HeaderReads(b, |pre|, e);
    }
  }

  /** A proper prefix of an entry is no entry. */
  lemma ParseTorn(b: Data, off: nat, e: Entry)
    requires off <= |b| < off + |EncodeEntry(e)|
    requires b[off..] == EncodeEntry(e)[..|b| - off]
    requires FitsEntry(e)
    ensures ParseEntryAt(b, off) == NoEntry
  {
    hide U32At;
    if off + HEADER <= |b| {
      assert b[off..off + HEADER] == b[off..][..HEADER] == EncodeEntry(e)[..HEADER] == Header(e);
      HeaderReads(b, off, e);
    }
  }

  /** Reading depends on nothing behind the entry read. */
  lemma ParseLocal(b: Data, c: Data, off: nat)
    requires ParseEntryAt(b, off).Found?
    requires ParseEntryAt(b, off).next <= |c|
    requires b[..ParseEntryAt(b, off).next] == c[..ParseEntryAt(b, off).next]
    ensures ParseEntryAt(c, off) == ParseEntryAt(b, off)
  {
    var n := ParseEntryAt(b, off).next;
    hide U32At;
    HeaderLocal(b, c, n, off);
    var r := off + HEADER + U32At(b, off + 5);
    SameSlice(b, c, n, off + HEADER, r);
    SameSlice(b, c, n, r, r + U32At(b, off + 9));
    SameSlice(b, c, n, r + U32At(b, off + 9), n);
  }

  lemma HeaderLocal(b: Data, c: Data, n: nat, off: nat)
    requires off + HEADER <= n <= |b| && n <= |c| && b[..n] == c[..n]
    ensures U32At(b, off) == U32At(c, off) && b[off + 4] == c[off + 4]
    ensures U32At(b, off + 5) == U32At(c, off + 5)
    ensures U32At(b, off + 9) == U32At(c, off + 9)
    ensures U32At(b, off + 13) == U32At(c, off + 13)
  {
    hide U32At;
    SameSlice(b, c, n, off, off + 4);
    SameSlice(b, c, n, off + 5, off + 9);
    SameSlice(b, c, n, off + 9, off + 13);
    SameSlice(b, c, n, off + 13, off + 17);
    assert b[off + 4] == b[..n][off + 4] == c[..n][off + 4] == c[off + 4];
    U32Local(b, c, off);
    U32Local(b, c, off + 5);
    U32Local(b, c, off + 9);
    U32Local(b, c, off + 13);
  }

  lemma SameSlice(b: Data, c: Data, n: nat, i: nat, j: nat)
    requires i <= j <= n <= |b| && n <= |c| && b[..n] == c[..n]
    ensures b[i..j] == c[i..j]
  {
    assert b[i..j] == b[..n][i..j];
    assert c[i..j] == c[..n][i..j];
  }

  lemma {:induction false} EncodeLogOne(es: seq<Entry>, e: Entry)
    ensures EncodeLog(es + [e]) == EncodeLog(es) + EncodeEntry(e)
  {
    hide EncodeEntry;
    if es == [] {
      assert es + [e] == [e];
    } else {
      assert (es + [e])[1..] == es[1..] + [e];
      EncodeLogOne(es[1..], e);
    }
  }

  lemma EncodeLogCons(e: Entry, es: seq<Entry>)
    ensures EncodeLog([e] + es) == EncodeEntry(e) + EncodeLog(es)
  {
    hide EncodeEntry;
    assert ([e] + es)[1..] == es;
  }

  /** How many whole entries lie in the first n bytes of an encoded log. */
  function WholeEntries(es: seq<Entry>, n: nat): (k: nat)
    ensures k <= |es|
  {
    if es == [] || |EncodeEntry(es[0])| > n then 0
    else 1 + WholeEntries(es[1..], n - |EncodeEntry(es[0])|)
  }

  lemma EncodeLogTake(es: seq<Entry>, k: nat)
    requires 0 < k <= |es|
    ensures EncodeLog(es[..k]) == EncodeEntry(es[0]) + EncodeLog(es[1..][..k - 1])
  {
    hide EncodeEntry;
    assert es[..k][1..] == es[1..][..k - 1];
  }

  /** `WholeEntries` is the largest number of leading entries that fit in n bytes. */
  lemma {:induction false} WholeEntriesIsMaximal(es: seq<Entry>, n: nat)
    ensures var k := WholeEntries(es, n);
            |EncodeLog(es[..k])| <= n && (k < |es| ==> n < |EncodeLog(es[..k + 1])|)
  {
    hide EncodeEntry;
    if es != [] {
      var k := WholeEntries(es, n);
      if k == 0 {
        EncodeLogTake(es, 1);
      } else {
        WholeEntriesIsMaximal(es[1..], n - |EncodeEntry(es[0])|);
        EncodeLogTake(es, k);
        if k < |es| {
          EncodeLogTake(es, k + 1);
        }
      }
    }
  }

  lemma ScanNothing(b: Data, off: nat)
    requires off <= |b| && (ParseEntryAt(b, off) == NoEntry || off == |b|)
    ensures ScanLog(b, off) == Scan([], off)
  {
  }

  lemma ScanFound(b: Data, off: nat, e: Entry, next: nat)
    requires off <= |b| && ParseEntryAt(b, off) == Found(e, next)
    ensures ScanLog(b, off) == Scan([e] + ScanLog(b, next).entries, ScanLog(b, next).end)
  {
  }

  lemma ScanOneMore(b: Data, off: nat, e: Entry, rest: seq<Entry>, k: nat)
    requires off <= |b| && k <= |rest| && ParseEntryAt(b, off) == Found(e, off + |EncodeEntry(e)|)
    requires var next := off + |EncodeEntry(e)|;
             ScanLog(b, next) == Scan(rest[..k], next + |EncodeLog(rest[..k])|)
    ensures ScanLog(b, off) == Scan(([e] + rest)[..k + 1], off + |EncodeLog(([e] + rest)[..k + 1])|)
  {
    hide ParseEntryAt, EncodeEntry, ScanLog;
    ScanFound(b, off, e, off + |EncodeEntry(e)|);
    EncodeLogCons(e, rest[..k]);
    assert ([e] + rest)[..k + 1] == [e] + rest[..k];
  }

  lemma {:induction false} ScanTorn(b: Data, off: nat, es: seq<Entry>)
    requires off <= |b| <= off + |EncodeLog(es)|
    requires b[off..] == EncodeLog(es)[..|b| - off]
    requires FitsLog(es)
    ensures var k := WholeEntries(es, |b| - off);
            ScanLog(b, off) == Scan(es[..k], off + |EncodeLog(es[..k])|)
    decreases |es|
  {
    hide ParseEntryAt, EncodeEntry, ScanLog;
    if es == [] {
      ScanNothing(b, off);
    } else {
      var e, rest, n := es[0], es[1..], |b| - off;
      var len := |EncodeEntry(e)|;
      assert es == [e] + rest;
      if len > n {
        assert EncodeLog(es)[..n] == EncodeEntry(e)[..n];
        ParseTorn(b, off, e);
        ScanNothing(b, off);
        assert es[..0] == [];
      } else {
        assert b[off..off + len] == b[off..][..len] == EncodeEntry(e);
        ParseEncoded(b, off, e);
        assert b[off + len..] == b[off..][len..] == EncodeLog(rest)[..n - len];
        ScanTorn(b, off + len, rest);
        ScanOneMore(b, off, e, rest, WholeEntries(rest, n - len));
      }
    }
  }

  /** The torn log tail: scanning any byte prefix of a log finds exactly the whole entries inside it,
      and the boundary is where the last of them ends. */
  lemma TornTail(es: seq<Entry>, n: nat)
    requires FitsLog(es) && n <= |EncodeLog(es)|
    ensures var k := WholeEntries(es, n);
            ScanLog(EncodeLog(es)[..n], 0) == Scan(es[..k], |EncodeLog(es[..k])|)
  {
    var b := EncodeLog(es)[..n];
    assert b[0..] == b;
    ScanTorn(b, 0, es);
  }

  /** A log the program wrote is read back entry by entry, to its last byte. */
  lemma ScanEncoded(es: seq<Entry>)
    requires FitsLog(es)
    ensures ScanLog(EncodeLog(es), 0) == Scan(es, |EncodeLog(es)|)
  {
    hide ScanLog, WholeEntries, EncodeEntry, FitsEntry;
    var n := |EncodeLog(es)|;
    assert EncodeLog(es)[..n] == EncodeLog(es);
    TornTail(es, n);
    WholeEntriesIsMaximal(es, n);
    var k := WholeEntries(es, n);
    if k < |es| {
      ShorterLog(es, k + 1);
    }
    assert k == |es|;
    assert es[..k] == es;
  }

  lemma {:induction false} ShorterLog(es: seq<Entry>, k: nat)
    requires k <= |es|
    ensures |EncodeLog(es[..k])| <= |EncodeLog(es)|
  {
    hide EncodeEntry;
    if k > 0 {
      EncodeLogTake(es, k);
      ShorterLog(es[1..], k - 1);
    }
  }

  lemma {:induction false} ScanLocal(b: Data, c: Data, off: nat)
    requires off <= |b| && ScanLog(b, off).end == |c|
    requires c == b[..|c|]
    ensures ScanLog(c, off) == ScanLog(b, off)
    decreases |b| - off
  {
    match ParseEntryAt(b, off) {
      case NoEntry =>
      case Found(e, next) =>
        assert b[..next] == c[..next];
        ParseLocal(b, c, off);
        ScanLocal(b, c, next);
    }
  }

  /** Truncating any file, even a damaged one, to the boundary a scan found leaves a file whose scan
      finds the same entries and nothing more to cut. */
  lemma TruncationIsStable(b: Data)
    ensures var s := ScanLog(b, 0);
            ScanLog(b[..s.end], 0) == s
  {
    var s := ScanLog(b, 0);
    ScanLocal(b, b[..s.end], 0);
  }

  /** Whatever a scan returns was read through 32-bit lengths, so it fits them. */
  lemma {:induction false} ScannedFits(b: Data, off: nat)
    requires off <= |b|
    ensures FitsLog(ScanLog(b, off).entries)
    decreases |b| - off
  {
    match ParseEntryAt(b, off) {
      case NoEntry =>
      case Found(e, next) => ScannedFits(b, next);
    }
  }
}
