/** Delta blobs: the log entries behind a given LSN, each with its LSN in front
    (kvstore/src/tablet.cc:730-888).

      u64 base LSN | per entry: u64 LSN | the entry as it stands in the log
 */
module WalDelta {
  import opened Bytes
  import opened Table
  import opened Wal

  // ----- writing: LSNs are rebuilt by counting back from the current one -----

  /** The LSN `wal_delta_after` gives the first entry of a log of n entries when the tablet is at `lsn`. */
  function FirstLsn(lsn: nat, n: nat): nat {
    if n > lsn then 1 else lsn - n + 1
  }

  function EncodeRun(first: nat, es: seq<Entry>): Data
    decreases |es|
  {
    if es == [] then [] else PutU64(first) + (EncodeEntry(es[0]) + EncodeRun(first + 1, es[1..]))
  }

  function EncodeDelta(after: nat, first: nat, es: seq<Entry>): Data {
    PutU64(after) + EncodeRun(first, es)
  }

  /** What a tablet at `lsn` whose log holds `es` sends to a requester that is at `after`. */
  function DeltaAfter(lsn: nat, es: seq<Entry>, after: nat): Data {
    var first := FirstLsn(lsn, |es|);
    var skip := if after < first then 0 else if after - first + 1 <= |es| then after - first + 1 else |es|;
    EncodeDelta(after, first + skip, es[skip..])
  }

  // ----- reading -----

  /** The entries a delta makes a tablet append, in order, and whether it was accepted to the end.
      Entries applied before a refusal stay applied. */
  datatype Outcome = Outcome(applied: seq<Entry>, ok: bool)

  /** A skipped entry moves the position by the sum of its three lengths taken in 32 bits
      (kvstore/src/tablet.cc:833). */
  function SkipTo(off: nat, e: Entry): nat {
    off + 8 + HEADER + (|e.row| + |e.col| + |e.val|) % 0x1_0000_0000
  }

  /** What the entry is applied as: deletes drop any value, other codes are refused. */
  function Accepted(e: Entry): Option<Entry> {
    if e.code == WAL_PUT then Some(e)
    else if e.code == WAL_DELETE then Some(DeleteEntry(e.row, e.col))
    else None
  }

  function RunDelta(b: Data, off: nat, lsn: nat): Outcome
    requires lsn < U64
    decreases |b| - off
  {
    if off >= |b| then Outcome([], true)
    else if off + 8 > |b| then Outcome([], false)
    else
      match ParseEntryAt(b, off + 8)
      case NoEntry => Outcome([], false)
      case Found(e, next) =>
        if U64At(b, off) <= lsn then RunDelta(b, SkipTo(off, e), lsn)
        else if U64At(b, off) != lsn + 1 then Outcome([], false)
        else
          match Accepted(e)
          case None => Outcome([], false)
          case Some(a) =>
            var rest := RunDelta(b, next, lsn + 1);
            Outcome([a] + rest.applied, rest.ok)
  }

  function ApplyDelta(b: Data, lsn: nat): Outcome
    requires lsn < U64
  {
    if |b| < 8 then Outcome([], false) else RunDelta(b, 8, lsn)
  }

  /** Entries as `write_wal_put` and `write_wal_delete` produce them. */
  predicate Proper(e: Entry) {
    FitsEntry(e) && (e.code == WAL_PUT || (e.code == WAL_DELETE && e.val == []))
  }

  predicate ProperLog(es: seq<Entry>) {
    forall i :: 0 <= i < |es| ==> Proper(es[i])
  }

  lemma AcceptedProper(e: Entry)
    requires Proper(e)
    ensures Accepted(e) == Some(e)
  {
  }

  // ----- round trip -----

  lemma RunDeltaNext(b: Data, off: nat, lsn: nat, e: Entry)
    requires lsn + 1 < U64 && Proper(e)
    requires HasAt(b, off, PutU64(lsn + 1)) && HasAt(b, off + 8, EncodeEntry(e))
    ensures var rest := RunDelta(b, off + 8 + |EncodeEntry(e)|, lsn + 1);
            RunDelta(b, off, lsn) == Outcome([e] + rest.applied, rest.ok)
  {
    hide ParseEntryAt, EncodeEntry, FitsEntry;
    ProperFits(e);
    ParseEncoded(b, off + 8, e);
    U64RoundTrip(b, off, lsn + 1);
    Small64(lsn + 1);
    AcceptedProper(e);
  }

  lemma RunDeltaEnd(b: Data, off: nat, lsn: nat)
    requires off >= |b| && lsn < U64
    ensures RunDelta(b, off, lsn) == Outcome([], true)
  {
  }

  lemma ProperFits(e: Entry)
    requires Proper(e)
    ensures FitsEntry(e)
  {
  }

  lemma RunDeltaSkip(b: Data, off: nat, lsn: nat, at: nat, e: Entry)
    requires at <= lsn < U64 && FitsEntry(e) && Payload(e) < U32
    requires HasAt(b, off, PutU64(at)) && HasAt(b, off + 8, EncodeEntry(e))
    ensures RunDelta(b, off, lsn) == RunDelta(b, off + 8 + |EncodeEntry(e)|, lsn)
  {
    hide ParseEntryAt, FitsEntry, Header, HasAt, PutU64, U64At;
    ParseEncoded(b, off + 8, e);
    U64RoundTrip(b, off, at);
    Small64(at);
    Small32(|e.row| + |e.col| + |e.val|);
  }

  /** Gap-free entries starting right behind the requester's LSN are all applied, in order. */
  lemma {:induction false} RunDeltaExact(b: Data, off: nat, lsn: nat, es: seq<Entry>)
    requires ProperLog(es) && lsn + |es| < U64
    requires HasAt(b, off, EncodeRun(lsn + 1, es)) && off + |EncodeRun(lsn + 1, es)| == |b|
    ensures RunDelta(b, off, lsn) == Outcome(es, true)
    decreases |es|
  {
    hide RunDelta, ParseEntryAt, EncodeEntry, Proper, HasAt, PutU64;
    if es == [] {
      RunDeltaEnd(b, off, lsn);
    } else {
      var e, rest := es[0], es[1..];
      assert es == [e] + rest;
      HasAtSplit(b, off, PutU64(lsn + 1), EncodeEntry(e) + EncodeRun(lsn + 2, rest));
      HasAtSplit(b, off + 8, EncodeEntry(e), EncodeRun(lsn + 2, rest));
      RunDeltaNext(b, off, lsn, e);
      RunDeltaExact(b, off + 8 + |EncodeEntry(e)|, lsn + 1, rest);
    }
  }

  /** The bytes of an entry behind its header. */
  function Payload(e: Entry): nat {
    |e.row| + |e.col| + |e.val|
  }

  /** How many of n entries behind `after` a tablet at `lsn` has already. */
  function Held(after: nat, lsn: nat, n: nat): (k: nat)
    requires after <= lsn
    ensures k <= n
  {
    if lsn - after <= n then lsn - after else n
  }

  /** A delta may start at or before the requester's LSN, as when it is applied late or twice: what the
      requester already has is skipped and the rest applied. */
  lemma {:induction false} RunDeltaOverlap(b: Data, off: nat, first: nat, lsn: nat, es: seq<Entry>)
    requires ProperLog(es) && first <= lsn + 1 && lsn < U64 && first + |es| < U64
    requires forall i :: 0 <= i < |es| && first + i <= lsn ==> Payload(es[i]) < U32
    requires HasAt(b, off, EncodeRun(first, es)) && off + |EncodeRun(first, es)| == |b|
    ensures RunDelta(b, off, lsn)
            == Outcome(es[if lsn + 1 - first <= |es| then lsn + 1 - first else |es|..], true)
    decreases |es|
  {
    hide RunDelta, ParseEntryAt, EncodeEntry, Proper, HasAt, PutU64;
    if es == [] {
      RunDeltaEnd(b, off, lsn);
    } else {
      var e, rest := es[0], es[1..];
      if first == lsn + 1 {
        RunDeltaExact(b, off, lsn, es);
        assert es[0..] == es;
      } else {
        HasAtSplit(b, off, PutU64(first), EncodeEntry(e) + EncodeRun(first + 1, rest));
        HasAtSplit(b, off + 8, EncodeEntry(e), EncodeRun(first + 1, rest));
        ProperFits(e);
        RunDeltaSkip(b, off, lsn, first, e);
        RunDeltaOverlap(b, off + 8 + |EncodeEntry(e)|, first + 1, lsn, rest);
      }
    }
  }

  lemma DeltaExact(after: nat, lsn: nat, es: seq<Entry>)
    requires ProperLog(es) && lsn + |es| < U64
    ensures ApplyDelta(EncodeDelta(after, lsn + 1, es), lsn) == Outcome(es, true)
  {
    hide EncodeRun, RunDelta, HasAt, ProperLog, PutU64;
    var b := EncodeDelta(after, lsn + 1, es);
    WholeAt(PutU64(after), EncodeRun(lsn + 1, es));
    RunDeltaExact(b, 8, lsn, es);
  }

  /** The first record lies past a gap: nothing is applied and the load fails. */
  lemma RunDeltaGap(b: Data, off: nat, first: nat, lsn: nat, es: seq<Entry>)
    requires es != [] && Proper(es[0]) && lsn + 1 < first < U64
    requires HasAt(b, off, EncodeRun(first, es))
    ensures RunDelta(b, off, lsn) == Outcome([], false)
  {
    hide ParseEntryAt, EncodeEntry, Proper, HasAt, PutU64;
    var e, rest := es[0], es[1..];
    HasAtSplit(b, off, PutU64(first), EncodeEntry(e) + EncodeRun(first + 1, rest));
    HasAtSplit(b, off + 8, EncodeEntry(e), EncodeRun(first + 1, rest));
    RunDeltaGapAt(b, off, first, lsn, e);
  }

  lemma RunDeltaGapAt(b: Data, off: nat, first: nat, lsn: nat, e: Entry)
    requires Proper(e) && lsn + 1 < first < U64
    requires HasAt(b, off, PutU64(first)) && HasAt(b, off + 8, EncodeEntry(e))
    ensures RunDelta(b, off, lsn) == Outcome([], false)
  {
    hide ParseEntryAt, EncodeEntry, FitsEntry;
    ProperFits(e);
    ParseEncoded(b, off + 8, e);
    U64RoundTrip(b, off, first);
    Small64(first);
  }

  /** The three ways a late delta can meet a log: it overlaps, it is all old, or it leaves a gap. */
  lemma DeltaLoaded(after: nat, lsn: nat, es: seq<Entry>)
    requires ProperLog(es) && lsn < U64 && after + 1 + |es| < U64
    requires forall i :: 0 <= i < |es| && after + 1 + i <= lsn ==> Payload(es[i]) < U32
    ensures ApplyDelta(EncodeDelta(after, after + 1, es), lsn) ==
            if after <= lsn then Outcome(es[Held(after, lsn, |es|)..], true) else Outcome([], es == [])
  {
    hide RunDelta, HasAt, PutU64, Proper;
    var b := EncodeDelta(after, after + 1, es);
    WholeAt(PutU64(after), EncodeRun(after + 1, es));
    if after <= lsn {
      RunDeltaOverlap(b, 8, after + 1, lsn, es);
    } else if es == [] {
      RunDeltaEnd(b, 8, lsn);
    } else {
      RunDeltaGap(b, 8, after + 1, lsn, es);
    }
  }

  // ----- when a late delta is read right -----

  function Zeros(n: nat): (z: Data)
    ensures |z| == n
  {
    seq(n, i => 0)
  }

  /** Same codes and lengths, whatever the contents. */
  ghost predicate SameSizes(es: seq<Entry>, fs: seq<Entry>) {
    |es| == |fs| && forall i :: 0 <= i < |es| ==>
      && fs[i].code == es[i].code && |fs[i].row| == |es[i].row| && |fs[i].col| == |es[i].col|
      && |fs[i].val| == |es[i].val|
  }

  function Blank(e: Entry): Entry {
    Entry(e.code, Zeros(|e.row|), Zeros(|e.col|), Zeros(|e.val|))
  }

  function Blanked(es: seq<Entry>): (fs: seq<Entry>)
    ensures |fs| == |es|
  {
    seq(|es|, i requires 0 <= i < |es| => Blank(es[i]))
  }

  lemma ZeroMagic(b: Data, off: nat)
    requires off + 4 <= |b| && b[off..off + 4] == [0, 0, 0, 0]
    ensures ParseEntryAt(b, off) == NoEntry
  {
    assert PutU32(0) == [0, 0, 0, 0];
    U32RoundTrip(b, off, 0);
  }

  /** A skip by a wrapped length stays inside the payload; where that is blank, no record is found there and
      the load fails. */
  lemma WrappedSkipFails(b: Data, off: nat, lsn: nat, at: nat, e: Entry)
    requires at <= lsn < U64 && FitsEntry(e) && Payload(e) >= U32 && e == Blank(e)
    requires HasAt(b, off, PutU64(at)) && HasAt(b, off + 8, EncodeEntry(e))
    ensures RunDelta(b, off, lsn) == Outcome([], false)
  {
    hide ParseEntryAt, FitsEntry, Header, PutU64, U64At;
    ParseEncoded(b, off + 8, e);
    U64RoundTrip(b, off, at);
    Small64(at);
    var land := SkipTo(off, e);
    var body := off + 8 + HEADER;
    HasAtSplit(b, off + 8, Header(e), e.row + e.col + e.val);
    assert e.row + e.col + e.val == Zeros(Payload(e));
    assert land + 8 + HEADER <= body + Payload(e);
    BlankInside(b, body, Payload(e), land + 8);
    ZeroMagic(b, land + 8);
  }

  lemma BlankInside(b: Data, body: nat, n: nat, p: nat)
    requires HasAt(b, body, Zeros(n)) && body <= p && p + 4 <= body + n
    ensures p + 4 <= |b| && b[p..p + 4] == [0, 0, 0, 0]
  {
    assert forall i :: body <= i < body + n ==> b[i] == (b[body..body + n])[i - body];
  }

  lemma {:induction false} OverlapFails(b: Data, off: nat, first: nat, lsn: nat, es: seq<Entry>, j: nat)
    requires ProperLog(es) && lsn < U64 && j < |es| && first + j <= lsn && Payload(es[j]) >= U32
    requires forall i :: 0 <= i < |es| ==> es[i] == Blank(es[i])
    requires HasAt(b, off, EncodeRun(first, es))
    ensures RunDelta(b, off, lsn) == Outcome([], false)
    decreases |es|
  {
    hide RunDelta, ParseEntryAt, EncodeEntry, Proper, HasAt, PutU64, Blank;
    var e, rest := es[0], es[1..];
    HasAtSplit(b, off, PutU64(first), EncodeEntry(e) + EncodeRun(first + 1, rest));
    HasAtSplit(b, off + 8, EncodeEntry(e), EncodeRun(first + 1, rest));
    ProperFits(e);
    if Payload(e) >= U32 {
      WrappedSkipFails(b, off, lsn, first, e);
    } else {
      RunDeltaSkip(b, off, lsn, first, e);
      OverlapFails(b, off + 8 + |EncodeEntry(e)|, first + 1, lsn, rest, j - 1);
    }
  }

  ghost predicate ReadRight(after: nat, lsn: nat, es: seq<Entry>)
    requires after <= lsn < U64
  {
    ApplyDelta(EncodeDelta(after, after + 1, es), lsn) == Outcome(es[Held(after, lsn, |es|)..], true)
  }

  /** Whatever entries of these sizes hold, their late delta is read right. */
  ghost predicate SizesReadRight(after: nat, lsn: nat, es: seq<Entry>)
    requires after <= lsn < U64
  {
    forall fs :: SameSizes(es, fs) ==> ReadRight(after, lsn, fs)
  }

  /** A late delta of entries of given sizes is always read right if and only if each entry that is skipped
      has lengths that sum to less than 2^32. The entries that are applied do not matter. */
  lemma LateDeltaExactly(after: nat, lsn: nat, es: seq<Entry>)
    requires ProperLog(es) && after <= lsn < U64 && after + 1 + |es| < U64
    ensures SizesReadRight(after, lsn, es) <==> forall i :: 0 <= i < Held(after, lsn, |es|) ==> Payload(es[i]) < U32
  {
    hide ApplyDelta, EncodeDelta, Blank;
    if forall i :: 0 <= i < Held(after, lsn, |es|) ==> Payload(es[i]) < U32 {
      forall fs | SameSizes(es, fs)
        ensures ReadRight(after, lsn, fs)
      {
        SizesProper(es, fs);
        DeltaLoaded(after, lsn, fs);
      }
    } else {
      var j :| 0 <= j < Held(after, lsn, |es|) && Payload(es[j]) >= U32;
      BlankedSizes(es);
      SizesProper(es, Blanked(es));
      BlankedFails(after, lsn, Blanked(es), j);
    }
  }

  lemma SizesProper(es: seq<Entry>, fs: seq<Entry>)
    requires ProperLog(es) && SameSizes(es, fs)
    ensures ProperLog(fs) && forall i :: 0 <= i < |es| ==> Payload(fs[i]) == Payload(es[i])
  {
  }

  lemma BlankedSizes(es: seq<Entry>)
    ensures SameSizes(es, Blanked(es)) && forall i :: 0 <= i < |es| ==> Blanked(es)[i] == Blank(Blanked(es)[i])
  {
  }

  lemma BlankedFails(after: nat, lsn: nat, es: seq<Entry>, j: nat)
    requires ProperLog(es) && after <= lsn < U64 && j < Held(after, lsn, |es|) && Payload(es[j]) >= U32
    requires forall i :: 0 <= i < |es| ==> es[i] == Blank(es[i])
    ensures ApplyDelta(EncodeDelta(after, after + 1, es), lsn) == Outcome([], false)
  {
    hide EncodeRun, RunDelta, HasAt, ProperLog, PutU64, Blank;
    WholeAt(PutU64(after), EncodeRun(after + 1, es));
    OverlapFails(EncodeDelta(after, after + 1, es), 8, after + 1, lsn, es, j);
  }

  /** Two lengths of 2^31 fit their fields but wrap in sum: a delta whose first record the tablet already has
      is refused, and the operation behind it is not applied. */
  lemma WrappedDeltaMisread(after: nat, f: Entry)
    requires Proper(f) && after + 3 < U64
    ensures var e := PutEntry(Zeros(0x8000_0000), Zeros(0x8000_0000), []);
            && Proper(e) && Payload(e) == U32
            && ApplyDelta(EncodeDelta(after, after + 1, [e, Blank(f)]), after + 1) == Outcome([], false)
            && ApplyDelta(EncodeDelta(after, after + 1, [e, Blank(f)]), after) == Outcome([e, Blank(f)], true)
  {
    hide ApplyDelta, EncodeDelta, Blank;
    var e := PutEntry(Zeros(0x8000_0000), Zeros(0x8000_0000), []);
    BlankEntry(e, f);
    BlankedFails(after, after + 1, [e, Blank(f)], 0);
    DeltaExact(after, after, [e, Blank(f)]);
  }

  lemma BlankEntry(e: Entry, f: Entry)
    requires e == PutEntry(Zeros(0x8000_0000), Zeros(0x8000_0000), []) && Proper(f)
    ensures Proper(e) && Payload(e) == U32 && e == Blank(e) && Proper(Blank(f)) && Blank(f) == Blank(Blank(f))
  {
    assert Zeros(0) == [];
  }

  lemma WholeAt(p: Data, q: Data)
    ensures HasAt(p + q, |p|, q)
  {
  }

  /** LSNs rebuilt by counting are those assigned at write time: entry i of the log that began behind
      `base` carries base + 1 + i, and what is sent starts right behind the requester when the log
      reaches back far enough. */
  lemma CountedLsns(base: nat, es: seq<Entry>, after: nat)
    requires base <= after <= base + |es|
    ensures DeltaAfter(base + |es|, es, after) == EncodeDelta(after, after + 1, es[after - base..])
  {
  }

  /** When it does not, the first entry sent leaves a visible gap. */
  lemma CountedGap(base: nat, es: seq<Entry>, after: nat)
    requires after < base && es != [] && base + |es| < U64
    ensures var blob := DeltaAfter(base + |es|, es, after);
            |blob| > 8 && |blob| >= 16 && U64At(blob, 8) == base + 1
  {
    var blob := DeltaAfter(base + |es|, es, after);
    assert es[0..] == es;
    assert blob == PutU64(after) + EncodeRun(base + 1, es);
    WholeAt(PutU64(after), EncodeRun(base + 1, es));
    HasAtSplit(blob, 8, PutU64(base + 1), EncodeEntry(es[0]) + EncodeRun(base + 2, es[1..]));
    U64RoundTrip(blob, 8, base + 1);
    Small64(base + 1);
  }

  lemma EncodeRunNone(first: nat)
    ensures EncodeRun(first, []) == []
  {
  }

  lemma {:induction false} EncodeRunOne(first: nat, es: seq<Entry>, e: Entry)
    ensures EncodeRun(first, es + [e]) == EncodeRun(first, es) + (PutU64(first + |es|) + EncodeEntry(e))
    decreases |es|
  {
    hide EncodeEntry, PutU64;
    if es == [] {
      assert es + [e] == [e];
      EncodeRunNone(first + 1);
      assert [e][1..] == [];
    } else {
      assert (es + [e])[1..] == es[1..] + [e];
      EncodeRunOne(first + 1, es[1..], e);
    }
  }
}
