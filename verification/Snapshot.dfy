/** Snapshot blobs (kvstore/src/tablet.cc:663-716), and what files read from a disk guarantee.

      u32 number of rows | u64 LSN | u64 checkpoint version | rows
 */
module Snapshot {
  import opened Bytes
  import opened Table
  import opened Wal
  import opened RowCodec
  import opened TabletImage
  import Bloom

  function EncodeSnapshot(lsn: nat, version: nat, rs: seq<RowImage>): Data {
    SnapshotHeader(lsn, version, |rs|) + EncodeRows(rs)
  }

  function SnapshotHeader(lsn: nat, version: nat, nrows: nat): (b: Data)
    ensures |b| == 20
  {
    PutU32(nrows) + (PutU64(lsn) + PutU64(version))
  }

  /** The filter is not sent; the receiver adds every row key to an empty one. */
  function FilterOf(rs: seq<RowImage>): Bloom.Cells {
    if rs == [] then Bloom.Empty() else Bloom.Added(FilterOf(rs[..|rs| - 1]), rs[|rs| - 1].key)
  }

  function DecodeSnapshot(b: Data): Option<Image> {
    if |b| < 20 then None
    else
      match RowsAt(b, 20, U32At(b, 0))
      case Short => None
      case Took(rs, next) => Some(Image(RowsKeeping(rs), FilterOf(rs), U64At(b, 4), U64At(b, 12)))
  }

  lemma SnapshotHeaderReads(b: Data, lsn: nat, version: nat, nrows: nat)
    requires HasAt(b, 0, SnapshotHeader(lsn, version, nrows))
    requires lsn < U64 && version < U64 && nrows < U32
    ensures U32At(b, 0) == nrows && U64At(b, 4) == lsn && U64At(b, 12) == version
  {
    hide HasAt, U32At, U64At, PutU32, PutU64;
    HasAtSplit(b, 0, PutU32(nrows), PutU64(lsn) + PutU64(version));
    HasAtSplit(b, 4, PutU64(lsn), PutU64(version));
    U32RoundTrip(b, 0, nrows);
    U64RoundTrip(b, 4, lsn);
    U64RoundTrip(b, 12, version);
    Small32(nrows);
    Small64(lsn);
    Small64(version);
  }

  /** A snapshot is decoded to the rows, LSN and version it was taken of, whatever order the rows were
      written in, if and only if all lengths and counts fit. The rebuilt filter passes every row. */
  lemma SnapshotRoundTrip(t: Rows, rs: seq<RowImage>, lsn: nat, version: nat)
    requires ListsRows(t, rs) && lsn < U64 && version < U64
    ensures DecodeSnapshot(EncodeSnapshot(lsn, version, rs)) == Some(Image(t, FilterOf(rs), lsn, version))
            <==> FitsTable(t)
    ensures Covered(Image(t, FilterOf(rs), lsn, version))
  {
    hide DecodeSnapshot, EncodeSnapshot, FitsTable, ListsRows, Bloom.Passes, FilterOf, RowsKeeping;
    if FitsTable(t) {
      SnapshotDecodes(t, rs, lsn, version);
    }
    if DecodeSnapshot(EncodeSnapshot(lsn, version, rs)) == Some(Image(t, FilterOf(rs), lsn, version)) {
      DecodedFits(EncodeSnapshot(lsn, version, rs));
    }
    ListedRows(t, rs);
    FilterOfCovers(rs);
  }

  lemma SnapshotDecodes(t: Rows, rs: seq<RowImage>, lsn: nat, version: nat)
    requires ListsRows(t, rs) && FitsTable(t) && lsn < U64 && version < U64
    ensures DecodeSnapshot(EncodeSnapshot(lsn, version, rs)) == Some(Image(t, FilterOf(rs), lsn, version))
  {
    hide Bloom.Passes, SnapshotHeader, EncodeRows, RowsAt, RowsKeeping, FilterOf, U32At, U64At, HasAt, ListsCols,
      FitsRows;
    var b := EncodeSnapshot(lsn, version, rs);
    PartsAt(SnapshotHeader(lsn, version, |rs|), EncodeRows(rs));
    SnapshotHeaderReads(b, lsn, version, |rs|);
    ListedFits(t, rs);
    RowsRoundTrip(b, 20, rs);
    ListedRows(t, rs);
  }

  lemma PartsAt(p: Data, q: Data)
    ensures HasAt(p + q, 0, p) && HasAt(p + q, |p|, q)
  {
    assert (p + q)[0..|p|] == p;
  }

  /** The rebuilt filter passes every row of the snapshot. */
  lemma {:induction false} FilterOfCovers(rs: seq<RowImage>)
    ensures forall i :: 0 <= i < |rs| ==> Bloom.Passes(FilterOf(rs), rs[i].key)
    ensures forall k :: k in RowsKeeping(rs) ==> Bloom.Passes(FilterOf(rs), k)
  {
    hide Bloom.Passes, ColsMap;
    if rs != [] {
      var init, last := rs[..|rs| - 1], rs[|rs| - 1];
      FilterOfCovers(init);
      forall k
        ensures Bloom.Passes(FilterOf(rs), last.key)
        ensures Bloom.Passes(FilterOf(init), k) ==> Bloom.Passes(FilterOf(rs), k)
      {
        Bloom.AddedPasses(FilterOf(init), last.key, k);
      }
    }
  }

  // ----- what was read fits -----

  /** Every snapshot that decodes gives a covered image that can be written as a checkpoint. */
  lemma DecodedFits(b: Data)
    requires DecodeSnapshot(b).Some?
    ensures var m := DecodeSnapshot(b).value;
            FitsTable(m.rows) && Covered(m) && m.lsn < U64 && m.version < U64
  {
    hide RowsAt, RowsKeeping, FilterOf, FitsRow, Bloom.Passes;
    var rs := RowsAt(b, 20, U32At(b, 0)).value;
    RowsAtFits(b, 20, U32At(b, 0));
    KeepingFits(rs);
    FilterOfCovers(rs);
  }

  lemma {:induction false} StepsShort(m: Image, es: seq<Entry>)
    requires ShortStrings(m.rows) && FitsLog(es)
    ensures ShortStrings(Steps(m, es).rows)
  {
    hide FilterAfter;
    if es != [] {
      StepsShort(m, es[..|es| - 1]);
    }
  }

  // ----- what was scanned is what was written -----

  lemma {:induction false} PutTaken(b: Data, off: nat, n: nat)
    requires off + n <= |b|
    ensures PutLE(LEAt(b, off, n), n) == b[off..off + n]
    decreases n
  {
    if n > 0 {
      PutTaken(b, off + 1, n - 1);
      assert b[off..off + n] == [b[off]] + b[off + 1..off + n];
    }
  }

  lemma PutU32Taken(b: Data, off: nat)
    requires off + 4 <= |b|
    ensures PutU32(U32At(b, off)) == b[off..off + 4]
  {
    PutTaken(b, off, 4);
  }

  lemma ReEncoded(b: Data, off: nat)
    requires ParseEntryAt(b, off).Found?
    ensures var p := ParseEntryAt(b, off);
            EncodeEntry(p.entry) == b[off..p.next]
  {
    hide U32At, PutU32;
    var p := ParseEntryAt(b, off);
    PutU32Taken(b, off);
    PutU32Taken(b, off + 5);
    PutU32Taken(b, off + 9);
    PutU32Taken(b, off + 13);
    assert HEADER == 17;
    var r := off + 17 + |p.entry.row|;
    Joined(b, off, off + 4, off + 5);
    Joined(b, off, off + 5, off + 9);
    Joined(b, off, off + 9, off + 13);
    Joined(b, off, off + 13, off + 17);
    Joined(b, off + 17, r, r + |p.entry.col|);
    Joined(b, off + 17, r + |p.entry.col|, p.next);
    Joined(b, off, off + 17, p.next);
    assert [b[off + 4]] == b[off + 4..off + 5];
  }

  lemma Joined(b: Data, i: nat, j: nat, k: nat)
    requires i <= j <= k <= |b|
    ensures b[i..j] + b[j..k] == b[i..k]
  {
  }

  /** The scanned part of any file is the encoding of the entries found in it. */
  lemma {:induction false} ScannedEncodes(b: Data, off: nat)
    requires off <= |b|
    ensures var s := ScanLog(b, off);
            EncodeLog(s.entries) == b[off..s.end]
    decreases |b| - off
  {
    hide ParseEntryAt, EncodeEntry;
    match ParseEntryAt(b, off) {
      case NoEntry =>
      case Found(e, next) =>
        ReEncoded(b, off);
        ScannedEncodes(b, next);
        var s := ScanLog(b, next);
        EncodeLogCons(e, s.entries);
        Joined(b, off, next, s.end);
    }
  }
}
