/** What a tablet's two files stand for: the checkpoint format (kvstore/src/tablet.cc:423-560), the
    state recovery rebuilds from checkpoint and log, and what a crash can and cannot do to it.
 */
module TabletImage {
  import opened Bytes
  import opened Table
  import opened Wal
  import opened RowCodec
  import Bloom

  const CKPT_MAGIC: nat := 0xC0DE_FACE

  /** Everything a tablet holds in memory apart from its operation counter. */
  datatype Image = Image(rows: Rows, filter: Bloom.Cells, lsn: nat, version: nat)

  const EMPTY_IMAGE: Image := Image(map[], Bloom.Empty(), 0, 0)

  // ----- entries -----

  /** A put that creates its row also adds the row key to the filter. */
  function FilterAfter(rows: Rows, filter: Bloom.Cells, e: Entry): Bloom.Cells {
    if e.code == WAL_PUT && e.row !in rows then Bloom.Added(filter, e.row) else filter
  }

  function Step(m: Image, e: Entry): Image {
    Image(ApplyEntry(m.rows, e), FilterAfter(m.rows, m.filter, e), (m.lsn + 1) % 0x1_0000_0000_0000_0000, m.version)
  }

  function Steps(m: Image, es: seq<Entry>): Image {
    if es == [] then m else Step(Steps(m, es[..|es| - 1]), es[|es| - 1])
  }

  lemma StepsNone(m: Image)
    ensures Steps(m, []) == m
  {
  }

  lemma StepsOne(m: Image, es: seq<Entry>, e: Entry)
    ensures Steps(m, es + [e]) == Step(Steps(m, es), e)
  {
    assert (es + [e])[..|es|] == es;
  }

  lemma {:induction false} StepsFields(m: Image, es: seq<Entry>)
    ensures Steps(m, es).rows == Replay(m.rows, es)
    ensures Steps(m, es).version == m.version
    ensures m.lsn + |es| < U64 ==> Steps(m, es).lsn == m.lsn + |es|
  {
    if es != [] {
      StepsFields(m, es[..|es| - 1]);
    }
  }

  /** Every stored row passes the filter. */
  predicate Covered(m: Image) {
    forall k :: k in m.rows ==> Bloom.Passes(m.filter, k)
  }

  lemma StepCovered(m: Image, e: Entry)
    requires Covered(m)
    ensures Covered(Step(m, e))
  {
    forall k | k in Step(m, e).rows
      ensures Bloom.Passes(Step(m, e).filter, k)
    {
      Bloom.AddedPasses(m.filter, e.row, k);
    }
  }

  /** Bloom transparency over every run of entries: the filter never hides a stored row. */
  lemma {:induction false} StepsCovered(m: Image, es: seq<Entry>)
    requires Covered(m)
    ensures Covered(Steps(m, es))
  {
    if es != [] {
      StepsCovered(m, es[..|es| - 1]);
      StepCovered(Steps(m, es[..|es| - 1]), es[|es| - 1]);
    }
  }

  /** Entries over rows that all exist leave the filter alone. */
  lemma {:induction false} StepsKeepFilter(m: Image, es: seq<Entry>)
    requires PutRows(es) <= m.rows.Keys
    ensures Steps(m, es).filter == m.filter
  {
    if es != [] {
      var init := es[..|es| - 1];
      assert PutRows(init) <= PutRows(es);
      StepsKeepFilter(m, init);
      StepsFields(m, init);
      ReplayKeys(m.rows, init);
      if es[|es| - 1].code == WAL_PUT {
        assert es[|es| - 1].row in PutRows(es);
      }
    }
  }

  // ----- the checkpoint file -----

  function CkptHeader(version: nat, lsn: nat, nrows: nat): (b: Data)
    ensures |b| == 24
  {
    PutU32(CKPT_MAGIC) + (PutU64(version) + (PutU64(lsn) + PutU32(nrows)))
  }

  function EncodeCkpt(version: nat, lsn: nat, rs: seq<RowImage>, filter: Bloom.Cells): Data {
    CkptHeader(version, lsn, |rs|) + (EncodeRows(rs) + Bloom.BytesOf(filter))
  }

  /** `load_checkpoint`: a missing file is an empty tablet, a file without the magic number is an old
      one that starts with its row count, and a file cut off inside the rows is refused. A file cut off
      inside the filter is accepted, with zeros for the missing cells. */
  function LoadImage(ckpt: Option<Data>): Option<Image> {
    match ckpt
    case None => Some(EMPTY_IMAGE)
    case Some(b) =>
      if |b| < 4 then None
      else if U32At(b, 0) != CKPT_MAGIC then LoadRows(b, 4, U32At(b, 0), 0, 0)
      else if |b| < 24 then None
      else LoadRows(b, 24, U32At(b, 20), U64At(b, 12), U64At(b, 4))
  }

  function LoadRows(b: Data, off: nat, nrows: nat, lsn: nat, version: nat): Option<Image>
    requires off <= |b|
  {
    match RowsAt(b, off, nrows)
    case Short => None
    case Took(rs, next) => Some(Image(RowsReplacing(rs), Bloom.CellsAt(b, next), lsn, version))
  }

  lemma CkptHeaderReads(b: Data, version: nat, lsn: nat, nrows: nat)
    requires HasAt(b, 0, CkptHeader(version, lsn, nrows))
    ensures U32At(b, 0) == CKPT_MAGIC
    ensures U64At(b, 4) == version % U64 && U64At(b, 12) == lsn % U64 && U32At(b, 20) == nrows % U32
  {
    hide HasAt, U32At, U64At, PutU32, PutU64;
    var m, v, l, n := PutU32(CKPT_MAGIC), PutU64(version), PutU64(lsn), PutU32(nrows);
    HasAtSplit(b, 0, m, v + (l + n));
    HasAtSplit(b, 4, v, l + n);
    HasAtSplit(b, 12, l, n);
    U32RoundTrip(b, 0, CKPT_MAGIC);
    Small32(CKPT_MAGIC);
    U64RoundTrip(b, 4, version);
    U64RoundTrip(b, 12, lsn);
    U32RoundTrip(b, 20, nrows);
  }

  /** A checkpoint of a table, its rows written in any order, loads as exactly that table, filter, LSN and
      version if and only if all its lengths and counts fit their 32-bit fields. */
  lemma CkptRoundTrip(m: Image, rs: seq<RowImage>)
    requires ListsRows(m.rows, rs) && m.lsn < U64 && m.version < U64
    ensures LoadImage(Some(EncodeCkpt(m.version, m.lsn, rs, m.filter))) == Some(m) <==> FitsTable(m.rows)
  {
    hide LoadImage, EncodeCkpt, FitsTable, ListsRows;
    if FitsTable(m.rows) {
      CkptLoadsBack(m, rs);
    }
    if LoadImage(Some(EncodeCkpt(m.version, m.lsn, rs, m.filter))) == Some(m) {
      LoadedFits(Some(EncodeCkpt(m.version, m.lsn, rs, m.filter)));
    }
  }

  /** Whatever checkpoint is accepted, its table fits. */
  lemma LoadedFits(ckpt: Option<Data>)
    requires LoadImage(ckpt).Some?
    ensures var m := LoadImage(ckpt).value;
            FitsTable(m.rows) && m.lsn < U64 && m.version < U64
  {
    hide RowsAt, RowsReplacing, FitsRow, Bloom.CellsAt;
    if ckpt.Some? {
      var b := ckpt.value;
      var off, n := if U32At(b, 0) == CKPT_MAGIC then 24 else 4,
                    if U32At(b, 0) == CKPT_MAGIC then U32At(b, 20) else U32At(b, 0);
      RowsAtFits(b, off, n);
      ReplacingFits(RowsAt(b, off, n).value);
    }
  }

  /** 2^32 rows of short keys: the row count is written as zero, and the checkpoint loads as an empty table. */
  lemma WideTableLost(m: Image, rs: seq<RowImage>)
    requires ListsRows(m.rows, rs) && |m.rows| == 0x1_0000_0000 && m.lsn < U64 && m.version < U64
    ensures var loaded := LoadImage(Some(EncodeCkpt(m.version, m.lsn, rs, m.filter)));
            loaded.Some? && loaded.value.rows == map[] && loaded.value.lsn == m.lsn
  {
    hide CkptHeader, EncodeRows, U32At, U64At, Bloom.CellsAt, Bloom.BytesOf;
    var b := EncodeCkpt(m.version, m.lsn, rs, m.filter);
    assert b[..24] == CkptHeader(m.version, m.lsn, |rs|);
    CkptHeaderReads(b, m.version, m.lsn, |rs|);
    Small64(m.lsn);
    ListedCount(m.rows, rs);
  }

  /** Such a table comes about by as many puts. */
  function WideLog(n: nat): seq<Entry> {
    seq(n, i requires 0 <= i < n => PutEntry(PutU32(i), [], []))
  }

  lemma {:induction false} WideRows(n: nat)
    requires n <= U32
    ensures |Replay(map[], WideLog(n))| == n
    ensures forall k :: k in Replay(map[], WideLog(n)) ==> exists i :: 0 <= i < n && k == PutU32(i)
    ensures ShortStrings(Replay(map[], WideLog(n)))
  {
    hide PutU32;
    if n > 0 {
      WideRows(n - 1);
      assert WideLog(n)[..n - 1] == WideLog(n - 1);
      forall i | 0 <= i < n - 1
        ensures PutU32(i) != PutU32(n - 1)
      {
        U32Apart(i, n - 1);
      }
      var t := Replay(map[], WideLog(n - 1));
      assert Replay(map[], WideLog(n)) == t[PutU32(n - 1) := map[[] := []]];
      assert Replay(map[], WideLog(n)).Keys == t.Keys + {PutU32(n - 1)};
    }
  }

  /** The tablet after those puts holds 2^32 rows; after a checkpoint it holds none, at the same LSN. */
  lemma WideLogLost(version: nat, rs: seq<RowImage>)
    requires version < U64 && ListsRows(Steps(EMPTY_IMAGE, WideLog(0x1_0000_0000)).rows, rs)
    ensures var m := Steps(EMPTY_IMAGE, WideLog(0x1_0000_0000));
            var loaded := LoadImage(Some(EncodeCkpt(version, m.lsn, rs, m.filter)));
            && |m.rows| == 0x1_0000_0000 && ShortStrings(m.rows)
            && loaded.Some? && loaded.value.rows == map[] && loaded.value.lsn == m.lsn
  {
    hide Steps, Replay, ListsRows, LoadImage, EncodeCkpt, PutU32, Bloom.Empty;
    var log := WideLog(0x1_0000_0000);
    StepsFields(EMPTY_IMAGE, log);
    WideRows(0x1_0000_0000);
    WideTableLost(Steps(EMPTY_IMAGE, log).(version := version), rs);
  }

  lemma U32Apart(i: nat, j: nat)
    requires i < j < U32
    ensures PutU32(i) != PutU32(j)
  {
    hide PutU32, U32At;
    var a, b := PutU32(i), PutU32(j);
    assert a[0..4] == a && b[0..4] == b;
    U32RoundTrip(a, 0, i);
    U32RoundTrip(b, 0, j);
    Small32(i);
    Small32(j);
  }

  lemma CkptLoadsBack(m: Image, rs: seq<RowImage>)
    requires ListsRows(m.rows, rs) && FitsTable(m.rows) && m.lsn < U64 && m.version < U64
    ensures LoadImage(Some(EncodeCkpt(m.version, m.lsn, rs, m.filter))) == Some(m)
  {
    hide CkptHeader, EncodeRows, ListsRows, FitsTable, LoadRows;
    var b := EncodeCkpt(m.version, m.lsn, rs, m.filter);
    var head, body, tail := CkptHeader(m.version, m.lsn, |rs|), EncodeRows(rs), Bloom.BytesOf(m.filter);
    assert b == head + (body + tail);
    assert HasAt(b, 0, head + (body + tail)) by {
      assert b[0..|b|] == b;
    }
    HasAtSplit(b, 0, head, body + tail);
    HasAtSplit(b, 24, body, tail);
    CkptLoads(b, m, rs);
  }

  lemma CkptLoads(b: Data, m: Image, rs: seq<RowImage>)
    requires ListsRows(m.rows, rs) && FitsTable(m.rows) && m.lsn < U64 && m.version < U64
    requires HasAt(b, 0, CkptHeader(m.version, m.lsn, |rs|)) && HasAt(b, 24, EncodeRows(rs))
    requires HasAt(b, 24 + |EncodeRows(rs)|, Bloom.BytesOf(m.filter))
    ensures LoadImage(Some(b)) == Some(m)
  {
    hide CkptHeader, U32At, U64At, Bloom.CellsAt, Bloom.BytesOf, RowsAt, EncodeRows, RowsReplacing;
    CkptHeaderReads(b, m.version, m.lsn, |rs|);
    Small64(m.version);
    Small64(m.lsn);
    ListedFits(m.rows, rs);
    Small32(|rs|);
    RowsRoundTrip(b, 24, rs);
    ListedRows(m.rows, rs);
    Bloom.CellsRoundTrip(b, 24 + |EncodeRows(rs)|, m.filter);
  }

  // ----- recovery -----

  /** `recover`: load the checkpoint, then replay the log over it. */
  function RecoverImage(ckpt: Option<Data>, wal: Data): Option<Image> {
    match LoadImage(ckpt)
    case None => None
    case Some(base) => Some(Steps(base, ScanLog(wal, 0).entries))
  }

  lemma {:induction false} StepsLsn(m: Image, es: seq<Entry>)
    requires m.lsn < U64
    ensures Steps(m, es).lsn == (m.lsn + |es|) % 0x1_0000_0000_0000_0000
  {
    hide ApplyEntry, FilterAfter;
    if es != [] {
      StepsLsn(m, es[..|es| - 1]);
    }
  }

  /** Durability: when the checkpoint loads as `base` and the log holds `ops`, recovery rebuilds exactly
      the rows, filter, LSN and version that running `ops` on `base` produced in memory. */
  lemma Rebuilds(ckpt: Option<Data>, base: Image, ops: seq<Entry>)
    requires LoadImage(ckpt) == Some(base) && FitsLog(ops)
    ensures RecoverImage(ckpt, EncodeLog(ops)) == Some(Steps(base, ops))
  {
    hide LoadImage, ScanLog, Steps;
    ScanEncoded(ops);
  }

  /** A log cut at any byte recovers to the state after its whole entries, and recovering again from
      the truncated log gives the same state. */
  lemma TornRecovery(ckpt: Option<Data>, base: Image, ops: seq<Entry>, n: nat)
    requires LoadImage(ckpt) == Some(base) && FitsLog(ops) && n <= |EncodeLog(ops)|
    ensures var torn := EncodeLog(ops)[..n];
            && RecoverImage(ckpt, torn) == Some(Steps(base, ops[..WholeEntries(ops, n)]))
            && RecoverImage(ckpt, torn[..ScanLog(torn, 0).end]) == RecoverImage(ckpt, torn)
  {
    hide LoadImage, ScanLog, Steps, WholeEntries, EncodeLog;
    TornTail(ops, n);
    TruncationIsStable(EncodeLog(ops)[..n]);
  }

  /** A crash while one more entry is being appended loses that entry and nothing else: until its last
      byte is in the file recovery gives the state before the operation, then the state after it. */
  lemma CrashDuringAppend(ckpt: Option<Data>, base: Image, ops: seq<Entry>, e: Entry, n: nat)
    requires LoadImage(ckpt) == Some(base) && FitsLog(ops) && FitsEntry(e) && n <= |EncodeEntry(e)|
    ensures RecoverImage(ckpt, EncodeLog(ops) + EncodeEntry(e)[..n])
            == Some(if n < |EncodeEntry(e)| then Steps(base, ops) else Step(Steps(base, ops), e))
  {
    hide RecoverImage, LoadImage, Steps, Step, EncodeEntry, FitsEntry, EncodeLog, ScanLog, WholeEntries;
    var all, m := ops + [e], |EncodeLog(ops)| + n;
    EncodeLogOne(ops, e);
    assert EncodeLog(all)[..m] == EncodeLog(ops) + EncodeEntry(e)[..n];
    assert all[..|ops|] == ops && all[..|ops| + 1] == all;
    TornRecovery(ckpt, base, all, m);
    AppendedWhole(ops, e, n);
    StepsOne(base, ops, e);
  }

  lemma AppendedWhole(ops: seq<Entry>, e: Entry, n: nat)
    requires n <= |EncodeEntry(e)|
    ensures WholeEntries(ops + [e], |EncodeLog(ops)| + n) == if n < |EncodeEntry(e)| then |ops| else |ops| + 1
  {
    hide EncodeEntry, WholeEntries, EncodeLog;
    var all, m := ops + [e], |EncodeLog(ops)| + n;
    EncodeLogOne(ops, e);
    var k := WholeEntries(all, m);
    assert all[..|ops|] == ops && all[..|all|] == all;
    WholeEntriesIsMaximal(all, m);
    if k < |ops| {
      assert all[..k + 1] == ops[..k + 1];
      ShorterLog(ops, k + 1);
    }
  }

  // ----- the crash window between the checkpoint's rename and the truncation of the log -----

  /** `checkpoint` crashing inside the window keeps the rows and the filter, but the log's entries are
      counted a second time: the recovered LSN is right only if the log was empty. */
  lemma CheckpointCrashWindow(base: Image, ops: seq<Entry>, rs: seq<RowImage>, version: nat)
    requires FitsLog(ops) && base.lsn < U64 && version < U64 && |ops| < U64
    requires ListsRows(Steps(base, ops).rows, rs) && FitsTable(Steps(base, ops).rows)
    ensures var m := Steps(base, ops);
            var after := RecoverImage(Some(EncodeCkpt(version, m.lsn, rs, m.filter)), EncodeLog(ops));
            && after.Some? && after.value.rows == m.rows && after.value.filter == m.filter
            && after.value.lsn == (m.lsn + |ops|) % 0x1_0000_0000_0000_0000
            && (after.value.lsn == m.lsn <==> ops == [])
  {
    hide RecoverImage, LoadImage, EncodeCkpt, Steps, EncodeLog, ListsRows, FitsTable;
    var m := Steps(base, ops);
    var saved := m.(version := version);
    var ckpt := Some(EncodeCkpt(version, m.lsn, rs, m.filter));
    StepsLsn(base, ops);
    CkptRoundTrip(saved, rs);
    Rebuilds(ckpt, saved, ops);
    ReplayedTwice(base, ops, version);
    WrappedShift(m.lsn, |ops|);
  }

  lemma ReplayedTwice(base: Image, ops: seq<Entry>, version: nat)
    requires base.lsn < U64
    ensures var m := Steps(base, ops);
            Steps(m.(version := version), ops)
            == Image(m.rows, m.filter, (m.lsn + |ops|) % 0x1_0000_0000_0000_0000, version)
  {
    hide Steps, Replay;
    var m := Steps(base, ops);
    var saved := m.(version := version);
    StepsLsn(base, ops);
    StepsFields(base, ops);
    ReplayKeys(base.rows, ops);
    ReplayIdempotent(base.rows, ops);
    StepsFields(saved, ops);
    StepsKeepFilter(saved, ops);
    StepsLsn(saved, ops);
  }

  lemma WrappedShift(x: nat, k: nat)
    requires x < U64 && k < U64
    ensures (x + k) % 0x1_0000_0000_0000_0000 == x <==> k == 0
  {
  }

  /** The same window inside `load_snapshot_blob`: the log left behind belongs to the replica's own past.
      The rows survive such a crash if and only if that log says nothing new about the snapshot; the LSN,
      and with it the whole state, if and only if the log was empty. */
  lemma SnapshotCrashWindow(snap: Image, rs: seq<RowImage>, ops: seq<Entry>)
    requires FitsLog(ops) && snap.lsn < U64 && snap.version < U64 && |ops| < U64
    requires ListsRows(snap.rows, rs) && FitsTable(snap.rows)
    ensures var after := RecoverImage(Some(EncodeCkpt(snap.version, snap.lsn, rs, snap.filter)), EncodeLog(ops));
            && after.Some?
            && (after.value.rows == snap.rows <==> SaysNothingNew(snap.rows, ops))
            && (after.value.lsn == snap.lsn <==> ops == [])
            && (after.value == snap <==> ops == [])
  {
    hide RecoverImage, LoadImage, EncodeCkpt, EncodeLog, ListsRows, FitsTable, Steps, Replay, SaysNothingNew;
    StepsLsn(snap, ops);
    StepsNone(snap);
    StepsFields(snap, ops);
    ReplayChangesNothing(snap.rows, ops);
    var ckpt := Some(EncodeCkpt(snap.version, snap.lsn, rs, snap.filter));
    CkptRoundTrip(snap, rs);
    Rebuilds(ckpt, snap, ops);
    WrappedShift(snap.lsn, |ops|);
  }

  /** A replica one operation behind installs a snapshot and crashes in the window. From the files it comes
      back with the overwritten value, and with a higher LSN than the primary it copied. */
  lemma SnapshotWindowDiverges(row: Data, col: Data, v: Data, w: Data, version: nat)
    requires v != w && |row| < U32 && |col| < U32 && |v| < U32 && |w| < U32 && version < U64
    ensures var log := [PutEntry(row, col, v), PutEntry(row, col, w)];
            var primary := Steps(EMPTY_IMAGE, log);
            var ckpt := EncodeCkpt(version, primary.lsn, [RowImage(row, [(col, w)])], primary.filter);
            var recovered := RecoverImage(Some(ckpt), EncodeLog(log[..1]));
            && ListsRows(primary.rows, [RowImage(row, [(col, w)])]) && recovered.Some?
            && Lookup(primary.rows, row, col) == Some(w) && Lookup(recovered.value.rows, row, col) == Some(v)
            && recovered.value.lsn == primary.lsn + 1
  {
    hide RecoverImage, LoadImage, EncodeCkpt, EncodeLog, ListsRows, FilterAfter, FitsTable, Steps, Bloom.Empty;
    var a, b := PutEntry(row, col, v), PutEntry(row, col, w);
    assert [a, b][..1] == [a] && [a][..0] == [];
    StepsNone(EMPTY_IMAGE);
    StepsOne(EMPTY_IMAGE, [], a);
    StepsOne(EMPTY_IMAGE, [a], b);
    assert [] + [a] == [a] && [a] + [b] == [a, b];
    var primary := Steps(EMPTY_IMAGE, [a, b]);
    var rs := [RowImage(row, [(col, w)])];
    assert map[col := v][col := w] == map[col := w];
    assert ApplyEntry(EMPTY_IMAGE.rows, a) == map[row := map[col := v]];
    assert ApplyEntry(map[row := map[col := v]], b) == map[row := map[col := w]];
    assert primary.rows == map[row := map[col := w]];
    OneCell(row, col, w);
    var saved := primary.(version := version);
    var ckpt := Some(EncodeCkpt(version, primary.lsn, rs, primary.filter));
    CkptRoundTrip(saved, rs);
    Rebuilds(ckpt, saved, [a]);
    StepsNone(saved);
    StepsOne(saved, [], a);
  }

  lemma OneCell(row: Data, col: Data, w: Data)
    requires |row| < U32 && |col| < U32 && |w| < U32
    ensures ListsRows(map[row := map[col := w]], [RowImage(row, [(col, w)])])
    ensures FitsTable(map[row := map[col := w]])
  {
    hide ListsSome, ListsSomeRows;
    var cells, t := map[col := w], map[row := map[col := w]];
    ListsNothing(cells, t);
    ListOneMore(cells, [], {}, col);
    assert [] + [(col, w)] == [(col, w)] && {} + {col} == cells.Keys;
    ListOneMoreRow(t, [], {}, RowImage(row, [(col, w)]));
    assert [] + [RowImage(row, [(col, w)])] == [RowImage(row, [(col, w)])] && {} + {row} == t.Keys;
  }

  lemma ListsNothing(row: Row, t: Rows)
    ensures ListsSome(row, [], {}) && ListsSomeRows(t, [], {})
  {
  }
}
