/** The tablet of kvstore/src/tablet.cc: an in-memory table behind a Bloom filter, a write-ahead log, a
    checkpoint file and an LSN counter.

    `wal` and `ckpt` are the bytes of the two files. Every operation is one atomic step, and file
    operations succeed. `base` and `ops` are ghost: the state the checkpoint file stands for and the
    entries the log holds behind it. `Valid` ties bytes, memory and ghosts together, so that in every
    reachable state recovery would rebuild exactly what is in memory.
 */
module TabletStore {
  import opened Bytes
  import opened Table
  import opened Wal
  import opened RowCodec
  import opened TabletImage
  import opened WalDelta
  import opened Snapshot
  import opened Bloom

  class Tablet {
    var rows: Rows
    var bloom: BloomFilter
    var lsn: nat
    var version: nat
    var wal: Data
    var ckpt: Option<Data>

    ghost var base: Image
    ghost var ops: seq<Entry>

    ghost function Repr(): set<object>
      reads this, bloom
    {
      {this, bloom, bloom.bits}
    }

    /** Everything in memory, as one value. */
    ghost function Memory(): Image
      reads this, bloom, bloom.bits
      requires bloom.Valid()
    {
      Image(rows, bloom.Contents(), lsn, version)
    }

    ghost predicate Valid()
      reads this, bloom, bloom.bits
    {
      && bloom.Valid() && lsn < U64 && version < U64 && base.lsn < U64
      && LoadImage(ckpt) == Some(base) && FitsLog(ops) && wal == EncodeLog(ops)
      && Memory() == Steps(base, ops)
      && Covered(base) && Covered(Memory()) && ShortStrings(rows)
    }

    /** The tablet's history is `hist`: its checkpoint holds a prefix of it and its log the rest. */
    ghost predicate HasLog(hist: seq<Entry>)
      reads this, bloom, bloom.bits
    {
      Valid() && LogOf(base, ops, hist)
    }

    /** A tablet opened on an empty directory. */
    constructor ()
      ensures Valid() && fresh(Repr()) && HasLog([])
      ensures Memory() == EMPTY_IMAGE && base == EMPTY_IMAGE && ops == []
    {
      rows, lsn, version, wal, ckpt := map[], 0, 0, [], None;
      bloom := new BloomFilter();
      base, ops := EMPTY_IMAGE, [];
    }

    // ----- writing one entry -----

    /** `write_wal_put` and `write_wal_delete`: append the entry's bytes, then take the next LSN. */
    method WriteWal(e: Entry) returns (newLsn: nat)
      requires Valid() && FitsEntry(e)
      modifies this`wal, this`lsn
      ensures wal == old(wal) + EncodeEntry(e)
      ensures lsn == (old(lsn) + 1) % 0x1_0000_0000_0000_0000 && newLsn == lsn
    {
      wal := wal + PutU32(WAL_MAGIC) + [e.code] + PutU32(|e.row|) + PutU32(|e.col|) + PutU32(|e.val|);
      wal := wal + e.row + e.col + e.val;
      AppendedEntry(old(wal), e);
      lsn := (lsn + 1) % 0x1_0000_0000_0000_0000;
      newLsn := lsn;
    }

    /** `get_or_create_row` and the assignment to the column. */
    method StorePut(row: Data, col: Data, val: Data)
      requires bloom.Valid()
      modifies this`rows, bloom.bits
      ensures rows == ApplyEntry(old(rows), PutEntry(row, col, val))
      ensures bloom.Contents() == FilterAfter(old(rows), old(bloom.Contents()), PutEntry(row, col, val))
    {
      if row !in rows {
        rows := rows[row := map[]];
        bloom.Add(row);
      }
      rows := rows[row := rows[row][col := val]];
    }

    method StoreDelete(row: Data, col: Data)
      modifies this`rows
      ensures rows == ApplyEntry(old(rows), DeleteEntry(row, col))
    {
      if row in rows {
        rows := rows[row := rows[row] - {col}];
      }
    }

    /** Log first, memory second. The whole state afterwards is one `Step` of the state before. */
    method Append(e: Entry) returns (newLsn: nat)
      requires Valid() && Proper(e)
      modifies this, bloom.bits
      ensures Valid() && bloom == old(bloom) && bloom.bits == old(bloom.bits)
      ensures Memory() == Step(old(Memory()), e) && newLsn == lsn
      ensures ops == old(ops) + [e] && base == old(base) && ckpt == old(ckpt)
    {
      hide Steps, EncodeLog, EncodeEntry, LoadImage, Covered, ShortStrings, ApplyEntry;
      ProperFits(e);
      newLsn := WriteWal(e);
      if e.code == WAL_PUT {
        StorePut(e.row, e.col, e.val);
      } else {
        StoreDelete(e.row, e.col);
      }
      ops := ops + [e];
      assert Memory() == Step(old(Memory()), e);
      AppendKeeps(old(Memory()), base, old(ops), e);
    }

    // ----- client operations -----

    method Put(row: Data, col: Data, val: Data) returns (newLsn: nat)
      requires Valid() && |row| < U32 && |col| < U32 && |val| < U32
      modifies this, bloom.bits
      ensures Valid() && bloom == old(bloom) && bloom.bits == old(bloom.bits)
      ensures Memory() == Step(old(Memory()), PutEntry(row, col, val)) && newLsn == lsn
      ensures ops == old(ops) + [PutEntry(row, col, val)] && base == old(base) && ckpt == old(ckpt)
    {
      newLsn := Append(PutEntry(row, col, val));
    }

    /** The filter is asked first, yet the answer is always that of the plain map. */
    method Get(row: Data, col: Data) returns (found: bool, val: Data)
      requires Valid()
      ensures found <==> Lookup(rows, row, col).Some?
      ensures found ==> Lookup(rows, row, col) == Some(val)
    {
      val := [];
      var may := bloom.MayContain(row);
      if !may { return false, val; }
      if row !in rows { return false, val; }
      if col !in rows[row] { return false, val; }
      return true, rows[row][col];
    }

    method Cput(row: Data, col: Data, v1: Data, v2: Data) returns (ok: bool, newLsn: nat)
      requires Valid() && |row| < U32 && |col| < U32 && |v2| < U32
      modifies this, bloom.bits
      ensures Valid() && bloom == old(bloom) && bloom.bits == old(bloom.bits) && base == old(base) && ckpt == old(ckpt)
      ensures ok <==> old(Lookup(rows, row, col)) == Some(v1)
      ensures ok ==> Memory() == Step(old(Memory()), PutEntry(row, col, v2)) && newLsn == lsn
      ensures ok ==> ops == old(ops) + [PutEntry(row, col, v2)]
      ensures !ok ==> Memory() == old(Memory()) && ops == old(ops) && wal == old(wal) && newLsn == 0
    {
      newLsn := 0;
      var may := bloom.MayContain(row);
      if !may { return false, 0; }
      if row !in rows { return false, 0; }
      if col !in rows[row] || rows[row][col] != v1 { return false, 0; }
      newLsn := Append(PutEntry(row, col, v2));
      ok := true;
    }

    /** Deleting a cell that is not there succeeds without an entry or an LSN. */
    method Del(row: Data, col: Data) returns (deleted: bool, newLsn: nat)
      requires Valid() && |row| < U32 && |col| < U32
      modifies this, bloom.bits
      ensures Valid() && bloom == old(bloom) && bloom.bits == old(bloom.bits) && base == old(base) && ckpt == old(ckpt)
      ensures deleted <==> old(Lookup(rows, row, col)).Some?
      ensures deleted ==> Memory() == Step(old(Memory()), DeleteEntry(row, col)) && newLsn == lsn
      ensures deleted ==> ops == old(ops) + [DeleteEntry(row, col)]
      ensures !deleted ==> Memory() == old(Memory()) && ops == old(ops) && wal == old(wal) && newLsn == 0
    {
      newLsn := 0;
      var may := bloom.MayContain(row);
      if !may { return false, 0; }
      if row !in rows { return false, 0; }
      if col !in rows[row] { return false, 0; }
      newLsn := Append(DeleteEntry(row, col));
      deleted := true;
    }

    // ----- replicated operations -----

    /** The LSN gate of `apply_replicated_put` and `apply_replicated_delete`: an old LSN is acknowledged
        without effect, the next one is applied, a gap is refused. */
    method ApplyReplicated(e: Entry, expected: nat) returns (ok: bool)
      requires Valid() && Proper(e) && expected < U64
      modifies this, bloom.bits
      ensures Valid() && bloom == old(bloom) && bloom.bits == old(bloom.bits) && base == old(base) && ckpt == old(ckpt)
      ensures ok <==> expected <= old(lsn) + 1
      ensures expected == old(lsn) + 1 ==> Memory() == Step(old(Memory()), e) && ops == old(ops) + [e]
      ensures expected != old(lsn) + 1 ==> Memory() == old(Memory()) && ops == old(ops) && wal == old(wal)
    {
      hide Steps, ApplyEntry, FilterAfter, EncodeLog, LoadImage, Covered, ShortStrings, Proper;
      var current := lsn;
      if expected <= current { return true; }
      if expected != current + 1 { return false; }
      var newLsn := Append(e);
      if newLsn != expected { return false; }
      ok := true;
    }

    // ----- checkpoint -----

    /** `checkpoint_locked`: write the table to a new file, rename it over the old checkpoint, truncate
        the log. The result can be recovered if and only if all lengths and counts fit their 32-bit fields. */
    method CheckpointLocked() returns (ghost rs: seq<RowImage>)
      requires bloom.Valid() && lsn < U64 && version < U64
      modifies this
      ensures bloom == old(bloom) && bloom.Valid() && base == Memory() && ops == []
      ensures ListsRows(rows, rs) && ckpt == Some(EncodeCkpt(version, lsn, rs, bloom.Contents())) && wal == []
      ensures Memory() == old(Memory()).(version := (old(version) + 1) % 0x1_0000_0000_0000_0000)
      ensures Covered(Memory()) ==> (Valid() <==> FitsTable(rows))
    {
      hide Steps, EncodeLog, LoadImage, EncodeCkpt, Covered, FitsTable, ListsRows;
      var next := (version + 1) % 0x1_0000_0000_0000_0000;
      var file;
      file, rs := CkptFile(next);
      ckpt := Some(file);
      wal := [];
      version := next;
      base, ops := Memory(), [];
      StepsNone(base);
      EncodeLogNone();
      CkptRoundTrip(base, rs);
      if FitsTable(rows) {
        FitsTableShort(rows);
      }
    }

    method CkptFile(next: nat) returns (file: Data, ghost rs: seq<RowImage>)
      requires bloom.Valid()
      ensures ListsRows(rows, rs) && file == EncodeCkpt(next, lsn, rs, bloom.Contents())
    {
      hide ListsRows, EncodeRows, BytesOf, PutU32, PutU64;
      var head := PutU32(CKPT_MAGIC) + (PutU64(next) + (PutU64(lsn) + PutU32(|rows|)));
      var body;
      body, rs := WriteRows(rows);
      ListedCount(rows, rs);
      var filter := bloom.Serialize();
      file := head + (body + filter);
    }

    method Checkpoint() returns (ghost rs: seq<RowImage>)
      requires Valid()
      modifies this
      ensures bloom == old(bloom) && bloom.Valid() && base == Memory() && ops == []
      ensures ListsRows(rows, rs) && ckpt == Some(EncodeCkpt(version, lsn, rs, bloom.Contents())) && wal == []
      ensures Memory() == old(Memory()).(version := (old(version) + 1) % 0x1_0000_0000_0000_0000)
      ensures Valid() <==> FitsTable(rows)
    {
      hide Steps, EncodeLog, LoadImage, EncodeCkpt, ShortStrings, FitsTable, ListsRows, Bloom.Passes;
      rs := CheckpointLocked();
    }

    // ----- snapshots -----

    method SnapshotBlob() returns (blob: Data, ghost rs: seq<RowImage>)
      requires Valid()
      ensures ListsRows(rows, rs) && blob == EncodeSnapshot(lsn, version, rs)
    {
      hide ListsSomeRows, Steps, EncodeLog, LoadImage, Covered, ShortStrings;
      blob := PutU32(|rows|) + (PutU64(lsn) + PutU64(version));
      var body;
      body, rs := WriteRows(rows);
      ListedCount(rows, rs);
      blob := blob + body;
    }

    /** Decode the whole blob first; then swap rows, filter and LSN in and checkpoint at once, which
        raises the version once more. A blob that is cut off changes nothing. */
    method LoadSnapshotBlob(blob: Data) returns (ok: bool)
      requires Valid()
      modifies this
      ensures Valid() && (bloom == old(bloom) || (fresh(bloom) && fresh(bloom.bits)))
      ensures ok <==> DecodeSnapshot(blob).Some?
      ensures ok ==> base == Memory() && ops == []
                     && Memory() == Installed(DecodeSnapshot(blob).value)
      ensures ok ==>
                var m := DecodeSnapshot(blob).value;
                && rows == m.rows && lsn == m.lsn && bloom.Contents() == m.filter
                && version == (m.version + 1) % 0x1_0000_0000_0000_0000
      ensures !ok ==> Memory() == old(Memory()) && bloom == old(bloom) && base == old(base) && ops == old(ops)
                      && wal == old(wal) && ckpt == old(ckpt)
    {
      hide Steps, EncodeLog, LoadImage, EncodeCkpt, ShortStrings, FitsTable, ListsRows, Bloom.Passes, RowsAt, FilterOf,
        RowsKeeping;
      if |blob| < 4 { return false; }
      var nrows := U32At(blob, 0);
      if |blob| < 12 { return false; }
      var newLsn := U64At(blob, 4);
      if |blob| < 20 { return false; }
      var newVersion := U64At(blob, 12);
      var good, newRows, newBloom := ReadSnapshotRows(blob, 20, nrows);
      if !good { return false; }
      DecodedFits(blob);
      rows, bloom, lsn, version := newRows, newBloom, newLsn, newVersion;
      var _ := CheckpointLocked();
      ok := true;
    }

    // ----- deltas -----

    /** Read the log file from its start, derive each entry's LSN by counting, and emit what lies behind
        `after`. */
    method WalDeltaAfter(after: nat) returns (blob: Data)
      requires Valid()
      ensures blob == DeltaAfter(lsn, ops, after)
    {
      hide Steps, LoadImage, Covered, ShortStrings, ParseEntryAt, EncodeEntry, ScanLog, EncodeLog, PutU64, DeltaAfter,
        EncodeTail, FitsEntry;
      ScanEncoded(ops);
      var entries := ReadAllEntries(wal);
      blob := PutU64(after);
      var first := FirstLsn(lsn, |entries|);
      EncodeTailNone(first, after);
      for i := 0 to |entries|
        invariant blob == PutU64(after) + EncodeTail(first, entries[..i], after)
      {
        var entryLsn := first + i;
        EncodeTailOne(first, entries[..i], entries[i], after);
        assert entries[..i] + [entries[i]] == entries[..i + 1];
        if entryLsn > after {
          blob := blob + (PutU64(entryLsn) + EncodeEntry(entries[i]));
        }
      }
      assert entries[..|entries|] == entries;
      DeltaIsTail(lsn, entries, after);
    }

    /** Append the entries of a delta one by one. Entries at or below the current LSN are skipped; a
        gap, a damaged record or an unknown code stops the loop and leaves what was applied. */
    method ApplyWalDeltaBlob(blob: Data) returns (ok: bool)
      requires Valid()
      modifies this, bloom.bits
      ensures Valid() && bloom == old(bloom) && bloom.bits == old(bloom.bits) && base == old(base) && ckpt == old(ckpt)
      ensures ok == ApplyDelta(blob, old(lsn)).ok
      ensures ops == old(ops) + ApplyDelta(blob, old(lsn)).applied
      ensures Memory() == Steps(old(Memory()), ApplyDelta(blob, old(lsn)).applied)
    {
      hide Steps, ApplyEntry, FilterAfter, LoadImage, Covered, ShortStrings, ParseEntryAt, EncodeLog, FitsEntry, Proper,
        RunDelta, Accepted;
      if |blob| < 8 {
        StepsNone(Memory());
        return false;
      }
      var off := 8;
      ghost var done: seq<Entry> := [];
      StepsNone(Memory());
      while off < |blob|
        invariant 8 <= off
        invariant Valid() && bloom == old(bloom) && bloom.bits == old(bloom.bits) && base == old(base)
                  && ckpt == old(ckpt)
        invariant ops == old(ops) + done && Memory() == Steps(old(Memory()), done)
        invariant ApplyDelta(blob, old(lsn))
                  == Outcome(done + RunDelta(blob, off, lsn).applied, RunDelta(blob, off, lsn).ok)
        decreases |blob| - off
      {
        RunDeltaUnfold(blob, off, lsn, done);
        if off + 8 > |blob| { return false; }
        var entryLsn := U64At(blob, off);
        var p := ReadEntry(blob, off + 8);
        if p == NoEntry { return false; }
        var e := p.entry;
        if entryLsn <= lsn {
          off := SkipTo(off, e);
        } else if entryLsn != lsn + 1 {
          return false;
        } else {
          var a := Accepted(e);
          if a == None { return false; }
          ParsedFits(blob, off + 8);
          AcceptedIsProper(e);
          StepsOne(old(Memory()), done, a.value);
          var newLsn := Append(a.value);
          done := done + [a.value];
          off := p.next;
        }
      }
      RunDeltaEnd(blob, off, lsn);
      assert done + [] == done;
      ok := true;
    }

    // ----- recovery -----

    /** A tablet object opened on files left by an earlier process, before `recover` runs. */
    constructor Open(walFile: Data, ckptFile: Option<Data>)
      ensures bloom.Valid() && fresh(Repr()) && wal == walFile && ckpt == ckptFile
      ensures Memory() == EMPTY_IMAGE
    {
      rows, lsn, version, wal, ckpt := map[], 0, 0, walFile, ckptFile;
      bloom := new BloomFilter();
      base, ops := EMPTY_IMAGE, [];
    }

    /** `recover` on any pair of files. It fails only on a checkpoint cut off inside its rows. Otherwise
        memory is the recovered image and the log has lost its torn tail; the tablet is in good order
        if and only if the checkpoint's filter passes the checkpoint's rows. */
    method Recover() returns (ok: bool)
      requires bloom.Valid() && Memory() == EMPTY_IMAGE
      modifies this, bloom, bloom.bits
      ensures bloom == old(bloom) && bloom.Valid() && ckpt == old(ckpt)
      ensures bloom.bits == old(bloom.bits) || fresh(bloom.bits)
      ensures ok <==> LoadImage(ckpt).Some?
      ensures ok ==> RecoverImage(ckpt, old(wal)) == Some(Memory())
      ensures ok ==> wal == old(wal)[..ScanLog(old(wal), 0).end]
      ensures ok ==> LoadImage(ckpt) == Some(base) && ops == ScanLog(old(wal), 0).entries
      ensures ok ==> (Covered(base) <==> Valid())
    {
      hide Steps, Covered, ParseEntryAt, EncodeLog, ShortStrings, EncodeEntry;
      ok := LoadCheckpoint();
      if !ok { return; }
      LoadedFits(ckpt);
      ReplayWal();
    }

    method LoadCheckpoint() returns (ok: bool)
      requires bloom.Valid() && Memory() == EMPTY_IMAGE
      modifies this`rows, this`lsn, this`version, this`base, bloom, bloom.bits
      ensures bloom.Valid() && (bloom.bits == old(bloom.bits) || fresh(bloom.bits))
      ensures ok <==> LoadImage(ckpt).Some?
      ensures ok ==> LoadImage(ckpt) == Some(Memory()) && base == Memory()
    {
      if ckpt == None {
        version := 0;
        base := Memory();
        return true;
      }
      var b := ckpt.value;
      if |b| < 4 { return false; }
      var first := U32At(b, 0);
      var nrows, off, newLsn, newVersion := first, 4, 0, 0;
      if first == CKPT_MAGIC {
        if |b| < 12 { return false; }
        newVersion := U64At(b, 4);
        if |b| < 20 { return false; }
        newLsn := U64At(b, 12);
        if |b| < 24 { return false; }
        nrows := U32At(b, 20);
        off := 24;
      }
      var good, newRows, next := ReadCheckpointRows(b, off, nrows);
      if !good { return false; }
      rows := newRows;
      bloom.Deserialize(b, next);
      version, lsn := newVersion, newLsn;
      base := Memory();
      ok := true;
    }

    /** Apply every whole entry, count it, then cut the file where the last one ends. */
    method ReplayWal()
      requires bloom.Valid() && Memory() == base && lsn < U64 && version < U64
      requires LoadImage(ckpt) == Some(base) && ShortStrings(base.rows)
      modifies this`rows, this`lsn, this`wal, this`ops, bloom.bits
      ensures bloom.Valid() && bloom.bits == old(bloom.bits)
      ensures ops == ScanLog(old(wal), 0).entries && wal == old(wal)[..ScanLog(old(wal), 0).end]
      ensures Memory() == Steps(base, ops)
      ensures Covered(base) <==> Valid()
    {
      hide Steps, Step, Covered, ShortStrings, ScanLog, ParseEntryAt, EncodeLog, LoadImage, FitsEntry;
      var off: nat := 0;
      ops := [];
      StepsNone(base);
      assert [] + ScanLog(wal, off).entries == ScanLog(wal, off).entries;
      while true
        invariant off <= |wal| && wal == old(wal)
        invariant bloom.Valid() && lsn < U64 && version < U64
        invariant ScanLog(wal, 0).entries == ops + ScanLog(wal, off).entries
        invariant ScanLog(wal, 0).end == ScanLog(wal, off).end
        invariant Memory() == Steps(base, ops)
        decreases |wal| - off
      {
        var p := ReadEntry(wal, off);
        if p == NoEntry {
          ScanNothing(wal, off);
          break;
        }
        ScanFound(wal, off, p.entry, p.next);
        StepsOne(base, ops, p.entry);
        ReplayEntry(p.entry);
        assert ops + ([p.entry] + ScanLog(wal, p.next).entries) == (ops + [p.entry]) + ScanLog(wal, p.next).entries;
        ops := ops + [p.entry];
        off := p.next;
      }
      assert ops + [] == ops;
      ScannedFits(wal, 0);
      ScannedEncodes(wal, 0);
      StepsShort(base, ops);
      if Covered(base) {
        StepsCovered(base, ops);
      }
      wal := wal[..off];
    }

    method ReplayEntry(e: Entry)
      requires bloom.Valid() && lsn < U64
      modifies this`rows, this`lsn, bloom.bits
      ensures Memory() == Step(old(Memory()), e) && lsn < U64
    {
      if e.code == WAL_PUT {
        StorePut(e.row, e.col, e.val);
      } else if e.code == WAL_DELETE {
        StoreDelete(e.row, e.col);
      }
      lsn := (lsn + 1) % 0x1_0000_0000_0000_0000;
    }
  }

  /** A process dies between two operations and a new one opens its files: the new tablet holds exactly
      the rows, filter, LSN and version of the old one. */
  method Restart(t: Tablet) returns (u: Tablet)
    requires t.Valid()
    ensures fresh(u) && u.Valid() && u.Memory() == t.Memory() && u.base == t.base && u.ops == t.ops
    ensures u.wal == t.wal && u.ckpt == t.ckpt
  {
    hide Steps, EncodeLog, LoadImage, Covered, ShortStrings, ScanLog;
    ScanEncoded(t.ops);
    u := new Tablet.Open(t.wal, t.ckpt);
    var ok := u.Recover();
  }

  /** A checkpoint state and a log that together make up a history. */
  ghost predicate LogOf(base: Image, ops: seq<Entry>, hist: seq<Entry>) {
    && |hist| < U64 && ProperLog(hist)
    && base.lsn <= |hist| && base.rows == Replay(map[], hist[..base.lsn]) && ops == hist[base.lsn..]
  }

  /** Such a tablet holds the rows its history leaves, and its LSN is the length of the history. */
  lemma LogOfMeans(base: Image, ops: seq<Entry>, hist: seq<Entry>)
    requires LogOf(base, ops, hist)
    ensures Steps(base, ops).rows == Replay(map[], hist) && Steps(base, ops).lsn == |hist|
  {
    hide Steps, Replay;
    StepsFields(base, ops);
    assert hist[..base.lsn] + hist[base.lsn..] == hist;
    ReplayConcat(map[], hist[..base.lsn], hist[base.lsn..]);
  }

  lemma LogOfGrows(base: Image, ops: seq<Entry>, hist: seq<Entry>, e: Entry)
    requires LogOf(base, ops, hist) && Proper(e) && |hist| + 1 < U64
    ensures LogOf(base, ops + [e], hist + [e])
  {
    hide Replay, Proper;
    assert (hist + [e])[..base.lsn] == hist[..base.lsn];
    assert (hist + [e])[base.lsn..] == hist[base.lsn..] + [e];
  }

  /** Reads the rows of a snapshot into a new map and a new filter; an earlier row of the same key
      stays. */
  method ReadSnapshotRows(b: Data, off: nat, n: nat) returns (good: bool, rows: Rows, filter: BloomFilter)
    requires off <= |b|
    ensures fresh(filter) && filter.Valid() && fresh(filter.bits)
    ensures good <==> RowsAt(b, off, n).Took?
    ensures good ==> rows == RowsKeeping(RowsAt(b, off, n).value)
                     && filter.Contents() == FilterOf(RowsAt(b, off, n).value)
  {
    hide RowsAt, RowAt, RowsKeeping, FilterOf;
    var at := off;
    ghost var rs: seq<RowImage> := [];
    rows := map[];
    filter := new BloomFilter();
    NoRows(b, off);
    for i := 0 to n
      invariant off <= at <= |b| && fresh(filter) && filter.Valid() && fresh(filter.bits)
      invariant RowsAt(b, off, i) == Took(rs, at)
      invariant rows == RowsKeeping(rs) && filter.Contents() == FilterOf(rs)
    {
      RowsAtOne(b, off, i);
      var ok, key, row, r, next := ReadRow(b, at);
      if !ok {
        RowsAtShort(b, off, i + 1, n);
        return false, rows, filter;
      }
      OneMoreRow(rs, r);
      filter.Add(key);
      if key !in rows {
        rows := rows[key := row];
      }
      rs := rs + [r];
      at := next;
    }
    good := true;
  }

  /** Reads the rows of a checkpoint; a later row of the same key replaces an earlier one. */
  method ReadCheckpointRows(b: Data, off: nat, n: nat) returns (good: bool, rows: Rows, next: nat)
    requires off <= |b|
    ensures good <==> RowsAt(b, off, n).Took?
    ensures good ==> rows == RowsReplacing(RowsAt(b, off, n).value) && next == RowsAt(b, off, n).next
  {
    hide RowsAt, RowAt, RowsReplacing;
    next, rows := off, map[];
    ghost var rs: seq<RowImage> := [];
    NoRows(b, off);
    for i := 0 to n
      invariant off <= next <= |b|
      invariant RowsAt(b, off, i) == Took(rs, next)
      invariant rows == RowsReplacing(rs)
    {
      RowsAtOne(b, off, i);
      var ok, key, row, r, after := ReadRow(b, next);
      if !ok {
        RowsAtShort(b, off, i + 1, n);
        return false, rows, next;
      }
      OneMoreRow(rs, r);
      rows := rows[key := row];
      rs := rs + [r];
      next := after;
    }
    good := true;
  }

  lemma NoRows(b: Data, off: nat)
    requires off <= |b|
    ensures RowsAt(b, off, 0) == Took([], off)
    ensures RowsKeeping([]) == map[] && RowsReplacing([]) == map[] && FilterOf([]) == Empty()
  {
  }

  lemma OneMoreRow(rs: seq<RowImage>, r: RowImage)
    ensures RowsKeeping(rs + [r]) == if r.key in RowsKeeping(rs) then RowsKeeping(rs)
                                     else RowsKeeping(rs)[r.key := ColsMap(r.cols)]
    ensures RowsReplacing(rs + [r]) == RowsReplacing(rs)[r.key := ColsMap(r.cols)]
    ensures FilterOf(rs + [r]) == Added(FilterOf(rs), r.key)
  {
    hide ColsMap, Added;
    assert (rs + [r])[..|rs|] == rs;
  }

  method ReadRow(b: Data, off: nat) returns (ok: bool, key: Data, row: Row, ghost r: RowImage, next: nat)
    requires off <= |b|
    ensures ok <==> RowAt(b, off).Took?
    ensures ok ==> RowAt(b, off) == Took(r, next) && r.key == key && row == ColsMap(r.cols)
  {
    hide StrAt, ColsAt;
    key, row, next, r := [], map[], off, RowImage([], []);
    var k := ReadStr(b, off);
    if k == Short { return false, key, row, r, next; }
    key := k.value;
    if k.next + 4 > |b| { return false, key, row, r, next; }
    var ncols := U32At(b, k.next);
    var cols;
    row, cols := ReadCols(b, k.next + 4, ncols);
    if cols == Short { return false, key, row, r, next; }
    ok, r, next := true, RowImage(key, cols.value), cols.next;
  }

  method ReadAllEntries(b: Data) returns (entries: seq<Entry>)
    ensures entries == ScanLog(b, 0).entries
  {
    hide ParseEntryAt;
    entries := [];
    var off := 0;
    while true
      invariant off <= |b| && ScanLog(b, 0).entries == entries + ScanLog(b, off).entries
      decreases |b| - off
    {
      var p := ReadEntry(b, off);
      if p == NoEntry { break; }
      entries := entries + [p.entry];
      off := p.next;
    }
  }

  /** A snapshot once installed: the immediate checkpoint has raised its version. */
  function Installed(m: Image): Image {
    m.(version := (m.version + 1) % 0x1_0000_0000_0000_0000)
  }

  lemma EncodeLogNone()
    ensures EncodeLog([]) == []
  {
  }

  lemma FitsTableShort(t: Rows)
    requires FitsTable(t)
    ensures ShortStrings(t)
  {
  }

  /** The entries behind `after`, each with the LSN that counting gives it. */
  function EncodeTail(first: nat, es: seq<Entry>, after: nat): Data {
    if es == [] then []
    else
      var n := |es| - 1;
      EncodeTail(first, es[..n], after) + (if first + n > after then PutU64(first + n) + EncodeEntry(es[n]) else [])
  }

  lemma EncodeTailOne(first: nat, es: seq<Entry>, e: Entry, after: nat)
    ensures EncodeTail(first, es + [e], after)
            == EncodeTail(first, es, after)
               + (if first + |es| > after then PutU64(first + |es|) + EncodeEntry(e) else [])
  {
    hide PutU64, EncodeEntry;
    assert (es + [e])[..|es|] == es;
  }

  lemma {:induction false} TailIsRun(first: nat, es: seq<Entry>, after: nat)
    ensures var skip := if after < first then 0 else if after - first + 1 <= |es| then after - first + 1 else |es|;
            EncodeTail(first, es, after) == EncodeRun(first + skip, es[skip..])
    decreases |es|
  {
    hide PutU64, EncodeEntry, EncodeRun, EncodeTail;
    if es == [] {
      EncodeRunNone(first);
      EncodeTailNone(first, after);
    } else {
      var n, init := |es| - 1, es[..|es| - 1];
      assert es == init + [es[n]];
      TailIsRun(first, init, after);
      EncodeTailOne(first, init, es[n], after);
      if first + n > after {
        var skip := if after < first then 0 else after - first + 1;
        assert es[skip..] == init[skip..] + [es[n]];
        EncodeRunOne(first + skip, init[skip..], es[n]);
      } else {
        assert es[|es|..] == [] && init[n..] == [];
        EncodeRunNone(first + n);
        EncodeRunNone(first + |es|);
      }
    }
  }

  lemma EncodeTailNone(first: nat, after: nat)
    ensures EncodeTail(first, [], after) == []
  {
  }

  lemma DeltaIsTail(lsn: nat, es: seq<Entry>, after: nat)
    ensures DeltaAfter(lsn, es, after) == PutU64(after) + EncodeTail(FirstLsn(lsn, |es|), es, after)
  {
    hide PutU64, EncodeTail, EncodeRun;
    TailIsRun(FirstLsn(lsn, |es|), es, after);
  }

  lemma AcceptedIsProper(e: Entry)
    requires FitsEntry(e) && Accepted(e).Some?
    ensures Proper(Accepted(e).value)
  {
  }

  /** One round of the loop, with what has been done so far in front. */
  lemma RunDeltaUnfold(b: Data, off: nat, lsn: nat, done: seq<Entry>)
    requires off < |b| && lsn < U64
    ensures var run := RunDelta(b, off, lsn);
            if off + 8 > |b| || ParseEntryAt(b, off + 8) == NoEntry then !run.ok && done + run.applied == done
            else
              var p := ParseEntryAt(b, off + 8);
              if U64At(b, off) <= lsn then run == RunDelta(b, SkipTo(off, p.entry), lsn)
              else if U64At(b, off) != lsn + 1 || Accepted(p.entry) == None then !run.ok && done + run.applied == done
              else
                var rest := RunDelta(b, p.next, lsn + 1);
                run.ok == rest.ok && done + run.applied == done + [Accepted(p.entry).value] + rest.applied
  {
    hide ParseEntryAt, Accepted;
  }

  lemma ParsedFits(b: Data, off: nat)
    requires ParseEntryAt(b, off).Found?
    ensures FitsEntry(ParseEntryAt(b, off).entry)
  {
    hide U32At;
  }

  lemma AppendedEntry(wal: Data, e: Entry)
    ensures wal + PutU32(WAL_MAGIC) + [e.code] + PutU32(|e.row|) + PutU32(|e.col|) + PutU32(|e.val|) + e.row + e.col
            + e.val
            == wal + EncodeEntry(e)
  {
    hide PutU32;
  }

  /** One entry appended to files and memory alike keeps them in step. */
  lemma AppendKeeps(m: Image, base: Image, ops: seq<Entry>, e: Entry)
    requires m == Steps(base, ops) && FitsLog(ops) && FitsEntry(e) && Covered(m) && ShortStrings(m.rows)
    ensures FitsLog(ops + [e]) && EncodeLog(ops + [e]) == EncodeLog(ops) + EncodeEntry(e)
    ensures Step(m, e) == Steps(base, ops + [e]) && Covered(Step(m, e)) && ShortStrings(Step(m, e).rows)
  {
    hide Steps, EncodeLog, EncodeEntry, Covered, FilterAfter;
    EncodeLogOne(ops, e);
    StepsOne(base, ops, e);
    StepCovered(m, e);
  }
}
