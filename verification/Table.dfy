/** The table a tablet stores, and what a log of entries does to it.

    `rows_` is a map of rows, each a map of columns (kvstore/src/tablet.h:58-65, 147). A row stays in
    the map after its last column is erased. `Entry` is one record of the write-ahead log.
 */
module Table {
  import opened Bytes

  type Row = map<Data, Data>
  type Rows = map<Data, Row>

  const WAL_PUT: Byte := 1
  const WAL_DELETE: Byte := 2

  datatype Entry = Entry(code: Byte, row: Data, col: Data, val: Data)

  function PutEntry(row: Data, col: Data, val: Data): Entry {
    Entry(WAL_PUT, row, col, val)
  }

  function DeleteEntry(row: Data, col: Data): Entry {
    Entry(WAL_DELETE, row, col, [])
  }

  /** The effect of one entry: a put creates its row on demand, a delete never does, and an unknown
      operation code is counted but changes nothing (kvstore/src/tablet.cc:597-610). */
  function ApplyEntry(t: Rows, e: Entry): Rows {
    if e.code == WAL_PUT then
      t[e.row := (if e.row in t then t[e.row] else map[])[e.col := e.val]]
    else if e.code == WAL_DELETE && e.row in t then
      t[e.row := t[e.row] - {e.col}]
    else
      t
  }

  function Replay(t: Rows, es: seq<Entry>): Rows {
    if es == [] then t else ApplyEntry(Replay(t, es[..|es| - 1]), es[|es| - 1])
  }

  function Lookup(t: Rows, row: Data, col: Data): Option<Data> {
    if row in t && col in t[row] then Some(t[row][col]) else None
  }

  lemma ReplayOne(t: Rows, es: seq<Entry>, e: Entry)
    ensures Replay(t, es + [e]) == ApplyEntry(Replay(t, es), e)
  {
    assert (es + [e])[..|es|] == es;
  }

  lemma {:induction false} ReplayConcat(t: Rows, es: seq<Entry>, fs: seq<Entry>)
    ensures Replay(t, es + fs) == Replay(Replay(t, es), fs)
  {
    if fs == [] {
      assert es + fs == es;
    } else {
      var init := fs[..|fs| - 1];
      ReplayConcat(t, es, init);
      assert es + fs == (es + init) + [fs[|fs| - 1]];
      ReplayOne(t, es + init, fs[|fs| - 1]);
    }
  }

  /** What a log says about a cell: nothing, or the value it leaves there (`None` once deleted). */
  function LastTouch(es: seq<Entry>, row: Data, col: Data): Option<Option<Data>> {
    if es == [] then None
    else
      var e := es[|es| - 1];
      if e.row == row && e.col == col && e.code == WAL_PUT then Some(Some(e.val))
      else if e.row == row && e.col == col && e.code == WAL_DELETE then Some(None)
      else LastTouch(es[..|es| - 1], row, col)
  }

  function PutRows(es: seq<Entry>): set<Data> {
    set e | e in es && e.code == WAL_PUT :: e.row
  }

  lemma {:induction false} ReplayLookup(t: Rows, es: seq<Entry>, row: Data, col: Data)
    ensures Lookup(Replay(t, es), row, col) ==
            match LastTouch(es, row, col)
            case Some(v) => v
            case None => Lookup(t, row, col)
  {
    if es != [] {
      ReplayLookup(t, es[..|es| - 1], row, col);
    }
  }

  lemma {:induction false} ReplayKeys(t: Rows, es: seq<Entry>)
    ensures Replay(t, es).Keys == t.Keys + PutRows(es)
  {
    if es != [] {
      var init, e := es[..|es| - 1], es[|es| - 1];
      ReplayKeys(t, init);
      assert es == init + [e];
      assert PutRows(es) == PutRows(init) + (if e.code == WAL_PUT then {e.row} else {});
    }
  }

  /** Two tables are equal when they hold the same rows and every cell reads the same. */
  lemma SameReads(t: Rows, u: Rows)
    requires t.Keys == u.Keys
    requires forall row, col :: Lookup(t, row, col) == Lookup(u, row, col)
    ensures t == u
  {
    forall row | row in t
      ensures t[row] == u[row]
    {
      forall col
        ensures col in t[row] <==> col in u[row]
        ensures col in t[row] ==> t[row][col] == u[row][col]
      {
        assert Lookup(t, row, col) == Lookup(u, row, col);
      }
    }
  }

  /** Replaying a log a second time over its own result changes nothing: why a crash between the
      checkpoint's rename and the truncation of the log leaves the data right. */
  lemma ReplayIdempotent(t: Rows, es: seq<Entry>)
    ensures Replay(Replay(t, es), es) == Replay(t, es)
  {
    var once := Replay(t, es);
    var twice := Replay(once, es);
    ReplayKeys(t, es);
    ReplayKeys(once, es);
    forall row, col
      ensures Lookup(once, row, col) == Lookup(twice, row, col)
    {
      ReplayLookup(t, es, row, col);
      ReplayLookup(once, es, row, col);
    }
    SameReads(once, twice);
  }

  /** A log that says nothing new about a table: the rows it puts are there, and the last it says about a
      cell is what the cell holds. */
  ghost predicate SaysNothingNew(t: Rows, es: seq<Entry>) {
    && PutRows(es) <= t.Keys
    && forall row, col :: LastTouch(es, row, col).Some? ==> LastTouch(es, row, col).value == Lookup(t, row, col)
  }

  lemma ReplayChangesNothing(t: Rows, es: seq<Entry>)
    ensures Replay(t, es) == t <==> SaysNothingNew(t, es)
  {
    hide LastTouch, Lookup, Replay, PutRows;
    ReplayKeys(t, es);
    forall row, col
      ensures Lookup(Replay(t, es), row, col) ==
              match LastTouch(es, row, col)
              case Some(v) => v
              case None => Lookup(t, row, col)
    {
      ReplayLookup(t, es, row, col);
    }
    if SaysNothingNew(t, es) {
      assert t.Keys + PutRows(es) == t.Keys;
      SameReads(Replay(t, es), t);
    }
  }
}
