/** The row section shared by checkpoint files and snapshot blobs (kvstore/src/tablet.cc:442-455,
    522-550, 671-682, 697-716):

      per row:    u32 key length | key | u32 number of columns | columns
      per column: u32 name length | name | u32 value length | value

    Rows and columns come from hash maps, so they are written in no particular order: a section is
    described by a listing, a sequence that names every row and column once.
 */
module RowCodec {
  import opened Bytes
  import opened Table

  datatype Read<+T> = Short | Took(value: T, next: nat)
  datatype RowImage = RowImage(key: Data, cols: seq<(Data, Data)>)

  // ----- writing -----

  function EncodeStr(s: Data): (b: Data)
    ensures |b| == 4 + |s|
  {
    PutU32(|s|) + s
  }

  function EncodeCols(cols: seq<(Data, Data)>): Data {
    if cols == [] then []
    else EncodeStr(cols[0].0) + (EncodeStr(cols[0].1) + EncodeCols(cols[1..]))
  }

  function EncodeRow(r: RowImage): Data {
    EncodeStr(r.key) + (PutU32(|r.cols|) + EncodeCols(r.cols))
  }

  function EncodeRows(rs: seq<RowImage>): Data {
    if rs == [] then [] else EncodeRow(rs[0]) + EncodeRows(rs[1..])
  }

  // ----- reading -----

  function StrAt(b: Data, off: nat): (s: Read<Data>)
    ensures s.Took? ==> off + 4 <= s.next <= |b| && |s.value| < U32
  {
    if off + 4 > |b| || off + 4 + U32At(b, off) > |b| then Short
    else Took(b[off + 4..off + 4 + U32At(b, off)], off + 4 + U32At(b, off))
  }

  function ColsAt(b: Data, off: nat, n: nat): (c: Read<seq<(Data, Data)>>)
    requires off <= |b|
    ensures c.Took? ==> off <= c.next <= |b| && |c.value| == n
    decreases n
  {
    if n == 0 then Took([], off)
    else
      match StrAt(b, off)
      case Short => Short
      case Took(name, o1) =>
        match StrAt(b, o1)
        case Short => Short
        case Took(val, o2) =>
          match ColsAt(b, o2, n - 1)
          case Short => Short
          case Took(rest, o3) => Took([(name, val)] + rest, o3)
  }

  function RowAt(b: Data, off: nat): (r: Read<RowImage>)
    ensures r.Took? ==> off <= r.next <= |b|
  {
    match StrAt(b, off)
    case Short => Short
    case Took(key, o1) =>
      if o1 + 4 > |b| then Short
      else
        match ColsAt(b, o1 + 4, U32At(b, o1))
        case Short => Short
        case Took(cols, o2) => Took(RowImage(key, cols), o2)
  }

  function RowsAt(b: Data, off: nat, n: nat): (r: Read<seq<RowImage>>)
    requires off <= |b|
    ensures r.Took? ==> off <= r.next <= |b| && |r.value| == n
    decreases n
  {
    if n == 0 then Took([], off)
    else
      match RowAt(b, off)
      case Short => Short
      case Took(row, o1) =>
        match RowsAt(b, o1, n - 1)
        case Short => Short
        case Took(rest, o2) => Took([row] + rest, o2)
  }

  // ----- round trip on listings -----

  predicate FitsCols(cols: seq<(Data, Data)>) {
    forall i :: 0 <= i < |cols| ==> |cols[i].0| < U32 && |cols[i].1| < U32
  }

  predicate FitsRow(r: RowImage) {
    |r.key| < U32 && |r.cols| < U32 && FitsCols(r.cols)
  }

  predicate FitsRows(rs: seq<RowImage>) {
    forall i :: 0 <= i < |rs| ==> FitsRow(rs[i])
  }

  lemma StrRoundTrip(b: Data, off: nat, s: Data)
    requires HasAt(b, off, EncodeStr(s)) && |s| < U32
    ensures StrAt(b, off) == Took(s, off + 4 + |s|)
  {
    HasAtSplit(b, off, PutU32(|s|), s);
    U32RoundTrip(b, off, |s|);
    Small32(|s|);
  }

  lemma ColsFound(b: Data, off: nat, name: Data, o1: nat, val: Data, o2: nat, rest: seq<(Data, Data)>, o3: nat)
    requires off <= |b| && StrAt(b, off) == Took(name, o1) && StrAt(b, o1) == Took(val, o2)
    requires ColsAt(b, o2, |rest|) == Took(rest, o3)
    ensures ColsAt(b, off, 1 + |rest|) == Took([(name, val)] + rest, o3)
  {
    hide StrAt;
  }

  lemma InBounds(b: Data, off: nat, part: Data)
    requires HasAt(b, off, part)
    ensures off + |part| <= |b|
  {
  }

  lemma NoColsYet(b: Data, off: nat)
    requires off <= |b|
    ensures ColsAt(b, off, 0) == Took([], off) && ColsMap([]) == map[]
  {
  }

  lemma NoRowsYet(b: Data, off: nat)
    requires off <= |b|
    ensures RowsAt(b, off, 0) == Took([], off)
  {
  }

  lemma {:induction false} ColsRoundTrip(b: Data, off: nat, cols: seq<(Data, Data)>)
    requires HasAt(b, off, EncodeCols(cols)) && FitsCols(cols)
    ensures ColsAt(b, off, |cols|) == Took(cols, off + |EncodeCols(cols)|)
    decreases |cols|
  {
    hide HasAt, StrAt, EncodeStr, ColsAt;
    if cols == [] {
      InBounds(b, off, EncodeCols(cols));
      NoColsYet(b, off);
    } else {
      var name, val, rest := cols[0].0, cols[0].1, cols[1..];
      var o1 := off + 4 + |name|;
      var o2 := o1 + 4 + |val|;
      HasAtSplit(b, off, EncodeStr(name), EncodeStr(val) + EncodeCols(rest));
      HasAtSplit(b, o1, EncodeStr(val), EncodeCols(rest));
      StrRoundTrip(b, off, name);
      StrRoundTrip(b, o1, val);
      ColsRoundTrip(b, o2, rest);
      ColsFound(b, off, name, o1, val, o2, rest, o2 + |EncodeCols(rest)|);
      assert [(name, val)] + rest == cols;
    }
  }

  lemma RowRoundTrip(b: Data, off: nat, r: RowImage)
    requires HasAt(b, off, EncodeRow(r)) && FitsRow(r)
    ensures RowAt(b, off) == Took(r, off + |EncodeRow(r)|)
  {
    hide HasAt, StrAt, EncodeStr, U32At, PutU32;
    HasAtSplit(b, off, EncodeStr(r.key), PutU32(|r.cols|) + EncodeCols(r.cols));
    StrRoundTrip(b, off, r.key);
    var at := off + 4 + |r.key|;
    HasAtSplit(b, at, PutU32(|r.cols|), EncodeCols(r.cols));
    U32RoundTrip(b, at, |r.cols|);
    Small32(|r.cols|);
    ColsRoundTrip(b, at + 4, r.cols);
  }

  lemma RowsFound(b: Data, off: nat, r: RowImage, o1: nat, rest: seq<RowImage>, o2: nat)
    requires off <= |b| && RowAt(b, off) == Took(r, o1)
    requires RowsAt(b, o1, |rest|) == Took(rest, o2)
    ensures RowsAt(b, off, 1 + |rest|) == Took([r] + rest, o2)
  {
    hide RowAt;
  }

  lemma {:induction false} RowsRoundTrip(b: Data, off: nat, rs: seq<RowImage>)
    requires HasAt(b, off, EncodeRows(rs)) && FitsRows(rs)
    ensures RowsAt(b, off, |rs|) == Took(rs, off + |EncodeRows(rs)|)
    decreases |rs|
  {
    hide HasAt, RowAt, EncodeRow, FitsRow, RowsAt;
    if rs == [] {
      InBounds(b, off, EncodeRows(rs));
      NoRowsYet(b, off);
    } else {
      var r, rest := rs[0], rs[1..];
      var o1 := off + |EncodeRow(r)|;
      assert [r] + rest == rs;
      HasAtSplit(b, off, EncodeRow(r), EncodeRows(rest));
      RowRoundTrip(b, off, r);
      RowsRoundTrip(b, o1, rest);
      RowsFound(b, off, r, o1, rest, o1 + |EncodeRows(rest)|);
    }
  }

  // ----- listings and maps -----

  /** `rd->cols[ckey] = val` for each column read: a later column replaces an earlier one. */
  function ColsMap(cols: seq<(Data, Data)>): Row {
    if cols == [] then map[]
    else ColsMap(cols[..|cols| - 1])[cols[|cols| - 1].0 := cols[|cols| - 1].1]
  }

  /** `rows_[row] = rd`, as a checkpoint is loaded: a later row replaces an earlier one. */
  function RowsReplacing(rs: seq<RowImage>): Rows {
    if rs == [] then map[]
    else RowsReplacing(rs[..|rs| - 1])[rs[|rs| - 1].key := ColsMap(rs[|rs| - 1].cols)]
  }

  /** `new_rows.emplace(rkey, rd)`, as a snapshot is loaded: an earlier row stays. */
  function RowsKeeping(rs: seq<RowImage>): Rows {
    if rs == [] then map[]
    else
      var t, r := RowsKeeping(rs[..|rs| - 1]), rs[|rs| - 1];
      if r.key in t then t else t[r.key := ColsMap(r.cols)]
  }

  /** The listing names each column of `done` once, with its value. */
  predicate ListsSome(row: Row, cols: seq<(Data, Data)>, done: set<Data>) {
    && |cols| == |done| && Names(cols) == done <= row.Keys
    && (forall i :: 0 <= i < |cols| ==> cols[i].0 in row && row[cols[i].0] == cols[i].1)
    && (forall i, j :: 0 <= i < j < |cols| ==> cols[i].0 != cols[j].0)
  }

  predicate ListsCols(row: Row, cols: seq<(Data, Data)>) {
    ListsSome(row, cols, row.Keys)
  }

  predicate ListsSomeRows(t: Rows, rs: seq<RowImage>, done: set<Data>) {
    && |rs| == |done| && Keys(rs) == done <= t.Keys
    && (forall i :: 0 <= i < |rs| ==> rs[i].key in t && ListsCols(t[rs[i].key], rs[i].cols))
    && (forall i, j :: 0 <= i < j < |rs| ==> rs[i].key != rs[j].key)
  }

  predicate ListsRows(t: Rows, rs: seq<RowImage>) {
    ListsSomeRows(t, rs, t.Keys)
  }

  lemma ListOneMore(row: Row, cols: seq<(Data, Data)>, done: set<Data>, name: Data)
    requires ListsSome(row, cols, done) && name in row && name !in done
    ensures ListsSome(row, cols + [(name, row[name])], done + {name})
  {
    NamesOne(cols, (name, row[name]));
    assert forall i :: 0 <= i < |cols| ==> cols[i].0 in Names(cols);
  }

  lemma ListOneMoreRow(t: Rows, rs: seq<RowImage>, done: set<Data>, r: RowImage)
    requires ListsSomeRows(t, rs, done) && r.key in t && r.key !in done && ListsCols(t[r.key], r.cols)
    ensures ListsSomeRows(t, rs + [r], done + {r.key})
  {
    hide ListsCols;
    KeysOne(rs, r);
    assert forall i :: 0 <= i < |rs| ==> rs[i].key in Keys(rs);
  }

  function Names(cols: seq<(Data, Data)>): set<Data> {
    set i | 0 <= i < |cols| :: cols[i].0
  }

  function Keys(rs: seq<RowImage>): set<Data> {
    set i | 0 <= i < |rs| :: rs[i].key
  }

  lemma NamesOne(cols: seq<(Data, Data)>, c: (Data, Data))
    ensures Names(cols + [c]) == Names(cols) + {c.0}
  {
    assert (cols + [c])[|cols|] == c;
    assert forall i :: 0 <= i < |cols| ==> (cols + [c])[i] == cols[i];
  }

  lemma KeysOne(rs: seq<RowImage>, r: RowImage)
    ensures Keys(rs + [r]) == Keys(rs) + {r.key}
  {
    assert (rs + [r])[|rs|] == r;
    assert forall i :: 0 <= i < |rs| ==> (rs + [r])[i] == rs[i];
  }

  lemma {:induction false} ColsMapReads(cols: seq<(Data, Data)>)
    requires forall i, j :: 0 <= i < j < |cols| ==> cols[i].0 != cols[j].0
    ensures forall i :: 0 <= i < |cols| ==> cols[i].0 in ColsMap(cols) && ColsMap(cols)[cols[i].0] == cols[i].1
    ensures ColsMap(cols).Keys == Names(cols)
  {
    if cols != [] {
      var init := cols[..|cols| - 1];
      ColsMapReads(init);
      NamesOne(init, cols[|cols| - 1]);
      assert cols == init + [cols[|cols| - 1]];
    }
  }

  lemma ListedCols(row: Row, cols: seq<(Data, Data)>)
    requires ListsCols(row, cols)
    ensures ColsMap(cols) == row
  {
    ColsMapReads(cols);
  }

  lemma {:induction false} DistinctRowsReads(rs: seq<RowImage>)
    requires forall i, j :: 0 <= i < j < |rs| ==> rs[i].key != rs[j].key
    ensures RowsKeeping(rs) == RowsReplacing(rs)
    ensures forall i :: 0 <= i < |rs| ==>
              rs[i].key in RowsReplacing(rs) && RowsReplacing(rs)[rs[i].key] == ColsMap(rs[i].cols)
    ensures RowsReplacing(rs).Keys == Keys(rs)
  {
    hide ColsMap;
    if rs != [] {
      var init, last := rs[..|rs| - 1], rs[|rs| - 1];
      assert rs == init + [last];
      KeysOne(init, last);
      DistinctRowsReads(init);
      assert last.key !in Keys(init);
    }
  }

  lemma ListedApart(t: Rows, rs: seq<RowImage>)
    requires ListsRows(t, rs)
    ensures Keys(rs) == t.Keys
    ensures forall i, j :: 0 <= i < j < |rs| ==> rs[i].key != rs[j].key
    ensures forall i :: 0 <= i < |rs| ==> rs[i].key in t && ListsCols(t[rs[i].key], rs[i].cols)
  {
    hide ListsCols;
  }

  lemma ListedIn(t: Rows, rs: seq<RowImage>, k: Data)
    requires Keys(rs) == t.Keys && k in t
    ensures exists i :: 0 <= i < |rs| && rs[i].key == k
  {
    assert k in Keys(rs);
  }

  /** However a listing of a table is ordered, both ways of loading it rebuild the table. */
  lemma ListedRows(t: Rows, rs: seq<RowImage>)
    requires ListsRows(t, rs)
    ensures RowsReplacing(rs) == t && RowsKeeping(rs) == t
  {
    hide ListsSomeRows, ListsCols, ColsMap, RowsReplacing, RowsKeeping, Keys;
    ListedApart(t, rs);
    DistinctRowsReads(rs);
    forall k | k in t
      ensures k in RowsReplacing(rs) && RowsReplacing(rs)[k] == t[k]
    {
      ListedIn(t, rs, k);
      var i :| 0 <= i < |rs| && rs[i].key == k;
      ListedCols(t[k], rs[i].cols);
    }
    assert RowsReplacing(rs).Keys == t.Keys;
    assert RowsReplacing(rs) == t;
  }

  /** The lengths and counts the 32-bit fields of the format have to carry. */
  predicate FitsTable(t: Rows) {
    |t| < U32 && ShortStrings(t) && forall k :: k in t ==> |t[k]| < U32
  }

  predicate ShortStrings(t: Rows) {
    forall k :: k in t ==> |k| < U32 && forall c :: c in t[k] ==> |c| < U32 && |t[k][c]| < U32
  }

  lemma ListedFits(t: Rows, rs: seq<RowImage>)
    requires ListsRows(t, rs) && FitsTable(t)
    ensures FitsRows(rs)
  {
    forall i | 0 <= i < |rs|
      ensures FitsRow(rs[i])
    {
      assert ListsCols(t[rs[i].key], rs[i].cols);
    }
  }

  lemma ListedCount(t: Rows, rs: seq<RowImage>)
    requires ListsRows(t, rs)
    ensures |rs| == |t|
  {
  }

  // ----- what was read fits -----

  lemma {:induction false} ColsMapFits(cols: seq<(Data, Data)>)
    requires FitsCols(cols)
    ensures |ColsMap(cols)| <= |cols|
    ensures forall c :: c in ColsMap(cols) ==> |c| < U32 && |ColsMap(cols)[c]| < U32
  {
    if cols != [] {
      ColsMapFits(cols[..|cols| - 1]);
    }
  }

  /** A table is fit row by row. */
  predicate FitsEach(t: Rows) {
    ShortStrings(t) && forall k :: k in t ==> |t[k]| < U32
  }

  lemma FitsEachWith(t: Rows, r: RowImage)
    requires FitsEach(t) && FitsRow(r)
    ensures FitsEach(t[r.key := ColsMap(r.cols)])
  {
    hide ColsMap, FitsCols;
    ColsMapFits(r.cols);
  }

  lemma OneRowMore(t: Rows, key: Data, row: Row)
    ensures |t[key := row]| <= |t| + 1
  {
    assert t[key := row].Keys == t.Keys + {key};
    assert |t[key := row]| == |t[key := row].Keys| && |t| == |t.Keys|;
  }

  lemma {:induction false} KeepingFits(rs: seq<RowImage>)
    requires FitsRows(rs)
    ensures FitsEach(RowsKeeping(rs)) && |RowsKeeping(rs)| <= |rs|
  {
    hide ColsMap, FitsEach, FitsRow;
    if rs == [] {
      NoRowsFit();
    } else {
      var init, last := rs[..|rs| - 1], rs[|rs| - 1];
      KeepingFits(init);
      FitsEachWith(RowsKeeping(init), last);
      OneRowMore(RowsKeeping(init), last.key, ColsMap(last.cols));
    }
  }

  lemma {:induction false} ReplacingFits(rs: seq<RowImage>)
    requires FitsRows(rs)
    ensures FitsEach(RowsReplacing(rs)) && |RowsReplacing(rs)| <= |rs|
  {
    hide ColsMap, FitsEach, FitsRow;
    if rs == [] {
      NoRowsFit();
    } else {
      var init, last := rs[..|rs| - 1], rs[|rs| - 1];
      ReplacingFits(init);
      FitsEachWith(RowsReplacing(init), last);
      OneRowMore(RowsReplacing(init), last.key, ColsMap(last.cols));
    }
  }

  lemma NoRowsFit()
    ensures FitsEach(map[])
  {
  }

  // ----- the loops of the source -----

  lemma {:induction false} EncodeColsOne(cols: seq<(Data, Data)>, c: (Data, Data))
    ensures EncodeCols(cols + [c]) == EncodeCols(cols) + EncodeStr(c.0) + EncodeStr(c.1)
  {
    hide EncodeStr;
    if cols == [] {
      assert [] + [c] == [c];
    } else {
      assert (cols + [c])[1..] == cols[1..] + [c];
      EncodeColsOne(cols[1..], c);
    }
  }

  lemma {:induction false} EncodeRowsOne(rs: seq<RowImage>, r: RowImage)
    ensures EncodeRows(rs + [r]) == EncodeRows(rs) + EncodeRow(r)
  {
    if rs == [] {
      assert [] + [r] == [r];
    } else {
      assert (rs + [r])[1..] == rs[1..] + [r];
      EncodeRowsOne(rs[1..], r);
    }
  }

  lemma MoveOver(all: set<Data>, todo: set<Data>, x: Data)
    requires x in todo && todo <= all
    ensures all - todo + {x} == all - (todo - {x})
  {
  }

  method WriteCols(row: Row) returns (b: Data, ghost cols: seq<(Data, Data)>)
    ensures ListsCols(row, cols) && b == EncodeCols(cols)
  {
    b, cols := [], [];
    var todo := row.Keys;
    assert row.Keys - todo == {};
    hide ListsSome;
    while todo != {}
      invariant todo <= row.Keys
      invariant b == EncodeCols(cols)
      invariant ListsSome(row, cols, row.Keys - todo)
      decreases todo
    {
      var name :| name in todo;
      EncodeColsOne(cols, (name, row[name]));
      ListOneMore(row, cols, row.Keys - todo, name);
      MoveOver(row.Keys, todo, name);
      b := b + (PutU32(|name|) + name) + (PutU32(|row[name]|) + row[name]);
      cols := cols + [(name, row[name])];
      todo := todo - {name};
    }
    assert row.Keys - todo == row.Keys;
  }

  method WriteRow(key: Data, row: Row) returns (b: Data, ghost r: RowImage)
    ensures r.key == key && ListsCols(row, r.cols) && b == EncodeRow(r)
  {
    b := PutU32(|key|) + key;
    var body, cols := WriteCols(row);
    b := b + (PutU32(|row|) + body);
    r := RowImage(key, cols);
  }

  method WriteRows(t: Rows) returns (b: Data, ghost rs: seq<RowImage>)
    ensures ListsRows(t, rs) && b == EncodeRows(rs)
  {
    b, rs := [], [];
    var todo := t.Keys;
    assert t.Keys - todo == {};
    hide ListsSomeRows, ListsCols, EncodeRow;
    while todo != {}
      invariant todo <= t.Keys
      invariant b == EncodeRows(rs)
      invariant ListsSomeRows(t, rs, t.Keys - todo)
      decreases todo
    {
      var key :| key in todo;
      var part, r := WriteRow(key, t[key]);
      EncodeRowsOne(rs, r);
      ListOneMoreRow(t, rs, t.Keys - todo, r);
      MoveOver(t.Keys, todo, key);
      b := b + part;
      rs := rs + [r];
      todo := todo - {key};
    }
    assert t.Keys - todo == t.Keys;
  }

  method ReadStr(b: Data, off: nat) returns (s: Read<Data>)
    ensures s == StrAt(b, off)
  {
    if off + 4 > |b| { return Short; }
    var len := U32At(b, off);
    if off + 4 + len > |b| { return Short; }
    return Took(b[off + 4..off + 4 + len], off + 4 + len);
  }

  lemma {:induction false} ColsAtOne(b: Data, off: nat, n: nat)
    requires off <= |b|
    ensures ColsAt(b, off, n + 1) ==
            match ColsAt(b, off, n)
            case Short => Short
            case Took(cols, o1) =>
              match StrAt(b, o1)
              case Short => Short
              case Took(name, o2) =>
                match StrAt(b, o2)
                case Short => Short
                case Took(val, o3) => Took(cols + [(name, val)], o3)
    decreases n
  {
    hide StrAt;
    var name := StrAt(b, off);
    if name.Took? && StrAt(b, name.next).Took? {
      var val := StrAt(b, name.next);
      if n == 0 {
        assert ColsAt(b, val.next, 0) == Took([], val.next);
        assert [(name.value, val.value)] + [] == [] + [(name.value, val.value)];
      } else {
        ColsAtOne(b, val.next, n - 1);
        if ColsAt(b, val.next, n).Took? {
          var rest := ColsAt(b, val.next, n).value;
          assert [(name.value, val.value)] + (rest[..n - 1] + rest[n - 1..])
              == ([(name.value, val.value)] + rest[..n - 1]) + rest[n - 1..];
          assert rest[..n - 1] + rest[n - 1..] == rest;
        }
      }
    }
  }

  lemma {:induction false} RowsAtOne(b: Data, off: nat, n: nat)
    requires off <= |b|
    ensures RowsAt(b, off, n + 1) ==
            match RowsAt(b, off, n)
            case Short => Short
            case Took(rs, o1) =>
              match RowAt(b, o1)
              case Short => Short
              case Took(r, o2) => Took(rs + [r], o2)
    decreases n
  {
    hide RowAt;
    var row := RowAt(b, off);
    if row.Took? {
      if n == 0 {
        assert RowsAt(b, row.next, 0) == Took([], row.next);
        assert [row.value] + [] == [] + [row.value];
      } else {
        RowsAtOne(b, row.next, n - 1);
        if RowsAt(b, row.next, n).Took? {
          var rest := RowsAt(b, row.next, n).value;
          assert [row.value] + (rest[..n - 1] + rest[n - 1..]) == ([row.value] + rest[..n - 1]) + rest[n - 1..];
          assert rest[..n - 1] + rest[n - 1..] == rest;
        }
      }
    }
  }

  lemma {:induction false} ColsAtShort(b: Data, off: nat, n: nat, m: nat)
    requires off <= |b| && n <= m && ColsAt(b, off, n) == Short
    ensures ColsAt(b, off, m) == Short
    decreases m
  {
    hide ColsAt, StrAt;
    if n < m {
      ColsAtShort(b, off, n, m - 1);
      ColsAtOne(b, off, m - 1);
    }
  }

  lemma {:induction false} RowsAtShort(b: Data, off: nat, n: nat, m: nat)
    requires off <= |b| && n <= m && RowsAt(b, off, n) == Short
    ensures RowsAt(b, off, m) == Short
    decreases m
  {
    hide RowsAt, RowAt;
    if n < m {
      RowsAtShort(b, off, n, m - 1);
      RowsAtOne(b, off, m - 1);
    }
  }

  /** Reads n columns into a map, or stops at the first one that is cut off. */
  method ReadCols(b: Data, off: nat, n: nat) returns (row: Row, r: Read<seq<(Data, Data)>>)
    requires off <= |b|
    ensures r == ColsAt(b, off, n)
    ensures r.Took? ==> row == ColsMap(r.value)
  {
    hide StrAt, ColsAt, ColsMap;
    var at, cols := off, [];
    row := map[];
    NoColsYet(b, off);
    for j := 0 to n
      invariant off <= at <= |b|
      invariant ColsAt(b, off, j) == Took(cols, at)
      invariant row == ColsMap(cols)
    {
      ColsAtOne(b, off, j);
      var name := ReadStr(b, at);
      if name == Short { ColsAtShort(b, off, j + 1, n); return row, Short; }
      var val := ReadStr(b, name.next);
      if val == Short { ColsAtShort(b, off, j + 1, n); return row, Short; }
      row := row[name.value := val.value];
      ColsMapOne(cols, name.value, val.value);
      cols := cols + [(name.value, val.value)];
      at := val.next;
    }
    r := Took(cols, at);
  }

  lemma ColsMapOne(cols: seq<(Data, Data)>, name: Data, val: Data)
    ensures ColsMap(cols + [(name, val)]) == ColsMap(cols)[name := val]
  {
    assert (cols + [(name, val)])[..|cols|] == cols;
  }

  lemma {:induction false} ColsAtFits(b: Data, off: nat, n: nat)
    requires off <= |b| && ColsAt(b, off, n).Took?
    ensures FitsCols(ColsAt(b, off, n).value)
    decreases n
  {
    hide StrAt;
    if n > 0 {
      ColsAtFits(b, StrAt(b, StrAt(b, off).next).next, n - 1);
    }
  }

  lemma RowAtFits(b: Data, off: nat)
    requires RowAt(b, off).Took?
    ensures FitsRow(RowAt(b, off).value)
  {
    hide StrAt, FitsCols;
    var key := StrAt(b, off);
    ColsAtFits(b, key.next + 4, U32At(b, key.next));
  }

  /** What comes out of a file came through 32-bit fields, so it can be written again. */
  lemma {:induction false} RowsAtFits(b: Data, off: nat, n: nat)
    requires off <= |b| && RowsAt(b, off, n).Took?
    ensures FitsRows(RowsAt(b, off, n).value)
    decreases n
  {
    hide RowAt, FitsRow;
    if n > 0 {
      RowAtFits(b, off);
      RowsAtFits(b, RowAt(b, off).next, n - 1);
    }
  }
}
