/** Which tablet a row belongs to, for the coordinator (coordinator/src/coordinator.cc:1209-1231) and for
    a server that hosts some of the tablets (kvstore/src/server.cc:22-28, 136-141). */
module Routing {
  import opened Bytes
  import opened Nodes

  /** std::string's `<`: byte by byte, a proper prefix first. */
  predicate Less(a: Data, b: Data) {
    b != [] && (a == [] || a[0] < b[0] || (a[0] == b[0] && Less(a[1..], b[1..])))
  }

  predicate Covers(start: Data, end: Data, row: Data) {
    (start == [] || !Less(row, start)) && (end == [] || Less(row, end))
  }

  predicate Holds(t: TabletGroup, row: Data) {
    Covers(t.rowStart, t.rowEnd, row)
  }

  /** The index of the first tablet whose range has the row, or the number of tablets. */
  function FirstHolding(ts: seq<TabletGroup>, row: Data): (i: nat)
    ensures i <= |ts| && (i < |ts| ==> Holds(ts[i], row))
    ensures forall j :: 0 <= j < i ==> !Holds(ts[j], row)
  {
    if ts == [] then 0
    else if Holds(ts[0], row) then 0
    else
      var rest := FirstHolding(ts[1..], row);
      assert forall j :: 0 < j < 1 + rest ==> ts[j] == ts[1..][j - 1];
      1 + rest
  }

  lemma FirstIs(ts: seq<TabletGroup>, row: Data, i: nat)
    requires i <= |ts| && (i < |ts| ==> Holds(ts[i], row))
    requires forall j :: 0 <= j < i ==> !Holds(ts[j], row)
    ensures FirstHolding(ts, row) == i
  {
    if FirstHolding(ts, row) < i {
      assert false;
    }
  }

  /** `find_tablet`. */
  method FindTablet(tablets: seq<TabletGroup>, row: Data) returns (i: Option<nat>)
    ensures i == if FirstHolding(tablets, row) < |tablets| then Some(FirstHolding(tablets, row)) else None
  {
    for k := 0 to |tablets|
      invariant forall j :: 0 <= j < k ==> !Holds(tablets[j], row)
    {
      var t := tablets[k];
      var afterStart := t.rowStart == [] || !Less(row, t.rowStart);
      var beforeEnd := t.rowEnd == [] || Less(row, t.rowEnd);
      if afterStart && beforeEnd {
        FirstIs(tablets, row, k);
        return Some(k);
      }
    }
    FirstIs(tablets, row, |tablets|);
    i := None;
  }

  method RowInRange(row: Data, start: Data, end: Data) returns (r: bool)
    ensures r == Covers(start, end, row)
  {
    if start != [] && Less(row, start) { return false; }
    if end != [] && !Less(row, end) { return false; }
    r := true;
  }

  /** `find_hosted_for_row`. */
  method FindHosted(hosted: seq<TabletGroup>, row: Data) returns (t: Option<TabletGroup>)
    ensures t == if FirstHolding(hosted, row) < |hosted| then Some(hosted[FirstHolding(hosted, row)]) else None
  {
    for k := 0 to |hosted|
      invariant forall j :: 0 <= j < k ==> !Holds(hosted[j], row)
    {
      var inside := RowInRange(row, hosted[k].rowStart, hosted[k].rowEnd);
      if inside {
        FirstIs(hosted, row, k);
        return Some(hosted[k]);
      }
    }
    FirstIs(hosted, row, |hosted|);
    t := None;
  }

  // ----- the byte order -----

  lemma {:induction false} LessTransitive(a: Data, b: Data, c: Data)
    requires Less(a, b) && Less(b, c)
    ensures Less(a, c)
  {
    if a != [] && a[0] == b[0] && b[0] == c[0] {
      LessTransitive(a[1..], b[1..], c[1..]);
    }
  }

  lemma WholePrefix(a: Data, b: Data)
    requires a != [] && |a| <= |b| && a == b[..|a|]
    ensures a[0] == b[0]
  {
  }

  lemma SameFirst(a: Data, b: Data, k: nat)
    requires 0 < k <= |a| && k <= |b| && a[..k] == b[..k]
    ensures a[0] == b[0]
  {
    assert a[..k][0] == b[..k][0];
  }

  /** The order is that of bytes: the first position at which two rows differ decides, and a proper prefix comes
      first. */
  lemma {:induction false} LessIsByteOrder(a: Data, b: Data)
    ensures Less(a, b) <==>
            || (|a| < |b| && a == b[..|a|])
            || (exists k :: 0 <= k < |a| && k < |b| && a[..k] == b[..k] && a[k] < b[k])
  {
    if a != [] && b != [] && a[0] == b[0] {
      LessIsByteOrder(a[1..], b[1..]);
      if k :| 0 <= k < |a[1..]| && k < |b[1..]| && a[1..][..k] == b[1..][..k] && a[1..][k] < b[1..][k] {
        assert a[..k + 1] == [a[0]] + a[1..][..k] && b[..k + 1] == [b[0]] + b[1..][..k];
        assert a[k + 1] < b[k + 1];
      }
      if k :| 0 <= k < |a| && k < |b| && a[..k] == b[..k] && a[k] < b[k] {
        assert a[1..][..k - 1] == a[..k][1..] && b[1..][..k - 1] == b[..k][1..];
        assert a[1..][k - 1] < b[1..][k - 1];
      }
      assert a == [a[0]] + a[1..];
      if |a| < |b| {
        assert b[..|a|] == [b[0]] + b[1..][..|a| - 1];
      }
    } else if a != [] && b != [] {
      if k :| 0 <= k < |a| && k < |b| && a[..k] == b[..k] && a[k] < b[k] {
        if k > 0 {
          SameFirst(a, b, k);
          assert false;
        }
      }
      if a[0] < b[0] { assert a[..0] == b[..0]; }
      if |a| < |b| && a == b[..|a|] {
        WholePrefix(a, b);
        assert false;
      }
    }
  }

  // ----- a chained list of tablets partitions the rows -----

  /** Each range ends where the next one starts, boundaries grow, and the last end is open. */
  ghost predicate Chained(ts: seq<TabletGroup>) {
    && ts != [] && ts[|ts| - 1].rowEnd == []
    && forall i :: 0 <= i < |ts| - 1 ==> ts[i].rowEnd == ts[i + 1].rowStart && Less(ts[i].rowStart, ts[i].rowEnd)
  }

  lemma {:induction false} StartsGrow(ts: seq<TabletGroup>, i: nat, j: nat)
    requires Chained(ts) && i < j < |ts|
    ensures Less(ts[i].rowStart, ts[j].rowStart)
    decreases j
  {
    hide Less;
    assert ts[j - 1].rowEnd == ts[j].rowStart && Less(ts[j - 1].rowStart, ts[j].rowStart);
    if i < j - 1 {
      StartsGrow(ts, i, j - 1);
      LessTransitive(ts[i].rowStart, ts[j - 1].rowStart, ts[j].rowStart);
    }
  }

  lemma NothingBelowEmpty(a: Data)
    ensures !Less(a, [])
  {
  }

  lemma Disjoint(ts: seq<TabletGroup>, i: nat, j: nat, row: Data)
    requires Chained(ts) && i < j < |ts| && Holds(ts[i], row)
    ensures !Holds(ts[j], row)
  {
    hide Less;
    NothingBelowEmpty(ts[i].rowStart);
    StartsGrow(ts, i, j);
    NothingBelowEmpty(ts[j - 1].rowStart);
    assert ts[i].rowEnd == ts[i + 1].rowStart && Less(ts[i].rowStart, ts[i].rowEnd);
    if i + 1 < j {
      StartsGrow(ts, i + 1, j);
      LessTransitive(row, ts[i + 1].rowStart, ts[j].rowStart);
    }
  }

  lemma {:induction false} SomeHolder(ts: seq<TabletGroup>, n: nat, row: Data) returns (i: nat)
    requires Chained(ts) && n < |ts| && !Less(row, ts[n].rowStart)
    ensures n <= i < |ts| && Holds(ts[i], row)
    decreases |ts| - n
  {
    hide Less;
    if Holds(ts[n], row) {
      i := n;
    } else {
      assert ts[n].rowEnd == ts[n + 1].rowStart;
      i := SomeHolder(ts, n + 1, row);
    }
  }

  lemma {:induction false} NoHolderBelow(ts: seq<TabletGroup>, row: Data, i: nat)
    requires Chained(ts) && Less(row, ts[0].rowStart) && i < |ts|
    ensures !Holds(ts[i], row)
  {
    hide Less;
    NothingBelowEmpty(row);
    if i > 0 {
      StartsGrow(ts, 0, i);
      LessTransitive(row, ts[0].rowStart, ts[i].rowStart);
      NothingBelowEmpty(row);
    }
  }

  /** A row belongs to exactly one tablet when it is at or above the first start, and to none below it. */
  lemma ExactlyOneTablet(ts: seq<TabletGroup>, row: Data)
    requires Chained(ts)
    ensures !Less(row, ts[0].rowStart) <==> exists i :: 0 <= i < |ts| && Holds(ts[i], row)
    ensures forall i, j :: 0 <= i < |ts| && 0 <= j < |ts| && Holds(ts[i], row) && Holds(ts[j], row) ==> i == j
  {
    hide Less, Holds;
    if !Less(row, ts[0].rowStart) {
      var i := SomeHolder(ts, 0, row);
    } else {
      forall i | 0 <= i < |ts|
        ensures !Holds(ts[i], row)
      {
        NoHolderBelow(ts, row, i);
      }
    }
    forall i, j | 0 <= i < |ts| && 0 <= j < |ts| && Holds(ts[i], row) && Holds(ts[j], row)
      ensures i == j
    {
      if i < j {
        Disjoint(ts, i, j, row);
      } else if j < i {
        Disjoint(ts, j, i, row);
      }
    }
  }

  /** The coordinator and a server with any of the tablets, in any order, agree: the server finds the
      coordinator's tablet if it hosts it, and otherwise finds none. */
  lemma SameTablet(ts: seq<TabletGroup>, hosted: seq<TabletGroup>, row: Data)
    requires Chained(ts) && forall h | h in hosted :: h in ts
    ensures var i := FirstHolding(ts, row);
            var h := FirstHolding(hosted, row);
            if i < |ts| && ts[i] in hosted then h < |hosted| && hosted[h] == ts[i] else h == |hosted|
  {
    hide Less, Holds, Chained;
    var i, h := FirstHolding(ts, row), FirstHolding(hosted, row);
    ExactlyOneTablet(ts, row);
    if h < |hosted| {
      assert hosted[h] in hosted;
      var k :| 0 <= k < |ts| && ts[k] == hosted[h];
      assert Holds(ts[k], row);
      assert k == i;
    }
    if i < |ts| && ts[i] in hosted {
      var k :| 0 <= k < |hosted| && hosted[k] == ts[i];
      assert Holds(hosted[k], row);
    }
  }
}
