/** The order of lists edited with compare-and-put loops (frontend/src/fe_server.cc:5448-5490, 5916-5930;
    frontend/src/handlers_mail.cc:156-213): where an edit puts its item, what it does to the order of the
    others, which items a limit cuts off, and what that makes of a whole log of edits. */
module CasOrder {
  import opened Csv
  import opened Listing
  import opened Cas

  /** a stands somewhere before b. */
  ghost predicate Before(items: Items, a: string, b: string) {
    exists i, j :: 0 <= i < j < |items| && items[i] == a && items[j] == b
  }

  // ----- taking out and cutting off -----

  lemma BeforeFront(items: Items, x: string, a: string, b: string)
    ensures Before([x] + items, a, b) <==> Before(items, a, b) || (a == x && b in items)
  {
    var all := [x] + items;
    if i, j :| 0 <= i < j < |items| && items[i] == a && items[j] == b {
      assert all[i + 1] == a && all[j + 1] == b;
    }
    if a == x && b in items {
      var j :| 0 <= j < |items| && items[j] == b;
      assert all[0] == a && all[j + 1] == b;
    }
    if i, j :| 0 <= i < j < |all| && all[i] == a && all[j] == b {
      assert items[j - 1] == b;
      if i > 0 { assert items[i - 1] == a; }
    }
  }

  lemma BeforeBack(items: Items, x: string, a: string, b: string)
    ensures Before(items + [x], a, b) <==> Before(items, a, b) || (b == x && a in items)
  {
    var all := items + [x];
    if i, j :| 0 <= i < j < |items| && items[i] == a && items[j] == b {
      assert all[i] == a && all[j] == b;
    }
    if b == x && a in items {
      var i :| 0 <= i < |items| && items[i] == a;
      assert all[i] == a && all[|items|] == b;
    }
    if i, j :| 0 <= i < j < |all| && all[i] == a && all[j] == b {
      assert items[i] == a;
      if j < |items| { assert items[j] == b; }
    }
  }

  /** Taking an item out leaves the order of the others. */
  lemma {:induction false} WithoutOrder(items: Items, x: string, a: string, b: string)
    requires a != x && b != x
    ensures Before(Without(items, x), a, b) <==> Before(items, a, b)
  {
    hide Before;
    WithoutMembers(items, x);
    if items == [] {
      assert Without(items, x) == items;
    } else {
      assert items == [items[0]] + items[1..];
      WithoutMembers(items[1..], x);
      WithoutOrder(items[1..], x, a, b);
      BeforeFront(items[1..], items[0], a, b);
      BeforeFront(Without(items[1..], x), items[0], a, b);
      assert items[0] == x ==> Without(items, x) == Without(items[1..], x);
    }
  }

  /** In a list without duplicates the erase of one occurrence is that of all. */
  lemma {:induction false} WithoutFirstIs(items: Items, x: string)
    requires Distinct(items)
    ensures WithoutFirst(items, x) == Without(items, x)
  {
    if items != [] {
      assert Distinct(items[1..]);
      WithoutFirstIs(items[1..], x);
      WithoutMembers(items[1..], x);
    }
  }

  /** Items of a stretch stand in it as they stand in the list. */
  lemma StretchOrder(items: Items, lo: nat, hi: nat, a: string, b: string)
    requires Distinct(items) && lo <= hi <= |items| && a in items[lo..hi] && b in items[lo..hi]
    ensures Before(items[lo..hi], a, b) <==> Before(items, a, b)
  {
    var part := items[lo..hi];
    var i :| 0 <= i < |part| && part[i] == a;
    var j :| 0 <= j < |part| && part[j] == b;
    assert items[lo + i] == a && items[lo + j] == b;
  }

  // ----- one edit -----

  /** A new item at the back, which leaves an item that is there alone. */
  predicate Nothing(op: Op, items: Items) {
    op.Add? && !op.prepend && op.item in items
  }

  /** How many of the other items an edit keeps: all, or if there is a limit as many as fit beside the new one. */
  function Kept(op: Op, others: nat): nat {
    if op.Add? && op.max > 0 && others + 1 > op.max then op.max - 1 else others
  }

  /** An edit of a list without duplicates: the item in front, at the back or gone; of the others those nearest
      to it that fit, in their order. */
  lemma EditPlaces(op: Op, items: Items)
    requires Distinct(items) && !Nothing(op, items)
    ensures var others := Without(items, op.item);
            var n := Kept(op, |others|);
            EditItems(op, items) ==
            match op
            case Add(x, prepend, _) => if prepend then [x] + others[..n] else others[|others| - n..] + [x]
            case Push(x) => [x] + others
            case Remove(_) => others
  {
    hide Distinct, Without, WithoutFirst;
    WithoutMembers(items, op.item);
    if op.Add? {
      WithoutFirstIs(items, op.item);
    }
  }

  /** The item of an edit stands where it was asked to; two others that both stay keep their order; and what a
      limit cuts off is farther from the new item than everything that stays. */
  lemma EditOrder(op: Op, items: Items, a: string, b: string)
    requires Distinct(items)
    ensures var now := EditItems(op, items);
            && (op.Push? || (op.Add? && op.prepend) ==> now != [] && now[0] == op.item)
            && (op.Add? && !op.prepend && op.item !in items ==> now != [] && now[|now| - 1] == op.item)
            && (a != op.item && b != op.item && a in now && b in now ==> (Before(now, a, b) <==> Before(items, a, b)))
            && (a in items && a != op.item && a !in now && b in now && b != op.item ==>
                  (op.Add? && if op.prepend then Before(items, b, a) else Before(items, a, b)))
            && (op.Add? && op.max > 0 && !Nothing(op, items) ==>
                  |now| == if |Without(items, op.item)| + 1 > op.max then op.max else |Without(items, op.item)| + 1)
  {
    hide Distinct, Before, Without, WithoutFirst;
    var x, others := op.item, Without(items, op.item);
    WithoutMembers(items, x);
    if !Nothing(op, items) {
      EditPlaces(op, items);
      var n := Kept(op, |others|);
      var lo, hi := if op.Add? && !op.prepend then |others| - n else 0, if op.Add? && !op.prepend then |others| else n;
      var kept := others[lo..hi];
      assert kept == (if op.Add? && !op.prepend then others[|others| - n..] else others[..n]);
      assert n == |others| ==> kept == others;
      assert EditItems(op, items)
          == if op.Remove? then kept else if op.Add? && !op.prepend then kept + [x] else [x] + kept;
      if a != x && b != x {
        WithoutOrder(items, x, a, b);
        WithoutOrder(items, x, b, a);
        BeforeFront(kept, x, a, b);
        BeforeBack(kept, x, a, b);
        if a in kept && b in kept {
          StretchOrder(others, lo, hi, a, b);
        }
        if a in others && a !in kept && b in kept {
          CutOff(others, lo, hi, a, b);
        }
      }
    }
  }

  lemma InStretch(items: Items, lo: nat, hi: nat, i: nat)
    requires lo <= i < hi <= |items|
    ensures items[i] in items[lo..hi]
  {
    assert items[lo..hi][i - lo] == items[i];
  }

  /** Outside a stretch at the front one stands behind it, outside one at the back before it. */
  lemma CutOff(items: Items, lo: nat, hi: nat, a: string, b: string)
    requires lo <= hi <= |items| && a in items && a !in items[lo..hi] && b in items[lo..hi]
    ensures lo == 0 ==> Before(items, b, a)
    ensures hi == |items| ==> Before(items, a, b)
  {
    var i :| 0 <= i < |items| && items[i] == a;
    var j :| 0 <= j < |items[lo..hi]| && items[lo..hi][j] == b;
    assert items[lo + j] == b;
    if lo <= i < hi {
      InStretch(items, lo, hi, i);
      assert false;
    }
  }

  // ----- a log of edits -----

  predicate ToFront(op: Op) {
    op.Push? || (op.Add? && op.prepend)
  }

  /** What was put in front last stands before everything put in earlier: with no later edit of either item, x
      is before any other item that is still there. */
  lemma {:induction false} LaterStandsBefore(start: string, log: seq<Op>, k: nat, x: string, y: string)
    requires PlainLog(log) && Distinct(Split(start)) && k < |log| && ToFront(log[k]) && log[k].item == x && x != y
    requires forall j :: k < j < |log| ==> log[j].item != x && log[j].item != y
    ensures var items := Split(Fold(start, log));
            && (k == |log| - 1 ==> items != [] && items[0] == x)
            && (x in items && y in items ==> Before(items, x, y))
    decreases |log|
  {
    hide EditText, EditItems, Split, Distinct, Fold, Before;
    var init, op := log[..|log| - 1], log[|log| - 1];
    assert log == init + [op];
    FoldOneMore(start, init, op);
    FoldDistinct(start, init);
    FoldDistinct(start, log);
    EditSplit(op, Fold(start, init));
    var before, items := Split(Fold(start, init)), Split(Fold(start, log));
    EditOrder(op, before, x, y);
    if k == |log| - 1 {
      if y in items {
        FirstIsBefore(items, y);
      }
    } else {
      LaterStandsBefore(start, init, k, x, y);
      EditAddsOnly(op, before);
    }
  }

  lemma FirstIsBefore(items: Items, y: string)
    requires items != [] && y in items && y != items[0]
    ensures Before(items, items[0], y)
  {
    var j :| 0 <= j < |items| && items[j] == y;
  }

  /** No edit brings in anything but its item. */
  lemma EditAddsOnly(op: Op, items: Items)
    ensures forall y :: y in EditItems(op, items) ==> y == op.item || y in items
  {
    hide Without, WithoutFirst;
    WithoutMembers(items, op.item);
    WithoutFirstMembers(items, op.item);
  }
}
