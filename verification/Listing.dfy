/** Lists without duplicates and the erase-remove idiom on them; concatenation. */
module Listing {
  predicate Distinct(items: seq<string>) {
    forall i, j :: 0 <= i < j < |items| ==> items[i] != items[j]
  }

  function Without(items: seq<string>, x: string): seq<string> {
    if items == [] then []
    else (if items[0] == x then [] else [items[0]]) + Without(items[1..], x)
  }

  lemma {:induction false} WithoutMembers(items: seq<string>, x: string)
    ensures forall y :: y in Without(items, x) <==> y in items && y != x
    ensures Distinct(items) ==> Distinct(Without(items, x))
    ensures x !in items ==> Without(items, x) == items
  {
    if items != [] {
      WithoutMembers(items[1..], x);
      assert forall y :: y in items <==> y == items[0] || y in items[1..];
      if Distinct(items) {
        assert Distinct(items[1..]) && items[0] !in items[1..];
      }
    }
  }

  /** std::remove and erase. */
  method Erase(items: seq<string>, x: string) returns (out: seq<string>)
    ensures out == Without(items, x)
  {
    hide Without;
    out := [];
    assert items[0..] == items;
    for i := 0 to |items|
      invariant Without(items, x) == out + Without(items[i..], x)
    {
      WithoutFrom(items, x, i);
      if items[i] != x { out := out + [items[i]]; }
    }
    WithoutNone(items[|items|..], x);
  }

  lemma WithoutFrom(items: seq<string>, x: string, i: nat)
    requires i < |items|
    ensures Without(items[i..], x) == (if items[i] == x then [] else [items[i]]) + Without(items[i + 1..], x)
  {
    assert items[i..][0] == items[i] && items[i..][1..] == items[i + 1..];
  }

  lemma WithoutNone(items: seq<string>, x: string)
    requires items == []
    ensures Without(items, x) == []
  {
  }

  /** Nothing was erased exactly when the size stays. */
  lemma {:induction false} SameSizeMeansAbsent(items: seq<string>, x: string)
    ensures |Without(items, x)| <= |items|
    ensures |Without(items, x)| == |items| <==> x !in items
  {
    if items != [] {
      SameSizeMeansAbsent(items[1..], x);
      assert x in items <==> x == items[0] || x in items[1..];
    }
  }

  // ----- pieces put together -----

  function Concat<T>(pieces: seq<seq<T>>): seq<T> {
    if pieces == [] then [] else pieces[0] + Concat(pieces[1..])
  }

  lemma {:induction false} ConcatOneMore<T>(pieces: seq<seq<T>>, last: seq<T>)
    ensures Concat(pieces + [last]) == Concat(pieces) + last
  {
    if pieces == [] {
      assert [last][1..] == [];
    } else {
      assert (pieces + [last])[1..] == pieces[1..] + [last];
      ConcatOneMore(pieces[1..], last);
    }
  }
}
