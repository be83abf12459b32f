/** Text cut at a separator, as std::getline cuts it, with empty tokens dropped; lists of items and paths
    are kept this way. */
module Tokens {
  type Items = seq<string>

  function Cut(s: string, sep: char): (k: nat)
    ensures k <= |s| && (k < |s| ==> s[k] == sep) && forall i :: 0 <= i < k ==> s[i] != sep
  {
    if s == [] || s[0] == sep then 0 else 1 + Cut(s[1..], sep)
  }

  function FirstToken(s: string, sep: char): Items {
    if Cut(s, sep) > 0 then [s[..Cut(s, sep)]] else []
  }

  function BehindToken(s: string, sep: char): (r: string)
    ensures s != [] ==> |r| < |s|
  {
    if Cut(s, sep) < |s| then s[Cut(s, sep) + 1..] else []
  }

  /** The tokens between separators. */
  function Split(s: string, sep: char): Items
    decreases |s|
  {
    if s == [] then [] else FirstToken(s, sep) + Split(BehindToken(s, sep), sep)
  }

  function Join(items: Items, sep: char): string {
    if items == [] then ""
    else if |items| == 1 then items[0]
    else items[0] + [sep] + Join(items[1..], sep)
  }

  lemma SplitStep(s: string, sep: char)
    requires s != []
    ensures Split(s, sep) == FirstToken(s, sep) + Split(BehindToken(s, sep), sep)
  {
  }

  lemma SplitNothing(sep: char)
    ensures Split([], sep) == []
  {
  }

  /** Separators in front do not matter. */
  lemma SplitLeading(s: string, sep: char)
    ensures Split([sep] + s, sep) == Split(s, sep)
  {
    hide Split;
    SplitStep([sep] + s, sep);
    assert ([sep] + s)[1..] == s;
  }

  method SplitText(s: string, sep: char) returns (out: Items)
    ensures out == Split(s, sep)
  {
    hide Split;
    out := [];
    var rest := s;
    while rest != []
      invariant Split(s, sep) == out + Split(rest, sep)
      decreases |rest|
    {
      SplitStep(rest, sep);
      assert out + (FirstToken(rest, sep) + Split(BehindToken(rest, sep), sep))
          == (out + FirstToken(rest, sep)) + Split(BehindToken(rest, sep), sep);
      var k := Cut(rest, sep);
      if k > 0 { out := out + [rest[..k]]; }
      rest := if k < |rest| then rest[k + 1..] else [];
    }
    SplitNothing(sep);
  }

  method JoinItems(items: Items, sep: char) returns (out: string)
    ensures out == Join(items, sep)
  {
    out := "";
    for i := 0 to |items|
      invariant out == Join(items[..i], sep)
    {
      JoinOneMore(items[..i], items[i], sep);
      assert items[..i + 1] == items[..i] + [items[i]];
      if i > 0 { out := out + [sep]; }
      out := out + items[i];
    }
    assert items[..|items|] == items;
  }

  lemma {:induction false} JoinOneMore(items: Items, x: string, sep: char)
    ensures Join(items + [x], sep) == if items == [] then x else Join(items, sep) + [sep] + x
  {
    if |items| > 1 {
      JoinOneMore(items[1..], x, sep);
      assert (items + [x])[1..] == items[1..] + [x];
    } else if |items| == 1 {
      assert (items + [x])[1..] == [x];
    }
  }

  /** A token that such a text can hold. */
  predicate Plain(x: string, sep: char) {
    x != [] && sep !in x
  }

  predicate AllPlain(items: Items, sep: char) {
    forall i :: 0 <= i < |items| ==> Plain(items[i], sep)
  }

  lemma {:induction false} SplitIsPlain(s: string, sep: char)
    ensures AllPlain(Split(s, sep), sep)
    decreases |s|
  {
    hide Split;
    SplitNothing(sep);
    if s != [] {
      SplitStep(s, sep);
      SplitIsPlain(BehindToken(s, sep), sep);
    }
  }

  lemma {:induction false} CutAfter(x: string, s: string, sep: char)
    requires sep !in x && (s == [] || s[0] == sep)
    ensures Cut(x + s, sep) == |x|
  {
    if x == [] {
      assert x + s == s;
    } else {
      assert (x + s)[1..] == x[1..] + s;
      CutAfter(x[1..], s, sep);
    }
  }

  lemma JoinFirst(items: Items, sep: char)
    ensures Join(items, sep) ==
            if items == [] then ""
            else items[0] + if |items| == 1 then "" else [sep] + Join(items[1..], sep)
  {
  }

  lemma {:induction false} SplitOfJoin(items: Items, sep: char)
    requires AllPlain(items, sep)
    ensures Split(Join(items, sep), sep) == items
  {
    hide Split, Join, Cut;
    SplitNothing(sep);
    JoinFirst(items, sep);
    if items != [] {
      var x := items[0];
      var rest := if |items| == 1 then "" else [sep] + Join(items[1..], sep);
      CutAfter(x, rest, sep);
      SplitStep(x + rest, sep);
      assert (x + rest)[..|x|] == x;
      if |items| > 1 {
        assert (x + rest)[|x| + 1..] == Join(items[1..], sep);
        SplitOfJoin(items[1..], sep);
      }
    }
  }

  /** A list comes back from its text exactly when every item is plain. */
  lemma RoundTrip(items: Items, sep: char)
    ensures Split(Join(items, sep), sep) == items <==> AllPlain(items, sep)
  {
    SplitIsPlain(Join(items, sep), sep);
    if AllPlain(items, sep) {
      SplitOfJoin(items, sep);
    }
  }

  /** Tokens on both sides of a separator are those of the two sides, in that order. */
  lemma {:induction false} SplitAppend(a: string, b: string, sep: char)
    ensures Split(a + [sep] + b, sep) == Split(a, sep) + Split(b, sep)
    decreases |a|
  {
    hide Split, Cut;
    var all := a + [sep] + b;
    SplitNothing(sep);
    if a == [] {
      assert all == [sep] + b;
      SplitLeading(b, sep);
    } else {
      SplitStep(a, sep);
      SplitStep(all, sep);
      CutEarly(a, b, sep);
      var k := Cut(a, sep);
      if k < |a| {
        assert all[k + 1..] == a[k + 1..] + [sep] + b;
        SplitAppend(a[k + 1..], b, sep);
        assert all[..k] == a[..k];
      } else {
        assert all[k + 1..] == b && all[..k] == a && a[..k] == a;
      }
    }
  }

  lemma {:induction false} CutEarly(a: string, b: string, sep: char)
    ensures Cut(a + [sep] + b, sep) == Cut(a, sep)
  {
    var all := a + [sep] + b;
    if a != [] {
      assert all[1..] == a[1..] + [sep] + b;
      CutEarly(a[1..], b, sep);
    }
  }

  /** A plain text is its own only token. */
  lemma SplitPlain(x: string, sep: char)
    requires Plain(x, sep)
    ensures Split(x, sep) == [x]
  {
    hide Split, Join;
    JoinFirst([x], sep);
    assert x + "" == x;
    SplitOfJoin([x], sep);
  }
}
