/** Comma-separated lists (frontend/src/fe_server.cc:5428-5446, 5739-5757 and their copy in
    frontend/src/handlers_mail.cc:66-84). */
module Csv {
  import Tokens

  type Items = Tokens.Items

  function Split(s: string): Items { Tokens.Split(s, ',') }

  function Join(items: Items): string { Tokens.Join(items, ',') }

  predicate Plain(x: string) { Tokens.Plain(x, ',') }

  predicate AllPlain(items: Items) { Tokens.AllPlain(items, ',') }

  method SplitCsv(s: string) returns (out: Items)
    ensures out == Split(s)
  {
    out := Tokens.SplitText(s, ',');
  }

  method JoinCsv(items: Items) returns (out: string)
    ensures out == Join(items)
  {
    out := Tokens.JoinItems(items, ',');
  }

  lemma SplitIsPlain(s: string)
    ensures AllPlain(Split(s))
  {
    Tokens.SplitIsPlain(s, ',');
  }

  lemma RoundTrip(items: Items)
    ensures Split(Join(items)) == items <==> AllPlain(items)
  {
    Tokens.RoundTrip(items, ',');
  }

  lemma SplitOne(x: string)
    requires Plain(x)
    ensures Split(x) == [x] && Join([x]) == x && Split("") == []
  {
    RoundTrip([x]);
  }
}
