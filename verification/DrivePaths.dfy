/** Paths of a drive: `resolve_path`, `build_path` and the ancestor test
    (frontend/src/fe_server.cc:5841-5872, 5941-5958, 5976-5989). */
module DrivePaths {
  import opened Bytes
  import opened DriveTree
  import Tokens

  /** The first child with that name. */
  function FindByName(d: Drive, us: seq<Uid>, name: string): Option<Uid> {
    if us == [] then None
    else if NameOf(d, us[0]) == name then Some(us[0])
    else FindByName(d, us[1..], name)
  }

  function Walk(d: Drive, cur: Uid, parts: seq<string>): Option<Uid>
    decreases |parts|
  {
    if parts == [] then Some(cur)
    else
      match FindByName(d, KidsOf(d, cur), parts[0])
      case None => None
      case Some(c) => Walk(d, c, parts[1..])
  }

  function Parts(path: string): seq<string> {
    Tokens.Split(path, '/')
  }

  function Resolve(d: Drive, path: string): Option<Uid> {
    Walk(d, d.root, Parts(path))
  }

  /** `resolve_path`, component by component. */
  method ResolvePath(d: Drive, path: string) returns (u: Option<Uid>)
    ensures u == Resolve(d, path)
  {
    hide Walk, FindByName, Tokens.Split;
    WalkNothing(d, d.root);
    Tokens.SplitNothing('/');
    if path == "" || path == "/" {
      SlashIsRoot();
      return Some(d.root);
    }
    var norm := path;
    if norm[0] == '/' {
      norm := norm[1..];
      assert path == ['/'] + norm;
      Tokens.SplitLeading(norm, '/');
    }
    var parts := Tokens.SplitText(norm, '/');
    var cur := d.root;
    for i := 0 to |parts|
      invariant Walk(d, d.root, parts) == Walk(d, cur, parts[i..])
    {
      WalkStep(d, cur, parts[i..]);
      assert parts[i..][1..] == parts[i + 1..];
      var found := ChildNamed(d, KidsOf(d, cur), parts[i]);
      if found == None { return None; }
      cur := found.value;
    }
    WalkNothing(d, cur);
    assert parts[|parts|..] == [];
    u := Some(cur);
  }

  lemma SlashIsRoot()
    ensures Parts("") == [] && Parts("/") == []
  {
    hide Tokens.Split;
    Tokens.SplitNothing('/');
    Tokens.SplitLeading("", '/');
    assert ['/'] + "" == "/";
  }

  lemma WalkNothing(d: Drive, cur: Uid)
    ensures Walk(d, cur, []) == Some(cur)
  {
  }

  lemma WalkStep(d: Drive, cur: Uid, parts: seq<string>)
    requires parts != []
    ensures Walk(d, cur, parts) ==
            match FindByName(d, KidsOf(d, cur), parts[0])
            case None => None
            case Some(c) => Walk(d, c, parts[1..])
  {
    hide FindByName;
  }

  method ChildNamed(d: Drive, us: seq<Uid>, name: string) returns (c: Option<Uid>)
    ensures c == FindByName(d, us, name)
  {
    for i := 0 to |us|
      invariant FindByName(d, us, name) == FindByName(d, us[i..], name)
    {
      assert us[i..][0] == us[i] && us[i..][1..] == us[i + 1..];
      if NameOf(d, us[i]) == name { return Some(us[i]); }
    }
    assert us[|us|..] == [];
    c := None;
  }

  lemma {:induction false} FindByNameMeans(d: Drive, us: seq<Uid>, name: string)
    ensures FindByName(d, us, name).Some? ==>
              FindByName(d, us, name).value in us && NameOf(d, FindByName(d, us, name).value) == name
    ensures FindByName(d, us, name).None? ==> forall c :: c in us ==> NameOf(d, c) != name
  {
    hide NameOf;
    if us != [] {
      FindByNameMeans(d, us[1..], name);
      assert forall c :: c in us <==> c == us[0] || c in us[1..];
    }
  }

  /** What a path resolves to is in the drive. */
  lemma {:induction false} WalkStays(d: Drive, cur: Uid, parts: seq<string>)
    requires Linked(d) && cur in d.objs && Walk(d, cur, parts).Some?
    ensures Walk(d, cur, parts).value in d.objs
    decreases |parts|
  {
    hide FindByName, UpOk, ListsOk;
    if parts != [] {
      FindByNameMeans(d, KidsOf(d, cur), parts[0]);
      WalkStays(d, FindByName(d, KidsOf(d, cur), parts[0]).value, parts[1..]);
    }
  }

  // ----- building a path -----

  /** u is n steps below the root. */
  ghost predicate Below(d: Drive, u: Uid, n: nat) {
    Up(d, u, n) == d.root && forall k :: 0 <= k < n ==> Up(d, u, k) in d.objs && Up(d, u, k) != d.root
  }

  lemma {:induction false} ToRoot(d: Drive, rank: map<Uid, nat>, u: Uid) returns (n: nat)
    requires Linked(d) && Ranked(d, rank) && u in d.objs
    ensures Below(d, u, n)
    decreases rank[u]
  {
    hide DownOk, ListsOk;
    if u == d.root {
      n := 0;
      assert Up(d, u, 0) == d.root;
    } else {
      ParentIn(d, u);
      var m := ToRoot(d, rank, ParentOf(d, u));
      n := m + 1;
      UpShift(d, u, m);
      forall k | 0 <= k < n
        ensures Up(d, u, k) in d.objs && Up(d, u, k) != d.root
      {
        if k > 0 {
          UpShift(d, u, k - 1);
          assert Up(d, ParentOf(d, u), k - 1) in d.objs;
        }
      }
    }
  }

  /** The names on the way down to u from n steps above it. */
  function NamesDown(d: Drive, u: Uid, n: nat): (names: seq<string>)
    ensures |names| == n
  {
    if n == 0 then [] else [NameOf(d, Up(d, u, n - 1))] + NamesDown(d, u, n - 1)
  }

  function Slashed(names: seq<string>): string {
    "/" + Tokens.Join(names, '/')
  }

  function Reversed(names: seq<string>): (r: seq<string>)
    ensures |r| == |names|
  {
    if names == [] then [] else [names[|names| - 1]] + Reversed(names[..|names| - 1])
  }

  lemma {:induction false} ReversedAt(names: seq<string>, i: nat)
    requires i < |names|
    ensures Reversed(names)[i] == names[|names| - 1 - i]
  {
    if i > 0 {
      ReversedAt(names[..|names| - 1], i - 1);
    }
  }

  lemma ReversedOneMore(names: seq<string>, x: string)
    ensures Reversed(names + [x]) == [x] + Reversed(names)
  {
    assert (names + [x])[..|names|] == names;
  }

  predicate NonEmpty(names: seq<string>) {
    forall i :: 0 <= i < |names| ==> names[i] != ""
  }

  lemma SlashedOneMore(names: seq<string>, x: string)
    requires NonEmpty(names)
    ensures Slashed(names + [x]) == (if |Slashed(names)| > 1 then Slashed(names) + "/" else Slashed(names)) + x
  {
    Tokens.JoinOneMore(names, x, '/');
    if names != [] {
      JoinNonEmpty(names);
      assert Slashed(names) + "/" + x == "/" + (Tokens.Join(names, '/') + ['/'] + x);
    } else {
      assert [] + [x] == [x];
    }
  }

  lemma JoinNonEmpty(names: seq<string>)
    requires names != [] && NonEmpty(names)
    ensures |Tokens.Join(names, '/')| > 0
  {
    assert names[0] != "";
  }

  lemma {:induction false} NamesDownNonEmpty(d: Drive, u: Uid, n: nat)
    requires Linked(d) && forall k :: 0 <= k < n ==> Up(d, u, k) in d.objs && Up(d, u, k) != d.root
    ensures NonEmpty(NamesDown(d, u, n)) && Tokens.AllPlain(NamesDown(d, u, n), '/')
  {
    hide DownOk, ListsOk, FoldersOk;
    if n > 0 {
      NamesDownNonEmpty(d, u, n - 1);
      assert Up(d, u, n - 1) in d.objs;
    }
  }

  /** `build_path`: names are collected upwards until an object without a parent, then joined. */
  method BuildPath(d: Drive, u: Uid, ghost n: nat) returns (path: string)
    requires Linked(d) && u in d.objs && Below(d, u, n)
    ensures path == Slashed(NamesDown(d, u, n))
  {
    hide DownOk, ListsOk, FoldersOk, Slashed, Reversed;
    var names: seq<string> := [];
    var cur := u;
    ghost var j := 0;
    ReversedNothing();
    while cur != ""
      invariant j <= n && cur == Up(d, u, j) && Reversed(names) == NamesDown(d, u, j)
      invariant cur in d.objs
      decreases n - j
    {
      var name := NameOf(d, cur);
      var parent := ParentOf(d, cur);
      OnlyRootHasNoParent(d, cur);
      if parent == "" { break; }
      assert j < n && Up(d, u, j + 1) == parent;
      ReversedOneMore(names, name);
      names := names + [name];
      cur := parent;
      j := j + 1;
      assert j < n ==> Up(d, u, j) in d.objs;
    }
    assert j == n;
    NamesDownNonEmpty(d, u, n);
    path := JoinUp(names);
  }

  lemma ReversedNothing()
    ensures Reversed([]) == []
  {
  }

  lemma OnlyRootHasNoParent(d: Drive, u: Uid)
    requires Linked(d) && u in d.objs
    ensures ParentOf(d, u) == "" <==> u == d.root
    ensures u != d.root ==> ParentOf(d, u) in d.objs
    ensures "" !in d.objs
  {
    hide DownOk, ListsOk;
    if u != d.root {
      ParentIn(d, u);
    }
  }

  /** The second loop of `build_path`, from the last name collected to the first. */
  method JoinUp(names: seq<string>) returns (path: string)
    requires NonEmpty(Reversed(names))
    ensures path == Slashed(Reversed(names))
  {
    hide Slashed, Reversed;
    path := "/";
    ghost var down := Reversed(names);
    SlashedNothing();
    for i := 0 to |names|
      invariant path == Slashed(down[..i])
    {
      ReversedAt(names, i);
      SlashedOneMore(down[..i], down[i]);
      assert down[..i + 1] == down[..i] + [down[i]];
      if |path| > 1 { path := path + "/"; }
      path := path + names[|names| - 1 - i];
    }
    assert down[..|names|] == down;
  }

  lemma SlashedNothing()
    ensures Slashed([]) == "/"
  {
  }

  // ----- the round trip -----

  lemma UniqueChild(d: Drive, u: Uid)
    requires Linked(d) && u in d.objs && u != d.root
    ensures FindByName(d, KidsOf(d, ParentOf(d, u)), NameOf(d, u)) == Some(u)
  {
    hide DownOk, FoldersOk, FindByName, NameOf;
    FindByNameMeans(d, KidsOf(d, ParentOf(d, u)), NameOf(d, u));
    assert u in d.kids[ParentOf(d, u)];
  }

  lemma {:induction false} WalkDown(d: Drive, u: Uid, n: nat)
    requires Linked(d) && forall k :: 0 <= k < n ==> Up(d, u, k) in d.objs && Up(d, u, k) != d.root
    ensures Walk(d, Up(d, u, n), NamesDown(d, u, n)) == Some(u)
  {
    hide Linked, FindByName, KidsOf, NameOf;
    if n > 0 {
      WalkDown(d, u, n - 1);
      UniqueChild(d, Up(d, u, n - 1));
    }
  }

  /** In every drive of the right shape, resolving the path that is built for an object finds that object. */
  lemma ResolveBuiltPath(d: Drive, u: Uid, n: nat)
    requires Shape(d) && u in d.objs && Below(d, u, n)
    ensures Resolve(d, Slashed(NamesDown(d, u, n))) == Some(u)
  {
    hide Tokens.Split, Tokens.Join, Linked, Walk, NamesDown;
    var names := NamesDown(d, u, n);
    NamesDownNonEmpty(d, u, n);
    Tokens.SplitLeading(Tokens.Join(names, '/'), '/');
    Tokens.SplitOfJoin(names, '/');
    assert ['/'] + Tokens.Join(names, '/') == Slashed(names);
    WalkDown(d, u, n);
  }

  /** Every object has such a path. */
  lemma EveryObjectHasAPath(d: Drive, u: Uid)
    requires Shape(d) && u in d.objs
    ensures exists n :: Below(d, u, n) && Resolve(d, Slashed(NamesDown(d, u, n))) == Some(u)
  {
    hide Linked, Ranked, Below, Resolve, Slashed, NamesDown;
    var rank :| Ranked(d, rank);
    var n := ToRoot(d, rank, u);
    ResolveBuiltPath(d, u, n);
  }

  // ----- ancestors of a move's destination -----

  ghost predicate Shallow(d: Drive, x: Uid) {
    forall n :: Below(d, x, n) ==> n < 4096
  }

  /** `is_descendant_of`: upwards from x, giving up with "yes" after 4096 steps or on a repeat. A "no" is
      always right; in a drive of the right shape "yes" means that a is above x or that x lies too deep. */
  method IsDescendantOf(d: Drive, x: Uid, a: Uid) returns (r: bool)
    requires a != "" && "" !in d.objs
    ensures !r ==> !Under(d, x, a)
    ensures Shape(d) && x in d.objs ==> (r <==> Under(d, x, a) || !Shallow(d, x))
  {
    hide Shape, Shallow;
    var cur := x;
    var seen: set<Uid> := {};
    var depth := 0;
    while cur != ""
      invariant cur == Up(d, x, depth) && 0 <= depth <= 4096
      invariant forall k :: 0 <= k < depth ==> Up(d, x, k) != a
      invariant forall s :: s in seen ==> exists k :: 0 <= k < depth && Up(d, x, k) == s
      decreases 4096 - depth
    {
      if cur == a {
        return true;
      }
      depth := depth + 1;
      if depth > 4096 || cur in seen {
        NoGiveUp(d, x, depth - 1);
        return true;
      }
      seen := seen + {cur};
      cur := ParentOf(d, cur);
    }
    r := false;
    EndsOutside(d, x, depth, a);
    EndsShallow(d, x, depth);
  }

  lemma EndsShallow(d: Drive, x: Uid, n: nat)
    requires "" !in d.objs && Up(d, x, n) == "" && n <= 4096
    ensures Shape(d) ==> Shallow(d, x)
  {
    hide FoldersOk, DownOk, UpOk, ListsOk, Ranked;
    if Shape(d) {
      forall m: nat | Below(d, x, m)
        ensures m < 4096
      {
        assert m >= n ==> Up(d, x, n) == d.root || Up(d, x, n) in d.objs;
      }
    }
  }

  lemma {:induction false} OutsideStays(d: Drive, n: nat)
    requires "" !in d.objs
    ensures Up(d, "", n) == ""
  {
    if n > 0 {
      OutsideStays(d, n - 1);
    }
  }

  lemma EndsOutside(d: Drive, x: Uid, n: nat, a: Uid)
    requires "" !in d.objs && a != "" && Up(d, x, n) == "" && forall k :: 0 <= k < n ==> Up(d, x, k) != a
    ensures !Under(d, x, a)
  {
    if Under(d, x, a) {
      var m: nat :| Up(d, x, m) == a;
      UpTwice(d, x, n, m - n);
      OutsideStays(d, m - n);
    }
  }

  lemma NoGiveUp(d: Drive, x: Uid, j: nat)
    requires Up(d, x, j) != "" && "" !in d.objs
    requires j == 4096 || exists k :: 0 <= k < j && Up(d, x, k) == Up(d, x, j)
    ensures !(Shape(d) && x in d.objs && Shallow(d, x))
  {
    hide Linked, Ranked;
    if Shape(d) && x in d.objs && Shallow(d, x) {
      var rank :| Ranked(d, rank);
      var n := ToRoot(d, rank, x);
      RootIn(d);
      if n < j {
        UpTwice(d, x, n + 1, j - n - 1);
        OutsideStays(d, j - n - 1);
        assert false;
      }
      assert Up(d, x, j) in d.objs;
      var k :| 0 <= k < j && Up(d, x, k) == Up(d, x, j);
      UpTwice(d, x, k, j - k);
      UpRank(d, rank, Up(d, x, k), j - k);
      assert false;
    }
  }

  lemma RootIn(d: Drive)
    requires Linked(d)
    ensures d.root in d.objs && ParentOf(d, d.root) == ""
  {
  }
}
