/** Where paths lead after a request (frontend/src/fe_server.cc:6190-6453), for every path and every drive of
    the right shape: what a request promises its client, said without how it is done. */
module DriveNames {
  import opened Bytes
  import opened Listing
  import opened DriveTree
  import opened DrivePaths
  import opened DriveWalks
  import opened Drive

  // ----- walking -----

  /** The child of v with that name. */
  function StepTo(d: DriveTree.Drive, v: Uid, name: string): Option<Uid> {
    FindByName(d, KidsOf(d, v), name)
  }

  lemma {:induction false} WalkAppend(d: DriveTree.Drive, cur: Uid, a: seq<string>, b: seq<string>)
    ensures Walk(d, cur, a + b) ==
            match Walk(d, cur, a)
            case None => None
            case Some(v) => Walk(d, v, b)
    decreases |a|
  {
    hide FindByName;
    if a == [] {
      assert a + b == b;
    } else {
      assert (a + b)[1..] == a[1..] + b;
      var c := StepTo(d, cur, a[0]);
      if c.Some? {
        WalkAppend(d, c.value, a[1..], b);
      }
    }
  }

  lemma WalkOne(d: DriveTree.Drive, v: Uid, x: string)
    ensures Walk(d, v, [x]) == StepTo(d, v, x)
  {
    hide FindByName;
    assert [x][1..] == [];
  }

  lemma WalkLast(d: DriveTree.Drive, cur: Uid, ps: seq<string>)
    requires ps != []
    ensures Walk(d, cur, ps) ==
            match Walk(d, cur, ps[..|ps| - 1])
            case None => None
            case Some(v) => StepTo(d, v, ps[|ps| - 1])
  {
    hide Walk, FindByName;
    var init := ps[..|ps| - 1];
    assert ps == init + [ps[|ps| - 1]];
    WalkAppend(d, cur, init, [ps[|ps| - 1]]);
    if Walk(d, cur, init).Some? {
      WalkOne(d, Walk(d, cur, init).value, ps[|ps| - 1]);
    }
  }

  /** Two drives agree on a walk if they agree on each of its steps. */
  lemma {:induction false} SameSteps(d: DriveTree.Drive, e: DriveTree.Drive, cur: Uid, ps: seq<string>)
    requires forall i, v :: 0 <= i < |ps| && Walk(d, cur, ps[..i]) == Some(v) ==>
               StepTo(e, v, ps[i]) == StepTo(d, v, ps[i])
    ensures Walk(e, cur, ps) == Walk(d, cur, ps)
    decreases |ps|
  {
    hide Walk, StepTo;
    if ps == [] {
      WalkNothing(d, cur);
      WalkNothing(e, cur);
    } else {
      var init := ps[..|ps| - 1];
      forall i, v | 0 <= i < |init| && Walk(d, cur, init[..i]) == Some(v)
        ensures StepTo(e, v, init[i]) == StepTo(d, v, init[i])
      {
        assert init[..i] == ps[..i] && init[i] == ps[i];
      }
      SameSteps(d, e, cur, init);
      WalkLast(d, cur, ps);
      WalkLast(e, cur, ps);
    }
  }

  lemma StepChild(d: DriveTree.Drive, v: Uid, x: string)
    requires Linked(d) && StepTo(d, v, x).Some?
    ensures var c := StepTo(d, v, x).value;
            && c in d.objs && c != d.root && ParentOf(d, c) == v && NameOf(d, c) == x && v in d.kids && c in d.kids[v]
  {
    hide FindByName, UpOk, ListsOk, FoldersOk;
    FindByNameMeans(d, KidsOf(d, v), x);
  }

  /** Only one list of names leads from the root to an object. */
  lemma {:induction false} OnePath(d: DriveTree.Drive, a: seq<string>, b: seq<string>)
    requires Linked(d) && Walk(d, d.root, a).Some? && Walk(d, d.root, a) == Walk(d, d.root, b)
    ensures a == b
    decreases |a|
  {
    hide Walk, StepTo, Linked;
    if a != [] {
      LastStep(d, a);
    } else {
      WalkNothing(d, d.root);
    }
    if b != [] {
      LastStep(d, b);
    } else {
      WalkNothing(d, d.root);
    }
    if a != [] && b != [] {
      OnePath(d, a[..|a| - 1], b[..|b| - 1]);
      assert a == a[..|a| - 1] + [a[|a| - 1]] && b == b[..|b| - 1] + [b[|b| - 1]];
    }
  }

  lemma LastStep(d: DriveTree.Drive, a: seq<string>)
    requires Linked(d) && a != [] && Walk(d, d.root, a).Some?
    ensures var v := Walk(d, d.root, a).value;
            && v in d.objs && v != d.root && NameOf(d, v) == a[|a| - 1]
            && Walk(d, d.root, a[..|a| - 1]) == Some(ParentOf(d, v)) && ParentOf(d, v) in d.kids
            && v in KidsOf(d, ParentOf(d, v))
  {
    hide Walk, StepTo, Linked;
    WalkLast(d, d.root, a);
    StepChild(d, Walk(d, d.root, a[..|a| - 1]).value, a[|a| - 1]);
  }

  /** A child is found by its name, and nothing else is. */
  lemma StepExactly(d: DriveTree.Drive, v: Uid, x: string, c: Uid)
    requires Linked(d)
    ensures StepTo(d, v, x) == Some(c) <==> c in KidsOf(d, v) && NameOf(d, c) == x
  {
    hide FindByName, UpOk, FoldersOk, DownOk, NameOf;
    FindByNameMeans(d, KidsOf(d, v), x);
    if v in d.kids {
      assert NamesDiffer(d, d.kids[v]);
    }
  }

  lemma NoStep(d: DriveTree.Drive, v: Uid, x: string)
    requires forall c :: c in KidsOf(d, v) ==> NameOf(d, c) != x
    ensures StepTo(d, v, x) == None
  {
    hide FindByName, NameOf;
    FindByNameMeans(d, KidsOf(d, v), x);
  }

  /** What a walk from v finds is under v. */
  lemma {:induction false} WalkUnder(d: DriveTree.Drive, v: Uid, ps: seq<string>)
    requires Linked(d) && Walk(d, v, ps).Some?
    ensures Under(d, Walk(d, v, ps).value, v)
    decreases |ps|
  {
    hide Walk, StepTo, Linked, Under;
    if ps == [] {
      WalkNothing(d, v);
      UnderParent(d, v, v);
    } else {
      WalkLast(d, v, ps);
      var init := ps[..|ps| - 1];
      WalkUnder(d, v, init);
      StepChild(d, Walk(d, v, init).value, ps[|ps| - 1]);
      UnderParent(d, Walk(d, v, ps).value, v);
    }
  }

  /** A walk through a prefix goes on from what the prefix leads to. */
  lemma Through(d: DriveTree.Drive, cur: Uid, a: seq<string>, ps: seq<string>)
    requires a <= ps && Walk(d, cur, a).Some?
    ensures Walk(d, cur, ps) == Walk(d, Walk(d, cur, a).value, ps[|a|..])
  {
    hide Walk;
    assert ps == a + ps[|a|..];
    WalkAppend(d, cur, a, ps[|a|..]);
  }

  // ----- one link replaced by another -----

  /** The link from p to its child `was` is gone and q has gained the child u under the name `name`. */
  ghost predicate Relinked(d: DriveTree.Drive, e: DriveTree.Drive, p: Uid, was: string, q: Uid, name: string, u: Uid) {
    && e.root == d.root
    && forall v, x {:trigger StepTo(e, v, x)} ::
         StepTo(e, v, x) == if v == q && x == name then Some(u)
                            else if v == p && x == was then None
                            else StepTo(d, v, x)
  }

  /** A path then leads on below the new place as it led on below the old one, nowhere through the old place,
      and otherwise where it led before. */
  lemma RelinkedWalk(d: DriveTree.Drive, e: DriveTree.Drive, p: seq<string>, was: string, q: seq<string>, name: string,
                     u: Uid, ps: seq<string>)
    requires Linked(d) && Walk(d, d.root, p).Some? && Walk(d, d.root, q).Some?
    requires Walk(d, d.root, p + [was]) == Some(u) && !(p + [was] <= q)
    requires Relinked(d, e, Walk(d, d.root, p).value, was, Walk(d, d.root, q).value, name, u)
    ensures Walk(e, e.root, ps) ==
            if q + [name] <= ps then Walk(d, d.root, p + [was] + ps[|q| + 1..])
            else if p + [was] <= ps then None
            else Walk(d, d.root, ps)
  {
    hide Walk, Linked, Relinked, StepTo;
    if q + [name] <= ps {
      var rest := ps[|q| + 1..];
      Rejoined(q + [name], ps);
      NewPlace(d, e, p, was, q, name, u, rest);
    } else if p + [was] <= ps {
      OldPlace(d, e, p, was, q, name, u, ps);
    } else {
      Elsewhere(d, e, p, was, q, name, u, ps);
    }
  }

  lemma Rejoined(a: seq<string>, ps: seq<string>)
    requires a <= ps
    ensures a + ps[|a|..] == ps
  {
  }

  /** Steps that do not use the two links are as before. */
  lemma Elsewhere(d: DriveTree.Drive, e: DriveTree.Drive, p: seq<string>, was: string, q: seq<string>, name: string,
                  u: Uid, ps: seq<string>)
    requires Linked(d) && Walk(d, d.root, p).Some? && Walk(d, d.root, q).Some?
    requires Relinked(d, e, Walk(d, d.root, p).value, was, Walk(d, d.root, q).value, name, u)
    requires !(q + [name] <= ps) && !(p + [was] <= ps)
    ensures Walk(e, e.root, ps) == Walk(d, d.root, ps)
  {
    hide Walk, Linked, StepTo;
    forall i, v | 0 <= i < |ps| && Walk(d, d.root, ps[..i]) == Some(v)
      ensures StepTo(e, v, ps[i]) == StepTo(d, v, ps[i])
    {
      assert ps[..i] + [ps[i]] == ps[..i + 1];
      if v == Walk(d, d.root, q).value && ps[i] == name {
        OnePath(d, ps[..i], q);
      }
      if v == Walk(d, d.root, p).value && ps[i] == was {
        OnePath(d, ps[..i], p);
      }
    }
    SameSteps(d, e, d.root, ps);
  }

  lemma NewPlace(d: DriveTree.Drive, e: DriveTree.Drive, p: seq<string>, was: string, q: seq<string>, name: string,
                 u: Uid, rest: seq<string>)
    requires Linked(d) && Walk(d, d.root, p).Some? && Walk(d, d.root, q).Some?
    requires Walk(d, d.root, p + [was]) == Some(u) && !(p + [was] <= q)
    requires Relinked(d, e, Walk(d, d.root, p).value, was, Walk(d, d.root, q).value, name, u)
    ensures Walk(e, e.root, q + [name] + rest) == Walk(d, d.root, p + [was] + rest)
  {
    hide Walk, Linked, StepTo;
    Elsewhere(d, e, p, was, q, name, u, q);
    var src := p + [was];
    forall i, v | 0 <= i < |rest| && Walk(d, u, rest[..i]) == Some(v)
      ensures StepTo(e, v, rest[i]) == StepTo(d, v, rest[i])
    {
      WalkAppend(d, d.root, src, rest[..i]);
      if v == Walk(d, d.root, q).value {
        OnePath(d, src + rest[..i], q);
      }
      if v == Walk(d, d.root, p).value {
        OnePath(d, src + rest[..i], p);
      }
    }
    SameSteps(d, e, u, rest);
    WalkAppend(d, d.root, src, rest);
    WalkAppend(e, e.root, q, [name]);
    WalkOne(e, Walk(d, d.root, q).value, name);
    WalkAppend(e, e.root, q + [name], rest);
  }

  lemma OldPlace(d: DriveTree.Drive, e: DriveTree.Drive, p: seq<string>, was: string, q: seq<string>, name: string,
                 u: Uid, ps: seq<string>)
    requires Linked(d) && Walk(d, d.root, p).Some? && Walk(d, d.root, q).Some?
    requires Relinked(d, e, Walk(d, d.root, p).value, was, Walk(d, d.root, q).value, name, u)
    requires !(q + [name] <= ps) && p + [was] <= ps
    ensures Walk(e, e.root, ps) == None
  {
    hide Walk, Linked, StepTo;
    var src := p + [was];
    assert ps == src + ps[|src|..];
    Elsewhere(d, e, p, was, q, name, u, p);
    var v := Walk(d, d.root, p).value;
    if v == Walk(d, d.root, q).value && was == name {
      OnePath(d, p, q);
      assert false;
    }
    WalkAppend(e, e.root, p, [was]);
    WalkOne(e, v, was);
    WalkAppend(e, e.root, src, ps[|src|..]);
  }

  // ----- renaming -----

  lemma RenamedRelinks(d: DriveTree.Drive, u: Uid, name: string)
    requires Shape(d) && u in d.objs && u != d.root && ValidComponent(name) && !NameTaken(d, ParentOf(d, u), name, u)
    ensures var p := ParentOf(d, u);
            Relinked(d, Renamed(d, u, name), p, NameOf(d, u), p, name, u)
  {
    hide ValidComponent, Ranked, NameTaken, StepTo;
    var e := Renamed(d, u, name);
    RenameKeeps(d, u, name);
    forall v, x
      ensures StepTo(e, v, x) == if v == ParentOf(d, u) && x == name then Some(u)
                                 else if v == ParentOf(d, u) && x == NameOf(d, u) then None else StepTo(d, v, x)
    {
      RenamedStep(d, u, name, v, x);
    }
  }

  lemma RenamedStep(d: DriveTree.Drive, u: Uid, name: string, v: Uid, x: string)
    requires Linked(d) && u in d.objs && u != d.root && Linked(Renamed(d, u, name))
    ensures StepTo(Renamed(d, u, name), v, x)
            == if v == ParentOf(d, u) && x == name then Some(u)
               else if v == ParentOf(d, u) && x == NameOf(d, u) then None else StepTo(d, v, x)
  {
    hide Linked, StepTo;
    var e := Renamed(d, u, name);
    ParentIn(d, u);
    OnlyParentLists(d, u);
    StepExactly(e, v, x, u);
    if v != ParentOf(d, u) {
      SameFind(d, e, v, x);
    } else if x != name {
      if x == NameOf(d, u) {
        StepExactly(d, v, x, u);
        OthersDiffer(d, e, v, u, x);
      } else {
        OthersSame(d, e, v, u, x);
      }
    }
  }

  lemma OnlyParentLists(d: DriveTree.Drive, u: Uid)
    requires Linked(d)
    ensures forall v :: u in KidsOf(d, v) ==> v == ParentOf(d, u)
  {
    hide UpOk, ListsOk, FoldersOk;
  }

  /** Same children under the same names: the same step. */
  lemma SameFind(d: DriveTree.Drive, e: DriveTree.Drive, v: Uid, x: string)
    requires Linked(d) && Linked(e)
    requires forall c :: c in KidsOf(e, v) <==> c in KidsOf(d, v)
    requires forall c :: c in KidsOf(d, v) ==> NameOf(e, c) == NameOf(d, c)
    ensures StepTo(e, v, x) == StepTo(d, v, x)
  {
    hide Linked, StepTo, NameOf, KidsOf;
    if StepTo(d, v, x).Some? {
      StepExactly(d, v, x, StepTo(d, v, x).value);
      StepExactly(e, v, x, StepTo(d, v, x).value);
    } else if StepTo(e, v, x).Some? {
      StepExactly(e, v, x, StepTo(e, v, x).value);
      StepExactly(d, v, x, StepTo(e, v, x).value);
    }
  }

  lemma OthersDiffer(d: DriveTree.Drive, e: DriveTree.Drive, v: Uid, u: Uid, x: string)
    requires Linked(d) && StepTo(d, v, x) == Some(u) && NameOf(e, u) != x
    requires forall c :: c in KidsOf(e, v) ==> c in KidsOf(d, v)
    requires forall c :: c in KidsOf(e, v) && c != u ==> NameOf(e, c) == NameOf(d, c)
    ensures StepTo(e, v, x) == None
  {
    hide Linked, StepTo, NameOf, KidsOf;
    forall c | c in KidsOf(e, v)
      ensures NameOf(e, c) != x
    {
      StepExactly(d, v, x, c);
    }
    NoStep(e, v, x);
  }

  lemma OthersSame(d: DriveTree.Drive, e: DriveTree.Drive, v: Uid, u: Uid, x: string)
    requires Linked(d) && Linked(e)
    requires (u in KidsOf(d, v) ==> NameOf(d, u) != x) && (u in KidsOf(e, v) ==> NameOf(e, u) != x)
    requires forall c :: c != u ==> (c in KidsOf(e, v) <==> c in KidsOf(d, v))
    requires forall c :: c in KidsOf(d, v) && c != u ==> NameOf(e, c) == NameOf(d, c)
    ensures StepTo(e, v, x) == StepTo(d, v, x)
  {
    hide Linked, StepTo, NameOf, KidsOf;
    if StepTo(d, v, x).Some? {
      StepExactly(d, v, x, StepTo(d, v, x).value);
      StepExactly(e, v, x, StepTo(d, v, x).value);
    } else if StepTo(e, v, x).Some? {
      StepExactly(e, v, x, StepTo(e, v, x).value);
      StepExactly(d, v, x, StepTo(e, v, x).value);
    }
  }

  /** After an accepted rename of an object below the root: under its names with the last one replaced, and
      below them, is what was under its old names; under the old names there is nothing, if the new name is
      another; every other path leads where it led. */
  lemma RenameMovesPaths(a: Account, path: string, name: string, q: string)
    requires Shape(a.drive) && Renames(a.drive, path, name) && Parts(path) != []
    ensures var d, e := a.drive, After(a, Rename(path, name)).drive;
            var src := Parts(path);
            var to := src[..|src| - 1] + [name];
            Resolve(e, q) == if to <= Parts(q) then Walk(d, d.root, src + Parts(q)[|to|..])
                             else if src <= Parts(q) then None
                             else Resolve(d, q)
  {
    hide Shape, ValidComponent, NameTaken, Walk, Linked, Relinked, Renamed, Parts;
    var d, src := a.drive, Parts(path);
    var u := Resolve(d, path).value;
    ShapeIsLinked(d);
    LastStep(d, src);
    RenamedRelinks(d, u, name);
    var p := src[..|src| - 1];
    assert p + [src[|src| - 1]] == src;
    RelinkedWalk(d, Renamed(d, u, name), p, src[|src| - 1], p, name, u, Parts(q));
  }

  lemma ShapeIsLinked(d: DriveTree.Drive)
    requires Shape(d)
    ensures Linked(d)
  {
  }

  /** The object is found under its new name, no longer under its old one, and whatever is not below it stays
      where it was. */
  lemma RenamedIsFound(a: Account, path: string, name: string, q: string, x: Uid)
    requires Shape(a.drive) && Renames(a.drive, path, name) && Parts(path) != []
    ensures var d, e := a.drive, After(a, Rename(path, name)).drive;
            var src, u := Parts(path), Resolve(d, path).value;
            && (Parts(q) == src[..|src| - 1] + [name] ==> Resolve(e, q) == Some(u))
            && (Parts(q) == src && name != src[|src| - 1] ==> Resolve(e, q) == None)
            && (Resolve(d, q) == Some(x) && !Under(d, x, u) ==> Resolve(e, q) == Some(x))
  {
    hide Shape, ValidComponent, Walk, Linked, Renames, After, Under, Parts;
    RenameMovesPaths(a, path, name, q);
    var d, src, ps := a.drive, Parts(path), Parts(q);
    var u := RenamesWhat(d, path, name);
    ShapeIsLinked(d);
    var to := src[..|src| - 1] + [name];
    if ps == to {
      assert ps[|to|..] == [] && src + [] == src;
    }
    if Resolve(d, q) == Some(x) && src <= ps {
      Through(d, d.root, src, ps);
      WalkUnder(d, u, ps[|src|..]);
    }
    if Resolve(d, q) == Some(x) && to <= ps && !(src <= ps) {
      FreeName(d, path, name, ps);
    }
  }

  lemma RenamesWhat(d: DriveTree.Drive, path: string, name: string) returns (u: Uid)
    requires Renames(d, path, name)
    ensures Walk(d, d.root, Parts(path)) == Some(u) && Resolve(d, path) == Some(u)
  {
    u := Resolve(d, path).value;
  }

  /** Before the rename nothing was found under the new name, unless it is the old one. */
  lemma FreeName(d: DriveTree.Drive, path: string, name: string, ps: seq<string>)
    requires Shape(d) && Renames(d, path, name) && Parts(path) != []
    requires var src := Parts(path); src[..|src| - 1] + [name] <= ps && !(src <= ps)
    ensures Walk(d, d.root, ps) == None
  {
    hide Shape, ValidComponent, Walk, Linked, Parts, StepTo;
    var src := Parts(path);
    var u := Resolve(d, path).value;
    ShapeIsLinked(d);
    LastStep(d, src);
    var p, v := src[..|src| - 1], ParentOf(d, u);
    assert p + [src[|src| - 1]] == src;
    WalkAppend(d, d.root, p, [name]);
    WalkOne(d, v, name);
    if StepTo(d, v, name).Some? {
      StepExactly(d, v, name, StepTo(d, v, name).value);
      StepExactly(d, v, name, u);
      assert false;
    }
    Rejoined(p + [name], ps);
    WalkAppend(d, d.root, p + [name], ps[|p| + 1..]);
  }

  /** Renaming the root, which "//" reaches, changes no path. */
  lemma RenamedRootKeepsPaths(a: Account, path: string, name: string, q: string)
    requires Shape(a.drive) && Renames(a.drive, path, name) && Parts(path) == []
    ensures Resolve(After(a, Rename(path, name)).drive, q) == Resolve(a.drive, q)
  {
    hide Shape, ValidComponent, NameTaken, Walk, Linked, Parts, StepTo;
    var d := a.drive;
    WalkNothing(d, d.root);
    var e := Renamed(d, d.root, name);
    RenameKeeps(d, d.root, name);
    ShapeIsLinked(d);
    ShapeIsLinked(e);
    forall v, x
      ensures StepTo(e, v, x) == StepTo(d, v, x)
    {
      RootIsNoChild(d, v);
      SameFind(d, e, v, x);
    }
    SameSteps(d, e, d.root, Parts(q));
  }

  lemma RootIsNoChild(d: DriveTree.Drive, v: Uid)
    requires Linked(d)
    ensures d.root !in KidsOf(d, v)
  {
    hide UpOk, ListsOk, FoldersOk;
  }

  // ----- moving -----

  lemma MovedRelinks(d: DriveTree.Drive, u: Uid, to: Uid)
    requires Shape(d) && u in d.objs && u != d.root && to in d.kids && to != ParentOf(d, u)
    requires Shape(Moved(d, u, to)) && !NameTaken(d, to, NameOf(d, u), u)
    ensures Relinked(d, Moved(d, u, to), ParentOf(d, u), NameOf(d, u), to, NameOf(d, u), u)
  {
    hide Ranked, NameTaken, StepTo, Moved, Linked, NameOf, ParentOf;
    forall v, x
      ensures StepTo(Moved(d, u, to), v, x)
              == if v == to && x == NameOf(d, u) then Some(u)
                 else if v == ParentOf(d, u) && x == NameOf(d, u) then None else StepTo(d, v, x)
    {
      MovedStep(d, u, to, v, x);
    }
    MovedRoot(d, u, to);
  }

  lemma MovedRoot(d: DriveTree.Drive, u: Uid, to: Uid)
    requires u in d.objs
    ensures Moved(d, u, to).root == d.root && forall c :: NameOf(Moved(d, u, to), c) == NameOf(d, c)
  {
  }

  lemma MovedLists(d: DriveTree.Drive, u: Uid, to: Uid)
    requires Linked(d) && u in d.objs && u != d.root && to in d.kids && to != ParentOf(d, u)
    ensures var e := Moved(d, u, to);
            forall v, c :: c in KidsOf(e, v) <==> if c == u then v == to else c in KidsOf(d, v)
  {
    hide ValidComponent, Distinct, NamesDiffer, ListsOk, Without, DownOk;
    MovedMembers(d, u, to);
    MovedFolders(d, u, to);
  }

  lemma MovedStep(d: DriveTree.Drive, u: Uid, to: Uid, v: Uid, x: string)
    requires Linked(d) && u in d.objs && u != d.root && to in d.kids && to != ParentOf(d, u)
    requires Linked(Moved(d, u, to))
    ensures StepTo(Moved(d, u, to), v, x)
            == if v == to && x == NameOf(d, u) then Some(u)
               else if v == ParentOf(d, u) && x == NameOf(d, u) then None else StepTo(d, v, x)
  {
    hide Linked, StepTo, Moved, NameOf, KidsOf;
    var e := Moved(d, u, to);
    MovedRoot(d, u, to);
    MovedLists(d, u, to);
    StepExactly(e, v, x, u);
    if x != NameOf(d, u) {
      OthersSame(d, e, v, u, x);
    } else if v == ParentOf(d, u) {
      UniqueStep(d, u);
      forall c | c in KidsOf(e, v)
        ensures NameOf(e, c) != x
      {
        StepExactly(d, v, x, c);
      }
      NoStep(e, v, x);
    } else if v != to {
      OnlyParentLists(d, u);
      SameFind(d, e, v, x);
    }
  }

  lemma UniqueStep(d: DriveTree.Drive, u: Uid)
    requires Linked(d) && u in d.objs && u != d.root
    ensures StepTo(d, ParentOf(d, u), NameOf(d, u)) == Some(u)
  {
    hide Linked;
    UniqueChild(d, u);
  }

  /** After an accepted move to another folder, which the path c names: in that folder, under the same name,
      and below it, is what was under the old path; under the old path there is nothing; every other path
      leads where it led. */
  lemma MoveMovesPaths(a: Account, path: string, dst: string, c: string, q: string)
    requires Shape(a.drive) && Moves(a.drive, path, dst)
    requires Resolve(a.drive, c) == FirstFolder(a.drive, Candidates(path, dst))
    requires ParentOf(a.drive, Resolve(a.drive, path).value) != Resolve(a.drive, c).value
    ensures var d, e := a.drive, After(a, Move(path, dst)).drive;
            var src := Parts(path);
            src != []
            && var there := Parts(c) + [src[|src| - 1]];
               Resolve(e, q) == if there <= Parts(q) then Walk(d, d.root, src + Parts(q)[|there|..])
                                else if src <= Parts(q) then None
                                else Resolve(d, q)
  {
    hide Shape, NameTaken, Walk, Linked, Relinked, Moved, Parts, Under, FirstFolder, Candidates, Shallow;
    var d, src := a.drive, Parts(path);
    var u, to := Resolve(d, path).value, Resolve(d, c).value;
    ShapeIsLinked(d);
    FirstFolderIs(d, Candidates(path, dst));
    NotBelowItself(d, u, to);
    if src == [] {
      WalkNothing(d, d.root);
      assert false;
    }
    LastStep(d, src);
    MoveKeeps(d, u, to);
    MovedRelinks(d, u, to);
    var p := src[..|src| - 1];
    assert p + [src[|src| - 1]] == src;
    if src <= Parts(c) {
      Through(d, d.root, src, Parts(c));
      WalkUnder(d, u, Parts(c)[|src|..]);
      assert false;
    }
    RelinkedWalk(d, Moved(d, u, to), p, src[|src| - 1], Parts(c), src[|src| - 1], u, Parts(q));
  }

  /** The destination of an accepted move is a folder of the drive, and not at or below the object. */
  lemma NotBelowItself(d: DriveTree.Drive, u: Uid, to: Uid)
    requires Shape(d) && u in d.objs && IsFolder(d, to) && (IsFolder(d, u) ==> !Under(d, to, u))
    ensures u != d.root && to in d.kids && !Under(d, to, u)
  {
    hide Under, DownOk, UpOk, ListsOk, Ranked;
    RootIsAbove(d, to);
    if !IsFolder(d, u) {
      FilesHoldNothing(d, to, u);
    }
  }

  /** The object is found in the folder it was moved to and no longer where it was. */
  lemma MovedIsFound(a: Account, path: string, dst: string, c: string, q: string, x: Uid)
    requires Shape(a.drive) && Moves(a.drive, path, dst)
    requires Resolve(a.drive, c) == FirstFolder(a.drive, Candidates(path, dst))
    requires ParentOf(a.drive, Resolve(a.drive, path).value) != Resolve(a.drive, c).value
    ensures var d, e := a.drive, After(a, Move(path, dst)).drive;
            var src, u := Parts(path), Resolve(d, path).value;
            && src != []
            && (Parts(q) == Parts(c) + [src[|src| - 1]] ==> Resolve(e, q) == Some(u))
            && (Parts(q) == src ==> Resolve(e, q) == None)
            && (Resolve(d, q) == Some(x) && !Under(d, x, u) ==> Resolve(e, q) == Some(x))
  {
    hide Shape, Walk, Linked, Moves, After, Under, Parts, FirstFolder, Candidates;
    MoveMovesPaths(a, path, dst, c, q);
    var d, src, ps := a.drive, Parts(path), Parts(q);
    MovesWhat(d, path, dst, c);
    var u := Resolve(d, path).value;
    ShapeIsLinked(d);
    var there := Parts(c) + [src[|src| - 1]];
    if ps == there {
      assert ps[|there|..] == [] && src + [] == src;
    }
    LastStep(d, src);
    if Resolve(d, q) == Some(x) && src <= ps {
      Through(d, d.root, src, ps);
      WalkUnder(d, u, ps[|src|..]);
    }
    if there <= src {
      assert src[|src| - 1] == NameOf(d, u);
      NothingThere(d, path, dst, c, src);
      assert false;
    }
    if Resolve(d, q) == Some(x) && there <= ps && !(src <= ps) {
      NothingThere(d, path, dst, c, ps);
    }
  }

  lemma MovesWhat(d: DriveTree.Drive, path: string, dst: string, c: string)
    requires Moves(d, path, dst) && Resolve(d, c) == FirstFolder(d, Candidates(path, dst))
    ensures Resolve(d, path).Some? && Walk(d, d.root, Parts(path)) == Resolve(d, path) && Resolve(d, c).Some?
    ensures Walk(d, d.root, Parts(c)) == Resolve(d, c) && Resolve(d, path).value in d.objs
    ensures !NameTaken(d, Resolve(d, c).value, NameOf(d, Resolve(d, path).value), Resolve(d, path).value)
  {
    hide FirstFolder, Candidates, Walk, Shallow, Under;
  }

  /** Before the move the folder had no such name. */
  lemma NothingThere(d: DriveTree.Drive, path: string, dst: string, c: string, ps: seq<string>)
    requires Shape(d) && Moves(d, path, dst) && Parts(path) != []
    requires Resolve(d, c) == FirstFolder(d, Candidates(path, dst))
    requires ParentOf(d, Resolve(d, path).value) != Resolve(d, c).value
    requires Parts(c) + [Parts(path)[|Parts(path)| - 1]] <= ps
    ensures Walk(d, d.root, ps) == None
  {
    hide Shape, Walk, Linked, Parts, StepTo, Moves, FirstFolder, Candidates;
    var src := Parts(path);
    MovesWhat(d, path, dst, c);
    var u, v := Resolve(d, path).value, Resolve(d, c).value;
    var name := src[|src| - 1];
    ShapeIsLinked(d);
    LastStep(d, src);
    WalkAppend(d, d.root, Parts(c), [name]);
    WalkOne(d, v, name);
    if StepTo(d, v, name).Some? {
      StepExactly(d, v, name, StepTo(d, v, name).value);
      StepChild(d, v, name);
      assert false;
    }
    Rejoined(Parts(c) + [name], ps);
    WalkAppend(d, d.root, Parts(c) + [name], ps[|Parts(c)| + 1..]);
  }

  // ----- making -----

  lemma MadeStep(d: DriveTree.Drive, p: Uid, uid: Uid, obj: Obj, v: Uid, x: string)
    requires Linked(d) && p in d.kids && uid !in d.objs && uid != p && Linked(Made(d, p, uid, obj))
    requires forall c :: c in d.kids[p] ==> NameOf(d, c) != obj.name
    ensures StepTo(Made(d, p, uid, obj), v, x)
            == if v == uid then None else if v == p && x == obj.name then Some(uid) else StepTo(d, v, x)
  {
    hide Linked, StepTo, Made;
    var e := Made(d, p, uid, obj);
    MadeKids(d, p, uid, obj);
    StepExactly(e, v, x, uid);
    if v == uid {
      NoStep(e, v, x);
    } else if v != p {
      SameFind(d, e, v, x);
    } else if x != obj.name {
      OthersSame(d, e, v, uid, x);
    }
  }

  lemma MadeKids(d: DriveTree.Drive, p: Uid, uid: Uid, obj: Obj)
    requires Linked(d) && p in d.kids && uid !in d.objs && uid != p
    ensures var e := Made(d, p, uid, obj);
            && e.root == d.root && KidsOf(e, uid) == [] && KidsOf(e, p) == KidsOf(d, p) + [uid]
            && (forall v :: v != uid && v != p ==> KidsOf(e, v) == KidsOf(d, v))
            && (forall v :: uid !in KidsOf(d, v)) && NameOf(e, uid) == obj.name && NameOf(d, uid) == ""
            && forall c :: c != uid ==> NameOf(e, c) == NameOf(d, c)
  {
    hide UpOk, ListsOk;
  }

  /** The new object is under its name in the folder, holds nothing, and every other path leads where it led. */
  lemma MadePaths(d: DriveTree.Drive, at: string, uid: Uid, obj: Obj, q: string)
    requires Shape(d) && Target(d, at, obj.name, uid).Some? && obj.parent == Target(d, at, obj.name, uid).value
    ensures var e := Made(d, obj.parent, uid, obj);
            Resolve(e, q) == if Parts(q) == Parts(at) + [obj.name] then Some(uid) else Resolve(d, q)
  {
    hide Shape, ValidComponent, Walk, Linked, Made, Parts, StepTo;
    var p, ps, to := obj.parent, Parts(q), Parts(at) + [obj.name];
    var e := Made(d, p, uid, obj);
    ShapeIsLinked(d);
    TargetMakes(d, p, uid, obj);
    ShapeIsLinked(e);
    TargetFree(d, at, uid, obj);
    forall v, x
      ensures StepTo(e, v, x) == if v == uid then None
                                 else if v == p && x == obj.name then Some(uid)
                                 else StepTo(d, v, x)
    {
      MadeStep(d, p, uid, obj, v, x);
    }
    MadeKids(d, p, uid, obj);
    NeverAt(d, uid);
    if to <= ps {
      MadeElsewhere(d, e, at, uid, obj, Parts(at));
      WalkAppend(e, e.root, Parts(at), [obj.name]);
      WalkOne(e, p, obj.name);
      if ps != to {
        NothingBelow(e, to, uid, ps);
        WalkAppend(d, d.root, Parts(at), [obj.name]);
        WalkOne(d, p, obj.name);
        NoStep(d, p, obj.name);
        Rejoined(to, ps);
        WalkAppend(d, d.root, to, ps[|to|..]);
      }
    } else {
      MadeElsewhere(d, e, at, uid, obj, ps);
    }
  }

  lemma TargetFree(d: DriveTree.Drive, at: string, uid: Uid, obj: Obj)
    requires Shape(d) && Target(d, at, obj.name, uid).Some? && obj.parent == Target(d, at, obj.name, uid).value
    ensures obj.parent in d.kids && uid != obj.parent && uid !in d.objs && Resolve(d, at) == Some(obj.parent)
    ensures forall c :: c in d.kids[obj.parent] ==> NameOf(d, c) != obj.name
  {
    hide ValidComponent, Walk, NameOf, UpOk, ListsOk, Ranked;
    NoEmptyUid(d);
    KidsIn(d, obj.parent);
  }

  lemma NeverAt(d: DriveTree.Drive, uid: Uid)
    requires Linked(d) && uid !in d.objs
    ensures forall ps :: Walk(d, d.root, ps) != Some(uid)
  {
    hide Walk, UpOk, ListsOk, DownOk, FoldersOk;
    forall ps
      ensures Walk(d, d.root, ps) != Some(uid)
    {
      if Walk(d, d.root, ps) == Some(uid) {
        WalkStays(d, d.root, ps);
      }
    }
  }

  lemma MadeElsewhere(d: DriveTree.Drive, e: DriveTree.Drive, at: string, uid: Uid, obj: Obj, ps: seq<string>)
    requires Linked(d) && e.root == d.root && Resolve(d, at) == Some(obj.parent)
    requires forall v, x :: StepTo(e, v, x) == if v == uid then None
                                               else if v == obj.parent && x == obj.name then Some(uid)
                                               else StepTo(d, v, x)
    requires forall a :: Walk(d, d.root, a) != Some(uid)
    requires !(Parts(at) + [obj.name] <= ps)
    ensures Walk(e, e.root, ps) == Walk(d, d.root, ps)
  {
    hide Walk, Linked, StepTo, Parts;
    forall i, v | 0 <= i < |ps| && Walk(d, d.root, ps[..i]) == Some(v)
      ensures StepTo(e, v, ps[i]) == StepTo(d, v, ps[i])
    {
      assert ps[..i] + [ps[i]] == ps[..i + 1];
      if v == obj.parent && ps[i] == obj.name {
        OnePath(d, ps[..i], Parts(at));
      }
    }
    SameSteps(d, e, d.root, ps);
  }

  lemma NothingBelow(e: DriveTree.Drive, to: seq<string>, v: Uid, ps: seq<string>)
    requires Walk(e, e.root, to) == Some(v) && to <= ps && ps != to && forall x :: StepTo(e, v, x) == None
    ensures Walk(e, e.root, ps) == None
  {
    hide Walk, StepTo;
    Rejoined(to, ps);
    var rest := ps[|to|..];
    WalkAppend(e, e.root, to, rest);
    assert rest == [rest[0]] + rest[1..];
    WalkAppend(e, v, [rest[0]], rest[1..]);
    WalkOne(e, v, rest[0]);
  }

  /** A folder that was made is where it was asked for, and no other path leads elsewhere than before. */
  lemma MkdirPaths(a: Account, path: string, name: string, uid: Uid, q: string)
    requires Shape(a.drive)
    ensures var at := if path == "" then "/" else path;
            var d, e := a.drive, After(a, Mkdir(path, name, uid)).drive;
            Target(d, at, name, uid).Some? ==>
              && Resolve(e, q) == (if Parts(q) == Parts(at) + [name] then Some(uid) else Resolve(d, q))
              && uid in e.objs && e.objs[uid].folder
  {
    hide Shape, ValidComponent, Walk, Parts, Target, Resolve;
    var at := if path == "" then "/" else path;
    if Target(a.drive, at, name, uid).Some? {
      MadePaths(a.drive, at, uid, Obj(true, name, Target(a.drive, at, name, uid).value, 0), q);
    }
  }

  /** So is a file, with its size. */
  lemma UploadPaths(a: Account, path: string, name: string, size: nat, uid: Uid, q: string)
    requires Shape(a.drive)
    ensures var d, e := a.drive, After(a, Upload(path, name, size, uid)).drive;
            if size <= MAX_FILE_BYTES && Checked(a, size) + size <= Limit(a) && Target(d, path, name, uid).Some? then
              && Resolve(e, q) == (if Parts(q) == Parts(path) + [name] then Some(uid) else Resolve(d, q))
              && uid in e.objs && !e.objs[uid].folder && e.objs[uid].size == size
            else e == d
  {
    hide Shape, ValidComponent, Walk, Parts, Target, Resolve, Counted;
    if Target(a.drive, path, name, uid).Some? {
      MadePaths(a.drive, path, uid, Obj(false, name, Target(a.drive, path, name, uid).value, size), q);
    }
  }

  // ----- deleting -----

  /** After an accepted deletion nothing is found at or below the path, and every other path leads where it
      led, also if the subtree goes deeper than the traversal. */
  lemma DeletedPaths(a: Account, path: string, q: string)
    requires Shape(a.drive) && Deletes(a.drive, path)
    ensures var d, e := a.drive, After(a, Delete(path)).drive;
            Resolve(e, q) == if Parts(path) <= Parts(q) then None else Resolve(d, q)
  {
    hide Shape, Walk, Linked, Deleted, Parts, StepTo, Within, Sum;
    var d, src, ps := a.drive, Parts(path), Parts(q);
    var u := Resolve(d, path).value;
    ShapeIsLinked(d);
    var gone := Within(d, u, 0);
    GoneIsUnder(d, u);
    var e := Deleted(d, u, gone);
    if src == [] {
      WalkNothing(d, d.root);
      assert false;
    }
    LastStep(d, src);
    var p := src[..|src| - 1];
    assert p + [src[|src| - 1]] == src;
    DeletedElsewhere(d, path, gone, p);
    DeletedRoot(d, u, gone);
    if src <= ps {
      WalkAppend(e, d.root, p, [NameOf(d, u)]);
      WalkOne(e, ParentOf(d, u), NameOf(d, u));
      Unlinked(d, u, gone);
      Rejoined(src, ps);
      WalkAppend(e, d.root, src, ps[|src|..]);
    } else {
      DeletedElsewhere(d, path, gone, ps);
    }
  }

  lemma DeletedRoot(d: DriveTree.Drive, u: Uid, gone: set<Uid>)
    ensures Deleted(d, u, gone).root == d.root
  {
  }

  lemma GoneIsUnder(d: DriveTree.Drive, u: Uid)
    requires Shape(d) && u in d.objs
    ensures forall x :: x in Within(d, u, 0) ==> Under(d, x, u)
  {
    hide Linked, Ranked, Reach, Near, Under;
    ReachMeans(d, u, CAP);
    forall x | x in Within(d, u, 0)
      ensures Under(d, x, u)
    {
      NearUnder(d, x, u, CAP);
    }
  }

  lemma Unlinked(d: DriveTree.Drive, u: Uid, gone: set<Uid>)
    requires Linked(d) && u in d.objs && u != d.root
    ensures StepTo(Deleted(d, u, gone), ParentOf(d, u), NameOf(d, u)) == None
  {
    hide Linked, StepTo, Without;
    var e := Deleted(d, u, gone);
    var v, x := ParentOf(d, u), NameOf(d, u);
    UniqueStep(d, u);
    ParentIn(d, u);
    WithoutMembers(KidsOf(d, v), u);
    forall c | c in KidsOf(e, v)
      ensures NameOf(e, c) != x
    {
      StepExactly(d, v, x, c);
      NotEmptyName(d, u);
    }
    NoStep(e, v, x);
  }

  lemma NotEmptyName(d: DriveTree.Drive, u: Uid)
    requires Linked(d) && u in d.objs && u != d.root
    ensures NameOf(d, u) != ""
  {
    hide DownOk, ListsOk, FoldersOk;
  }

  /** A folder that is not under u keeps its children, apart from u. */
  lemma DeletedStep(d: DriveTree.Drive, u: Uid, gone: set<Uid>, v: Uid, x: string)
    requires Linked(d) && u in d.objs && u != d.root && v in d.objs && !Under(d, v, u)
    requires forall c :: c in gone ==> Under(d, c, u)
    requires !(v == ParentOf(d, u) && x == NameOf(d, u))
    ensures StepTo(Deleted(d, u, gone), v, x) == StepTo(d, v, x)
  {
    hide Linked, StepTo, Under, Without;
    var e := Deleted(d, u, gone);
    forall c | c in KidsOf(d, v) && c != u
      ensures c !in gone && NameOf(e, c) == NameOf(d, c)
    {
      ChildNotUnder(d, v, c, u);
    }
    OnlyParentLists(d, u);
    KeptFind(d, e, u, v, x);
  }

  lemma ChildNotUnder(d: DriveTree.Drive, v: Uid, c: Uid, u: Uid)
    requires Linked(d) && c in KidsOf(d, v) && c != u && !Under(d, v, u)
    ensures !Under(d, c, u)
  {
    hide UpOk, ListsOk, FoldersOk, Under;
    UnderParent(d, c, u);
  }

  /** The order of a list decides nothing when its names differ; e need not be of the right shape. */
  lemma KeptFind(d: DriveTree.Drive, e: DriveTree.Drive, u: Uid, v: Uid, x: string)
    requires Linked(d) && !(u in KidsOf(d, v) && NameOf(d, u) == x)
    requires KidsOf(e, v) == Without(KidsOf(d, v), u) || (KidsOf(e, v) == KidsOf(d, v) && u !in KidsOf(d, v))
    requires forall c :: c in KidsOf(d, v) && c != u ==> NameOf(e, c) == NameOf(d, c)
    ensures StepTo(e, v, x) == StepTo(d, v, x)
  {
    hide Linked, FindByName, KidsOf, NameOf, Without;
    WithoutMembers(KidsOf(d, v), u);
    FindByNameMeans(e, KidsOf(e, v), x);
    FindByNameMeans(d, KidsOf(d, v), x);
    if StepTo(e, v, x).Some? {
      StepExactly(d, v, x, StepTo(e, v, x).value);
    }
  }

  lemma DeletedElsewhere(d: DriveTree.Drive, path: string, gone: set<Uid>, ps: seq<string>)
    requires Linked(d) && Deletes(d, path) && !(Parts(path) <= ps)
    requires forall c :: c in gone ==> Under(d, c, Resolve(d, path).value)
    ensures Walk(Deleted(d, Resolve(d, path).value, gone), d.root, ps) == Walk(d, d.root, ps)
  {
    hide Walk, Linked, StepTo, Parts, Under, Deleted;
    var u, src := Resolve(d, path).value, Parts(path);
    var e := Deleted(d, u, gone);
    if src == [] {
      WalkNothing(d, d.root);
      assert false;
    }
    LastStep(d, src);
    assert src[..|src| - 1] + [src[|src| - 1]] == src;
    forall i, v | 0 <= i < |ps| && Walk(d, d.root, ps[..i]) == Some(v)
      ensures StepTo(e, v, ps[i]) == StepTo(d, v, ps[i])
    {
      assert ps[..i] + [ps[i]] == ps[..i + 1];
      if v == ParentOf(d, u) && ps[i] == NameOf(d, u) {
        OnePath(d, ps[..i], src[..|src| - 1]);
      }
      InDriveWalk(d, ps[..i]);
      NotYetUnder(d, src, ps[..i]);
      DeletedStep(d, u, gone, v, ps[i]);
    }
    SameSteps(d, e, d.root, ps);
  }

  lemma InDriveWalk(d: DriveTree.Drive, ps: seq<string>)
    requires Linked(d) && Walk(d, d.root, ps).Some?
    ensures Walk(d, d.root, ps).value in d.objs
  {
    hide Walk, UpOk, ListsOk, DownOk, FoldersOk;
    WalkStays(d, d.root, ps);
  }

  /** What lies under u is reached through u. */
  lemma {:induction false} NotYetUnder(d: DriveTree.Drive, src: seq<string>, ps: seq<string>)
    requires Linked(d) && Walk(d, d.root, src).Some? && Walk(d, d.root, ps).Some? && !(src <= ps)
    requires Walk(d, d.root, src).value in d.objs && Walk(d, d.root, src).value != d.root
    ensures !Under(d, Walk(d, d.root, ps).value, Walk(d, d.root, src).value)
    decreases |ps|
  {
    hide Walk, Linked, Under;
    var u, v := Walk(d, d.root, src).value, Walk(d, d.root, ps).value;
    if v == u {
      OnePath(d, src, ps);
      assert false;
    }
    UnderParent(d, v, u);
    if ps == [] {
      WalkNothing(d, d.root);
      NothingOverRoot(d, u);
    } else {
      LastStep(d, ps);
      var init := ps[..|ps| - 1];
      assert src <= init ==> src <= ps;
      NotYetUnder(d, src, init);
    }
  }

  lemma NothingOverRoot(d: DriveTree.Drive, u: Uid)
    requires Linked(d) && u in d.objs && u != d.root
    ensures !Under(d, d.root, u)
  {
    hide DownOk, ListsOk, FoldersOk, UpOk;
    if Under(d, d.root, u) {
      var n: nat :| Up(d, d.root, n) == u;
      UpShift(d, d.root, n - 1);
      EmptyUp(d, n - 1);
      assert false;
    }
  }

  lemma EmptyUp(d: DriveTree.Drive, n: nat)
    requires Linked(d)
    ensures Up(d, "", n) == "" && "" !in d.objs
  {
    hide Linked;
    OutsideUp(d, "", n);
  }

  // ----- where a move goes -----

  lemma PartsAppend(a: string, b: string)
    ensures Parts(a + "/" + b) == Parts(a) + Parts(b)
  {
    hide Tokens.Split;
    assert a + "/" + b == a + ['/'] + b;
    Tokens.SplitAppend(a, b, '/');
  }

  /** Slashes at the end do not matter. */
  lemma {:induction false} PartsTrimmed(path: string)
    ensures LastNot(path, '/') == None ==> Parts(path) == []
    ensures LastNot(path, '/').Some? ==> Parts(path) == Parts(path[..LastNot(path, '/').value + 1])
    decreases |path|
  {
    hide Tokens.Split;
    Tokens.SplitNothing('/');
    if path != [] && path[|path| - 1] == '/' {
      var init := path[..|path| - 1];
      PartsTrimmed(init);
      assert path == init + "/" + "";
      PartsAppend(init, "");
      SlashIsRoot();
      if LastNot(init, '/').Some? {
        assert init[..LastNot(init, '/').value + 1] == path[..LastNot(init, '/').value + 1];
      }
    } else if path != [] {
      assert path[..|path|] == path;
    } else {
      SlashIsRoot();
    }
  }

  lemma {:induction false} LastOfMeans(s: string, c: char, end: nat)
    requires end < |s|
    ensures LastOf(s, c, end) == None ==> forall i :: 0 <= i <= end ==> s[i] != c
    ensures LastOf(s, c, end).Some? ==> forall i :: LastOf(s, c, end).value < i <= end ==> s[i] != c
  {
    if s[end] != c && end > 0 {
      LastOfMeans(s, c, end - 1);
    }
  }

  lemma LastNotMeans(s: string, c: char)
    ensures LastNot(s, c).Some? ==> s[LastNot(s, c).value] != c
  {
    if s != [] && s[|s| - 1] == c {
      LastNotMeans(s[..|s| - 1], c);
    }
  }

  /** The parent path has all names but the last, and the base name is the last. */
  lemma PathEnds(path: string)
    ensures var ps := Parts(path);
            && (ps == [] ==> Parts(ParentPath(path)) == [] && Basename(path) == "")
            && (ps != [] ==> Parts(ParentPath(path)) == ps[..|ps| - 1] && Basename(path) == ps[|ps| - 1])
  {
    hide Tokens.Split, LastOf, LastNot, Parts;
    SlashIsRoot();
    PartsTrimmed(path);
    LastNotMeans(path, '/');
    EmptyHasNoEnd();
    if LastNot(path, '/').Some? {
      var end := LastNot(path, '/').value;
      var core := path[..end + 1];
      LastOfMeans(path, '/', end);
      var slash := LastOf(path, '/', end);
      if slash == None {
        assert core == path[..end + 1] && forall i :: 0 <= i < |core| ==> core[i] != '/';
        PartsPlain(core);
      } else {
        var k := slash.value;
        var base := path[k + 1..end + 1];
        assert core == path[..k] + "/" + base;
        assert forall i :: 0 <= i < |base| ==> base[i] == path[k + 1 + i] && base[i] != '/';
        PartsAppend(path[..k], base);
        PartsPlain(base);
        if k == 0 {
          assert path[..k] == "";
        }
      }
    }
  }

  lemma EmptyHasNoEnd()
    ensures LastNot("", '/') == None && LastNot("/", '/') == None
  {
    assert "/"[..0] == "";
  }

  lemma PartsPlain(x: string)
    requires x != "" && forall i :: 0 <= i < |x| ==> x[i] != '/'
    ensures Parts(x) == [x]
  {
    hide Tokens.Split;
    Tokens.SplitPlain(x, '/');
  }

  lemma JoinedParts(parent: string, name: string)
    ensures Parts(JoinPath(parent, name)) == Parts(parent) + Parts(name)
  {
    hide Parts;
    SlashIsRoot();
    PartsAppend("", name);
    PartsAppend(parent, name);
    assert "" + "/" + name == "/" + name;
  }

  /** The folders above that bear the name, the nearest first. */
  function Above(ps: seq<string>, name: string): seq<seq<string>> {
    if ps == [] then []
    else (if ps[|ps| - 1] == name then [ps] else []) + Above(ps[..|ps| - 1], name)
  }

  /** The places that a destination may mean: the path itself, and if it does not begin with a slash also the
      path from the folder that holds the object, and each folder above the object with that name. */
  function Places(src: string, dst: string): seq<seq<string>> {
    var ps := Parts(src);
    var parent := if ps == [] then [] else ps[..|ps| - 1];
    if dst != "" && dst[0] != '/' then [Parts(dst), parent + Parts(dst)] + Above(parent, dst) else [Parts(dst)]
  }

  function FirstAt(d: DriveTree.Drive, places: seq<seq<string>>): Option<Uid> {
    if places == [] then None
    else
      var u := Walk(d, d.root, places[0]);
      if u.Some? && IsFolder(d, u.value) then u else FirstAt(d, places[1..])
  }

  lemma {:induction false} FirstAtAppend(d: DriveTree.Drive, a: seq<seq<string>>, b: seq<seq<string>>)
    ensures FirstAt(d, a + b) == if FirstAt(d, a).Some? then FirstAt(d, a) else FirstAt(d, b)
  {
    hide Walk;
    if a == [] {
      assert a + b == b;
    } else {
      assert (a + b)[1..] == a[1..] + b;
      FirstAtAppend(d, a[1..], b);
    }
  }

  lemma {:induction false} FirstFolderAppend(d: DriveTree.Drive, a: seq<string>, p: string)
    ensures FirstFolder(d, a + [p]) == if FirstFolder(d, a).Some? then FirstFolder(d, a) else FirstFolder(d, [p])
    ensures p in a && FirstFolder(d, a) == None ==> FirstFolder(d, [p]) == None
  {
    hide Resolve;
    if a == [] {
      assert a + [p] == [p];
    } else {
      assert (a + [p])[1..] == a[1..] + [p] && [p][1..] == [];
      FirstFolderAppend(d, a[1..], p);
    }
  }

  /** Listing a candidate twice makes no difference. */
  lemma AddedCandidate(d: DriveTree.Drive, cs: seq<string>, p: string)
    requires p != ""
    ensures FirstFolder(d, AddCandidate(cs, p))
            == if FirstFolder(d, cs).Some? then FirstFolder(d, cs) else FirstAt(d, [Parts(p)])
  {
    hide Parts, Walk;
    FirstFolderAppend(d, cs, p);
    assert [Parts(p)][1..] == [] && [p][1..] == [];
  }

  lemma {:induction false} NamedAncestorsAre(d: DriveTree.Drive, cs: seq<string>, cur: string, name: string)
    requires name != ""
    ensures FirstFolder(d, NamedAncestors(cs, cur, name))
            == if FirstFolder(d, cs).Some? then FirstFolder(d, cs) else FirstAt(d, Above(Parts(cur), name))
    decreases if cur == "/" then 0 else |cur|
  {
    hide Parts, ParentPath, Basename, FirstFolder, FirstAt, AddCandidate;
    PathEnds(cur);
    SlashIsRoot();
    FirstAtNothing(d);
    var ps := Parts(cur);
    if cur != "" && cur != "/" {
      var next := if Basename(cur) == name then AddCandidate(cs, cur) else cs;
      NamedAncestorsAre(d, next, ParentPath(cur), name);
      AddedCandidate(d, cs, cur);
      if ps != [] {
        var up := Above(ps[..|ps| - 1], name);
        FirstAtAppend(d, [ps], up);
        assert [] + up == up;
      }
    }
  }

  lemma FirstAtNothing(d: DriveTree.Drive)
    ensures FirstAt(d, []) == None && FirstFolder(d, []) == None
  {
  }

  /** The destination of a move is the first of these places that is a folder. */
  lemma DestinationIs(d: DriveTree.Drive, src: string, dst: string)
    requires dst != ""
    ensures FirstFolder(d, Candidates(src, dst)) == FirstAt(d, Places(src, dst))
  {
    hide Parts, ParentPath, Basename, FirstFolder, FirstAt, AddCandidate, NamedAncestors, JoinPath, Above;
    FirstAtNothing(d);
    AddedCandidate(d, [], dst);
    if dst[0] != '/' {
      var first := AddCandidate([], dst);
      AddedCandidate(d, first, "/" + dst);
      var second := AddCandidate(first, "/" + dst);
      SlashInFront(dst);
      PathEnds(src);
      JoinedParts(ParentPath(src), dst);
      JoinedIsText(ParentPath(src), dst);
      AddedCandidate(d, second, JoinPath(ParentPath(src), dst));
      var third := AddCandidate(second, JoinPath(ParentPath(src), dst));
      NamedAncestorsAre(d, third, ParentPath(src), dst);
      var here, up := Parts(ParentPath(src)) + Parts(dst), Above(Parts(ParentPath(src)), dst);
      FirstAtAppend(d, [Parts(dst), here], up);
      FirstAtAppend(d, [Parts(dst)], [here]);
      assert [Parts(dst)] + [here] == [Parts(dst), here];
    }
  }

  lemma SlashInFront(dst: string)
    ensures Parts("/" + dst) == Parts(dst)
  {
    hide Parts;
    PartsAppend("", dst);
    SlashIsRoot();
    assert "" + "/" + dst == "/" + dst;
  }

  lemma JoinedIsText(parent: string, name: string)
    ensures JoinPath(parent, name) != ""
  {
  }
}
