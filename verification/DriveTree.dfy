/** The shape of a user's drive and what each change keeps (frontend/src/fe_server.cc:5841-5989).

    An object row is a record here; the "children" column of a folder is its list of uids, see `Csv` for
    the text. A missing column reads as the empty string, so lookups are total.
 */
module DriveTree {
  import opened Bytes
  import opened Listing

  type Uid = string

  datatype Obj = Obj(folder: bool, name: string, parent: Uid, size: nat)
  datatype Drive = Drive(root: Uid, objs: map<Uid, Obj>, kids: map<Uid, seq<Uid>>)

  function ParentOf(d: Drive, u: Uid): Uid {
    if u in d.objs then d.objs[u].parent else ""
  }

  function NameOf(d: Drive, u: Uid): string {
    if u in d.objs then d.objs[u].name else ""
  }

  function KidsOf(d: Drive, u: Uid): seq<Uid> {
    if u in d.kids then d.kids[u] else []
  }

  predicate IsFolder(d: Drive, u: Uid) {
    u in d.objs && d.objs[u].folder
  }

  predicate ValidComponent(name: string) {
    && name != "" && '/' !in name && name != "." && name != ".."
    && name[0] != ' ' && name[|name| - 1] != ' '
    && forall i :: 0 <= i < |name| ==> name[i] >= ' ' && name[i] as int != 0x7f
  }

  /** Names that are taken and names that are not. */
  lemma ValidKnown()
    ensures ValidComponent("a") && ValidComponent("a b") && ValidComponent("...") && ValidComponent(".a")
    ensures !ValidComponent("") && !ValidComponent(".") && !ValidComponent("..") && !ValidComponent("a/b")
    ensures !ValidComponent(" a") && !ValidComponent("a ") && !ValidComponent("a\tb") && !ValidComponent("a\n")
  {
    assert "a/b"[1] == '/' && " a"[0] == ' ' && "a "[1] == ' ' && "a\tb"[1] == '\t' && "a\n"[1] == '\n';
  }

  predicate NamesDiffer(d: Drive, us: seq<Uid>) {
    forall a, b :: a in us && b in us && NameOf(d, a) == NameOf(d, b) ==> a == b
  }

  ghost predicate RootOk(d: Drive) {
    d.root != "" && IsFolder(d, d.root) && d.objs[d.root].parent == ""
  }

  /** Exactly the folders have a list of children. */
  ghost predicate FoldersOk(d: Drive) {
    forall u :: u in d.kids <==> IsFolder(d, u)
  }

  /** A child names the folder it is listed in as its parent. */
  ghost predicate DownOk(d: Drive) {
    forall u, c :: u in d.kids && c in d.kids[u] ==> c in d.objs && c != d.root && d.objs[c].parent == u
  }

  /** An object other than the root is listed by the folder it names as its parent. */
  ghost predicate UpOk(d: Drive) {
    forall u :: u in d.objs && u != d.root ==>
      u != "" && d.objs[u].parent in d.kids && u in d.kids[d.objs[u].parent] && ValidComponent(d.objs[u].name)
  }

  ghost predicate ListsOk(d: Drive) {
    forall u :: u in d.kids ==> Distinct(d.kids[u]) && NamesDiffer(d, d.kids[u])
  }

  /** Parent and child links agree and siblings have different names. */
  ghost predicate Linked(d: Drive) {
    RootOk(d) && FoldersOk(d) && DownOk(d) && UpOk(d) && ListsOk(d)
  }

  /** Ranks that fall towards the root: there is no cycle of parents. */
  ghost predicate Ranked(d: Drive, rank: map<Uid, nat>) {
    forall u :: u in d.objs ==>
      u in rank && (u != d.root ==> d.objs[u].parent in rank && rank[d.objs[u].parent] < rank[u])
  }

  ghost predicate Shape(d: Drive) {
    Linked(d) && exists rank :: Ranked(d, rank)
  }

  // ----- ancestors -----

  function Up(d: Drive, u: Uid, n: nat): Uid {
    if n == 0 then u else ParentOf(d, Up(d, u, n - 1))
  }

  /** a is x or one of its ancestors. */
  ghost predicate Under(d: Drive, x: Uid, a: Uid) {
    exists n: nat :: Up(d, x, n) == a
  }

  lemma {:induction false} UpShift(d: Drive, u: Uid, n: nat)
    ensures Up(d, u, n + 1) == Up(d, ParentOf(d, u), n)
  {
    if n > 0 {
      UpShift(d, u, n - 1);
    }
  }

  lemma {:induction false} UpTwice(d: Drive, u: Uid, m: nat, n: nat)
    ensures Up(d, Up(d, u, m), n) == Up(d, u, m + n)
  {
    if n > 0 {
      UpTwice(d, u, m, n - 1);
    }
  }

  lemma {:induction false} UpRank(d: Drive, rank: map<Uid, nat>, u: Uid, n: nat)
    requires Linked(d) && Ranked(d, rank) && u in d.objs && Up(d, u, n) in d.objs
    ensures Up(d, u, n) in rank && u in rank && rank[Up(d, u, n)] + n <= rank[u]
  {
    hide DownOk, ListsOk, FoldersOk, RootOk, ValidComponent;
    if n > 0 {
      var v := Up(d, u, n - 1);
      if v !in d.objs || v == d.root {
        NothingAbove(d, u, n);
      }
      UpRank(d, rank, u, n - 1);
    }
  }

  /** Above the root, or outside the drive, there is nothing. */
  lemma NothingAbove(d: Drive, u: Uid, n: nat)
    requires Linked(d) && n > 0 && (Up(d, u, n - 1) !in d.objs || Up(d, u, n - 1) == d.root)
    ensures Up(d, u, n) == "" && "" !in d.objs
  {
    hide DownOk, ListsOk, FoldersOk;
  }

  /** Being under u passes from an object to its parent and back, except at u itself. */
  lemma UnderParent(d: Drive, x: Uid, u: Uid)
    ensures Under(d, ParentOf(d, x), u) ==> Under(d, x, u)
    ensures Under(d, x, u) && x != u ==> Under(d, ParentOf(d, x), u)
    ensures Under(d, u, u)
  {
    if Under(d, ParentOf(d, x), u) {
      var n: nat :| Up(d, ParentOf(d, x), n) == u;
      UpShift(d, x, n);
      assert Up(d, x, n + 1) == u;
    }
    if Under(d, x, u) && x != u {
      var n: nat :| Up(d, x, n) == u;
      UpShift(d, x, n - 1);
      assert Up(d, ParentOf(d, x), n - 1) == u;
    }
    assert Up(d, u, 0) == u;
  }

  // ----- making, renaming, moving -----

  /** A new object, linked into its parent's list. */
  function Made(d: Drive, parent: Uid, u: Uid, obj: Obj): Drive {
    var kids := if obj.folder then d.kids[u := []] else d.kids;
    d.(objs := d.objs[u := obj], kids := kids[parent := KidsOf(d, parent) + [u]])
  }

  lemma MadeShape(d: Drive, parent: Uid, u: Uid, obj: Obj)
    requires Shape(d) && parent in d.kids && u != "" && u !in d.objs
    requires obj.parent == parent && ValidComponent(obj.name)
    requires forall c :: c in d.kids[parent] ==> NameOf(d, c) != obj.name
    ensures Shape(Made(d, parent, u, obj))
  {
    hide ValidComponent, RootOk, FoldersOk, DownOk, UpOk, ListsOk, Made, Ranked;
    MadeLinks(d, parent, u, obj);
    MadeLists(d, parent, u, obj);
    var rank :| Ranked(d, rank);
    MadeRanks(d, parent, u, obj, rank);
    assert Ranked(Made(d, parent, u, obj), rank[u := (if parent in rank then rank[parent] else 0) + 1]);
  }

  lemma MadeRanks(d: Drive, parent: Uid, u: Uid, obj: Obj, rank: map<Uid, nat>)
    requires Linked(d) && Ranked(d, rank) && parent in d.kids && u !in d.objs && obj.parent == parent
    ensures Ranked(Made(d, parent, u, obj), rank[u := (if parent in rank then rank[parent] else 0) + 1])
  {
    hide ValidComponent, DownOk, ListsOk;
    assert parent in d.objs;
  }

  lemma MadeLinks(d: Drive, parent: Uid, u: Uid, obj: Obj)
    requires Linked(d) && parent in d.kids && u != "" && u !in d.objs
    requires obj.parent == parent && ValidComponent(obj.name)
    ensures var e := Made(d, parent, u, obj);
            RootOk(e) && FoldersOk(e) && DownOk(e) && UpOk(e)
  {
    hide ValidComponent, ListsOk, DownOk, UpOk, FoldersOk;
    MadeDown(d, parent, u, obj);
    MadeUp(d, parent, u, obj);
    MadeFolders(d, parent, u, obj);
  }

  lemma MadeFolders(d: Drive, parent: Uid, u: Uid, obj: Obj)
    requires Linked(d) && parent in d.kids && u !in d.objs
    ensures FoldersOk(Made(d, parent, u, obj))
  {
    hide ValidComponent, ListsOk, DownOk, UpOk;
    assert u !in d.kids && parent in d.objs;
  }

  lemma MadeDown(d: Drive, parent: Uid, u: Uid, obj: Obj)
    requires Linked(d) && parent in d.kids && u !in d.objs && obj.parent == parent
    ensures DownOk(Made(d, parent, u, obj))
  {
    hide ValidComponent, ListsOk, UpOk;
    var e := Made(d, parent, u, obj);
    assert u !in d.kids;
    forall v, c | v in e.kids && c in e.kids[v]
      ensures c in e.objs && c != e.root && e.objs[c].parent == v
    {
      if v in d.kids && c in d.kids[v] {
        assert c in d.objs && c != u;
      } else {
        assert c == u && v == parent;
      }
    }
  }

  lemma MadeUp(d: Drive, parent: Uid, u: Uid, obj: Obj)
    requires Linked(d) && parent in d.kids && u != "" && u !in d.objs && obj.parent == parent
             && ValidComponent(obj.name)
    ensures UpOk(Made(d, parent, u, obj))
  {
    hide ValidComponent, ListsOk, DownOk;
    var e := Made(d, parent, u, obj);
    assert u !in d.kids;
    forall v | v in e.objs && v != e.root
      ensures v != "" && e.objs[v].parent in e.kids && v in e.kids[e.objs[v].parent] && ValidComponent(e.objs[v].name)
    {
      if v != u {
        var p := d.objs[v].parent;
        assert p in d.kids && v in d.kids[p] && p != u;
        assert d.kids[p] <= e.kids[p];
      }
    }
  }

  lemma MadeLists(d: Drive, parent: Uid, u: Uid, obj: Obj)
    requires Linked(d) && parent in d.kids && u !in d.objs
    requires forall c :: c in d.kids[parent] ==> NameOf(d, c) != obj.name
    ensures ListsOk(Made(d, parent, u, obj))
  {
    hide ValidComponent, Distinct, NamesDiffer, UpOk;
    var e := Made(d, parent, u, obj);
    assert u !in d.kids;
    forall v | v in e.kids
      ensures Distinct(e.kids[v]) && NamesDiffer(e, e.kids[v])
    {
      if v == u {
        NoNames(e);
      } else {
        assert forall c :: c in d.kids[v] ==> c in d.objs && c != u && NameOf(e, c) == NameOf(d, c);
        SameNames(d, e, d.kids[v]);
        if v == parent {
          OneMoreName(e, d.kids[parent], u);
        }
      }
    }
  }

  lemma NoNames(d: Drive)
    ensures Distinct([]) && NamesDiffer(d, [])
  {
  }

  lemma SameNames(d: Drive, e: Drive, us: seq<Uid>)
    requires forall c :: c in us ==> NameOf(e, c) == NameOf(d, c)
    ensures NamesDiffer(d, us) ==> NamesDiffer(e, us)
  {
    hide NameOf;
  }

  lemma OneMoreName(d: Drive, us: seq<Uid>, u: Uid)
    requires Distinct(us) && NamesDiffer(d, us) && u !in us
    requires forall c :: c in us ==> NameOf(d, c) != NameOf(d, u)
    ensures Distinct(us + [u]) && NamesDiffer(d, us + [u])
  {
    hide NameOf;
  }

  function Renamed(d: Drive, u: Uid, name: string): Drive
    requires u in d.objs
  {
    d.(objs := d.objs[u := d.objs[u].(name := name)])
  }

  /** The root may be renamed too: its name is never part of a path. */
  lemma RenamedShape(d: Drive, u: Uid, name: string)
    requires Shape(d) && u in d.objs && ValidComponent(name)
    requires forall c :: c in KidsOf(d, ParentOf(d, u)) && c != u ==> NameOf(d, c) != name
    ensures Shape(Renamed(d, u, name))
  {
    hide ValidComponent, Distinct, NamesDiffer;
    var e := Renamed(d, u, name);
    RenamedLists(d, u, name);
    RenamedLinks(d, u, name);
    var rank :| Ranked(d, rank);
    assert Ranked(e, rank);
  }

  /** Same links: same root, same lists, and each object with the same parent and of the same kind. */
  ghost predicate SameLinks(d: Drive, e: Drive) {
    && e.root == d.root && e.kids == d.kids && e.objs.Keys == d.objs.Keys
    && forall x :: x in d.objs ==> e.objs[x].parent == d.objs[x].parent && e.objs[x].folder == d.objs[x].folder
  }

  lemma SameFolders(d: Drive, e: Drive)
    requires SameLinks(d, e) && RootOk(d) && FoldersOk(d)
    ensures RootOk(e) && FoldersOk(e)
  {
    assert forall u :: IsFolder(e, u) <==> IsFolder(d, u);
  }

  lemma SameDown(d: Drive, e: Drive)
    requires SameLinks(d, e) && DownOk(d)
    ensures DownOk(e)
  {
  }

  lemma SameUp(d: Drive, e: Drive)
    requires SameLinks(d, e) && UpOk(d) && forall x :: x in d.objs && x != d.root ==> ValidComponent(e.objs[x].name)
    ensures UpOk(e)
  {
    hide ValidComponent;
  }

  lemma RenamedLinks(d: Drive, u: Uid, name: string)
    requires Linked(d) && u in d.objs && ValidComponent(name)
    ensures var e := Renamed(d, u, name);
            RootOk(e) && FoldersOk(e) && DownOk(e) && UpOk(e)
  {
    hide ValidComponent, ListsOk, RootOk, FoldersOk, DownOk, SameLinks;
    var e := Renamed(d, u, name);
    RenamedSame(d, u, name);
    SameFolders(d, e);
    SameDown(d, e);
    forall x | x in d.objs && x != d.root
      ensures ValidComponent(e.objs[x].name)
    {
      assert x != u ==> e.objs[x] == d.objs[x];
    }
    SameUp(d, e);
  }

  lemma RenamedSame(d: Drive, u: Uid, name: string)
    requires u in d.objs
    ensures SameLinks(d, Renamed(d, u, name))
  {
  }

  lemma RenamedLists(d: Drive, u: Uid, name: string)
    requires Linked(d) && u in d.objs
    requires forall c :: c in KidsOf(d, ParentOf(d, u)) && c != u ==> NameOf(d, c) != name
    ensures ListsOk(Renamed(d, u, name))
  {
    hide ValidComponent, Distinct, UpOk;
    var e := Renamed(d, u, name);
    forall v | v in e.kids
      ensures NamesDiffer(e, e.kids[v])
    {
      if u in d.kids[v] {
        assert v == ParentOf(d, u);
      }
    }
  }

  function Moved(d: Drive, u: Uid, dst: Uid): Drive
    requires u in d.objs
  {
    var from := d.objs[u].parent;
    var kids := d.kids[from := Without(KidsOf(d, from), u)];
    d.(objs := d.objs[u := d.objs[u].(parent := dst)],
       kids := kids[dst := (if dst in kids then kids[dst] else []) + [u]])
  }

  lemma MovedShape(d: Drive, u: Uid, dst: Uid)
    requires Shape(d) && u in d.objs && u != d.root && dst in d.kids && dst != d.objs[u].parent
    requires !Under(d, dst, u)
    requires forall c :: c in d.kids[dst] && c != u ==> NameOf(d, c) != NameOf(d, u)
    ensures Shape(Moved(d, u, dst))
  {
    hide Ranked, Linked, Under;
    var rank :| Ranked(d, rank);
    MovedLinks(d, u, dst);
    MovedRanks(d, u, dst, rank);
  }

  lemma MovedLinks(d: Drive, u: Uid, dst: Uid)
    requires Linked(d) && u in d.objs && u != d.root && dst in d.kids && dst != d.objs[u].parent
    requires forall c :: c in d.kids[dst] && c != u ==> NameOf(d, c) != NameOf(d, u)
    ensures Linked(Moved(d, u, dst))
  {
    hide ValidComponent, ListsOk, DownOk, UpOk, FoldersOk;
    MovedMembers(d, u, dst);
    MovedLists(d, u, dst);
    MovedDown(d, u, dst);
    MovedUp(d, u, dst);
    MovedFolders(d, u, dst);
  }

  lemma MovedFolders(d: Drive, u: Uid, dst: Uid)
    requires Linked(d) && u in d.objs && u != d.root && dst in d.kids
    ensures FoldersOk(Moved(d, u, dst)) && Moved(d, u, dst).kids.Keys == d.kids.Keys
  {
    hide ValidComponent, ListsOk, DownOk, Without;
    assert d.objs[u].parent in d.kids;
  }

  lemma MovedDown(d: Drive, u: Uid, dst: Uid)
    requires Linked(d) && u in d.objs && u != d.root && dst in d.kids && dst != d.objs[u].parent
    ensures DownOk(Moved(d, u, dst))
  {
    hide ValidComponent, ListsOk, Without, UpOk, FoldersOk;
    MovedMembers(d, u, dst);
    MovedFolders(d, u, dst);
    var e := Moved(d, u, dst);
    forall v, c | v in e.kids && c in e.kids[v]
      ensures c in e.objs && c != e.root && e.objs[c].parent == v
    {
      if c != u {
        assert c in d.kids[v];
      }
    }
  }

  lemma MovedUp(d: Drive, u: Uid, dst: Uid)
    requires Linked(d) && u in d.objs && u != d.root && dst in d.kids && dst != d.objs[u].parent
    ensures UpOk(Moved(d, u, dst))
  {
    hide ValidComponent, ListsOk, Without, DownOk, FoldersOk;
    MovedMembers(d, u, dst);
    MovedFolders(d, u, dst);
    var e := Moved(d, u, dst);
    forall v | v in e.objs && v != e.root
      ensures v != "" && e.objs[v].parent in e.kids && v in e.kids[e.objs[v].parent] && ValidComponent(e.objs[v].name)
    {
      assert d.objs[v].parent in d.kids && v in d.kids[d.objs[v].parent];
    }
  }

  /** What each folder lists after the move. */
  lemma MovedMembers(d: Drive, u: Uid, dst: Uid)
    requires Linked(d) && u in d.objs && u != d.root && dst in d.kids && dst != d.objs[u].parent
    ensures var e := Moved(d, u, dst);
            forall v, c :: v in d.kids ==> (c in e.kids[v] <==> if c == u then v == dst else c in d.kids[v])
  {
    hide ValidComponent, Distinct, NamesDiffer, ListsOk;
    var from := d.objs[u].parent;
    WithoutMembers(d.kids[from], u);
    var e := Moved(d, u, dst);
    forall v, c | v in d.kids
      ensures c in e.kids[v] <==> if c == u then v == dst else c in d.kids[v]
    {
      if c == u && c in d.kids[v] {
        assert v == from;
      }
    }
  }

  lemma MovedLists(d: Drive, u: Uid, dst: Uid)
    requires Linked(d) && u in d.objs && u != d.root && dst in d.kids && dst != d.objs[u].parent
    requires forall c :: c in d.kids[dst] && c != u ==> NameOf(d, c) != NameOf(d, u)
    ensures ListsOk(Moved(d, u, dst))
  {
    hide ValidComponent, Distinct, NamesDiffer, UpOk, Without;
    var from := d.objs[u].parent;
    var e := Moved(d, u, dst);
    ParentListed(d, u);
    assert u !in d.kids[dst];
    assert forall c :: NameOf(e, c) == NameOf(d, c);
    forall v | v in e.kids
      ensures Distinct(e.kids[v]) && NamesDiffer(e, e.kids[v])
    {
      SameNames(d, e, d.kids[v]);
      if v == dst {
        OneMoreName(e, d.kids[dst], u);
      } else if v == from {
        FewerNames(e, d.kids[from], u);
      }
    }
  }

  lemma FewerNames(d: Drive, us: seq<Uid>, u: Uid)
    requires Distinct(us) && NamesDiffer(d, us)
    ensures Distinct(Without(us, u)) && NamesDiffer(d, Without(us, u))
  {
    hide NameOf, Distinct;
    WithoutMembers(us, u);
  }

  lemma MovedRanks(d: Drive, u: Uid, dst: Uid, rank: map<Uid, nat>)
    requires Linked(d) && Ranked(d, rank) && u in d.objs && u != d.root && dst in d.kids && !Under(d, dst, u)
    ensures exists r :: Ranked(Moved(d, u, dst), r)
  {
    hide Under, DownOk, ListsOk;
    var e := Moved(d, u, dst);
    var r := map x | x in d.objs :: if Under(d, x, u) then rank[x] + rank[dst] + 1 else rank[x];
    forall x | x in e.objs
      ensures x in r && (x != e.root ==> e.objs[x].parent in r && r[e.objs[x].parent] < r[x])
    {
      UnderParent(d, x, u);
    }
    assert Ranked(e, r);
  }

  // ----- deleting -----

  /** Unlinks u and removes the objects of a set with their lists. */
  function Deleted(d: Drive, u: Uid, gone: set<Uid>): Drive {
    var from := ParentOf(d, u);
    var kids := d.kids[from := Without(KidsOf(d, from), u)];
    d.(objs := d.objs - gone, kids := kids - gone)
  }

  /** Everything under u. */
  ghost function Subtree(d: Drive, u: Uid): set<Uid> {
    set x | x in d.objs && Under(d, x, u)
  }

  /** Removing a set that starts at u and follows links downwards keeps the shape exactly when it leaves
      nothing under u behind. */
  lemma DeletedShape(d: Drive, u: Uid, gone: set<Uid>)
    requires Shape(d) && u in d.objs && u != d.root && u in gone && gone <= Subtree(d, u)
    ensures Shape(Deleted(d, u, gone)) <==> gone == Subtree(d, u)
  {
    hide Linked, Ranked, Under;
    var rank :| Ranked(d, rank);
    if gone == Subtree(d, u) {
      DeletedLinks(d, u, gone, rank);
    } else {
      var x :| x in Subtree(d, u) && x !in gone;
      OrphanLeft(d, u, gone, rank, x);
    }
  }

  lemma RootNotUnder(d: Drive, u: Uid, rank: map<Uid, nat>)
    requires Linked(d) && Ranked(d, rank) && u in d.objs && u != d.root
    ensures !Under(d, d.root, u)
    ensures !Under(d, ParentOf(d, u), u)
  {
    hide DownOk, ListsOk, FoldersOk;
    if Under(d, d.root, u) {
      var n: nat :| Up(d, d.root, n) == u;
      UpShift(d, d.root, n - 1);
      OutsideUp(d, "", n - 1);
      assert false;
    }
    if Under(d, ParentOf(d, u), u) {
      var n: nat :| Up(d, ParentOf(d, u), n) == u;
      ParentIn(d, u);
      UpRank(d, rank, ParentOf(d, u), n);
      assert false;
    }
  }

  lemma ParentIn(d: Drive, u: Uid)
    requires Linked(d) && u in d.objs && u != d.root
    ensures ParentOf(d, u) in d.objs && ParentOf(d, u) in d.kids && u in d.kids[ParentOf(d, u)]
  {
    hide DownOk, ListsOk;
    assert d.objs[u].parent in d.kids;
    assert IsFolder(d, d.objs[u].parent);
  }

  lemma {:induction false} OutsideUp(d: Drive, x: Uid, n: nat)
    requires Linked(d) && x == ""
    ensures Up(d, x, n) == "" && "" !in d.objs
  {
    hide DownOk, ListsOk, FoldersOk;
    if n > 0 {
      OutsideUp(d, x, n - 1);
    }
  }

  lemma DeletedLinks(d: Drive, u: Uid, gone: set<Uid>, rank: map<Uid, nat>)
    requires Linked(d) && Ranked(d, rank) && u in d.objs && u != d.root && gone == Subtree(d, u)
    ensures Shape(Deleted(d, u, gone))
  {
    hide ValidComponent, ListsOk, Under, RootOk, FoldersOk, DownOk, UpOk, Subtree;
    RootNotUnder(d, u, rank);
    SubtreeClosed(d, u);
    DeletedMembers(d, u, gone);
    DeletedBoth(d, u, gone);
    DeletedLists(d, u, gone);
    assert Ranked(Deleted(d, u, gone), rank);
  }

  lemma SubtreeClosed(d: Drive, u: Uid)
    requires Linked(d) && u in d.objs && u != d.root && !Under(d, ParentOf(d, u), u) && !Under(d, d.root, u)
    ensures u in Subtree(d, u) && ParentOf(d, u) !in Subtree(d, u) && d.root !in Subtree(d, u)
    ensures forall x :: x in d.objs && x != d.root && x != u ==>
            (x in Subtree(d, u) <==> ParentOf(d, x) in Subtree(d, u))
  {
    hide ValidComponent, ListsOk, Under, DownOk;
    UnderParent(d, u, u);
    forall x | x in d.objs && x != d.root && x != u
      ensures x in Subtree(d, u) <==> ParentOf(d, x) in Subtree(d, u)
    {
      UnderParent(d, x, u);
      ParentIn(d, x);
    }
  }

  /** What each folder lists after the deletion. */
  lemma DeletedMembers(d: Drive, u: Uid, gone: set<Uid>)
    requires Linked(d) && u in d.objs && u != d.root && u in gone
    requires forall x :: x in d.objs && x != d.root && x != u ==> (x in gone <==> ParentOf(d, x) in gone)
    ensures var e := Deleted(d, u, gone);
            forall v :: v in e.kids ==>
              v in d.kids && v !in gone && forall c :: c in e.kids[v] <==> c in d.kids[v] && c !in gone
  {
    hide ValidComponent, ListsOk, UpOk;
    var from := ParentOf(d, u);
    var e := Deleted(d, u, gone);
    ParentListed(d, u);
    WithoutMembers(KidsOf(d, from), u);
    forall v | v in e.kids
      ensures v in d.kids && v !in gone && forall c :: c in e.kids[v] <==> c in d.kids[v] && c !in gone
    {
      forall c
        ensures c in e.kids[v] <==> c in d.kids[v] && c !in gone
      {
        if c in d.kids[v] {
          assert ParentOf(d, c) == v;
        }
      }
    }
  }

  lemma ParentListed(d: Drive, u: Uid)
    requires Linked(d) && u in d.objs && u != d.root
    ensures ParentOf(d, u) in d.kids
  {
    hide ValidComponent, ListsOk, DownOk;
  }

  lemma DeletedBoth(d: Drive, u: Uid, gone: set<Uid>)
    requires Linked(d) && u in d.objs && u != d.root && u in gone && d.root !in gone && ParentOf(d, u) !in gone
    requires forall x :: x in d.objs && x != d.root && x != u ==> (x in gone <==> ParentOf(d, x) in gone)
    requires var e := Deleted(d, u, gone);
             forall v :: v in e.kids ==>
               v in d.kids && v !in gone && forall c :: c in e.kids[v] <==> c in d.kids[v] && c !in gone
    ensures var e := Deleted(d, u, gone);
            RootOk(e) && FoldersOk(e) && DownOk(e) && UpOk(e)
  {
    hide ValidComponent, ListsOk, UpOk, DownOk, FoldersOk, Deleted;
    DeletedFolders(d, u, gone);
    DeletedDown(d, u, gone);
    DeletedUp(d, u, gone);
    DeletedRoot(d, u, gone);
  }

  lemma DeletedRoot(d: Drive, u: Uid, gone: set<Uid>)
    requires RootOk(d) && d.root !in gone
    ensures RootOk(Deleted(d, u, gone))
  {
  }

  lemma DeletedFolders(d: Drive, u: Uid, gone: set<Uid>)
    requires Linked(d) && u in d.objs && u != d.root
    ensures FoldersOk(Deleted(d, u, gone)) && Deleted(d, u, gone).kids.Keys == d.kids.Keys - gone
  {
    hide ValidComponent, ListsOk, UpOk, DownOk, Without;
    ParentListed(d, u);
  }

  lemma DeletedDown(d: Drive, u: Uid, gone: set<Uid>)
    requires Linked(d)
    requires var e := Deleted(d, u, gone);
             forall v :: v in e.kids ==>
               v in d.kids && v !in gone && forall c :: c in e.kids[v] <==> c in d.kids[v] && c !in gone
    ensures DownOk(Deleted(d, u, gone))
  {
    hide ValidComponent, ListsOk, UpOk, Without, FoldersOk;
  }

  lemma DeletedUp(d: Drive, u: Uid, gone: set<Uid>)
    requires Linked(d) && u in d.objs && u != d.root && u in gone
    requires forall x :: x in d.objs && x != d.root && x != u ==> (x in gone <==> ParentOf(d, x) in gone)
    requires var e := Deleted(d, u, gone);
             forall v :: v in e.kids ==>
               v in d.kids && v !in gone && forall c :: c in e.kids[v] <==> c in d.kids[v] && c !in gone
    ensures UpOk(Deleted(d, u, gone))
  {
    hide ValidComponent, ListsOk, DownOk, Without, FoldersOk;
    var e := Deleted(d, u, gone);
    DeletedFolders(d, u, gone);
    forall v | v in e.objs && v != e.root
      ensures v != "" && e.objs[v].parent in e.kids && v in e.kids[e.objs[v].parent] && ValidComponent(e.objs[v].name)
    {
      assert d.objs[v].parent in d.kids && v in d.kids[d.objs[v].parent];
    }
  }

  lemma DeletedLists(d: Drive, u: Uid, gone: set<Uid>)
    requires Linked(d) && u in d.objs && u != d.root
    requires var e := Deleted(d, u, gone);
             forall v :: v in e.kids ==>
               v in d.kids && v !in gone && forall c :: c in e.kids[v] <==> c in d.kids[v] && c !in gone
    ensures ListsOk(Deleted(d, u, gone))
  {
    hide ValidComponent, Distinct, NamesDiffer, UpOk, Without, FoldersOk;
    var from := ParentOf(d, u);
    var e := Deleted(d, u, gone);
    ParentListed(d, u);
    forall v | v in e.kids
      ensures Distinct(e.kids[v]) && NamesDiffer(e, e.kids[v])
    {
      FewerNames(d, d.kids[v], u);
      assert e.kids[v] == if v == from then Without(d.kids[v], u) else d.kids[v];
      assert forall c :: c in e.kids[v] ==> NameOf(e, c) == NameOf(d, c);
      SameNames(d, e, e.kids[v]);
    }
  }

  /** An object left behind has an ancestor left behind whose parent is gone. */
  lemma {:induction false} OrphanLeft(d: Drive, u: Uid, gone: set<Uid>, rank: map<Uid, nat>, x: Uid)
    requires Linked(d) && Ranked(d, rank) && u in d.objs && u != d.root && u in gone
    requires x in Subtree(d, u) && x !in gone
    ensures !Shape(Deleted(d, u, gone))
    decreases rank[x]
  {
    hide DownOk, ListsOk, Under;
    RootNotUnder(d, u, rank);
    UnderParent(d, x, u);
    ParentIn(d, x);
    var p := ParentOf(d, x);
    if p in gone {
      assert x in Deleted(d, u, gone).objs && p !in Deleted(d, u, gone).kids;
    } else {
      OrphanLeft(d, u, gone, rank, p);
    }
  }
}
