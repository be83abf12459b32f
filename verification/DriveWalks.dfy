/** The visited-set traversals of a drive and the bytes they count
    (frontend/src/fe_server.cc:5596-5617, 5960-5974). */
module DriveWalks {
  import opened Bytes
  import opened DriveTree
  import opened DrivePaths
  import opened Listing

  const CAP: nat := 4096

  // ----- sums over sets of objects -----

  /** What an object counts for. */
  function SizeOf(d: Drive, u: Uid): nat {
    if u in d.objs && !d.objs[u].folder then d.objs[u].size else 0
  }

  ghost function Sum(d: Drive, us: set<Uid>): nat {
    if us == {} then 0 else
      var u :| u in us;
      SizeOf(d, u) + Sum(d, us - {u})
  }

  lemma {:induction false} SumWithout(d: Drive, us: set<Uid>, x: Uid)
    requires x in us
    ensures Sum(d, us) == SizeOf(d, x) + Sum(d, us - {x})
  {
    hide SizeOf;
    var u :| u in us && Sum(d, us) == SizeOf(d, u) + Sum(d, us - {u});
    if u != x {
      SumWithout(d, us - {u}, x);
      SumWithout(d, us - {x}, u);
      assert us - {u} - {x} == us - {x} - {u};
    }
  }

  lemma SumWith(d: Drive, us: set<Uid>, x: Uid)
    requires x !in us
    ensures Sum(d, us + {x}) == SizeOf(d, x) + Sum(d, us)
  {
    SumWithout(d, us + {x}, x);
    assert us + {x} - {x} == us;
  }

  lemma {:induction false} SumUnion(d: Drive, us: set<Uid>, vs: set<Uid>)
    requires us !! vs
    ensures Sum(d, us + vs) == Sum(d, us) + Sum(d, vs)
    decreases vs
  {
    if vs == {} {
      assert us + vs == us;
    } else {
      var x :| x in vs;
      SumUnion(d, us, vs - {x});
      SumWithout(d, vs, x);
      SumWith(d, us + (vs - {x}), x);
      assert us + (vs - {x}) + {x} == us + vs;
    }
  }

  lemma {:induction false} SumZeroExactly(d: Drive, us: set<Uid>)
    ensures Sum(d, us) == 0 <==> forall u :: u in us ==> SizeOf(d, u) == 0
  {
    hide SizeOf;
    if us != {} {
      var x :| x in us;
      SumWithout(d, us, x);
      SumZeroExactly(d, us - {x});
      assert forall u :: u in us <==> u == x || u in us - {x};
    }
  }

  lemma {:induction false} SumSame(d: Drive, e: Drive, us: set<Uid>)
    requires forall u :: u in us ==> SizeOf(d, u) == SizeOf(e, u)
    ensures Sum(d, us) == Sum(e, us)
  {
    hide SizeOf;
    if us != {} {
      var u :| u in us;
      SumSame(d, e, us - {u});
      SumWithout(d, us, u);
      SumWithout(e, us, u);
    }
  }

  // ----- what can be reached in n levels -----

  function Reach(d: Drive, u: Uid, n: nat): set<Uid>
    decreases n, 1, 0
  {
    {u} + (if n == 0 then {} else ReachAll(d, KidsOf(d, u), n - 1))
  }

  function ReachAll(d: Drive, us: seq<Uid>, n: nat): set<Uid>
    decreases n, 2, |us|
  {
    if us == [] then {} else ReachAll(d, us[..|us| - 1], n) + Reach(d, us[|us| - 1], n)
  }

  /** u is at most n steps above x. */
  ghost predicate Near(d: Drive, x: Uid, u: Uid, n: nat) {
    exists k :: 0 <= k <= n && Up(d, x, k) == u
  }

  lemma NearUnder(d: Drive, x: Uid, u: Uid, n: nat)
    requires Near(d, x, u, n)
    ensures Under(d, x, u)
  {
  }

  lemma NearSelf(d: Drive, u: Uid, n: nat)
    ensures Near(d, u, u, n)
  {
    assert Up(d, u, 0) == u;
  }

  lemma NearDown(d: Drive, x: Uid, u: Uid, n: nat)
    requires Linked(d) && x in d.objs && u in d.objs && n > 0 && Near(d, x, u, n) && x != u
    ensures exists c :: c in KidsOf(d, u) && Near(d, x, c, n - 1)
  {
    hide ListsOk, FoldersOk, DownOk;
    var k :| 0 <= k <= n && Up(d, x, k) == u;
    assert k > 0;
    var c := Up(d, x, k - 1);
    assert c in d.objs && c != d.root;
    assert d.objs[c].parent == u && c in d.kids[u];
    assert c in KidsOf(d, u) && Near(d, x, c, n - 1);
  }

  lemma NearUp(d: Drive, x: Uid, u: Uid, c: Uid, n: nat)
    requires Linked(d) && n > 0 && c in KidsOf(d, u) && Near(d, x, c, n - 1)
    ensures Near(d, x, u, n)
  {
    hide ListsOk, FoldersOk, UpOk;
    var k :| 0 <= k <= n - 1 && Up(d, x, k) == c;
    assert Up(d, x, k + 1) == u;
  }

  /** Near u means being u or near one of its children. */
  lemma NearStep(d: Drive, x: Uid, u: Uid, n: nat)
    requires Linked(d) && x in d.objs && u in d.objs && n > 0
    ensures Near(d, x, u, n) <==> x == u || exists c :: c in KidsOf(d, u) && Near(d, x, c, n - 1)
  {
    hide Linked, Near, KidsOf;
    NearSelf(d, u, n);
    if Near(d, x, u, n) && x != u {
      NearDown(d, x, u, n);
    }
    if exists c :: c in KidsOf(d, u) && Near(d, x, c, n - 1) {
      var c :| c in KidsOf(d, u) && Near(d, x, c, n - 1);
      NearUp(d, x, u, c, n);
    }
  }

  lemma {:induction false} ReachAllMeans(d: Drive, us: seq<Uid>, n: nat)
    requires Linked(d) && forall c :: c in us ==> c in d.objs
    ensures forall x :: x in ReachAll(d, us, n) <==> x in d.objs && exists c :: c in us && Near(d, x, c, n)
    decreases n, 2, |us|
  {
    hide Linked, Near, Reach;
    if us != [] {
      var init, c := us[..|us| - 1], us[|us| - 1];
      assert forall x :: x in us <==> x in init || x == c;
      ReachAllMeans(d, init, n);
      ReachMeans(d, c, n);
    }
  }

  lemma KidsIn(d: Drive, u: Uid)
    requires Linked(d)
    ensures forall c :: c in KidsOf(d, u) ==> c in d.objs
  {
    hide ListsOk, UpOk;
  }

  /** The objects within n levels of u are those that u is at most n steps above. */
  lemma {:induction false} ReachMeans(d: Drive, u: Uid, n: nat)
    requires Linked(d) && u in d.objs
    ensures forall x :: x in Reach(d, u, n) <==> x in d.objs && Near(d, x, u, n)
    decreases n, 1, 0
  {
    hide Linked, Near, ReachAll, KidsOf;
    if n == 0 {
      forall x
        ensures x in Reach(d, u, n) <==> x in d.objs && Near(d, x, u, n)
      {
        NearZero(d, x, u);
      }
    } else {
      KidsIn(d, u);
      ReachAllMeans(d, KidsOf(d, u), n - 1);
      forall x
        ensures x in Reach(d, u, n) <==> x in d.objs && Near(d, x, u, n)
      {
        if x in d.objs {
          NearStep(d, x, u, n);
        }
      }
    }
  }

  lemma NearZero(d: Drive, x: Uid, u: Uid)
    ensures Near(d, x, u, 0) <==> x == u
  {
    NearSelf(d, u, 0);
  }

  /** Nothing is under two different children of one folder, and the folder is under none of them. */
  lemma SiblingsApart(d: Drive, u: Uid, b: Uid, c: Uid, x: Uid)
    requires Shape(d) && u in d.kids && b in d.kids[u] && c in d.kids[u] && x in d.objs
    requires Under(d, x, b) && Under(d, x, c)
    ensures b == c && x != u
  {
    hide ListsOk, FoldersOk, UpOk, Ranked;
    var rank :| Ranked(d, rank);
    var i: nat :| Up(d, x, i) == b;
    var j: nat :| Up(d, x, j) == c;
    if i < j {
      NotAboveSibling(d, rank, u, b, c, j - i, x, i);
    } else if j < i {
      NotAboveSibling(d, rank, u, c, b, i - j, x, j);
    }
    if x == u {
      FolderNotUnderChild(d, rank, u, b, i);
    }
  }

  lemma FolderNotUnderChild(d: Drive, rank: map<Uid, nat>, u: Uid, b: Uid, i: nat)
    requires Linked(d) && Ranked(d, rank) && u in d.kids && b in d.kids[u]
    ensures Up(d, u, i) != b
  {
    hide ListsOk, UpOk;
    assert IsFolder(d, u) && b in d.objs;
    if Up(d, u, i) == b {
      UpRank(d, rank, u, i);
      assert false;
    }
  }

  lemma NotAboveSibling(d: Drive, rank: map<Uid, nat>, u: Uid, b: Uid, c: Uid, k: nat, x: Uid, i: nat)
    requires Linked(d) && Ranked(d, rank) && u in d.kids && b in d.kids[u] && c in d.kids[u]
    requires k > 0 && Up(d, x, i) == b
    ensures Up(d, x, i + k) != c
  {
    hide ListsOk, UpOk, Ranked;
    UpTwice(d, x, i, k);
    UpShift(d, b, k - 1);
    FolderNotUnderChild(d, rank, u, c, k - 1);
  }

  lemma PrefixMembers(us: seq<Uid>, c: Uid, all: seq<Uid>)
    requires us + [c] <= all
    ensures c in all && forall b :: b in us ==> b in all
  {
    assert all[|us|] == (us + [c])[|us|];
    forall b | b in us
      ensures b in all
    {
      var i :| 0 <= i < |us| && us[i] == b;
      assert all[i] == (us + [c])[i];
    }
  }

  /** The parts of a folder: its own uid and the reaches of its children do not meet. */
  lemma ReachesApart(d: Drive, u: Uid, us: seq<Uid>, c: Uid, n: nat)
    requires Shape(d) && u in d.kids && us + [c] <= d.kids[u]
    ensures ReachAll(d, us, n) !! Reach(d, c, n)
    ensures u !in Reach(d, c, n) && c in d.objs
  {
    hide ListsOk, FoldersOk, UpOk, ReachAll, Reach, Near, Under;
    PrefixMembers(us, c, d.kids[u]);
    ListedOnce(d, u, us, c);
    KidsIn(d, u);
    ReachAllMeans(d, us, n);
    ReachMeans(d, c, n);
    forall x | x in ReachAll(d, us, n) && x in Reach(d, c, n)
      ensures false
    {
      var b :| b in us && Near(d, x, b, n);
      NearUnder(d, x, b, n);
      NearUnder(d, x, c, n);
      SiblingsApart(d, u, b, c, x);
    }
    if u in Reach(d, c, n) {
      NearUnder(d, u, c, n);
      SiblingsApart(d, u, c, c, u);
    }
  }

  lemma ListedOnce(d: Drive, u: Uid, us: seq<Uid>, c: Uid)
    requires Linked(d) && u in d.kids && us + [c] <= d.kids[u]
    ensures c !in us
  {
    hide FoldersOk, UpOk, DownOk, NamesDiffer;
    var all := d.kids[u];
    assert all[|us|] == (us + [c])[|us|] == c;
    assert forall i :: 0 <= i < |us| ==> all[i] == (us + [c])[i] == us[i];
  }

  // ----- the traversals -----

  /** What a traversal that meets u at this depth gets to see: it stops below level 4096. */
  function Within(d: Drive, u: Uid, depth: nat): set<Uid> {
    if depth > CAP then {} else Reach(d, u, CAP - depth)
  }

  function WithinAll(d: Drive, us: seq<Uid>, depth: nat): set<Uid> {
    if depth > CAP then {} else ReachAll(d, us, CAP - depth)
  }

  lemma WithinSplit(d: Drive, u: Uid, depth: nat)
    requires depth <= CAP
    ensures Within(d, u, depth) == {u} + WithinAll(d, KidsOf(d, u), depth + 1)
  {
    hide ReachAll, KidsOf;
  }

  lemma WithinNone(d: Drive, depth: nat)
    ensures WithinAll(d, [], depth) == {} && Sum(d, {}) == 0
  {
  }

  lemma WithinOneMore(d: Drive, us: seq<Uid>, u: Uid, depth: nat)
    ensures WithinAll(d, us + [u], depth) == WithinAll(d, us, depth) + Within(d, u, depth)
  {
    assert (us + [u])[..|us|] == us;
  }

  lemma {:induction false} WithinMember(d: Drive, us: seq<Uid>, i: nat, depth: nat)
    requires i < |us|
    ensures Within(d, us[i], depth) <= WithinAll(d, us, depth)
    decreases |us|
  {
    hide Within, WithinAll;
    var init := us[..|us| - 1];
    assert us == init + [us[|us| - 1]];
    WithinOneMore(d, init, us[|us| - 1], depth);
    if i < |us| - 1 {
      WithinMember(d, init, i, depth);
    }
  }

  lemma WithinApart(d: Drive, u: Uid, us: seq<Uid>, c: Uid, depth: nat)
    requires Shape(d) && u in d.kids && us + [c] <= d.kids[u]
    ensures WithinAll(d, us, depth) !! Within(d, c, depth)
    ensures u !in Within(d, c, depth) && c in d.objs
  {
    hide Shape, Reach, ReachAll;
    ReachesApart(d, u, us, c, if depth > CAP then 0 else CAP - depth);
  }

  lemma ShapeFacts(d: Drive, u: Uid)
    requires Shape(d) && u in d.objs
    ensures u != "" && (IsFolder(d, u) <==> u in d.kids) && (!IsFolder(d, u) ==> KidsOf(d, u) == [])
  {
    hide ListsOk, DownOk, Ranked;
  }

  /** The list of a folder's children up to one of them. */
  lemma KidAt(d: Drive, us: seq<Uid>, i: nat)
    requires i < |us|
    ensures us[..i] + [us[i]] == us[..i + 1] <= us
  {
  }

  /** `subtree_file_bytes_inner`. On a drive of the right shape it visits exactly what lies within the cap
      and adds up the sizes of the files there. */
  method SubtreeBytes(d: Drive, u: Uid, seen: set<Uid>, depth: nat) returns (total: nat, seenAfter: set<Uid>)
    requires Shape(d) && u in d.objs && seen !! Within(d, u, depth)
    ensures total == Sum(d, Within(d, u, depth)) && seenAfter == seen + Within(d, u, depth)
    decreases CAP + 1 - depth
  {
    hide Shape, Sum, Within, WithinAll, KidsOf;
    total, seenAfter := 0, seen;
    ShapeFacts(d, u);
    WithinNone(d, depth + 1);
    WithinStart(d, u, depth);
    assert depth <= CAP ==> u !in seen;
    assert depth > CAP ==> Sum(d, Within(d, u, depth)) == Sum(d, {});
    if u == "" || depth > CAP || u in seen { return; }
    seenAfter := seenAfter + {u};
    SumWith(d, {}, u);
    assert {} + {u} == {u};
    if !IsFolder(d, u) {
      assert Within(d, u, depth) == {} + {u};
      total := d.objs[u].size;
      return;
    }
    var kids := KidsOf(d, u);
    SumWith(d, {}, u);
    for i := 0 to |kids|
      invariant total == Sum(d, WithinAll(d, kids[..i], depth + 1))
      invariant seenAfter == seen + {u} + WithinAll(d, kids[..i], depth + 1)
    {
      KidAt(d, kids, i);
      KidsOfFolder(d, u);
      WithinApart(d, u, kids[..i], kids[i], depth + 1);
      WithinMember(d, kids, i, depth + 1);
      WithinOneMore(d, kids[..i], kids[i], depth + 1);
      var t;
      t, seenAfter := SubtreeBytes(d, kids[i], seenAfter, depth + 1);
      SumUnion(d, WithinAll(d, kids[..i], depth + 1), Within(d, kids[i], depth + 1));
      total := total + t;
    }
    assert kids[..|kids|] == kids;
    NotAmongChildren(d, u, depth);
    SumWith(d, WithinAll(d, kids, depth + 1), u);
    assert WithinAll(d, kids, depth + 1) + {u} == Within(d, u, depth);
  }

  lemma WithinStart(d: Drive, u: Uid, depth: nat)
    ensures depth > CAP ==> Within(d, u, depth) == {}
    ensures depth <= CAP ==>
              u in Within(d, u, depth) && Within(d, u, depth) == {u} + WithinAll(d, KidsOf(d, u), depth + 1)
  {
    hide Reach, ReachAll, KidsOf;
    if depth <= CAP {
      WithinSplit(d, u, depth);
    }
  }

  lemma KidsOfFolder(d: Drive, u: Uid)
    requires u in d.kids
    ensures KidsOf(d, u) == d.kids[u]
  {
  }

  lemma NotAmongChildren(d: Drive, u: Uid, depth: nat)
    requires Shape(d) && IsFolder(d, u)
    ensures u !in WithinAll(d, KidsOf(d, u), depth + 1)
  {
    hide Shape, Within, WithinAll, KidsOf;
    ShapeFacts(d, u);
    KidsOfFolder(d, u);
    var kids := KidsOf(d, u);
    WithinNone(d, depth + 1);
    for i := 0 to |kids|
      invariant u !in WithinAll(d, kids[..i], depth + 1)
    {
      KidAt(d, kids, i);
      WithinApart(d, u, kids[..i], kids[i], depth + 1);
      WithinOneMore(d, kids[..i], kids[i], depth + 1);
    }
    assert kids[..|kids|] == kids;
  }

  /** The elements of a list, each of them once. */
  ghost predicate Lists(out: seq<Uid>, us: set<Uid>) {
    Distinct(out) && forall u :: u in out <==> u in us
  }

  lemma ListsMore(a: seq<Uid>, us: set<Uid>, b: seq<Uid>, vs: set<Uid>)
    requires Lists(a, us) && Lists(b, vs) && us !! vs
    ensures Lists(a + b, us + vs)
  {
    forall i, j | 0 <= i < j < |a + b|
      ensures (a + b)[i] != (a + b)[j]
    {
      if i < |a| <= j {
        assert a[i] in a && b[j - |a|] in b;
      }
    }
  }

  lemma ListsFirst(u: Uid)
    ensures Lists([], {}) && Lists([u], {u})
  {
  }

  /** `collect_subtree_inner`: each object within the cap once, folders before what they hold. */
  method Collect(d: Drive, u: Uid, out: seq<Uid>, seen: set<Uid>, depth: nat)
    returns (outAfter: seq<Uid>, seenAfter: set<Uid>)
    requires Shape(d) && u in d.objs && seen !! Within(d, u, depth)
    ensures out <= outAfter && Lists(outAfter[|out|..], Within(d, u, depth)) && seenAfter == seen + Within(d, u, depth)
    decreases CAP + 1 - depth
  {
    hide Shape, Within, WithinAll, KidsOf, Lists;
    outAfter, seenAfter := out, seen;
    ShapeFacts(d, u);
    ListsFirst(u);
    WithinNone(d, depth + 1);
    assert out[|out|..] == [];
    WithinStart(d, u, depth);
    if u == "" || depth > CAP || u in seen { return; }
    seenAfter := seenAfter + {u};
    outAfter := outAfter + [u];
    assert outAfter[|out|..] == [u];
    if !IsFolder(d, u) {
      assert Within(d, u, depth) == {u};
      return;
    }
    var kids := KidsOf(d, u);
    NotAmongChildren(d, u, depth);
    assert kids[..0] == [] && {u} + WithinAll(d, kids[..0], depth + 1) == {u};
    for i := 0 to |kids|
      invariant out <= outAfter && seenAfter == seen + {u} + WithinAll(d, kids[..i], depth + 1)
      invariant Lists(outAfter[|out|..], {u} + WithinAll(d, kids[..i], depth + 1))
    {
      KidAt(d, kids, i);
      KidsOfFolder(d, u);
      WithinApart(d, u, kids[..i], kids[i], depth + 1);
      WithinMember(d, kids, i, depth + 1);
      WithinOneMore(d, kids[..i], kids[i], depth + 1);
      ghost var was := outAfter;
      outAfter, seenAfter := Collect(d, kids[i], outAfter, seenAfter, depth + 1);
      ListsMore(was[|out|..], {u} + WithinAll(d, kids[..i], depth + 1), outAfter[|was|..],
        Within(d, kids[i], depth + 1));
      assert outAfter[|out|..] == was[|out|..] + outAfter[|was|..];
      assert {u} + WithinAll(d, kids[..i], depth + 1) + Within(d, kids[i], depth + 1)
          == {u} + WithinAll(d, kids[..i + 1], depth + 1);
    }
    assert kids[..|kids|] == kids;
  }

  /** The sizes along a list that names each object once. */
  ghost function SumList(d: Drive, us: seq<Uid>): nat {
    if us == [] then 0 else SumList(d, us[..|us| - 1]) + SizeOf(d, us[|us| - 1])
  }

  lemma {:induction false} SumListIsSum(d: Drive, us: seq<Uid>, s: set<Uid>)
    requires Lists(us, s)
    ensures SumList(d, us) == Sum(d, s)
  {
    hide SizeOf, Sum;
    if us == [] {
      assert s == {};
      WithinNone(d, 0);
    } else {
      var init, u := us[..|us| - 1], us[|us| - 1];
      assert forall x :: x in us <==> x in init || x == u;
      assert Lists(init, s - {u});
      SumListIsSum(d, init, s - {u});
      SumWithout(d, s, u);
    }
  }
}
