/** A drive that is too deep for the traversals: a chain of folders made by any number of requests, and
    what deleting its top leaves behind (frontend/src/fe_server.cc:5960-5974, 6408-6453). */
module DriveDeep {
  import opened Bytes
  import opened DriveTree
  import opened DrivePaths
  import opened DriveWalks
  import opened Drive

  /** The folder i levels below the root. */
  function Node(i: nat): (u: Uid)
    ensures u != ""
  {
    if i == 0 then "r" else seq(i, k => 'd')
  }

  lemma NodesDiffer(i: nat, j: nat)
    ensures Node(i) == Node(j) <==> i == j
  {
    if i > 0 && j > 0 {
      assert |Node(i)| == i && |Node(j)| == j;
    } else if i != j {
      assert Node(i)[0] != Node(j)[0];
    }
  }

  function Folder(i: nat): Obj {
    Obj(true, "d", Node(i), 0)
  }

  /** n folders, each in the one before. */
  function Chain(n: nat): DriveTree.Drive {
    if n == 0 then EmptyDrive("r") else Made(Chain(n - 1), Node(n - 1), Node(n), Folder(n - 1))
  }

  ghost predicate ChainShape(d: DriveTree.Drive, n: nat) {
    && Shape(d) && d.root == Node(0)
    && (forall u :: u in d.objs <==> exists i :: 0 <= i <= n && u == Node(i))
    && (forall i :: 0 <= i <= n ==> Node(i) in d.kids && IsFolder(d, Node(i)))
    && (forall i :: 1 <= i <= n ==> ParentOf(d, Node(i)) == Node(i - 1))
    && d.kids[Node(n)] == []
  }

  lemma ValidD()
    ensures ValidComponent("d")
  {
  }

  lemma {:induction false} ChainIsChain(n: nat)
    ensures ChainShape(Chain(n), n)
  {
    if n == 0 {
      EmptyShape("r");
      assert EmptyDrive("r").objs.Keys == {"r"};
      assert Node(0) == "r";
    } else {
      ChainIsChain(n - 1);
      ChainGrows(Chain(n - 1), n);
    }
  }

  lemma FreshNode(d: DriveTree.Drive, n: nat)
    requires n > 0 && ChainShape(d, n - 1)
    ensures Node(n) !in d.objs
  {
    hide Shape, Node;
    forall i | 0 <= i <= n - 1
      ensures Node(i) != Node(n)
    {
      NodesDiffer(i, n);
    }
  }

  lemma ChainGrows(d: DriveTree.Drive, n: nat)
    requires n > 0 && ChainShape(d, n - 1)
    ensures ChainShape(Made(d, Node(n - 1), Node(n), Folder(n - 1)), n)
  {
    hide Shape, Node, ValidComponent, Made;
    FreshNode(d, n);
    ValidD();
    MadeShape(d, Node(n - 1), Node(n), Folder(n - 1));
    ChainObjects(d, n);
    forall i | 0 <= i <= n
      ensures Node(i) in Made(d, Node(n - 1), Node(n), Folder(n - 1)).kids
      ensures IsFolder(Made(d, Node(n - 1), Node(n), Folder(n - 1)), Node(i))
      ensures i > 0 ==> ParentOf(Made(d, Node(n - 1), Node(n), Folder(n - 1)), Node(i)) == Node(i - 1)
    {
      ChainLink(d, n, i);
    }
  }

  lemma ChainObjects(d: DriveTree.Drive, n: nat)
    requires n > 0 && ChainShape(d, n - 1)
    ensures var e := Made(d, Node(n - 1), Node(n), Folder(n - 1));
            && e.root == Node(0) && KidsOf(e, Node(n)) == [] && Node(n) in e.kids
            && forall u :: u in e.objs <==> exists i :: 0 <= i <= n && u == Node(i)
  {
    hide Shape, Node;
    NodesDiffer(n - 1, n);
    var e := Made(d, Node(n - 1), Node(n), Folder(n - 1));
    forall u
      ensures u in e.objs <==> exists i :: 0 <= i <= n && u == Node(i)
    {
      assert u in e.objs <==> u in d.objs || u == Node(n);
    }
  }

  lemma ChainLink(d: DriveTree.Drive, n: nat, i: nat)
    requires n > 0 && ChainShape(d, n - 1) && i <= n
    ensures var e := Made(d, Node(n - 1), Node(n), Folder(n - 1));
            && Node(i) in e.kids && IsFolder(e, Node(i))
            && (i > 0 ==> ParentOf(e, Node(i)) == Node(i - 1))
  {
    hide Shape, Node;
    NodesDiffer(i, n);
    NodesDiffer(i, n - 1);
    if i < n {
      assert Node(i) in d.kids && IsFolder(d, Node(i));
    }
  }

  /** A path that leads to an object. */
  ghost function PathTo(d: DriveTree.Drive, u: Uid): (p: string)
    requires Shape(d) && u in d.objs
    ensures Resolve(d, p) == Some(u) && p != ""
  {
    EveryObjectHasAPath(d, u);
    var n :| Below(d, u, n) && Resolve(d, Slashed(NamesDown(d, u, n))) == Some(u);
    Slashed(NamesDown(d, u, n))
  }

  ghost function Mkdirs(n: nat): (rs: seq<Request>)
    ensures |rs| == n
  {
    if n == 0 then [] else
      ChainIsChain(n - 1);
      Mkdirs(n - 1) + [Mkdir(PathTo(Chain(n - 1), Node(n - 1)), "d", Node(n))]
  }

  /** Making folder after folder succeeds at every depth. */
  lemma {:induction false} MkdirsMakeChain(n: nat)
    ensures Run(Account(EmptyDrive("r"), None, None), Mkdirs(n)) == Account(Chain(n), None, None)
  {
    hide After, ChainShape, PathTo, Node;
    if n > 0 {
      MkdirsMakeChain(n - 1);
      ChainIsChain(n - 1);
      ChainHasNode(n - 1);
      var r := Mkdir(PathTo(Chain(n - 1), Node(n - 1)), "d", Node(n));
      assert Mkdirs(n)[..n - 1] == Mkdirs(n - 1);
      OneMoreFolder(Chain(n - 1), n, r.path);
    }
  }

  lemma ChainHasNode(n: nat)
    ensures Node(n) in Chain(n).objs && Shape(Chain(n))
  {
    ChainIsChain(n);
  }

  lemma OneMoreFolder(d: DriveTree.Drive, n: nat, path: string)
    requires n > 0 && ChainShape(d, n - 1) && path != "" && Resolve(d, path) == Some(Node(n - 1))
    ensures After(Account(d, None, None), Mkdir(path, "d", Node(n))).drive
            == Made(d, Node(n - 1), Node(n), Folder(n - 1))
    ensures After(Account(d, None, None), Mkdir(path, "d", Node(n))).used == None
    ensures After(Account(d, None, None), Mkdir(path, "d", Node(n))).quota == None
  {
    hide Shape, Node, Resolve, Made, ValidComponent;
    FreshNode(d, n);
    ValidD();
    assert KidsOf(d, Node(n - 1)) == [];
  }

  lemma {:induction false} ChainUp(d: DriveTree.Drive, n: nat, i: nat, k: nat)
    requires ChainShape(d, n) && k <= i <= n
    ensures Up(d, Node(i), k) == Node(i - k)
  {
    hide Shape, Node;
    if k > 0 {
      ChainUp(d, n, i, k - 1);
    }
  }

  /** The top folder's traversal sees the whole chain below it exactly up to a depth of 4097. */
  lemma TopSeesExactly(n: nat)
    requires n >= 1
    ensures Within(Chain(n), Node(1), 0) == Subtree(Chain(n), Node(1)) <==> n <= CAP + 1
  {
    hide ChainShape, Node, Reach, Near, Under, Chain, Shape;
    ChainIsChain(n);
    var d := Chain(n);
    ChainMembers(n, 1);
    ShapeLinked(d);
    ReachMeans(d, Node(1), CAP);
    if n > CAP + 1 {
      ChainMembers(n, n);
      DeepIsUnder(d, n);
      DeepIsFar(d, n);
    } else {
      forall x | x in d.objs
        ensures Under(d, x, Node(1)) <==> Near(d, x, Node(1), CAP)
      {
        ShallowIsNear(d, n, x);
      }
    }
  }

  lemma ShapeLinked(d: DriveTree.Drive)
    requires Shape(d)
    ensures Linked(d)
  {
  }

  lemma ChainMembers(n: nat, i: nat)
    requires i <= n
    ensures Node(i) in Chain(n).objs
  {
    ChainIsChain(n);
  }

  lemma DeepIsUnder(d: DriveTree.Drive, n: nat)
    requires ChainShape(d, n) && n >= 1
    ensures Under(d, Node(n), Node(1))
  {
    hide Shape, Node;
    ChainUp(d, n, n, n - 1);
  }

  lemma DeepIsFar(d: DriveTree.Drive, n: nat)
    requires ChainShape(d, n) && n > CAP + 1
    ensures !Near(d, Node(n), Node(1), CAP)
  {
    hide Shape, Node;
    forall k | 0 <= k <= CAP
      ensures Up(d, Node(n), k) != Node(1)
    {
      ChainUp(d, n, n, k);
      NodesDiffer(n - k, 1);
    }
  }

  lemma ShallowIsNear(d: DriveTree.Drive, n: nat, x: Uid)
    requires ChainShape(d, n) && 1 <= n <= CAP + 1 && x in d.objs
    ensures Under(d, x, Node(1)) <==> Near(d, x, Node(1), CAP)
  {
    hide Node, Shape;
    if Near(d, x, Node(1), CAP) {
      NearUnder(d, x, Node(1), CAP);
    }
    if Under(d, x, Node(1)) {
      var i :| 0 <= i <= n && x == Node(i);
      if i == 0 {
        TopNotAboveRoot(d, n);
      } else {
        ChainUp(d, n, i, i - 1);
      }
    }
  }

  lemma TopNotAboveRoot(d: DriveTree.Drive, n: nat)
    requires ChainShape(d, n) && n >= 1
    ensures !Under(d, Node(0), Node(1))
  {
    hide Node, Linked, Ranked, Under;
    var rank :| Ranked(d, rank);
    NodesDiffer(0, 1);
    assert Node(1) in d.objs;
    RootNotUnder(d, Node(1), rank);
  }

  /** After n requests that make a chain, deleting its top folder leaves a tree if and only if n is at most
      4097; beyond, folders are left behind whose parents are gone. */
  lemma DeepDeleteExactly(n: nat)
    requires n >= 1
    ensures exists path :: Deletes(Chain(n), path)
                           && (Shape(Run(Account(EmptyDrive("r"), None, None), Mkdirs(n) + [Delete(path)]).drive)
                               <==> n <= 4097)
  {
    hide Run, After, Chain, Shape, Mkdirs, Severs, Node, ChainShape, Resolve, PathTo;
    var start := Account(EmptyDrive("r"), None, None);
    ChainIsChain(n);
    ChainMembers(n, 1);
    ChainHasNode(n);
    ChainRoot(n);
    var path := PathTo(Chain(n), Node(1));
    MkdirsMakeChain(n);
    NodesDiffer(0, 1);
    SlashResolves(Chain(n));
    assert Deletes(Chain(n), path);
    DeleteLast(start, Mkdirs(n), path);
    AfterShapeExactly(Account(Chain(n), None, None), Delete(path));
    TopSeesExactly(n);
    SeversTop(Chain(n), path);
  }

  lemma ChainRoot(n: nat)
    ensures Chain(n).root == Node(0)
  {
    ChainIsChain(n);
  }

  lemma SlashResolves(d: DriveTree.Drive)
    ensures Resolve(d, "/") == Some(d.root)
  {
    SlashIsRoot();
    WalkNothing(d, d.root);
  }

  lemma DeleteLast(a: Account, rs: seq<Request>, path: string)
    ensures Run(a, rs + [Delete(path)]) == After(Run(a, rs), Delete(path))
  {
    hide After;
    assert (rs + [Delete(path)])[..|rs|] == rs;
  }

  lemma SeversTop(d: DriveTree.Drive, path: string)
    requires Deletes(d, path)
    ensures Severs(d, path) <==> Within(d, Resolve(d, path).value, 0) != Subtree(d, Resolve(d, path).value)
  {
  }

  // ----- a file below the cap -----

  /** A file of one byte in the deepest folder. */
  function Deep(n: nat): DriveTree.Drive {
    Made(Chain(n), Node(n), "f", Obj(false, "f", Node(n), 1))
  }

  lemma FileIsNoNode(i: nat)
    ensures Node(i) != "f"
  {
    if i > 0 {
      assert Node(i)[0] == 'd';
    }
  }

  lemma ChainEmpty(n: nat)
    ensures forall u :: SizeOf(Chain(n), u) == 0
    ensures "f" !in Chain(n).objs && KidsOf(Chain(n), Node(n)) == [] && IsFolder(Chain(n), Node(n))
    ensures Node(n) in Chain(n).kids
  {
    hide Shape, Node, Chain;
    ChainIsChain(n);
    forall i | 0 <= i <= n
      ensures Node(i) != "f" && IsFolder(Chain(n), Node(i))
    {
      FileIsNoNode(i);
    }
  }

  lemma DeepShape(n: nat)
    ensures Shape(Deep(n)) && Deep(n).root == Node(0) && Node(0) in Deep(n).objs && "f" in Deep(n).objs
  {
    hide Shape, Node, Chain, ValidComponent;
    ChainMembers(n, 0);
    ChainHasNode(n);
    ChainEmpty(n);
    ChainRoot(n);
    ValidF();
    assert Node(n) != "";
    MadeShape(Chain(n), Node(n), "f", Obj(false, "f", Node(n), 1));
  }

  lemma ValidF()
    ensures ValidComponent("f")
  {
  }

  /** The steps from the file to the root. */
  lemma {:induction false} FileUp(n: nat, k: nat)
    requires k <= n
    ensures Up(Deep(n), "f", k + 1) == Node(n - k)
  {
    hide Node, ChainShape, Chain, Shape;
    if k == 0 {
      assert Up(Deep(n), "f", 0) == "f";
    } else {
      FileUp(n, k - 1);
      ChainParent(n, n - k + 1);
      FileIsNoNode(n - k + 1);
    }
  }

  lemma ChainParent(n: nat, i: nat)
    requires 1 <= i <= n
    ensures ParentOf(Chain(n), Node(i)) == Node(i - 1) && Node(i) in Chain(n).objs
  {
    ChainIsChain(n);
  }

  lemma FileIsNear(n: nat)
    ensures Near(Deep(n), "f", Node(0), CAP) <==> n < CAP
  {
    hide Node, Deep;
    FileIsNoNode(0);
    if n < CAP {
      FileUp(n, n);
    } else {
      forall k | 0 <= k <= CAP
        ensures Up(Deep(n), "f", k) != Node(0)
      {
        if k > 0 {
          FileUp(n, k - 1);
          NodesDiffer(n - (k - 1), 0);
        }
      }
    }
  }

  /** A recount from the root sees the file exactly if it lies within 4096 levels. */
  lemma DeepCounted(n: nat)
    ensures Counted(Deep(n)) == (if n < CAP then 1 else 0) && Total(Deep(n)) == 1
  {
    hide Shape, Node, Chain, Reach, Near, Sum, Linked;
    DeepShape(n);
    ShapeLinked(Deep(n));
    ReachMeans(Deep(n), Deep(n).root, CAP);
    FileIsNear(n);
    ChainEmpty(n);
    OnlyFile(n, Within(Deep(n), Deep(n).root, 0));
    OnlyFile(n, Deep(n).objs.Keys);
  }

  lemma OnlyFile(n: nat, us: set<Uid>)
    ensures Sum(Deep(n), us) == if "f" in us then 1 else 0
  {
    hide Chain, Node, Sum;
    ChainEmpty(n);
    forall u | u != "f"
      ensures SizeOf(Deep(n), u) == 0
    {
      assert SizeOf(Deep(n), u) == SizeOf(Chain(n), u);
    }
    if "f" in us {
      SumWithout(Deep(n), us, "f");
      SumZeroExactly(Deep(n), us - {"f"});
    } else {
      SumZeroExactly(Deep(n), us);
    }
  }

  lemma FirstUpload(d: DriveTree.Drive, n: nat, path: string)
    requires Resolve(d, path) == Some(Node(n)) && IsFolder(d, Node(n)) && KidsOf(d, Node(n)) == []
    requires "f" !in d.objs && Counted(d) == 0
    ensures After(Account(d, None, None), Upload(path, "f", 1, "f"))
            == Account(Made(d, Node(n), "f", Obj(false, "f", Node(n), 1)), Some(1), None)
  {
    hide Resolve, Node, Counted, Made, ValidComponent;
    ValidF();
  }

  ghost predicate BalancedAfter(path: string, n: nat) {
    Balanced(Run(Account(EmptyDrive("r"), None, None), Mkdirs(n) + [Upload(path, "f", 1, "f"), QuotaUpdate(1)]))
  }

  /** After a first upload into the deepest of n folders the counter is right; the recount that setting a
      quota makes keeps it right if and only if n is below 4096. */
  lemma DeepRecountExactly(n: nat)
    ensures exists path :: Resolve(Chain(n), path) == Some(Node(n)) && (BalancedAfter(path, n) <==> n < 4096)
  {
    hide Run, After, Chain, Shape, Mkdirs, Node, ChainShape, Resolve, PathTo, Counted, Total, Deep, Sum, DeepBytes;
    ChainHasNode(n);
    ChainEmpty(n);
    var path := PathTo(Chain(n), Node(n));
    var start := Account(EmptyDrive("r"), None, None);
    var up := Upload(path, "f", 1, "f");
    MkdirsMakeChain(n);
    ChainCounted(n);
    FirstUpload(Chain(n), n, path);
    DeepIs(n);
    LastTwo(start, Mkdirs(n), up, QuotaUpdate(1));
    DeepShape(n);
    DeepCounted(n);
    CountedExactly(Deep(n));
    AfterBalancedExactly(Account(Deep(n), Some(1), None), QuotaUpdate(1));
    assert BalancedAfter(path, n) <==> n < CAP;
  }

  lemma DeepIs(n: nat)
    ensures Deep(n) == Made(Chain(n), Node(n), "f", Obj(false, "f", Node(n), 1))
  {
  }

  lemma ChainCounted(n: nat)
    ensures Counted(Chain(n)) == 0
  {
    hide Sum, Chain, Node;
    ChainEmpty(n);
    SumZeroExactly(Chain(n), Within(Chain(n), Chain(n).root, 0));
  }

  lemma LastTwo(a: Account, rs: seq<Request>, q: Request, r: Request)
    ensures Run(a, rs + [q, r]) == After(After(Run(a, rs), q), r)
  {
    hide After;
    assert (rs + [q, r])[..|rs| + 1] == rs + [q];
    assert (rs + [q])[..|rs|] == rs;
  }
}
