/** The drive handlers of one user (frontend/src/fe_server.cc:5592-5669, 5759-5788, 5805-5839, 5874-5910, 6190-6488).

    Every KV call succeeds. Requests come one at a time, and the uid of a new object is new. The byte
    counter and the quota are single columns that may be missing.
 */
module Drive {
  import opened Bytes
  import opened DriveTree
  import opened DrivePaths
  import opened Listing
  import Cas
  import Csv
  import opened DriveWalks

  const MIB: nat := 1024 * 1024
  const MAX_FILE_BYTES: nat := 128 * MIB
  const MAX_QUOTA_MB: nat := 5 * 1024
  const DEFAULT_QUOTA: nat := MAX_QUOTA_MB * MIB

  datatype Account = Account(drive: Drive, used: Option<nat>, quota: Option<nat>)

  datatype Request =
    | Mkdir(path: string, name: string, uid: Uid)
    | Upload(path: string, name: string, size: nat, uid: Uid)
    | Rename(path: string, name: string)
    | Move(path: string, dst: string)
    | Delete(path: string)
    | QuotaUpdate(limitMb: nat)

  function Limit(a: Account): nat {
    if a.quota.Some? then a.quota.value else DEFAULT_QUOTA
  }

  // ----- path helpers -----

  /** The last index up to `end` that holds c. */
  function LastOf(s: string, c: char, end: nat): (r: Option<nat>)
    requires end < |s|
    ensures r.Some? ==> r.value <= end && s[r.value] == c
  {
    if s[end] == c then Some(end) else if end == 0 then None else LastOf(s, c, end - 1)
  }

  function LastNot(s: string, c: char): (r: Option<nat>)
    ensures r.Some? ==> r.value < |s|
  {
    if s == [] then None else if s[|s| - 1] != c then Some(|s| - 1) else LastNot(s[..|s| - 1], c)
  }

  function ParentPath(path: string): (p: string)
    ensures p != "" && (p == "/" || |p| < |path|)
  {
    var end := LastNot(path, '/');
    if path == "" || path == "/" || end == None || end.value == 0 then "/"
    else
      var slash := LastOf(path, '/', end.value);
      if slash == None || slash.value == 0 then "/" else path[..slash.value]
  }

  function Basename(path: string): string {
    var end := LastNot(path, '/');
    if path == "" || path == "/" || end == None then ""
    else
      var slash := LastOf(path, '/', end.value);
      if slash == None then path[..end.value + 1] else path[slash.value + 1..end.value + 1]
  }

  function JoinPath(parent: string, name: string): string {
    if parent == "" || parent == "/" then "/" + name else parent + "/" + name
  }

  function AddCandidate(cs: seq<string>, p: string): seq<string> {
    if p == "" || p in cs then cs else cs + [p]
  }

  /** The ancestors of a path that carry the requested name. */
  function NamedAncestors(cs: seq<string>, cur: string, name: string): seq<string>
    decreases if cur == "/" then 0 else |cur|
  {
    if cur == "" || cur == "/" then cs
    else NamedAncestors(if Basename(cur) == name then AddCandidate(cs, cur) else cs, ParentPath(cur), name)
  }

  /** Where a move may have been meant to go, in the order in which it is tried. */
  function Candidates(src: string, dst: string): seq<string> {
    var first := AddCandidate([], dst);
    if dst != "" && dst[0] != '/' then
      NamedAncestors(AddCandidate(AddCandidate(first, "/" + dst), JoinPath(ParentPath(src), dst)), ParentPath(src), dst)
    else first
  }

  function FirstFolder(d: Drive, cs: seq<string>): Option<Uid> {
    if cs == [] then None
    else
      var u := Resolve(d, cs[0]);
      if u.Some? && IsFolder(d, u.value) then u else FirstFolder(d, cs[1..])
  }

  method ResolveMoveDestination(d: Drive, src: string, dst: string) returns (u: Option<Uid>)
    ensures u == FirstFolder(d, Candidates(src, dst))
  {
    hide Resolve, Candidates;
    var cs := Candidates(src, dst);
    for i := 0 to |cs|
      invariant FirstFolder(d, cs) == FirstFolder(d, cs[i..])
    {
      assert cs[i..][0] == cs[i] && cs[i..][1..] == cs[i + 1..];
      u := ResolvePath(d, cs[i]);
      if u.Some? && IsFolder(d, u.value) { return u; }
    }
    u := None;
  }

  /** `child_name_exists`. */
  predicate NameTaken(d: Drive, folder: Uid, name: string, skip: Uid) {
    exists c :: c in KidsOf(d, folder) && c != skip && NameOf(d, c) == name
  }

  method ChildNameExists(d: Drive, folder: Uid, name: string, skip: Uid) returns (r: bool)
    ensures r <==> NameTaken(d, folder, name, skip)
  {
    var kids := KidsOf(d, folder);
    for i := 0 to |kids|
      invariant forall j :: 0 <= j < i ==> kids[j] == skip || NameOf(d, kids[j]) != name
    {
      if kids[i] != skip && NameOf(d, kids[i]) == name { return true; }
    }
    r := false;
  }

  // ----- what a request does -----

  /** The folder that a request for a new child names, if the child may be made there. */
  function Target(d: Drive, path: string, name: string, uid: Uid): Option<Uid> {
    var p := Resolve(d, path);
    if p.Some? && IsFolder(d, p.value) && ValidComponent(name) && !NameTaken(d, p.value, name, "")
       && uid != "" && uid !in d.objs then p else None
  }

  ghost function Counted(d: Drive): nat {
    Sum(d, Within(d, d.root, 0))
  }

  /** The counter after a change of delta bytes; a missing counter starts at zero. */
  function Adjusted(used: Option<nat>, delta: int): Option<nat> {
    if delta == 0 then used
    else
      var was := if used.Some? then used.value else 0;
      Some(if was + delta > 0 then was + delta else 0)
  }

  /** The counter that an upload goes by: the cached one, or a recount when there is none or it says that
      the file does not fit. */
  ghost function Checked(a: Account, size: nat): nat {
    var cached := if a.used.Some? then a.used.value else Counted(a.drive);
    if cached + size > Limit(a) then Counted(a.drive) else cached
  }

  ghost function AfterUpload(a: Account, path: string, name: string, size: nat, uid: Uid): Account {
    if size > MAX_FILE_BYTES then a
    else
      var b := a.(used := Some(Checked(a, size)));
      var p := Target(a.drive, path, name, uid);
      if Checked(a, size) + size > Limit(a) || p == None then b
      else b.(drive := Made(a.drive, p.value, uid, Obj(false, name, p.value, size)), used := Adjusted(b.used, size))
  }

  predicate Renames(d: Drive, path: string, name: string) {
    var u := Resolve(d, path);
    && ValidComponent(name) && path != "" && path != "/" && u.Some? && u.value in d.objs
    && !NameTaken(d, ParentOf(d, u.value), name, u.value)
  }

  ghost function AfterRename(a: Account, path: string, name: string): Account {
    if Renames(a.drive, path, name) then a.(drive := Renamed(a.drive, Resolve(a.drive, path).value, name)) else a
  }

  /** A move is answered with yes also if the object is in that folder already. */
  ghost predicate Moves(d: Drive, path: string, dst: string) {
    var u, to := Resolve(d, path), FirstFolder(d, Candidates(path, dst));
    && path != "" && dst != "" && path != "/" && u.Some? && u.value in d.objs && to.Some?
    && !(IsFolder(d, u.value) && (Under(d, to.value, u.value) || !Shallow(d, to.value)))
    && !NameTaken(d, to.value, NameOf(d, u.value), u.value)
  }

  ghost function AfterMove(a: Account, path: string, dst: string): Account {
    var d := a.drive;
    var u, to := Resolve(d, path), FirstFolder(d, Candidates(path, dst));
    if !Moves(d, path, dst) || ParentOf(d, u.value) == to.value then a
    else a.(drive := Moved(d, u.value, to.value))
  }

  predicate Deletes(d: Drive, path: string) {
    var u := Resolve(d, path);
    path != "" && path != "/" && u.Some? && u.value != d.root && u.value in d.objs
  }

  ghost function AfterDelete(a: Account, path: string): Account {
    if !Deletes(a.drive, path) then a
    else
      var u := Resolve(a.drive, path).value;
      var gone := Within(a.drive, u, 0);
      a.(drive := Deleted(a.drive, u, gone), used := Adjusted(a.used, -(Sum(a.drive, gone) as int)))
  }

  /** A deletion that leaves behind objects of the subtree it was asked to remove. */
  ghost predicate Severs(d: Drive, path: string) {
    Deletes(d, path) && Within(d, Resolve(d, path).value, 0) != Subtree(d, Resolve(d, path).value)
  }

  ghost function AfterQuota(a: Account, limitMb: nat): Account {
    if limitMb == 0 || limitMb > MAX_QUOTA_MB then a
    else
      var b := a.(used := Some(Counted(a.drive)));
      if limitMb * MIB < Counted(a.drive) then b else b.(quota := Some(limitMb * MIB))
  }

  ghost function After(a: Account, r: Request): Account {
    match r
    case Mkdir(path, name, uid) =>
      var p := Target(a.drive, if path == "" then "/" else path, name, uid);
      if p == None then a else a.(drive := Made(a.drive, p.value, uid, Obj(true, name, p.value, 0)))
    case Upload(path, name, size, uid) => AfterUpload(a, path, name, size, uid)
    case Rename(path, name) => AfterRename(a, path, name)
    case Move(path, dst) => AfterMove(a, path, dst)
    case Delete(path) => AfterDelete(a, path)
    case QuotaUpdate(mb) => AfterQuota(a, mb)
  }

  // ----- the handlers -----

  class DriveStore {
    var drive: Drive
    var used: Option<nat>
    var quota: Option<nat>

    ghost function Contents(): Account
      reads this
    {
      Account(drive, used, quota)
    }

    ghost predicate Valid()
      reads this
    {
      Shape(drive)
    }

    /** An empty drive: `ensure_drive_root`. */
    constructor (root: Uid)
      requires root != ""
      ensures Valid() && Contents() == Account(EmptyDrive(root), None, None)
    {
      drive, used, quota := EmptyDrive(root), None, None;
      new;
      EmptyShape(root);
    }

    /** `user_drive_used_bytes`: a traversal from the root. */
    method UsedBytes() returns (n: nat)
      requires Valid()
      ensures n == Counted(drive)
    {
      hide FoldersOk, DownOk, UpOk, ListsOk, Ranked, Within, Sum;
      var seen;
      n, seen := SubtreeBytes(drive, drive.root, {}, 0);
    }

    method UsedBytesFast() returns (n: nat)
      requires Valid()
      modifies this`used
      ensures n == (if old(used).Some? then old(used).value else Counted(drive)) && used == Some(n)
    {
      if used.Some? { return used.value; }
      n := UsedBytes();
      used := Some(n);
    }

    method UsedBytesReconciled() returns (n: nat)
      requires Valid()
      modifies this`used
      ensures n == Counted(drive) && used == Some(n)
    {
      n := UsedBytes();
      if used != Some(n) { used := Some(n); }
    }

    /** `update_drive_used_bytes`; its compare-and-put loop is an instance of those in `Cas`. */
    method UpdateUsedBytes(delta: int)
      modifies this`used
      ensures used == Adjusted(old(used), delta)
    {
      if delta == 0 { return; }
      var was := if used.Some? then used.value else 0;
      var nv := was + delta;
      used := Some(if nv > 0 then nv else 0);
    }

    method HandleMkdir(path: string, name: string, uid: Uid) returns (ok: bool)
      requires Valid() && uid != "" && uid !in drive.objs
      modifies this`drive
      ensures Valid() && Contents() == After(old(Contents()), Mkdir(path, name, uid))
      ensures ok <==> Target(old(drive), if path == "" then "/" else path, name, uid).Some?
    {
      hide Shape, Resolve, Made, ValidComponent;
      var parent := if path == "" then "/" else path;
      if !ValidComponent(name) { return false; }
      var p := ResolvePath(drive, parent);
      if p == None || !IsFolder(drive, p.value) { return false; }
      var taken := ChildNameExists(drive, p.value, name, "");
      if taken { return false; }
      TargetMakes(drive, p.value, uid, Obj(true, name, p.value, 0));
      drive := Made(drive, p.value, uid, Obj(true, name, p.value, 0));
      ok := true;
    }

    method HandleUpload(path: string, name: string, size: nat, uid: Uid) returns (ok: bool)
      requires Valid() && uid != "" && uid !in drive.objs
      modifies this
      ensures Valid() && Contents() == After(old(Contents()), Upload(path, name, size, uid))
      ensures ok <==> size <= MAX_FILE_BYTES && Checked(old(Contents()), size) + size <= Limit(old(Contents()))
                      && Target(old(drive), path, name, uid).Some?
    {
      hide Shape, Resolve, Made, ValidComponent, Counted;
      if size > MAX_FILE_BYTES { return false; }
      var usedBytes := UsedBytesFast();
      var limitBytes := if quota.Some? then quota.value else DEFAULT_QUOTA;
      if usedBytes + size > limitBytes {
        usedBytes := UsedBytesReconciled();
      }
      if usedBytes + size > limitBytes { return false; }
      var p := ResolvePath(drive, path);
      if p == None || !IsFolder(drive, p.value) { return false; }
      if !ValidComponent(name) { return false; }
      var taken := ChildNameExists(drive, p.value, name, "");
      if taken { return false; }
      TargetMakes(drive, p.value, uid, Obj(false, name, p.value, size));
      drive := Made(drive, p.value, uid, Obj(false, name, p.value, size));
      UpdateUsedBytes(size);
      ok := true;
    }

    method HandleRename(path: string, name: string) returns (ok: bool)
      requires Valid()
      modifies this`drive
      ensures Valid() && Contents() == After(old(Contents()), Rename(path, name))
      ensures ok <==> Renames(old(drive), path, name)
    {
      hide Shape, Resolve, Renamed, ValidComponent;
      if !ValidComponent(name) || path == "" || path == "/" { return false; }
      var u := ResolvePath(drive, path);
      if u == None { return false; }
      ResolvedIn(drive, path);
      var taken := ChildNameExists(drive, ParentOf(drive, u.value), name, u.value);
      if taken { return false; }
      RenamedShape(drive, u.value, name);
      drive := Renamed(drive, u.value, name);
      ok := true;
    }

    method HandleMove(path: string, dst: string) returns (ok: bool)
      requires Valid()
      modifies this`drive
      ensures Valid() && Contents() == After(old(Contents()), Move(path, dst))
      ensures ok <==> Moves(old(drive), path, dst)
    {
      hide Shape, Resolve, Moved, Under, Shallow, FirstFolder, Candidates;
      if path == "" || dst == "" || path == "/" { return false; }
      var u := ResolvePath(drive, path);
      if u == None { return false; }
      ResolvedIn(drive, path);
      var to := ResolveMoveDestination(drive, path, dst);
      if to == None { return false; }
      FirstFolderIs(drive, Candidates(path, dst));
      NoEmptyUid(drive);
      if IsFolder(drive, u.value) {
        var below := IsDescendantOf(drive, to.value, u.value);
        if below { return false; }
      }
      var taken := ChildNameExists(drive, to.value, NameOf(drive, u.value), u.value);
      if taken { return false; }
      if ParentOf(drive, u.value) == to.value { return true; }
      MoveKeeps(drive, u.value, to.value);
      drive := Moved(drive, u.value, to.value);
      ok := true;
    }

    /** The subtree is collected, then its objects go one by one, files counted on the way. The children
        list of the parent loses its entry first; it is not one of the lists collected. */
    method HandleDelete(path: string) returns (ok: bool)
      requires Valid()
      modifies this
      ensures Contents() == After(old(Contents()), Delete(path))
      ensures ok <==> Deletes(old(drive), path)
      ensures Valid() <==> !Severs(old(drive), path)
    {
      hide Shape, Resolve, Deleted, Within, Subtree, Sum, Lists;
      if path == "" || path == "/" { return false; }
      var r := ResolvePath(drive, path);
      if r == None { return false; }
      ResolvedIn(drive, path);
      var u := r.value;
      NoEmptyUid(drive);
      if u == drive.root { return false; }
      ghost var d := drive;
      var nodes, seen := Collect(drive, u, [], {}, 0);
      assert nodes[0..] == nodes;
      var freed := RemoveAll(u, nodes, Within(d, u, 0));
      SumListIsSum(d, nodes, Within(d, u, 0));
      DeleteExactly(d, u);
      if freed > 0 { UpdateUsedBytes(-freed); }
      ok := true;
    }

    method RemoveAll(u: Uid, nodes: seq<Uid>, ghost all: set<Uid>) returns (freed: int)
      requires ParentOf(drive, u) in drive.kids && Lists(nodes, all)
      modifies this`drive
      ensures freed == SumList(old(drive), nodes) && freed >= 0
      ensures drive == Deleted(old(drive), u, all)
    {
      hide Without;
      ghost var d := drive;
      var from := ParentOf(drive, u);
      drive := drive.(kids := drive.kids[from := Without(KidsOf(drive, from), u)]);
      ghost var cut := drive;
      freed := 0;
      var i := |nodes|;
      ghost var gone: set<Uid> := {};
      assert nodes[..|nodes|] == nodes;
      while i > 0
        invariant 0 <= i <= |nodes| && freed >= 0 && freed + SumList(d, nodes[..i]) == SumList(d, nodes)
        invariant forall x :: x in gone <==> x in nodes[i..]
        invariant drive == cut.(objs := cut.objs - gone, kids := cut.kids - gone)
      {
        i := i - 1;
        var obj := nodes[i];
        assert nodes[..i + 1][..i] == nodes[..i];
        freed := freed + SizeOf(drive, obj);
        drive := drive.(objs := drive.objs - {obj}, kids := drive.kids - {obj});
        gone := gone + {obj};
      }
      assert gone == all;
    }

    method HandleQuotaStatus() returns (limit: nat, usedBytes: nat, remaining: nat)
      requires Valid()
      modifies this`used
      ensures usedBytes == Counted(drive) && used == Some(usedBytes) && limit == Limit(Contents())
      ensures usedBytes + remaining == if limit < usedBytes then usedBytes else limit
    {
      hide Shape, Counted;
      limit := if quota.Some? then quota.value else DEFAULT_QUOTA;
      usedBytes := UsedBytesReconciled();
      remaining := if usedBytes >= limit then 0 else limit - usedBytes;
    }

    method HandleQuotaUpdate(limitMb: nat) returns (ok: bool)
      requires Valid()
      modifies this`used, this`quota
      ensures Valid() && Contents() == After(old(Contents()), QuotaUpdate(limitMb))
      ensures ok <==> 1 <= limitMb <= MAX_QUOTA_MB && Counted(drive) <= limitMb * MIB
    {
      hide Shape, Counted;
      if limitMb == 0 || limitMb > MAX_QUOTA_MB { return false; }
      var newLimit := limitMb * MIB;
      var usedBytes := UsedBytesReconciled();
      if newLimit < usedBytes { return false; }
      quota := Some(newLimit);
      var _, _, _ := HandleQuotaStatus();
      ok := true;
    }
  }

  function EmptyDrive(root: Uid): Drive {
    DriveTree.Drive(root, map[root := Obj(true, "/", "", 0)], map[root := []])
  }

  lemma EmptyShape(root: Uid)
    requires root != ""
    ensures Shape(EmptyDrive(root))
  {
    assert Ranked(EmptyDrive(root), map[root := 0]);
  }

  lemma ResolvedIn(d: Drive, path: string)
    requires Shape(d) && Resolve(d, path).Some?
    ensures Resolve(d, path).value in d.objs
  {
    hide FoldersOk, DownOk, UpOk, ListsOk, Ranked, Walk;
    RootIn(d);
    WalkStays(d, d.root, Parts(path));
  }

  lemma FirstFolderIs(d: Drive, cs: seq<string>)
    ensures FirstFolder(d, cs).Some? ==> IsFolder(d, FirstFolder(d, cs).value)
  {
    hide Resolve;
  }

  lemma NoEmptyUid(d: Drive)
    requires Shape(d)
    ensures "" !in d.objs && d.root in d.objs && FoldersOk(d)
    ensures forall u :: u in d.objs && u != d.root ==> ParentOf(d, u) in d.kids
  {
    hide DownOk, ListsOk, Ranked;
  }

  lemma TargetMakes(d: Drive, p: Uid, uid: Uid, obj: Obj)
    requires Shape(d) && IsFolder(d, p) && uid != "" && uid !in d.objs && obj.parent == p && ValidComponent(obj.name)
    requires !NameTaken(d, p, obj.name, "")
    ensures Shape(Made(d, p, uid, obj))
  {
    hide Made, ValidComponent, Ranked, Linked;
    NoEmptyUid(d);
    KidsIn(d, p);
    assert KidsOf(d, p) == d.kids[p];
    MadeShape(d, p, uid, obj);
  }

  /** A file has nothing under it, so the check for folders is all a move needs. */
  lemma MoveKeeps(d: Drive, u: Uid, to: Uid)
    requires Shape(d) && u in d.objs && IsFolder(d, to) && ParentOf(d, u) != to
    requires IsFolder(d, u) ==> !Under(d, to, u)
    requires !NameTaken(d, to, NameOf(d, u), u)
    ensures Shape(Moved(d, u, to))
  {
    hide Moved, Ranked, Linked, Under, NameOf;
    NoEmptyUid(d);
    if !IsFolder(d, u) {
      FilesHoldNothing(d, to, u);
    }
    RootIsAbove(d, to);
    assert KidsOf(d, to) == d.kids[to];
    MovedShape(d, u, to);
  }

  lemma FilesHoldNothing(d: Drive, x: Uid, u: Uid)
    requires Shape(d) && x in d.objs && u in d.objs && x != u && !IsFolder(d, u)
    ensures !Under(d, x, u)
  {
    hide DownOk, UpOk, ListsOk, Ranked, Near;
    if Under(d, x, u) {
      var n: nat :| Up(d, x, n) == u;
      UnderIsNear(d, x, u, n);
      NearDown(d, x, u, n + 1);
      assert false;
    }
  }

  lemma UnderIsNear(d: Drive, x: Uid, u: Uid, n: nat)
    requires Up(d, x, n) == u
    ensures Near(d, x, u, n) && Near(d, x, u, n + 1)
  {
  }

  lemma RootIsAbove(d: Drive, x: Uid)
    requires Shape(d) && x in d.objs
    ensures Under(d, x, d.root)
  {
    hide Linked, Ranked;
    var rank :| Ranked(d, rank);
    var n := ToRoot(d, rank, x);
  }

  /** What the delete handler removes is what the traversal saw; the shape survives exactly when that is
      the whole subtree. */
  lemma DeleteExactly(d: Drive, u: Uid)
    requires Shape(d) && u in d.objs && u != d.root
    ensures Shape(Deleted(d, u, Within(d, u, 0))) <==> Within(d, u, 0) == Subtree(d, u)
  {
    hide Linked, Ranked, Reach, Near, Under, Deleted;
    ReachMeans(d, u, CAP);
    NearSelf(d, u, CAP);
    forall x | x in Within(d, u, 0)
      ensures x in Subtree(d, u)
    {
      NearUnder(d, x, u, CAP);
    }
    DeletedShape(d, u, Within(d, u, 0));
  }

  // ----- whole histories -----

  /** No object lies more than 4096 levels below the root. */
  ghost predicate WithinCap(d: Drive) {
    Within(d, d.root, 0) == d.objs.Keys
  }

  ghost function Total(d: Drive): nat {
    Sum(d, d.objs.Keys)
  }

  /** The counter, once there is one, is the number of bytes stored; without one nothing is stored. The
      bytes stored are within the quota. */
  ghost predicate Balanced(a: Account) {
    && (if a.used.Some? then a.used.value == Total(a.drive) else Total(a.drive) == 0)
    && Total(a.drive) <= Limit(a)
  }

  lemma CapCoversSubtrees(d: Drive, u: Uid)
    requires Shape(d) && WithinCap(d) && u in d.objs
    ensures Within(d, u, 0) == Subtree(d, u)
  {
    hide Linked, Ranked, Reach, Near, Under;
    NoEmptyUid(d);
    ReachMeans(d, d.root, CAP);
    ReachMeans(d, u, CAP);
    forall x | x in d.objs
      ensures x in Within(d, u, 0) <==> x in Subtree(d, u)
    {
      assert x in Within(d, d.root, 0);
      assert Near(d, x, d.root, CAP);
      if Under(d, x, u) {
        NearWhenUnder(d, x, u);
      }
      if Near(d, x, u, CAP) {
        NearUnder(d, x, u, CAP);
      }
    }
  }

  /** An ancestor is nearer than the root. */
  lemma NearWhenUnder(d: Drive, x: Uid, u: Uid)
    requires Shape(d) && x in d.objs && u in d.objs && Under(d, x, u) && Near(d, x, d.root, CAP)
    ensures Near(d, x, u, CAP)
  {
    hide FoldersOk, DownOk, UpOk, ListsOk, Ranked;
    var n: nat :| Up(d, x, n) == u;
    var k :| 0 <= k <= CAP && Up(d, x, k) == d.root;
    NoEmptyUid(d);
    RootIn(d);
    if n > k {
      UpTwice(d, x, k, n - k);
      UpTwice(d, d.root, 1, n - k - 1);
      OutsideStays(d, n - k - 1);
      assert false;
    }
  }

  /** A request keeps the tree if and only if it is not a deletion that severs. */
  lemma AfterShapeExactly(a: Account, r: Request)
    requires Shape(a.drive)
    ensures Shape(After(a, r).drive) <==> !(r.Delete? && Severs(a.drive, r.path))
  {
    hide Shape, Resolve, Made, Renamed, Moved, Deleted, ValidComponent, Within, WithinCap, Subtree, Under, Shallow,
      FirstFolder,
         Candidates, NameTaken, Sum;
    var d := a.drive;
    NoEmptyUid(d);
    match r
    case Mkdir(path, name, uid) =>
      var at := if path == "" then "/" else path;
      if Target(d, at, name, uid).Some? {
        var p := Target(d, at, name, uid).value;
        TargetMakes(d, p, uid, Obj(true, name, p, 0));
      }
    case Upload(path, name, size, uid) =>
      if Target(d, path, name, uid).Some? {
        var p := Target(d, path, name, uid).value;
        TargetMakes(d, p, uid, Obj(false, name, p, size));
      }
    case Rename(path, name) =>
      if Renames(d, path, name) {
        RenameKeeps(d, Resolve(d, path).value, name);
      }
    case Move(path, dst) =>
      FirstFolderIs(d, Candidates(path, dst));
      if After(a, r) != a {
        MoveKeeps(d, Resolve(d, path).value, FirstFolder(d, Candidates(path, dst)).value);
      }
    case Delete(path) =>
      if Deletes(d, path) {
        DeleteExactly(d, Resolve(d, path).value);
      }
    case QuotaUpdate(_) =>
  }

  lemma RenameKeeps(d: Drive, u: Uid, name: string)
    requires Shape(d) && u in d.objs && ValidComponent(name) && !NameTaken(d, ParentOf(d, u), name, u)
    ensures Shape(Renamed(d, u, name))
  {
    hide Shape, Renamed, ValidComponent;
    RenamedShape(d, u, name);
  }

  // ----- conservation of bytes -----

  lemma MadeTotal(d: Drive, p: Uid, uid: Uid, obj: Obj)
    requires uid !in d.objs
    ensures Total(Made(d, p, uid, obj)) == Total(d) + (if obj.folder then 0 else obj.size)
  {
    hide Sum;
    var e := Made(d, p, uid, obj);
    assert e.objs.Keys == d.objs.Keys + {uid};
    SumWith(e, d.objs.Keys, uid);
    SumSame(d, e, d.objs.Keys);
  }

  lemma RenamedTotal(d: Drive, u: Uid, name: string)
    requires u in d.objs
    ensures Total(Renamed(d, u, name)) == Total(d)
  {
    hide Sum;
    assert Renamed(d, u, name).objs.Keys == d.objs.Keys;
    SumSame(d, Renamed(d, u, name), d.objs.Keys);
  }

  lemma MovedTotal(d: Drive, u: Uid, to: Uid)
    requires u in d.objs
    ensures Total(Moved(d, u, to)) == Total(d)
  {
    hide Sum;
    assert Moved(d, u, to).objs.Keys == d.objs.Keys;
    SumSame(d, Moved(d, u, to), d.objs.Keys);
  }

  lemma DeletedTotal(d: Drive, u: Uid, gone: set<Uid>)
    requires gone <= d.objs.Keys
    ensures Total(Deleted(d, u, gone)) + Sum(d, gone) == Total(d)
  {
    hide Sum;
    var e := Deleted(d, u, gone);
    assert e.objs.Keys == d.objs.Keys - gone;
    SumUnion(d, d.objs.Keys - gone, gone);
    assert d.objs.Keys - gone + gone == d.objs.Keys;
    SumSame(d, e, d.objs.Keys - gone);
  }

  /** A file that is not empty lies deeper than a traversal from the root goes. */
  ghost predicate DeepBytes(d: Drive) {
    exists u :: u in d.objs && u !in Within(d, d.root, 0) && SizeOf(d, u) > 0
  }

  lemma CountedExactly(d: Drive)
    requires Shape(d)
    ensures Counted(d) == Total(d) <==> !DeepBytes(d)
  {
    hide Sum, Shape, Within, SizeOf;
    RootInDrive(d);
    InDrive(d, d.root);
    var seen := Within(d, d.root, 0);
    SumUnion(d, seen, d.objs.Keys - seen);
    assert seen + (d.objs.Keys - seen) == d.objs.Keys;
    SumZeroExactly(d, d.objs.Keys - seen);
  }

  lemma RootInDrive(d: Drive)
    requires Shape(d)
    ensures d.root in d.objs
  {
  }

  /** The request recounts the bytes of a drive that has some too deep for it. */
  ghost predicate Miscounts(a: Account, r: Request) {
    && DeepBytes(a.drive)
    && match r
       case Upload(_, _, size, _) => size <= MAX_FILE_BYTES && (a.used.None? || a.used.value + size > Limit(a))
       case QuotaUpdate(mb) => 1 <= mb <= MAX_QUOTA_MB
       case _ => false
  }

  /** A request keeps counter and quota in order if and only if it does not miscount. */
  lemma AfterBalancedExactly(a: Account, r: Request)
    requires Shape(a.drive) && Balanced(a)
    ensures Balanced(After(a, r)) <==> !Miscounts(a, r)
  {
    hide Shape, Resolve, Made, Renamed, Moved, Deleted, ValidComponent, Within, Subtree, Under, Shallow, FirstFolder,
         Candidates, NameTaken, Sum, Counted, Total, DeepBytes;
    var d := a.drive;
    CountedExactly(d);
    match r
    case Mkdir(path, name, uid) =>
      var at := if path == "" then "/" else path;
      if Target(d, at, name, uid).Some? {
        var p := Target(d, at, name, uid).value;
        MadeTotal(d, p, uid, Obj(true, name, p, 0));
      }
    case Upload(path, name, size, uid) =>
      if Target(d, path, name, uid).Some? {
        var p := Target(d, path, name, uid).value;
        MadeTotal(d, p, uid, Obj(false, name, p, size));
      }
    case Rename(path, name) =>
      if Renames(d, path, name) {
        RenamedTotal(d, Resolve(d, path).value, name);
      }
    case Move(path, dst) =>
      if After(a, r) != a {
        MovedTotal(d, Resolve(d, path).value, FirstFolder(d, Candidates(path, dst)).value);
      }
    case Delete(path) =>
      if Deletes(d, path) {
        var u := Resolve(d, path).value;
        InDrive(d, u);
        DeletedTotal(d, u, Within(d, u, 0));
      }
    case QuotaUpdate(_) =>
  }

  lemma InDrive(d: Drive, u: Uid)
    requires Shape(d) && u in d.objs
    ensures Within(d, u, 0) <= d.objs.Keys
  {
    hide Linked, Ranked, Reach, Near;
    ReachMeans(d, u, CAP);
  }

  ghost function Run(a: Account, rs: seq<Request>): Account {
    if rs == [] then a else After(Run(a, rs[..|rs| - 1]), rs[|rs| - 1])
  }

  lemma RunLast(a: Account, rs: seq<Request>, k: nat)
    requires k < |rs|
    ensures Run(a, rs[..k + 1]) == After(Run(a, rs[..k]), rs[k])
  {
    hide After;
    assert rs[..k + 1][..k] == rs[..k];
  }

  ghost predicate AlwaysShape(a: Account, rs: seq<Request>) {
    forall k :: 0 <= k <= |rs| ==> Shape(Run(a, rs[..k]).drive)
  }

  ghost predicate SeversNothing(a: Account, rs: seq<Request>) {
    forall k :: 0 <= k < |rs| ==> !(rs[k].Delete? && Severs(Run(a, rs[..k]).drive, rs[k].path))
  }

  ghost predicate MiscountsNothing(a: Account, rs: seq<Request>) {
    forall k :: 0 <= k < |rs| ==> !Miscounts(Run(a, rs[..k]), rs[k])
  }

  ghost predicate AlwaysSound(a: Account, rs: seq<Request>) {
    forall k :: 0 <= k <= |rs| ==> Shape(Run(a, rs[..k]).drive) && Balanced(Run(a, rs[..k]))
  }

  /** The drive is a tree throughout a history if and only if no deletion in it severs. */
  lemma TreeExactly(a: Account, rs: seq<Request>)
    requires Shape(a.drive)
    ensures AlwaysShape(a, rs) <==> SeversNothing(a, rs)
  {
    hide Shape, After, Severs, Run;
    if AlwaysShape(a, rs) {
      forall k | 0 <= k < |rs|
        ensures !(rs[k].Delete? && Severs(Run(a, rs[..k]).drive, rs[k].path))
      {
        assert Shape(Run(a, rs[..k]).drive) && Shape(Run(a, rs[..k + 1]).drive);
        RunLast(a, rs, k);
        AfterShapeExactly(Run(a, rs[..k]), rs[k]);
      }
    }
    if SeversNothing(a, rs) {
      forall k | 0 <= k <= |rs|
        ensures Shape(Run(a, rs[..k]).drive)
      {
        TreeSoFar(a, rs, k);
      }
    }
  }

  lemma RunNone(a: Account, rs: seq<Request>)
    ensures Run(a, rs[..0]) == a
  {
  }

  lemma {:induction false} TreeSoFar(a: Account, rs: seq<Request>, k: nat)
    requires Shape(a.drive) && SeversNothing(a, rs) && k <= |rs|
    ensures Shape(Run(a, rs[..k]).drive)
  {
    hide Shape, After, Severs, Run;
    RunNone(a, rs);
    if k > 0 {
      TreeSoFar(a, rs, k - 1);
      RunLast(a, rs, k - 1);
      AfterShapeExactly(Run(a, rs[..k - 1]), rs[k - 1]);
    }
  }

  /** Tree, counter and quota are in order throughout a history if and only if no deletion in it severs and
      no recount in it miscounts. */
  lemma SoundExactly(a: Account, rs: seq<Request>)
    requires Shape(a.drive) && Balanced(a)
    ensures AlwaysSound(a, rs) <==> SeversNothing(a, rs) && MiscountsNothing(a, rs)
  {
    hide Shape, Balanced, After, Severs, Miscounts, Run;
    if AlwaysSound(a, rs) {
      forall k | 0 <= k < |rs|
        ensures !(rs[k].Delete? && Severs(Run(a, rs[..k]).drive, rs[k].path)) && !Miscounts(Run(a, rs[..k]), rs[k])
      {
        assert Shape(Run(a, rs[..k]).drive) && Shape(Run(a, rs[..k + 1]).drive) && Balanced(Run(a, rs[..k + 1]));
        RunLast(a, rs, k);
        AfterShapeExactly(Run(a, rs[..k]), rs[k]);
        AfterBalancedExactly(Run(a, rs[..k]), rs[k]);
      }
    }
    if SeversNothing(a, rs) && MiscountsNothing(a, rs) {
      forall k | 0 <= k <= |rs|
        ensures Shape(Run(a, rs[..k]).drive) && Balanced(Run(a, rs[..k]))
      {
        SoundSoFar(a, rs, k);
      }
    }
  }

  lemma {:induction false} SoundSoFar(a: Account, rs: seq<Request>, k: nat)
    requires Shape(a.drive) && Balanced(a) && SeversNothing(a, rs) && MiscountsNothing(a, rs) && k <= |rs|
    ensures Shape(Run(a, rs[..k]).drive) && Balanced(Run(a, rs[..k]))
  {
    hide Shape, Balanced, After, Severs, Miscounts, Run;
    RunNone(a, rs);
    if k > 0 {
      SoundSoFar(a, rs, k - 1);
      RunLast(a, rs, k - 1);
      AfterShapeExactly(Run(a, rs[..k - 1]), rs[k - 1]);
      AfterBalancedExactly(Run(a, rs[..k - 1]), rs[k - 1]);
    }
  }

  /** From an empty drive, any requests of which no deletion severs and no recount miscounts leave a tree,
      the counter equal to the bytes stored, those within the quota, and for every object a path that leads
      back to it. */
  lemma DriveStaysSound(root: Uid, rs: seq<Request>)
    requires root != ""
    requires SeversNothing(Account(EmptyDrive(root), None, None), rs)
             && MiscountsNothing(Account(EmptyDrive(root), None, None), rs)
    ensures var a := Run(Account(EmptyDrive(root), None, None), rs);
            && Shape(a.drive) && Balanced(a)
            && forall u :: u in a.drive.objs ==>
                 exists n :: Below(a.drive, u, n) && Resolve(a.drive, Slashed(NamesDown(a.drive, u, n))) == Some(u)
  {
    hide Shape, Balanced, SeversNothing, MiscountsNothing, Resolve, Below, Slashed, NamesDown, EmptyDrive, Run;
    var start := Account(EmptyDrive(root), None, None);
    EmptyShape(root);
    EmptyBalanced(root);
    SoundSoFar(start, rs, |rs|);
    assert rs[..|rs|] == rs;
    var a := Run(start, rs);
    forall u | u in a.drive.objs
      ensures exists n :: Below(a.drive, u, n) && Resolve(a.drive, Slashed(NamesDown(a.drive, u, n))) == Some(u)
    {
      EveryObjectHasAPath(a.drive, u);
    }
  }

  /** That is the case in particular if no object ever lies more than 4096 levels below the root. */
  lemma CapKeepsSound(root: Uid, rs: seq<Request>)
    requires root != "" && forall k :: 0 <= k <= |rs| ==>
             WithinCap(Run(Account(EmptyDrive(root), None, None), rs[..k]).drive)
    ensures SeversNothing(Account(EmptyDrive(root), None, None), rs)
            && MiscountsNothing(Account(EmptyDrive(root), None, None), rs)
  {
    hide Shape, Severs, Miscounts, WithinCap, Run, EmptyDrive;
    EmptyShape(root);
    forall k | 0 <= k < |rs|
      ensures var b := Run(Account(EmptyDrive(root), None, None), rs[..k]);
              !(rs[k].Delete? && Severs(b.drive, rs[k].path)) && !Miscounts(b, rs[k])
    {
      CapSoFar(Account(EmptyDrive(root), None, None), rs, k);
      CapHarmsNothing(Run(Account(EmptyDrive(root), None, None), rs[..k]), rs[k]);
    }
  }

  lemma {:induction false} CapSoFar(a: Account, rs: seq<Request>, k: nat)
    requires Shape(a.drive) && k <= |rs| && forall j :: 0 <= j <= |rs| ==> WithinCap(Run(a, rs[..j]).drive)
    ensures Shape(Run(a, rs[..k]).drive)
  {
    hide Shape, After, Severs, Miscounts, WithinCap, Run;
    RunNone(a, rs);
    if k > 0 {
      CapSoFar(a, rs, k - 1);
      RunLast(a, rs, k - 1);
      CapHarmsNothing(Run(a, rs[..k - 1]), rs[k - 1]);
      AfterShapeExactly(Run(a, rs[..k - 1]), rs[k - 1]);
    }
  }

  lemma CapHarmsNothing(a: Account, r: Request)
    requires Shape(a.drive) && WithinCap(a.drive)
    ensures !(r.Delete? && Severs(a.drive, r.path)) && !Miscounts(a, r)
  {
    hide Shape, Resolve, Within, Subtree, Sum;
    if r.Delete? && Deletes(a.drive, r.path) {
      CapCoversSubtrees(a.drive, Resolve(a.drive, r.path).value);
    }
  }

  lemma EmptyBalanced(root: Uid)
    ensures Balanced(Account(EmptyDrive(root), None, None))
  {
    hide Sum;
    var d := EmptyDrive(root);
    SumWith(d, {}, root);
    WithinNone(d, 0);
    assert d.objs.Keys == {} + {root};
  }

  // ----- the children column -----

  /** The lists of the tree are what the text edits of the handlers make of the column: linking is an append
      at the back, unlinking a removal. */
  lemma ChildrenText(kids: seq<Uid>, u: Uid)
    requires Csv.AllPlain(kids) && Csv.Plain(u)
    ensures u !in kids ==> Cas.EditText(Cas.Add(u, false, 0), Csv.Join(kids)) == Csv.Join(kids + [u])
    ensures Csv.Split(Cas.EditText(Cas.Remove(u), Csv.Join(kids))) == Without(kids, u)
    ensures Csv.Split(Csv.Join(kids)) == kids
  {
    hide Csv.Split, Csv.Join, Csv.Plain, Csv.AllPlain;
    Csv.RoundTrip(kids);
    Cas.EditSplit(Cas.Remove(u), Csv.Join(kids));
  }
}
