/** Elections, recoveries and lookups of the coordinator (coordinator/src/coordinator.cc).

    Probes and RPCs are arbitrary choices of the environment. `calls` records every probe and RPC with what
    came back, `heard` the answered probes, so a contract can say whom a decision asked and what it knew. The
    calls of one handler run without others in between.
 */
module Coordinator {
  import opened Bytes
  import opened Nodes
  import opened Routing

  datatype Candidate = Candidate(primary: StorageNode, followers: seq<StorageNode>, lsn: nat)
  datatype FailurePlan = FailurePlan(tablet: string, candidates: seq<Candidate>, maxKnown: nat)
  datatype RebuildPlan = RebuildPlan(tablet: string, primary: StorageNode, followers: seq<StorageNode>)
  datatype RecoveryPlan = RecoveryPlan(
    tablet: string, live: StorageNode, primary: Option<StorageNode>, followers: seq<StorageNode>,
    oldPrimary: Id, maxKnown: nat)

  /** A probe with the node's record after its answer, if it answered; BECOME_PRIMARY; BECOME_SECONDARY, which
      waits for the synchronisation; ADD_REPLICA. */
  datatype Call =
    | Probed(id: Id, answer: Option<StorageNode>)
    | Promote(id: Id, tablet: string, granted: bool)
    | Demote(id: Id, primary: Id, tablet: string, synced: bool)
    | AddReplica(primary: Id, id: Id, tablet: string, added: bool)

  /** A completed decision: who leads the tablet, the LSN it was heard to have, the highest LSN cached when
      the plan was made, and the stretch of `heard` that was listened to. */
  datatype Decision = Decision(tablet: string, leader: Id, lsn: nat, cached: nat, from: nat, to: nat)

  function Max(a: nat, b: nat): nat {
    if a < b then b else a
  }

  /** No LSN considered, cached or fresh, is above the leader's, and the leader did report its own. */
  ghost predicate Freshest(d: Decision, heard: seq<StorageNode>) {
    && d.from <= d.to <= |heard| && d.cached <= d.lsn
    && (forall i :: d.from <= i < d.to ==> NodeTabletLsn(heard[i], d.tablet) <= d.lsn)
    && exists i :: d.from <= i < d.to && heard[i].id == d.leader && NodeTabletLsn(heard[i], d.tablet) == d.lsn
  }

  lemma FreshestLater(d: Decision, heard: seq<StorageNode>, later: seq<StorageNode>)
    requires Freshest(d, heard) && heard <= later
    ensures Freshest(d, later)
  {
    var i :| d.from <= i < d.to && heard[i].id == d.leader && NodeTabletLsn(heard[i], d.tablet) == d.lsn;
    assert later[i] == heard[i];
  }

  /** The cached LSNs of all nodes of the tablet, of dead ones too. */
  ghost predicate KnownUpTo(nodes: map<Id, StorageNode>, tg: TabletGroup, lsn: nat) {
    forall id | id in tg.nodeIds && id in nodes :: NodeTabletLsn(nodes[id], tg.name) <= lsn
  }

  ghost predicate AliveKnownUpTo(nodes: map<Id, StorageNode>, tg: TabletGroup, lsn: nat) {
    forall id | id in tg.nodeIds && id in nodes && nodes[id].alive :: NodeTabletLsn(nodes[id], tg.name) <= lsn
  }

  // ----- the order of a tablet's nodes -----

  function IndexOf(ids: seq<Id>, id: Id): (p: nat)
    ensures p <= |ids| && (p < |ids| <==> id in ids) && (p < |ids| ==> ids[p] == id)
  {
    if ids == [] then 0 else if ids[0] == id then 0 else 1 + IndexOf(ids[1..], id)
  }

  function SwappedTo(tg: TabletGroup, leader: Id): TabletGroup {
    var p := IndexOf(tg.nodeIds, leader);
    if p == |tg.nodeIds| then tg
    else tg.(nodeIds := tg.nodeIds[0 := tg.nodeIds[p]][p := tg.nodeIds[0]])
  }

  function Promoted(ts: seq<TabletGroup>, name: string, leader: Id): seq<TabletGroup> {
    if ts == [] then []
    else if ts[0].name == name then [SwappedTo(ts[0], leader)] + ts[1..]
    else [ts[0]] + Promoted(ts[1..], name, leader)
  }

  /** Same tablets with the same ranges, and for each the same nodes in some order. */
  ghost predicate SameConfiguration(a: seq<TabletGroup>, b: seq<TabletGroup>) {
    |a| == |b| && forall i :: 0 <= i < |a| ==>
      && a[i].name == b[i].name && a[i].rowStart == b[i].rowStart && a[i].rowEnd == b[i].rowEnd
      && multiset(a[i].nodeIds) == multiset(b[i].nodeIds)
  }

  lemma SameConfigurationTransitive(a: seq<TabletGroup>, b: seq<TabletGroup>, c: seq<TabletGroup>)
    requires SameConfiguration(a, b) && SameConfiguration(b, c)
    ensures SameConfiguration(a, c)
  {
  }

  lemma SwappedKeeps(tg: TabletGroup, leader: Id)
    ensures SameConfiguration([tg], [SwappedTo(tg, leader)])
    ensures leader in tg.nodeIds ==> SwappedTo(tg, leader).nodeIds[0] == leader
  {
  }

  /** The leader and the one that stood first change places, and no other node moves. */
  lemma SwapsTwo(tg: TabletGroup, leader: Id, k: nat)
    requires k < |tg.nodeIds|
    ensures var now := SwappedTo(tg, leader).nodeIds;
            var p := IndexOf(tg.nodeIds, leader);
            && |now| == |tg.nodeIds|
            && (k != 0 && k != p ==> now[k] == tg.nodeIds[k])
            && (leader in tg.nodeIds ==> now[p] == tg.nodeIds[0] && now[0] == leader)
            && (leader !in tg.nodeIds ==> now[k] == tg.nodeIds[k])
  {
  }

  function FirstNamed(ts: seq<TabletGroup>, name: string): (k: nat)
    ensures k <= |ts| && forall j :: 0 <= j < k ==> ts[j].name != name
    ensures k < |ts| ==> ts[k].name == name
  {
    if ts == [] then 0 else if ts[0].name == name then 0 else 1 + FirstNamed(ts[1..], name)
  }

  lemma {:induction false} PromotedIs(ts: seq<TabletGroup>, name: string, leader: Id)
    ensures var k := FirstNamed(ts, name);
            Promoted(ts, name, leader) == if k == |ts| then ts else ts[k := SwappedTo(ts[k], leader)]
  {
    hide SwappedTo;
    if ts != [] {
      assert ts == [ts[0]] + ts[1..];
      if ts[0].name != name {
        PromotedIs(ts[1..], name, leader);
      }
    }
  }

  /** Putting a leader first keeps the configuration, and touches no tablet but the first of that name. */
  lemma PromotedKeeps(ts: seq<TabletGroup>, name: string, leader: Id)
    ensures SameConfiguration(ts, Promoted(ts, name, leader))
    ensures forall i :: 0 <= i < |ts| && Promoted(ts, name, leader)[i] != ts[i] ==>
              && ts[i].name == name && (forall j :: 0 <= j < i ==> ts[j].name != name)
              && Promoted(ts, name, leader)[i].nodeIds != [] && Promoted(ts, name, leader)[i].nodeIds[0] == leader
  {
    hide SwappedTo, Promoted, FirstNamed;
    PromotedIs(ts, name, leader);
    var k := FirstNamed(ts, name);
    if k < |ts| {
      SwappedKeeps(ts[k], leader);
      SwappedOnlyMembers(ts[k], leader);
      var a, b := [ts[k]], [SwappedTo(ts[k], leader)];
      assert a[0].name == b[0].name && multiset(a[0].nodeIds) == multiset(b[0].nodeIds);
    }
  }

  lemma PromotedAt(ts: seq<TabletGroup>, i: nat, name: string, leader: Id)
    requires i <= |ts|
    ensures i < |ts| && ts[i].name == name ==>
              ts[..i] + Promoted(ts[i..], name, leader) == ts[i := SwappedTo(ts[i], leader)]
    ensures i < |ts| && ts[i].name != name ==>
              ts[..i] + Promoted(ts[i..], name, leader) == ts[..i + 1] + Promoted(ts[i + 1..], name, leader)
    ensures i == |ts| ==> ts[..i] + Promoted(ts[i..], name, leader) == ts
  {
    hide SwappedTo;
    if i < |ts| {
      assert ts[i..][0] == ts[i] && ts[i..][1..] == ts[i + 1..];
    }
  }

  lemma SwappedOnlyMembers(tg: TabletGroup, leader: Id)
    ensures SwappedTo(tg, leader) != tg ==> leader in tg.nodeIds
    ensures leader in tg.nodeIds ==> SwappedTo(tg, leader).nodeIds != []
  {
  }

  // ----- candidates -----

  predicate Descending(cs: seq<Candidate>) {
    forall i, j :: 0 <= i < j < |cs| ==> cs[i].lsn >= cs[j].lsn
  }

  method Insert(cs: seq<Candidate>, c: Candidate) returns (r: seq<Candidate>)
    requires Descending(cs)
    ensures Descending(r) && multiset(r) == multiset(cs) + multiset{c}
  {
    hide Descending;
    var k := 0;
    while k < |cs| && cs[k].lsn >= c.lsn
      invariant k <= |cs| && (k > 0 ==> cs[k - 1].lsn >= c.lsn)
    {
      k := k + 1;
    }
    DescendingInserted(cs, c, k);
    assert cs == cs[..k] + cs[k..];
    r := cs[..k] + [c] + cs[k..];
  }

  lemma DescendingInserted(cs: seq<Candidate>, c: Candidate, k: nat)
    requires Descending(cs) && k <= |cs|
    requires k > 0 ==> cs[k - 1].lsn >= c.lsn
    requires k < |cs| ==> cs[k].lsn <= c.lsn
    ensures Descending(cs[..k] + [c] + cs[k..])
  {
    var r := cs[..k] + [c] + cs[k..];
    forall i, j | 0 <= i < j < |r|
      ensures r[i].lsn >= r[j].lsn
    {
      var a := if i < k then i else i - 1;
      var b := if j < k then j else j - 1;
      assert i != k ==> r[i] == cs[a];
      assert j != k ==> r[j] == cs[b];
    }
  }

  /** Stands for std::sort, highest LSN first. */
  method SortCandidates(cs: seq<Candidate>) returns (r: seq<Candidate>)
    ensures Descending(r) && multiset(r) == multiset(cs)
  {
    hide Descending;
    r := [];
    DescendingNone();
    for i := 0 to |cs|
      invariant Descending(r) && multiset(r) == multiset(cs[..i])
    {
      assert cs[..i + 1] == cs[..i] + [cs[i]];
      r := Insert(r, cs[i]);
    }
    assert cs[..|cs|] == cs;
  }

  lemma DescendingNone()
    ensures Descending([])
  {
  }

  lemma SameMembers<T>(a: seq<T>, b: seq<T>)
    requires multiset(a) == multiset(b)
    ensures forall x :: x in a <==> x in b
    ensures a == [] <==> b == []
  {
    forall x
      ensures x in a <==> x in b
    {
      assert x in a <==> x in multiset(a);
      assert x in b <==> x in multiset(b);
    }
    assert |multiset(a)| == |a| && |multiset(b)| == |b|;
  }

  /** The live nodes of a tablet apart from two. */
  ghost predicate LiveOthers(fs: seq<StorageNode>, nodes: map<Id, StorageNode>, tg: TabletGroup, a: Id, b: Id) {
    && (forall f :: f in fs ==>
          f.id in tg.nodeIds && f.id != a && f.id != b && f.id in nodes && f == nodes[f.id] && f.alive)
    && forall id :: id in tg.nodeIds && id != a && id != b && id in nodes && nodes[id].alive ==> nodes[id] in fs
  }

  /** A replica that was alive and not the failed node when the plan was made, with the others as followers. */
  ghost predicate Eligible(c: Candidate, nodes: map<Id, StorageNode>, tg: TabletGroup, dead: Id) {
    && c.primary.id in tg.nodeIds && c.primary.id != dead && c.primary.id in nodes
    && c.primary == nodes[c.primary.id] && c.primary.alive && c.lsn == NodeTabletLsn(c.primary, tg.name)
    && LiveOthers(c.followers, nodes, tg, dead, c.primary.id)
  }

  /** All eligible replicas stand, and the highest LSN cached for the tablet is the bar. */
  ghost predicate PlannedFor(p: FailurePlan, nodes: map<Id, StorageNode>, tg: TabletGroup, dead: Id) {
    && p.tablet == tg.name && dead in tg.nodeIds && Least(nodes, tg, p.maxKnown)
    && (tg.nodeIds[0] == dead || !(tg.nodeIds[0] in nodes && nodes[tg.nodeIds[0]].alive))
    && p.candidates != [] && (forall c | c in p.candidates :: Eligible(c, nodes, tg, dead))
    && forall id :: id in tg.nodeIds && id != dead && id in nodes && nodes[id].alive ==>
         exists c :: c in p.candidates && c.primary.id == id
  }

  /** The least LSN that no cached one exceeds. */
  ghost predicate Least(nodes: map<Id, StorageNode>, tg: TabletGroup, m: nat) {
    forall lsn: nat :: m <= lsn <==> KnownUpTo(nodes, tg, lsn)
  }

  /** The failed node serves the tablet, its primary is not alive, and another node of it is. */
  ghost predicate Leaderless(nodes: map<Id, StorageNode>, tg: TabletGroup, dead: Id) {
    && dead in tg.nodeIds
    && (tg.nodeIds[0] == dead || !(tg.nodeIds[0] in nodes && nodes[tg.nodeIds[0]].alive))
    && exists id :: id in tg.nodeIds && id != dead && id in nodes && nodes[id].alive
  }

  ghost predicate RecoveryFor(p: RecoveryPlan, nodes: map<Id, StorageNode>, tg: TabletGroup, live: Id) {
    && p.tablet == tg.name && live in tg.nodeIds && live in nodes && p.live == nodes[live]
    && p.live.id == live && p.oldPrimary == tg.nodeIds[0]
    && LeastAlive(nodes, tg, live, p.maxKnown) && LiveOthers(p.followers, nodes, tg, live, live)
    && p.primary == (if p.oldPrimary in nodes && nodes[p.oldPrimary].alive then Some(nodes[p.oldPrimary]) else None)
    && (p.primary.Some? ==> p.primary.value.id == p.oldPrimary)
  }

  /** The least LSN that neither the node's own nor a live one's exceeds. */
  ghost predicate LeastAlive(nodes: map<Id, StorageNode>, tg: TabletGroup, live: Id, m: nat)
    requires live in nodes
  {
    forall lsn: nat :: m <= lsn <==> AliveKnownUpTo(nodes, tg, lsn) && NodeTabletLsn(nodes[live], tg.name) <= lsn
  }

  /** What a round of pings has done once the nodes in `ids` have been pinged. */
  ghost predicate Beaten(ids: set<Id>, before: map<Id, StorageNode>, after: map<Id, StorageNode>,
                         replies: map<Id, Option<Pong>>, dead: seq<Id>, live: seq<Id>, threshold: int) {
    && after.Keys == before.Keys && replies.Keys == ids && ids <= before.Keys
    && (forall id | id in before ::
          after[id] == if id in ids then Pinged(before[id], replies[id], threshold) else before[id])
    && (forall id :: id in dead <==> id in ids && DeclaredDown(before[id], replies[id], threshold))
    && (forall id :: id in live <==>
         id in ids && (DeclaredRecovered(before[id], replies[id], threshold) || Restarted(before[id], replies[id])))
  }

  lemma BeatenNone(nodes: map<Id, StorageNode>, threshold: int)
    ensures Beaten({}, nodes, nodes, map[], [], [], threshold)
  {
  }

  lemma BeatenOneMore(ids: set<Id>, before: map<Id, StorageNode>, after: map<Id, StorageNode>,
                      replies: map<Id, Option<Pong>>, dead: seq<Id>, live: seq<Id>, threshold: int,
                      id: Id, reply: Option<Pong>)
    requires Beaten(ids, before, after, replies, dead, live, threshold) && id in before && id !in ids
    ensures Beaten(ids + {id}, before, after[id := Pinged(before[id], reply, threshold)], replies[id := reply],
                   if DeclaredDown(before[id], reply, threshold) then dead + [id] else dead,
                   if DeclaredRecovered(before[id], reply, threshold) || Restarted(before[id], reply)
                   then live + [id] else live,
                   threshold)
  {
    hide Pinged, DeclaredDown, DeclaredRecovered, Restarted;
  }

  lemma BeatenAll(before: map<Id, StorageNode>, after: map<Id, StorageNode>,
                  replies: map<Id, Option<Pong>>, dead: seq<Id>, live: seq<Id>, threshold: int)
    requires Beaten(before.Keys, before, after, replies, dead, live, threshold)
    requires forall id | id in before :: before[id].id == id
    ensures after.Keys == before.Keys && forall id | id in after :: after[id].id == id
  {
  }

  /** What `cache_refreshed_node` copies from a refreshed record into the stored one. */
  function Cached(stored: StorageNode, n: StorageNode): StorageNode {
    stored.(missed := n.missed, alive := n.alive, wasDown := n.wasDown, lsn := n.lsn,
            tabletLsns := n.tabletLsns, processId := n.processId)
  }

  /** The stored record is then the refreshed one, if the node is still known by the same address. */
  lemma CachedIsRefreshed(stored: StorageNode, reply: Option<Pong>)
    ensures Cached(stored, Refreshed(stored, reply)) == Refreshed(stored, reply)
  {
  }

  /** Every tablet that changed its order is led by the leader of a decision about it. */
  ghost predicate Explained(before: seq<TabletGroup>, after: seq<TabletGroup>, ds: seq<Decision>) {
    && SameConfiguration(before, after)
    && forall i :: 0 <= i < |before| && after[i] != before[i] ==>
      after[i].nodeIds != [] && exists d :: d in ds && d.tablet == after[i].name && d.leader == after[i].nodeIds[0]
  }

  lemma ExplainedNone(ts: seq<TabletGroup>)
    ensures Explained(ts, ts, [])
  {
  }

  lemma ExplainedOneMore(before: seq<TabletGroup>, mid: seq<TabletGroup>, after: seq<TabletGroup>, ds: seq<Decision>,
                         d: Decision)
    requires Explained(before, mid, ds) && (after == mid || after == Promoted(mid, d.tablet, d.leader))
    ensures Explained(before, after, ds + [d])
  {
    hide SameConfiguration, Promoted;
    PromotedKeeps(mid, d.tablet, d.leader);
    SameLengths(before, mid);
    SameLengths(mid, Promoted(mid, d.tablet, d.leader));
    SameConfigurationTransitive(before, mid, Promoted(mid, d.tablet, d.leader));
    assert d in ds + [d];
    forall i | 0 <= i < |before| && after[i] != before[i]
      ensures after[i].nodeIds != []
      ensures exists c :: c in ds + [d] && c.tablet == after[i].name && c.leader == after[i].nodeIds[0]
    {
      if after[i] == mid[i] {
        var c :| c in ds && c.tablet == mid[i].name && c.leader == mid[i].nodeIds[0];
        assert c in ds + [d];
      }
    }
  }

  lemma SameLengths(a: seq<TabletGroup>, b: seq<TabletGroup>)
    requires SameConfiguration(a, b)
    ensures |a| == |b| && forall i :: 0 <= i < |a| ==> a[i].name == b[i].name
  {
  }

  /** An election listened to everything cached for one of the tablets of the failed node. */
  ghost predicate Elected(d: Decision, heard: seq<StorageNode>, nodes: map<Id, StorageNode>, ts: seq<TabletGroup>,
                          dead: Id) {
    Freshest(d, heard)
    && exists tg :: tg in ts && tg.name == d.tablet && dead in tg.nodeIds && KnownUpTo(nodes, tg, d.cached)
  }

  /** A recovery listened to everything cached for its live nodes; those that were dead do not count. */
  ghost predicate Recovered(d: Decision, heard: seq<StorageNode>, nodes: map<Id, StorageNode>, ts: seq<TabletGroup>,
                            live: Id) {
    Freshest(d, heard)
    && exists tg :: tg in ts && tg.name == d.tablet && live in tg.nodeIds && AliveKnownUpTo(nodes, tg, d.cached)
                    && (d.leader == live || d.leader == tg.nodeIds[0])
  }

  // ----- what was asked -----

  function Answers(replies: seq<Option<StorageNode>>): seq<StorageNode> {
    if replies == [] then []
    else Answers(replies[..|replies| - 1])
         + if replies[|replies| - 1].Some? then [replies[|replies| - 1].value] else []
  }

  lemma AnswersMore(replies: seq<Option<StorageNode>>, a: Option<StorageNode>)
    ensures Answers(replies + [a]) == Answers(replies) + if a.Some? then [a.value] else []
  {
    assert (replies + [a])[..|replies|] == replies;
  }

  ghost predicate ProbedIn(t: seq<Call>, id: Id) {
    exists a :: Probed(id, a) in t
  }

  /** The nodes have been probed one after the other. */
  function Probes(fs: seq<StorageNode>, replies: seq<Option<StorageNode>>): (t: seq<Call>)
    requires |fs| == |replies|
    ensures |t| == |fs|
  {
    seq(|fs|, i requires 0 <= i < |fs| => Probed(fs[i].id, replies[i]))
  }

  lemma ProbesReach(fs: seq<StorageNode>, replies: seq<Option<StorageNode>>)
    requires |fs| == |replies|
    ensures forall f :: f in fs ==> ProbedIn(Probes(fs, replies), f.id)
    ensures forall c :: c in Probes(fs, replies) ==> c.Probed?
  {
    forall f | f in fs
      ensures ProbedIn(Probes(fs, replies), f.id)
    {
      var i :| 0 <= i < |fs| && fs[i] == f;
      assert Probes(fs, replies)[i] == Probed(f.id, replies[i]);
    }
  }

  lemma {:induction false} AnswersProbed(fs: seq<StorageNode>, replies: seq<Option<StorageNode>>)
    requires |fs| == |replies|
    requires forall i :: 0 <= i < |fs| && replies[i].Some? ==> replies[i].value.id == fs[i].id
    ensures forall n :: n in Answers(replies) ==> Probed(n.id, Some(n)) in Probes(fs, replies)
  {
    if fs != [] {
      var k := |fs| - 1;
      AnswersProbed(fs[..k], replies[..k]);
      assert Probes(fs, replies) == Probes(fs[..k], replies[..k]) + [Probed(fs[k].id, replies[k])];
    }
  }

  /** The follower was told to follow the new primary, and once it had, the primary to replicate to it. */
  ghost predicate Follows(t: seq<Call>, leader: Id, tablet: string, f: Id) {
    || Demote(f, leader, tablet, false) in t
    || (Demote(f, leader, tablet, true) in t && exists b :: AddReplica(leader, f, tablet, b) in t)
  }

  lemma FollowsLater(t: seq<Call>, more: seq<Call>, leader: Id, tablet: string, f: Id)
    requires Follows(t, leader, tablet, f)
    ensures Follows(t + more, leader, tablet, f) && Follows(more + t, leader, tablet, f)
  {
    if b :| AddReplica(leader, f, tablet, b) in t {
      assert AddReplica(leader, f, tablet, b) in t + more && AddReplica(leader, f, tablet, b) in more + t;
    }
  }

  // ----- elections -----

  /** One election: its plan, the stretch of `heard` it listened to, its calls, what the candidates answered,
      those that did, the highest LSN considered and the outcome. */
  datatype Election = Election(
    plan: FailurePlan, from: nat, to: nat, calls: seq<Call>, replies: seq<Option<StorageNode>>,
    asked: seq<Candidate>, highest: nat, won: Option<Decision>)

  function Primaries(cs: seq<Candidate>): (ps: seq<StorageNode>)
    ensures |ps| == |cs|
  {
    seq(|cs|, i requires 0 <= i < |cs| => cs[i].primary)
  }

  /** Every candidate was probed, and behind each that answered its followers; those that answered are the
      ones that stand, with fresh LSNs and with the followers that answered. */
  ghost predicate Polled(plan: FailurePlan, t: seq<Call>, replies: seq<Option<StorageNode>>, asked: seq<Candidate>) {
    PolledSoFar(plan, |plan.candidates|, t, replies, asked)
  }

  /** The first n candidates have been polled. */
  ghost predicate PolledSoFar(plan: FailurePlan, n: nat, t: seq<Call>, replies: seq<Option<StorageNode>>,
                              asked: seq<Candidate>) {
    && n == |replies| <= |plan.candidates| && Primaries(asked) == Answers(replies)
    && (forall c :: c in asked ==> c.lsn == NodeTabletLsn(c.primary, plan.tablet))
    && (forall i :: 0 <= i < n ==> AskedIn(t, plan.candidates[i], replies[i]))
    && (forall c :: c in asked ==> HeardIn(t, c))
    && (forall c :: c in t ==> c.Probed?)
  }

  /** The candidate was probed, and if it answered so were its followers. */
  ghost predicate AskedIn(t: seq<Call>, c: Candidate, reply: Option<StorageNode>) {
    Probed(c.primary.id, reply) in t && (reply.Some? ==> forall f :: f in c.followers ==> ProbedIn(t, f.id))
  }

  /** The followers that a candidate stands with have answered. */
  predicate HeardIn(t: seq<Call>, c: Candidate) {
    forall f :: f in c.followers ==> Probed(f.id, Some(f)) in t
  }

  lemma AskedLater(t: seq<Call>, more: seq<Call>, c: Candidate, reply: Option<StorageNode>)
    ensures AskedIn(t, c, reply) ==> AskedIn(t + more, c, reply)
    ensures AskedIn(more, c, reply) ==> AskedIn(t + more, c, reply)
    ensures HeardIn(t, c) ==> HeardIn(t + more, c)
    ensures HeardIn(more, c) ==> HeardIn(t + more, c)
  {
    assert forall x :: x in t + more <==> x in t || x in more;
    forall f | f in c.followers
      ensures ProbedIn(t, f.id) || ProbedIn(more, f.id) ==> ProbedIn(t + more, f.id)
    {
      if a :| Probed(f.id, a) in t || Probed(f.id, a) in more {
        assert Probed(f.id, a) in t + more;
      }
    }
  }

  lemma PolledNone(plan: FailurePlan)
    ensures PolledSoFar(plan, 0, [], [], [])
  {
  }

  lemma PolledAll(plan: FailurePlan, t: seq<Call>, replies: seq<Option<StorageNode>>, asked: seq<Candidate>)
    requires PolledSoFar(plan, |plan.candidates|, t, replies, asked)
    ensures Polled(plan, t, replies, asked)
    ensures forall c :: c in asked ==> c.lsn == NodeTabletLsn(c.primary, plan.tablet)
  {
    hide ProbedIn, Answers;
  }

  /** One candidate's part of that. */
  ghost predicate CandidateProbed(c: Candidate, tablet: string, t: seq<Call>, reply: Option<StorageNode>,
                                  back: Option<Candidate>) {
    && AskedIn(t, c, reply) && (back.Some? <==> reply.Some?) && (back.Some? ==> HeardIn(t, back.value))
    && (reply.Some? ==> back.value.primary == reply.value && back.value.lsn == NodeTabletLsn(reply.value, tablet))
    && forall x :: x in t ==> x.Probed?
  }

  lemma NoAnswers()
    ensures Answers([]) == []
  {
  }

  lemma NotFresh(c: Candidate, tablet: string)
    ensures CandidateProbed(c, tablet, [Probed(c.primary.id, None)], None, None)
  {
    assert [Probed(c.primary.id, None)][0] == Probed(c.primary.id, None);
  }

  lemma FreshOne(c: Candidate, tablet: string, primary: StorageNode, replies: seq<Option<StorageNode>>)
    requires |replies| == |c.followers|
    requires forall i :: 0 <= i < |replies| && replies[i].Some? ==> replies[i].value.id == c.followers[i].id
    ensures CandidateProbed(c, tablet, [Probed(c.primary.id, Some(primary))] + Probes(c.followers, replies),
                            Some(primary), Some(Candidate(primary, Answers(replies), NodeTabletLsn(primary, tablet))))
  {
    hide Probes, Answers;
    ProbesReach(c.followers, replies);
    AnswersProbed(c.followers, replies);
    var t := Probes(c.followers, replies);
    var all := [Probed(c.primary.id, Some(primary))] + t;
    assert forall x :: x in all <==> x == Probed(c.primary.id, Some(primary)) || x in t;
    forall f | f in c.followers
      ensures ProbedIn(all, f.id)
    {
      var a :| Probed(f.id, a) in t;
      assert Probed(f.id, a) in all;
    }
  }

  lemma PolledMore(plan: FailurePlan, n: nat, t: seq<Call>, replies: seq<Option<StorageNode>>, asked: seq<Candidate>,
                   reply: Option<StorageNode>, more: seq<Call>, back: Option<Candidate>)
    requires n < |plan.candidates| && PolledSoFar(plan, n, t, replies, asked)
    requires CandidateProbed(plan.candidates[n], plan.tablet, more, reply, back)
    ensures PolledSoFar(plan, n + 1, t + more, replies + [reply], if back.Some? then asked + [back.value] else asked)
  {
    hide Answers, AskedIn, HeardIn;
    AnswersMore(replies, reply);
    assert forall x :: x in t + more <==> x in t || x in more;
    var now := if back.Some? then asked + [back.value] else asked;
    forall i | 0 <= i < n + 1
      ensures AskedIn(t + more, plan.candidates[i], (replies + [reply])[i])
    {
      AskedLater(t, more, plan.candidates[i], (replies + [reply])[i]);
    }
    forall c | c in now
      ensures HeardIn(t + more, c) && c.lsn == NodeTabletLsn(c.primary, plan.tablet)
    {
      AskedLater(t, more, c, None);
      assert c in asked || (back.Some? && c == back.value);
    }
  }

  /** Only candidates at the highest LSN are asked to lead, until one of them does. */
  ghost predicate Voted(t: seq<Call>, tablet: string, asked: seq<Candidate>, highest: nat, winner: Option<Candidate>) {
    && (forall c :: c in t ==>
          c.Promote? && c.tablet == tablet && exists a :: a in asked && a.primary.id == c.id && a.lsn >= highest)
    && (winner.Some? ==>
          winner.value in asked && winner.value.lsn >= highest && Promote(winner.value.primary.id, tablet, true) in t)
    && (winner.None? ==>
          && (forall c :: c in t ==> !c.granted)
          && (forall a :: a in asked && a.lsn >= highest ==> Promote(a.primary.id, tablet, false) in t))
  }

  /** The highest LSN considered. */
  ghost predicate Highest(heard: seq<StorageNode>, from: nat, tablet: string, cached: nat, highest: nat) {
    && cached <= highest && HeardUpTo(heard, from, tablet, highest)
    && (highest == cached || HeardLsn(heard, from, tablet, highest))
  }

  /** There is a winner exactly if a candidate that answered at the highest LSN was granted its promotion;
      without one each such candidate refused. The winner's followers are told. */
  ghost predicate Concluded(e: Election, heard: seq<StorageNode>) {
    var tablet := e.plan.tablet;
    && e.from <= e.to <= |heard| && Highest(heard[..e.to], e.from, tablet, e.plan.maxKnown, e.highest)
    && (exists t: seq<Call>, u: seq<Call>, v: seq<Call> :: e.calls == t + u + v && Polled(e.plan, t, e.replies, e.asked)
                          && (forall c :: c in v ==> c.Demote? || c.AddReplica?)
                          && forall c :: c in u ==> c.Promote?)
    && (forall c :: c in e.calls && c.Promote? ==>
          c.tablet == tablet && exists a :: a in e.asked && a.primary.id == c.id && a.lsn == e.highest)
    && (e.won.Some? <==>
          exists a :: a in e.asked && a.lsn == e.highest && Promote(a.primary.id, tablet, true) in e.calls)
    && (e.won.None? ==>
          forall a :: a in e.asked && a.lsn == e.highest ==> Promote(a.primary.id, tablet, false) in e.calls)
    && (e.won.Some? ==>
          var d := e.won.value;
          && Freshest(d, heard[..e.to]) && d.from == e.from && d.to == e.to
          && d.tablet == tablet && d.cached == e.plan.maxKnown && d.lsn == e.highest
          && Promote(d.leader, tablet, true) in e.calls
          && exists a :: a in e.asked && a.primary.id == d.leader && a.lsn == d.lsn
                         && forall f :: f in a.followers ==> Follows(e.calls, d.leader, tablet, f.id))
  }

  lemma ConcludedLater(e: Election, heard: seq<StorageNode>, later: seq<StorageNode>)
    requires Concluded(e, heard) && heard <= later
    ensures Concluded(e, later)
  {
    hide Polled, Follows, Freshest, Highest;
    assert later[..e.to] == heard[..e.to];
  }

  /** The pieces of an election make it up. */
  lemma ConcludedNow(e: Election, heard: seq<StorageNode>, t: seq<Call>, u: seq<Call>, v: seq<Call>,
                     winner: Option<Candidate>)
    requires e.from <= e.to == |heard| && Highest(heard, e.from, e.plan.tablet, e.plan.maxKnown, e.highest)
    requires e.calls == t + u + v && Polled(e.plan, t, e.replies, e.asked)
    requires Voted(u, e.plan.tablet, e.asked, e.highest, winner)
    requires forall a :: a in e.asked ==> a.lsn <= e.highest
    requires forall c :: c in v ==> c.Demote? || c.AddReplica?
    requires e.won.Some? <==> winner.Some?
    requires winner.Some? ==>
               var d := e.won.value;
               && Freshest(d, heard) && d.from == e.from && d.to == e.to && d.tablet == e.plan.tablet
               && d.cached == e.plan.maxKnown && d.lsn == winner.value.lsn && d.leader == winner.value.primary.id
               && forall f :: f in winner.value.followers ==> Follows(v, d.leader, e.plan.tablet, f.id)
    ensures Concluded(e, heard)
  {
    hide Freshest, Highest, Follows;
    assert heard[..e.to] == heard;
    OnlyProbed(e.plan, t, e.replies, e.asked);
    InThree(t, u, v);
    if winner.Some? {
      var w := winner.value;
      forall f | f in w.followers
        ensures Follows(e.calls, w.primary.id, e.plan.tablet, f.id)
      {
        FollowsLater(v, [], w.primary.id, e.plan.tablet, f.id);
        FollowsLater(v, t + u, w.primary.id, e.plan.tablet, f.id);
      }
      assert Promote(w.primary.id, e.plan.tablet, true) in e.calls;
    }
  }

  lemma ConcludedNames(e: Election, heard: seq<StorageNode>)
    requires Concluded(e, heard) && e.won.Some?
    ensures e.won.value.tablet == e.plan.tablet
  {
    hide Polled, Follows, Freshest, Highest;
  }

  lemma NoneAbove(heard: seq<StorageNode>, from: nat, tablet: string, cached: nat, highest: nat, asked: seq<Candidate>)
    requires from <= |heard| && Highest(heard, from, tablet, cached, highest)
    requires forall c :: c in asked ==> c.primary in heard[from..] && c.lsn == NodeTabletLsn(c.primary, tablet)
    ensures forall c :: c in asked ==> c.lsn <= highest
  {
    forall c | c in asked
      ensures c.lsn <= highest
    {
      FollowersUpTo(heard, from, from, c.primary, tablet, highest);
    }
  }

  lemma VotedAmong(t: seq<Call>, tablet: string, cs: seq<Candidate>, asked: seq<Candidate>, highest: nat,
                   winner: Option<Candidate>)
    requires Voted(t, tablet, cs, highest, winner) && forall c :: c in cs <==> c in asked
    ensures Voted(t, tablet, asked, highest, winner)
  {
  }

  lemma WinnerFreshest(heard: seq<StorageNode>, from: nat, w: Candidate, highest: nat, d: Decision)
    requires from <= |heard| && Highest(heard, from, d.tablet, d.cached, highest) && w.lsn >= highest
    requires w.primary in heard[from..] && w.lsn == NodeTabletLsn(w.primary, d.tablet)
    requires d.leader == w.primary.id && d.lsn == w.lsn && d.from == from && d.to == |heard|
    ensures Freshest(d, heard)
  {
    hide Freshest;
    TailHeard(heard, heard, from, from, w.primary, d.tablet);
    MostHeard(heard, from, d.leader, d.tablet, d.lsn, highest);
    FreshestWhen(d, heard);
  }

  lemma OnlyProbed(plan: FailurePlan, t: seq<Call>, replies: seq<Option<StorageNode>>, asked: seq<Candidate>)
    requires Polled(plan, t, replies, asked)
    ensures forall c :: c in t ==> c.Probed?
  {
  }

  lemma InThree<T>(t: seq<T>, u: seq<T>, v: seq<T>)
    ensures forall c :: c in t + u + v <==> c in t || c in u || c in v
  {
  }

  ghost function Winners(es: seq<Election>): seq<Decision> {
    if es == [] then [] else
      Winners(es[..|es| - 1]) + if es[|es| - 1].won.Some? then [es[|es| - 1].won.value] else []
  }

  lemma WinnersOneMore(es: seq<Election>, e: Election)
    ensures Winners(es + [e]) == if e.won.Some? then Winners(es) + [e.won.value] else Winners(es)
  {
    assert (es + [e])[..|es|] == es;
  }

  /** The calls of elections held one after the other. */
  ghost function CallsOf(es: seq<Election>): seq<Call> {
    if es == [] then [] else CallsOf(es[..|es| - 1]) + es[|es| - 1].calls
  }

  lemma CallsMore(es: seq<Election>, e: Election)
    ensures CallsOf(es + [e]) == CallsOf(es) + e.calls
  {
    assert (es + [e])[..|es|] == es;
  }

  /** A rebuild of the replica set of a live primary: the primary is probed; if it answers so are the
      followers, it is made primary anew, and if it agrees the followers that answered are told. */
  datatype Rebuilding = Rebuilding(
    plan: RebuildPlan, calls: seq<Call>, reply: Option<StorageNode>, replies: seq<Option<StorageNode>>)

  ghost predicate Rebuilt(b: Rebuilding) {
    var tablet, leader := b.plan.tablet, b.plan.primary.id;
    && b.calls != [] && b.calls[0] == Probed(leader, b.reply)
    && (b.reply.None? ==> |b.calls| == 1)
    && (b.reply.Some? ==>
          && |b.replies| == |b.plan.followers|
          && exists granted: bool, v: seq<Call> ::
               && b.calls == [Probed(leader, b.reply)] + Probes(b.plan.followers, b.replies)
                             + [Promote(leader, tablet, granted)] + v
               && (granted ==> forall f :: f in Answers(b.replies) ==> Follows(v, leader, tablet, f.id))
               && (!granted ==> v == []))
  }

  lemma RebuiltNot(b: Rebuilding)
    requires b.calls == [Probed(b.plan.primary.id, None)] && b.reply == None
    ensures Rebuilt(b)
  {
  }

  lemma RebuiltWhen(b: Rebuilding, granted: bool, v: seq<Call>)
    requires b.reply.Some? && |b.replies| == |b.plan.followers| && (!granted ==> v == [])
    requires b.calls == [Probed(b.plan.primary.id, b.reply)] + Probes(b.plan.followers, b.replies)
                        + [Promote(b.plan.primary.id, b.plan.tablet, granted)] + v
    requires granted ==> forall f :: f in Answers(b.replies) ==> Follows(v, b.plan.primary.id, b.plan.tablet, f.id)
    ensures Rebuilt(b)
  {
    hide Follows, Answers;
  }

  ghost function RebuildCalls(bs: seq<Rebuilding>): seq<Call> {
    if bs == [] then [] else RebuildCalls(bs[..|bs| - 1]) + bs[|bs| - 1].calls
  }

  lemma RebuildCallsMore(bs: seq<Rebuilding>, b: Rebuilding)
    ensures RebuildCalls(bs + [b]) == RebuildCalls(bs) + b.calls
  {
    assert (bs + [b])[..|bs|] == bs;
  }

  /** The tablet keeps its live primary and lost another node. */
  ghost predicate Bereft(nodes: map<Id, StorageNode>, tg: TabletGroup, dead: Id) {
    dead in tg.nodeIds && tg.nodeIds[0] != dead && tg.nodeIds[0] in nodes && nodes[tg.nodeIds[0]].alive
  }

  ghost predicate RebuildFor(r: RebuildPlan, nodes: map<Id, StorageNode>, tg: TabletGroup, dead: Id) {
    && Bereft(nodes, tg, dead) && r.tablet == tg.name && r.primary == nodes[tg.nodeIds[0]]
    && r.primary.id == tg.nodeIds[0] && LiveOthers(r.followers, nodes, tg, dead, tg.nodeIds[0])
  }

  // ----- recoveries -----

  /** One recovery: its plan, the stretch of `heard` it listened to, its calls, what the node answered, the
      current primary if it answered, the highest LSN considered and the outcome. */
  datatype Recovery = Recovery(
    plan: RecoveryPlan, from: nat, to: nat, calls: seq<Call>, reply: Option<StorageNode>,
    primary: Option<StorageNode>, highest: nat, done: Option<Decision>)

  /** The node, then its peers and the current primary have been probed. */
  ghost predicate Listened(plan: RecoveryPlan, live: Id, t: seq<Call>, reply: Option<StorageNode>,
                           primary: Option<StorageNode>) {
    && t != [] && t[0] == Probed(live, reply) && (forall c :: c in t ==> c.Probed?)
    && (reply.None? ==> |t| == 1)
    && (reply.Some? ==>
          && (forall f :: f in plan.followers ==> ProbedIn(t, f.id))
          && (plan.primary.Some? ==> ProbedIn(t, plan.oldPrimary))
          && (primary.Some? ==> primary.value.id == plan.oldPrimary && Probed(plan.oldPrimary, primary) in t)
          && (primary.None? && plan.primary.Some? ==> Probed(plan.oldPrimary, None) in t))
  }

  /** The node and the current primary are both behind, or the primary is and there is none. */
  predicate Waits(tablet: string, reply: StorageNode, primary: Option<StorageNode>, highest: nat) {
    && NodeTabletLsn(reply, tablet) < highest
    && (primary.None? || NodeTabletLsn(primary.value, tablet) < highest)
  }

  /** Another node is primary, answers, and is not behind the one that came back. */
  predicate Stays(live: Id, oldPrimary: Id, tablet: string, reply: StorageNode, primary: Option<StorageNode>) {
    primary.Some? && oldPrimary != live && NodeTabletLsn(reply, tablet) <= NodeTabletLsn(primary.value, tablet)
  }

  /** What the answers lead to: nothing, the node follows the primary, or the node is asked to lead. */
  ghost predicate Acted(plan: RecoveryPlan, live: Id, v: seq<Call>, reply: Option<StorageNode>,
                        primary: Option<StorageNode>, highest: nat, leader: Option<Id>) {
    if reply.None? || Waits(plan.tablet, reply.value, primary, highest) then v == [] && leader == None
    else if Stays(live, plan.oldPrimary, plan.tablet, reply.value, primary) then
      Follows(v, plan.oldPrimary, plan.tablet, live) && leader == Some(plan.oldPrimary)
      && forall c :: c in v ==> !c.Promote?
    else
      && v != [] && v[0].Promote? && v[0].id == live && v[0].tablet == plan.tablet
      && leader == (if v[0].granted then Some(live) else None)
      && forall c :: c in v[1..] ==> !c.Promote?
  }

  /** The recovery ends as its answers say; whoever leads is the freshest. */
  ghost predicate Considered(r: Recovery, heard: seq<StorageNode>, live: Id) {
    && r.from <= r.to <= |heard|
    && (r.reply.Some? ==> Highest(heard[..r.to], r.from, r.plan.tablet, r.plan.maxKnown, r.highest))
    && (exists t: seq<Call>, v: seq<Call> :: r.calls == t + v && Listened(r.plan, live, t, r.reply, r.primary)
                       && Acted(r.plan, live, v, r.reply, r.primary, r.highest,
                                if r.done.Some? then Some(r.done.value.leader) else None))
    && (r.done.Some? ==>
          var d := r.done.value;
          && Freshest(d, heard[..r.to]) && d.from == r.from && d.to == r.to && d.tablet == r.plan.tablet
          && d.cached == r.plan.maxKnown && (d.leader == live || d.leader == r.plan.oldPrimary))
  }

  lemma ConsideredLater(r: Recovery, heard: seq<StorageNode>, later: seq<StorageNode>, live: Id)
    requires Considered(r, heard, live) && heard <= later
    ensures Considered(r, later, live)
  {
    hide Freshest, Highest, Listened, Acted;
    assert later[..r.to] == heard[..r.to];
  }

  lemma ConsideredNow(r: Recovery, heard: seq<StorageNode>, live: Id, t: seq<Call>, v: seq<Call>)
    requires r.from <= r.to == |heard| && r.calls == t + v && Listened(r.plan, live, t, r.reply, r.primary)
    requires r.reply.Some? ==> Highest(heard, r.from, r.plan.tablet, r.plan.maxKnown, r.highest)
    requires Acted(r.plan, live, v, r.reply, r.primary, r.highest,
                   if r.done.Some? then Some(r.done.value.leader) else None)
    requires r.done.Some? ==>
               && Freshest(r.done.value, heard) && r.done.value.from == r.from && r.done.value.to == r.to
               && r.done.value.tablet == r.plan.tablet && r.done.value.cached == r.plan.maxKnown
               && (r.done.value.leader == live || r.done.value.leader == r.plan.oldPrimary)
    ensures Considered(r, heard, live)
  {
    hide Freshest, Highest, Listened, Acted;
    assert heard[..r.to] == heard;
  }

  lemma ConsideredNames(r: Recovery, heard: seq<StorageNode>, live: Id)
    requires Considered(r, heard, live) && r.done.Some?
    ensures r.reply.Some? && r.done.value.tablet == r.plan.tablet
    ensures r.done.value.leader
            == if Stays(live, r.plan.oldPrimary, r.plan.tablet, r.reply.value, r.primary) then r.plan.oldPrimary
               else live
  {
    hide Freshest, Highest, Listened, Follows;
  }

  lemma NotListened(plan: RecoveryPlan, live: Id)
    ensures Listened(plan, live, [Probed(live, None)], None, None)
  {
  }

  lemma ListenedTo(plan: RecoveryPlan, live: Id, l: StorageNode, replies: seq<Option<StorageNode>>,
                   followers: seq<StorageNode>, primary: Option<StorageNode>, more: seq<Call>)
    requires |replies| == |plan.followers| && followers == Answers(replies)
    requires forall i :: 0 <= i < |replies| && replies[i].Some? ==> replies[i].value.id == plan.followers[i].id
    requires plan.primary.Some? ==> plan.primary.value.id == plan.oldPrimary
    requires primary.Some? ==> primary.value.id == plan.oldPrimary
    requires more == [] || more == [Probed(plan.oldPrimary, primary)]
    requires primary.Some? && primary.value !in followers ==> more != []
    requires primary.None? && plan.primary.Some? ==> more != []
    ensures Listened(plan, live, [Probed(live, Some(l))] + Probes(plan.followers, replies) + more, Some(l), primary)
  {
    hide Probes, Answers;
    ProbesReach(plan.followers, replies);
    AnswersProbed(plan.followers, replies);
    var fs := Probes(plan.followers, replies);
    var t := [Probed(live, Some(l))] + fs + more;
    InThree([Probed(live, Some(l))], fs, more);
    forall f | f in plan.followers
      ensures ProbedIn(t, f.id)
    {
      var a :| Probed(f.id, a) in fs;
      assert Probed(f.id, a) in t;
    }
    if more != [] {
      assert more[0] in more;
    } else if primary.Some? {
      assert Probed(primary.value.id, Some(primary.value)) in fs;
      assert Probed(plan.oldPrimary, primary) in t;
    }
    assert t[0] == Probed(live, Some(l));
  }

  lemma Idle(plan: RecoveryPlan, live: Id, reply: Option<StorageNode>, primary: Option<StorageNode>, highest: nat)
    requires reply.None? || Waits(plan.tablet, reply.value, primary, highest)
    ensures Acted(plan, live, [], reply, primary, highest, None)
  {
  }

  lemma StaysSecond(plan: RecoveryPlan, live: Id, v: seq<Call>, reply: StorageNode, primary: Option<StorageNode>,
                    highest: nat)
    requires !Waits(plan.tablet, reply, primary, highest) && Stays(live, plan.oldPrimary, plan.tablet, reply, primary)
    requires Follows(v, plan.oldPrimary, plan.tablet, live) && forall c :: c in v ==> c.Demote? || c.AddReplica?
    ensures Acted(plan, live, v, Some(reply), primary, highest, Some(plan.oldPrimary))
  {
    hide Follows;
  }

  lemma AskedToLead(plan: RecoveryPlan, live: Id, v: seq<Call>, more: seq<Call>, reply: StorageNode,
                    primary: Option<StorageNode>, highest: nat, granted: bool)
    requires !Waits(plan.tablet, reply, primary, highest) && !Stays(live, plan.oldPrimary, plan.tablet, reply, primary)
    requires v == [Promote(live, plan.tablet, granted)] + more && forall c :: c in more ==> c.Demote? || c.AddReplica?
    ensures Acted(plan, live, v, Some(reply), primary, highest, if granted then Some(live) else None)
  {
    assert v[1..] == more;
  }

  lemma ListenedName(plan: RecoveryPlan, live: Id, t: seq<Call>, reply: Option<StorageNode>,
                     primary: Option<StorageNode>)
    requires Listened(plan, live, t, reply, primary) && reply.Some?
    ensures primary.Some? ==> primary.value.id == plan.oldPrimary
  {
    hide ProbedIn;
  }

  lemma ActedLeader(plan: RecoveryPlan, live: Id, v: seq<Call>, reply: StorageNode, primary: Option<StorageNode>,
                    highest: nat, leader: Option<Id>)
    requires Acted(plan, live, v, Some(reply), primary, highest, leader) && leader.Some?
    ensures leader.value
            == if Stays(live, plan.oldPrimary, plan.tablet, reply, primary) then plan.oldPrimary else live
    ensures !Waits(plan.tablet, reply, primary, highest)
  {
    hide Follows;
  }

  /** Whoever is left leading was heard at the highest LSN considered. */
  lemma ActedFreshest(plan: RecoveryPlan, live: Id, v: seq<Call>, reply: StorageNode, primary: Option<StorageNode>,
                      heard: seq<StorageNode>, from: nat, highest: nat, leader: Id)
    returns (d: Decision)
    requires Acted(plan, live, v, Some(reply), primary, highest, Some(leader)) && from <= |heard|
    requires Highest(heard, from, plan.tablet, plan.maxKnown, highest)
    requires HeardAt(heard, from, live, plan.tablet, NodeTabletLsn(reply, plan.tablet))
    requires NodeTabletLsn(reply, plan.tablet) <= highest
    requires primary.Some? ==>
               && HeardAt(heard, from, plan.oldPrimary, plan.tablet, NodeTabletLsn(primary.value, plan.tablet))
               && NodeTabletLsn(primary.value, plan.tablet) <= highest
    ensures Freshest(d, heard) && d.from == from && d.to == |heard| && d.tablet == plan.tablet
            && d.cached == plan.maxKnown && d.leader == leader && (leader == live || leader == plan.oldPrimary)
  {
    hide Acted, Freshest, HeardAt, Highest;
    ActedLeader(plan, live, v, reply, primary, highest, Some(leader));
    d := Decision(plan.tablet, leader, highest, plan.maxKnown, from, |heard|);
    LeaderFreshest(heard, d, highest);
  }

  lemma LeaderFreshest(heard: seq<StorageNode>, d: Decision, highest: nat)
    requires d.from <= d.to == |heard| && Highest(heard, d.from, d.tablet, d.cached, highest)
    requires HeardAt(heard, d.from, d.leader, d.tablet, d.lsn) && d.lsn >= highest
    ensures Freshest(d, heard)
  {
    hide Freshest, HeardAt, HeardUpTo;
    MostHeard(heard, d.from, d.leader, d.tablet, d.lsn, highest);
    FreshestWhen(d, heard);
  }

  ghost function Outcomes(rs: seq<Recovery>): seq<Decision> {
    if rs == [] then [] else
      Outcomes(rs[..|rs| - 1]) + if rs[|rs| - 1].done.Some? then [rs[|rs| - 1].done.value] else []
  }

  lemma OutcomesOneMore(rs: seq<Recovery>, r: Recovery)
    ensures Outcomes(rs + [r]) == if r.done.Some? then Outcomes(rs) + [r.done.value] else Outcomes(rs)
  {
    assert (rs + [r])[..|rs|] == rs;
  }

  ghost function RecoveryCalls(rs: seq<Recovery>): seq<Call> {
    if rs == [] then [] else RecoveryCalls(rs[..|rs| - 1]) + rs[|rs| - 1].calls
  }

  lemma RecoveryCallsMore(rs: seq<Recovery>, r: Recovery)
    ensures RecoveryCalls(rs + [r]) == RecoveryCalls(rs) + r.calls
  {
    assert (rs + [r])[..|rs|] == rs;
  }

  lemma NoneYet()
    ensures Winners([]) == [] && CallsOf([]) == [] && Outcomes([]) == [] && RecoveryCalls([]) == []
    ensures RebuildCalls([]) == []
  {
  }

  lemma AllLater(es: seq<Election>, heard: seq<StorageNode>, later: seq<StorageNode>)
    requires heard <= later && forall j :: 0 <= j < |es| ==> Concluded(es[j], heard)
    ensures forall j :: 0 <= j < |es| ==> Concluded(es[j], later)
  {
    hide Concluded;
    forall j | 0 <= j < |es|
      ensures Concluded(es[j], later)
    {
      ConcludedLater(es[j], heard, later);
    }
  }

  lemma AllConsideredLater(rs: seq<Recovery>, heard: seq<StorageNode>, later: seq<StorageNode>, live: Id)
    requires heard <= later && forall j :: 0 <= j < |rs| ==> Considered(rs[j], heard, live)
    ensures forall j :: 0 <= j < |rs| ==> Considered(rs[j], later, live)
  {
    hide Considered;
    forall j | 0 <= j < |rs|
      ensures Considered(rs[j], later, live)
    {
      ConsideredLater(rs[j], heard, later, live);
    }
  }

  lemma AllHeld(es: seq<Election>, plans: seq<FailurePlan>)
    requires |es| == |plans| && forall j :: 0 <= j < |es| ==> es[j].plan == plans[j]
    ensures forall p | p in plans :: exists e :: e in es && e.plan == p
  {
    forall p | p in plans
      ensures exists e :: e in es && e.plan == p
    {
      var j :| 0 <= j < |plans| && plans[j] == p;
      assert es[j] in es;
    }
  }

  lemma AllRebuilt(bs: seq<Rebuilding>, rs: seq<RebuildPlan>)
    requires |bs| == |rs| && forall j :: 0 <= j < |bs| ==> bs[j].plan == rs[j]
    ensures forall r | r in rs :: exists b :: b in bs && b.plan == r
  {
    forall r | r in rs
      ensures exists b :: b in bs && b.plan == r
    {
      var j :| 0 <= j < |rs| && rs[j] == r;
      assert bs[j] in bs;
    }
  }

  lemma AllConsidered(rs: seq<Recovery>, plans: seq<RecoveryPlan>)
    requires |rs| == |plans| && forall j :: 0 <= j < |rs| ==> rs[j].plan == plans[j]
    ensures forall p | p in plans :: exists r :: r in rs && r.plan == p
  {
    forall p | p in plans
      ensures exists r :: r in rs && r.plan == p
    {
      var j :| 0 <= j < |plans| && plans[j] == p;
      assert rs[j] in rs;
    }
  }

  lemma WinnerElected(e: Election, heard: seq<StorageNode>, nodes: map<Id, StorageNode>, ts: seq<TabletGroup>, dead: Id)
    requires Concluded(e, heard) && exists tg :: tg in ts && PlannedFor(e.plan, nodes, tg, dead)
    ensures e.won.Some? ==> Elected(e.won.value, heard, nodes, ts, dead)
  {
    hide Freshest, KnownUpTo, Polled, Follows, Highest;
    if e.won.Some? {
      FreshestLater(e.won.value, heard[..e.to], heard);
    }
  }

  lemma RecoveryReady(p: RecoveryPlan, nodes: map<Id, StorageNode>, ts: seq<TabletGroup>, live: Id)
    requires exists tg :: tg in ts && RecoveryFor(p, nodes, tg, live)
    ensures p.live.id == live && (p.primary.Some? ==> p.primary.value.id == p.oldPrimary)
  {
  }

  lemma OutcomeRecovered(r: Recovery, heard: seq<StorageNode>, nodes: map<Id, StorageNode>, ts: seq<TabletGroup>,
                         live: Id)
    requires Considered(r, heard, live) && exists tg :: tg in ts && RecoveryFor(r.plan, nodes, tg, live)
    ensures r.done.Some? ==> Recovered(r.done.value, heard, nodes, ts, live)
  {
    hide Freshest, AliveKnownUpTo, Highest, Listened, Acted;
    if r.done.Some? {
      FreshestLater(r.done.value, heard[..r.to], heard);
    }
  }

  datatype LookupReply = Redirect(host: string, port: int) | NoTablet | PrimaryUnavailable | PrimaryStale

  /** An answered probe since `from` showed the node at this LSN. */
  ghost predicate HeardAt(heard: seq<StorageNode>, from: nat, id: Id, tablet: string, lsn: nat) {
    exists i :: from <= i < |heard| && heard[i].id == id && NodeTabletLsn(heard[i], tablet) == lsn
  }

  ghost predicate HeardLsn(heard: seq<StorageNode>, from: nat, tablet: string, lsn: nat) {
    exists i :: from <= i < |heard| && NodeTabletLsn(heard[i], tablet) == lsn
  }

  lemma HeardNext(heard: seq<StorageNode>, from: nat, n: StorageNode, tablet: string, floor: nat, max: nat)
    requires from <= |heard| && (max == floor || HeardLsn(heard, from, tablet, max))
    ensures var m := Max(max, NodeTabletLsn(n, tablet));
            m == floor || HeardLsn(heard + [n], from, tablet, m)
  {
    var later := heard + [n];
    assert later[|heard|] == n;
    if max != floor {
      var i :| from <= i < |heard| && NodeTabletLsn(heard[i], tablet) == max;
      assert later[i] == heard[i];
    }
  }

  lemma HeardWider(heard: seq<StorageNode>, from: nat, later: seq<StorageNode>, at: nat, tablet: string, lsn: nat)
    requires HeardLsn(heard, at, tablet, lsn) && from <= at && heard <= later
    ensures HeardLsn(later, from, tablet, lsn)
  {
    var i :| at <= i < |heard| && NodeTabletLsn(heard[i], tablet) == lsn;
    assert later[i] == heard[i];
  }

  lemma TailHeard(mid: seq<StorageNode>, heard: seq<StorageNode>, from: nat, at: nat, n: StorageNode, tablet: string)
    requires from <= at <= |mid| && mid <= heard && n in mid[at..]
    ensures HeardAt(heard, from, n.id, tablet, NodeTabletLsn(n, tablet))
  {
    var k :| 0 <= k < |mid[at..]| && mid[at..][k] == n;
    assert heard[at + k] == n;
  }

  ghost predicate HeardUpTo(heard: seq<StorageNode>, from: nat, tablet: string, lsn: nat) {
    forall i :: from <= i < |heard| ==> NodeTabletLsn(heard[i], tablet) <= lsn
  }

  /** A first answer joins the bounds of those that follow it. */
  lemma FirstAlso(before: seq<StorageNode>, l: StorageNode, mid: seq<StorageNode>, tablet: string, cached: nat,
                  max: nat)
    requires before + [l] <= mid && HeardUpTo(mid, |before| + 1, tablet, max)
             && Max(cached, NodeTabletLsn(l, tablet)) <= max
    requires max == Max(cached, NodeTabletLsn(l, tablet)) || HeardLsn(mid, |before| + 1, tablet, max)
    ensures HeardUpTo(mid, |before|, tablet, max) && (max == cached || HeardLsn(mid, |before|, tablet, max))
  {
    assert mid[|before|] == (before + [l])[|before|] == l;
    if max != Max(cached, NodeTabletLsn(l, tablet)) {
      HeardWider(mid, |before|, mid, |before| + 1, tablet, max);
    }
  }

  /** A last answer does too. */
  lemma LastAlso(mid: seq<StorageNode>, from: nat, n: StorageNode, tablet: string, cached: nat, max: nat)
    requires from <= |mid| && HeardUpTo(mid, from, tablet, max) && (max == cached || HeardLsn(mid, from, tablet, max))
    ensures var m := Max(max, NodeTabletLsn(n, tablet));
            HeardUpTo(mid + [n], from, tablet, m) && (m == cached || HeardLsn(mid + [n], from, tablet, m))
  {
    HeardNext(mid, from, n, tablet, cached, max);
  }

  /** A primary that is one of the followers heard, or was heard last. */
  lemma PrimaryHeard(mid: seq<StorageNode>, heard: seq<StorageNode>, from: nat, p: StorageNode, tablet: string,
                     cached: nat, max: nat)
    requires from < |mid| && HeardUpTo(mid, from, tablet, max) && (max == cached || HeardLsn(mid, from, tablet, max))
    requires heard == mid || heard == mid + [p]
    requires p in mid[from + 1..] || p in heard[|mid|..]
    ensures HeardAt(heard, from, p.id, tablet, NodeTabletLsn(p, tablet))
    ensures var m := Max(max, NodeTabletLsn(p, tablet));
            HeardUpTo(heard, from, tablet, m) && (m == cached || HeardLsn(heard, from, tablet, m))
  {
    hide HeardUpTo, HeardLsn, HeardAt;
    if p in mid[from + 1..] {
      TailHeard(mid, heard, from, from + 1, p, tablet);
      FollowersUpTo(mid, from, from + 1, p, tablet, max);
    } else {
      TailHeard(heard, heard, from, |mid|, p, tablet);
    }
    if heard != mid {
      LastAlso(mid, from, p, tablet, cached, max);
    }
  }

  lemma UpToNothing(heard: seq<StorageNode>, tablet: string, max: nat)
    ensures HeardUpTo(heard, |heard|, tablet, max)
  {
  }

  lemma UpToJoins(mid: seq<StorageNode>, heard: seq<StorageNode>, from: nat, tablet: string, cached: nat, sofar: nat,
                  max: nat)
    requires from <= |mid| && mid <= heard && sofar <= max
    requires HeardUpTo(mid, from, tablet, sofar) && HeardUpTo(heard, |mid|, tablet, max)
    requires sofar == cached || HeardLsn(mid, from, tablet, sofar)
    requires max == sofar || HeardLsn(heard, |mid|, tablet, max)
    ensures HeardUpTo(heard, from, tablet, max) && (max == cached || HeardLsn(heard, from, tablet, max))
  {
    assert forall i :: 0 <= i < |mid| ==> heard[i] == mid[i];
    if max != sofar {
      HeardWider(heard, from, heard, |mid|, tablet, max);
    } else if sofar != cached {
      HeardWider(mid, from, heard, from, tablet, sofar);
    }
  }

  lemma FollowersUpTo(mid: seq<StorageNode>, from: nat, at: nat, n: StorageNode, tablet: string, max: nat)
    requires from <= at <= |mid| && n in mid[at..] && HeardUpTo(mid, from, tablet, max)
    ensures NodeTabletLsn(n, tablet) <= max
  {
    var k :| 0 <= k < |mid[at..]| && mid[at..][k] == n;
    assert mid[at + k] == n;
  }

  /** An LSN heard and not below the highest considered is the highest. */
  lemma MostHeard(heard: seq<StorageNode>, from: nat, id: Id, tablet: string, lsn: nat, max: nat)
    requires HeardUpTo(heard, from, tablet, max) && HeardAt(heard, from, id, tablet, lsn) && lsn >= max
    ensures HeardUpTo(heard, from, tablet, lsn)
  {
  }

  lemma FreshestWhen(d: Decision, heard: seq<StorageNode>)
    requires d.from <= d.to == |heard| && d.cached <= d.lsn && HeardUpTo(heard, d.from, d.tablet, d.lsn)
    requires HeardAt(heard, d.from, d.leader, d.tablet, d.lsn)
    ensures Freshest(d, heard)
  {
  }

  lemma RecoveryIs(p: RecoveryPlan, nodes: map<Id, StorageNode>, tg: TabletGroup, live: Id)
    requires p.tablet == tg.name && live in tg.nodeIds && live in nodes && p.live == nodes[live]
    requires p.live.id == live && p.oldPrimary == tg.nodeIds[0]
    requires LeastAlive(nodes, tg, live, p.maxKnown) && LiveOthers(p.followers, nodes, tg, live, live)
    requires p.primary == if p.oldPrimary in nodes && nodes[p.oldPrimary].alive then Some(nodes[p.oldPrimary]) else None
    requires p.primary.Some? ==> p.primary.value.id == p.oldPrimary
    ensures RecoveryFor(p, nodes, tg, live)
  {
  }

  lemma LeaderlessOrNot(nodes: map<Id, StorageNode>, tg: TabletGroup, dead: Id)
    requires dead in tg.nodeIds
    ensures tg.nodeIds[0] != dead && tg.nodeIds[0] in nodes && nodes[tg.nodeIds[0]].alive
            <==> Bereft(nodes, tg, dead)
    ensures Bereft(nodes, tg, dead) ==> !Leaderless(nodes, tg, dead)
  {
  }

  lemma NotServed(nodes: map<Id, StorageNode>, tg: TabletGroup, dead: Id)
    requires dead !in tg.nodeIds
    ensures !Bereft(nodes, tg, dead) && !Leaderless(nodes, tg, dead)
  {
  }

  lemma NoneStands(nodes: map<Id, StorageNode>, tg: TabletGroup, dead: Id, cs: seq<Candidate>)
    requires forall id :: id in tg.nodeIds && id != dead && id in nodes && nodes[id].alive ==>
               exists c :: c in cs && c.primary.id == id
    ensures cs == [] ==> !Leaderless(nodes, tg, dead)
  {
  }

  lemma RebuildIs(r: RebuildPlan, nodes: map<Id, StorageNode>, tg: TabletGroup, dead: Id)
    requires Bereft(nodes, tg, dead) && r.tablet == tg.name && r.primary == nodes[tg.nodeIds[0]]
    requires r.primary.id == tg.nodeIds[0] && LiveOthers(r.followers, nodes, tg, dead, tg.nodeIds[0])
    ensures RebuildFor(r, nodes, tg, dead)
  {
  }

  lemma PlanIs(p: FailurePlan, nodes: map<Id, StorageNode>, tg: TabletGroup, dead: Id)
    requires p.tablet == tg.name && dead in tg.nodeIds && Least(nodes, tg, p.maxKnown)
    requires tg.nodeIds[0] == dead || !(tg.nodeIds[0] in nodes && nodes[tg.nodeIds[0]].alive)
    requires p.candidates != [] && (forall c | c in p.candidates :: Eligible(c, nodes, tg, dead))
    requires forall id :: id in tg.nodeIds && id != dead && id in nodes && nodes[id].alive ==>
               exists c :: c in p.candidates && c.primary.id == id
    ensures PlannedFor(p, nodes, tg, dead)
  {
  }

  class Coordinator {
    var nodes: map<Id, StorageNode>
    var tablets: seq<TabletGroup>
    const threshold: int
    ghost var heard: seq<StorageNode>
    ghost var calls: seq<Call>
    ghost const config: seq<TabletGroup>

    ghost predicate Valid()
      reads this
    {
      (forall id | id in nodes :: nodes[id].id == id) && SameConfiguration(config, tablets)
    }

    constructor (nodes: map<Id, StorageNode>, tablets: seq<TabletGroup>, threshold: int)
      requires forall id | id in nodes :: nodes[id].id == id
      ensures Valid() && this.nodes == nodes && this.tablets == tablets && config == tablets
      ensures heard == [] && calls == []
    {
      this.nodes, this.tablets, this.threshold, this.heard, this.calls, this.config :=
        nodes, tablets, threshold, [], [], tablets;
    }

    // ----- probing -----

    /** `refresh_node_lsn_now` followed, on success, by `cache_refreshed_node`. */
    method Probe(node: StorageNode) returns (ok: bool, n: StorageNode)
      requires Valid()
      modifies this`nodes, this`heard, this`calls
      ensures Valid() && nodes.Keys == old(nodes).Keys && n.id == node.id
      ensures calls == old(calls) + [Probed(node.id, if ok then Some(n) else None)]
      ensures ok ==> n.alive && n.host == node.host && n.port == node.port && heard == old(heard) + [n]
                     && nodes == (if n.id in old(nodes)
                                  then old(nodes)[n.id := Cached(old(nodes)[n.id], n)] else old(nodes))
      ensures !ok ==> n == node && heard == old(heard) && nodes == old(nodes)
    {
      hide SameConfiguration;
      var reply: Option<Pong> := *;
      ok, n := reply.Some?, Refreshed(node, reply);
      calls := calls + [Probed(node.id, if ok then Some(n) else None)];
      if ok {
        heard := heard + [n];
        if n.id in nodes {
          nodes := nodes[n.id := Cached(nodes[n.id], n)];
        }
      }
    }

    method PingNode(node: StorageNode)
      returns (after: StorageNode, failed: bool, restarted: bool, ghost reply: Option<Pong>)
      ensures after == Pinged(node, reply, threshold) && after.id == node.id
      ensures failed == DeclaredDown(node, reply, threshold) && restarted == Restarted(node, reply)
    {
      var r: Option<Pong> := *;
      reply := r;
      after, failed, restarted := Pinged(node, r, threshold), DeclaredDown(node, r, threshold), Restarted(node, r);
    }

    method MarkAlive(id: Id)
      requires Valid()
      modifies this`nodes
      ensures Valid() && nodes.Keys == old(nodes).Keys
      ensures nodes == if id in old(nodes) then old(nodes)[id := old(nodes)[id].(alive := true)] else old(nodes)
    {
      hide SameConfiguration;
      if id in nodes {
        nodes := nodes[id := nodes[id].(alive := true)];
      }
    }

    /** One round of `heartbeat_loop`: every node is pinged once. */
    method Heartbeat() returns (newlyDead: seq<Id>, newlyLive: seq<Id>, ghost replies: map<Id, Option<Pong>>)
      requires Valid()
      modifies this`nodes
      ensures Valid() && Beaten(nodes.Keys, old(nodes), nodes, replies, newlyDead, newlyLive, threshold)
    {
      hide Pinged, DeclaredDown, Restarted, SameConfiguration, Beaten;
      newlyDead, newlyLive, replies := [], [], map[];
      var snapshot := nodes;
      var left := snapshot.Keys;
      BeatenNone(nodes, threshold);
      assert snapshot.Keys - left == {};
      while left != {}
        invariant left <= snapshot.Keys
        invariant Beaten(snapshot.Keys - left, snapshot, nodes, replies, newlyDead, newlyLive, threshold)
        decreases |left|
      {
        var id :| id in left;
        var node := snapshot[id];
        var after, failed, restarted, reply := PingNode(node);
        BeatenOneMore(snapshot.Keys - left, snapshot, nodes, replies, newlyDead, newlyLive, threshold, id, reply);
        assert snapshot.Keys - left + {id} == snapshot.Keys - (left - {id});
        left := left - {id};
        nodes := nodes[id := after];
        replies := replies[id := reply];
        var recovered := node.wasDown && after.alive && !after.wasDown;
        newlyDead := if failed then newlyDead + [id] else newlyDead;
        newlyLive := if recovered || restarted then newlyLive + [id] else newlyLive;
      }
      assert snapshot.Keys - left == snapshot.Keys;
      BeatenAll(snapshot, nodes, replies, newlyDead, newlyLive, threshold);
    }

    /** The least LSN that none of the tablet's cached LSNs exceeds. */
    method TabletMaxKnownLsn(tg: TabletGroup) returns (m: nat)
      ensures Least(nodes, tg, m)
    {
      m := 0;
      for i := 0 to |tg.nodeIds|
        invariant forall j :: 0 <= j < i && tg.nodeIds[j] in nodes ==> NodeTabletLsn(nodes[tg.nodeIds[j]], tg.name) <= m
        invariant m == 0 || exists id :: id in tg.nodeIds && id in nodes && NodeTabletLsn(nodes[id], tg.name) == m
      {
        var id := tg.nodeIds[i];
        if id in nodes {
          m := Max(m, NodeTabletLsn(nodes[id], tg.name));
        }
      }
    }

    // ----- RPCs -----

    method PromoteNode(id: Id, tablet: string) returns (ok: bool)
      modifies this`calls
      ensures calls == old(calls) + [Promote(id, tablet, ok)]
    {
      ok := *;
      calls := calls + [Promote(id, tablet, ok)];
    }

    method DemoteAndSync(id: Id, primary: Id, tablet: string) returns (ok: bool)
      modifies this`calls
      ensures calls == old(calls) + [Demote(id, primary, tablet, ok)]
    {
      ok := *;
      calls := calls + [Demote(id, primary, tablet, ok)];
    }

    method AddReplicaTo(primary: Id, id: Id, tablet: string) returns (ok: bool)
      modifies this`calls
      ensures calls == old(calls) + [AddReplica(primary, id, tablet, ok)]
    {
      ok := *;
      calls := calls + [AddReplica(primary, id, tablet, ok)];
    }

    /** One follower of a primary, told first and added if it came along. */
    method Enlist(id: Id, leader: Id, tablet: string) returns (ghost t: seq<Call>)
      modifies this`calls
      ensures calls == old(calls) + t && Follows(t, leader, tablet, id)
      ensures forall c :: c in t ==> c.Demote? || c.AddReplica?
    {
      var synced := DemoteAndSync(id, leader, tablet);
      t := [Demote(id, leader, tablet, synced)];
      assert t[0] in t;
      if synced {
        var added := AddReplicaTo(leader, id, tablet);
        t := t + [AddReplica(leader, id, tablet, added)];
        assert t[1] == AddReplica(leader, id, tablet, added) && t[0] == Demote(id, leader, tablet, true);
        assert t[0] in t && t[1] in t;
      }
    }

    method EnlistAll(fs: seq<StorageNode>, leader: Id, tablet: string) returns (ghost t: seq<Call>)
      modifies this`calls
      ensures calls == old(calls) + t && forall f :: f in fs ==> Follows(t, leader, tablet, f.id)
      ensures forall c :: c in t ==> c.Demote? || c.AddReplica?
    {
      hide Follows;
      t := [];
      for i := 0 to |fs|
        invariant calls == old(calls) + t
        invariant forall j :: 0 <= j < i ==> Follows(t, leader, tablet, fs[j].id)
        invariant forall c :: c in t ==> c.Demote? || c.AddReplica?
      {
        ghost var more := Enlist(fs[i].id, leader, tablet);
        forall j | 0 <= j <= i
          ensures Follows(t + more, leader, tablet, fs[j].id)
        {
          if j < i {
            FollowsLater(t, more, leader, tablet, fs[j].id);
          } else {
            FollowsLater(more, t, leader, tablet, fs[i].id);
          }
        }
        assert forall c :: c in t + more ==> c in t || c in more;
        t := t + more;
      }
    }

    // ----- elections -----

    method AliveOthers(tg: TabletGroup, dead: Id, candidate: Id) returns (fs: seq<StorageNode>)
      requires Valid()
      ensures LiveOthers(fs, nodes, tg, dead, candidate)
    {
      fs := [];
      for i := 0 to |tg.nodeIds|
        invariant forall f | f in fs :: f.id in tg.nodeIds && f.id != dead && f.id != candidate
                                        && f.id in nodes && f == nodes[f.id] && f.alive
        invariant forall j | 0 <= j < i ::
                    var id := tg.nodeIds[j];
                    id != dead && id != candidate && id in nodes && nodes[id].alive ==> nodes[id] in fs
      {
        var id := tg.nodeIds[i];
        if id != dead && id != candidate && id in nodes && nodes[id].alive {
          assert forall f :: f in fs ==> f in fs + [nodes[id]];
          fs := fs + [nodes[id]];
        }
      }
    }

    method Candidates(tg: TabletGroup, dead: Id) returns (cs: seq<Candidate>)
      requires Valid()
      ensures forall c | c in cs :: Eligible(c, nodes, tg, dead)
      ensures forall id :: id in tg.nodeIds && id != dead && id in nodes && nodes[id].alive ==>
                exists c :: c in cs && c.primary.id == id
    {
      hide LiveOthers, SameConfiguration;
      cs := [];
      for i := 0 to |tg.nodeIds|
        invariant forall c | c in cs :: Eligible(c, nodes, tg, dead)
        invariant forall j ::
                    0 <= j < i && tg.nodeIds[j] != dead && tg.nodeIds[j] in nodes && nodes[tg.nodeIds[j]].alive ==>
                    exists c :: c in cs && c.primary.id == tg.nodeIds[j]
      {
        var id := tg.nodeIds[i];
        if id != dead && id in nodes && nodes[id].alive {
          var followers := AliveOthers(tg, dead, id);
          var c := Candidate(nodes[id], followers, NodeTabletLsn(nodes[id], tg.name));
          assert forall d :: d in cs ==> d in cs + [c];
          cs := cs + [c];
          assert c in cs && c.primary.id == id;
        }
      }
      cs := SortedEligible(tg, dead, cs);
    }

    method SortedEligible(tg: TabletGroup, dead: Id, cs: seq<Candidate>) returns (r: seq<Candidate>)
      ensures Descending(r) && forall c :: c in r <==> c in cs
    {
      r := SortCandidates(cs);
      SameMembers(r, cs);
    }

    /** The first phase of `handle_node_failure`: an election for each tablet of the dead node that has no
        live primary, a rebuild of the replica set for the others. */
    method PlanFailover(dead: Id) returns (plans: seq<FailurePlan>, rebuilds: seq<RebuildPlan>)
      requires Valid()
      ensures forall p | p in plans :: exists tg :: tg in tablets && PlannedFor(p, nodes, tg, dead)
      ensures dead in nodes ==>
                forall tg | tg in tablets && Leaderless(nodes, tg, dead) ::
                  exists p :: p in plans && PlannedFor(p, nodes, tg, dead)
      ensures forall r | r in rebuilds :: exists tg :: tg in tablets && RebuildFor(r, nodes, tg, dead)
      ensures dead in nodes ==>
                forall tg | tg in tablets && Bereft(nodes, tg, dead) ::
                  exists r :: r in rebuilds && RebuildFor(r, nodes, tg, dead)
    {
      hide LiveOthers, SameConfiguration, PlannedFor, RebuildFor, Least, Eligible, Leaderless, Bereft;
      plans, rebuilds := [], [];
      if dead !in nodes { return; }
      for i := 0 to |tablets|
        invariant forall p | p in plans :: exists tg :: tg in tablets && PlannedFor(p, nodes, tg, dead)
        invariant forall j | 0 <= j < i ::
                    Leaderless(nodes, tablets[j], dead) ==>
                      exists p :: p in plans && PlannedFor(p, nodes, tablets[j], dead)
        invariant forall r | r in rebuilds :: exists tg :: tg in tablets && RebuildFor(r, nodes, tg, dead)
        invariant forall j | 0 <= j < i ::
                    Bereft(nodes, tablets[j], dead) ==>
                      exists r :: r in rebuilds && RebuildFor(r, nodes, tablets[j], dead)
      {
        var tg := tablets[i];
        if dead !in tg.nodeIds {
          NotServed(nodes, tg, dead);
        } else {
          var first := tg.nodeIds[0];
          var primaryAlive := first in nodes && nodes[first].alive;
          LeaderlessOrNot(nodes, tg, dead);
          if first != dead && primaryAlive {
            var followers := AliveOthers(tg, dead, first);
            var r := RebuildPlan(tg.name, nodes[first], followers);
            RebuildIs(r, nodes, tg, dead);
            assert forall q :: q in rebuilds + [r] <==> q in rebuilds || q == r;
            rebuilds := rebuilds + [r];
          } else {
            var maxKnown := TabletMaxKnownLsn(tg);
            var candidates := Candidates(tg, dead);
            NoneStands(nodes, tg, dead, candidates);
            if candidates != [] {
              var p := FailurePlan(tg.name, candidates, maxKnown);
              PlanIs(p, nodes, tg, dead);
              assert forall q :: q in plans + [p] <==> q in plans || q == p;
              plans := plans + [p];
            }
          }
        }
      }
    }

    /** Fresh probes of a list of nodes; those that answer are kept. */
    method ProbeAll(fs: seq<StorageNode>, tablet: string, floor: nat)
      returns (answered: seq<StorageNode>, maxKnown: nat, ghost replies: seq<Option<StorageNode>>)
      requires Valid()
      modifies this`nodes, this`heard, this`calls
      ensures Valid() && nodes.Keys == old(nodes).Keys && old(heard) <= heard && floor <= maxKnown
      ensures answered == heard[|old(heard)|..]
      ensures HeardUpTo(heard, |old(heard)|, tablet, maxKnown)
      ensures maxKnown == floor || HeardLsn(heard, |old(heard)|, tablet, maxKnown)
      ensures |replies| == |fs| && calls == old(calls) + Probes(fs, replies) && answered == Answers(replies)
      ensures forall i :: 0 <= i < |fs| && replies[i].Some? ==>
                replies[i].value.id == fs[i].id && replies[i].value.alive
    {
      hide SameConfiguration, HeardUpTo, HeardLsn, Answers;
      answered, maxKnown, replies := [], floor, [];
      UpToNothing(heard, tablet, maxKnown);
      NoAnswers();
      for i := 0 to |fs|
        invariant Valid() && nodes.Keys == old(nodes).Keys && old(heard) <= heard && floor <= maxKnown
        invariant answered == heard[|old(heard)|..]
        invariant HeardUpTo(heard, |old(heard)|, tablet, maxKnown)
        invariant maxKnown == floor || HeardLsn(heard, |old(heard)|, tablet, maxKnown)
        invariant |replies| == i && calls == old(calls) + Probes(fs[..i], replies) && answered == Answers(replies)
        invariant forall j :: 0 <= j < i && replies[j].Some? ==>
                    replies[j].value.id == fs[j].id && replies[j].value.alive
      {
        ghost var was, asked := heard, calls;
        var ok, f := Probe(fs[i]);
        ghost var a := if ok then Some(f) else None;
        AnswersMore(replies, a);
        assert Probes(fs[..i + 1], replies + [a]) == Probes(fs[..i], replies) + [Probed(fs[i].id, a)];
        replies := replies + [a];
        if ok {
          LastAlso(was, |old(heard)|, f, tablet, floor, maxKnown);
          assert heard[|old(heard)|..] == was[|old(heard)|..] + [f];
          answered := answered + [f];
          maxKnown := Max(maxKnown, NodeTabletLsn(f, tablet));
        }
      }
      assert fs[..|fs|] == fs;
    }

    /** One candidate and, if it answers, its followers. */
    method ProbeCandidate(c: Candidate, tablet: string, floor: nat)
      returns (back: Option<Candidate>, maxKnown: nat, ghost reply: Option<StorageNode>, ghost t: seq<Call>)
      requires Valid()
      modifies this`nodes, this`heard, this`calls
      ensures Valid() && nodes.Keys == old(nodes).Keys && old(heard) <= heard && floor <= maxKnown
      ensures HeardUpTo(heard, |old(heard)|, tablet, maxKnown)
      ensures maxKnown == floor || HeardLsn(heard, |old(heard)|, tablet, maxKnown)
      ensures calls == old(calls) + t && CandidateProbed(c, tablet, t, reply, back)
      ensures back.Some? ==> back.value.primary in heard[|old(heard)|..]
    {
      hide SameConfiguration, HeardUpTo, HeardLsn, Answers, CandidateProbed;
      UpToNothing(heard, tablet, floor);
      ghost var from := |heard|;
      ghost var was := heard;
      var ok, primary := Probe(c.primary);
      reply := if ok then Some(primary) else None;
      t := [Probed(c.primary.id, reply)];
      back, maxKnown := None, floor;
      if !ok {
        NotFresh(c, tablet);
        return;
      }
      LastAlso(was, from, primary, tablet, floor, floor);
      ghost var mid := heard;
      maxKnown := Max(floor, NodeTabletLsn(primary, tablet));
      ghost var sofar := maxKnown;
      var followers;
      ghost var replies;
      followers, maxKnown, replies := ProbeAll(c.followers, tablet, maxKnown);
      UpToJoins(mid, heard, from, tablet, floor, sofar, maxKnown);
      t := t + Probes(c.followers, replies);
      back := Some(Candidate(primary, followers, NodeTabletLsn(primary, tablet)));
      FreshOne(c, tablet, primary, replies);
      assert heard[from] == primary;
    }

    /** Fresh probes of every candidate and its followers. */
    method ProbeCandidates(plan: FailurePlan)
      returns (cs: seq<Candidate>, maxKnown: nat, ghost replies: seq<Option<StorageNode>>, ghost t: seq<Call>)
      requires Valid()
      modifies this`nodes, this`heard, this`calls
      ensures Valid() && nodes.Keys == old(nodes).Keys && old(heard) <= heard
      ensures Highest(heard, |old(heard)|, plan.tablet, plan.maxKnown, maxKnown)
      ensures calls == old(calls) + t && Polled(plan, t, replies, cs)
      ensures forall c | c in cs :: c.primary in heard[|old(heard)|..] && c.lsn == NodeTabletLsn(c.primary, plan.tablet)
    {
      hide SameConfiguration, HeardUpTo, HeardLsn, PolledSoFar, CandidateProbed;
      cs, maxKnown, replies, t := [], plan.maxKnown, [], [];
      UpToNothing(heard, plan.tablet, maxKnown);
      PolledNone(plan);
      for i := 0 to |plan.candidates|
        invariant Valid() && nodes.Keys == old(nodes).Keys && old(heard) <= heard && plan.maxKnown <= maxKnown
        invariant HeardUpTo(heard, |old(heard)|, plan.tablet, maxKnown)
        invariant maxKnown == plan.maxKnown || HeardLsn(heard, |old(heard)|, plan.tablet, maxKnown)
        invariant calls == old(calls) + t && PolledSoFar(plan, i, t, replies, cs)
        invariant forall c | c in cs :: c.primary in heard[|old(heard)|..]
      {
        ghost var mid, sofar := heard, maxKnown;
        var c;
        ghost var reply, more;
        c, maxKnown, reply, more := ProbeCandidate(plan.candidates[i], plan.tablet, maxKnown);
        UpToJoins(mid, heard, |old(heard)|, plan.tablet, plan.maxKnown, sofar, maxKnown);
        assert heard[|old(heard)|..] == mid[|old(heard)|..] + heard[|mid|..];
        PolledMore(plan, i, t, replies, cs, reply, more, c);
        t, replies := t + more, replies + [reply];
        if c.Some? {
          cs := cs + [c.value];
        }
      }
      PolledAll(plan, t, replies, cs);
    }

    /** `std::swap(tg.node_ids[0], *pos)` in the first tablet of that name. */
    method PutFirst(name: string, leader: Id)
      requires Valid()
      modifies this`tablets
      ensures Valid() && tablets == Promoted(old(tablets), name, leader)
    {
      hide SameConfiguration, SwappedTo, Promoted;
      PromotedKeeps(tablets, name, leader);
      SameConfigurationTransitive(config, tablets, Promoted(tablets, name, leader));
      for i := 0 to |tablets|
        invariant tablets == old(tablets)
        invariant Promoted(tablets, name, leader) == tablets[..i] + Promoted(tablets[i..], name, leader)
      {
        PromotedAt(tablets, i, name, leader);
        if tablets[i].name == name {
          tablets := tablets[i := SwappedTo(tablets[i], leader)];
          return;
        }
      }
      PromotedAt(tablets, |tablets|, name, leader);
    }

    /** The candidates at the highest LSN are asked in turn until one is promoted. */
    method Vote(cs: seq<Candidate>, tablet: string, maxKnown: nat)
      returns (winner: Option<Candidate>, ghost t: seq<Call>)
      modifies this`calls
      ensures calls == old(calls) + t && Voted(t, tablet, cs, maxKnown, winner)
    {
      winner, t := None, [];
      for i := 0 to |cs|
        invariant calls == old(calls) + t && winner == None
        invariant forall c :: c in t ==>
                    c.Promote? && c.tablet == tablet && !c.granted
                    && exists a :: a in cs && a.primary.id == c.id && a.lsn >= maxKnown
        invariant forall j :: 0 <= j < i && cs[j].lsn >= maxKnown ==> Promote(cs[j].primary.id, tablet, false) in t
      {
        var c := cs[i];
        if c.lsn >= maxKnown {
          var ok := PromoteNode(c.primary.id, tablet);
          ghost var asked := Promote(c.primary.id, tablet, ok);
          assert c in cs;
          assert forall x :: x in t + [asked] <==> x in t || x == asked;
          t := t + [asked];
          if ok { return Some(c), t; }
        }
      }
    }

    /** One election. Every candidate is probed, and there is a winner exactly if one that answered at the
        highest LSN considered was granted its promotion. */
    method Elect(plan: FailurePlan) returns (ghost e: Election)
      requires Valid()
      modifies this`nodes, this`heard, this`calls, this`tablets
      ensures Valid() && nodes.Keys == old(nodes).Keys && old(heard) <= heard
      ensures e.plan == plan && e.from == |old(heard)| && e.to == |heard| && calls == old(calls) + e.calls
      ensures Concluded(e, heard)
      ensures tablets == (if e.won.Some? && e.won.value.leader in nodes
                          then Promoted(old(tablets), plan.tablet, e.won.value.leader) else old(tablets))
    {
      hide SameConfiguration, Promoted, Descending, HeardUpTo, HeardLsn, HeardAt, Freshest, Polled, Voted, Highest,
        Concluded, Follows;
      ghost var from := |heard|;
      var cs, maxKnown;
      ghost var replies, t;
      cs, maxKnown, replies, t := ProbeCandidates(plan);
      ghost var asked := cs;
      NoneAbove(heard, from, plan.tablet, plan.maxKnown, maxKnown, asked);
      cs := SortedEligible(TabletGroup("", [], [], []), "", cs);
      var winner;
      ghost var u, v := [], [];
      winner, u := Vote(cs, plan.tablet, maxKnown);
      VotedAmong(u, plan.tablet, cs, asked, maxKnown, winner);
      e := Election(plan, from, |heard|, t + u, replies, asked, maxKnown, None);
      assert t + u == t + u + [];
      if winner == None {
        ConcludedNow(e, heard, t, u, [], None);
        return;
      }
      var w := winner.value;
      var leader := w.primary.id;
      v := EnlistAll(w.followers, leader, plan.tablet);
      ghost var d := Decision(plan.tablet, leader, w.lsn, plan.maxKnown, from, |heard|);
      WinnerFreshest(heard, from, w, maxKnown, d);
      e := e.(calls := t + u + v, won := Some(d));
      ConcludedNow(e, heard, t, u, v, winner);
      if leader in nodes {
        PutFirst(plan.tablet, leader);
        MarkAlive(leader);
      }
    }

    /** `handle_node_failure`. The calls are those of the rebuilds and then those of the elections. Every tablet
        that keeps its live primary is rebuilt; every other one with a live node is put to an election. */
    method HandleNodeFailure(dead: Id) returns (ghost rebuilt: seq<Rebuilding>, ghost elections: seq<Election>)
      requires Valid()
      modifies this`nodes, this`heard, this`calls, this`tablets
      ensures Valid() && nodes.Keys == old(nodes).Keys && old(heard) <= heard
      ensures calls == old(calls) + RebuildCalls(rebuilt) + CallsOf(elections)
      ensures dead in old(nodes) ==>
                forall tg | tg in old(tablets) && Bereft(old(nodes), tg, dead) ::
                  exists b :: b in rebuilt && RebuildFor(b.plan, old(nodes), tg, dead)
      ensures forall b | b in rebuilt :: Rebuilt(b)
      ensures dead in old(nodes) ==>
                forall tg | tg in old(tablets) && Leaderless(old(nodes), tg, dead) ::
                  exists e :: e in elections && PlannedFor(e.plan, old(nodes), tg, dead)
      ensures forall e | e in elections ::
                Concluded(e, heard) && exists tg :: tg in old(tablets) && PlannedFor(e.plan, old(nodes), tg, dead)
      ensures forall e | e in elections && e.won.Some? :: Elected(e.won.value, heard, old(nodes), old(tablets), dead)
      ensures Explained(old(tablets), tablets, Winners(elections))
    {
      hide SameConfiguration, Promoted, Explained, Freshest, KnownUpTo, Leaderless, Concluded, Winners, PlannedFor,
        Elected, Bereft, RebuildFor, Rebuilt, CallsOf, RebuildCalls;
      rebuilt, elections := [], [];
      ExplainedNone(tablets);
      NoneYet();
      var plans, rebuilds := PlanFailover(dead);
      for i := 0 to |rebuilds|
        invariant Valid() && nodes.Keys == old(nodes).Keys && old(heard) <= heard && tablets == old(tablets)
        invariant calls == old(calls) + RebuildCalls(rebuilt)
        invariant |rebuilt| == i && forall j :: 0 <= j < i ==> rebuilt[j].plan == rebuilds[j] && Rebuilt(rebuilt[j])
      {
        ghost var b := Rebuild(rebuilds[i]);
        RebuildCallsMore(rebuilt, b);
        rebuilt := rebuilt + [b];
      }
      for i := 0 to |plans|
        invariant Valid() && nodes.Keys == old(nodes).Keys && old(heard) <= heard
        invariant calls == old(calls) + RebuildCalls(rebuilt) + CallsOf(elections)
        invariant |elections| == i && forall j :: 0 <= j < i ==> elections[j].plan == plans[j]
        invariant forall j :: 0 <= j < i ==> Concluded(elections[j], heard)
        invariant Explained(old(tablets), tablets, Winners(elections))
      {
        ghost var ts, was := tablets, heard;
        ghost var e := Elect(plans[i]);
        AllLater(elections, was, heard);
        WinnersOneMore(elections, e);
        CallsMore(elections, e);
        if e.won.Some? {
          ConcludedNames(e, heard);
          ExplainedOneMore(old(tablets), ts, tablets, Winners(elections), e.won.value);
        }
        elections := elections + [e];
      }
      forall e | e in elections
        ensures Concluded(e, heard) && exists tg :: tg in old(tablets) && PlannedFor(e.plan, old(nodes), tg, dead)
        ensures e.won.Some? ==> Elected(e.won.value, heard, old(nodes), old(tablets), dead)
      {
        assert e.plan in plans;
        WinnerElected(e, heard, old(nodes), old(tablets), dead);
      }
      AllHeld(elections, plans);
      AllRebuilt(rebuilt, rebuilds);
    }

    /** The replica set of a live primary is rebuilt from the followers that answer; nobody else is promoted. */
    method Rebuild(plan: RebuildPlan) returns (ghost b: Rebuilding)
      requires Valid()
      modifies this`nodes, this`heard, this`calls
      ensures Valid() && nodes.Keys == old(nodes).Keys && old(heard) <= heard
      ensures b.plan == plan && calls == old(calls) + b.calls && Rebuilt(b)
    {
      hide SameConfiguration, Follows, HeardUpTo, HeardLsn, Answers, Rebuilt, Probes, Cached;
      var ok, primary := Probe(plan.primary);
      ghost var reply := if ok then Some(primary) else None;
      ghost var leader := plan.primary.id;
      b := Rebuilding(plan, [Probed(leader, reply)], reply, []);
      if !ok {
        RebuiltNot(b);
        return;
      }
      var followers;
      ghost var replies, v := [], [];
      var highest;
      followers, highest, replies := ProbeAll(plan.followers, plan.tablet, 0);
      var granted := PromoteNode(primary.id, plan.tablet);
      if granted {
        v := EnlistAll(followers, primary.id, plan.tablet);
      }
      b := Rebuilding(plan, [Probed(leader, reply)] + Probes(plan.followers, replies)
                            + [Promote(leader, plan.tablet, granted)] + v, reply, replies);
      RebuiltWhen(b, granted, v);
      MarkAlive(primary.id);
    }

    // ----- recoveries -----

    method AliveMaxKnownLsn(tg: TabletGroup, live: Id) returns (m: nat)
      requires live in nodes
      ensures LeastAlive(nodes, tg, live, m)
    {
      m := NodeTabletLsn(nodes[live], tg.name);
      for i := 0 to |tg.nodeIds|
        invariant NodeTabletLsn(nodes[live], tg.name) <= m
        invariant forall j :: 0 <= j < i && tg.nodeIds[j] in nodes && nodes[tg.nodeIds[j]].alive ==>
                    NodeTabletLsn(nodes[tg.nodeIds[j]], tg.name) <= m
        invariant m == NodeTabletLsn(nodes[live], tg.name)
                  || exists id :: id in tg.nodeIds && id in nodes && nodes[id].alive
                                  && NodeTabletLsn(nodes[id], tg.name) == m
      {
        var id := tg.nodeIds[i];
        if id in nodes && nodes[id].alive {
          m := Max(m, NodeTabletLsn(nodes[id], tg.name));
        }
      }
    }

    /** The first phase of `handle_node_recovery`. Its own guess whether to promote is not kept: the second
        phase decides again from fresh probes. */
    method PlanRecovery(live: Id) returns (plans: seq<RecoveryPlan>)
      requires Valid()
      ensures forall p | p in plans :: exists tg :: tg in tablets && RecoveryFor(p, nodes, tg, live)
      ensures live in nodes ==>
                forall tg | tg in tablets && live in tg.nodeIds ::
                  exists p :: p in plans && RecoveryFor(p, nodes, tg, live)
    {
      hide SameConfiguration, LeastAlive, LiveOthers, RecoveryFor;
      plans := [];
      if live !in nodes { return; }
      for i := 0 to |tablets|
        invariant forall p | p in plans :: exists tg :: tg in tablets && RecoveryFor(p, nodes, tg, live)
        invariant forall j | 0 <= j < i ::
                    live in tablets[j].nodeIds ==> exists p :: p in plans && RecoveryFor(p, nodes, tablets[j], live)
      {
        var tg := tablets[i];
        if live in tg.nodeIds {
          var maxKnown := AliveMaxKnownLsn(tg, live);
          var first := tg.nodeIds[0];
          var primary := if first in nodes && nodes[first].alive then Some(nodes[first]) else None;
          var peers := AliveOthers(tg, live, live);
          var p := RecoveryPlan(tg.name, nodes[live], primary, peers, first, maxKnown);
          RecoveryIs(p, nodes, tg, live);
          ghost var was := plans;
          plans := plans + [p];
          assert forall q :: q in plans <==> q in was || q == p;
        }
      }
    }

    method FindById(fs: seq<StorageNode>, id: Id) returns (f: Option<StorageNode>)
      ensures f.Some? ==> f.value in fs && f.value.id == id
    {
      for i := 0 to |fs| {
        if fs[i].id == id { return Some(fs[i]); }
      }
      f := None;
    }

    /** The current primary as the fresh probes show it, if it answered. */
    method FreshPrimary(plan: RecoveryPlan, live: Id, followers: seq<StorageNode>)
      returns (p: Option<StorageNode>, ghost t: seq<Call>)
      requires Valid() && (plan.primary.Some? ==> plan.primary.value.id == plan.oldPrimary)
      modifies this`nodes, this`heard, this`calls
      ensures Valid() && nodes.Keys == old(nodes).Keys && old(heard) <= heard
      ensures p.Some? ==> p.value.id == plan.oldPrimary
      ensures p.Some? ==> p.value in followers || p.value in heard[|old(heard)|..]
      ensures heard == old(heard) || (p.Some? && heard == old(heard) + [p.value])
      ensures calls == old(calls) + t
      ensures t == [] || t == [Probed(plan.oldPrimary, p)]
      ensures p.Some? && p.value !in followers ==> t != []
      ensures p.None? && plan.primary.Some? ==> t != []
    {
      hide SameConfiguration;
      p, t := plan.primary, [];
      if p.Some? {
        var f := FindById(followers, plan.oldPrimary);
        if f.Some? { return f, []; }
        var ok, n := Probe(p.value);
        p := if ok then Some(n) else None;
        t := [Probed(plan.oldPrimary, p)];
      } else if plan.oldPrimary != live {
        p := FindById(followers, plan.oldPrimary);
      }
    }

    /** The probes of the second phase, and the LSNs they leave on the table. */
    method Listen(plan: RecoveryPlan, live: Id)
      returns (reply: Option<StorageNode>, primary: Option<StorageNode>, followers: seq<StorageNode>, maxKnown: nat,
               ghost t: seq<Call>)
      requires Valid() && plan.live.id == live
      requires plan.primary.Some? ==> plan.primary.value.id == plan.oldPrimary
      modifies this`nodes, this`heard, this`calls
      ensures Valid() && nodes.Keys == old(nodes).Keys && old(heard) <= heard
      ensures calls == old(calls) + t && Listened(plan, live, t, reply, primary)
      ensures reply.None? ==> heard == old(heard)
      ensures reply.Some? ==>
                && Highest(heard, |old(heard)|, plan.tablet, plan.maxKnown, maxKnown)
                && HeardAt(heard, |old(heard)|, live, plan.tablet, NodeTabletLsn(reply.value, plan.tablet))
                && NodeTabletLsn(reply.value, plan.tablet) <= maxKnown
                && (primary.Some? ==>
                      && HeardAt(heard, |old(heard)|, plan.oldPrimary, plan.tablet,
                                 NodeTabletLsn(primary.value, plan.tablet))
                      && NodeTabletLsn(primary.value, plan.tablet) <= maxKnown)
    {
      hide SameConfiguration, HeardUpTo, HeardLsn, HeardAt, Listened, Answers;
      ghost var from := |heard|;
      var ok, l := Probe(plan.live);
      reply, primary, followers, maxKnown := if ok then Some(l) else None, None, [], 0;
      t := [Probed(live, reply)];
      if !ok {
        NotListened(plan, live);
        return;
      }
      ghost var first := heard;
      ghost var replies, more;
      followers, maxKnown, replies := ProbeAll(plan.followers, plan.tablet,
                                               Max(plan.maxKnown, NodeTabletLsn(l, plan.tablet)));
      ghost var mid, sofar := heard, maxKnown;
      FirstAlso(old(heard), l, mid, plan.tablet, plan.maxKnown, maxKnown);
      primary, more := FreshPrimary(plan, live, followers);
      t := t + Probes(plan.followers, replies) + more;
      ListenedTo(plan, live, l, replies, followers, primary, more);
      TailHeard(first, heard, from, from, l, plan.tablet);
      if primary.Some? {
        maxKnown := Max(maxKnown, NodeTabletLsn(primary.value, plan.tablet));
        PrimaryHeard(mid, heard, from, primary.value, plan.tablet, plan.maxKnown, sofar);
      }
    }

    /** The RPCs that the answers lead to. */
    method Act(plan: RecoveryPlan, live: Id, reply: StorageNode, primary: Option<StorageNode>,
               followers: seq<StorageNode>, maxKnown: nat)
      returns (leader: Option<Id>, promoted: bool, ghost v: seq<Call>)
      requires primary.Some? ==> primary.value.id == plan.oldPrimary
      modifies this`calls
      ensures calls == old(calls) + v && Acted(plan, live, v, Some(reply), primary, maxKnown, leader)
      ensures promoted <==> leader.Some? && !Stays(live, plan.oldPrimary, plan.tablet, reply, primary)
    {
      hide Acted, Follows;
      leader, promoted, v := None, false, [];
      var liveLsn := NodeTabletLsn(reply, plan.tablet);
      var primaryLsn := if primary.Some? then NodeTabletLsn(primary.value, plan.tablet) else 0;
      if liveLsn < maxKnown && (primary == None || primaryLsn < maxKnown) {
        Idle(plan, live, Some(reply), primary, maxKnown);
        return;
      }
      if primary.Some? && plan.oldPrimary != live && primaryLsn >= liveLsn {
        v := Enlist(live, plan.oldPrimary, plan.tablet);
        StaysSecond(plan, live, v, reply, primary, maxKnown);
        return Some(plan.oldPrimary), false, v;
      }
      promoted := PromoteNode(live, plan.tablet);
      ghost var more := [];
      if promoted {
        more := EnlistAll(followers, live, plan.tablet);
        leader := Some(live);
      }
      v := [Promote(live, plan.tablet, promoted)] + more;
      AskedToLead(plan, live, v, more, reply, primary, maxKnown, promoted);
    }

    /** The second phase for one tablet. The primary that stays or is promoted has been heard at an LSN that
        nothing considered exceeds. The node stays as it is only if it did not answer or was outdone by all
        that could lead, and it leads exactly if it was asked to and agreed. */
    method Recover(plan: RecoveryPlan, live: Id) returns (ghost r: Recovery)
      requires Valid() && plan.live.id == live
      requires plan.primary.Some? ==> plan.primary.value.id == plan.oldPrimary
      modifies this`nodes, this`heard, this`calls, this`tablets
      ensures Valid() && nodes.Keys == old(nodes).Keys && old(heard) <= heard
      ensures r.plan == plan && r.from == |old(heard)| && r.to == |heard| && calls == old(calls) + r.calls
      ensures Considered(r, heard, live)
      ensures r.done.None? ==> tablets == old(tablets)
      ensures r.done.Some? ==>
                tablets == if Stays(live, plan.oldPrimary, plan.tablet, r.reply.value, r.primary) then old(tablets)
                           else Promoted(old(tablets), plan.tablet, live)
    {
      hide SameConfiguration, Promoted, Freshest, HeardAt, HeardUpTo, HeardLsn, Listened, Acted, Considered, Highest,
        Follows, Stays, Cached;
      ghost var from := |heard|;
      var reply, primary, followers, maxKnown;
      ghost var t, v := [], [];
      reply, primary, followers, maxKnown, t := Listen(plan, live);
      r := Recovery(plan, from, |heard|, t, reply, primary, maxKnown, None);
      assert t == t + [];
      if reply == None {
        Idle(plan, live, reply, primary, maxKnown);
        ConsideredNow(r, heard, live, t, []);
        return;
      }
      ListenedName(plan, live, t, reply, primary);
      var leader, promoted;
      leader, promoted, v := Act(plan, live, reply.value, primary, followers, maxKnown);
      r := r.(calls := t + v);
      if leader.Some? {
        ghost var d := ActedFreshest(plan, live, v, reply.value, primary, heard, from, maxKnown, leader.value);
        r := r.(done := Some(d));
      }
      ConsideredNow(r, heard, live, t, v);
      if promoted {
        ActedLeader(plan, live, v, reply.value, primary, maxKnown, leader);
        PutFirst(plan.tablet, live);
        MarkAlive(live);
      }
    }

    /** `handle_node_recovery`. Every tablet of the node that came back is considered. */
    method HandleNodeRecovery(live: Id) returns (ghost recoveries: seq<Recovery>)
      requires Valid()
      modifies this`nodes, this`heard, this`calls, this`tablets
      ensures Valid() && nodes.Keys == old(nodes).Keys && old(heard) <= heard
      ensures calls == old(calls) + RecoveryCalls(recoveries)
      ensures live in old(nodes) ==>
                forall tg | tg in old(tablets) && live in tg.nodeIds ::
                  exists r :: r in recoveries && RecoveryFor(r.plan, old(nodes), tg, live)
      ensures forall r | r in recoveries ::
                Considered(r, heard, live)
                && exists tg :: tg in old(tablets) && RecoveryFor(r.plan, old(nodes), tg, live)
      ensures forall r | r in recoveries && r.done.Some? ::
                Recovered(r.done.value, heard, old(nodes), old(tablets), live)
      ensures Explained(old(tablets), tablets, Outcomes(recoveries))
    {
      hide SameConfiguration, Promoted, Explained, Freshest, AliveKnownUpTo, Considered, Outcomes, Recovered,
        RecoveryFor, RecoveryCalls;
      recoveries := [];
      ExplainedNone(tablets);
      NoneYet();
      var plans := PlanRecovery(live);
      for i := 0 to |plans|
        invariant Valid() && nodes.Keys == old(nodes).Keys && old(heard) <= heard
        invariant calls == old(calls) + RecoveryCalls(recoveries)
        invariant |recoveries| == i && forall j :: 0 <= j < i ==> recoveries[j].plan == plans[j]
        invariant forall j :: 0 <= j < i ==> Considered(recoveries[j], heard, live)
        invariant Explained(old(tablets), tablets, Outcomes(recoveries))
      {
        ghost var ts, was := tablets, heard;
        assert plans[i] in plans;
        RecoveryReady(plans[i], old(nodes), old(tablets), live);
        ghost var r := Recover(plans[i], live);
        AllConsideredLater(recoveries, was, heard, live);
        OutcomesOneMore(recoveries, r);
        RecoveryCallsMore(recoveries, r);
        if r.done.Some? {
          ConsideredNames(r, heard, live);
          ExplainedOneMore(old(tablets), ts, tablets, Outcomes(recoveries), r.done.value);
        }
        recoveries := recoveries + [r];
      }
      forall r | r in recoveries
        ensures Considered(r, heard, live)
                && exists tg :: tg in old(tablets) && RecoveryFor(r.plan, old(nodes), tg, live)
        ensures r.done.Some? ==> Recovered(r.done.value, heard, old(nodes), old(tablets), live)
      {
        assert r.plan in plans;
        OutcomeRecovered(r, heard, old(nodes), old(tablets), live);
      }
      AllConsidered(recoveries, plans);
    }

    // ----- lookups -----

    /** `handle_lookup`. A live primary is always asked. A client is sent to it only when its fresh LSN is at
        least every cached one of the tablet's nodes, dead ones included; "stale" is answered only when one of
        them is higher, after a second probe, and "unavailable" exactly when there is no live primary or the
        first probe was not answered. */
    method HandleLookup(row: Data) returns (r: LookupReply)
      requires Valid()
      modifies this`nodes, this`heard, this`calls
      ensures Valid() && nodes.Keys == old(nodes).Keys && old(heard) <= heard && old(calls) <= calls
      ensures r.NoTablet? <==> FirstHolding(tablets, row) == |tablets|
      ensures !r.NoTablet? ==>
                var tg := tablets[FirstHolding(tablets, row)];
                var live := tg.nodeIds != [] && tg.nodeIds[0] in old(nodes) && old(nodes)[tg.nodeIds[0]].alive;
                && (!live ==> r.PrimaryUnavailable? && calls == old(calls))
                && (live ==>
                      && |calls| > |old(calls)| && calls[|old(calls)|].Probed?
                      && calls[|old(calls)|].id == tg.nodeIds[0]
                      && (r.PrimaryUnavailable? <==> calls[|old(calls)|].answer.None?)
                      && (r.PrimaryStale? ==> |calls| == |old(calls)| + 2 && calls[|calls| - 1].Probed?))
      ensures r.Redirect? || r.PrimaryStale? ==>
                && FirstHolding(tablets, row) < |tablets|
                && var tg := tablets[FirstHolding(tablets, row)];
                && tg.nodeIds != [] && tg.nodeIds[0] in nodes
                && var n := nodes[tg.nodeIds[0]];
                && n.alive && (r.Redirect? <==> KnownUpTo(nodes, tg, NodeTabletLsn(n, tg.name)))
                && (r.Redirect? ==> r.host == n.host && r.port == n.port)
    {
      hide SameConfiguration, KnownUpTo, FirstHolding;
      var at := FindTablet(tablets, row);
      if at == None { return NoTablet; }
      var tg := tablets[at.value];
      if tg.nodeIds == [] || tg.nodeIds[0] !in nodes || !nodes[tg.nodeIds[0]].alive { return PrimaryUnavailable; }
      var ok, primary := Probe(nodes[tg.nodeIds[0]]);
      if !ok { return PrimaryUnavailable; }
      var maxKnown := TabletMaxKnownLsn(tg);
      if NodeTabletLsn(primary, tg.name) < maxKnown {
        ok, primary := Probe(primary);
        if ok {
          maxKnown := TabletMaxKnownLsn(tg);
        }
        if NodeTabletLsn(primary, tg.name) < maxKnown { return PrimaryStale; }
      }
      r := Redirect(primary.host, primary.port);
    }
  }
}
