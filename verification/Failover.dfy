/** The coordinator's choice and the replication protocol together: what an election preserves. */
module Failover {
  import opened RowCodec
  import opened Wal
  import opened TabletImage
  import opened TabletStore
  import opened Replication
  import opened Term
  import Nodes
  import Coordinator

  /** The election listened to each survivor, and each answered with the length of its log. */
  ghost predicate Reported(t: State, me: Id, survivors: set<Id>, d: Coordinator.Decision,
                           heard: seq<Nodes.StorageNode>) {
    && d.from <= d.to <= |heard|
    && (forall i :: d.from <= i < d.to && heard[i].id in survivors ==>
         Nodes.NodeTabletLsn(heard[i], d.tablet) == |LogAt(t, me, heard[i].id)|)
    && forall id | id in survivors :: exists i :: d.from <= i < d.to && heard[i].id == id
  }

  lemma LeaderIsFreshest(t: State, me: Id, survivors: set<Id>, d: Coordinator.Decision, heard: seq<Nodes.StorageNode>)
    requires Coordinator.Freshest(d, heard) && d.leader in survivors && Reported(t, me, survivors, d, heard)
    ensures Freshest(t, me, survivors, d.leader)
  {
    forall id | id in survivors
      ensures |LogAt(t, me, id)| <= |LogAt(t, me, d.leader)|
    {
      var i :| d.from <= i < d.to && heard[i].id == id;
      assert Nodes.NodeTabletLsn(heard[i], d.tablet) <= d.lsn;
    }
  }

  /** After any run of a term with no harmful step, an election that hears a majority of the nodes leaves as
      primary a node that holds every committed operation at its LSN. */
  lemma ElectionKeepsCommits(s: State, evs: seq<Event>, me: Id, survivors: set<Id>,
                             d: Coordinator.Decision, heard: seq<Nodes.StorageNode>, n: nat)
    requires Init(s) && LosesNothing(s, me, evs) && me !in s.logs
    requires survivors <= s.logs.Keys + {me} && 2 * |survivors| > |s.logs| + 1
    requires Coordinator.Freshest(d, heard) && d.leader in survivors
    requires Reported(Run(s, evs), me, survivors, d, heard)
    requires n in Run(s, evs).committed
    ensures var t := Run(s, evs);
            && n <= |LogAt(t, me, d.leader)| && n <= |t.primary|
            && LogAt(t, me, d.leader)[..n] == t.primary[..n]
  {
    hide Run, LosesNothing, Init, Freshest, LogAt, Reported;
    LeaderIsFreshest(Run(s, evs), me, survivors, d, heard);
    CommittedSurvive(s, evs, me, survivors, d.leader, n);
  }

  // ----- the next term -----

  /** The term that begins with the elected node as primary and the other survivors as replicas. Messages of
      the old term are not part of it. */
  function NextTerm(t: State, me: Id, survivors: set<Id>, leader: Id): State {
    State(LogAt(t, me, leader), map id | id in survivors - {leader} :: LogAt(t, me, id), t.up, {}, {}, {}, {})
  }

  /** The survivors of an election agree so far that the next term can begin: their logs are prefixes of the
      new primary's. */
  lemma NextTermBegins(t: State, me: Id, survivors: set<Id>, leader: Id)
    requires Inv(t) && survivors <= t.logs.Keys + {me} && Freshest(t, me, survivors, leader)
    ensures Init(NextTerm(t, me, survivors, leader)) && leader !in NextTerm(t, me, survivors, leader).logs
    ensures NextTerm(t, me, survivors, leader).primary <= t.primary
  {
    hide Sound, Majority, AckersOf;
    forall id | id in survivors
      ensures LogAt(t, me, id) <= LogAt(t, me, leader)
    {
      assert LogAt(t, me, id) <= t.primary && LogAt(t, me, leader) <= t.primary;
    }
  }

  /** It begins with each committed operation of the old term at its LSN. */
  lemma NextTermKeeps(s: State, evs: seq<Event>, me: Id, survivors: set<Id>, d: Coordinator.Decision,
                      heard: seq<Nodes.StorageNode>)
    requires Init(s) && LosesNothing(s, me, evs) && me !in s.logs
    requires survivors <= s.logs.Keys + {me} && 2 * |survivors| > |s.logs| + 1
    requires Coordinator.Freshest(d, heard) && d.leader in survivors
    requires Reported(Run(s, evs), me, survivors, d, heard)
    ensures var t := Run(s, evs);
            var next := NextTerm(t, me, survivors, d.leader);
            && Init(next) && next.primary == LogAt(t, me, d.leader) && next.logs.Keys == survivors - {d.leader}
            && next.primary <= t.primary
            && forall n :: n in t.committed ==> n <= |next.primary| && next.primary[..n] == t.primary[..n]
  {
    hide Run, LosesNothing, Init, Freshest, LogAt, Reported, Inv;
    var t := Run(s, evs);
    LeaderIsFreshest(t, me, survivors, d, heard);
    InvAlways(s, evs);
    NextTermBegins(t, me, survivors, d.leader);
    forall n | n in t.committed
      ensures n <= |LogAt(t, me, d.leader)| <= |t.primary| && LogAt(t, me, d.leader)[..n] == t.primary[..n]
    {
      CommittedSurvive(s, evs, me, survivors, d.leader, n);
    }
  }

  /** The elected node takes over on BECOME_PRIMARY: it is ready to write, and its log is the primary's log of
      a new term that keeps what was committed. */
  method TakeOver(leader: ReplicationManager, ghost s: State, ghost evs: seq<Event>, ghost me: Id,
                  ghost survivors: set<Id>, ghost d: Coordinator.Decision, ghost heard: seq<Nodes.StorageNode>)
    returns (ghost next: State)
    requires Init(s) && LosesNothing(s, me, evs) && me !in s.logs
    requires survivors <= s.logs.Keys + {me} && 2 * |survivors| > |s.logs| + 1
    requires Coordinator.Freshest(d, heard) && d.leader in survivors
    requires Reported(Run(s, evs), me, survivors, d, heard)
    requires leader.Valid() && leader.tablet.HasLog(LogAt(Run(s, evs), me, d.leader))
    modifies leader`isPrimary, leader`replicas
    ensures leader.Valid() && leader.isPrimary && leader.replicas == [] && leader.tablet.HasLog(next.primary)
    ensures Init(next) && next.logs.Keys == survivors - {d.leader} && next.primary <= Run(s, evs).primary
    ensures forall n :: n in Run(s, evs).committed ==>
              n <= |next.primary| && next.primary[..n] == Run(s, evs).primary[..n]
  {
    hide Run, LosesNothing, Init, Freshest, LogAt, Reported, NextTerm, LogOf, Steps, EncodeLog, LoadImage, Covered,
      ShortStrings, Coordinator.Freshest;
    NextTermKeeps(s, evs, me, survivors, d, heard);
    next := NextTerm(Run(s, evs), me, survivors, d.leader);
    leader.BecomePrimary();
  }
}
