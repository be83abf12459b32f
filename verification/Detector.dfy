/** The failure detector over whole histories of pings and refreshes of one node
    (coordinator/src/coordinator.cc:424-551). */
module Detector {
  import opened Bytes
  import opened Nodes

  datatype Event = Ping(reply: Option<Pong>) | Refresh(reply: Option<Pong>)
  datatype Verdict = Down | Recovered
  datatype Watch = Watch(node: StorageNode, verdicts: seq<Verdict>)

  function Observe(w: Watch, ev: Event, threshold: int): Watch {
    match ev
    case Ping(reply) =>
      Watch(Pinged(w.node, reply, threshold),
            w.verdicts
            + (if DeclaredDown(w.node, reply, threshold) then [Down] else [])
            + (if DeclaredRecovered(w.node, reply, threshold) then [Recovered] else []))
    case Refresh(reply) => w.(node := Refreshed(w.node, reply))
  }

  function Watched(node: StorageNode, evs: seq<Event>, threshold: int): Watch {
    if evs == [] then Watch(node, [])
    else Observe(Watched(node, evs[..|evs| - 1], threshold), evs[|evs| - 1], threshold)
  }

  /** A node as the configuration file registers it. */
  predicate Registered(node: StorageNode) {
    node.alive && !node.wasDown && node.missed == 0
  }

  /** Misses needed in practice: a threshold of zero or less acts like one. */
  function Limit(threshold: int): nat {
    if threshold < 1 then 1 else threshold
  }

  /** Pings missed at the end of a history, not counting refreshes that brought nothing. */
  function TrailingMisses(evs: seq<Event>): nat {
    if evs == [] then 0
    else
      var init, last := evs[..|evs| - 1], evs[|evs| - 1];
      if last.reply.Some? then 0
      else TrailingMisses(init) + (if last.Ping? then 1 else 0)
  }

  ghost predicate Consistent(w: Watch, evs: seq<Event>, threshold: int) {
    && w.node.alive == !w.node.wasDown
    && (w.node.alive <==> w.node.missed < Limit(threshold))
    && w.node.missed == TrailingMisses(evs)
  }

  /** In every run a node is down exactly when it was marked down, it is alive exactly while fewer than
      the threshold of pings in a row were missed, and the counter is that number. */
  lemma {:induction false} AlwaysConsistent(node: StorageNode, evs: seq<Event>, threshold: int)
    requires Registered(node)
    ensures Consistent(Watched(node, evs, threshold), evs, threshold)
  {
    if evs != [] {
      AlwaysConsistent(node, evs[..|evs| - 1], threshold);
    }
  }

  /** The next event declares the node down exactly when it is the threshold-th miss in a row, and
      declares it recovered exactly when it is an answered ping of a node that had reached the threshold. */
  lemma VerdictsExactly(node: StorageNode, evs: seq<Event>, ev: Event, threshold: int)
    requires Registered(node)
    ensures var before := Watched(node, evs, threshold).verdicts;
            var after := Watched(node, evs + [ev], threshold).verdicts;
            after == before
                     + (if ev.Ping? && ev.reply.None? && TrailingMisses(evs + [ev]) == Limit(threshold)
                        then [Down] else [])
                     + (if ev.Ping? && ev.reply.Some? && TrailingMisses(evs) >= Limit(threshold)
                        then [Recovered] else [])
  {
    AlwaysConsistent(node, evs, threshold);
    assert (evs + [ev])[..|evs|] == evs;
  }

  /** A restart verdict and a recovery verdict never come from the same ping. */
  lemma RestartIsNotRecovery(node: StorageNode, evs: seq<Event>, reply: Option<Pong>, threshold: int)
    requires Registered(node)
    ensures var n := Watched(node, evs, threshold).node;
            !(Restarted(n, reply) && DeclaredRecovered(n, reply, threshold))
    ensures var n := Watched(node, evs, threshold).node;
            Restarted(n, reply) ==> TrailingMisses(evs) < Limit(threshold)
  {
    AlwaysConsistent(node, evs, threshold);
  }

  // ----- verdicts alternate -----

  predicate Alternate(vs: seq<Verdict>) {
    forall i :: 0 <= i < |vs| ==> vs[i] == if i % 2 == 0 then Down else Recovered
  }

  /** The verdicts so far alternate and the last one tells whether the node is down. */
  predicate Settled(w: Watch) {
    Alternate(w.verdicts) && (|w.verdicts| % 2 == 1 <==> !w.node.alive)
  }

  predicate RevivesSilently(w: Watch, ev: Event) {
    ev.Refresh? && ev.reply.Some? && !w.node.alive
  }

  /** The one step that breaks alternation: an answered refresh of a node that is down. */
  lemma SettledKeptExactly(w: Watch, ev: Event, threshold: int)
    requires w.node.alive == !w.node.wasDown && Settled(w)
    ensures Settled(Observe(w, ev, threshold)) <==> !RevivesSilently(w, ev)
  {
    var t := Observe(w, ev, threshold);
    assert forall i :: 0 <= i < |w.verdicts| ==> t.verdicts[i] == w.verdicts[i];
  }

  predicate RefreshedOnlyAlive(node: StorageNode, evs: seq<Event>, threshold: int) {
    evs == []
    || (var init := evs[..|evs| - 1];
        RefreshedOnlyAlive(node, init, threshold)
        && !RevivesSilently(Watched(node, init, threshold), evs[|evs| - 1]))
  }

  lemma {:induction false} VerdictsAlternate(node: StorageNode, evs: seq<Event>, threshold: int)
    requires Registered(node) && RefreshedOnlyAlive(node, evs, threshold)
    ensures Settled(Watched(node, evs, threshold))
  {
    hide Settled, Observe, RevivesSilently;
    if evs == [] {
      SettledAtStart(node);
    } else {
      var init := evs[..|evs| - 1];
      VerdictsAlternate(node, init, threshold);
      AlwaysConsistent(node, init, threshold);
      SettledKeptExactly(Watched(node, init, threshold), evs[|evs| - 1], threshold);
    }
  }

  lemma SettledAtStart(node: StorageNode)
    requires Registered(node)
    ensures Settled(Watch(node, []))
  {
  }

  /** The first silent revival in a history. */
  function FirstRevival(node: StorageNode, evs: seq<Event>, threshold: int): Option<nat> {
    if evs == [] then None
    else
      var init := evs[..|evs| - 1];
      match FirstRevival(node, init, threshold)
      case Some(i) => Some(i)
      case None =>
        if RevivesSilently(Watched(node, init, threshold), evs[|evs| - 1]) then Some(|init|) else None
  }

  /** Until the first silent revival the verdicts are settled. After it the node is alive although the last
      verdict was Down, until the next verdict, which is Down once more. */
  ghost predicate Phased(node: StorageNode, evs: seq<Event>, threshold: int) {
    var w := Watched(node, evs, threshold);
    match FirstRevival(node, evs, threshold)
    case None => Settled(w)
    case Some(i) =>
      && i < |evs|
      && var at := Watched(node, evs[..i], threshold);
      && RevivesSilently(at, evs[i]) && Alternate(at.verdicts) && |at.verdicts| % 2 == 1
      && at.verdicts <= w.verdicts
      && (if |w.verdicts| == |at.verdicts| then w.node.alive else w.verdicts[|at.verdicts|] == Down)
  }

  lemma {:induction false} AlwaysPhased(node: StorageNode, evs: seq<Event>, threshold: int)
    requires Registered(node)
    ensures Phased(node, evs, threshold)
  {
    hide Settled, RevivesSilently, Alternate, Observe;
    if evs == [] {
      SettledAtStart(node);
    } else {
      var init, ev := evs[..|evs| - 1], evs[|evs| - 1];
      AlwaysPhased(node, init, threshold);
      AlwaysConsistent(node, init, threshold);
      var w := Watched(node, init, threshold);
      match FirstRevival(node, init, threshold) {
        case None =>
          SettledKeptExactly(w, ev, threshold);
          assert evs[..|init|] == init;
          if RevivesSilently(w, ev) {
            RevivalFacts(w, ev, threshold);
          }
        case Some(i) =>
          VerdictsGrow(w, ev, threshold);
          assert evs[..i] == init[..i];
      }
    }
  }

  lemma RevivalFacts(w: Watch, ev: Event, threshold: int)
    requires RevivesSilently(w, ev) && Settled(w)
    ensures Alternate(w.verdicts) && |w.verdicts| % 2 == 1
    ensures Observe(w, ev, threshold).verdicts == w.verdicts && Observe(w, ev, threshold).node.alive
  {
  }

  lemma VerdictsGrow(w: Watch, ev: Event, threshold: int)
    requires w.node.alive == !w.node.wasDown
    ensures w.verdicts <= Observe(w, ev, threshold).verdicts
    ensures var t := Observe(w, ev, threshold);
            w.node.alive ==> if |t.verdicts| == |w.verdicts| then t.node.alive else t.verdicts[|w.verdicts|] == Down
  {
  }

  lemma {:induction false} VerdictsPrefix(node: StorageNode, evs: seq<Event>, k: nat, threshold: int)
    requires Registered(node) && k <= |evs|
    ensures Watched(node, evs[..k], threshold).verdicts <= Watched(node, evs, threshold).verdicts
    decreases |evs|
  {
    hide Observe;
    if k == |evs| {
      assert evs[..k] == evs;
    } else {
      var init := evs[..|evs| - 1];
      VerdictsPrefix(node, init, k, threshold);
      assert init[..k] == evs[..k];
      AlwaysConsistent(node, init, threshold);
      VerdictsGrow(Watched(node, init, threshold), evs[|evs| - 1], threshold);
    }
  }

  /** No verdict is issued after a silent revival. */
  ghost predicate QuietAfterRevivals(node: StorageNode, evs: seq<Event>, threshold: int) {
    forall i :: 0 <= i < |evs| && RevivesSilently(Watched(node, evs[..i], threshold), evs[i]) ==>
      Watched(node, evs, threshold).verdicts == Watched(node, evs[..i + 1], threshold).verdicts
  }

  /** In every history Down and Recovered alternate, Down first, if and only if no verdict follows an
      answered refresh of a node that was down. */
  lemma AlternatesExactly(node: StorageNode, evs: seq<Event>, threshold: int)
    requires Registered(node)
    ensures Alternate(Watched(node, evs, threshold).verdicts) <==> QuietAfterRevivals(node, evs, threshold)
  {
    hide Observe, RevivesSilently, Registered, Watched, FirstRevival;
    AlwaysPhased(node, evs, threshold);
    var w := Watched(node, evs, threshold);
    match FirstRevival(node, evs, threshold)
    case None => NoRevivalBefore(node, evs, threshold);
    case Some(i) =>
      var at := Watched(node, evs[..i], threshold);
      RevivalIsQuiet(node, evs, i, threshold);
      if |w.verdicts| == |at.verdicts| {
        assert w.verdicts == at.verdicts;
        forall k | 0 <= k < |evs| && RevivesSilently(Watched(node, evs[..k], threshold), evs[k])
          ensures w.verdicts == Watched(node, evs[..k + 1], threshold).verdicts
        {
          FirstIsFirst(node, evs, k, threshold);
          VerdictsPrefix(node, evs, k + 1, threshold);
          VerdictsPrefix(node, evs[..k + 1], i, threshold);
          assert evs[..k + 1][..i] == evs[..i];
        }
      } else {
        assert w.verdicts[|at.verdicts|] == Down;
      }
  }

  lemma RevivalIsQuiet(node: StorageNode, evs: seq<Event>, i: nat, threshold: int)
    requires i < |evs| && RevivesSilently(Watched(node, evs[..i], threshold), evs[i])
    ensures Watched(node, evs[..i + 1], threshold).verdicts == Watched(node, evs[..i], threshold).verdicts
  {
    assert evs[..i + 1][..i] == evs[..i];
  }

  /** A silent revival at k means that the first one is at k or before. */
  lemma {:induction false} FirstIsFirst(node: StorageNode, evs: seq<Event>, k: nat, threshold: int)
    requires k < |evs| && RevivesSilently(Watched(node, evs[..k], threshold), evs[k])
    ensures FirstRevival(node, evs, threshold).Some? && FirstRevival(node, evs, threshold).value <= k
    decreases |evs|
  {
    hide Watched, RevivesSilently;
    var init := evs[..|evs| - 1];
    if k == |init| {
      assert evs[..k] == init;
      FirstInside(node, init, threshold);
    } else {
      assert init[..k] == evs[..k];
      FirstIsFirst(node, init, k, threshold);
    }
  }

  lemma {:induction false} FirstInside(node: StorageNode, evs: seq<Event>, threshold: int)
    ensures FirstRevival(node, evs, threshold).Some? ==> FirstRevival(node, evs, threshold).value < |evs|
  {
    hide Watched, RevivesSilently;
    if evs != [] {
      FirstInside(node, evs[..|evs| - 1], threshold);
    }
  }

  lemma NoRevivalBefore(node: StorageNode, evs: seq<Event>, threshold: int)
    requires FirstRevival(node, evs, threshold) == None
    ensures forall k :: 0 <= k < |evs| ==> !RevivesSilently(Watched(node, evs[..k], threshold), evs[k])
  {
    hide Watched, RevivesSilently;
    forall k | 0 <= k < |evs|
      ensures !RevivesSilently(Watched(node, evs[..k], threshold), evs[k])
    {
      if RevivesSilently(Watched(node, evs[..k], threshold), evs[k]) {
        FirstIsFirst(node, evs, k, threshold);
      }
    }
  }

  /** Without that restriction two Down verdicts follow each other, whatever the threshold: the node goes
      down, a lookup's late refresh revives it in silence, and it goes down again. */
  lemma SilentRevival(node: StorageNode, threshold: int, pong: Pong)
    requires Registered(node)
    ensures var misses := seq(Limit(threshold), i => Ping(None));
            Watched(node, misses + [Refresh(Some(pong))] + misses, threshold).verdicts == [Down, Down]
  {
    var k := Limit(threshold);
    var misses: seq<Event> := seq(k, i => Ping(None));
    var revive: Event := Refresh(Some(pong));
    MissesDown(node, [], k, threshold);
    assert [] + misses == misses;
    assert (misses + [revive])[..|misses|] == misses;
    MissesDown(node, misses + [revive], k, threshold);
  }

  /** A threshold of t takes t misses in a row, and one miss fewer takes nobody down. */
  lemma DownAtThreshold(node: StorageNode, t: nat)
    requires Registered(node) && t > 0
    ensures Watched(node, seq(t, i => Ping(None)), t).verdicts == [Down]
    ensures Watched(node, seq(t - 1, i => Ping(None)), t).verdicts == []
  {
    MissesDown(node, [], t, t);
    MissesDown(node, [], t - 1, t);
    var all: seq<Event>, fewer: seq<Event> := seq(t, i => Ping(None)), seq(t - 1, i => Ping(None));
    assert [] + all == all && [] + fewer == fewer;
  }

  /** After an alive moment with no miss pending, k misses in a row, k at most the limit, add a single
      Down verdict if k reaches the limit and none before. */
  lemma {:induction false} MissesDown(node: StorageNode, evs: seq<Event>, k: nat, threshold: int)
    requires Registered(node) && TrailingMisses(evs) == 0 && k <= Limit(threshold)
    ensures var misses := seq(k, i => Ping(None));
            && TrailingMisses(evs + misses) == k
            && Watched(node, evs + misses, threshold).verdicts
               == Watched(node, evs, threshold).verdicts + (if k == Limit(threshold) then [Down] else [])
  {
    hide Watched, TrailingMisses, Registered;
    var misses: seq<Event> := seq(k, i => Ping(None));
    if k == 0 {
      assert evs + misses == evs;
    } else {
      var fewer: seq<Event> := seq(k - 1, i => Ping(None));
      MissesDown(node, evs, k - 1, threshold);
      assert misses == fewer + [Ping(None)];
      assert evs + misses == (evs + fewer) + [Ping(None)];
      OneMoreMiss(evs + fewer);
      VerdictsExactly(node, evs + fewer, Ping(None), threshold);
    }
  }

  lemma OneMoreMiss(evs: seq<Event>)
    ensures TrailingMisses(evs + [Ping(None)]) == TrailingMisses(evs) + 1
  {
    assert (evs + [Ping(None)])[..|evs|] == evs;
  }

  // ----- what a node last reported -----

  /** The last LSN that an answer in the history carried. */
  function LastLsn(evs: seq<Event>): Option<nat> {
    if evs == [] then None
    else
      var last := evs[|evs| - 1];
      if last.reply.Some? && last.reply.value.lsn.Some? then last.reply.value.lsn else LastLsn(evs[..|evs| - 1])
  }

  /** The last list of tablet LSNs that was not empty. */
  function LastTabletLsns(evs: seq<Event>): Option<map<string, nat>> {
    if evs == [] then None
    else
      var last := evs[|evs| - 1];
      if last.reply.Some? && last.reply.value.tabletLsns != map[] then Some(last.reply.value.tabletLsns)
      else LastTabletLsns(evs[..|evs| - 1])
  }

  /** The last process id that was positive. */
  function LastPid(evs: seq<Event>): Option<nat> {
    if evs == [] then None
    else
      var last := evs[|evs| - 1];
      if last.reply.Some? && last.reply.value.pid > 0 then Some(last.reply.value.pid)
      else LastPid(evs[..|evs| - 1])
  }

  /** After every history the record has what the node reported last, by ping or refresh, and what it was
      registered with where it has reported nothing; its name and address never change. */
  lemma {:induction false} LastReported(node: StorageNode, evs: seq<Event>, threshold: int)
    ensures var n := Watched(node, evs, threshold).node;
            && n.lsn == (if LastLsn(evs).Some? then LastLsn(evs).value else node.lsn)
            && n.tabletLsns == (if LastTabletLsns(evs).Some? then LastTabletLsns(evs).value else node.tabletLsns)
            && n.processId == (if LastPid(evs).Some? then LastPid(evs).value else node.processId)
            && n.id == node.id && n.host == node.host && n.port == node.port
  {
    hide Observe;
    if evs != [] {
      var init, ev := evs[..|evs| - 1], evs[|evs| - 1];
      LastReported(node, init, threshold);
      Reported(Watched(node, init, threshold), ev, threshold);
    }
  }

  lemma Reported(w: Watch, ev: Event, threshold: int)
    ensures var n := Observe(w, ev, threshold).node;
            && n.lsn == (if ev.reply.Some? && ev.reply.value.lsn.Some? then ev.reply.value.lsn.value else w.node.lsn)
            && n.tabletLsns == (if ev.reply.Some? && ev.reply.value.tabletLsns != map[]
                                then ev.reply.value.tabletLsns else w.node.tabletLsns)
            && n.processId == (if ev.reply.Some? && ev.reply.value.pid > 0
                               then ev.reply.value.pid else w.node.processId)
            && n.id == w.node.id && n.host == w.node.host && n.port == w.node.port
  {
  }

  /** The LSN for a tablet is the one in the last list, or the last LSN of the node if the list lacks it. */
  lemma TabletLsnReported(node: StorageNode, evs: seq<Event>, threshold: int, tablet: string)
    requires LastLsn(evs).Some?
    ensures NodeTabletLsn(Watched(node, evs, threshold).node, tablet)
            == if LastTabletLsns(evs).Some? && tablet in LastTabletLsns(evs).value
               then LastTabletLsns(evs).value[tablet]
               else if LastTabletLsns(evs).None? && tablet in node.tabletLsns then node.tabletLsns[tablet]
               else LastLsn(evs).value
  {
    hide LastLsn, LastTabletLsns, LastPid, Watched;
    LastReported(node, evs, threshold);
  }

  /** A ping reports a restart exactly if the node answers with a process id other than the last one known
      and was up: fewer pings in a row were missed than the threshold. */
  lemma RestartedExactly(node: StorageNode, evs: seq<Event>, reply: Option<Pong>, threshold: int)
    requires Registered(node)
    ensures var known := if LastPid(evs).Some? then LastPid(evs).value else node.processId;
            Restarted(Watched(node, evs, threshold).node, reply) <==>
            && reply.Some? && TrailingMisses(evs) < Limit(threshold)
            && known > 0 && reply.value.pid > 0 && reply.value.pid != known
  {
    hide LastLsn, LastTabletLsns, LastPid, Watched;
    AlwaysConsistent(node, evs, threshold);
    LastReported(node, evs, threshold);
  }
}
