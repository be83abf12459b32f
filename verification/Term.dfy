/** One primary term as a step system: every interleaving of writes on the primary with messages that
    are lost, late, repeated or reordered, with synchronisations that arrive late or are cut short, and
    with replicas that crash and restart.

    The nodes agree on logs only within a term (there are no epochs in the code), so a term starts with
    replica logs that are prefixes of the primary's. Each tablet operation is one step. A node keeps its
    log over a crash because memory is always rebuilt from its files, which `TabletStore` proves.
 */
module Term {
  import opened Bytes
  import opened Table
  import opened RowCodec
  import opened Snapshot
  import opened TabletImage
  import opened Wal
  import opened WalDelta
  import opened TabletStore
  import opened Replication

  /** A synchronisation answer: log records from LSN after + 1 on, or a whole state (by its log). */
  datatype Answer = Records(after: nat, entries: seq<Entry>) | Whole(log: seq<Entry>)
  datatype Letter = Letter(to: Id, answer: Answer)
  datatype Ack = Ack(who: Id, lsn: nat)

  /** `net` and `letters` only grow: delivering a message does not use it up, and losing one is never
      delivering it. */
  datatype State = State(
    primary: seq<Entry>,
    logs: map<Id, seq<Entry>>,
    up: set<Id>,
    net: set<Message>,
    letters: set<Letter>,
    acked: set<Ack>,
    committed: set<nat>)

  datatype Event =
    | Write(e: Entry)
    | Deliver(id: Id, m: Message)
    | Ask(id: Id, records: bool)
    | Install(l: Letter, cut: nat)
    | Crash(id: Id)
    | Restart(id: Id)
    | Commit(n: nat)

  /** The LSN gate of a replica: old messages are acknowledged again, the next one is applied, and one
      that would leave a gap is refused. */
  predicate Accepts(log: seq<Entry>, m: Message) {
    m.lsn <= |log| + 1
  }

  function Received(log: seq<Entry>, m: Message): seq<Entry> {
    if m.lsn == |log| + 1 then log + [m.entry] else log
  }

  /** Loading an answer. Records already held are skipped, records past a gap are refused, and a crash
      can cut the load after `cut` records. An image replaces the state as it is. */
  function Loaded(log: seq<Entry>, a: Answer, cut: nat): seq<Entry> {
    match a
    case Whole(image) => image
    case Records(after, entries) =>
      if after <= |log| <= after + |entries| then
        var missing := entries[|log| - after..];
        log + (if cut < |missing| then missing[..cut] else missing)
      else log
  }

  function AckersOf(s: State, n: nat): set<Id> {
    set a | a in s.acked && a.lsn == n :: a.who
  }

  /** Events that are not possible in s leave it unchanged, so every list of events is a run. */
  function Next(s: State, ev: Event): State {
    match ev
    case Write(e) =>
      s.(primary := s.primary + [e], net := s.net + {Replicate(|s.primary| + 1, e)})
    case Deliver(id, m) =>
      if id in s.up && id in s.logs && m in s.net && Accepts(s.logs[id], m) then
        s.(logs := s.logs[id := Received(s.logs[id], m)], acked := s.acked + {Ack(id, m.lsn)})
      else s
    case Ask(id, records) =>
      if id in s.up && id in s.logs && |s.logs[id]| <= |s.primary| then
        var n := |s.logs[id]|;
        var answer := if records || n == |s.primary| then Records(n, s.primary[n..]) else Whole(s.primary);
        s.(letters := s.letters + {Letter(id, answer)})
      else s
    case Install(l, cut) =>
      if l in s.letters && l.to in s.up && l.to in s.logs then
        s.(logs := s.logs[l.to := Loaded(s.logs[l.to], l.answer, cut)])
      else s
    case Crash(id) => s.(up := s.up - {id})
    case Restart(id) => s.(up := s.up + {id})
    case Commit(n) =>
      if 1 <= n <= |s.primary| && Majority(AckersOf(s, n), |s.logs|) then
        s.(committed := s.committed + {n})
      else s
  }

  function Run(s: State, evs: seq<Event>): State {
    if evs == [] then s else Next(Run(s, evs[..|evs| - 1]), evs[|evs| - 1])
  }

  /** The start of a term. */
  ghost predicate Init(s: State) {
    && (forall id | id in s.logs :: s.logs[id] <= s.primary)
    && s.net == {} && s.letters == {} && s.acked == {} && s.committed == {}
  }

  ghost predicate Prefixes(s: State) {
    forall id | id in s.logs :: s.logs[id] <= s.primary
  }

  ghost predicate Sound(a: Answer, primary: seq<Entry>) {
    match a
    case Whole(image) => image <= primary
    case Records(after, entries) =>
      after + |entries| <= |primary| && entries == primary[after..after + |entries|]
  }

  ghost predicate Inv(s: State) {
    && Prefixes(s)
    && (forall m | m in s.net :: 1 <= m.lsn <= |s.primary| && s.primary[m.lsn - 1] == m.entry)
    && (forall l | l in s.letters :: Sound(l.answer, s.primary))
    && (forall a | a in s.acked :: a.who in s.logs)
    && (forall n | n in s.committed :: n <= |s.primary| && Majority(AckersOf(s, n), |s.logs|))
  }

  lemma SoundGrows(a: Answer, primary: seq<Entry>, e: Entry)
    requires Sound(a, primary)
    ensures Sound(a, primary + [e])
  {
  }

  lemma LoadedPrefix(log: seq<Entry>, a: Answer, cut: nat, primary: seq<Entry>)
    requires log <= primary && Sound(a, primary)
    ensures Loaded(log, a, cut) <= primary
  {
    if a.Records? && a.after <= |log| <= a.after + |a.entries| {
      var missing := a.entries[|log| - a.after..];
      assert missing == primary[|log|..a.after + |a.entries|];
      assert log + missing == primary[..a.after + |a.entries|];
    }
  }

  lemma AckersGrow(s: State, t: State, n: nat)
    requires s.acked <= t.acked && s.logs.Keys == t.logs.Keys
    requires forall a | a in t.acked :: a.who in t.logs
    requires Majority(AckersOf(s, n), |s.logs|)
    ensures Majority(AckersOf(t, n), |t.logs|)
  {
    assert AckersOf(s, n) <= AckersOf(t, n);
    CardinalityMonotone(AckersOf(s, n), AckersOf(t, n));
    assert |s.logs| == |s.logs.Keys| == |t.logs.Keys| == |t.logs|;
  }

  lemma {:induction false} CardinalityMonotone<T>(a: set<T>, b: set<T>)
    requires a <= b
    ensures |a| <= |b|
  {
    if a != {} {
      var x :| x in a;
      CardinalityMonotone(a - {x}, b - {x});
    }
  }

  lemma StepShape(s: State, ev: Event)
    ensures s.primary <= Next(s, ev).primary && s.logs.Keys == Next(s, ev).logs.Keys
    ensures s.acked <= Next(s, ev).acked && s.committed <= Next(s, ev).committed
  {
    hide Majority, Loaded, Received, Accepts, AckersOf;
    assert !ev.Write? ==> s.primary == Next(s, ev).primary;
    match ev
    case Deliver(id, m) => assert id in s.logs ==> s.logs[id := Received(s.logs[id], m)].Keys == s.logs.Keys;
    case Install(l, cut) =>
      assert l.to in s.logs ==> s.logs[l.to := Loaded(s.logs[l.to], l.answer, cut)].Keys == s.logs.Keys;
    case _ =>
  }

  lemma PrefixesKept(s: State, ev: Event)
    requires Inv(s)
    ensures Prefixes(Next(s, ev))
  {
    hide Majority, Loaded, AckersOf, Sound;
    match ev
    case Install(l, cut) =>
      if l in s.letters && l.to in s.logs {
        LoadedPrefix(s.logs[l.to], l.answer, cut, s.primary);
      }
    case _ =>
  }

  lemma InvKept(s: State, ev: Event)
    requires Inv(s)
    ensures Inv(Next(s, ev))
  {
    hide Majority, Loaded, Received, AckersOf, Sound, Prefixes;
    var t := Next(s, ev);
    StepShape(s, ev);
    PrefixesKept(s, ev);
    assert forall a | a in t.acked :: a.who in t.logs;
    forall n | n in t.committed
      ensures n <= |t.primary| && Majority(AckersOf(t, n), |t.logs|)
    {
      AckersGrow(s, t, n);
    }
    forall l | l in t.letters
      ensures Sound(l.answer, t.primary)
    {
      LetterSound(s, ev, l);
    }
  }

  lemma LetterSound(s: State, ev: Event, l: Letter)
    requires Inv(s) && l in Next(s, ev).letters
    ensures Sound(l.answer, Next(s, ev).primary)
  {
    hide Majority, Loaded, Received, AckersOf;
    match ev
    case Write(e) => SoundGrows(l.answer, s.primary, e);
    case _ =>
  }

  lemma {:induction false} InvAlways(s: State, evs: seq<Event>)
    requires Init(s)
    ensures Inv(Run(s, evs))
    ensures s.primary <= Run(s, evs).primary && Run(s, evs).logs.Keys == s.logs.Keys
  {
    hide Inv, Next, Init;
    if evs == [] {
      InitInv(s);
    } else {
      var init := evs[..|evs| - 1];
      InvAlways(s, init);
      InvKept(Run(s, init), evs[|evs| - 1]);
      StepShape(Run(s, init), evs[|evs| - 1]);
    }
  }

  lemma InitInv(s: State)
    requires Init(s)
    ensures Inv(s)
  {
  }

  // ----- the prefix invariant and what an acknowledgement means -----

  /** In every run every replica's log is a prefix of the primary's, however messages and answers are
      lost, repeated, delayed or cut. */
  lemma PrefixAlways(s: State, evs: seq<Event>, id: Id)
    requires Init(s) && id in s.logs
    ensures id in Run(s, evs).logs && Run(s, evs).logs[id] <= Run(s, evs).primary
  {
    hide Run, Next, Init, Majority, Sound;
    InvAlways(s, evs);
  }

  /** A replica acknowledges LSN n only at a moment when it holds the primary's first n operations. */
  lemma AckMeansHeld(s: State, evs: seq<Event>, ev: Event, a: Ack)
    requires Init(s)
    requires a in Next(Run(s, evs), ev).acked && a !in Run(s, evs).acked
    ensures var t := Next(Run(s, evs), ev);
            && a.who in t.logs && a.lsn <= |t.logs[a.who]| && a.lsn <= |t.primary|
            && t.logs[a.who][..a.lsn] == t.primary[..a.lsn]
  {
    hide Run, Init, Majority, Sound, Loaded, AckersOf;
    InvAlways(s, evs);
    InvKept(Run(s, evs), ev);
  }

  // ----- when acknowledgements stay true -----

  /** Every acknowledgement given so far still holds. */
  ghost predicate Held(s: State) {
    forall a | a in s.acked :: a.who in s.logs && a.lsn <= |s.logs[a.who]|
  }

  /** The one harmful step: installing an image that is older than an acknowledgement of its receiver. */
  ghost predicate Drops(s: State, ev: Event) {
    && ev.Install? && ev.l in s.letters && ev.l.to in s.up && ev.l.to in s.logs && ev.l.answer.Whole?
    && exists a :: a in s.acked && a.who == ev.l.to && |ev.l.answer.log| < a.lsn
  }

  lemma AcksKeptExactly(s: State, ev: Event)
    requires Inv(s) && Held(s)
    ensures Held(Next(s, ev)) <==> !Drops(s, ev)
  {
    hide Inv, Majority, Sound, AckersOf;
    var t := Next(s, ev);
    StepShape(s, ev);
    if Drops(s, ev) {
      var a :| a in s.acked && a.who == ev.l.to && |ev.l.answer.log| < a.lsn;
      assert a in t.acked && |t.logs[a.who]| < a.lsn;
    }
  }

  /** No step of the run is harmful. */
  ghost predicate DropsNothing(s: State, evs: seq<Event>) {
    forall k :: 0 <= k < |evs| ==> !Drops(Run(s, evs[..k]), evs[k])
  }

  ghost predicate AlwaysHeld(s: State, evs: seq<Event>) {
    forall k :: 0 <= k <= |evs| ==> Held(Run(s, evs[..k]))
  }

  /** All acknowledgements are true throughout a run if and only if none of its steps is harmful. */
  lemma AcksHeldExactly(s: State, evs: seq<Event>)
    requires Init(s)
    ensures AlwaysHeld(s, evs) <==> DropsNothing(s, evs)
  {
    hide Inv, Next, Held, Drops, Run, Init;
    if AlwaysHeld(s, evs) {
      forall k | 0 <= k < |evs|
        ensures !Drops(Run(s, evs[..k]), evs[k])
      {
        assert Held(Run(s, evs[..k])) && Held(Run(s, evs[..k + 1]));
        InvAlways(s, evs[..k]);
        RunLast(s, evs, k);
        AcksKeptExactly(Run(s, evs[..k]), evs[k]);
      }
    }
    if DropsNothing(s, evs) {
      forall k | 0 <= k <= |evs|
        ensures Held(Run(s, evs[..k]))
      {
        HeldSoFar(s, evs, k);
      }
    }
  }

  lemma {:induction false} HeldSoFar(s: State, evs: seq<Event>, k: nat)
    requires Init(s) && DropsNothing(s, evs) && k <= |evs|
    ensures Held(Run(s, evs[..k]))
  {
    hide Inv, Next, Drops, Run;
    RunNone(s, evs);
    if k > 0 {
      HeldSoFar(s, evs, k - 1);
      InvAlways(s, evs[..k - 1]);
      RunLast(s, evs, k - 1);
      assert !Drops(Run(s, evs[..k - 1]), evs[k - 1]);
      AcksKeptExactly(Run(s, evs[..k - 1]), evs[k - 1]);
    }
  }

  lemma AcksHeld(s: State, evs: seq<Event>)
    requires Init(s) && DropsNothing(s, evs)
    ensures Held(Run(s, evs))
  {
    hide Init, DropsNothing, Run, Held;
    HeldSoFar(s, evs, |evs|);
    assert evs[..|evs|] == evs;
  }

  /** A check a receiver could make before loading, enough to prevent harm: the image is not behind its own
      log. */
  predicate Timely(s: State, ev: Event) {
    ev.Install? && ev.l.answer.Whole? && ev.l.to in s.logs ==> |s.logs[ev.l.to]| <= |ev.l.answer.log|
  }

  lemma TimelyDropsNothing(s: State, evs: seq<Event>)
    requires Init(s) && forall k :: 0 <= k < |evs| ==> Timely(Run(s, evs[..k]), evs[k])
    ensures DropsNothing(s, evs)
  {
    hide Init, Run;
    forall k | 0 <= k < |evs|
      ensures !Drops(Run(s, evs[..k]), evs[k])
    {
      TimelySoFar(s, evs, k);
    }
  }

  lemma {:induction false} TimelySoFar(s: State, evs: seq<Event>, k: nat)
    requires Init(s) && k <= |evs| && forall j :: 0 <= j < |evs| ==> Timely(Run(s, evs[..j]), evs[j])
    ensures Held(Run(s, evs[..k])) && (k < |evs| ==> !Drops(Run(s, evs[..k]), evs[k]))
  {
    hide Inv, Next, Run;
    RunNone(s, evs);
    if k > 0 {
      TimelySoFar(s, evs, k - 1);
      InvAlways(s, evs[..k - 1]);
      RunLast(s, evs, k - 1);
      AcksKeptExactly(Run(s, evs[..k - 1]), evs[k - 1]);
    }
    if k < |evs| {
      assert Timely(Run(s, evs[..k]), evs[k]);
    }
  }

  // ----- committed operations survive -----

  /** What a node holds: the primary's log for its own name, a replica's log for the others. */
  function LogAt(s: State, me: Id, id: Id): seq<Entry> {
    if id == me then s.primary else if id in s.logs then s.logs[id] else []
  }

  ghost predicate Freshest(s: State, me: Id, survivors: set<Id>, leader: Id) {
    leader in survivors && forall id | id in survivors :: |LogAt(s, me, id)| <= |LogAt(s, me, leader)|
  }

  lemma TooManyToMiss<T>(a: set<T>, b: set<T>, all: set<T>)
    requires a <= all && b <= all && |a| + |b| > |all|
    ensures exists x :: x in a && x in b
  {
    CardinalityMonotone(a + b, all);
    assert |a + b| == |a| + |b| - |a * b|;
    var x :| x in a * b;
  }

  function Nodes(s: State, me: Id): set<Id> {
    s.logs.Keys + {me}
  }

  /** The nodes that hold n operations or more, the primary counted under its own name. */
  function Holders(s: State, me: Id, n: nat): set<Id> {
    set id | id in Nodes(s, me) && n <= |LogAt(s, me, id)|
  }

  /** At least half of all nodes hold n operations. */
  predicate Widespread(s: State, me: Id, n: nat) {
    2 * |Holders(s, me, n)| >= |s.logs| + 1
  }

  /** Whichever majority of the nodes is left, the one with the highest LSN holds the primary's first n
      operations at their LSNs. */
  ghost predicate Survives(s: State, me: Id, n: nat) {
    n <= |s.primary| && forall survivors: set<Id>, leader: Id ::
      survivors <= Nodes(s, me) && 2 * |survivors| > |s.logs| + 1 && Freshest(s, me, survivors, leader) ==>
        n <= |LogAt(s, me, leader)| && LogAt(s, me, leader)[..n] == s.primary[..n]
  }

  lemma {:induction false} SomeFreshest(s: State, me: Id, nodes: set<Id>)
    requires nodes != {}
    ensures exists leader :: Freshest(s, me, nodes, leader)
  {
    var x :| x in nodes;
    var rest := nodes - {x};
    if rest == {} {
      assert nodes == {x};
      assert Freshest(s, me, nodes, x);
    } else {
      SomeFreshest(s, me, rest);
      var y :| Freshest(s, me, rest, y);
      var best := if |LogAt(s, me, y)| <= |LogAt(s, me, x)| then x else y;
      assert forall id :: id in nodes <==> id == x || id in rest;
      assert Freshest(s, me, nodes, best);
    }
  }

  lemma NodesCount(s: State, me: Id)
    requires me !in s.logs
    ensures |Nodes(s, me)| == |s.logs| + 1
  {
    assert |s.logs.Keys| == |s.logs|;
  }

  /** A majority election finds n operations whoever is left if and only if at least half of the nodes hold
      them. */
  lemma SurvivesExactly(s: State, me: Id, n: nat)
    requires Prefixes(s) && me !in s.logs && n <= |s.primary|
    ensures Survives(s, me, n) <==> Widespread(s, me, n)
  {
    hide Holders, Freshest, LogAt, Prefixes, Nodes;
    if Widespread(s, me, n) {
      forall survivors: set<Id>, leader: Id |
        survivors <= Nodes(s, me) && 2 * |survivors| > |s.logs| + 1 && Freshest(s, me, survivors, leader)
        ensures n <= |LogAt(s, me, leader)| && LogAt(s, me, leader)[..n] == s.primary[..n]
      {
        FreshestHolds(s, me, n, survivors, leader);
      }
    } else {
      HoldersAway(s, me, n);
    }
  }

  lemma FreshestHolds(s: State, me: Id, n: nat, survivors: set<Id>, leader: Id)
    requires Prefixes(s) && me !in s.logs && n <= |s.primary| && Widespread(s, me, n)
    requires survivors <= Nodes(s, me) && 2 * |survivors| > |s.logs| + 1 && Freshest(s, me, survivors, leader)
    ensures n <= |LogAt(s, me, leader)| && LogAt(s, me, leader)[..n] == s.primary[..n]
  {
    NodesCount(s, me);
    TooManyToMiss(Holders(s, me, n), survivors, Nodes(s, me));
    var x :| x in Holders(s, me, n) && x in survivors;
    assert LogAt(s, me, leader) <= s.primary;
  }

  /** If fewer than half hold n operations, the others are a majority in which nobody does. */
  lemma HoldersAway(s: State, me: Id, n: nat)
    requires me !in s.logs && !Widespread(s, me, n)
    ensures exists survivors: set<Id>, leader: Id ::
              survivors <= Nodes(s, me) && 2 * |survivors| > |s.logs| + 1 && Freshest(s, me, survivors, leader)
              && |LogAt(s, me, leader)| < n
  {
    hide LogAt, Freshest;
    NodesCount(s, me);
    var all, holders := Nodes(s, me), Holders(s, me, n);
    var others := all - holders;
    assert others + holders == all && |others + holders| == |others| + |holders|;
    SomeFreshest(s, me, others);
    var leader :| Freshest(s, me, others, leader);
    FreshestIsOne(s, me, others, leader);
  }

  lemma FreshestIsOne(s: State, me: Id, nodes: set<Id>, leader: Id)
    requires Freshest(s, me, nodes, leader)
    ensures leader in nodes
  {
  }

  // ----- when commits survive -----

  /** Every committed operation is held by at least half of the nodes. */
  ghost predicate Kept(s: State, me: Id) {
    forall n :: n in s.committed ==> Widespread(s, me, n)
  }

  /** An image shorter than n replaces a log that has n operations. */
  predicate Shortens(s: State, l: Letter, n: nat) {
    && l in s.letters && l.to in s.up && l.to in s.logs && l.answer.Whole?
    && |l.answer.log| < n <= |s.logs[l.to]|
  }

  /** The step takes n operations away from a node without which fewer than half hold them. */
  predicate Robs(s: State, me: Id, ev: Event, n: nat) {
    ev.Install? && Shortens(s, ev.l, n) && 2 * (|Holders(s, me, n)| - 1) < |s.logs| + 1
  }

  /** The harmful steps: an older image takes away a committed operation, or an operation is committed on
      acknowledgements that are no longer true of enough nodes. */
  ghost predicate Loses(s: State, me: Id, ev: Event) {
    || (exists n :: n in s.committed && Robs(s, me, ev, n))
    || (ev.Commit? && ev.n in Next(s, ev).committed && !Widespread(s, me, ev.n))
  }

  lemma LogsGrow(s: State, me: Id, ev: Event, n: nat, id: Id)
    requires me !in s.logs && !(ev.Install? && Shortens(s, ev.l, n) && id == ev.l.to)
    requires n <= |LogAt(s, me, id)|
    ensures n <= |LogAt(Next(s, ev), me, id)|
  {
    hide Majority, AckersOf;
    StepShape(s, ev);
  }

  lemma HoldersStep(s: State, me: Id, ev: Event, n: nat)
    requires me !in s.logs
    ensures Nodes(Next(s, ev), me) == Nodes(s, me) && |Next(s, ev).logs| == |s.logs|
    ensures !(ev.Install? && Shortens(s, ev.l, n)) ==> Holders(s, me, n) <= Holders(Next(s, ev), me, n)
    ensures ev.Install? && Shortens(s, ev.l, n) ==>
              ev.l.to in Holders(s, me, n) && Holders(Next(s, ev), me, n) == Holders(s, me, n) - {ev.l.to}
  {
    hide Majority, AckersOf, Received, Accepts, Next, LogAt;
    StepShape(s, ev);
    NodesCount(s, me);
    NodesCount(Next(s, ev), me);
    forall id | id in Holders(s, me, n) && !(ev.Install? && Shortens(s, ev.l, n) && id == ev.l.to)
      ensures id in Holders(Next(s, ev), me, n)
    {
      LogsGrow(s, me, ev, n, id);
    }
    if ev.Install? && Shortens(s, ev.l, n) {
      InstallsShort(s, me, ev.l, ev.cut, n);
    }
  }

  lemma InstallsShort(s: State, me: Id, l: Letter, cut: nat, n: nat)
    requires me !in s.logs && Shortens(s, l, n)
    ensures n <= |LogAt(s, me, l.to)| && |LogAt(Next(s, Install(l, cut)), me, l.to)| < n
    ensures forall id :: id != l.to ==> LogAt(Next(s, Install(l, cut)), me, id) == LogAt(s, me, id)
  {
  }

  lemma WidespreadStep(s: State, me: Id, ev: Event, n: nat)
    requires me !in s.logs && Widespread(s, me, n)
    ensures Widespread(Next(s, ev), me, n) <==> !Robs(s, me, ev, n)
  {
    hide Next, Holders, Shortens;
    HoldersStep(s, me, ev, n);
    if !(ev.Install? && Shortens(s, ev.l, n)) {
      CardinalityMonotone(Holders(s, me, n), Holders(Next(s, ev), me, n));
    }
  }

  lemma CommitStep(s: State, me: Id, n: nat)
    ensures Next(s, Commit(n)).committed == s.committed || Next(s, Commit(n)).committed == s.committed + {n}
    ensures forall m :: Widespread(Next(s, Commit(n)), me, m) <==> Widespread(s, me, m)
  {
    hide Majority, AckersOf;
    forall m
      ensures Holders(Next(s, Commit(n)), me, m) == Holders(s, me, m)
    {
    }
  }

  lemma CommittedSame(s: State, ev: Event)
    requires !ev.Commit?
    ensures Next(s, ev).committed == s.committed
  {
  }

  /** One step keeps every commit held by half of the nodes if and only if it is not harmful. */
  lemma KeptExactly(s: State, me: Id, ev: Event)
    requires me !in s.logs && Kept(s, me)
    ensures Kept(Next(s, ev), me) <==> !Loses(s, me, ev)
  {
    hide Holders, Shortens, Widespread, Next;
    if ev.Commit? {
      CommitStep(s, me, ev.n);
    } else {
      CommittedSame(s, ev);
      forall n | n in s.committed
        ensures Widespread(Next(s, ev), me, n) <==> !Robs(s, me, ev, n)
      {
        WidespreadStep(s, me, ev, n);
      }
    }
  }

  ghost predicate LosesNothing(s: State, me: Id, evs: seq<Event>) {
    forall k :: 0 <= k < |evs| ==> !Loses(Run(s, evs[..k]), me, evs[k])
  }

  /** Whatever is committed at any moment of the run would survive an election held then. */
  ghost predicate AlwaysSurvive(s: State, me: Id, evs: seq<Event>) {
    forall k, n :: 0 <= k <= |evs| && n in Run(s, evs[..k]).committed ==> Survives(Run(s, evs[..k]), me, n)
  }

  lemma KeptMeans(s: State, me: Id)
    requires Inv(s) && me !in s.logs
    ensures Kept(s, me) <==> forall n :: n in s.committed ==> Survives(s, me, n)
  {
    hide Widespread, Survives, Majority, Sound, AckersOf;
    forall n | n in s.committed
      ensures Survives(s, me, n) <==> Widespread(s, me, n)
    {
      SurvivesExactly(s, me, n);
    }
  }

  lemma {:induction false} KeptSoFar(s: State, me: Id, evs: seq<Event>, k: nat)
    requires Init(s) && me !in s.logs && LosesNothing(s, me, evs) && k <= |evs|
    ensures Kept(Run(s, evs[..k]), me)
  {
    hide Inv, Next, Loses, Run, Widespread;
    RunNone(s, evs);
    if k > 0 {
      KeptSoFar(s, me, evs, k - 1);
      InvAlways(s, evs[..k - 1]);
      RunLast(s, evs, k - 1);
      assert !Loses(Run(s, evs[..k - 1]), me, evs[k - 1]);
      KeptExactly(Run(s, evs[..k - 1]), me, evs[k - 1]);
    }
  }

  /** Commits survive throughout a run, whichever majority is left and whenever, if and only if none of its
      steps is harmful. */
  lemma CommitsSurviveExactly(s: State, me: Id, evs: seq<Event>)
    requires Init(s) && me !in s.logs
    ensures AlwaysSurvive(s, me, evs) <==> LosesNothing(s, me, evs)
  {
    hide Inv, Next, Loses, Run, Init, Kept, Survives;
    if AlwaysSurvive(s, me, evs) {
      forall k | 0 <= k < |evs|
        ensures !Loses(Run(s, evs[..k]), me, evs[k])
      {
        InvAlways(s, evs[..k]);
        InvAlways(s, evs[..k + 1]);
        KeptMeans(Run(s, evs[..k]), me);
        KeptMeans(Run(s, evs[..k + 1]), me);
        RunLast(s, evs, k);
        KeptExactly(Run(s, evs[..k]), me, evs[k]);
      }
    }
    if LosesNothing(s, me, evs) {
      forall k, n | 0 <= k <= |evs| && n in Run(s, evs[..k]).committed
        ensures Survives(Run(s, evs[..k]), me, n)
      {
        KeptSoFar(s, me, evs, k);
        InvAlways(s, evs[..k]);
        KeptMeans(Run(s, evs[..k]), me);
      }
    }
  }

  /** In any majority of the nodes, the one with the highest LSN holds every committed operation at its
      LSN, whether or not the primary is among the survivors. */
  lemma CommittedSurvive(s: State, evs: seq<Event>, me: Id, survivors: set<Id>, leader: Id, n: nat)
    requires Init(s) && LosesNothing(s, me, evs) && me !in s.logs
    requires survivors <= s.logs.Keys + {me} && 2 * |survivors| > |s.logs| + 1
    requires Freshest(Run(s, evs), me, survivors, leader)
    requires n in Run(s, evs).committed
    ensures var t := Run(s, evs);
            && n <= |LogAt(t, me, leader)| && n <= |t.primary|
            && LogAt(t, me, leader)[..n] == t.primary[..n]
  {
    hide Next, Init, Run, LosesNothing, Majority, Sound, AckersOf, Freshest, Kept;
    assert evs[..|evs|] == evs;
    KeptSoFar(s, me, evs, |evs|);
    InvAlways(s, evs);
    KeptMeans(Run(s, evs), me);
    assert |Run(s, evs).logs| == |Run(s, evs).logs.Keys| == |s.logs.Keys| == |s.logs|;
  }

  /** As long as no acknowledgement is dropped no commit is lost. The converse is false: a commit can do
      without one of its acknowledgements if enough others hold it. */
  lemma DropsNothingLosesNothing(s: State, me: Id, evs: seq<Event>)
    requires Init(s) && me !in s.logs && DropsNothing(s, evs)
    ensures LosesNothing(s, me, evs)
  {
    hide Inv, Next, Loses, Run, Init, Kept, DropsNothing;
    forall k | 0 <= k < |evs|
      ensures !Loses(Run(s, evs[..k]), me, evs[k])
    {
      HeldSoFar(s, evs, k);
      HeldSoFar(s, evs, k + 1);
      InvAlways(s, evs[..k]);
      InvAlways(s, evs[..k + 1]);
      HeldKept(Run(s, evs[..k]), me);
      HeldKept(Run(s, evs[..k + 1]), me);
      RunLast(s, evs, k);
      KeptExactly(Run(s, evs[..k]), me, evs[k]);
    }
  }

  lemma HeldKept(s: State, me: Id)
    requires Inv(s) && Held(s) && me !in s.logs
    ensures Kept(s, me)
  {
    hide Sound;
    forall n | n in s.committed
      ensures Widespread(s, me, n)
    {
      var ackers := AckersOf(s, n);
      assert ackers + {me} <= Holders(s, me, n);
      CardinalityMonotone(ackers + {me}, Holders(s, me, n));
      assert me !in ackers && |ackers + {me}| == |ackers| + 1;
    }
  }

  /** Without that check a committed operation can be lost: an image of one operation is fetched, two
      operations are acknowledged, and then the image is installed. */
  lemma LateImageLosesCommit(e: Entry, f: Entry)
    ensures exists s: State, evs: seq<Event> ::
              Init(s) && s.logs.Keys == {"a", "b"}
              && var t := Run(s, evs);
                 2 in t.committed && Freshest(t, "p", {"a", "b"}, "a") && |LogAt(t, "p", "a")| == 1
  {
    var s0 := State([], map["a" := [], "b" := []], {"a", "b"}, {}, {}, {}, {});
    var letter := Letter("a", Whole([e]));
    var evs := [Write(e), Ask("a", false), Deliver("a", Replicate(1, e)), Write(f),
                Deliver("a", Replicate(2, f)), Commit(2), Install(letter, 0)];
    LateImageRun(s0, evs, e, f, letter);
    assert Init(s0);
  }

  lemma RunLast(s: State, evs: seq<Event>, k: nat)
    requires k < |evs|
    ensures Run(s, evs[..k + 1]) == Next(Run(s, evs[..k]), evs[k])
  {
    hide Next;
    assert evs[..k + 1][..k] == evs[..k];
  }

  lemma LateImageFirst(s0: State, e: Entry, f: Entry, letter: Letter, s4: State)
    requires s0 == State([], map["a" := [], "b" := []], {"a", "b"}, {}, {}, {}, {})
    requires letter == Letter("a", Whole([e]))
    requires s4 == State([e, f], map["a" := [e], "b" := []], {"a", "b"}, {Replicate(1, e), Replicate(2, f)},
                         {letter}, {Ack("a", 1)}, {})
    ensures Next(Next(Next(Next(s0, Write(e)), Ask("a", false)), Deliver("a", Replicate(1, e))), Write(f)) == s4
  {
    hide Majority, Loaded;
    var s1 := s0.(primary := [e], net := {Replicate(1, e)});
    assert Next(s0, Write(e)) == s1;
    var s2 := s1.(letters := {letter});
    assert Next(s1, Ask("a", false)) == s2;
    var s3 := s2.(logs := map["a" := [e], "b" := []], acked := {Ack("a", 1)});
    assert Next(s2, Deliver("a", Replicate(1, e))) == s3;
  }

  lemma LateImageLast(e: Entry, f: Entry, letter: Letter, s4: State, s7: State)
    requires letter == Letter("a", Whole([e]))
    requires s4 == State([e, f], map["a" := [e], "b" := []], {"a", "b"}, {Replicate(1, e), Replicate(2, f)},
                         {letter}, {Ack("a", 1)}, {})
    requires s7 == s4.(acked := {Ack("a", 1), Ack("a", 2)}, committed := {2})
    ensures Next(Next(Next(s4, Deliver("a", Replicate(2, f))), Commit(2)), Install(letter, 0)) == s7
  {
    hide Majority, AckersOf;
    var s5 := s4.(logs := map["a" := [e, f], "b" := []], acked := {Ack("a", 1), Ack("a", 2)});
    LateImageSecond(e, f, s4, s5);
    LateImageQuorum(s5);
    assert s5.committed + {2} == {2};
    assert Next(s5, Commit(2)) == s5.(committed := {2});
  }

  lemma LateImageSecond(e: Entry, f: Entry, s4: State, s5: State)
    requires s4.logs == map["a" := [e], "b" := []] && s4.up == {"a", "b"} && Replicate(2, f) in s4.net
             && s4.acked == {Ack("a", 1)}
    requires s5 == s4.(logs := map["a" := [e, f], "b" := []], acked := {Ack("a", 1), Ack("a", 2)})
    ensures Next(s4, Deliver("a", Replicate(2, f))) == s5
  {
    assert Received([e], Replicate(2, f)) == [e, f];
    assert s4.logs["a" := [e, f]] == s5.logs;
  }

  lemma LateImageQuorum(s: State)
    requires s.acked == {Ack("a", 1), Ack("a", 2)} && |s.logs| == 2
    ensures Majority(AckersOf(s, 2), |s.logs|)
  {
    assert Ack("a", 2) in s.acked && Ack("a", 2).who in AckersOf(s, 2);
    assert AckersOf(s, 2) == {"a"};
  }

  lemma LateImageRun(s0: State, evs: seq<Event>, e: Entry, f: Entry, letter: Letter)
    requires s0 == State([], map["a" := [], "b" := []], {"a", "b"}, {}, {}, {}, {})
    requires letter == Letter("a", Whole([e]))
    requires evs == [Write(e), Ask("a", false), Deliver("a", Replicate(1, e)), Write(f),
                     Deliver("a", Replicate(2, f)), Commit(2), Install(letter, 0)]
    ensures var t := Run(s0, evs);
            2 in t.committed && Freshest(t, "p", {"a", "b"}, "a") && |LogAt(t, "p", "a")| == 1
  {
    hide Run, Next;
    var s4 := State([e, f], map["a" := [e], "b" := []], {"a", "b"}, {Replicate(1, e), Replicate(2, f)},
                    {letter}, {Ack("a", 1)}, {});
    LateImageFirst(s0, e, f, letter, s4);
    LateImageLast(e, f, letter, s4, s4.(acked := {Ack("a", 1), Ack("a", 2)}, committed := {2}));
    RunNone(s0, evs);
    RunLast(s0, evs, 0);
    RunLast(s0, evs, 1);
    RunLast(s0, evs, 2);
    RunLast(s0, evs, 3);
    RunLast(s0, evs, 4);
    RunLast(s0, evs, 5);
    RunLast(s0, evs, 6);
    assert evs[..7] == evs;
  }

  lemma RunNone(s: State, evs: seq<Event>)
    ensures Run(s, evs[..0]) == s
  {
  }

  // ----- compensation -----

  /** The step gives the acknowledgement, for the first time or again. */
  ghost predicate Acknowledges(s: State, ev: Event, a: Ack) {
    && ev.Deliver? && ev.id in s.up && ev.id in s.logs && ev.m in s.net && Accepts(s.logs[ev.id], ev.m)
    && a == Ack(ev.id, ev.m.lsn)
  }

  /** The replica reads as the primary does; if the primary's last operation takes back the one before it,
      both read as before the two. */
  ghost predicate Agrees(s: State, id: Id) {
    && id in s.logs && s.logs[id] == s.primary
    && var p := s.primary;
       |p| >= 2 ==>
         var before, e := p[..|p| - 2], p[|p| - 2];
         (e.code == WAL_PUT || e.code == WAL_DELETE)
         && p[|p| - 1] == Undo(Replay(map[], before), e.row, e.col) ==>
           SameCells(Replay(map[], s.logs[id]), Replay(map[], before))
  }

  lemma FullLogAgrees(s: State, id: Id)
    requires Inv(s) && id in s.logs && |s.primary| <= |s.logs[id]|
    ensures Agrees(s, id)
  {
    hide Sound, Majority, Replay, SameCells, Undo;
    var p := s.primary;
    if |p| >= 2 {
      var before, e := p[..|p| - 2], p[|p| - 2];
      if (e.code == WAL_PUT || e.code == WAL_DELETE) && p[|p| - 1] == Undo(Replay(map[], before), e.row, e.col) {
        assert p == (before + [e]) + [p[|p| - 1]];
        ReplayOne(map[], before, e);
        ReplayOne(map[], before + [e], p[|p| - 1]);
        UndoRestores(Replay(map[], before), e);
      }
    }
  }

  /** In every run, a replica that acknowledges the primary's last operation agrees with the primary at that
      moment cell for cell; when that operation is a compensation, both read as before the write. */
  lemma CompensationReaches(s: State, evs: seq<Event>, ev: Event, a: Ack)
    requires Init(s) && Acknowledges(Run(s, evs), ev, a) && a.lsn == |Run(s, evs).primary|
    ensures Agrees(Next(Run(s, evs), ev), a.who)
  {
    hide Init, Sound, Run, Majority, Replay, SameCells, Undo, Agrees, AckersOf;
    InvAlways(s, evs);
    InvKept(Run(s, evs), ev);
    FullLogAgrees(Next(Run(s, evs), ev), a.who);
  }

  /** It goes on agreeing while the acknowledgement stays true. */
  lemma CompensationStays(s: State, evs: seq<Event>, id: Id)
    requires Init(s) && id in Run(s, evs).logs && |Run(s, evs).primary| <= |Run(s, evs).logs[id]|
    ensures Agrees(Run(s, evs), id)
  {
    hide Init, Run, Inv, Agrees;
    InvAlways(s, evs);
    FullLogAgrees(Run(s, evs), id);
  }

  // ----- the steps are what the replication manager does -----

  /** A replica that stands for the log `hist` answers and moves as the step system says. */
  method Receive(r: ReplicationManager, m: Message, ghost hist: seq<Entry>) returns (ok: bool)
    requires r.Valid() && Proper(m.entry) && m.lsn < U64 && |hist| + 1 < U64 && r.tablet.HasLog(hist)
    modifies r`lastReplLsn, r.tablet, r.tablet.bloom.bits
    ensures r.Valid() && r.tablet == old(r.tablet)
    ensures ok <==> Accepts(hist, m)
    ensures r.tablet.HasLog(Received(hist, m))
  {
    hide Steps, LogOf, Proper;
    LogOfMeans(r.tablet.base, r.tablet.ops, hist);
    ok := r.ApplyReplicate(m);
    if m.lsn == |hist| + 1 {
      LogOfGrows(old(r.tablet.base), old(r.tablet.ops), hist, m.entry);
    }
  }

  /** The bytes on the wire stand for an answer. */
  ghost predicate Carries(resp: SyncResponse, a: Answer, rs: seq<RowImage>, version: nat) {
    match a
    case Records(after, es) =>
      resp == Delta(EncodeDelta(after, after + 1, es)) && after + 1 + |es| < U64 && ProperLog(es)
    case Whole(log) =>
      && resp == Snapshot(EncodeSnapshot(|log|, version, rs)) && |log| < U64 && version < U64 && ProperLog(log)
      && FitsTable(Replay(map[], log)) && ListsRows(Replay(map[], log), rs)
  }

  /** Records that are skipped must have lengths that sum to less than 2^32, see `LateDeltaExactly`. */
  method Load(r: ReplicationManager, resp: SyncResponse, ghost a: Answer, ghost hist: seq<Entry>,
              ghost rs: seq<RowImage>, ghost version: nat)
    returns (ok: bool)
    requires r.Valid() && r.tablet.HasLog(hist) && Carries(resp, a, rs, version)
    requires a.Records? ==> forall i :: 0 <= i < |a.entries| && a.after + 1 + i <= |hist| ==>
             Payload(a.entries[i]) < U32
    modifies r`lastReplLsn, r.tablet, r.tablet.bloom.bits
    ensures r.Valid() && r.tablet == old(r.tablet)
    ensures ok <==> (a.Records? ==> a.after <= |hist| || a.entries == [])
    ensures r.tablet.HasLog(Loaded(hist, a, if a.Records? then |a.entries| else 0))
  {
    hide Steps, EncodeLog, LoadImage, Covered, ShortStrings, ListsRows, EncodeDelta, EncodeSnapshot, DecodeSnapshot,
         ApplyDelta, FitsTable, FilterOf, EncodeCkpt, LogOf;
    LogOfMeans(r.tablet.base, r.tablet.ops, hist);
    LogOfParts(r.tablet.base, r.tablet.ops, hist);
    if a.Records? {
      DeltaLoaded(a.after, |hist|, a.entries);
    } else {
      SnapshotRoundTrip(Replay(map[], a.log), rs, |a.log|, version);
    }
    ok := r.SyncFromPrimary(resp);
    if a.Records? {
      RecordsLoaded(r.tablet.base, old(r.tablet.ops), hist, a);
    } else {
      WholeLoaded(r.tablet.base, a.log);
    }
  }

  lemma RecordsLoaded(base: TabletImage.Image, ops: seq<Entry>, hist: seq<Entry>, a: Answer)
    requires LogOf(base, ops, hist) && a.Records? && ProperLog(a.entries) && a.after + 1 + |a.entries| < U64
    ensures a.after <= |hist| ==>
              LogOf(base, ops + a.entries[if |hist| - a.after <= |a.entries| then |hist| - a.after else |a.entries|..],
                    Loaded(hist, a, |a.entries|))
    ensures |hist| < a.after ==> LogOf(base, ops, Loaded(hist, a, |a.entries|)) && ops + [] == ops
  {
    hide Replay, Proper;
    if a.after <= |hist| <= a.after + |a.entries| {
      var missing := a.entries[|hist| - a.after..];
      assert (hist + missing)[..base.lsn] == hist[..base.lsn];
      assert (hist + missing)[base.lsn..] == hist[base.lsn..] + missing;
    } else {
      assert a.entries[|a.entries|..] == [] && ops + [] == ops;
    }
  }

  lemma WholeLoaded(m: TabletImage.Image, log: seq<Entry>)
    requires |log| < U64 && ProperLog(log) && m.rows == Replay(map[], log) && m.lsn == |log|
    ensures LogOf(m, [], log)
  {
    hide Replay, Proper;
    assert log[..|log|] == log;
  }

  /** The step system after a replicated write: one write, or on a missed quorum the write of the
      compensation behind it. */
  function Mirror(s: State, e: Entry, st: Status): State {
    var once := Next(s, Write(e));
    if st == OK then once else Next(once, Write(Undo(Replay(map[], s.primary), e.row, e.col)))
  }

  /** However the run goes on, once these replicas' acknowledgements of LSN n are recorded n can be committed. */
  ghost predicate Committable(t: State, n: nat, acks: set<Id>) {
    forall evs :: (forall id :: id in acks ==> Ack(id, n) in Run(t, evs).acked) ==>
      n in Next(Run(t, evs), Commit(n)).committed
  }

  /** A replicated put is a write of the step system, on a missed quorum with its compensation; what was
      broadcast is on the step system's net, and an OK can be committed. */
  method Put(m: ReplicationManager, row: Data, col: Data, val: Data, ghost s: State)
    returns (st: Status, ghost acks: set<Id>, ghost t: State)
    requires m.Valid() && m.isPrimary && m.tablet.HasLog(s.primary) && |s.primary| + 2 < U64
    requires |row| < U32 && |col| < U32 && |val| < U32
    modifies m, m.tablet, m.tablet.bloom.bits
    ensures m.Valid() && m.tablet == old(m.tablet) && m.tablet.HasLog(t.primary)
    ensures st == OK || st == QuorumUnavailable
    ensures t == Mirror(s, PutEntry(row, col, val), st)
    ensures old(m.sent) <= m.sent && forall i :: |old(m.sent)| <= i < |m.sent| ==> m.sent[i] in t.net
    ensures acks <= Ids(m.replicas) && (st == OK <==> Majority(acks, |m.replicas|))
    ensures st == OK && |m.replicas| == |s.logs| ==> Committable(t, |s.primary| + 1, acks)
  {
    hide Steps, Step, LogOf, Proper, Majority, Replay, SameCells, Undo, Covered, ShortStrings, Mirror, EncodeLog,
      LoadImage, Committable;
    ghost var e := PutEntry(row, col, val);
    OldUndoProper(m.tablet.rows, e);
    MirrorStep(m.tablet.base, m.tablet.ops, s, e);
    st, acks := m.ReplicatedPut(row, col, val);
    t := Mirror(s, e, st);
    if st == OK && |m.replicas| == |s.logs| {
      OkCommits(t, |s.primary| + 1, acks);
    }
  }

  /** The same for compare-and-put, which is refused exactly on a mismatch and then changes nothing. */
  method Cput(m: ReplicationManager, row: Data, col: Data, expected: Data, val: Data, ghost s: State)
    returns (st: Status, ghost acks: set<Id>, ghost t: State)
    requires m.Valid() && m.isPrimary && m.tablet.HasLog(s.primary) && |s.primary| + 2 < U64
    requires |row| < U32 && |col| < U32 && |val| < U32
    modifies m, m.tablet, m.tablet.bloom.bits
    ensures m.Valid() && m.tablet == old(m.tablet) && m.tablet.HasLog(t.primary)
    ensures st == OK || st == QuorumUnavailable || st == Mismatch
    ensures st == Mismatch <==> Lookup(Replay(map[], s.primary), row, col) != Some(expected)
    ensures t == if st == Mismatch then s else Mirror(s, PutEntry(row, col, val), st)
    ensures old(m.sent) <= m.sent && forall i :: |old(m.sent)| <= i < |m.sent| ==> m.sent[i] in t.net
    ensures st != Mismatch ==> acks <= Ids(m.replicas) && (st == OK <==> Majority(acks, |m.replicas|))
    ensures st == OK && |m.replicas| == |s.logs| ==> Committable(t, |s.primary| + 1, acks)
  {
    hide Steps, Step, LogOf, Proper, Majority, Replay, SameCells, Undo, Covered, ShortStrings, Mirror, EncodeLog,
      LoadImage, Committable, Lookup;
    ghost var e := PutEntry(row, col, val);
    OldUndoProper(m.tablet.rows, e);
    MirrorStep(m.tablet.base, m.tablet.ops, s, e);
    st, acks := m.ReplicatedCput(row, col, expected, val);
    t := if st == Mismatch then s else Mirror(s, e, st);
    if st == OK && |m.replicas| == |s.logs| {
      OkCommits(t, |s.primary| + 1, acks);
    }
  }

  /** The same for a delete; one of a missing cell is answered OK and writes nothing. */
  method Delete(m: ReplicationManager, row: Data, col: Data, ghost s: State)
    returns (st: Status, ghost acks: set<Id>, ghost t: State)
    requires m.Valid() && m.isPrimary && m.tablet.HasLog(s.primary) && |s.primary| + 2 < U64
    requires |row| < U32 && |col| < U32
    modifies m, m.tablet, m.tablet.bloom.bits
    ensures m.Valid() && m.tablet == old(m.tablet) && m.tablet.HasLog(t.primary)
    ensures st == OK || st == QuorumUnavailable
    ensures var there := Lookup(Replay(map[], s.primary), row, col).Some?;
            && t == (if there then Mirror(s, DeleteEntry(row, col), st) else s)
            && (there ==> acks <= Ids(m.replicas) && (st == OK <==> Majority(acks, |m.replicas|)))
            && (!there ==> st == OK)
            && (there && st == OK && |m.replicas| == |s.logs| ==> Committable(t, |s.primary| + 1, acks))
    ensures old(m.sent) <= m.sent && forall i :: |old(m.sent)| <= i < |m.sent| ==> m.sent[i] in t.net
  {
    hide Steps, Step, LogOf, Proper, Majority, Replay, SameCells, Undo, Covered, ShortStrings, Mirror, EncodeLog,
      LoadImage, Committable, Lookup;
    ghost var e := DeleteEntry(row, col);
    ghost var there := Lookup(m.tablet.rows, row, col).Some?;
    OldUndoProper(m.tablet.rows, e);
    MirrorStep(m.tablet.base, m.tablet.ops, s, e);
    st, acks := m.ReplicatedDelete(row, col);
    t := if there then Mirror(s, e, st) else s;
    if there && st == OK && |m.replicas| == |s.logs| {
      OkCommits(t, |s.primary| + 1, acks);
    }
  }

  /** What the tablet's history and the net have become after a write with either outcome. */
  lemma MirrorStep(base: TabletImage.Image, ops: seq<Entry>, s: State, e: Entry)
    requires LogOf(base, ops, s.primary) && |s.primary| + 2 < U64 && Proper(e)
    requires Proper(Undo(Steps(base, ops).rows, e.row, e.col))
    ensures var m := Steps(base, ops);
            var undo := Undo(m.rows, e.row, e.col);
            && m.rows == Replay(map[], s.primary) && m.lsn == |s.primary|
            && LogOf(base, ops + [e], Mirror(s, e, OK).primary)
            && LogOf(base, ops + [e] + [undo], Mirror(s, e, QuorumUnavailable).primary)
            && Step(m, e).lsn == |s.primary| + 1 && Step(Step(m, e), undo).lsn == |s.primary| + 2
            && Replicate(|s.primary| + 1, e) in Mirror(s, e, OK).net * Mirror(s, e, QuorumUnavailable).net
            && Replicate(|s.primary| + 2, undo) in Mirror(s, e, QuorumUnavailable).net
            && |Mirror(s, e, OK).primary| == |s.primary| + 1 && |Mirror(s, e, OK).logs| == |s.logs|
  {
    hide Steps, Step, LogOf, Proper, Replay, Undo;
    LogOfMeans(base, ops, s.primary);
    var undo := Undo(Steps(base, ops).rows, e.row, e.col);
    NextLsn(Steps(base, ops), e);
    NextLsn(Step(Steps(base, ops), e), undo);
    LogOfGrows(base, ops, s.primary, e);
    LogOfGrows(base, ops + [e], s.primary + [e], undo);
  }

  lemma NextLsn(m: TabletImage.Image, e: Entry)
    requires m.lsn + 1 < U64
    ensures Step(m, e).lsn == m.lsn + 1
  {
    hide FilterAfter, ApplyEntry;
  }

  lemma OldUndoProper(t: Rows, e: Entry)
    requires ShortStrings(t) && |e.row| < U32 && |e.col| < U32 && |e.val| < U32
    requires e.code == WAL_PUT || (e.code == WAL_DELETE && e.val == [])
    ensures Proper(e) && Proper(Undo(t, e.row, e.col))
  {
  }

  // ----- an OK is a commit -----

  lemma {:induction false} RunShape(t: State, evs: seq<Event>)
    ensures t.primary <= Run(t, evs).primary && t.logs.Keys == Run(t, evs).logs.Keys
  {
    hide Next;
    if evs != [] {
      RunShape(t, evs[..|evs| - 1]);
      StepShape(Run(t, evs[..|evs| - 1]), evs[|evs| - 1]);
    }
  }

  lemma OkCommits(t: State, n: nat, acks: set<Id>)
    requires 1 <= n <= |t.primary| && Majority(acks, |t.logs|)
    ensures Committable(t, n, acks)
  {
    hide Run;
    forall evs | forall id :: id in acks ==> Ack(id, n) in Run(t, evs).acked
      ensures n in Next(Run(t, evs), Commit(n)).committed
    {
      var u := Run(t, evs);
      RunShape(t, evs);
      assert |u.logs| == |u.logs.Keys| == |t.logs.Keys| == |t.logs|;
      forall id | id in acks
        ensures id in AckersOf(u, n)
      {
        assert Ack(id, n) in u.acked && Ack(id, n).who == id;
      }
      CardinalityMonotone(acks, AckersOf(u, n));
    }
  }

  function Deliveries(order: seq<Id>, m: Message): (evs: seq<Event>)
    ensures |evs| == |order|
  {
    if order == [] then [] else Deliveries(order[..|order| - 1], m) + [Deliver(order[|order| - 1], m)]
  }

  /** Replicas that would answer yes to a message are recorded when it reaches them, in any order. */
  lemma {:induction false} DeliveriesRecorded(t: State, order: seq<Id>, m: Message)
    requires m in t.net
    requires forall id :: id in order ==> id in t.up && id in t.logs && Accepts(t.logs[id], m)
    ensures var u := Run(t, Deliveries(order, m));
            && u.up == t.up && u.net == t.net && u.logs.Keys == t.logs.Keys
            && (forall id :: id in order ==> Ack(id, m.lsn) in u.acked)
            && (forall id :: id in t.logs && Accepts(t.logs[id], m) ==> Accepts(u.logs[id], m))
  {
    if order != [] {
      var init, last := order[..|order| - 1], order[|order| - 1];
      assert forall id :: id in order <==> id in init || id == last;
      DeliveriesRecorded(t, init, m);
      assert Deliveries(order, m)[..|order| - 1] == Deliveries(init, m);
    }
  }

  /** When the acknowledgements behind an OK are the yes of replicas that the write reached, the write is
      committed. */
  lemma CommitFollows(t: State, m: Message, acks: set<Id>, order: seq<Id>)
    requires m in t.net && Committable(t, m.lsn, acks)
    requires forall id :: id in acks ==> id in order
    requires forall id :: id in order ==> id in t.up && id in t.logs && Accepts(t.logs[id], m)
    ensures m.lsn in Run(t, Deliveries(order, m) + [Commit(m.lsn)]).committed
  {
    hide Accepts, Next;
    DeliveriesRecorded(t, order, m);
    var evs := Deliveries(order, m) + [Commit(m.lsn)];
    assert evs[..|evs| - 1] == Deliveries(order, m);
  }

  /** A load of records that a crash cuts short: the files then hold whole records and a torn one, and the
      replica comes back as the step system says. */
  lemma CutLoad(ckpt: Option<Data>, base: TabletImage.Image, ops: seq<Entry>, hist: seq<Entry>, a: Answer, cut: nat,
                n: nat)
    requires LoadImage(ckpt) == Some(base) && FitsLog(ops) && LogOf(base, ops, hist) && a.Records?
             && ProperLog(a.entries)
    requires a.after + 1 + |a.entries| < U64 && a.after <= |hist| && |hist| + cut < a.after + |a.entries|
    requires forall i :: 0 <= i < |a.entries| && a.after + 1 + i <= |hist| ==> Payload(a.entries[i]) < U32
    ensures var due := ApplyDelta(EncodeDelta(a.after, a.after + 1, a.entries), |hist|).applied;
            && cut < |due|
            && (n < |EncodeEntry(due[cut])| ==>
                  var back := RecoverImage(ckpt, EncodeLog(ops + due[..cut]) + EncodeEntry(due[cut])[..n]);
                  && back.Some? && back.value.rows == Replay(map[], Loaded(hist, a, cut))
                  && back.value.lsn == |Loaded(hist, a, cut)|)
  {
    hide ApplyDelta, EncodeDelta, EncodeLog, EncodeEntry, LoadImage, RecoverImage, Steps, Replay, Proper;
    DeltaLoaded(a.after, |hist|, a.entries);
    var due := a.entries[|hist| - a.after..];
    CutLog(base, ops, hist, a, due, cut);
    FitsBoth(ops, due, cut);
    if n < |EncodeEntry(due[cut])| {
      CrashDuringAppend(ckpt, base, ops + due[..cut], due[cut], n);
      LogOfMeans(base, ops + due[..cut], Loaded(hist, a, cut));
    }
  }

  lemma CutLog(base: TabletImage.Image, ops: seq<Entry>, hist: seq<Entry>, a: Answer, due: seq<Entry>, cut: nat)
    requires LogOf(base, ops, hist) && a.Records? && ProperLog(a.entries) && a.after + 1 + |a.entries| < U64
    requires a.after <= |hist| && |hist| + cut < a.after + |a.entries| && due == a.entries[|hist| - a.after..]
    ensures LogOf(base, ops + due[..cut], Loaded(hist, a, cut))
  {
    hide Replay, Proper;
    assert Loaded(hist, a, cut) == hist + due[..cut];
    assert (hist + due[..cut])[..base.lsn] == hist[..base.lsn];
    assert (hist + due[..cut])[base.lsn..] == hist[base.lsn..] + due[..cut];
  }

  lemma FitsBoth(ops: seq<Entry>, due: seq<Entry>, cut: nat)
    requires FitsLog(ops) && ProperLog(due) && cut < |due|
    ensures FitsLog(ops + due[..cut]) && FitsEntry(due[cut])
  {
    hide FitsEntry;
    forall i | 0 <= i < |due|
      ensures FitsEntry(due[i])
    {
      ProperFits(due[i]);
    }
  }
}
