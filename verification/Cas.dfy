/** Lists in one KV column, edited by any number of clients with compare-and-put loops
    (frontend/src/fe_server.cc:5448-5490, 5916-5930; frontend/src/handlers_mail.cc:156-213).

    A compare-and-put is one atomic step on the column. Its reply may be lost, and a client whose reply
    was lost sends it again. The folder mirror column "index" is not part of this model.
 */
module Cas {
  import opened Bytes
  import opened Csv
  import opened Listing

  /** What a client wants done: `append_csv_item_cas` (at the back, or at the front with prepend),
      `prepend_uid_to_folder`, and `remove_child` or `remove_uid_from_folder`. */
  datatype Op = Add(item: string, prepend: bool, max: nat) | Push(item: string) | Remove(item: string)

  function WithoutFirst(items: Items, x: string): Items {
    if items == [] then []
    else if items[0] == x then items[1..]
    else [items[0]] + WithoutFirst(items[1..], x)
  }

  function Trimmed(items: Items, prepend: bool, max: nat): Items {
    if max > 0 && |items| > max then
      if prepend then items[..max] else items[|items| - max..]
    else items
  }

  function EditItems(op: Op, items: Items): Items {
    match op
    case Add(x, prepend, max) =>
      if x in items && !prepend then items
      else Trimmed(if prepend then [x] + WithoutFirst(items, x) else items + [x], prepend, max)
    case Push(x) => [x] + Without(items, x)
    case Remove(x) => Without(items, x)
  }

  /** An edit that finds nothing to do leaves the text as it is, even if it is oddly spelled. */
  function EditText(op: Op, text: string): string {
    var items := Split(text);
    if (op.Add? && !op.prepend && op.item in items) || (op.Remove? && op.item !in items) then text
    else Join(EditItems(op, items))
  }

  function Fold(start: string, log: seq<Op>): string {
    if log == [] then start else EditText(log[|log| - 1], Fold(start, log[..|log| - 1]))
  }

  /** The edit may make x disappear: it removes x, or it trims the list. */
  predicate Drops(op: Op, x: string) {
    (op.Remove? && op.item == x) || (op.Add? && op.max > 0)
  }

  /** What an edit is for. */
  predicate Achieved(op: Op, items: Items) {
    if op.Remove? then op.item !in items else op.item in items
  }

  // ----- one edit -----

  lemma {:induction false} WithoutFirstMembers(items: Items, x: string)
    ensures forall y :: y in items && y != x ==> y in WithoutFirst(items, x)
    ensures forall y :: y in WithoutFirst(items, x) ==> y in items
    ensures Distinct(items) ==> Distinct(WithoutFirst(items, x)) && x !in WithoutFirst(items, x)
    ensures AllPlain(items) ==> AllPlain(WithoutFirst(items, x))
  {
    if items != [] {
      WithoutFirstMembers(items[1..], x);
      assert forall y :: y in items <==> y == items[0] || y in items[1..];
      if Distinct(items) {
        assert Distinct(items[1..]) && items[0] !in items[1..];
      }
    }
  }

  lemma PlainMembers(items: Items, some: Items)
    requires AllPlain(items) && forall y :: y in some ==> y in items
    ensures AllPlain(some)
  {
    forall i | 0 <= i < |some|
      ensures Plain(some[i])
    {
      assert some[i] in some && some[i] in items;
    }
  }

  lemma EditPlain(op: Op, items: Items)
    requires AllPlain(items) && Plain(op.item)
    ensures AllPlain(EditItems(op, items))
  {
    hide Trimmed, Without, WithoutFirst, Plain, AllPlain;
    var x := op.item;
    WithoutMembers(items, x);
    WithoutFirstMembers(items, x);
    match op
    case Add(_, prepend, max) =>
      var all := if prepend then [x] + WithoutFirst(items, x) else items + [x];
      PlainOneMore(items, x, all);
      TrimmedIn(all, prepend, max);
      PlainMembers(all, Trimmed(all, prepend, max));
    case Push(_) => PlainOneMore(items, x, [x] + Without(items, x));
    case Remove(_) => PlainMembers(items, Without(items, x));
  }

  lemma PlainOneMore(items: Items, x: string, all: Items)
    requires AllPlain(items) && Plain(x) && forall y :: y in all ==> y == x || y in items
    ensures AllPlain(all)
  {
    forall i | 0 <= i < |all|
      ensures Plain(all[i])
    {
      assert all[i] in all;
      if all[i] != x {
        var k :| 0 <= k < |items| && items[k] == all[i];
      }
    }
  }

  lemma TrimmedIn(items: Items, prepend: bool, max: nat)
    ensures forall y :: y in Trimmed(items, prepend, max) ==> y in items
  {
  }

  lemma EditDistinct(op: Op, items: Items)
    requires Distinct(items)
    ensures Distinct(EditItems(op, items))
  {
    hide Distinct, Trimmed;
    var x := op.item;
    WithoutMembers(items, x);
    WithoutFirstMembers(items, x);
    match op
    case Add(_, prepend, max) =>
      if !(x in items && !prepend) {
        var all := if prepend then [x] + WithoutFirst(items, x) else items + [x];
        if prepend { FrontDistinct(x, WithoutFirst(items, x)); } else { BackDistinct(items, x); }
        TrimmedDistinct(all, prepend, max);
      }
    case Push(_) => FrontDistinct(x, Without(items, x));
    case Remove(_) =>
  }

  lemma FrontDistinct(x: string, items: Items)
    requires Distinct(items) && x !in items
    ensures Distinct([x] + items)
  {
  }

  lemma BackDistinct(items: Items, x: string)
    requires Distinct(items) && x !in items
    ensures Distinct(items + [x])
  {
  }

  lemma TrimmedDistinct(items: Items, prepend: bool, max: nat)
    requires Distinct(items)
    ensures Distinct(Trimmed(items, prepend, max))
  {
  }

  lemma EditAchieves(op: Op, items: Items)
    ensures Achieved(op, EditItems(op, items))
  {
    WithoutMembers(items, op.item);
    if op.Add? && !(op.item in items && !op.prepend) {
      var all := if op.prepend then [op.item] + WithoutFirst(items, op.item) else items + [op.item];
      var t := Trimmed(all, op.prepend, op.max);
      assert t[if op.prepend then 0 else |t| - 1] == op.item;
    }
  }

  lemma EditKeeps(op: Op, items: Items, x: string)
    requires x in items && !Drops(op, x)
    ensures x in EditItems(op, items)
  {
    WithoutMembers(items, op.item);
    WithoutFirstMembers(items, op.item);
  }

  /** On plain items the text edit is the list edit. */
  lemma EditSplit(op: Op, text: string)
    requires Plain(op.item)
    ensures Split(EditText(op, text)) == EditItems(op, Split(text))
  {
    hide Split, Join, Plain, AllPlain;
    var items := Split(text);
    SplitIsPlain(text);
    EditPlain(op, items);
    RoundTrip(EditItems(op, items));
    if op.Remove? && op.item !in items {
      WithoutMembers(items, op.item);
    }
  }

  // ----- a log of edits -----

  predicate PlainLog(log: seq<Op>) {
    forall i :: 0 <= i < |log| ==> Plain(log[i].item)
  }

  lemma FoldOneMore(start: string, log: seq<Op>, op: Op)
    ensures Fold(start, log + [op]) == EditText(op, Fold(start, log))
  {
    hide EditText;
    assert (log + [op])[..|log|] == log;
  }

  lemma {:induction false} FoldDistinct(start: string, log: seq<Op>)
    requires PlainLog(log) && Distinct(Split(start))
    ensures Distinct(Split(Fold(start, log)))
  {
    hide EditText, EditItems, Distinct, Split;
    if log != [] {
      var init, op := log[..|log| - 1], log[|log| - 1];
      FoldDistinct(start, init);
      EditSplit(op, Fold(start, init));
      EditDistinct(op, Split(Fold(start, init)));
    }
  }

  /** An item present after k edits stays unless a later one drops it. */
  lemma {:induction false} FoldKeeps(start: string, log: seq<Op>, k: nat, x: string)
    requires PlainLog(log) && k <= |log| && x in Split(Fold(start, log[..k]))
    requires forall j :: k <= j < |log| ==> !Drops(log[j], x)
    ensures x in Split(Fold(start, log))
    decreases |log|
  {
    hide EditText, EditItems, Split, Drops, Fold;
    if k == |log| {
      assert log[..k] == log;
    } else {
      var init, op := log[..|log| - 1], log[|log| - 1];
      assert init[..k] == log[..k] && init + [op] == log;
      FoldKeeps(start, init, k, x);
      FoldOneMore(start, init, op);
      EditSplit(op, Fold(start, init));
      EditKeeps(op, Split(Fold(start, init)), x);
    }
  }

  // ----- any number of clients -----

  /** Where a client's loop is: about to read, holding what it read, about to create a missing column, or
      returned. `at` is the number of edits done when it learned that it is finished. */
  datatype Client =
    Reading(op: Op) | Holding(op: Op, seen: string) | Creating(op: Op) | Returned(op: Op, ok: bool, at: nat)

  datatype World = World(value: Option<string>, log: seq<Op>, clients: map<nat, Client>)

  datatype Event = Start(c: nat, op: Op) | Read(c: nat) | Commit(c: nat, reply: bool) | Create(c: nat) | GiveUp(c: nat)

  /** Reading shows that there is nothing to write. */
  predicate Settled(op: Op, text: string) {
    EditText(op, text) == text
  }

  function AfterRead(op: Op, value: Option<string>, at: nat): Client {
    match value
    case None => if op.Remove? then Returned(op, true, at) else Creating(op)
    case Some(text) => if Settled(op, text) then Returned(op, true, at) else Holding(op, text)
  }

  /** An event that is not possible changes nothing. A client that has read may read again (a lost reply,
      a refused put) or send its compare-and-put again. */
  function Next(w: World, ev: Event): World {
    if ev.Start? then
      if ev.c in w.clients then w else w.(clients := w.clients[ev.c := Reading(ev.op)])
    else if ev.c !in w.clients then w
    else
      var client := w.clients[ev.c];
      match ev
      case Start(_, _) => w
      case Read(c) =>
        if client.Returned? then w else w.(clients := w.clients[c := AfterRead(client.op, w.value, |w.log|)])
      case Commit(c, reply) =>
        if client.Holding? && w.value == Some(client.seen) then
          World(Some(EditText(client.op, client.seen)), w.log + [client.op],
                if reply then w.clients[c := Returned(client.op, true, |w.log| + 1)] else w.clients)
        else w
      case Create(c) =>
        if client.Creating? then
          w.(value := Some(EditText(client.op, "")), clients := w.clients[c := Reading(client.op)])
        else w
      case GiveUp(c) =>
        if client.Returned? then w else w.(clients := w.clients[c := Returned(client.op, false, |w.log|)])
  }

  function Run(w: World, evs: seq<Event>): World {
    if evs == [] then w else Next(Run(w, evs[..|evs| - 1]), evs[|evs| - 1])
  }

  predicate PlainEvent(ev: Event) {
    ev.Start? ==> Plain(ev.op.item)
  }

  /** Items are plain, and no client has learned of edits that are still to come. */
  ghost predicate PlainWorld(w: World) {
    PlainLog(w.log) && forall c | c in w.clients ::
      Plain(w.clients[c].op.item) && (w.clients[c].Returned? ==> w.clients[c].at <= |w.log|)
  }

  /** The column holds `text` put through the edits from `base` on, and the clients that returned since then
      had what they asked for when they learned of it. */
  ghost predicate Inv(w: World, text: string, base: nat, early: set<nat>) {
    && PlainWorld(w) && base <= |w.log| && w.value == Some(Fold(text, w.log[base..]))
    && (forall c | c in early :: c in w.clients && w.clients[c].Returned?)
    && forall c | c in w.clients && c !in early ::
         var client := w.clients[c];
         client.Returned? && client.ok ==>
           base <= client.at && Achieved(client.op, Split(Fold(text, w.log[base..client.at])))
  }

  /** The plain put of a client that saw no column. */
  predicate Creates(w: World, ev: Event) {
    ev.Create? && ev.c in w.clients && w.clients[ev.c].Creating?
  }

  ghost predicate NoCreates(w: World, evs: seq<Event>) {
    evs == [] || (NoCreates(w, evs[..|evs| - 1]) && !Creates(Run(w, evs[..|evs| - 1]), evs[|evs| - 1]))
  }

  lemma SettledAchieved(op: Op, text: string)
    requires Plain(op.item) && Settled(op, text)
    ensures Achieved(op, Split(text))
  {
    hide Split, EditText, Achieved;
    EditSplit(op, text);
    EditAchieves(op, Split(text));
  }

  lemma CommitAchieved(start: string, log: seq<Op>, op: Op)
    requires Plain(op.item)
    ensures Achieved(op, Split(Fold(start, log + [op])))
  {
    hide Split, EditText, Achieved, Fold;
    FoldOneMore(start, log, op);
    EditSplit(op, Fold(start, log));
    EditAchieves(op, Split(Fold(start, log)));
  }

  lemma PlainKept(w: World, ev: Event)
    requires PlainWorld(w) && PlainEvent(ev)
    ensures PlainWorld(Next(w, ev)) && w.log <= Next(w, ev).log
  {
    hide Split, EditText, Settled, Plain;
  }

  lemma InvKept(w: World, ev: Event, text: string, base: nat, early: set<nat>)
    requires Inv(w, text, base, early) && PlainEvent(ev) && !Creates(w, ev)
    ensures Inv(Next(w, ev), text, base, early)
  {
    hide Split, EditText, Achieved, Fold, Settled, Plain;
    PlainKept(w, ev);
    assert w.log[base..|w.log|] == w.log[base..];
    if ev.c in w.clients {
      var client := w.clients[ev.c];
      FoldOneMore(text, w.log[base..], client.op);
      CommitAchieved(text, w.log[base..], client.op);
      assert forall k :: base <= k <= |w.log| ==> (w.log + [client.op])[base..k] == w.log[base..k];
      assert (w.log + [client.op])[base..|w.log| + 1] == w.log[base..] + [client.op];
      assert (w.log + [client.op])[base..] == w.log[base..] + [client.op];
      if Settled(client.op, w.value.value) {
        SettledAchieved(client.op, w.value.value);
      }
    }
  }

  ghost predicate PlainRun(evs: seq<Event>) {
    forall i :: 0 <= i < |evs| ==> PlainEvent(evs[i])
  }

  lemma {:induction false} PlainAlways(w: World, evs: seq<Event>)
    requires PlainWorld(w) && PlainRun(evs)
    ensures PlainWorld(Run(w, evs))
  {
    hide PlainWorld, Next, PlainEvent;
    if evs != [] {
      PlainAlways(w, evs[..|evs| - 1]);
      PlainKept(Run(w, evs[..|evs| - 1]), evs[|evs| - 1]);
    }
  }

  lemma {:induction false} InvAlways(w: World, evs: seq<Event>, text: string, early: set<nat>)
    requires PlainRun(evs) && NoCreates(w, evs) && Inv(w, text, |w.log|, early)
    ensures Inv(Run(w, evs), text, |w.log|, early)
  {
    hide Inv, Next, PlainEvent, Creates;
    if evs != [] {
      InvAlways(w, evs[..|evs| - 1], text, early);
      InvKept(Run(w, evs[..|evs| - 1]), evs[|evs| - 1], text, |w.log|, early);
    }
  }

  function ReturnedIn(w: World): set<nat> {
    set c | c in w.clients && w.clients[c].Returned?
  }

  lemma InvStart(w: World, text: string)
    requires PlainWorld(w) && w.value == Some(text)
    ensures Inv(w, text, |w.log|, ReturnedIn(w))
  {
    assert w.log[|w.log|..] == [];
    assert Fold(text, []) == text;
  }

  /** What a client was told it added is there, unless a later edit drops it. */
  ghost predicate AdditionKept(w: World, c: nat) {
    c in w.clients && w.clients[c].Returned? && w.clients[c].ok && !w.clients[c].op.Remove?
    && (forall j :: w.clients[c].at <= j < |w.log| ==> !Drops(w.log[j], w.clients[c].op.item))
    ==> w.value.Some? && w.clients[c].op.item in Split(w.value.value)
  }

  lemma InvKeepsAdditions(w: World, text: string, base: nat, early: set<nat>, c: nat)
    requires Inv(w, text, base, early) && c !in early
    ensures AdditionKept(w, c)
  {
    hide Split, Fold, Drops, EditText, Plain;
    if c in w.clients && w.clients[c].Returned? && w.clients[c].ok && !w.clients[c].op.Remove?
       && forall j :: w.clients[c].at <= j < |w.log| ==> !Drops(w.log[j], w.clients[c].op.item) {
      var log, k := w.log[base..], w.clients[c].at - base;
      assert log[..k] == w.log[base..w.clients[c].at];
      assert forall j :: 0 <= j < |log| ==> log[j] == w.log[base + j];
      FoldKeeps(text, log, k, w.clients[c].op.item);
    }
  }

  // ----- a column that exists -----

  ghost predicate NoCreator(w: World) {
    w.value.Some? && forall c | c in w.clients :: !w.clients[c].Creating?
  }

  lemma {:induction false} ExistingStays(w: World, evs: seq<Event>)
    requires NoCreator(w)
    ensures NoCreator(Run(w, evs)) && NoCreates(w, evs)
  {
    hide EditText, Settled;
    if evs != [] {
      ExistingStays(w, evs[..|evs| - 1]);
    }
  }

  /** On a column that exists, in every interleaving: the list is the start list put through the successful
      edits in their order, it stays free of duplicates, and what a client was told it added is there
      unless a later edit drops it. */
  lemma NoLostUpdates(start: string, evs: seq<Event>, c: nat)
    requires PlainRun(evs)
    ensures var w := Run(World(Some(start), [], map[]), evs);
            && w.value == Some(Fold(start, w.log)) && AdditionKept(w, c)
            && (Distinct(Split(start)) ==> Distinct(Split(w.value.value)))
  {
    hide Split, Fold, Next, Distinct, AdditionKept, EditText, Run;
    var w0 := World(Some(start), [], map[]);
    var w := Run(w0, evs);
    ExistingStays(w0, evs);
    InvStart(w0, start);
    assert ReturnedIn(w0) == {};
    InvAlways(w0, evs, start, {});
    assert w.log[0..] == w.log;
    InvKeepsAdditions(w, start, 0, {}, c);
    if Distinct(Split(start)) {
      FoldDistinct(start, w.log);
    }
  }

  // ----- a column that is created -----

  lemma {:induction false} RunConcat(w: World, evs: seq<Event>, more: seq<Event>)
    ensures Run(w, evs + more) == Run(Run(w, evs), more)
  {
    hide Next;
    if more == [] {
      assert evs + more == evs;
    } else {
      RunConcat(w, evs, more[..|more| - 1]);
      assert (evs + more)[..|evs + more| - 1] == evs + more[..|more| - 1];
    }
  }

  /** The state that a creation leaves: the column holds the creator's item alone. */
  lemma Created(w: World, ev: Event)
    requires Creates(w, ev) && PlainWorld(w)
    ensures PlainWorld(Next(w, ev)) && Next(w, ev).log == w.log && ReturnedIn(Next(w, ev)) == ReturnedIn(w)
    ensures Next(w, ev).value == Some(EditText(w.clients[ev.c].op, ""))
    ensures Distinct(Split(EditText(w.clients[ev.c].op, "")))
  {
    hide EditText, Split, Plain, Distinct;
    NoDuplicatesInNothing();
    EditSplit(w.clients[ev.c].op, "");
    EditDistinct(w.clients[ev.c].op, Split(""));
  }

  lemma NoDuplicatesInNothing()
    ensures Distinct(Split(""))
  {
  }

  /** From the last creation of the column on it is as if the column had existed with the created text: the
      list is that text put through the later edits, without duplicates, and what a client was told since
      then that it added is there unless a later edit drops it. */
  lemma CreationThenFold(start: Option<string>, before: seq<Event>, ev: Event, after: seq<Event>, c: nat)
    requires PlainRun(before) && PlainRun(after)
    requires Creates(Run(World(start, [], map[]), before), ev)
    requires NoCreates(Next(Run(World(start, [], map[]), before), ev), after)
    ensures var w1 := Run(World(start, [], map[]), before);
            var w := Run(World(start, [], map[]), before + [ev] + after);
            && |w1.log| <= |w.log|
            && w.value == Some(Fold(EditText(w1.clients[ev.c].op, ""), w.log[|w1.log|..]))
            && Distinct(Split(w.value.value))
            && (c !in ReturnedIn(w1) ==> AdditionKept(w, c))
  {
    hide Split, Fold, Distinct, AdditionKept, EditText, Run, Next, PlainWorld, Creates, NoCreates;
    var w0 := World(start, [], map[]);
    var w1 := Run(w0, before);
    PlainAtStart(start);
    PlainAlways(w0, before);
    Created(w1, ev);
    CreateIsOneStep(w0, before, ev);
    RunConcat(w0, before + [ev], after);
    var w2 := Next(w1, ev);
    InvStart(w2, w2.value.value);
    InvAlways(w2, after, w2.value.value, ReturnedIn(w2));
    var w := Run(w2, after);
    PlainTail(w, |w1.log|);
    FoldDistinct(w2.value.value, w.log[|w1.log|..]);
    if c !in ReturnedIn(w1) {
      InvKeepsAdditions(w, w2.value.value, |w1.log|, ReturnedIn(w2), c);
    }
  }

  lemma PlainTail(w: World, base: nat)
    requires PlainWorld(w) && base <= |w.log|
    ensures PlainLog(w.log[base..])
  {
    hide Plain;
  }

  lemma PlainAtStart(start: Option<string>)
    ensures PlainWorld(World(start, [], map[]))
  {
  }

  lemma CreateIsOneStep(w: World, evs: seq<Event>, ev: Event)
    ensures Run(w, evs + [ev]) == Next(Run(w, evs), ev)
  {
    hide Next;
    assert (evs + [ev])[..|evs|] == evs;
  }

  /** In every run from this column, everything acknowledged is kept. */
  ghost predicate AdditionsSurvive(start: Option<string>) {
    forall evs, c :: PlainRun(evs) ==> AdditionKept(Run(World(start, [], map[]), evs), c)
  }

  /** Acknowledged additions survive in every run exactly if the column exists at the start. */
  lemma AdditionsSurviveExactly(start: Option<string>)
    ensures AdditionsSurvive(start) <==> start.Some?
  {
    hide AdditionKept, Run, PlainRun;
    if start.Some? {
      forall evs, c | PlainRun(evs)
        ensures AdditionKept(Run(World(start, [], map[]), evs), c)
      {
        NoLostUpdates(start.value, evs, c);
      }
    } else {
      CreationLosesUpdate("a", "b");
      var evs :| PlainRun(evs) && !AdditionKept(Run(World(None, [], map[]), evs), 1);
    }
  }

  /** On a column that does not exist yet an acknowledged item can be lost: two clients see no column, the
      first creates it, reads it back and returns, and the second creates it over again. */
  lemma CreationLosesUpdate(x: string, y: string)
    requires Plain(x) && Plain(y) && x != y
    ensures exists evs: seq<Event> ::
              var w := Run(World(None, [], map[]), evs);
              && PlainRun(evs) && 1 in w.clients && w.clients[1] == Returned(Add(x, false, 0), true, 0)
              && w.log == [] && w.value.Some? && x !in Split(w.value.value) && !AdditionKept(w, 1)
  {
    hide Split, Plain, Run, AdditionKept, EditText, Settled;
    var a, b := Add(x, false, 0), Add(y, false, 0);
    var evs := [Start(1, a), Start(2, b), Read(1), Read(2), Create(1), Read(1), Create(2)];
    FirstItem(x);
    FirstItem(y);
    CreationRun(a, b, evs);
    ItemLost(Run(World(None, [], map[]), evs), a, y);
  }

  lemma ItemLost(w: World, a: Op, y: string)
    requires w.log == [] && 1 in w.clients && w.clients[1] == Returned(a, true, 0) && a.Add?
    requires w.value == Some(y) && Split(y) == [y] && a.item != y
    ensures !AdditionKept(w, 1) && a.item !in Split(y)
  {
    hide Split, Drops;
  }

  lemma FirstItem(x: string)
    requires Plain(x)
    ensures EditText(Add(x, false, 0), "") == x && Split(x) == [x] && Settled(Add(x, false, 0), x)
  {
    SplitOne(x);
    assert [] + [x] == [x];
    assert x in [x];
  }

  lemma CreationRun(a: Op, b: Op, evs: seq<Event>)
    requires a == Add(a.item, false, 0) && b == Add(b.item, false, 0)
    requires EditText(a, "") == a.item && EditText(b, "") == b.item && Settled(a, a.item)
    requires evs == [Start(1, a), Start(2, b), Read(1), Read(2), Create(1), Read(1), Create(2)]
    ensures Run(World(None, [], map[]), evs) == World(Some(b.item), [], map[1 := Returned(a, true, 0), 2 := Reading(b)])
  {
    hide EditText, Run, Settled, Next;
    var w0 := World(None, [], map[]);
    RunNone(w0, evs);
    RunLast(w0, evs, 0);
    RunLast(w0, evs, 1);
    RunLast(w0, evs, 2);
    RunLast(w0, evs, 3);
    RunLast(w0, evs, 4);
    RunLast(w0, evs, 5);
    RunLast(w0, evs, 6);
    assert evs[..7] == evs;
    CreationFirst(a, b);
    CreationLast(a, b);
  }

  lemma CreationFirst(a: Op, b: Op)
    requires a.Add? && b.Add?
    ensures Next(Next(Next(Next(World(None, [], map[]), Start(1, a)), Start(2, b)), Read(1)), Read(2))
            == World(None, [], map[1 := Creating(a), 2 := Creating(b)])
  {
    hide EditText, Settled;
    assert Next(Next(World(None, [], map[]), Start(1, a)), Start(2, b))
           == World(None, [], map[1 := Reading(a), 2 := Reading(b)]);
  }

  lemma CreationLast(a: Op, b: Op)
    requires EditText(a, "") == a.item && EditText(b, "") == b.item && Settled(a, a.item)
    ensures Next(Next(Next(World(None, [], map[1 := Creating(a), 2 := Creating(b)]), Create(1)), Read(1)), Create(2))
            == World(Some(b.item), [], map[1 := Returned(a, true, 0), 2 := Reading(b)])
  {
    hide EditText, Settled;
    var w := World(Some(a.item), [], map[1 := Reading(a), 2 := Creating(b)]);
    assert Next(World(None, [], map[1 := Creating(a), 2 := Creating(b)]), Create(1)) == w;
    assert Next(w, Read(1)) == w.(clients := map[1 := Returned(a, true, 0), 2 := Creating(b)]);
  }

  lemma RunNone(w: World, evs: seq<Event>)
    ensures Run(w, evs[..0]) == w
  {
  }

  lemma RunLast(w: World, evs: seq<Event>, k: nat)
    requires k < |evs|
    ensures Run(w, evs[..k + 1]) == Next(Run(w, evs[..k]), evs[k])
  {
    hide Next;
    assert evs[..k + 1][..k] == evs[..k];
  }

  // ----- the loops themselves -----

  datatype ReadStatus = Found(text: string) | Unavailable

  /** One existing column. Before each call other clients may have made any edits of theirs. `setbacks`
      counts the calls that brought nothing: reads that failed and puts that were refused or not heard of.
      `own` counts the writes that the puts of this client made, heard of or not. */
  class Column {
    var text: string
    ghost var log: seq<Op>
    ghost var setbacks: nat
    ghost var own: nat
    ghost const start: string

    ghost predicate Valid()
      reads this
    {
      text == Fold(start, log) && PlainLog(log)
    }

    constructor (text: string)
      ensures Valid() && this.text == start == text && log == []
    {
      this.text, this.log, this.start, this.setbacks, this.own := text, [], text, 0, 0;
    }

    method Others()
      requires Valid()
      modifies this`text, this`log
      ensures Valid() && old(log) <= log
    {
      hide EditText;
      var n: int := *;
      var i := 0;
      while i < n
        invariant Valid() && old(log) <= log
      {
        var op: Op := *;
        if Plain(op.item) {
          FoldOneMore(start, log, op);
          text, log := EditText(op, text), log + [op];
        }
        i := i + 1;
      }
    }

    method GetStatus() returns (st: ReadStatus)
      requires Valid()
      modifies this
      ensures Valid() && old(log) <= log && (st.Found? ==> st.text == text)
      ensures setbacks == old(setbacks) + (if st.Found? then 0 else 1) && own == old(own)
    {
      Others();
      var up: bool := *;
      st := if up then Found(text) else Unavailable;
      if !up { setbacks := setbacks + 1; }
    }

    /** `cput` with its retries: each arrival that finds the expected text writes the new one, whether or
        not the client hears of it. */
    method Cput(expected: string, next: string, ghost op: Op) returns (ok: bool)
      requires Valid() && next == EditText(op, expected) && Plain(op.item)
      modifies this
      ensures Valid() && old(log) <= log
      ensures ok ==> exists k :: |old(log)| < k <= |log| && log[k - 1] == op && Fold(start, log[..k]) == next
      ensures setbacks == old(setbacks) + (if ok then 0 else 1)
      ensures own >= old(own) && (ok ==> own > old(own))
      ensures own > old(own) ==> Committed(op, |old(log)|, log)
    {
      hide EditText, Fold;
      var attempt := 0;
      while attempt < 8
        invariant Valid() && old(log) <= log && setbacks == old(setbacks) && own >= old(own)
        invariant own > old(own) ==> Committed(op, |old(log)|, log)
      {
        Others();
        if text == expected {
          FoldOneMore(start, log, op);
          text, log, own := next, log + [op], own + 1;
          assert log[|log| - 1] == op;
          var heard: bool := *;
          if heard {
            assert log[..|log|] == log;
            return true;
          }
        }
        attempt := attempt + 1;
      }
      setbacks := setbacks + 1;
      ok := false;
    }
  }

  /** The edit was in force at some moment during the call. */
  ghost predicate Happened(op: Op, start: string, from: nat, log: seq<Op>) {
    exists k :: from <= k <= |log| && Achieved(op, Split(Fold(start, log[..k])))
  }

  lemma HappenedNow(op: Op, start: string, from: nat, log: seq<Op>)
    requires from <= |log| && Achieved(op, Split(Fold(start, log)))
    ensures Happened(op, start, from, log)
  {
    assert log[..|log|] == log;
  }

  lemma HappenedAt(op: Op, start: string, from: nat, log: seq<Op>, k: nat)
    requires from < k <= |log| && Plain(op.item) && log[k - 1] == op
    ensures Happened(op, start, from, log)
  {
    hide Split, EditText, Achieved, Fold;
    CommitAchieved(start, log[..k - 1], op);
    assert log[..k - 1] + [op] == log[..k];
  }

  /** `append_csv_item_cas`. */
  method AppendCsvItem(column: Column, item: string, prepend: bool, max: nat) returns (ok: bool)
    requires column.Valid() && (item == "" || Plain(item))
    modifies column
    ensures column.Valid() && old(column.log) <= column.log
    ensures ok ==> item != "" && Happened(Add(item, prepend, max), column.start, |old(column.log)|, column.log)
    ensures !ok ==> item == "" || column.setbacks == old(column.setbacks) + 16
  {
    hide Split, Join, Achieved, Fold, Happened, Trimmed, WithoutFirst;
    ghost var op := Add(item, prepend, max);
    if item == "" { return false; }
    for attempt := 0 to 16
      invariant column.Valid() && old(column.log) <= column.log && column.setbacks == old(column.setbacks) + attempt
    {
      var st := column.GetStatus();
      if st.Found? {
        var items := SplitCsv(st.text);
        if item in items && !prepend {
          assert Settled(op, st.text);
          SettledAchieved(op, st.text);
          HappenedNow(op, column.start, |old(column.log)|, column.log);
          return true;
        }
        items := if prepend then [item] + WithoutFirst(items, item) else items + [item];
        items := Trimmed(items, prepend, max);
        var next := JoinCsv(items);
        assert next == EditText(op, st.text);
        if next == st.text {
          SettledAchieved(op, st.text);
          HappenedNow(op, column.start, |old(column.log)|, column.log);
          return true;
        }
        ghost var from := |column.log|;
        var done := column.Cput(st.text, next, op);
        if done {
          ghost var k :| from < k <= |column.log| && column.log[k - 1] == op;
          HappenedAt(op, column.start, |old(column.log)|, column.log, k);
          return true;
        }
      }
    }
    ok := false;
  }

  /** `prepend_uid_to_folder`. */
  method PrependUid(column: Column, uid: string) returns (ok: bool)
    requires column.Valid() && Plain(uid)
    modifies column
    ensures column.Valid() && old(column.log) <= column.log
    ensures ok ==> Happened(Push(uid), column.start, |old(column.log)|, column.log)
    ensures !ok ==> column.setbacks == old(column.setbacks) + 16
  {
    hide Split, Join, Achieved, Fold, Happened, Without;
    ghost var op := Push(uid);
    for attempt := 0 to 16
      invariant column.Valid() && old(column.log) <= column.log && column.setbacks == old(column.setbacks) + attempt
    {
      var st := column.GetStatus();
      if st.Found? {
        var ids := SplitCsv(st.text);
        ids := Erase(ids, uid);
        var next := JoinCsv([uid] + ids);
        assert next == EditText(op, st.text);
        if next == st.text {
          SettledAchieved(op, st.text);
          HappenedNow(op, column.start, |old(column.log)|, column.log);
          return true;
        }
        ghost var from := |column.log|;
        var done := column.Cput(st.text, next, op);
        if done {
          ghost var k :| from < k <= |column.log| && column.log[k - 1] == op;
          HappenedAt(op, column.start, |old(column.log)|, column.log, k);
          return true;
        }
      }
    }
    ok := false;
  }

  /** `remove_uid_from_folder`. */
  method RemoveUid(column: Column, item: string) returns (ok: bool)
    requires column.Valid() && Plain(item)
    modifies column
    ensures column.Valid() && old(column.log) <= column.log
    ensures ok ==> Happened(Remove(item), column.start, |old(column.log)|, column.log)
    ensures !ok ==> column.setbacks == old(column.setbacks) + 12
  {
    hide Split, Join, Achieved, Fold, Happened;
    ghost var op := Remove(item);
    for attempt := 0 to 12
      invariant column.Valid() && old(column.log) <= column.log && column.setbacks == old(column.setbacks) + attempt
    {
      var st := column.GetStatus();
      if st.Found? {
        var items := SplitCsv(st.text);
        var left := Erase(items, item);
        SameSizeMeansAbsent(items, item);
        if |left| == |items| {
          assert Settled(op, st.text);
          SettledAchieved(op, st.text);
          HappenedNow(op, column.start, |old(column.log)|, column.log);
          return true;
        }
        var next := JoinCsv(left);
        assert next == EditText(op, st.text);
        ghost var from := |column.log|;
        var done := column.Cput(st.text, next, op);
        if done {
          ghost var k :| from < k <= |column.log| && column.log[k - 1] == op;
          HappenedAt(op, column.start, |old(column.log)|, column.log, k);
          return true;
        }
      }
    }
    ok := false;
  }

  /** What one turn of `remove_child` makes of its read: an answer, or a text to put. `get_str` reads an
      unavailable store as the empty string. */
  datatype Turn = Answer(yes: bool) | TryPut(expected: string, next: string)

  function RemoveTurn(read: ReadStatus, item: string, requirePresent: bool): Turn {
    var text := if read.Found? then read.text else "";
    var kids := Split(text);
    var left := Without(kids, item);
    if text == "" || |left| == |kids| then Answer(!requirePresent) else TryPut(text, Join(left))
  }

  /** One turn as it went: what was read, and if a put followed, whether it wrote and whether the client
      heard of that. */
  datatype Round = Round(read: ReadStatus, wrote: bool, heard: bool)

  function Reads(rounds: seq<Round>): seq<ReadStatus> {
    seq(|rounds|, i requires 0 <= i < |rounds| => rounds[i].read)
  }

  /** The answer after these turns. */
  predicate SaysYes(rounds: seq<Round>, item: string, requirePresent: bool) {
    rounds != [] &&
    match RemoveTurn(rounds[0].read, item, requirePresent)
    case Answer(yes) => yes
    case TryPut(_, _) => (rounds[0].wrote && rounds[0].heard) || SaysYes(rounds[1..], item, requirePresent)
  }

  /** One of these turns removed the item. */
  predicate Removes(rounds: seq<Round>, item: string, requirePresent: bool) {
    rounds != [] &&
    match RemoveTurn(rounds[0].read, item, requirePresent)
    case Answer(_) => false
    case TryPut(_, _) => rounds[0].wrote || Removes(rounds[1..], item, requirePresent)
  }

  /** All turns went on to the next: none answered and no put was heard of. */
  predicate GoesOn(rounds: seq<Round>, item: string, requirePresent: bool) {
    forall i :: 0 <= i < |rounds| ==> RemoveTurn(rounds[i].read, item, requirePresent).TryPut? && !rounds[i].heard
  }

  lemma {:induction false} AfterTurns(rounds: seq<Round>, r: Round, item: string, requirePresent: bool)
    requires GoesOn(rounds, item, requirePresent)
    ensures !SaysYes(rounds, item, requirePresent)
    ensures Removes(rounds, item, requirePresent) <==> exists i :: 0 <= i < |rounds| && rounds[i].wrote
    ensures SaysYes(rounds + [r], item, requirePresent) == SaysYes([r], item, requirePresent)
    ensures Removes(rounds + [r], item, requirePresent)
            <==> Removes(rounds, item, requirePresent) || Removes([r], item, requirePresent)
  {
    hide RemoveTurn;
    if rounds == [] {
      assert rounds + [r] == [r];
    } else {
      assert (rounds + [r])[1..] == rounds[1..] + [r];
      AfterTurns(rounds[1..], r, item, requirePresent);
    }
  }

  /** `remove_child`. Its yes after a put means that the removal was made. A yes without one is given only if
      the item need not have been there, and then on what the last read showed. `rounds` tells its turns. */
  method RemoveChild(column: Column, item: string, requirePresent: bool)
    returns (ok: bool, ghost last: ReadStatus, ghost put: bool, ghost rounds: seq<Round>)
    requires column.Valid() && Plain(item)
    modifies column
    ensures column.Valid() && old(column.log) <= column.log
    ensures put ==> ok && Committed(Remove(item), |old(column.log)|, column.log)
    ensures ok && requirePresent ==> put
    ensures ok && !put ==> RemoveTurn(last, item, requirePresent) == Answer(true)
                           && (last.Found? ==> last.text == column.text)
    ensures ok && last.Found? ==> Happened(Remove(item), column.start, |old(column.log)|, column.log)
    ensures !ok ==> RemoveTurn(last, item, requirePresent) == Answer(false)
                    || column.setbacks >= old(column.setbacks) + 8
    ensures |rounds| <= 8 && ok == SaysYes(rounds, item, requirePresent)
    ensures column.own > old(column.own) <==> Removes(rounds, item, requirePresent)
    ensures column.own > old(column.own) ==> Committed(Remove(item), |old(column.log)|, column.log)
  {
    hide Split, Join, Achieved, Fold, Happened, EditText, Without, Committed, RemoveTurn, SaysYes, Removes;
    ghost var op := Remove(item);
    last, put, rounds := Unavailable, false, [];
    NoTurns(item, requirePresent);
    for attempt := 0 to 8
      invariant column.Valid() && old(column.log) <= column.log && column.setbacks >= old(column.setbacks) + attempt
      invariant |rounds| == attempt && GoesOn(rounds, item, requirePresent) && column.own >= old(column.own)
      invariant column.own > old(column.own) <==> Removes(rounds, item, requirePresent)
      invariant column.own > old(column.own) ==> Committed(op, |old(column.log)|, column.log)
    {
      ghost var was := column.log;
      var st := column.GetStatus();
      last := st;
      var text := if st.Found? then st.text else "";
      TurnOn(item, text);
      TurnIs(st, item, requirePresent);
      AfterTurns(rounds, Round(st, false, false), item, requirePresent);
      AnsweringTurn(st, item, requirePresent);
      CommittedStays(op, |old(column.log)|, was, column.log);
      if text == "" {
        if st.Found? {
          HappenedNow(op, column.start, |old(column.log)|, column.log);
        }
        return !requirePresent, last, false, rounds + [Round(st, false, false)];
      }
      var kids := SplitCsv(text);
      var left := Erase(kids, item);
      if |left| == |kids| {
        HappenedNow(op, column.start, |old(column.log)|, column.log);
        return !requirePresent, last, false, rounds + [Round(st, false, false)];
      }
      var next := JoinCsv(left);
      ghost var from, mine, before := |column.log|, column.own, column.log;
      var done := column.Cput(text, next, op);
      ghost var r := Round(st, column.own > mine, done);
      AfterTurns(rounds, r, item, requirePresent);
      PuttingTurn(r, item, requirePresent);
      CommittedStays(op, |old(column.log)|, before, column.log);
      CommittedEarlier(op, |old(column.log)|, from, column.log);
      if done {
        ghost var k :| from < k <= |column.log| && column.log[k - 1] == op;
        HappenedAt(op, column.start, |old(column.log)|, column.log, k);
        CommittedAt(op, |old(column.log)|, column.log, k);
        return true, last, true, rounds + [r];
      }
      rounds := rounds + [r];
    }
    AfterTurns(rounds, Round(last, false, false), item, requirePresent);
    ok := false;
  }

  lemma NoTurns(item: string, requirePresent: bool)
    ensures !SaysYes([], item, requirePresent) && !Removes([], item, requirePresent)
  {
  }

  lemma TurnIs(read: ReadStatus, item: string, requirePresent: bool)
    ensures var text := if read.Found? then read.text else "";
            var left := Without(Split(text), item);
            RemoveTurn(read, item, requirePresent)
            == if text == "" || |left| == |Split(text)| then Answer(!requirePresent) else TryPut(text, Join(left))
  {
  }

  lemma AnsweringTurn(read: ReadStatus, item: string, requirePresent: bool)
    ensures RemoveTurn(read, item, requirePresent).Answer? ==>
              && SaysYes([Round(read, false, false)], item, requirePresent)
                 == RemoveTurn(read, item, requirePresent).yes
              && !Removes([Round(read, false, false)], item, requirePresent)
  {
  }

  lemma PuttingTurn(r: Round, item: string, requirePresent: bool)
    requires RemoveTurn(r.read, item, requirePresent).TryPut? && (r.heard ==> r.wrote)
    ensures SaysYes([r], item, requirePresent) == r.heard && Removes([r], item, requirePresent) == r.wrote
  {
    hide RemoveTurn;
    assert [r][1..] == [];
    NoTurns(item, requirePresent);
  }

  lemma CommittedStays(op: Op, from: nat, log: seq<Op>, later: seq<Op>)
    requires log <= later
    ensures Committed(op, from, log) ==> Committed(op, from, later)
  {
    if Committed(op, from, log) {
      var k :| from <= k < |log| && log[k] == op;
      assert later[k] == op;
    }
  }

  lemma CommittedEarlier(op: Op, from: nat, at: nat, log: seq<Op>)
    requires from <= at
    ensures Committed(op, at, log) ==> Committed(op, from, log)
  {
  }

  /** The edit was written by a put during the call. */
  ghost predicate Committed(op: Op, from: nat, log: seq<Op>) {
    exists k :: from <= k < |log| && log[k] == op
  }

  lemma CommittedAt(op: Op, from: nat, log: seq<Op>, k: nat)
    requires from < k <= |log| && log[k - 1] == op
    ensures Committed(op, from, log)
  {
    assert log[k - 1] == op;
  }

  lemma TurnOn(item: string, text: string)
    ensures var kids := Split(text);
            var left := Without(kids, item);
            if text == "" || |left| == |kids| then Achieved(Remove(item), kids)
            else EditText(Remove(item), text) == Join(left)
  {
    hide Join, Without;
    SameSizeMeansAbsent(Split(text), item);
    assert Split("") == [];
  }

  /** Whatever the column holds, a yes of this turn says the truth. */
  ghost predicate YesIsTrue(read: ReadStatus, item: string, requirePresent: bool) {
    forall text: string ::
      (read.Found? ==> read.text == text) && RemoveTurn(read, item, requirePresent) == Answer(true) ==>
        item !in Split(text)
  }

  /** A turn's yes is to be trusted exactly if the store was read or the item had to be present: an
      unavailable store looks like an empty list. */
  lemma RemoveYesExactly(read: ReadStatus, item: string, requirePresent: bool)
    requires Plain(item)
    ensures YesIsTrue(read, item, requirePresent) <==> read.Found? || requirePresent
  {
    hide Split, Join, Without, Plain;
    if read.Found? {
      TurnOn(item, read.text);
    }
    SplitOne(item);
    assert item in [item];
  }

  /** After these reads a no says the truth, whatever became of the puts between them: nothing was removed. */
  ghost predicate NoIsTrue(seen: seq<ReadStatus>, item: string, requirePresent: bool) {
    forall rounds :: Reads(rounds) == seen && !SaysYes(rounds, item, requirePresent) ==>
      !Removes(rounds, item, requirePresent)
  }

  /** The turn takes the item for absent, or the store for empty. */
  predicate Decides(read: ReadStatus, item: string) {
    RemoveTurn(read, item, true).Answer?
  }

  /** A no is to be trusted exactly if it comes before any put, or if there can be none: a read takes the item
      for absent, and that is a yes because the item need not be there. Otherwise a put may have removed the
      item without being heard of. */
  lemma RemoveNoExactly(seen: seq<ReadStatus>, item: string, requirePresent: bool)
    ensures NoIsTrue(seen, item, requirePresent)
            <==> seen == [] || Decides(seen[0], item)
                 || (!requirePresent && exists i :: 0 <= i < |seen| && Decides(seen[i], item))
  {
    hide RemoveTurn;
    DecidesEither(item, requirePresent);
    if seen == [] || Decides(seen[0], item) {
      assert forall rounds :: Reads(rounds) == seen ==> !Removes(rounds, item, requirePresent);
    } else if i: nat :| !requirePresent && i < |seen| && Decides(seen[i], item) {
      forall rounds | Reads(rounds) == seen
        ensures SaysYes(rounds, item, requirePresent)
      {
        AlwaysYes(rounds, item, i);
      }
    } else {
      var lost := seq(|seen|, i requires 0 <= i < |seen| => Round(seen[i], true, false));
      assert Reads(lost) == seen && lost[0].wrote;
      NeverYes(lost, item, requirePresent);
    }
  }

  lemma DecidesEither(item: string, requirePresent: bool)
    ensures forall read :: Decides(read, item) <==> RemoveTurn(read, item, requirePresent).Answer?
    ensures forall read :: RemoveTurn(read, item, requirePresent).Answer? ==>
              RemoveTurn(read, item, requirePresent).yes == !requirePresent
  {
    hide Split, Join, Without;
  }

  lemma {:induction false} AlwaysYes(rounds: seq<Round>, item: string, i: nat)
    requires i < |rounds| && Decides(rounds[i].read, item)
    ensures SaysYes(rounds, item, false)
  {
    hide RemoveTurn, Decides;
    DecidesEither(item, false);
    if i > 0 && !Decides(rounds[0].read, item) {
      AlwaysYes(rounds[1..], item, i - 1);
    }
  }

  lemma {:induction false} NeverYes(rounds: seq<Round>, item: string, requirePresent: bool)
    requires forall i :: 0 <= i < |rounds| ==> !rounds[i].heard
    requires requirePresent || forall i :: 0 <= i < |rounds| ==> !Decides(rounds[i].read, item)
    ensures !SaysYes(rounds, item, requirePresent)
  {
    hide RemoveTurn, Decides;
    DecidesEither(item, requirePresent);
    if rounds != [] {
      NeverYes(rounds[1..], item, requirePresent);
    }
  }
}
