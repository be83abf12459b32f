/** Primary/backup replication of one tablet (kvstore/src/replication.h).

    Sockets are not modelled. Whether a replica acknowledges a forwarded message, also after the
    resynchronisation that precedes the second try, is an arbitrary choice of the environment. `sent`
    records the operations the manager has broadcast, `answers` what came back from each try.
 */
module Replication {
  import opened Bytes
  import opened Table
  import opened Wal
  import opened RowCodec
  import opened TabletImage
  import opened Snapshot
  import opened WalDelta
  import opened TabletStore
  import Bloom

  type Id = string

  datatype ReplicaInfo = ReplicaInfo(id: Id, host: string, port: int, alive: bool, lsn: nat)
  datatype Message = Replicate(lsn: nat, entry: Entry)
  datatype Status = OK | QuorumUnavailable | Mismatch | Error
  datatype SyncResponse = Delta(blob: Data) | Snapshot(blob: Data)

  function Ids(rs: seq<ReplicaInfo>): set<Id> {
    set i | 0 <= i < |rs| :: rs[i].id
  }

  predicate DistinctIds(rs: seq<ReplicaInfo>) {
    forall i, j :: 0 <= i < j < |rs| ==> rs[i].id != rs[j].id
  }

  /** The primary and the acknowledging replicas are more than half of all configured nodes. */
  predicate Majority(acks: set<Id>, configured: nat) {
    2 * (|acks| + 1) > configured + 1
  }

  /** The code's count of required answers. */
  lemma MajorityCounts(acks: set<Id>, configured: nat)
    ensures Majority(acks, configured) <==> |acks| >= (configured + 1) / 2 + 1 - 1
  {
  }

  /** Those that acknowledged and the primary outnumber the other nodes; a primary alone is enough, one with a
      single replica needs it. */
  lemma MajorityOutnumbers(acks: set<Id>, configured: nat)
    requires |acks| <= configured
    ensures Majority(acks, configured) <==> |acks| + 1 > configured - |acks|
    ensures configured == 0 ==> Majority(acks, configured)
    ensures configured == 1 || configured == 2 ==> (Majority(acks, configured) <==> |acks| >= 1)
    ensures configured == 3 || configured == 4 ==> (Majority(acks, configured) <==> |acks| >= 2)
  {
  }

  predicate SameIds(rs: seq<ReplicaInfo>, qs: seq<ReplicaInfo>) {
    |rs| == |qs| && forall i :: 0 <= i < |rs| ==> rs[i].id == qs[i].id
  }

  /** The first n replicas have been tried; those of them in `acks`, and no others, acknowledged. */
  ghost predicate Polled(rs: seq<ReplicaInfo>, n: nat, acks: set<Id>) {
    && n <= |rs| && acks <= Ids(rs[..n])
    && forall i :: 0 <= i < n ==> (rs[i].alive <==> rs[i].id in acks)
  }

  lemma PolledNone(rs: seq<ReplicaInfo>)
    ensures Polled(rs, 0, {})
  {
  }

  lemma PolledOneMore(rs: seq<ReplicaInfo>, n: nat, acks: set<Id>, good: bool)
    requires DistinctIds(rs) && n < |rs| && Polled(rs, n, acks)
    ensures rs[n].id !in acks
    ensures Polled(rs[n := rs[n].(alive := good)], n + 1, if good then acks + {rs[n].id} else acks)
  {
    var qs := rs[n := rs[n].(alive := good)];
    assert qs[..n + 1][n].id == rs[n].id;
    forall id | id in acks
      ensures id in Ids(qs[..n + 1]) && id != rs[n].id
    {
      var i :| 0 <= i < n && rs[..n][i].id == id;
      assert qs[..n + 1][i].id == id;
    }
  }

  lemma PolledAll(rs: seq<ReplicaInfo>, before: seq<ReplicaInfo>, acks: set<Id>)
    requires Polled(rs, |rs|, acks) && SameIds(rs, before)
    ensures acks <= Ids(rs) && Ids(rs) == Ids(before)
    ensures forall i :: 0 <= i < |rs| ==> (rs[i].alive <==> rs[i].id in acks)
  {
    assert rs[..|rs|] == rs;
    forall id
      ensures id in Ids(rs) <==> id in Ids(before)
    {
      if id in Ids(rs) {
        var i :| 0 <= i < |rs| && rs[i].id == id;
        assert before[i].id == id;
      }
      if id in Ids(before) {
        var i :| 0 <= i < |before| && before[i].id == id;
        assert rs[i].id == id;
      }
    }
  }

  /** The first n replicas have been tried and no others; those that answered "OK" to some try, and no
      others, are in `acks`. */
  ghost predicate Asked(rs: seq<ReplicaInfo>, n: nat, acks: set<Id>, log: seq<(Id, bool)>) {
    && n <= |rs|
    && (forall i :: 0 <= i < n ==> ((rs[i].id, true) in log || (rs[i].id, false) in log)
                                   && (rs[i].id in acks <==> (rs[i].id, true) in log))
    && forall a :: a in log ==> exists i :: 0 <= i < n && rs[i].id == a.0
  }

  /** One or more tries of a replica, the last of them telling whether it acknowledged. */
  ghost predicate Tries(id: Id, good: bool, more: seq<(Id, bool)>) {
    more != [] && (forall a :: a in more ==> a.0 == id) && (good <==> (id, true) in more)
  }

  lemma TriedOnce(id: Id, good: bool)
    ensures Tries(id, good, [(id, good)]) && Tries(id, good, [(id, false), (id, good)])
  {
    assert (id, good) in [(id, good)] && (id, good) in [(id, false), (id, good)];
  }

  lemma AskedNone(rs: seq<ReplicaInfo>)
    ensures Asked(rs, 0, {}, [])
  {
  }

  lemma AskedOneMore(rs: seq<ReplicaInfo>, n: nat, acks: set<Id>, log: seq<(Id, bool)>, more: seq<(Id, bool)>,
                     good: bool)
    requires DistinctIds(rs) && n < |rs| && Asked(rs, n, acks, log) && rs[n].id !in acks
    requires Tries(rs[n].id, good, more)
    ensures Asked(rs, n + 1, if good then acks + {rs[n].id} else acks, log + more)
  {
    var id := rs[n].id;
    assert forall a :: a in log + more <==> a in log || a in more;
    assert (id, true) in more || (id, false) in more by {
      if more[0].1 { assert more[0] == (id, true); } else { assert more[0] == (id, false); }
    }
    assert forall i :: 0 <= i < n ==> rs[i].id != id;
    assert forall b: bool :: (id, b) !in log by {
      assert forall a :: a in log ==> a.0 != id;
      assert forall b: bool :: (id, b).0 == id;
    }
    assert forall i, b: bool :: 0 <= i < n ==> (rs[i].id, b) !in more by {
      assert forall i, b: bool :: 0 <= i < n ==> (rs[i].id, b).0 != id;
    }
    forall i | 0 <= i < n + 1
      ensures (rs[i].id, true) in log + more || (rs[i].id, false) in log + more
      ensures rs[i].id in (if good then acks + {id} else acks) <==> (rs[i].id, true) in log + more
    {
      assert i == n || rs[i].id != id;
    }
  }

  /** The operation that takes back a put: the old value, or a delete where there was none. */
  function Undo(t: Rows, row: Data, col: Data): Entry {
    match Lookup(t, row, col)
    case Some(v) => PutEntry(row, col, v)
    case None => DeleteEntry(row, col)
  }

  ghost predicate SameCells(t: Rows, u: Rows) {
    forall row, col :: Lookup(t, row, col) == Lookup(u, row, col)
  }

  /** An operation on one cell followed by its undo leaves every cell reading as before. */
  lemma UndoRestores(t: Rows, e: Entry)
    requires e.code == WAL_PUT || e.code == WAL_DELETE
    ensures SameCells(ApplyEntry(ApplyEntry(t, e), Undo(t, e.row, e.col)), t)
  {
  }

  /** A primary with this state, whose log starts behind LSN `base`, answers with a delta. */
  predicate ReachesBack(base: nat, m: Image, reqVersion: nat, reqLsn: nat) {
    reqLsn == m.lsn || (reqVersion == m.version && base <= reqLsn < m.lsn)
  }

  class ReplicationManager {
    var tablet: Tablet
    var replicas: seq<ReplicaInfo>
    var isPrimary: bool
    var lastReplLsn: nat
    ghost var sent: seq<Message>
    ghost var answers: seq<(Id, bool)>

    ghost predicate Valid()
      reads this, tablet, tablet.bloom, tablet.bloom.bits
    {
      tablet.Valid() && DistinctIds(replicas)
    }

    constructor (t: Tablet)
      requires t.Valid()
      ensures Valid() && tablet == t && replicas == [] && isPrimary && sent == []
    {
      tablet, replicas, isPrimary, lastReplLsn, sent, answers := t, [], true, 0, [], [];
    }

    // ----- roles -----

    /** BECOME_PRIMARY: the list is built anew from the followers the coordinator names. */
    method BecomePrimary()
      requires Valid()
      modifies this`isPrimary, this`replicas
      ensures Valid() && isPrimary && replicas == []
    {
      replicas := [];
      isPrimary := true;
    }

    method DemoteToSecondary()
      modifies this`isPrimary, this`replicas
      ensures !isPrimary && replicas == []
    {
      replicas := [];
      isPrimary := false;
    }

    /** Registering an id twice updates the entry in place, so ids stay distinct. */
    method AddReplica(id: Id, host: string, port: int)
      requires DistinctIds(replicas)
      modifies this`replicas
      ensures DistinctIds(replicas) && Ids(replicas) == old(Ids(replicas)) + {id}
      ensures |replicas| == |old(replicas)| + (if id in old(Ids(replicas)) then 0 else 1)
      ensures exists i :: 0 <= i < |replicas| && replicas[i].id == id
                          && replicas[i].host == host && replicas[i].port == port && replicas[i].alive
    {
      for i := 0 to |replicas|
        invariant replicas == old(replicas)
        invariant forall j :: 0 <= j < i ==> replicas[j].id != id
      {
        if replicas[i].id == id {
          replicas := replicas[i := replicas[i].(host := host, port := port, alive := true)];
          assert forall j :: 0 <= j < |replicas| ==> replicas[j].id == old(replicas)[j].id;
          return;
        }
      }
      replicas := replicas + [ReplicaInfo(id, host, port, true, 0)];
      assert replicas[|replicas| - 1].id == id;
      assert forall j :: 0 <= j < |old(replicas)| ==> replicas[j] == old(replicas)[j];
    }

    // ----- forwarding -----

    /** One send and one wait for "+OK LSN=n"; anything may come back. */
    method ForwardToReplica(i: nat, msg: Message) returns (ok: bool)
      requires i < |replicas|
      modifies this`replicas, this`answers
      ensures |replicas| == |old(replicas)| && SameIds(replicas, old(replicas))
      ensures forall i, acks :: Polled(replicas, i, acks) <==> Polled(old(replicas), i, acks)
      ensures answers == old(answers) + [(replicas[i].id, ok)]
    {
      ok := *;
      var acked: int := *;
      var n: nat := if ok && acked >= 0 then acked else replicas[i].lsn;
      replicas := replicas[i := replicas[i].(lsn := n)];
      answers := answers + [(replicas[i].id, ok)];
    }

    method ResyncReplica(i: nat) returns (ok: bool)
      requires i < |replicas|
      modifies this`replicas
      ensures |replicas| == |old(replicas)| && SameIds(replicas, old(replicas))
      ensures forall i, acks :: Polled(replicas, i, acks) <==> Polled(old(replicas), i, acks)
    {
      ok := *;
      var n: nat := if ok then tablet.lsn else replicas[i].lsn;
      replicas := replicas[i := replicas[i].(lsn := n)];
    }

    /** One replica's turn: a second try follows if the first failed and a resynchronisation succeeded. */
    method TryReplica(i: nat, msg: Message) returns (good: bool)
      requires i < |replicas|
      modifies this`replicas, this`answers
      ensures |replicas| == |old(replicas)| && SameIds(replicas, old(replicas))
      ensures forall acks :: Polled(replicas, i, acks) <==> Polled(old(replicas), i, acks)
      ensures old(answers) <= answers && Tries(replicas[i].id, good, answers[|old(answers)|..])
    {
      hide Polled, Tries;
      ghost var id := replicas[i].id;
      good := ForwardToReplica(i, msg);
      TriedOnce(id, good);
      assert answers[|old(answers)|..] == [(id, good)];
      if !good {
        var resynced := ResyncReplica(i);
        if resynced {
          good := ForwardToReplica(i, msg);
          TriedOnce(id, good);
          assert answers[|old(answers)|..] == [(id, false), (id, good)];
        }
      }
    }

    /** Every replica is tried, twice if a resynchronisation between the tries succeeds. The result is
        true exactly when the primary and the distinct replicas that acknowledged form a majority. */
    method ForwardToAll(msg: Message) returns (ok: bool, ghost acks: set<Id>)
      requires DistinctIds(replicas)
      modifies this`replicas, this`sent, this`answers
      ensures DistinctIds(replicas) && Ids(replicas) == old(Ids(replicas)) && |replicas| == |old(replicas)|
      ensures acks <= Ids(replicas) && (ok <==> Majority(acks, |replicas|))
      ensures forall i :: 0 <= i < |replicas| ==> (replicas[i].alive <==> replicas[i].id in acks)
      ensures sent == old(sent) + [msg]
      ensures old(answers) <= answers && Asked(old(replicas), |old(replicas)|, acks, answers[|old(answers)|..])
    {
      hide Polled, Asked, Tries, Majority;
      sent := sent + [msg];
      acks := {};
      PolledNone(replicas);
      AskedNone(replicas);
      assert answers[|answers|..] == [];
      var totalNodes := |replicas| + 1;
      var quorum := totalNodes / 2 + 1;
      var required := quorum - 1;
      MajorityCounts({}, |replicas|);
      if required == 0 { return true, {}; }
      var acked := 0;
      for i := 0 to |replicas|
        invariant SameIds(replicas, old(replicas)) && acked == |acks| && sent == old(sent) + [msg]
        invariant Polled(replicas, i, acks)
        invariant old(answers) <= answers && Asked(old(replicas), i, acks, answers[|old(answers)|..])
      {
        ghost var before := answers;
        var good := TryReplica(i, msg);
        PolledOneMore(replicas, i, acks, good);
        AskedOneMore(old(replicas), i, acks, before[|old(answers)|..], answers[|before|..], good);
        assert answers[|old(answers)|..] == before[|old(answers)|..] + answers[|before|..];
        ghost var id := replicas[i].id;
        replicas := replicas[i := replicas[i].(alive := good)];
        if good {
          acked := acked + 1;
          acks := acks + {id};
        }
      }
      PolledAll(replicas, old(replicas), acks);
      ok := acked >= required;
      MajorityCounts(acks, |replicas|);
    }

    // ----- client operations on the primary -----

    /** The outcome of a replicated write of entry e that the tablet has logged: either a majority holds
        it, or the operation that undoes it was logged and broadcast behind it. */
    ghost predicate Written(e: Entry, st: Status, acks: set<Id>, before: Image, opsBefore: seq<Entry>,
                            sentBefore: seq<Message>)
      reads this, tablet, tablet.bloom, tablet.bloom.bits
      requires tablet.bloom.Valid()
    {
      var undo := Undo(before.rows, e.row, e.col);
      var once := Step(before, e);
      match st
      case OK =>
        && tablet.Memory() == once && tablet.ops == opsBefore + [e]
        && sent == sentBefore + [Replicate(once.lsn, e)]
        && acks <= Ids(replicas) && Majority(acks, |replicas|)
      case QuorumUnavailable =>
        && tablet.Memory() == Step(once, undo) && tablet.ops == opsBefore + [e] + [undo]
        && sent == sentBefore + [Replicate(once.lsn, e)] + [Replicate(Step(once, undo).lsn, undo)]
        && SameCells(tablet.rows, before.rows)
        && (before.lsn + 2 < U64 ==> tablet.lsn == before.lsn + 2)
        && acks <= Ids(replicas) && !Majority(acks, |replicas|)
      case _ => false
    }

    /** What follows the local write: broadcast it, and on a missed quorum write and broadcast the
        compensating operation. Acknowledgements of the latter are not waited for. */
    method Finish(ghost before: Image, e: Entry, lsn: nat, hadOld: bool, oldVal: Data)
      returns (st: Status, ghost acks: set<Id>)
      requires Valid() && Proper(e) && tablet.Memory() == Step(before, e) && lsn == tablet.lsn
      requires ShortStrings(before.rows)
      requires hadOld <==> Lookup(before.rows, e.row, e.col).Some?
      requires hadOld ==> Lookup(before.rows, e.row, e.col) == Some(oldVal)
      requires !hadOld ==> e.code == WAL_PUT
      modifies this, tablet, tablet.bloom.bits
      ensures Valid() && tablet == old(tablet) && tablet.bloom == old(tablet.bloom)
              && tablet.bloom.bits == old(tablet.bloom.bits)
      ensures tablet.base == old(tablet.base) && |replicas| == |old(replicas)| && Ids(replicas) == old(Ids(replicas))
      ensures st == OK || st == QuorumUnavailable
      ensures st == OK ==> tablet.Memory() == old(tablet.Memory()) && tablet.ops == old(tablet.ops)
                           && sent == old(sent) + [Replicate(lsn, e)]
                           && acks <= Ids(replicas) && Majority(acks, |replicas|)
      ensures st == QuorumUnavailable ==>
                var undo := Undo(before.rows, e.row, e.col);
                && tablet.Memory() == Step(Step(before, e), undo) && tablet.ops == old(tablet.ops) + [undo]
                && sent == old(sent) + [Replicate(lsn, e)] + [Replicate(tablet.lsn, undo)]
                && SameCells(tablet.rows, before.rows)
                && (before.lsn + 2 < U64 ==> tablet.lsn == before.lsn + 2)
                && acks <= Ids(replicas) && !Majority(acks, |replicas|)
    {
      hide Steps, Step, EncodeLog, LoadImage, Covered, ShortStrings, Majority;
      lastReplLsn := lsn;
      var ok;
      ok, acks := ForwardToAll(Replicate(lsn, e));
      if ok { return OK, acks; }
      StepUndone(before, e);
      OldValueFits(before.rows, e.row, e.col);
      if hadOld {
        var rollback := tablet.Put(e.row, e.col, oldVal);
        lastReplLsn := rollback;
        var _, _ := ForwardToAll(Replicate(rollback, PutEntry(e.row, e.col, oldVal)));
      } else {
        var deleted, rollback := tablet.Del(e.row, e.col);
        lastReplLsn := rollback;
        var _, _ := ForwardToAll(Replicate(rollback, DeleteEntry(e.row, e.col)));
      }
      st := QuorumUnavailable;
    }

    method ReplicatedPut(row: Data, col: Data, val: Data) returns (st: Status, ghost acks: set<Id>)
      requires Valid() && |row| < U32 && |col| < U32 && |val| < U32
      modifies this, tablet, tablet.bloom.bits
      ensures Valid() && tablet == old(tablet) && tablet.bloom == old(tablet.bloom)
              && tablet.bloom.bits == old(tablet.bloom.bits)
      ensures tablet.base == old(tablet.base) && |replicas| == |old(replicas)| && Ids(replicas) == old(Ids(replicas))
      ensures !old(isPrimary) ==> st == Error && tablet.Memory() == old(tablet.Memory()) && sent == old(sent)
      ensures old(isPrimary) ==>
                Written(PutEntry(row, col, val), st, acks, old(tablet.Memory()), old(tablet.ops), old(sent))
    {
      hide Steps, Step, EncodeLog, LoadImage, Covered, SameCells, Majority;
      acks := {};
      if !isPrimary { return Error, {}; }
      var hadOld, oldVal := tablet.Get(row, col);
      var lsn := tablet.Put(row, col, val);
      st, acks := Finish(old(tablet.Memory()), PutEntry(row, col, val), lsn, hadOld, oldVal);
    }

    method ReplicatedCput(row: Data, col: Data, expected: Data, replacement: Data)
      returns (st: Status, ghost acks: set<Id>)
      requires Valid() && |row| < U32 && |col| < U32 && |replacement| < U32
      modifies this, tablet, tablet.bloom.bits
      ensures Valid() && tablet == old(tablet) && tablet.bloom == old(tablet.bloom)
              && tablet.bloom.bits == old(tablet.bloom.bits)
      ensures tablet.base == old(tablet.base) && |replicas| == |old(replicas)| && Ids(replicas) == old(Ids(replicas))
      ensures !old(isPrimary) ==> st == Error
      ensures old(isPrimary) ==> (st == Mismatch <==> old(Lookup(tablet.rows, row, col)) != Some(expected))
      ensures st == Error || st == Mismatch ==>
                tablet.Memory() == old(tablet.Memory()) && tablet.ops == old(tablet.ops) && sent == old(sent)
      ensures old(isPrimary) && st != Mismatch ==>
                Written(PutEntry(row, col, replacement), st, acks, old(tablet.Memory()), old(tablet.ops), old(sent))
    {
      hide Steps, Step, EncodeLog, LoadImage, Covered, SameCells, Majority;
      acks := {};
      if !isPrimary { return Error, {}; }
      var found, oldVal := tablet.Get(row, col);
      if !found || oldVal != expected { return Mismatch, {}; }
      var good, lsn := tablet.Cput(row, col, expected, replacement);
      if !good { return Error, {}; }
      st, acks := Finish(old(tablet.Memory()), PutEntry(row, col, replacement), lsn, true, oldVal);
    }

    /** Deleting a missing cell is acknowledged without a log entry and without a broadcast. */
    method ReplicatedDelete(row: Data, col: Data) returns (st: Status, ghost acks: set<Id>)
      requires Valid() && |row| < U32 && |col| < U32
      modifies this, tablet, tablet.bloom.bits
      ensures Valid() && tablet == old(tablet) && tablet.bloom == old(tablet.bloom)
              && tablet.bloom.bits == old(tablet.bloom.bits)
      ensures tablet.base == old(tablet.base) && |replicas| == |old(replicas)| && Ids(replicas) == old(Ids(replicas))
      ensures !old(isPrimary) ==> st == Error && tablet.Memory() == old(tablet.Memory()) && sent == old(sent)
      ensures old(isPrimary && Lookup(tablet.rows, row, col) == None) ==>
                && st == OK && tablet.Memory() == old(tablet.Memory()) && tablet.ops == old(tablet.ops)
                && sent == old(sent)
      ensures old(isPrimary && Lookup(tablet.rows, row, col) != None) ==>
                Written(DeleteEntry(row, col), st, acks, old(tablet.Memory()), old(tablet.ops), old(sent))
    {
      hide Steps, Step, EncodeLog, LoadImage, Covered, SameCells, Majority;
      acks := {};
      if !isPrimary { return Error, {}; }
      var hadOld, oldVal := tablet.Get(row, col);
      var deleted, lsn := tablet.Del(row, col);
      if !deleted { return OK, {}; }
      st, acks := Finish(old(tablet.Memory()), DeleteEntry(row, col), lsn, hadOld, oldVal);
    }

    // ----- the replica's side -----

    /** `apply_replicate_put` and `apply_replicate_delete`: an acknowledgement of LSN n is given exactly
        when the tablet holds n operations or more, counting one applied now. */
    method ApplyReplicate(msg: Message) returns (ok: bool)
      requires Valid() && Proper(msg.entry) && msg.lsn < U64
      modifies this`lastReplLsn, tablet, tablet.bloom.bits
      ensures Valid() && tablet.bloom == old(tablet.bloom) && tablet.bloom.bits == old(tablet.bloom.bits)
      ensures tablet.base == old(tablet.base)
      ensures ok <==> msg.lsn <= old(tablet.lsn) + 1
      ensures ok ==> msg.lsn <= tablet.lsn && lastReplLsn == tablet.lsn
      ensures msg.lsn == old(tablet.lsn) + 1 ==>
                tablet.Memory() == Step(old(tablet.Memory()), msg.entry) && tablet.ops == old(tablet.ops) + [msg.entry]
      ensures msg.lsn != old(tablet.lsn) + 1 ==>
                tablet.Memory() == old(tablet.Memory()) && tablet.ops == old(tablet.ops)
    {
      hide Steps, ApplyEntry, FilterAfter, EncodeLog, LoadImage, Covered, ShortStrings;
      var current := tablet.lsn;
      if msg.lsn <= current {
        lastReplLsn := current;
        return true;
      }
      if msg.lsn != current + 1 { return false; }
      ok := tablet.ApplyReplicated(msg.entry, msg.lsn);
      if !ok { return false; }
      lastReplLsn := msg.lsn;
    }

    // ----- synchronisation -----

    /** The primary's choice. A delta goes out in exactly two cases: the requester is at the primary's
        LSN, or it has the same checkpoint version, is behind, and the log still holds every entry it
        misses. */
    method BuildSyncResponse(reqVersion: nat, reqLsn: nat) returns (resp: SyncResponse, ghost rs: seq<RowImage>)
      requires Valid() && tablet.base.lsn + |tablet.ops| == tablet.lsn
      ensures resp.Delta? <==> ReachesBack(tablet.base.lsn, tablet.Memory(), reqVersion, reqLsn)
      ensures resp.Delta? ==>
                resp.blob == EncodeDelta(reqLsn, reqLsn + 1, tablet.ops[reqLsn - tablet.base.lsn..])
      ensures resp.Snapshot? ==>
                ListsRows(tablet.rows, rs) && resp.blob == EncodeSnapshot(tablet.lsn, tablet.version, rs)
    {
      hide Steps, EncodeLog, LoadImage, Covered, ShortStrings, ListsRows, EncodeDelta, EncodeSnapshot, DeltaAfter,
        U64At;
      rs := [];
      var localLsn := tablet.lsn;
      var blob;
      if reqLsn == localLsn {
        blob := tablet.WalDeltaAfter(reqLsn);
        CountedLsns(tablet.base.lsn, tablet.ops, reqLsn);
        resp := Delta(blob);
      } else if reqVersion == tablet.version && reqLsn < localLsn {
        blob := tablet.WalDeltaAfter(reqLsn);
        DeltaReaches(tablet.base.lsn, tablet.ops, reqLsn);
        var sendSnapshot := false;
        if |blob| <= 8 {
          sendSnapshot := true;
        } else if |blob| < 16 || U64At(blob, 8) != reqLsn + 1 {
          sendSnapshot := true;
        }
        if sendSnapshot {
          blob, rs := tablet.SnapshotBlob();
          resp := Snapshot(blob);
        } else {
          CountedLsns(tablet.base.lsn, tablet.ops, reqLsn);
          resp := Delta(blob);
        }
      } else {
        blob, rs := tablet.SnapshotBlob();
        resp := Snapshot(blob);
      }
    }

    /** The requester's side, once the response has arrived. */
    method SyncFromPrimary(resp: SyncResponse) returns (loaded: bool)
      requires Valid()
      modifies this`lastReplLsn, tablet, tablet.bloom.bits
      ensures Valid() && (tablet.bloom == old(tablet.bloom) || (fresh(tablet.bloom) && fresh(tablet.bloom.bits)))
      ensures tablet.bloom == old(tablet.bloom) ==> tablet.bloom.bits == old(tablet.bloom.bits)
      ensures resp.Snapshot? ==> (loaded <==> DecodeSnapshot(resp.blob).Some?)
      ensures resp.Snapshot? && loaded ==>
                tablet.Memory() == Installed(DecodeSnapshot(resp.blob).value) && tablet.base == tablet.Memory()
                && tablet.ops == []
      ensures resp.Snapshot? && !loaded ==> tablet.Memory() == old(tablet.Memory())
      ensures resp.Delta? ==>
                && loaded == ApplyDelta(resp.blob, old(tablet.lsn)).ok
                && tablet.base == old(tablet.base)
                && tablet.ops == old(tablet.ops) + ApplyDelta(resp.blob, old(tablet.lsn)).applied
      ensures loaded ==> lastReplLsn == tablet.lsn
    {
      hide Steps, EncodeLog, LoadImage, Covered, ShortStrings, DecodeSnapshot, ApplyDelta, Installed;
      match resp {
        case Snapshot(blob) => loaded := tablet.LoadSnapshotBlob(blob);
        case Delta(blob) => loaded := tablet.ApplyWalDeltaBlob(blob);
      }
      if loaded {
        lastReplLsn := tablet.lsn;
      }
    }
  }

  lemma StepUndone(before: Image, e: Entry)
    requires Proper(e)
    ensures SameCells(Step(Step(before, e), Undo(before.rows, e.row, e.col)).rows, before.rows)
    ensures e.code == WAL_PUT ==> Lookup(Step(before, e).rows, e.row, e.col).Some?
    ensures before.lsn + 2 < U64 ==> Step(Step(before, e), Undo(before.rows, e.row, e.col)).lsn == before.lsn + 2
  {
    hide FilterAfter, SameCells;
    UndoRestores(before.rows, e);
  }

  lemma OldValueFits(t: Rows, row: Data, col: Data)
    requires ShortStrings(t)
    ensures Lookup(t, row, col).Some? ==> |Lookup(t, row, col).value| < U32
  {
  }

  /** The first LSN in a delta tells whether the log reaches back to the requester. */
  lemma DeltaReaches(base: nat, ops: seq<Entry>, after: nat)
    requires after < base + |ops| < U64
    ensures var blob := DeltaAfter(base + |ops|, ops, after);
            (|blob| > 8 && |blob| >= 16 && U64At(blob, 8) == after + 1) <==> base <= after
  {
    hide EncodeRun, EncodeEntry, PutU64, U64At;
    if base <= after {
      CountedLsns(base, ops, after);
      DeltaStarts(after, after + 1, ops[after - base..]);
    } else if ops == [] {
      EncodeRunNone(FirstLsn(base, 0));
    } else {
      CountedGap(base, ops, after);
    }
  }

  lemma DeltaStarts(after: nat, first: nat, es: seq<Entry>)
    requires es != [] && first < U64
    ensures var blob := EncodeDelta(after, first, es);
            |blob| > 8 && |blob| >= 16 && U64At(blob, 8) == first
  {
    hide EncodeEntry, PutU64, U64At;
    var blob := EncodeDelta(after, first, es);
    WholeAt(PutU64(after), EncodeRun(first, es));
    HasAtSplit(blob, 8, PutU64(first), EncodeEntry(es[0]) + EncodeRun(first + 1, es[1..]));
    U64RoundTrip(blob, 8, first);
    Small64(first);
  }

  // ----- synchronisation is exact -----

  /** A round of `resync_replica_from_self`: the replica drops its role and its list, asks with its own
      version and LSN, and applies the answer. If its log was a prefix of the primary's, it ends with the
      primary's log, hence with its rows and its LSN, whichever of the three answers was given. */
  method Resync(primary: ReplicationManager, replica: ReplicationManager, ghost hist: seq<Entry>) returns (ok: bool)
    requires primary != replica && primary.tablet != replica.tablet && primary.tablet.bloom != replica.tablet.bloom
    requires primary.tablet.bloom.bits != replica.tablet.bloom.bits
    requires primary.Valid() && replica.Valid()
    requires primary.tablet.HasLog(hist)
    requires var p, r := primary.tablet, replica.tablet;
             !ReachesBack(p.base.lsn, p.Memory(), r.version, r.lsn) ==> FitsTable(p.rows)
    requires replica.tablet.lsn <= |hist| && replica.tablet.HasLog(hist[..replica.tablet.lsn])
    modifies replica, replica.tablet, replica.tablet.bloom.bits
    ensures ok && !replica.isPrimary && replica.Valid() && replica.tablet.HasLog(hist)
    ensures replica.tablet.rows == primary.tablet.rows && replica.tablet.lsn == primary.tablet.lsn
    ensures replica.lastReplLsn == primary.tablet.lsn
  {
    hide Steps, EncodeLog, LoadImage, Covered, ShortStrings, ListsRows, EncodeDelta, EncodeSnapshot, DecodeSnapshot,
         ApplyDelta, FitsTable, LogOf, FilterOf, EncodeCkpt;
    ghost var n := replica.tablet.lsn;
    LogOfMeans(primary.tablet.base, primary.tablet.ops, hist);
    LogOfParts(primary.tablet.base, primary.tablet.ops, hist);
    replica.DemoteToSecondary();
    var resp, rs := primary.BuildSyncResponse(replica.tablet.version, replica.tablet.lsn);
    ok := replica.SyncFromPrimary(resp);
    if resp.Delta? {
      DeltaCatchesUp(primary.tablet.base, primary.tablet.ops, hist, n);
      LogOfExtends(replica.tablet.base, old(replica.tablet.ops), hist, n);
      LogOfMeans(replica.tablet.base, replica.tablet.ops, hist);
    } else {
      SnapshotRoundTrip(primary.tablet.rows, rs, primary.tablet.lsn, primary.tablet.version);
      LogOfSnapshot(replica.tablet.base, hist, primary.tablet.base, primary.tablet.ops);
      assert replica.tablet.rows == primary.tablet.rows;
    }
  }

  lemma LogOfParts(base: Image, ops: seq<Entry>, hist: seq<Entry>)
    requires LogOf(base, ops, hist)
    ensures base.lsn + |ops| == |hist| < U64 && ProperLog(hist)
  {
    hide Replay, Proper;
  }

  /** A requester at n is never asked what it holds. With another history of that length it takes the delta
      and keeps its own beginning. */
  lemma ForeignDelta(base: Image, ops: seq<Entry>, hist: seq<Entry>, rbase: Image, rops: seq<Entry>,
                     other: seq<Entry>)
    requires LogOf(base, ops, hist) && LogOf(rbase, rops, other) && base.lsn <= |other| <= |hist|
    ensures var n := |other|;
            var r := ApplyDelta(EncodeDelta(n, n + 1, ops[n - base.lsn..]), n);
            && r == Outcome(hist[n..], true)
            && Steps(rbase, rops + r.applied).rows == Replay(map[], other + hist[n..])
            && Steps(rbase, rops + r.applied).lsn == |hist|
  {
    hide LogOf, ApplyDelta, EncodeDelta, Proper, Replay, Steps;
    var n := |other|;
    LogOfParts(base, ops, hist);
    LogOfParts(rbase, rops, other);
    DeltaCatchesUp(base, ops, hist, n);
    assert other == (other + hist[n..])[..n] && hist[n..] == (other + hist[n..])[n..];
    LogOfExtends(rbase, rops, other + hist[n..], n);
    LogOfMeans(rbase, rops + hist[n..], other + hist[n..]);
  }

  /** The requester's rows after the primary's answer, a delta or the snapshot that lists `rs`. */
  ghost function Synced(base: Image, ops: seq<Entry>, rs: seq<RowImage>, rbase: Image, rops: seq<Entry>): Rows
    requires base.lsn <= Steps(rbase, rops).lsn <= base.lsn + |ops|
             || !ReachesBack(base.lsn, Steps(base, ops), rbase.version, Steps(rbase, rops).lsn)
    requires Steps(rbase, rops).lsn < U64
  {
    var m, n := Steps(base, ops), Steps(rbase, rops).lsn;
    if ReachesBack(base.lsn, m, rbase.version, n) then
      Steps(rbase, rops + ApplyDelta(EncodeDelta(n, n + 1, ops[n - base.lsn..]), n).applied).rows
    else
      match DecodeSnapshot(EncodeSnapshot(m.lsn, m.version, rs))
      case None => Steps(rbase, rops).rows
      case Some(image) => image.rows
  }

  /** Whatever the n operations behind a requester's LSN are, it ends with the primary's rows. */
  ghost predicate SyncsRight(base: Image, ops: seq<Entry>, hist: seq<Entry>, rs: seq<RowImage>, version: nat, n: nat)
    requires LogOf(base, ops, hist)
  {
    forall rbase, rops, other ::
      LogOf(rbase, rops, other) && |other| == n && rbase.version == version ==>
        Right(base, ops, hist, rs, rbase, rops, other)
  }

  ghost predicate Right(base: Image, ops: seq<Entry>, hist: seq<Entry>, rs: seq<RowImage>, rbase: Image,
                        rops: seq<Entry>, other: seq<Entry>)
    requires LogOf(base, ops, hist) && LogOf(rbase, rops, other)
  {
    InReach(base, ops, hist, rbase, rops, other);
    Synced(base, ops, rs, rbase, rops) == Steps(base, ops).rows
  }

  lemma InReach(base: Image, ops: seq<Entry>, hist: seq<Entry>, rbase: Image, rops: seq<Entry>, other: seq<Entry>)
    requires LogOf(base, ops, hist) && LogOf(rbase, rops, other)
    ensures Steps(base, ops).lsn == |hist| == base.lsn + |ops| && Steps(rbase, rops).lsn == |other| < U64
    ensures ReachesBack(base.lsn, Steps(base, ops), rbase.version, |other|) ==> base.lsn <= |other| <= |hist|
  {
    hide Replay, Proper, Steps;
    LogOfMeans(base, ops, hist);
    LogOfMeans(rbase, rops, other);
  }

  /** LSN and version are all the primary looks at. An answer to them is right for every requester if and only
      if it is a snapshot of a table that fits its format, or a delta for one that says it has nothing. */
  lemma SyncsRightExactly(base: Image, ops: seq<Entry>, hist: seq<Entry>, rs: seq<RowImage>, version: nat, n: nat)
    requires LogOf(base, ops, hist) && base.version < U64 && ListsRows(Steps(base, ops).rows, rs) && n < U64
    ensures SyncsRight(base, ops, hist, rs, version, n)
            <==> if ReachesBack(base.lsn, Steps(base, ops), version, n) then n == 0
                 else FitsTable(Steps(base, ops).rows)
  {
    hide LogOf, Right, Steps, ReachesBack, ListsRows, FitsTable, Strangers;
    if ReachesBack(base.lsn, Steps(base, ops), version, n) && n > 0 {
      Diverges(base, ops, hist, rs, version, n);
    } else if !ReachesBack(base.lsn, Steps(base, ops), version, n) && !FitsTable(Steps(base, ops).rows) {
      TooWide(base, ops, hist, rs, version, n);
    } else {
      forall rbase, rops, other | LogOf(rbase, rops, other) && |other| == n && rbase.version == version
        ensures Right(base, ops, hist, rs, rbase, rops, other)
      {
        SnapshotOrNothing(base, ops, hist, rs, rbase, rops, other);
      }
    }
  }

  lemma SnapshotOrNothing(base: Image, ops: seq<Entry>, hist: seq<Entry>, rs: seq<RowImage>, rbase: Image,
                          rops: seq<Entry>, other: seq<Entry>)
    requires LogOf(base, ops, hist) && LogOf(rbase, rops, other) && base.version < U64
    requires ListsRows(Steps(base, ops).rows, rs)
    requires if ReachesBack(base.lsn, Steps(base, ops), rbase.version, |other|) then other == []
             else FitsTable(Steps(base, ops).rows)
    ensures Right(base, ops, hist, rs, rbase, rops, other)
  {
    hide LogOf, Steps, ListsRows, FitsTable, DecodeSnapshot, EncodeSnapshot, ApplyDelta, EncodeDelta, Replay, Covered,
      FilterOf;
    InReach(base, ops, hist, rbase, rops, other);
    LogOfMeans(base, ops, hist);
    LogOfParts(base, ops, hist);
    StepsFields(base, ops);
    if ReachesBack(base.lsn, Steps(base, ops), rbase.version, |other|) {
      ForeignDelta(base, ops, hist, rbase, rops, other);
      assert other + hist[0..] == hist;
    } else {
      SnapshotRoundTrip(Steps(base, ops).rows, rs, Steps(base, ops).lsn, Steps(base, ops).version);
    }
  }

  /** n puts into one row. */
  function Strangers(n: nat, row: Data): seq<Entry> {
    seq(n, i => PutEntry(row, [], []))
  }

  /** A requester whose row is unknown to the primary keeps it. */
  lemma Diverges(base: Image, ops: seq<Entry>, hist: seq<Entry>, rs: seq<RowImage>, version: nat, n: nat)
    requires LogOf(base, ops, hist) && ReachesBack(base.lsn, Steps(base, ops), version, n) && 0 < n < U64
    ensures !SyncsRight(base, ops, hist, rs, version, n)
  {
    hide Steps, Replay, ApplyDelta, EncodeDelta, LogOf, PutRows;
    LogOfParts(base, ops, hist);
    var row := UnknownRow(hist);
    var other := Strangers(n, row);
    var rbase := EMPTY_IMAGE.(version := version);
    StrangersLog(rbase, n, row);
    InReach(base, ops, hist, rbase, other, other);
    ForeignDelta(base, ops, hist, rbase, other, other);
    LogOfMeans(base, ops, hist);
    ReplayKeys(map[], hist);
    ReplayKeys(map[], other + hist[n..]);
    assert row in PutRows(other + hist[n..]) by {
      InPutRows(other + hist[n..], 0);
      assert (other + hist[n..])[0] == PutEntry(row, [], []);
    }
    assert !Right(base, ops, hist, rs, rbase, other, other);
  }

  /** A snapshot of a table beyond the format's counts is refused or installs another table. */
  lemma TooWide(base: Image, ops: seq<Entry>, hist: seq<Entry>, rs: seq<RowImage>, version: nat, n: nat)
    requires LogOf(base, ops, hist) && !ReachesBack(base.lsn, Steps(base, ops), version, n) && n < U64
    requires !FitsTable(Steps(base, ops).rows)
    ensures !SyncsRight(base, ops, hist, rs, version, n)
  {
    hide Steps, Replay, LogOf, PutRows, FitsTable, DecodeSnapshot, EncodeSnapshot, Covered;
    LogOfParts(base, ops, hist);
    var row := UnknownRow(hist);
    var other := Strangers(n, row);
    var rbase := EMPTY_IMAGE.(version := version);
    StrangersLog(rbase, n, row);
    InReach(base, ops, hist, rbase, other, other);
    LogOfMeans(base, ops, hist);
    LogOfMeans(rbase, other, other);
    var m := Steps(base, ops);
    if DecodeSnapshot(EncodeSnapshot(m.lsn, m.version, rs)).Some? {
      DecodedFits(EncodeSnapshot(m.lsn, m.version, rs));
    } else {
      StrangersRows(n, row);
      ReplayKeys(map[], hist);
      EmptyFits();
    }
    assert !Right(base, ops, hist, rs, rbase, other, other);
  }

  lemma EmptyFits()
    ensures FitsTable(map[])
  {
  }

  lemma StrangersRows(n: nat, row: Data)
    ensures if n == 0 then Replay(map[], Strangers(n, row)) == map[] else row in Replay(map[], Strangers(n, row))
  {
    hide PutRows, ApplyEntry;
    if n > 0 {
      ReplayKeys(map[], Strangers(n, row));
      InPutRows(Strangers(n, row), 0);
    }
  }

  lemma InPutRows(es: seq<Entry>, i: nat)
    requires i < |es| && es[i].code == WAL_PUT
    ensures es[i].row in PutRows(es)
  {
    assert es[i] in es;
  }

  lemma StrangersLog(rbase: Image, n: nat, row: Data)
    requires rbase.rows == map[] && rbase.lsn == 0 && |row| < U32 && n < U64
    ensures LogOf(rbase, Strangers(n, row), Strangers(n, row))
  {
    var es := Strangers(n, row);
    assert es[..0] == [] && es[0..] == es;
    assert forall i :: 0 <= i < |es| ==> es[i] == PutEntry(row, [], []);
    assert Replay(map[], []) == map[];
  }

  /** There is always a row key of eight bytes that a log does not put. */
  ghost function UnknownRow(hist: seq<Entry>): (row: Data)
    requires |hist| < U64
    ensures |row| == 8 && row !in PutRows(hist)
  {
    PutRowsCount(hist);
    UnknownAmong(PutRows(hist), |hist|);
    var i :| 0 <= i <= |hist| && PutU64(i) !in PutRows(hist);
    PutU64(i)
  }

  lemma {:induction false} PutRowsCount(es: seq<Entry>)
    ensures |PutRows(es)| <= |es|
  {
    if es != [] {
      var init, e := es[..|es| - 1], es[|es| - 1];
      PutRowsCount(init);
      assert es == init + [e];
      assert PutRows(es) == PutRows(init) + (if e.code == WAL_PUT then {e.row} else {});
    }
  }

  lemma {:induction false} UnknownAmong(rows: set<Data>, n: nat)
    requires |rows| <= n < U64
    ensures exists i :: 0 <= i <= n && PutU64(i) !in rows
  {
    hide PutU64;
    if n > 0 && PutU64(n) in rows {
      UnknownAmong(rows - {PutU64(n)}, n - 1);
      var i :| 0 <= i <= n - 1 && PutU64(i) !in rows - {PutU64(n)};
      U64Apart(i, n);
    } else {
      assert PutU64(n) !in rows;
    }
  }

  lemma U64Apart(i: nat, j: nat)
    requires i < j < U64
    ensures PutU64(i) != PutU64(j)
  {
    hide PutU64, U64At;
    var a, b := PutU64(i), PutU64(j);
    assert a[0..8] == a && b[0..8] == b;
    U64RoundTrip(a, 0, i);
    U64RoundTrip(b, 0, j);
    Small64(i);
    Small64(j);
  }

  /** The smallest such case: level histories of one put each, of different values. */
  lemma EqualLsnDiverges(row: Data, col: Data, v: Data, w: Data)
    requires v != w && |row| < U32 && |col| < U32 && |v| < U32 && |w| < U32
    ensures var hist, other := [PutEntry(row, col, v)], [PutEntry(row, col, w)];
            && LogOf(EMPTY_IMAGE, hist, hist) && LogOf(EMPTY_IMAGE, other, other)
            && Lookup(Steps(EMPTY_IMAGE, hist).rows, row, col) == Some(v)
            && Lookup(Steps(EMPTY_IMAGE, other + ApplyDelta(EncodeDelta(1, 2, hist[1..]), 1).applied).rows, row, col)
               == Some(w)
  {
    hide ApplyDelta, EncodeDelta, FilterAfter, Bloom.Empty;
    var a, b := PutEntry(row, col, v), PutEntry(row, col, w);
    OneOpLog(a);
    OneOpLog(b);
    assert [a][1..] == [];
    DeltaExact(1, 1, []);
    assert [b] + [] == [b];
  }

  lemma OneOpLog(e: Entry)
    requires Proper(e) && e.code == WAL_PUT
    ensures LogOf(EMPTY_IMAGE, [e], [e]) && Lookup(Steps(EMPTY_IMAGE, [e]).rows, e.row, e.col) == Some(e.val)
  {
    hide FilterAfter, Bloom.Empty;
    assert [e][..0] == [] && [e][0..] == [e];
    StepsNone(EMPTY_IMAGE);
    StepsOne(EMPTY_IMAGE, [], e);
    assert [] + [e] == [e];
  }

  /** What the primary sends to a requester at n, applied at n, is the rest of the history. */
  lemma DeltaCatchesUp(base: Image, ops: seq<Entry>, hist: seq<Entry>, n: nat)
    requires LogOf(base, ops, hist) && base.lsn <= n <= |hist|
    ensures ops[n - base.lsn..] == hist[n..]
    ensures ApplyDelta(EncodeDelta(n, n + 1, hist[n..]), n) == Outcome(hist[n..], true)
  {
    hide Replay, ApplyDelta, EncodeDelta, Proper;
    DeltaExact(n, n, hist[n..]);
  }

  lemma LogOfExtends(base: Image, ops: seq<Entry>, hist: seq<Entry>, n: nat)
    requires n <= |hist| < U64 && ProperLog(hist) && LogOf(base, ops, hist[..n])
    ensures LogOf(base, ops + hist[n..], hist)
  {
    hide Replay, Proper;
    assert hist[..n][..base.lsn] == hist[..base.lsn];
    assert hist[..n][base.lsn..] + hist[n..] == hist[base.lsn..];
  }

  lemma LogOfSnapshot(m: Image, hist: seq<Entry>, base: Image, ops: seq<Entry>)
    requires LogOf(base, ops, hist) && m.rows == Steps(base, ops).rows && m.lsn == Steps(base, ops).lsn
    ensures LogOf(m, [], hist)
  {
    hide Replay, Proper, Steps;
    LogOfMeans(base, ops, hist);
    assert hist[..|hist|] == hist;
  }
}
