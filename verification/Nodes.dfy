/** The coordinator's records (coordinator/src/coordinator.cc:24-46) and what one ping does to them.

    A probe of a node brings back its answer to PING or nothing; the answer is already parsed.
 */
module Nodes {
  import opened Bytes

  type Id = string

  datatype StorageNode = StorageNode(
    id: Id, host: string, port: int, alive: bool, wasDown: bool,
    lsn: nat, tabletLsns: map<string, nat>, processId: nat, missed: nat)

  /** `nodeIds[0]` is the primary. */
  datatype TabletGroup = TabletGroup(name: string, rowStart: Data, rowEnd: Data, nodeIds: seq<Id>)

  /** "LSN=", "TABLET_LSNS=" and "PID=" of an answer, as far as it has them. */
  datatype Pong = Pong(lsn: Option<nat>, tabletLsns: map<string, nat>, pid: nat)

  function Parsed(node: StorageNode, pong: Pong): StorageNode {
    node.(lsn := if pong.lsn.Some? then pong.lsn.value else node.lsn,
          tabletLsns := if pong.tabletLsns != map[] then pong.tabletLsns else node.tabletLsns,
          processId := if pong.pid > 0 then pong.pid else node.processId)
  }

  function NodeTabletLsn(node: StorageNode, tablet: string): nat {
    if tablet in node.tabletLsns then node.tabletLsns[tablet] else node.lsn
  }

  /** `ping_node`: a miss is counted, and one at or past the threshold takes an alive node down. */
  function Pinged(node: StorageNode, reply: Option<Pong>, threshold: int): StorageNode {
    if reply.None? then
      var n := node.(missed := node.missed + 1);
      if n.alive && n.missed >= threshold then n.(alive := false, wasDown := true) else n
    else
      var n := Parsed(node.(missed := 0, alive := true), reply.value);
      if !node.alive && node.wasDown then n.(wasDown := false) else n
  }

  predicate DeclaredDown(node: StorageNode, reply: Option<Pong>, threshold: int) {
    reply.None? && node.alive && node.missed + 1 >= threshold
  }

  /** The heartbeat's own test for a recovery. */
  predicate DeclaredRecovered(node: StorageNode, reply: Option<Pong>, threshold: int) {
    var n := Pinged(node, reply, threshold);
    node.wasDown && n.alive && !n.wasDown
  }

  predicate Restarted(node: StorageNode, reply: Option<Pong>) {
    && reply.Some? && node.alive && !node.wasDown
    && node.processId > 0 && Parsed(node, reply.value).processId != node.processId
  }

  /** `refresh_node_lsn_now`: only an answer changes anything, and it clears every suspicion. */
  function Refreshed(node: StorageNode, reply: Option<Pong>): StorageNode {
    if reply.Some? then Parsed(node.(missed := 0, alive := true, wasDown := false), reply.value)
    else node
  }
}
