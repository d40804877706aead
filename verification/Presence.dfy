/** Worker presence: the collected messages reduced to one per node. */
module Presence {

  datatype Worker = Worker(nodeId: string, startedAt: int, state: string)

  /** Message `i` supersedes every message of its node: none started later, and none
      that started at the same time was seen later. */
  ghost predicate Newest(msgs: seq<Worker>, i: int) {
    && 0 <= i < |msgs|
    && forall j :: 0 <= j < |msgs| && msgs[j].nodeId == msgs[i].nodeId ==>
         msgs[j].startedAt < msgs[i].startedAt || (msgs[j].startedAt == msgs[i].startedAt && j <= i)
  }

  /** Every node that sent a message keeps its newest one, message `at[node]`. */
  ghost predicate Deduped(msgs: seq<Worker>, byNode: map<string, Worker>, at: map<string, int>) {
    && byNode.Keys == at.Keys
    && (forall i :: 0 <= i < |msgs| ==> msgs[i].nodeId in at)
    && (forall node :: node in at ==> Newest(msgs, at[node]) && msgs[at[node]] == byNode[node] && msgs[at[node]].nodeId == node)
  }

  lemma OlderChangesNothing(msgs: seq<Worker>, n: nat, byNode: map<string, Worker>, at: map<string, int>)
    requires n < |msgs| && Deduped(msgs[..n], byNode, at)
    requires msgs[n].nodeId in byNode && byNode[msgs[n].nodeId].startedAt > msgs[n].startedAt
    ensures Deduped(msgs[..n + 1], byNode, at)
  {
    forall node | node in at
      ensures Newest(msgs[..n + 1], at[node])
    {
      assert msgs[..n][at[node]] == msgs[at[node]];
    }
  }

  lemma NewerReplaces(msgs: seq<Worker>, n: nat, byNode: map<string, Worker>, at: map<string, int>)
    requires n < |msgs| && Deduped(msgs[..n], byNode, at)
    requires msgs[n].nodeId in byNode ==> byNode[msgs[n].nodeId].startedAt <= msgs[n].startedAt
    ensures Deduped(msgs[..n + 1], byNode[msgs[n].nodeId := msgs[n]], at[msgs[n].nodeId := n])
  {
    var m := msgs[n];
    forall j | 0 <= j < n && msgs[j].nodeId == m.nodeId
      ensures msgs[j].startedAt <= m.startedAt
    {
      assert msgs[..n][j].nodeId in at;
    }
    forall node | node in at && node != m.nodeId
      ensures Newest(msgs[..n + 1], at[node])
    {
      assert msgs[..n][at[node]] == msgs[at[node]];
    }
  }

  /** dedup_presence: every node that sent a message keeps exactly its newest one. */
  method DedupPresence(msgs: seq<Worker>) returns (byNode: map<string, Worker>)
    ensures forall i :: 0 <= i < |msgs| ==> msgs[i].nodeId in byNode
    ensures forall node :: node in byNode ==> exists i :: Newest(msgs, i) && msgs[i] == byNode[node] && msgs[i].nodeId == node
  {
    byNode := map[];
    ghost var at: map<string, int> := map[];
    for n := 0 to |msgs|
      invariant Deduped(msgs[..n], byNode, at)
    {
      var m := msgs[n];
      if m.nodeId in byNode && byNode[m.nodeId].startedAt > m.startedAt {
        OlderChangesNothing(msgs, n, byNode, at);
      } else {
        NewerReplaces(msgs, n, byNode, at);
        byNode := byNode[m.nodeId := m];
        at := at[m.nodeId := n];
      }
    }
    assert msgs[..|msgs|] == msgs;
  }

  /** A node has only one newest message, so the reduction leaves no choice. */
  lemma NewestUnique(msgs: seq<Worker>, i: int, j: int)
    requires Newest(msgs, i) && Newest(msgs, j) && msgs[i].nodeId == msgs[j].nodeId
    ensures i == j
  {
  }
}
