/** Workflow definitions and the graph they describe. */
module WorkflowGraph {
  import opened Wrappers

  datatype NodeId = NodeId(name: string)

  datatype Condition = Always | Contains(keyword: string) | Pattern(regex: string)

  datatype Node = Node(id: NodeId, agentId: string, template: Option<string>)

  datatype Edge = Edge(from: NodeId, to: NodeId, condition: Condition)

  datatype Workflow = Workflow(
    nodes: seq<Node>, edges: seq<Edge>, entryNodes: seq<NodeId>, exitNodes: seq<NodeId>)

  function IdsOf(nodes: seq<Node>): set<NodeId> {
    set n | n in nodes :: n.id
  }

  function Ids(w: Workflow): set<NodeId> {
    IdsOf(w.nodes)
  }

  predicate Unrepeated(nodes: seq<Node>) {
    forall i, j | 0 <= i < j < |nodes| :: nodes[i].id != nodes[j].id
  }

  predicate DistinctIds(w: Workflow) {
    Unrepeated(w.nodes)
  }

  predicate RefersToNodes(w: Workflow) {
    && (forall id | id in w.entryNodes :: id in Ids(w))
    && (forall id | id in w.exitNodes :: id in Ids(w))
    && (forall e | e in w.edges :: e.from in Ids(w) && e.to in Ids(w))
  }

  predicate HasEdge(w: Workflow, a: NodeId, b: NodeId) {
    exists e | e in w.edges :: e.from == a && e.to == b
  }

  ghost predicate IsPath(w: Workflow, p: seq<NodeId>) {
    |p| > 0 && forall i, j | 0 <= i < j < |p| && j == i + 1 :: HasEdge(w, p[i], p[j])
  }

  /** No path with at least one edge returns to its start. */
  ghost predicate Acyclic(w: Workflow) {
    forall p: seq<NodeId> | IsPath(w, p) && |p| > 1 :: p[0] != p[|p| - 1]
  }

  // ---- a ranking rules cycles out ----

  lemma {:induction false} RankGrowsAlong(w: Workflow, rank: map<NodeId, nat>, p: seq<NodeId>)
    requires forall e | e in w.edges :: e.from in rank && e.to in rank && rank[e.from] < rank[e.to]
    requires IsPath(w, p) && |p| > 1
    ensures p[0] in rank && p[|p| - 1] in rank && rank[p[0]] < rank[p[|p| - 1]]
  {
    assert HasEdge(w, p[0], p[1]);
    if |p| > 2 {
      assert IsPath(w, p[1..]);
      RankGrowsAlong(w, rank, p[1..]);
    }
  }

  lemma RankedIsAcyclic(w: Workflow, rank: map<NodeId, nat>)
    requires forall e | e in w.edges :: e.from in rank && e.to in rank && rank[e.from] < rank[e.to]
    ensures Acyclic(w)
  {
    forall p: seq<NodeId> | IsPath(w, p) && |p| > 1 ensures p[0] != p[|p| - 1] {
      RankGrowsAlong(w, rank, p);
    }
  }

  // ---- a set in which everyone has a predecessor holds a cycle ----

  ghost predicate HasPredecessorIn(w: Workflow, s: set<NodeId>, n: NodeId) {
    exists m | m in s :: HasEdge(w, m, n)
  }

  lemma {:induction false} WalkBack(w: Workflow, s: set<NodeId>, n: NodeId, length: nat) returns (p: seq<NodeId>)
    requires forall x {:trigger HasPredecessorIn(w, s, x)} | x in s :: HasPredecessorIn(w, s, x)
    requires n in s && length > 0
    ensures IsPath(w, p) && |p| == length && p[|p| - 1] == n && forall i | 0 <= i < |p| :: p[i] in s
    decreases length
  {
    if length == 1 {
      p := [n];
    } else {
      assert HasPredecessorIn(w, s, n);
      var m :| m in s && HasEdge(w, m, n);
      var q := WalkBack(w, s, m, length - 1);
      p := q + [n];
    }
  }

  lemma {:induction false} Pigeonhole<T>(p: seq<T>, s: set<T>)
    requires forall i | 0 <= i < |p| :: p[i] in s
    requires forall i, j | 0 <= i < j < |p| :: p[i] != p[j]
    ensures |p| <= |s|
  {
    if p != [] {
      Pigeonhole(p[1..], s - {p[0]});
    }
  }

  /** A path longer than the number of nodes repeats one, and the part between is a cycle. */
  lemma LongPathIsCyclic(w: Workflow, p: seq<NodeId>, s: set<NodeId>)
    requires IsPath(w, p) && |p| > |s| && forall i | 0 <= i < |p| :: p[i] in s
    ensures !Acyclic(w)
  {
    if forall i, j | 0 <= i < j < |p| :: p[i] != p[j] {
      Pigeonhole(p, s);
    }
    var i, j :| 0 <= i < j < |p| && p[i] == p[j];
    var loop := p[i..j + 1];
    forall a, b | 0 <= a < b < |loop| && b == a + 1 ensures HasEdge(w, loop[a], loop[b]) {
      assert HasEdge(w, p[i + a], p[i + b]);
    }
    assert IsPath(w, loop) && loop[0] == loop[|loop| - 1];
  }

  lemma PredecessorsMakeCycle(w: Workflow, s: set<NodeId>)
    requires s != {}
    requires forall x {:trigger HasPredecessorIn(w, s, x)} | x in s :: HasPredecessorIn(w, s, x)
    ensures !Acyclic(w)
  {
    var n :| n in s;
    var p := WalkBack(w, s, n, |s| + 1);
    LongPathIsCyclic(w, p, s);
  }

  // ---- counting node ids ----

  lemma IdsOfAppend(nodes: seq<Node>, last: Node)
    ensures IdsOf(nodes + [last]) == IdsOf(nodes) + {last.id}
  {
  }

  lemma UnrepeatedAppend(nodes: seq<Node>, last: Node)
    ensures Unrepeated(nodes + [last]) <==> Unrepeated(nodes) && last.id !in IdsOf(nodes)
  {
    var longer := nodes + [last];
    assert forall i | 0 <= i < |nodes| :: longer[i] == nodes[i];
    if last.id in IdsOf(nodes) {
      var i :| 0 <= i < |nodes| && nodes[i].id == last.id;
      assert longer[i].id == longer[|nodes|].id;
    } else if Unrepeated(nodes) {
      assert forall i | 0 <= i < |nodes| :: nodes[i].id in IdsOf(nodes);
    } else {
      var i, j :| 0 <= i < j < |nodes| && nodes[i].id == nodes[j].id;
      assert longer[i].id == longer[j].id;
    }
  }

  /** Ids are distinct exactly when there are as many of them as nodes. */
  lemma {:induction false} IdCount(nodes: seq<Node>)
    ensures |IdsOf(nodes)| <= |nodes|
    ensures |IdsOf(nodes)| == |nodes| <==> Unrepeated(nodes)
  {
    if nodes != [] {
      var k := |nodes| - 1;
      var rest, last := nodes[..k], nodes[k];
      assert nodes == rest + [last];
      IdCount(rest);
      IdsOfAppend(rest, last);
      UnrepeatedAppend(rest, last);
      if last.id in IdsOf(rest) {
        assert IdsOf(nodes) == IdsOf(rest);
      }
    }
  }
}
