/**
 * Which evidence is derived from which, as a directed graph: a node is an evidence id, an edge leads from a
 * span to a span it was derived from. Every definition here is independent of any search order.
 */
module DerivationGraph {
  import opened Common

  type Graph = map<Id, seq<Id>>

  ghost predicate IsPath(g: Graph, p: seq<Id>) {
    && |p| > 0
    && (forall i :: 0 <= i < |p| ==> p[i] in g)
    && (forall i :: 0 <= i < |p| - 1 ==> p[i + 1] in g[p[i]])
  }

  ghost predicate IsCycle(g: Graph, p: seq<Id>, v: Id) {
    IsPath(g, p) && |p| >= 2 && p[0] == v && p[|p| - 1] == v
  }

  /** `v` is derived, through at least one step, from itself. */
  ghost predicate OnCycle(g: Graph, v: Id) {
    exists p :: IsCycle(g, p, v)
  }

  ghost predicate Acyclic(g: Graph) {
    forall v :: !OnCycle(g, v)
  }

  /** `set(derived_from_evidence_ids) - all_ids`. */
  function UnknownParents(g: Graph, v: Id): set<Id>
    requires v in g
  {
    ToSet(g[v]) - g.Keys
  }

  predicate CitesUnknown(g: Graph, v: Id) {
    v in g && UnknownParents(g, v) != {}
  }

  lemma CitesUnknownMeans(g: Graph, v: Id)
    requires v in g
    ensures CitesUnknown(g, v) <==> exists u :: u in g[v] && u !in g
  {
    assert CitesUnknown(g, v) ==> exists u :: u in UnknownParents(g, v);
    assert forall u :: u in g[v] && u !in g ==> u in UnknownParents(g, v);
  }

  ghost predicate Closed(g: Graph) {
    forall v :: v in g ==> !CitesUnknown(g, v)
  }

  /** The graph of the spans that survive; a survivor still lists every parent it had. */
  function Keep(g: Graph, kept: set<Id>): Graph {
    map v | v in g && v in kept :: g[v]
  }

  /** Every edge between members leads to a member of smaller rank. */
  ghost predicate RankedBy(g: Graph, rank: map<Id, nat>) {
    && g.Keys <= rank.Keys
    && forall v, u :: v in g && u in g[v] && u in g ==> rank[u] < rank[v]
  }

  lemma {:induction false} RankFallsAlongPath(g: Graph, rank: map<Id, nat>, p: seq<Id>, k: nat)
    requires RankedBy(g, rank) && IsPath(g, p) && k < |p|
    ensures rank[p[k]] + k <= rank[p[0]]
  {
    if k > 0 {
      RankFallsAlongPath(g, rank, p, k - 1);
      assert p[(k - 1) + 1] in g[p[k - 1]];
    }
  }

  /** A graph whose edges all lower a rank has no cycle, self-links included. */
  lemma RankedIsAcyclic(g: Graph, rank: map<Id, nat>)
    requires RankedBy(g, rank)
    ensures Acyclic(g)
  {
    forall v ensures !OnCycle(g, v) {
      if OnCycle(g, v) {
        var p :| IsCycle(g, p, v);
        RankFallsAlongPath(g, rank, p, |p| - 1);
      }
    }
  }
}
