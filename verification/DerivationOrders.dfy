/**
 * When the order of the dictionary does not matter to `_filter_evidence_derivations` although derivations cycle: if no
 * span on a cycle cites two spans on cycles, the search finds every cycle whole, wherever it starts.
 */
module DerivationOrders {
  import opened Common
  import opened DerivationGraph
  import opened DerivationSearch
  import opened Evidence
  import EvidenceDerivations

  /** A span on a cycle cites one span on a cycle, and if it cites an unknown id, so does that one. */
  ghost predicate SimpleCycles(g: Graph) {
    forall v, u :: Follows(g, v, u) ==>
      && (forall w :: Follows(g, v, w) ==> w == u)
      && (CitesUnknown(g, v) ==> CitesUnknown(g, u))
  }

  /** The step from a span on a cycle to one that it cites and that is on a cycle too. */
  ghost predicate Follows(g: Graph, v: Id, u: Id) {
    v in g && u in g[v] && OnCycle(g, v) && OnCycle(g, u)
  }

  /** Without cycles there is nothing to demand. */
  lemma AcyclicIsSimple(g: Graph)
    requires Acyclic(g)
    ensures SimpleCycles(g)
  {
  }

  // ---- cycles ----

  lemma CycleFrom(g: Graph, p: seq<Id>, v: Id, i: nat)
    requires IsCycle(g, p, v) && i < |p|
    ensures OnCycle(g, p[i])
  {
    if i == 0 || i == |p| - 1 {
      assert IsCycle(g, p, v);
    } else {
      var q := p[i..] + p[1..i + 1];
      forall j | 0 <= j < |q| - 1 ensures q[j] in g && q[j + 1] in g[q[j]] {
        if j < |p| - i - 1 {
          assert q[j] == p[i + j] && q[j + 1] == p[i + j + 1];
        } else {
          var k := j - (|p| - i - 1);
          assert q[j] == p[k] && q[j + 1] == p[k + 1];
        }
      }
      assert q[|q| - 1] == p[i];
      assert IsCycle(g, q, p[i]);
    }
  }

  lemma CycleFollows(g: Graph, p: seq<Id>, v: Id, i: nat)
    requires IsCycle(g, p, v) && i < |p| - 1
    ensures Follows(g, p[i], p[i + 1])
  {
    CycleFrom(g, p, v, i);
    CycleFrom(g, p, v, i + 1);
  }

  // ---- what the search keeps ----

  /** Marks spread along cycles. */
  ghost predicate MarksFollow(g: Graph, marked: set<Id>) {
    forall v, u :: v in marked && Follows(g, v, u) ==> u in marked
  }

  /** The stack is a path of spans that are coloured as being on it. */
  ghost predicate StackOk(g: Graph, p: Progress) {
    && (forall i :: 0 <= i < |p.stack| ==> p.stack[i] in g && p.stack[i] in p.state && p.state[p.stack[i]] == ON_STACK)
    && (forall i :: 0 <= i < |p.stack| - 1 ==> p.stack[i + 1] in g[p.stack[i]])
  }

  /** Every span on a cycle that was left is marked. */
  ghost predicate LeftAreMarked(g: Graph, p: Progress) {
    forall v :: v in p.state && v !in p.stack && OnCycle(g, v) ==> v in p.invalid
  }

  ghost predicate Sound(g: Graph, p: Progress) {
    MarksFollow(g, p.invalid) && StackOk(g, p) && LeftAreMarked(g, p)
  }

  /** The next visit continues the path on the stack. */
  predicate Continues(g: Graph, p: Progress, v: Id) {
    p.stack == [] || (p.stack[|p.stack| - 1] in g && v in g[p.stack[|p.stack| - 1]])
  }

  /** A path that closes on itself. */
  ghost predicate IsLoop(g: Graph, tail: seq<Id>) {
    IsPath(g, tail) && tail[0] in g[tail[|tail| - 1]]
  }

  /** On a loop, the span that follows a member is a member. */
  lemma LoopFollows(g: Graph, tail: seq<Id>, j: nat, u: Id)
    requires SimpleCycles(g) && IsLoop(g, tail) && j < |tail| && Follows(g, tail[j], u)
    ensures u in tail
  {
    var loop := tail + [tail[0]];
    assert IsCycle(g, loop, tail[0]);
    CycleFollows(g, loop, tail[0], j);
    assert u == loop[j + 1];
  }

  lemma TailIsLoop(g: Graph, p: Progress, v: Id)
    requires StackOk(g, p) && v in p.stack && Continues(g, p, v)
    ensures IsLoop(g, p.stack[IndexOf(p.stack, v)..])
  {
    var i := IndexOf(p.stack, v);
    var tail := p.stack[i..];
    forall j | 0 <= j < |tail| - 1 ensures tail[j + 1] in g[tail[j]] {
      assert tail[j] == p.stack[i + j] && tail[j + 1] == p.stack[i + j + 1];
    }
  }

  /** Marking the tail of the stack from `v` on marks a whole cycle. */
  lemma MarkingFollows(g: Graph, p: Progress, v: Id)
    requires SimpleCycles(g) && Sound(g, p) && v in p.stack && Continues(g, p, v)
    ensures MarksFollow(g, p.invalid + ToSet(p.stack[IndexOf(p.stack, v)..]))
  {
    var tail := p.stack[IndexOf(p.stack, v)..];
    TailIsLoop(g, p, v);
    forall w, u | w in tail && Follows(g, w, u) ensures u in tail {
      var j :| 0 <= j < |tail| && tail[j] == w;
      LoopFollows(g, tail, j, u);
    }
  }

  /** A cycle with one marked member after its start is marked up to its end. */
  lemma {:induction false} MarkedAlong(g: Graph, marked: set<Id>, p: seq<Id>, v: Id, i: nat)
    requires IsCycle(g, p, v) && MarksFollow(g, marked) && 1 <= i < |p| && p[1] in marked
    ensures p[i] in marked
  {
    if i > 1 {
      MarkedAlong(g, marked, p, v, i - 1);
      CycleFollows(g, p, v, i - 1);
    }
  }

  /** After all parents are settled, a span on a cycle is marked. */
  lemma MarkedAfterParents(g: Graph, marked: set<Id>, v: Id)
    requires OnCycle(g, v) && MarksFollow(g, marked)
    requires v in g && forall u :: u in g[v] && u in g && OnCycle(g, u) ==> u in marked
    ensures v in marked
  {
    var p :| IsCycle(g, p, v);
    CycleFollows(g, p, v, 0);
    assert p[1] in g;
    MarkedAlong(g, marked, p, v, |p| - 1);
  }

  lemma EnteringIsSound(g: Graph, p: Progress, v: Id)
    requires Sound(g, p) && v in g && v !in p.state && Continues(g, p, v)
    ensures Sound(g, Progress(p.state[v := ON_STACK], p.stack + [v], p.invalid))
  {
  }

  lemma LeavingIsSound(g: Graph, p: Progress, v: Id, searched: Progress)
    requires Sound(g, p) && v in g && v !in p.state && Sound(g, searched) && searched.stack == p.stack + [v]
    requires OnCycle(g, v) ==> v in searched.invalid
    ensures Sound(g, Progress(searched.state[v := FINISHED], p.stack, searched.invalid))
  {
    assert v !in p.stack;
    forall i | 0 <= i < |p.stack| ensures p.stack[i] in searched.state && searched.state[p.stack[i]] == ON_STACK {
      assert searched.stack[i] == p.stack[i];
    }
    forall w | w in searched.state && w != v && w !in p.stack ensures w !in searched.stack {
    }
  }

  /** A visit keeps this and marks the visited span if it is on a cycle. */
  lemma {:induction false} VisitMarks(g: Graph, p: Progress, v: Id)
    requires SimpleCycles(g) && Sound(g, p) && v in g && Continues(g, p, v)
    ensures Sound(g, VisitOne(g, p, v))
    ensures OnCycle(g, v) ==> v in VisitOne(g, p, v).invalid
    decreases g.Keys - p.state.Keys, 0
  {
    if v in p.invalid {
    } else if v in p.state {
      if v in p.stack {
        MarkingFollows(g, p, v);
        assert v == p.stack[IndexOf(p.stack, v)..][0];
      }
    } else {
      var entered := Progress(p.state[v := ON_STACK], p.stack + [v], p.invalid);
      assert v in g.Keys - p.state.Keys && v !in g.Keys - entered.state.Keys;
      EnteringIsSound(g, p, v);
      ParentsMark(g, entered, g[v], 0);
      var searched := VisitAll(g, entered, g[v], 0);
      if OnCycle(g, v) {
        MarkedAfterParents(g, searched.invalid, v);
      }
      LeavingIsSound(g, p, v, searched);
    }
  }

  lemma {:induction false} ParentsMark(g: Graph, p: Progress, parents: seq<Id>, i: nat)
    requires SimpleCycles(g) && Sound(g, p) && i <= |parents|
    requires forall u :: u in parents ==> Continues(g, p, u)
    ensures Sound(g, VisitAll(g, p, parents, i))
    ensures forall j :: i <= j < |parents| && parents[j] in g && OnCycle(g, parents[j]) ==>
              parents[j] in VisitAll(g, p, parents, i).invalid
    decreases g.Keys - p.state.Keys, |parents| - i + 1
  {
    if i < |parents| {
      var next := if parents[i] in g then VisitOne(g, p, parents[i]) else p;
      if parents[i] in g {
        VisitMarks(g, p, parents[i]);
      }
      assert g.Keys - next.state.Keys <= g.Keys - p.state.Keys;
      ParentsMark(g, next, parents, i + 1);
    }
  }

  /** If cycles are simple, every order of the dictionary drops all of their members. */
  lemma SimpleCyclesAreDropped(g: Graph, order: seq<Id>)
    requires SimpleCycles(g) && g.Keys <= ToSet(order)
    ensures EvidenceDerivations.NoCycleMember(g, Survivors(g, order))
  {
    var start := Progress(map[], [], Dangling(g));
    ParentsMark(g, start, order, 0);
    forall v | OnCycle(g, v) ensures v !in Survivors(g, order) {
      var p :| IsCycle(g, p, v);
      assert v in g && v in ToSet(order);
      var j :| 0 <= j < |order| && order[j] == v;
    }
  }

  /** Then whether the rest is closed does not depend on the order either. */
  lemma SimpleSurvivorsClosed(g: Graph, order: seq<Id>, issues: seq<Issue>)
    requires SimpleCycles(g) && g.Keys <= ToSet(order)
    requires EvidenceDerivations.Filtered(g, Survivors(g, order), issues)
    ensures Closed(Keep(g, Survivors(g, order))) <==> EvidenceDerivations.FlawsSpread(g)
  {
    SimpleCyclesAreDropped(g, order);
    EvidenceDerivations.SurvivorsClosed(g, Survivors(g, order), issues);
  }
}
