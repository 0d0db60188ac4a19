/**
 * What the depth-first search of `claim_model.py`, `_filter_evidence_derivations`, computes, as a function of the
 * citations and of the order of the dictionary. `EvidenceDerivations` proves the imperative search equal to it.
 */
module DerivationSearch {
  import opened Common
  import opened DerivationGraph

  const ON_STACK := 1
  const FINISHED := 2

  /** `stack.index(v)`. */
  function IndexOf(s: seq<Id>, v: Id): (i: nat)
    requires v in s
    ensures i < |s| && s[i] == v
  {
    if s[0] == v then 0 else 1 + IndexOf(s[1..], v)
  }

  /** The variables that the nested function `visit` shares with its enclosing function. */
  datatype Progress = Progress(state: map<Id, int>, stack: seq<Id>, invalid: set<Id>)

  /** The search only colours more spans and never loses its place. */
  ghost predicate Later(p: Progress, q: Progress) {
    q.stack == p.stack && p.state.Keys <= q.state.Keys && p.invalid <= q.invalid
  }

  /** `visit(v)`. */
  function VisitOne(g: Graph, p: Progress, v: Id): (q: Progress)
    requires v in g
    ensures Later(p, q)
    decreases g.Keys - p.state.Keys, 0
  {
    if v in p.invalid then p
    else if v in p.state then
      if p.state[v] == ON_STACK && v in p.stack then
        p.(invalid := p.invalid + ToSet(p.stack[IndexOf(p.stack, v)..]))
      else p
    else
      var entered := Progress(p.state[v := ON_STACK], p.stack + [v], p.invalid);
      assert v in g.Keys - p.state.Keys && v !in g.Keys - entered.state.Keys;
      var searched := VisitAll(g, entered, g[v], 0);
      Progress(searched.state[v := FINISHED], p.stack, searched.invalid)
  }

  /** The loop over parents, from position `i` on. */
  function VisitAll(g: Graph, p: Progress, parents: seq<Id>, i: nat): (q: Progress)
    requires i <= |parents|
    ensures Later(p, q)
    decreases g.Keys - p.state.Keys, |parents| - i + 1
  {
    if i == |parents| then p
    else
      var next := if parents[i] in g then VisitOne(g, p, parents[i]) else p;
      assert g.Keys - next.state.Keys <= g.Keys - p.state.Keys;
      VisitAll(g, next, parents, i + 1)
  }

  /** The spans that cite an unknown id. */
  function Dangling(g: Graph): set<Id> {
    set k | k in g && CitesUnknown(g, k)
  }

  /** The final `invalid_ids`: every span of the dictionary is visited in order. */
  function Invalid(g: Graph, order: seq<Id>): set<Id> {
    VisitAll(g, Progress(map[], [], Dangling(g)), order, 0).invalid
  }

  /** The ids the filter keeps. */
  function Survivors(g: Graph, order: seq<Id>): set<Id> {
    g.Keys - Invalid(g, order)
  }

  lemma VisitSnoc(g: Graph, p: Progress, parents: seq<Id>, i: nat)
    requires i < |parents|
    ensures VisitAll(g, p, parents, i) ==
            VisitAll(g, if parents[i] in g then VisitOne(g, p, parents[i]) else p, parents, i + 1)
  {
  }

  /** A first visit, once the search below it is known. */
  lemma Entering(g: Graph, p: Progress, v: Id, entered: Progress, searched: Progress)
    requires v in g && v !in p.invalid && v !in p.state
    requires entered == Progress(p.state[v := ON_STACK], p.stack + [v], p.invalid)
    requires searched == VisitAll(g, entered, g[v], 0)
    ensures VisitOne(g, p, v) == Progress(searched.state[v := FINISHED], p.stack, searched.invalid)
  {
  }

  // ---- the order of the dictionary matters ----

  /** `b` is derived from `a` and `c`, which are both derived from `b`. */
  const TWO_LOOPS: Graph := map["a" := ["b"], "b" := ["a", "c"], "c" := ["b"]]

  lemma NothingDangles()
    ensures Dangling(TWO_LOOPS) == {}
  {
    forall k | k in TWO_LOOPS ensures !CitesUnknown(TWO_LOOPS, k) {
      assert ToSet(TWO_LOOPS[k]) <= TWO_LOOPS.Keys;
    }
  }

  /**
   * With `a` on the stack, the visit of `b` finds the loop back to `a` and finishes `c` without looking at `b` again.
   */
  lemma BFromA()
    ensures VisitOne(TWO_LOOPS, Progress(map["a" := ON_STACK], ["a"], {}), "b") ==
            Progress(map["a" := ON_STACK, "b" := FINISHED, "c" := FINISHED], ["a"], {"a", "b"})
  {
    var g := TWO_LOOPS;
    var p1 := Progress(map["a" := ON_STACK], ["a"], {});
    var p2 := Progress(map["a" := ON_STACK, "b" := ON_STACK], ["a", "b"], {});
    var p3 := p2.(invalid := {"a", "b"});
    AMarksBoth(p2);
    CAfterB(p3);
    var p5 := Progress(p3.state["c" := FINISHED], ["a", "b"], p3.invalid);
    assert VisitAll(g, p2, ["a", "c"], 0) == VisitAll(g, p3, ["a", "c"], 1) == VisitAll(g, p5, ["a", "c"], 2) == p5;
    Entering(g, p1, "b", p2, p5);
  }

  lemma AMarksBoth(p: Progress)
    requires p == Progress(map["a" := ON_STACK, "b" := ON_STACK], ["a", "b"], {})
    ensures VisitOne(TWO_LOOPS, p, "a") == p.(invalid := {"a", "b"})
  {
    assert p.stack[IndexOf(p.stack, "a")..] == ["a", "b"];
    assert ToSet(["a", "b"]) == {"a", "b"};
  }

  lemma CAfterB(p: Progress)
    requires p == Progress(map["a" := ON_STACK, "b" := ON_STACK], ["a", "b"], {"a", "b"})
    ensures VisitOne(TWO_LOOPS, p, "c") == p.(state := p.state["c" := FINISHED])
  {
    var inside := Progress(p.state["c" := ON_STACK], ["a", "b", "c"], p.invalid);
    assert VisitOne(TWO_LOOPS, inside, "b") == inside;
    assert VisitAll(TWO_LOOPS, inside, ["b"], 0) == VisitAll(TWO_LOOPS, inside, ["b"], 1) == inside;
    Entering(TWO_LOOPS, p, "c", inside, inside);
  }

  /** Visiting `a` first keeps `c`, which then cites the dropped `b`. */
  lemma FirstOrderKeepsC()
    ensures Survivors(TWO_LOOPS, ["a", "b", "c"]) == {"c"}
  {
    var g := TWO_LOOPS;
    NothingDangles();
    BFromA();
    var p0 := Progress(map[], [], {});
    var p1 := Progress(map["a" := ON_STACK], ["a"], {});
    var p6 := Progress(map["a" := ON_STACK, "b" := FINISHED, "c" := FINISHED], ["a"], {"a", "b"});
    assert VisitAll(g, p1, ["b"], 0) == VisitAll(g, p6, ["b"], 1) == p6;
    Entering(g, p0, "a", p1, p6);
    Rest(g, p0, Progress(p6.state["a" := FINISHED], [], p6.invalid), ["a", "b", "c"]);
  }

  /** Spans that are coloured or invalid are not visited again. */
  lemma Rest(g: Graph, p: Progress, q: Progress, order: seq<Id>)
    requires |order| == 3 && (forall v :: v in order ==> v in g) && VisitOne(g, p, order[0]) == q
    requires forall v :: v in order ==> v in q.invalid || (v in q.state && q.state[v] == FINISHED)
    ensures VisitAll(g, p, order, 0) == q
  {
    assert VisitAll(g, p, order, 0) == VisitAll(g, q, order, 1);
    assert VisitOne(g, q, order[1]) == q;
    assert VisitAll(g, q, order, 1) == VisitAll(g, q, order, 2);
    assert VisitOne(g, q, order[2]) == q;
    assert VisitAll(g, q, order, 2) == VisitAll(g, q, order, 3);
  }

  /** With `c` on the stack, the visit of `b` finds both loops. */
  lemma BFromC()
    ensures VisitOne(TWO_LOOPS, Progress(map["c" := ON_STACK], ["c"], {}), "b") ==
            Progress(map["c" := ON_STACK, "b" := FINISHED, "a" := FINISHED], ["c"], {"a", "b", "c"})
  {
    var g := TWO_LOOPS;
    var p1 := Progress(map["c" := ON_STACK], ["c"], {});
    var p2 := Progress(map["c" := ON_STACK, "b" := ON_STACK], ["c", "b"], {});
    AAfterB(p2);
    var p5 := Progress(p2.state["a" := FINISHED], ["c", "b"], {"a", "b"});
    assert p5.stack[IndexOf(p5.stack, "c")..] == ["c", "b"];
    assert ToSet(["c", "b"]) == {"b", "c"};
    var p6 := p5.(invalid := {"a", "b", "c"});
    assert VisitOne(g, p5, "c") == p6;
    assert VisitAll(g, p2, ["a", "c"], 0) == VisitAll(g, p5, ["a", "c"], 1) == VisitAll(g, p6, ["a", "c"], 2) == p6;
    Entering(g, p1, "b", p2, p6);
  }

  lemma AAfterB(p: Progress)
    requires p == Progress(map["c" := ON_STACK, "b" := ON_STACK], ["c", "b"], {})
    ensures VisitOne(TWO_LOOPS, p, "a") == Progress(p.state["a" := FINISHED], p.stack, {"a", "b"})
  {
    var inside := Progress(p.state["a" := ON_STACK], ["c", "b", "a"], {});
    assert inside.stack[IndexOf(inside.stack, "b")..] == ["b", "a"];
    assert ToSet(["b", "a"]) == {"a", "b"};
    var marked := inside.(invalid := {"a", "b"});
    assert VisitOne(TWO_LOOPS, inside, "b") == marked;
    assert VisitAll(TWO_LOOPS, inside, ["b"], 0) == VisitAll(TWO_LOOPS, marked, ["b"], 1) == marked;
    Entering(TWO_LOOPS, p, "a", inside, marked);
  }

  /** Visiting `c` first drops all three, and nothing is left to dangle. */
  lemma OtherOrderDropsAll()
    ensures Survivors(TWO_LOOPS, ["c", "a", "b"]) == {}
  {
    var g := TWO_LOOPS;
    NothingDangles();
    BFromC();
    var p0 := Progress(map[], [], {});
    var p1 := Progress(map["c" := ON_STACK], ["c"], {});
    var p7 := Progress(map["c" := ON_STACK, "b" := FINISHED, "a" := FINISHED], ["c"], {"a", "b", "c"});
    assert VisitAll(g, p1, ["b"], 0) == VisitAll(g, p7, ["b"], 1) == p7;
    Entering(g, p0, "c", p1, p7);
    Rest(g, p0, Progress(p7.state["c" := FINISHED], [], p7.invalid), ["c", "a", "b"]);
  }
}
