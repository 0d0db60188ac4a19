/**
 * The derivation filter: a three-colour depth-first search with an explicit stack and a growing set of
 * invalid spans (`claim_model.py`, `_filter_evidence_derivations`).
 */
module EvidenceDerivations {
  import opened Common
  import opened DerivationGraph
  import opened DerivationSearch
  import opened Evidence
  import opened Ordering

  /** A path whose top cites its element `i`: going up from `j` and round through `i` is a cycle. */
  lemma StackCycle(graph: Graph, stack: seq<Id>, i: nat, j: nat)
    requires i <= j < |stack| && (forall k :: k in stack ==> k in graph)
    requires forall m :: 0 <= m < |stack| - 1 ==> stack[m + 1] in graph[stack[m]]
    requires stack[i] in graph[stack[|stack| - 1]]
    ensures IsCycle(graph, stack[j..] + stack[i..j + 1], stack[j])
  {
    var p := stack[j..] + stack[i..j + 1];
    forall m | 0 <= m < |p| - 1 ensures p[m] in graph && p[m + 1] in graph[p[m]] {
      if m < |stack| - j - 1 {
        assert p[m] == stack[j + m] && p[m + 1] == stack[j + m + 1];
      } else if m == |stack| - j - 1 {
        assert p[m] == stack[|stack| - 1] && p[m + 1] == stack[i];
      } else {
        var n := m - (|stack| - j);
        assert p[m] == stack[i + n] && p[m + 1] == stack[i + n + 1];
      }
    }
  }

  /** What the search has recorded about spans. */
  datatype Trace = Trace(state: map<Id, int>, invalid: set<Id>, finishedAt: map<Id, nat>, clock: nat)

  /** The search moved on from `a` to `b`: nothing recorded was changed. */
  ghost predicate Extends(a: Trace, b: Trace) {
    && (forall k :: k in a.state ==> k in b.state && b.state[k] == a.state[k])
    && a.invalid <= b.invalid
    && (forall k :: k in a.state && a.state[k] == FINISHED && k in a.finishedAt
          ==> k in b.finishedAt && b.finishedAt[k] == a.finishedAt[k])
    && a.clock <= b.clock
  }

  ghost predicate Finished(t: Trace, v: Id) {
    v in t.state && t.state[v] == FINISHED
  }

  /** A finished valid span cites only invalid spans and spans that finished before it. */
  ghost predicate InOrder(g: Graph, t: Trace) {
    && (forall v :: Finished(t, v) ==> v in t.finishedAt && t.finishedAt[v] < t.clock)
    && (forall v, u :: Finished(t, v) && v in g && u in g[v] && u in g && v !in t.invalid && u !in t.invalid
          ==> Finished(t, u) && t.finishedAt[u] < t.finishedAt[v])
  }

  /** The stack holds exactly the spans with that colour, each once and each cited by the one below it. */
  ghost predicate PathOnStack(g: Graph, stack: seq<Id>, state: map<Id, int>) {
    && Distinct(stack)
    && (forall k :: k in stack <==> k in state && state[k] == ON_STACK)
    && (forall k :: k in stack ==> k in g)
    && (forall i :: 0 <= i < |stack| - 1 ==> stack[i + 1] in g[stack[i]])
  }

  lemma PopKeepsPath(g: Graph, stack: seq<Id>, state: map<Id, int>, v: Id)
    requires PathOnStack(g, stack, state) && stack != [] && stack[|stack| - 1] == v
    ensures PathOnStack(g, stack[..|stack| - 1], state[v := FINISHED])
  {
    var rest := stack[..|stack| - 1];
    assert stack == rest + [v];
    assert v !in rest;
  }

  lemma FinishKeepsOrder(g: Graph, t: Trace, v: Id)
    requires InOrder(g, t) && v in g && !Finished(t, v)
    requires forall u :: u in g[v] && u in g ==> u in t.invalid || Finished(t, u)
    ensures InOrder(g, Trace(t.state[v := FINISHED], t.invalid, t.finishedAt[v := t.clock], t.clock + 1))
  {
  }

  ghost predicate Settled(t: Trace, v: Id) {
    v in t.invalid || Finished(t, v)
  }

  /** The known ones among the first `i` parents are settled. */
  ghost predicate SettledUpTo(g: Graph, t: Trace, parents: seq<Id>, i: int)
    requires 0 <= i <= |parents|
  {
    forall j :: 0 <= j < i && parents[j] in g ==> Settled(t, parents[j])
  }

  lemma SettledOneMore(g: Graph, before: Trace, after: Trace, parents: seq<Id>, i: nat)
    requires i < |parents| && SettledUpTo(g, before, parents, i) && Extends(before, after)
    requires parents[i] in g ==> Settled(after, parents[i])
    ensures SettledUpTo(g, after, parents, i + 1)
  {
    forall j | 0 <= j < i && parents[j] in g ensures Settled(after, parents[j]) {
      assert Settled(before, parents[j]);
    }
  }

  lemma ExtendsTransitive(a: Trace, b: Trace, c: Trace)
    requires Extends(a, b) && Extends(b, c)
    ensures Extends(a, c)
  {
  }

  /** The variables that the nested function `visit` shares with its enclosing function. */
  class DerivationScan {
    const graph: Graph
    var state: map<Id, int>
    var stack: seq<Id>
    var invalid: set<Id>
    /** Position of every finished span in the order of finishing. */
    ghost var finishedAt: map<Id, nat>
    ghost var clock: nat

    function Snapshot(): Progress reads this {
      Progress(state, stack, invalid)
    }

    ghost predicate Done(v: Id) reads this {
      Finished(Record(), v)
    }

    ghost predicate StackIsPath() reads this {
      PathOnStack(graph, stack, state)
    }

    /** A span is invalid only for a reason, and every dangling citation is a reason. */
    ghost predicate InvalidJustified() reads this {
      && invalid <= graph.Keys
      && (forall k :: k in invalid ==> CitesUnknown(graph, k) || OnCycle(graph, k))
      && (forall k :: CitesUnknown(graph, k) ==> k in invalid)
    }

    /** A finished valid span cites only invalid spans and spans that finished before it. */
    ghost predicate FinishedInOrder() reads this {
      InOrder(graph, Record())
    }

    ghost predicate Valid() reads this {
      && state.Keys <= graph.Keys
      && (forall k :: k in state ==> state[k] == ON_STACK || state[k] == FINISHED)
      && StackIsPath()
      && InvalidJustified()
      && FinishedInOrder()
    }

    ghost function Record(): Trace reads this {
      Trace(state, invalid, finishedAt, clock)
    }

    constructor (graph: Graph, dangling: set<Id>)
      requires forall k :: k in dangling <==> CitesUnknown(graph, k)
      ensures Valid() && this.graph == graph && stack == [] && state == map[] && invalid == dangling
    {
      this.graph := graph;
      state, stack, invalid, finishedAt, clock := map[], [], dangling, map[], 0;
    }

    /** Everything from the first visit of `v` up to the top of the stack lies on a cycle. */
    lemma StackTailIsCyclic(v: Id)
      requires Valid() && v in stack && v in graph[stack[|stack| - 1]]
      ensures forall k :: k in stack[IndexOf(stack, v)..] ==> OnCycle(graph, k)
    {
      var i := IndexOf(stack, v);
      forall k | k in stack[i..] ensures OnCycle(graph, k) {
        var j :| i <= j < |stack| && stack[j] == k;
        StackCycle(graph, stack, i, j);
        assert IsCycle(graph, stack[j..] + stack[i..j + 1], k);
      }
    }

    /** First visit: colour `v` and push it. */
    method Enter(v: Id)
      requires Valid() && v in graph && v !in state
      requires stack != [] ==> v in graph[stack[|stack| - 1]]
      modifies this
      ensures Valid() && Extends(old(Record()), Record())
      ensures Snapshot() == Progress(old(state)[v := ON_STACK], old(stack) + [v], old(invalid))
    {
      state := state[v := ON_STACK];
      stack := stack + [v];
    }

    /** A visit that meets the stack: everything from `v` upwards is invalid. */
    method MarkCycle(v: Id)
      requires Valid() && v in stack && v in graph[stack[|stack| - 1]]
      modifies this`invalid
      ensures Valid() && v in invalid && Extends(old(Record()), Record())
      ensures invalid == old(invalid) + ToSet(stack[IndexOf(stack, v)..])
    {
      StackTailIsCyclic(v);
      var tail := stack[IndexOf(stack, v)..];
      assert tail[0] == v;
      invalid := invalid + ToSet(tail);
    }

    /** Last visit: `v` is on top and everything it cites is settled. */
    method Leave(v: Id)
      requires Valid() && stack != [] && stack[|stack| - 1] == v
      requires forall u :: u in graph[v] && u in graph ==> u in invalid || Done(u)
      modifies this
      ensures Valid() && Done(v)
      ensures stack == old(stack)[..|old(stack)| - 1] && state == old(state)[v := FINISHED]
      ensures invalid == old(invalid) && finishedAt == old(finishedAt)[v := old(clock)] && clock == old(clock) + 1
    {
      FinishKeepsOrder(graph, Record(), v);
      PopKeepsPath(graph, stack, state, v);
      stack := stack[..|stack| - 1];
      state := state[v := FINISHED];
      finishedAt := finishedAt[v := clock];
      clock := clock + 1;
      assert StackIsPath();
      assert InvalidJustified();
      assert FinishedInOrder();
    }

    /**
     * Depth-first visit. It always returns, leaves the stack as it was, and settles `v`: either `v` is
     * invalid or its whole derivation has been searched. What it does to the variables is `VisitOne`.
     */
    method Visit(v: Id)
      requires Valid() && v in graph
      requires stack != [] ==> v in graph[stack[|stack| - 1]]
      modifies this
      ensures Valid() && stack == old(stack)
      ensures Extends(old(Record()), Record())
      ensures v in invalid || Done(v)
      ensures Snapshot() == VisitOne(graph, old(Snapshot()), v)
      decreases graph.Keys - state.Keys, 0
    {
      if v in invalid {
        return;
      }
      var current := if v in state then state[v] else 0;
      if current == FINISHED {
        return;
      }
      if current == ON_STACK {
        if v in stack {
          MarkCycle(v);
        }
        return;
      }
      assert v in graph.Keys - state.Keys;
      Enter(v);
      assert v !in graph.Keys - state.Keys;
      VisitParents(v);
      Leave(v);
      assert stack == old(stack);
    }

    /** The span is invalid or searched, so visiting it again changes nothing. */
    ghost predicate SettledSpan(v: Id) reads this {
      Settled(Record(), v)
    }

    /** The loop over the parents of `v` before turn `i`; it started with `entered` and the record `start`. */
    ghost predicate InLoop(v: Id, i: int, entered: Progress, start: Trace)
      reads this
    {
      && Valid() && v in graph && stack != [] && stack[|stack| - 1] == v && stack == entered.stack
      && Extends(start, Record())
      && 0 <= i <= |graph[v]|
      && SettledUpTo(graph, Record(), graph[v], i)
      && VisitAll(graph, Snapshot(), graph[v], i) == VisitAll(graph, entered, graph[v], 0)
    }

    /** One turn of the loop over parents. */
    method VisitParent(v: Id, i: nat, ghost entered: Progress, ghost start: Trace)
      requires InLoop(v, i, entered, start) && i < |graph[v]|
      modifies this
      ensures InLoop(v, i + 1, entered, start)
      ensures old(state).Keys <= state.Keys
      decreases graph.Keys - state.Keys, 1
    {
      ghost var before := Record();
      var u := graph[v][i];
      VisitSnoc(graph, Snapshot(), graph[v], i);
      if u in graph {
        Visit(u);
      }
      ExtendsTransitive(start, before, Record());
      SettledOneMore(graph, before, Record(), graph[v], i);
    }

    /** The loop of a first visit. */
    method VisitParents(v: Id)
      requires Valid() && v in graph && stack != [] && stack[|stack| - 1] == v
      modifies this
      ensures Valid() && stack == old(stack)
      ensures Extends(old(Record()), Record())
      ensures forall u :: u in graph[v] && u in graph ==> SettledSpan(u)
      ensures Snapshot() == VisitAll(graph, old(Snapshot()), graph[v], 0)
      decreases graph.Keys - state.Keys, 2
    {
      ghost var entered, start := Snapshot(), Record();
      for i := 0 to |graph[v]|
        invariant InLoop(v, i, entered, start)
        invariant old(state).Keys <= state.Keys
      {
        VisitParent(v, i, entered, start);
      }
    }
  }

  /** The issues of the first loop: one per span that cites an unknown id. */
  function DanglingIssues(g: Graph, keys: seq<Id>): seq<Issue>
    requires ToSet(keys) <= g.Keys
  {
    if keys == [] then
      []
    else
      var front, k := keys[..|keys| - 1], keys[|keys| - 1];
      assert k in ToSet(keys) && ToSet(front) <= ToSet(keys);
      DanglingIssues(g, front) +
      if CitesUnknown(g, k) then [Issue(Some(k), EvidenceDerivationUnknown, Sorted(UnknownParents(g, k)))] else []
  }

  lemma {:induction false} DanglingIssuesEmpty(g: Graph, keys: seq<Id>)
    requires ToSet(keys) <= g.Keys
    ensures DanglingIssues(g, keys) == [] <==> forall k :: k in keys ==> !CitesUnknown(g, k)
  {
    if keys != [] {
      var front, k := keys[..|keys| - 1], keys[|keys| - 1];
      assert keys == front + [k];
      assert k in ToSet(keys) && ToSet(front) <= ToSet(keys);
      DanglingIssuesEmpty(g, front);
    }
  }

  function CycleIssues(ids: seq<Id>): seq<Issue> {
    seq(|ids|, i requires 0 <= i < |ids| => Issue(Some(ids[i]), EvidenceDerivationCycle, []))
  }

  /** Dropped without a dangling citation: the `cycle_ids`. */
  function CyclicDropped(g: Graph, kept: set<Id>): set<Id> {
    set k | k in g && k !in kept && !CitesUnknown(g, k)
  }

  /** Every issue of one run: dangling citations in dictionary order, then cycle members in text order. */
  function AllIssues(g: Graph, keys: seq<Id>, kept: set<Id>): seq<Issue>
    requires ToSet(keys) <= g.Keys
  {
    DanglingIssues(g, keys) + CycleIssues(Sorted(CyclicDropped(g, kept)))
  }

  /** The issues of a ledger of which `kept` survives. */
  function LedgerIssues(evidence: Ledger, kept: set<Id>): seq<Issue>
    requires KeyedById(evidence)
  {
    AllIssues(Citations(evidence), evidence.keys, kept)
  }

  /** `{key: value for key, value in evidence_by_id.items() if key not in invalid_ids}` as a graph. */
  lemma RemainingLedger(evidence: Ledger, invalid: set<Id>)
    requires KeyedById(evidence) && invalid <= evidence.at.Keys
    ensures var kept := evidence.Without(invalid);
      && KeyedById(kept)
      && kept.at.Keys == evidence.at.Keys - invalid
      && evidence.at.Keys - kept.at.Keys == invalid
      && Citations(kept) == Keep(Citations(evidence), kept.at.Keys)
  {
    var kept := evidence.Without(invalid);
    assert forall k :: k in kept.at ==> kept.at[k] == evidence.at[k];
    assert evidence.at.Keys - kept.at.Keys == invalid;
  }

  /** What the filter promises about the graph `g` it was given, the spans it kept and the issues it raised. */
  ghost predicate Filtered(g: Graph, kept: set<Id>, issues: seq<Issue>) {
    && kept <= g.Keys
    && Acyclic(Keep(g, kept))
    && (forall k :: k in g && k !in kept ==> CitesUnknown(g, k) || OnCycle(g, k))
    && (forall k :: k in kept ==> !CitesUnknown(g, k))
    && (issues == [] <==> Closed(g) && Acyclic(g))
    && (issues == [] <==> kept == g.Keys)
  }

  /**
   * `_filter_evidence_derivations`. Works on every graph: the survivors contain no derivation cycle, a span is
   * dropped only for a dangling citation or a real cycle, and nothing is reported exactly when the graph is
   * closed and acyclic. Which spans survive is a function of the citations and the dictionary order.
   */
  method FilterEvidenceDerivations(evidence: Ledger) returns (kept: Ledger, issues: seq<Issue>)
    requires KeyedById(evidence)
    ensures KeyedById(kept) && kept == evidence.Without(evidence.at.Keys - kept.at.Keys)
    ensures Citations(kept) == Keep(Citations(evidence), kept.at.Keys)
    ensures kept.at.Keys == Survivors(Citations(evidence), evidence.keys)
    ensures Filtered(Citations(evidence), kept.at.Keys, issues)
    ensures issues == AllIssues(Citations(evidence), evidence.keys, kept.at.Keys)
  {
    var g := Citations(evidence);
    var dangling;
    issues, dangling := ReportDangling(evidence);
    var invalid := Search(g, evidence.keys, dangling);
    RemainingLedger(evidence, invalid);
    kept := evidence.Without(invalid);
    var cyclic := set k | k in invalid && !CitesUnknown(g, k);
    assert cyclic == CyclicDropped(g, kept.at.Keys);
    issues := issues + CycleIssues(Sorted(cyclic));
    OutcomeIsFiltered(g, evidence.keys, invalid);
  }

  /** The second loop: visit every span; the result is the final `invalid_ids`. */
  method Search(g: Graph, keys: seq<Id>, dangling: set<Id>) returns (invalid: set<Id>)
    requires ToSet(keys) == g.Keys
    requires forall k :: k in dangling <==> CitesUnknown(g, k)
    ensures invalid <= g.Keys && Acyclic(Keep(g, g.Keys - invalid))
    ensures forall k :: k in invalid ==> CitesUnknown(g, k) || OnCycle(g, k)
    ensures forall k :: CitesUnknown(g, k) ==> k in invalid
    ensures invalid == Invalid(g, keys)
  {
    var scan := new DerivationScan(g, dangling);
    assert dangling == Dangling(g);
    VisitEverything(scan, keys);
    SearchSettlesEverything(scan, keys);
    invalid := scan.invalid;
  }

  /** The second loop before turn `i`; it started with `start`. */
  ghost predicate Searching(scan: DerivationScan, keys: seq<Id>, i: int, start: Progress)
    reads scan
  {
    && scan.Valid() && scan.stack == [] && ToSet(keys) == scan.graph.Keys && 0 <= i <= |keys|
    && (forall j :: 0 <= j < i ==> scan.SettledSpan(keys[j]))
    && VisitAll(scan.graph, scan.Snapshot(), keys, i) == VisitAll(scan.graph, start, keys, 0)
  }

  method VisitNext(scan: DerivationScan, keys: seq<Id>, i: nat, ghost start: Progress)
    requires Searching(scan, keys, i, start) && i < |keys|
    modifies scan
    ensures Searching(scan, keys, i + 1, start)
  {
    assert keys[i] in ToSet(keys);
    VisitSnoc(scan.graph, scan.Snapshot(), keys, i);
    scan.Visit(keys[i]);
  }

  method VisitEverything(scan: DerivationScan, keys: seq<Id>)
    requires scan.Valid() && scan.stack == [] && ToSet(keys) == scan.graph.Keys
    modifies scan
    ensures scan.Valid() && forall j :: 0 <= j < |keys| ==> keys[j] in scan.invalid || scan.Done(keys[j])
    ensures scan.Snapshot() == VisitAll(scan.graph, old(scan.Snapshot()), keys, 0)
  {
    ghost var start := scan.Snapshot();
    for i := 0 to |keys|
      invariant Searching(scan, keys, i, start)
    {
      VisitNext(scan, keys, i, start);
    }
  }

  /** The first loop: every span that cites an id outside the dictionary. */
  method ReportDangling(evidence: Ledger) returns (issues: seq<Issue>, dangling: set<Id>)
    requires KeyedById(evidence)
    ensures var g := Citations(evidence); forall k :: k in dangling <==> CitesUnknown(g, k)
    ensures ToSet(evidence.keys) == Citations(evidence).Keys
    ensures issues == DanglingIssues(Citations(evidence), evidence.keys)
  {
    var g := Citations(evidence);
    issues, dangling := [], {};
    for i := 0 to |evidence.keys|
      invariant forall k :: k in dangling <==> k in evidence.keys[..i] && CitesUnknown(g, k)
      invariant ToSet(evidence.keys[..i]) <= g.Keys
      invariant issues == DanglingIssues(g, evidence.keys[..i])
    {
      var k := evidence.KeyAt(i);
      var shorter, longer := evidence.keys[..i], evidence.keys[..i + 1];
      assert longer[..|longer| - 1] == shorter && longer == shorter + [k];
      if CitesUnknown(g, k) {
        dangling := dangling + {evidence.at[k].id};
        issues := issues + [Issue(Some(evidence.at[k].id), EvidenceDerivationUnknown, Sorted(UnknownParents(g, k)))];
      }
    }
    assert evidence.keys[..|evidence.keys|] == evidence.keys;
    assert forall k :: k in g ==> k in ToSet(evidence.keys);
  }

  /** What the finished search leaves satisfies the promise. */
  lemma OutcomeIsFiltered(g: Graph, keys: seq<Id>, invalid: set<Id>)
    requires ToSet(keys) == g.Keys && invalid <= g.Keys
    requires Acyclic(Keep(g, g.Keys - invalid))
    requires forall k :: k in invalid ==> CitesUnknown(g, k) || OnCycle(g, k)
    requires forall k :: CitesUnknown(g, k) ==> k in invalid
    ensures Filtered(g, g.Keys - invalid, AllIssues(g, keys, g.Keys - invalid))
  {
    var cyclic := CyclicDropped(g, g.Keys - invalid);
    DanglingIssuesEmpty(g, keys);
    AllKept(g, g.Keys - invalid);
    assert forall k :: k in g ==> k in ToSet(keys);
    SortedIs(cyclic);
    var issues := AllIssues(g, keys, g.Keys - invalid);
    assert issues == [] <==> invalid == {} by {
      if invalid != {} {
        var k :| k in invalid;
        assert k in keys;
        assert CitesUnknown(g, k) || k in cyclic;
      }
    }
    assert g.Keys - invalid == g.Keys <==> invalid == {} by {
      assert forall k :: k in invalid ==> k in g.Keys && k !in g.Keys - invalid;
    }
  }

  /** After every span is settled, the finishing order ranks the survivors. */
  lemma SearchSettlesEverything(scan: DerivationScan, keys: seq<Id>)
    requires scan.Valid() && ToSet(keys) == scan.graph.Keys
    requires forall j :: 0 <= j < |keys| ==> keys[j] in scan.invalid || scan.Done(keys[j])
    ensures Acyclic(Keep(scan.graph, scan.graph.Keys - scan.invalid))
  {
    assert forall k :: k in scan.graph ==> k in ToSet(keys);
    var kept := Keep(scan.graph, scan.graph.Keys - scan.invalid);
    var rank := map k | k in kept :: scan.finishedAt[k];
    assert RankedBy(kept, rank);
    RankedIsAcyclic(kept, rank);
  }

  /** Nothing was dropped exactly when there was no reason to drop anything. */
  lemma AllKept(g: Graph, kept: set<Id>)
    requires kept <= g.Keys && Acyclic(Keep(g, kept))
    requires forall k :: k in g && k !in kept ==> CitesUnknown(g, k) || OnCycle(g, k)
    requires forall k :: k in kept ==> !CitesUnknown(g, k)
    ensures kept == g.Keys <==> Closed(g) && Acyclic(g)
  {
    assert kept == g.Keys ==> Keep(g, kept) == g;
    if Closed(g) && Acyclic(g) {
      assert forall k :: k in g ==> k in kept;
    }
  }

  lemma KeptCycleIsCycle(g: Graph, kept: set<Id>, p: seq<Id>, v: Id)
    requires IsCycle(g, p, v) && kept <= g.Keys
    ensures (forall i :: 0 <= i < |p| ==> p[i] in kept) ==> IsCycle(Keep(g, kept), p, v)
  {
  }

  /** No cycle escapes: at least one member of every derivation cycle is dropped. */
  lemma EveryCycleLosesAMember(g: Graph, kept: set<Id>, issues: seq<Issue>, p: seq<Id>, v: Id)
    requires Filtered(g, kept, issues) && IsCycle(g, p, v)
    ensures exists i :: 0 <= i < |p| && p[i] !in kept
  {
    KeptCycleIsCycle(g, kept, p, v);
    assert IsCycle(Keep(g, kept), p, v) ==> OnCycle(Keep(g, kept), v);
  }

  /** The filter is a single pass, so what it keeps need not be closed: `a` still cites the dropped `b`. */
  lemma KeptSpanMayDangle(kept: set<Id>, issues: seq<Issue>)
    requires Filtered(map["a" := ["b"], "b" := ["z"]], kept, issues)
    ensures kept == {"a"} && !Closed(Keep(map["a" := ["b"], "b" := ["z"]], kept))
  {
    var g: Graph := map["a" := ["b"], "b" := ["z"]];
    assert "z" in UnknownParents(g, "b") by { assert g["b"][0] == "z"; }
    assert UnknownParents(g, "a") == {};
    var rank: map<Id, nat> := map["a" := 1, "b" := 0];
    assert RankedBy(g, rank);
    RankedIsAcyclic(g, rank);
    var h := Keep(g, kept);
    assert "b" in UnknownParents(h, "a") by { assert h["a"][0] == "b"; }
  }

  /** A reason to be dropped, whatever the order of the dictionary. */
  ghost predicate Flawed(g: Graph, v: Id) {
    CitesUnknown(g, v) || OnCycle(g, v)
  }

  /** Whoever cites a flawed span is flawed. */
  ghost predicate FlawsSpread(g: Graph) {
    forall v, u :: v in g && u in g[v] && Flawed(g, u) ==> Flawed(g, v)
  }

  ghost predicate NoCycleMember(g: Graph, kept: set<Id>) {
    forall v :: OnCycle(g, v) ==> v !in kept
  }

  /** In a closed rest, whoever cites a dropped span was dropped. */
  lemma ClosedMeans(g: Graph, kept: set<Id>)
    requires kept <= g.Keys
    ensures Closed(Keep(g, kept)) <==> forall v, u :: v in kept && u in g[v] ==> u in kept
  {
    var h := Keep(g, kept);
    forall v | v in h ensures CitesUnknown(h, v) <==> exists u :: u in g[v] && u !in h {
      CitesUnknownMeans(h, v);
    }
    assert forall v :: v in kept <==> v in h;
  }

  /** Then a cycle with one dropped member is dropped up to its start. */
  lemma {:induction false} DroppedBackwards(g: Graph, kept: set<Id>, p: seq<Id>, i: nat)
    requires IsPath(g, p) && i < |p| && p[i] !in kept
    requires forall v, u :: v in kept && v in g && u in g[v] ==> u in kept
    ensures p[0] !in kept
  {
    if i > 0 {
      assert p[(i - 1) + 1] in g[p[i - 1]];
      DroppedBackwards(g, kept, p, i - 1);
    }
  }

  /**
   * Exactly when what the filter keeps is closed: no member of a cycle is kept, and whoever cites a flawed span is
   * flawed. The second half does not depend on the order of the dictionary.
   */
  lemma SurvivorsClosed(g: Graph, kept: set<Id>, issues: seq<Issue>)
    requires Filtered(g, kept, issues)
    ensures Closed(Keep(g, kept)) <==> NoCycleMember(g, kept) && FlawsSpread(g)
  {
    ClosedMeans(g, kept);
    if Closed(Keep(g, kept)) {
      forall v | OnCycle(g, v) ensures v !in kept {
        var p :| IsCycle(g, p, v);
        EveryCycleLosesAMember(g, kept, issues, p, v);
        var i :| 0 <= i < |p| && p[i] !in kept;
        DroppedBackwards(g, kept, p, i);
      }
    }
    if NoCycleMember(g, kept) && FlawsSpread(g) {
      forall v, u | v in kept && u in g[v] ensures u in kept {
        CitesUnknownMeans(g, v);
        assert u in g;
        assert u !in kept ==> Flawed(g, u);
        assert Flawed(g, u) ==> Flawed(g, v);
      }
    }
  }

  /**
   * Without cycles the order of the dictionary does not matter: the dangling spans go, and their absence must spread.
   */
  lemma AcyclicSurvivorsClosed(g: Graph, kept: set<Id>, issues: seq<Issue>)
    requires Filtered(g, kept, issues) && Acyclic(g)
    ensures Closed(Keep(g, kept)) <==> FlawsSpread(g)
    ensures kept == g.Keys - Dangling(g)
  {
    SurvivorsClosed(g, kept, issues);
  }

  /** The chain of `KeptSpanMayDangle` has a flawed span that an unflawed one cites. */
  lemma ChainNeedsSpread()
    ensures !FlawsSpread(map["a" := ["b"], "b" := ["z"]])
  {
    var g: Graph := map["a" := ["b"], "b" := ["z"]];
    assert "z" in UnknownParents(g, "b") by { assert g["b"][0] == "z"; }
    assert UnknownParents(g, "a") == {};
    var rank: map<Id, nat> := map["a" := 1, "b" := 0];
    assert RankedBy(g, rank);
    RankedIsAcyclic(g, rank);
    assert "b" in g["a"] by { assert g["a"][0] == "b"; }
    assert Flawed(g, "b") && !Flawed(g, "a");
  }

  /**
   * With cycles the order matters: the same citations survive in part, and then dangle, or are all dropped, and then
   * are closed.
   */
  lemma OrderDecides()
    ensures FlawsSpread(TWO_LOOPS)
    ensures !Closed(Keep(TWO_LOOPS, Survivors(TWO_LOOPS, ["a", "b", "c"])))
    ensures Closed(Keep(TWO_LOOPS, Survivors(TWO_LOOPS, ["c", "a", "b"])))
  {
    FirstOrderKeepsC();
    OtherOrderDropsAll();
    ClosedMeans(TWO_LOOPS, {"c"});
    assert "b" in TWO_LOOPS["c"] by { assert TWO_LOOPS["c"][0] == "b"; }
    ClosedMeans(TWO_LOOPS, {});
    assert IsCycle(TWO_LOOPS, ["a", "b", "a"], "a");
    assert IsCycle(TWO_LOOPS, ["b", "a", "b"], "b");
    assert IsCycle(TWO_LOOPS, ["c", "b", "c"], "c");
  }
}
