/**
 * The automation workflow: a LangGraph `StateGraph` assembled by successive `add_node`,
 * `add_edge`, `set_entry_point` and `add_conditional_edges` calls, the fixed stage labels its node
 * functions return, and the routing rule of `evaluate_and_decide`. Only the declared table is
 * modelled, not the order in which the runtime executes a fan-out.
 */
module Workflow {
  import opened Wrappers

  /** LangGraph's `END` marker. */
  const End := "__end__"

  /** The declared graph: nodes, entry point, plain edges and `(source, label, target)` routes. */
  datatype Table = Table(nodes: seq<string>, entry: Option<string>, edges: seq<(string, string)>,
                         routes: seq<(string, string, string)>)

  /** The graph under construction. */
  class StateGraph {
    var nodes: seq<string>
    var entry: Option<string>
    var edges: seq<(string, string)>
    var routes: seq<(string, string, string)>

    function Declared(): Table
      reads this
    {
      Table(nodes, entry, edges, routes)
    }

    /** `StateGraph(dict)`: nothing declared yet. */
    constructor()
      ensures Declared() == Table([], None, [], [])
    {
      nodes := [];
      entry := None;
      edges := [];
      routes := [];
    }

    method AddNode(name: string)
      modifies this
      ensures Declared() == old(Declared()).(nodes := old(nodes) + [name])
    {
      nodes := nodes + [name];
    }

    method SetEntryPoint(name: string)
      modifies this
      ensures Declared() == old(Declared()).(entry := Some(name))
    {
      entry := Some(name);
    }

    method AddEdge(source: string, target: string)
      modifies this
      ensures Declared() == old(Declared()).(edges := old(edges) + [(source, target)])
    {
      edges := edges + [(source, target)];
    }

    /** `add_conditional_edges(source, router, path_map)`: one route per entry of the path map. */
    method AddConditionalEdges(source: string, pathMap: seq<(string, string)>)
      modifies this
      ensures Declared() == old(Declared()).(routes := old(routes) + Routes(source, pathMap))
    {
      var i := 0;
      ghost var r0 := routes;
      while i < |pathMap|
        invariant 0 <= i <= |pathMap|
        invariant routes == r0 + Routes(source, pathMap[..i])
        invariant nodes == old(nodes) && entry == old(entry) && edges == old(edges)
      {
        assert pathMap[..i + 1][..i] == pathMap[..i];
        routes := routes + [(source, pathMap[i].0, pathMap[i].1)];
        i := i + 1;
      }
      assert pathMap[..|pathMap|] == pathMap;
    }
  }

  /** The routes a path map declares for `source`, in the map's order. */
  function Routes(source: string, pathMap: seq<(string, string)>): (r: seq<(string, string, string)>)
    ensures |r| == |pathMap|
    decreases |pathMap|
  {
    if pathMap == [] then []
    else
      var n := |pathMap| - 1;
      Routes(source, pathMap[..n]) + [(source, pathMap[n].0, pathMap[n].1)]
  }

  /** The table the module-level statements declare. */
  function Workflow(): Table {
    Table(["reflect", "evaluate", "research", "compress", "evaluate_and_decide"],
          Some("reflect"),
          [("reflect", "evaluate"), ("evaluate", "research"), ("research", "compress"), ("compress", End),
           ("reflect", "evaluate_and_decide")],
          [("evaluate_and_decide", "research", "research"), ("evaluate_and_decide", "compress", "compress")])
  }

  /** The statements at module level, in their order. */
  method BuildWorkflow() returns (g: StateGraph)
    ensures fresh(g) && g.Declared() == Workflow()
  {
    g := new StateGraph();
    g.AddNode("reflect");
    g.AddNode("evaluate");
    g.AddNode("research");
    g.AddNode("compress");
    g.SetEntryPoint("reflect");
    g.AddEdge("reflect", "evaluate");
    g.AddEdge("evaluate", "research");
    g.AddEdge("research", "compress");
    g.AddEdge("compress", End);
    g.AddNode("evaluate_and_decide");
    g.AddEdge("reflect", "evaluate_and_decide");
    g.AddConditionalEdges("evaluate_and_decide", [("research", "research"), ("compress", "compress")]);
    assert [("research", "research"), ("compress", "compress")][..1] == [("research", "research")];
  }

  // ---------------------------------------------------------------------------
  // Transitions
  // ---------------------------------------------------------------------------

  /** A declared transition from `a` to `b`, plain or routed. */
  predicate Step(t: Table, a: string, b: string) {
    (a, b) in t.edges || exists r :: r in t.routes && r.0 == a && r.2 == b
  }

  /** `p` is a walk along declared transitions. */
  predicate IsPath(t: Table, p: seq<string>) {
    |p| >= 1 && forall i :: 0 <= i < |p| - 1 ==> Step(t, p[i], p[i + 1])
  }

  /** Transitions still needed to reach `END` along the longest path. */
  function Height(n: string): nat {
    if n == "reflect" then 4
    else if n == "evaluate" || n == "evaluate_and_decide" then 3
    else if n == "research" then 2
    else if n == "compress" then 1
    else 0
  }

  /** The successors of each node, exactly. */
  lemma StepTable(a: string, b: string)
    ensures Step(Workflow(), a, b) <==>
      (a == "reflect" && (b == "evaluate" || b == "evaluate_and_decide"))
      || (a == "evaluate" && b == "research")
      || (a == "research" && b == "compress")
      || (a == "compress" && b == End)
      || (a == "evaluate_and_decide" && (b == "research" || b == "compress"))
  {
    var t := Workflow();
    if a == "evaluate_and_decide" && b == "research" {
      assert t.routes[0] in t.routes;
    }
    if a == "evaluate_and_decide" && b == "compress" {
      assert t.routes[1] in t.routes;
    }
  }

  /** The entry is `reflect`, which has exactly the two successors `evaluate` and `evaluate_and_decide`. */
  lemma ReflectFansOut(b: string)
    ensures Workflow().entry == Some("reflect")
    ensures Step(Workflow(), "reflect", b) <==> b == "evaluate" || b == "evaluate_and_decide"
  {
    StepTable("reflect", b);
  }

  /** The router reaches only `research` or `compress`. */
  lemma RouterTargets(b: string)
    ensures Step(Workflow(), "evaluate_and_decide", b) <==> b == "research" || b == "compress"
  {
    StepTable("evaluate_and_decide", b);
  }

  /** Every transition lowers the height, so no walk returns to a node. */
  lemma StepDescends(a: string, b: string)
    requires Step(Workflow(), a, b)
    ensures Height(b) < Height(a)
  {
    StepTable(a, b);
  }

  /** The next node on the longest walk from `n`. */
  function Next(n: string): string {
    if n == "reflect" then "evaluate"
    else if n == "evaluate" then "research"
    else if n == "research" then "compress"
    else if n == "compress" then End
    else "compress"
  }

  /** Every declared node has a successor; `END` has none. */
  lemma OnlyEndIsFinal(n: string)
    ensures n in Workflow().nodes ==> Step(Workflow(), n, Next(n))
    ensures forall b :: !Step(Workflow(), End, b)
  {
    forall b ensures !Step(Workflow(), End, b) {
      StepTable(End, b);
    }
    StepTable(n, Next(n));
  }

  /** Along a walk the height falls by at least one per transition. */
  lemma {:induction false} PathDescends(p: seq<string>)
    requires IsPath(Workflow(), p)
    ensures Height(p[|p| - 1]) + |p| - 1 <= Height(p[0])
    decreases |p|
  {
    if |p| > 1 {
      var q := p[..|p| - 1];
      assert IsPath(Workflow(), q);
      PathDescends(q);
      StepDescends(p[|p| - 2], p[|p| - 1]);
    }
  }

  /** Acyclic: a walk with at least one transition never ends where it started. */
  lemma Acyclic(p: seq<string>)
    requires IsPath(Workflow(), p) && |p| >= 2
    ensures p[|p| - 1] != p[0]
  {
    PathDescends(p);
  }

  /** Every walk from the entry takes at most four transitions, and one that has not reached `END` can go on. */
  lemma WalksReachEnd(p: seq<string>)
    requires IsPath(Workflow(), p) && p[0] == "reflect"
    ensures |p| <= 5
    ensures p[|p| - 1] != End ==> Step(Workflow(), p[|p| - 1], Next(p[|p| - 1]))
  {
    PathDescends(p);
    var last := p[|p| - 1];
    if |p| > 1 {
      StepTable(p[|p| - 2], last);
    }
    StepTable(last, Next(last));
  }

  /** The longest walk: `reflect`, `evaluate`, `research`, `compress`, `END`. */
  lemma LongestWalk()
    ensures IsPath(Workflow(), ["reflect", "evaluate", "research", "compress", End])
  {
    var p := ["reflect", "evaluate", "research", "compress", End];
    forall i | 0 <= i < |p| - 1
      ensures Step(Workflow(), p[i], p[i + 1])
    {
      StepTable(p[i], p[i + 1]);
    }
  }

  // ---------------------------------------------------------------------------
  // Node functions and the routing rule
  // ---------------------------------------------------------------------------

  /** What a stage node runs, with the arguments it passes. */
  datatype Action =
    | RunReflection
    | RunEvaluation(days: int)
    | RunResearch(maxQuestions: int)
    | RunCompression(days: int)

  /** A stage node's work and the `stage` label of the state it returns. */
  datatype Stage = Stage(action: Action, stage: string)

  function StageOf(node: string): Option<Stage> {
    if node == "reflect" then Some(Stage(RunReflection, "reflected"))
    else if node == "evaluate" then Some(Stage(RunEvaluation(7), "evaluated"))
    else if node == "research" then Some(Stage(RunResearch(2), "researched"))
    else if node == "compress" then Some(Stage(RunCompression(14), "compressed"))
    else None
  }

  /** The four stage nodes are exactly the declared nodes other than the router, and their labels differ. */
  lemma StagesOfNodes(a: string, b: string)
    ensures StageOf(a).Some? <==> a in Workflow().nodes && a != "evaluate_and_decide"
    ensures StageOf(a).Some? && StageOf(b).Some? && a != b ==> StageOf(a).value.stage != StageOf(b).value.stage
  {
  }

  /** The bounds the stages run with: two research questions, a fourteen-day compression cutoff. */
  lemma StageArguments()
    ensures StageOf("research").value.action.maxQuestions == 2
    ensures StageOf("compress").value.action.days == 14
    ensures StageOf("evaluate").value.action.days == 7
  {
  }

  /**
   * The routing rule of `evaluate_and_decide` with the average score as input (the source leaves
   * the average as an `...` placeholder).
   */
  function Decide(average: real): (r: string)
    ensures r == "research" <==> average < 6.0
    ensures r == "research" || r == "compress"
  {
    if average < 6.0 then "research" else "compress"
  }

  /** The router's label names a declared route, and a low average leads to research. */
  lemma DecisionRoutes(average: real)
    ensures (Workflow().routes[0].1 == Decide(average) && Workflow().routes[0].2 == Decide(average))
         || (Workflow().routes[1].1 == Decide(average) && Workflow().routes[1].2 == Decide(average))
    ensures Step(Workflow(), "evaluate_and_decide", Decide(average))
  {
    RouterTargets(Decide(average));
  }

  /** The decision is monotone: a higher average never sends back to research. */
  lemma DecideMonotone(a: real, b: real)
    requires a <= b && Decide(a) == "compress"
    ensures Decide(b) == "compress"
  {
  }
}
