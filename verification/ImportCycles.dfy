/**
 The search for import cycles among the application's modules (scripts/audit_imports.py).
 Module names `M` are only ever compared for equality.
 */
module ImportCycles {
  import opened Graphs

  /** A printed line: the modules along a cycle, or the fallback that names only the closing import. */
  datatype Problem<M> = Cycle(path: seq<M>) | CycleAt(importer: M, imported: M)

  type ImportGraph<M> = map<M, seq<M>>

  ghost function Imports<M(!new)>(graph: ImportGraph<M>): set<(M, M)> {
    set m, i | m in graph && 0 <= i < |graph[m]| :: (m, graph[m][i])
  }

  ghost function Modules<M(!new)>(graph: ImportGraph<M>): set<M> {
    graph.Keys + (set m, i | m in graph && 0 <= i < |graph[m]| :: graph[m][i])
  }

  /** A genuine cycle of the graph that passes through no module twice. */
  ghost predicate GenuineCycle<M(!new)>(edges: set<(M, M)>, problem: Problem<M>) {
    && problem.Cycle?
    && IsCycle(edges, problem.path)
    && Distinct(problem.path[1..])
  }

  /** The imports that close the reported cycles. */
  ghost function Closing<M(!new)>(problems: seq<Problem<M>>): set<(M, M)> {
    if problems == [] then {}
    else
      var last := problems[|problems| - 1];
      Closing(problems[..|problems| - 1])
      + if last.Cycle? && |last.path| > 1 then {(last.path[|last.path| - 2], last.path[|last.path| - 1])} else {}
  }

  /** `s.index(x)` */
  function IndexOf<M(==, !new)>(s: seq<M>, x: M): (i: nat)
    requires x in s
    ensures i < |s| && s[i] == x && x !in s[..i]
  {
    if s[0] == x then 0 else 1 + IndexOf(s[1..], x)
  }

  ghost predicate Coloured<M(!new)>(state: map<M, int>, finished: map<M, nat>, stack: seq<M>) {
    && (forall m :: m in state ==> state[m] == 1 || state[m] == 2)
    && (forall m :: m in state && state[m] == 1 <==> m in stack)
    && (forall m :: m in finished <==> m in state && state[m] == 2)
  }

  ghost predicate Walk<M(!new)>(edges: set<(M, M)>, stack: seq<M>) {
    Distinct(stack) && (stack == [] || IsPath(edges, stack))
  }

  ghost predicate Settled<M(!new)>(finished: map<M, nat>, closing: set<(M, M)>, e: (M, M)) {
    (e.0 in finished && e.1 in finished && finished[e.1] < finished[e.0]) || e in closing
  }

  /** A finished module's import points at a module finished earlier, or it closes a reported cycle. */
  ghost predicate AllSettled<M(!new)>(edges: set<(M, M)>, finished: map<M, nat>, closing: set<(M, M)>) {
    && (forall m :: m in finished ==> finished[m] < |finished|)
    && (forall e :: e in edges && e.0 in finished ==> Settled(finished, closing, e))
  }

  ghost predicate AllGenuine<M(!new)>(edges: set<(M, M)>, problems: seq<Problem<M>>) {
    forall i :: 0 <= i < |problems| ==> GenuineCycle(edges, problems[i])
  }

  /** What holds whenever the modules on `stack` are exactly the ones being searched. */
  ghost predicate Consistent<M(!new)>(edges: set<(M, M)>, state: map<M, int>, finished: map<M, nat>,
                             problems: seq<Problem<M>>, stack: seq<M>)
  {
    && Coloured(state, finished, stack)
    && Walk(edges, stack)
    && AllSettled(edges, finished, Closing(problems))
    && AllGenuine(edges, problems)
  }

  ghost predicate Extends<M(!new)>(before: map<M, nat>, after: map<M, nat>) {
    forall x :: x in before ==> x in after && after[x] == before[x]
  }

  /** Nothing is unvisited, unfinished or unreported again. */
  ghost predicate Grown<M(!new)>(state: map<M, int>, stateAfter: map<M, int>, finished: map<M, nat>,
                        finishedAfter: map<M, nat>, problems: seq<Problem<M>>, problemsAfter: seq<Problem<M>>)
  {
    state.Keys <= stateAfter.Keys && Extends(finished, finishedAfter) && problems <= problemsAfter
  }

  /** Every import in `ns` of module `m` leads to a finished module or has been reported. */
  ghost predicate Handled<M(!new)>(m: M, ns: seq<M>, finished: map<M, nat>, closing: set<(M, M)>) {
    forall n :: n in ns ==> n in finished || (m, n) in closing
  }

  lemma HandledGrows<M(!new)>(m: M, ns: seq<M>, k: nat, finished: map<M, nat>, after: map<M, nat>,
                     closing: set<(M, M)>, more: set<(M, M)>)
    requires k < |ns| && Handled(m, ns[..k], finished, closing)
    requires Extends(finished, after) && closing <= more
    requires ns[k] in after || (m, ns[k]) in more
    ensures Handled(m, ns[..k + 1], after, more)
  {
    assert ns[..k + 1] == ns[..k] + [ns[k]];
  }

  ghost predicate AreImports<M(!new)>(graph: ImportGraph<M>, edges: set<(M, M)>, modules: set<M>) {
    && (forall m, i :: m in graph && 0 <= i < |graph[m]| ==> (m, graph[m][i]) in edges && graph[m][i] in modules)
    && (forall e :: e in edges ==> e.0 in graph && e.1 in graph[e.0])
    && graph.Keys <= modules
  }

  lemma ImportsCovered<M(!new)>(graph: ImportGraph<M>)
    ensures AreImports(graph, Imports(graph), Modules(graph))
  {}

  lemma Enter<M(!new)>(state: map<M, int>, finished: map<M, nat>, outer: seq<M>, m: M)
    requires Coloured(state, finished, outer) && m !in state
    ensures Coloured(state[m := 1], finished, outer + [m])
  {
    assert forall x :: x in outer + [m] <==> x in outer || x == m;
  }

  /** Cutting the stack at the module met again leaves a cycle. */
  lemma ReportIsGenuine<M(!new)>(edges: set<(M, M)>, stack: seq<M>, n: M)
    requires stack != [] && n in stack && Distinct(stack) && IsPath(edges, stack)
    requires (stack[|stack| - 1], n) in edges
    ensures GenuineCycle(edges, Cycle(stack[IndexOf(stack, n)..] + [n]))
  {
    var at := IndexOf(stack, n);
    var p := stack[at..] + [n];
    forall i | 0 <= i < |p| - 1 ensures (p[i], p[i + 1]) in edges {
      if i < |p| - 2 { assert (stack[at + i], stack[at + i + 1]) in edges; }
    }
    var q := p[1..];
    forall i, j | 0 <= i < j < |q| ensures q[i] != q[j] {
      assert q[i] == stack[at + 1 + i];
    }
  }

  lemma Report<M(!new)>(edges: set<(M, M)>, problems: seq<Problem<M>>, stack: seq<M>, n: M)
    requires Walk(edges, stack) && AllGenuine(edges, problems)
    requires stack != [] && n in stack && (stack[|stack| - 1], n) in edges
    ensures var after := problems + [Cycle(stack[IndexOf(stack, n)..] + [n])];
            AllGenuine(edges, after) && Closing(after) == Closing(problems) + {(stack[|stack| - 1], n)}
  {
    var p := stack[IndexOf(stack, n)..] + [n];
    var after := problems + [Cycle(p)];
    ReportIsGenuine(edges, stack, n);
    assert after[..|problems|] == problems && p[|p| - 2] == stack[|stack| - 1] && p[|p| - 1] == n;
  }

  lemma SettledGrows<M(!new)>(edges: set<(M, M)>, finished: map<M, nat>,
                     closing: set<(M, M)>, more: set<(M, M)>)
    requires AllSettled(edges, finished, closing) && closing <= more
    ensures AllSettled(edges, finished, more)
  {
    forall e | e in edges && e.0 in finished ensures Settled(finished, more, e) {
      assert Settled(finished, closing, e);
    }
  }

  lemma Leave<M(!new)>(state: map<M, int>, finished: map<M, nat>, outer: seq<M>, m: M)
    requires Coloured(state, finished, outer + [m]) && m !in outer
    ensures Coloured(state[m := 2], finished[m := |finished|], outer)
    ensures m !in finished
  {
    assert m in outer + [m];
    assert forall x :: x in outer + [m] <==> x in outer || x == m;
  }

  lemma Finish<M(!new)>(edges: set<(M, M)>, finished: map<M, nat>, closing: set<(M, M)>, m: M)
    requires AllSettled(edges, finished, closing) && m !in finished
    requires forall n :: (m, n) in edges ==> n in finished || (m, n) in closing
    ensures AllSettled(edges, finished[m := |finished|], closing)
  {
    var after := finished[m := |finished|];
    assert after.Keys == finished.Keys + {m};
    assert |after.Keys| == |finished.Keys| + 1;
    forall e | e in edges && e.0 in after ensures Settled(after, closing, e) {
      if e.0 != m {
        assert Settled(finished, closing, e);
      } else {
        assert e == (m, e.1);
      }
    }
  }

  /** With nothing left on the stack and every importer finished, only reported imports close cycles. */
  lemma Done<M(!new)>(edges: set<(M, M)>, state: map<M, int>, finished: map<M, nat>, problems: seq<Problem<M>>)
    requires Consistent(edges, state, finished, problems, [])
    requires forall e :: e in edges ==> e.0 in finished
    ensures problems != [] <==> HasCycle(edges)
    ensures !HasCycle(edges - Closing(problems))
  {
    RankedIsAcyclic(edges - Closing(problems), finished);
    if problems == [] {
      assert edges - Closing(problems) == edges;
    } else {
      assert GenuineCycle(edges, problems[0]);
    }
  }

  lemma {:induction false} ClosingGrows<M(!new)>(before: seq<Problem<M>>, after: seq<Problem<M>>)
    requires before <= after
    ensures Closing(before) <= Closing(after)
  {
    if |before| == |after| {
      assert before == after;
    } else {
      ClosingGrows(before, after[..|after| - 1]);
    }
  }

  lemma PathExtends<M(!new)>(edges: set<(M, M)>, stack: seq<M>, n: M)
    requires stack != [] && IsPath(edges, stack) && (stack[|stack| - 1], n) in edges
    ensures IsPath(edges, stack + [n])
  {
    var p := stack + [n];
    forall i | 0 <= i < |p| - 1 ensures (p[i], p[i + 1]) in edges {
      if i < |stack| - 1 { assert (stack[i], stack[i + 1]) in edges; }
    }
  }

  class CycleFinder<M(==, !new)> {
    /** Each module with the modules it imports, in the order the set yields them. */
    const graph: ImportGraph<M>

    /** 1 while a module is being searched, 2 once it is done. */
    var state: map<M, int>

    var problems: seq<Problem<M>>
    /** When each finished module was finished. */
    ghost var finished: map<M, nat>

    constructor (graph: ImportGraph<M>)
      ensures this.graph == graph && state == map[] && problems == [] && finished == map[]
    {
      this.graph, state, problems, finished := graph, map[], [], map[];
    }

    ghost predicate Valid(edges: set<(M, M)>, stack: seq<M>)
      reads this
    {
      Consistent(edges, state, finished, problems, stack)
    }

    /** The body of the loop of `Dfs`: one import of the module on top of the stack. */
    method Follow(m: M, n: M, stack: seq<M>, ghost edges: set<(M, M)>, ghost modules: set<M>)
      requires AreImports(graph, edges, modules)
      requires stack != [] && stack[|stack| - 1] == m && (m, n) in edges && n in modules
      requires Valid(edges, stack)
      modifies this
      ensures Valid(edges, stack)
      ensures Grown(old(state), state, old(finished), finished, old(problems), problems)
      ensures n in finished || (m, n) in Closing(problems)
      decreases modules - state.Keys, 1
    {
      if n in state && state[n] == 1 {
        Report(edges, problems, stack, n);
        SettledGrows(edges, finished, Closing(problems), Closing(problems) + {(m, n)});
        problems := problems + [if n in stack then Cycle(stack[IndexOf(stack, n)..] + [n]) else CycleAt(m, n)];
      } else if n !in state {
        PathExtends(edges, stack, n);
        assert (stack + [n])[..|stack|] == stack;
        Dfs(n, stack + [n], edges, modules);
      }
    }

    method Dfs(m: M, stack: seq<M>, ghost edges: set<(M, M)>, ghost modules: set<M>)
      requires AreImports(graph, edges, modules)
      requires stack != [] && stack[|stack| - 1] == m && m !in state && m in modules
      requires Valid(edges, stack[..|stack| - 1]) && Walk(edges, stack)
      modifies this
      ensures Valid(edges, stack[..|stack| - 1]) && m in finished
      ensures Grown(old(state), state, old(finished), finished, old(problems), problems)
      decreases modules - state.Keys, 0
    {
      hide AllSettled, AllGenuine, IsPath, Closing;
      ghost var outer := stack[..|stack| - 1];
      assert stack == outer + [m];
      Enter(state, finished, outer, m);
      state := state[m := 1];
      var successors := if m in graph then graph[m] else [];
      for k := 0 to |successors|
        invariant Valid(edges, stack) && m in state
        invariant Grown(old(state), state, old(finished), finished, old(problems), problems)
        invariant Handled(m, successors[..k], finished, Closing(problems))
      {
        ghost var before, finishedBefore := problems, finished;
        Follow(m, successors[k], stack, edges, modules);
        ClosingGrows(before, problems);
        HandledGrows(m, successors, k, finishedBefore, finished, Closing(before), Closing(problems));
      }
      assert successors[..|successors|] == successors;
      Leave(state, finished, outer, m);
      Finish(edges, finished, Closing(problems), m);
      state := state[m := 2];
      finished := finished[m := |finished|];
    }

    method Search(names: seq<M>, ghost edges: set<(M, M)>, ghost modules: set<M>)
      requires AreImports(graph, edges, modules)
      requires state == map[] && problems == [] && finished == map[]
      requires forall m :: m in names <==> m in graph
      modifies this
      ensures AllGenuine(edges, problems) && !HasCycle(edges - Closing(problems))
      ensures problems != [] <==> HasCycle(edges)
    {
      for k := 0 to |names|
        invariant Valid(edges, [])
        invariant forall m :: m in names[..k] ==> m in finished
      {
        ghost var before := finished;
        if names[k] !in state {
          assert [names[k]][..0] == [];
          Dfs(names[k], [names[k]], edges, modules);
        }
        assert names[k] in finished && Extends(before, finished);
        assert names[..k + 1] == names[..k] + [names[k]];
      }
      assert names[..|names|] == names;
      Done(edges, state, finished, problems);
    }

    /** The whole search, over `list(graph)`. */
    method Run(names: seq<M>)
      requires state == map[] && problems == [] && finished == map[]
      requires forall m :: m in names <==> m in graph
      modifies this
      ensures problems != [] <==> HasCycle(Imports(graph))
      ensures AllGenuine(Imports(graph), problems)
      ensures !HasCycle(Imports(graph) - Closing(problems))
    {
      ImportsCovered(graph);
      Search(names, Imports(graph), Modules(graph));
    }
  }
}
