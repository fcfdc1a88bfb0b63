/**
 The graph of task dependences of a parallel region: edges inserted as `depend` clauses are reported (OpenMP API 5.0,
 section 2.17.11), and a depth-first search that answers whether one task is ordered before another.
 */
module TaskDepGraphs {

  /** A task: the address of its data, and its number among the explicit tasks of the parallel
      region. */
  datatype Task = Task(address: nat, expLocalId: int)

  datatype Kind = In | Out | InOut | MutexInOutSet | Source | Sink

  /** One item of a depend clause, as reported for a task. */
  datatype Dependence = Dependence(variable: nat, kind: Kind, task: Task)

  predicate IsOrdered(kind: Kind) {
    kind.Source? || kind.Sink?
  }

  /** A task with dependence `later` has to wait for an earlier one with dependence `earlier`. */
  predicate Conflicts(earlier: Kind, later: Kind) {
    match later
    case In => earlier.Out? || earlier.InOut? || earlier.MutexInOutSet?
    case Out => true
    case InOut => true
    case MutexInOutSet => earlier.In? || earlier.InOut? || earlier.Out?
    case _ => false
  }

  /** The rule of the standard: of two tasks with a dependence on the same variable one writes it, and they are not both
      in one `mutexinoutset`; `source` and `sink` belong to loops. */
  predicate MustOrder(a: Kind, b: Kind) {
    && a in {In, Out, InOut, MutexInOutSet}
    && b in {In, Out, InOut, MutexInOutSet}
    && (a in {Out, InOut, MutexInOutSet} || b in {Out, InOut, MutexInOutSet})
    && !(a == MutexInOutSet && b == MutexInOutSet)
  }

  /** The coded test is the rule, for what is ever stored. */
  lemma ConflictsIsRule(a: Kind, b: Kind)
    ensures !IsOrdered(a) ==> (Conflicts(a, b) <==> MustOrder(a, b))
    ensures IsOrdered(a) ==> a in {Source, Sink} && !MustOrder(a, b)
    ensures IsOrdered(b) <==> b in {Source, Sink}
  {
  }

  // ---- edges and paths ----

  type Edges = set<(Task, Task)>

  function EdgeSet(g: map<Task, seq<Task>>): Edges {
    set a, b | a in g && b in g[a] :: (a, b)
  }

  predicate Walk(e: Edges, p: seq<Task>) {
    forall k :: 0 <= k < |p| - 1 ==> (p[k], p[k + 1]) in e
  }

  /** There is a path of at least one edge. */
  ghost predicate Reaches(e: Edges, a: Task, b: Task) {
    exists p: seq<Task> :: |p| > 1 && Walk(e, p) && p[0] == a && p[|p| - 1] == b
  }

  ghost predicate ReachesOrIs(e: Edges, a: Task, b: Task) {
    a == b || Reaches(e, a, b)
  }

  lemma ReachesStep(e: Edges, a: Task, b: Task, c: Task)
    requires ReachesOrIs(e, a, b) && (b, c) in e
    ensures Reaches(e, a, c)
  {
    if a == b {
      assert Walk(e, [a, c]);
      assert [a, c][1] == c;
    } else {
      var p :| |p| > 1 && Walk(e, p) && p[0] == a && p[|p| - 1] == b;
      var q := p + [c];
      assert Walk(e, q);
      assert q[|q| - 1] == c;
    }
  }

  /** A set that no edge leaves holds the whole of a path that starts in it. */
  lemma {:induction false} ClosedSetKeepsPath(e: Edges, s: set<Task>, p: seq<Task>, n: nat)
    requires forall a, b :: a in s && (a, b) in e ==> b in s
    requires Walk(e, p) && n < |p| && p[0] in s
    ensures p[n] in s
  {
    if n > 0 {
      ClosedSetKeepsPath(e, s, p, n - 1);
      assert (p[n - 1], p[n - 1 + 1]) in e;
    }
  }

  lemma ClosedSetKeepsReach(e: Edges, s: set<Task>, a: Task, b: Task)
    requires forall x, y :: x in s && (x, y) in e ==> y in s
    requires a in s && ReachesOrIs(e, a, b)
    ensures b in s
  {
    if a != b {
      var p :| |p| > 1 && Walk(e, p) && p[0] == a && p[|p| - 1] == b;
      ClosedSetKeepsPath(e, s, p, |p| - 1);
    }
  }

  // ---- what a sequence of dependences means ----

  /** The position of the first dependence on the variable, if any; sources and sinks are not looked at. */
  function FirstUse(log: seq<Dependence>, v: nat): (k: int)
    ensures -1 <= k < |log|
    ensures k >= 0 ==> log[k].variable == v && !IsOrdered(log[k].kind)
    ensures forall j :: 0 <= j < |log| && log[j].variable == v && !IsOrdered(log[j].kind) ==> 0 <= k <= j
  {
    if log == [] then -1
    else
      var n := |log| - 1;
      var k := FirstUse(log[..n], v);
      if k >= 0 then k else if log[n].variable == v && !IsOrdered(log[n].kind) then n else -1
  }

  /** The edge added when `d` is reported after `log`. */
  function NewEdges(log: seq<Dependence>, d: Dependence): Edges {
    var k := FirstUse(log, d.variable);
    if k >= 0 && log[k].task.expLocalId < d.task.expLocalId && Conflicts(log[k].kind, d.kind)
        then {(log[k].task, d.task)} else {}
  }

  function EdgesOf(log: seq<Dependence>): Edges {
    if log == [] then {} else EdgesOf(log[..|log| - 1]) + NewEdges(log[..|log| - 1], log[|log| - 1])
  }

  /** The items `j` and `k` are on the same variable, `j` is the first there, and they conflict. */
  predicate Linked(log: seq<Dependence>, j: nat, k: nat)
    requires j < k < |log|
  {
    && log[j].variable == log[k].variable && FirstUse(log, log[k].variable) == j
    && log[j].task.expLocalId < log[k].task.expLocalId && Conflicts(log[j].kind, log[k].kind)
  }

  ghost predicate LinkedTasks(log: seq<Dependence>, a: Task, b: Task) {
    exists j: nat, k: nat | j < k < |log| :: Linked(log, j, k) && log[j].task == a && log[k].task == b
  }

  /** Two tasks are linked exactly if one of them was the first on a variable on which the other has a later,
      conflicting dependence. */
  lemma {:induction false} EdgesExactly(log: seq<Dependence>, a: Task, b: Task)
    ensures (a, b) in EdgesOf(log) <==> LinkedTasks(log, a, b)
  {
    if log != [] {
      var n := |log| - 1;
      EdgesExactly(log[..n], a, b);
      forall v: nat
        ensures FirstUse(log[..n], v) >= 0 ==> FirstUse(log, v) == FirstUse(log[..n], v)
      {
      }
      LinkedTasksPrefix(log, a, b, n);
    }
  }

  lemma LinkedTasksPrefix(log: seq<Dependence>, a: Task, b: Task, n: nat)
    requires |log| == n + 1
    ensures LinkedTasks(log, a, b) <==> LinkedTasks(log[..n], a, b) || (a, b) in NewEdges(log[..n], log[n])
  {
    if LinkedTasks(log, a, b) {
      var j: nat, k: nat :| j < k < |log| && Linked(log, j, k) && log[j].task == a && log[k].task == b;
      LinkedPrefix(log, j, k, n);
    }
    if LinkedTasks(log[..n], a, b) {
      var j: nat, k: nat :| j < k < n && Linked(log[..n], j, k) && log[..n][j].task == a && log[..n][k].task == b;
      LinkedPrefix(log, j, k, n);
    }
    if (a, b) in NewEdges(log[..n], log[n]) {
      LinkedPrefix(log, FirstUse(log[..n], log[n].variable), n, n);
    }
  }

  lemma LinkedPrefix(log: seq<Dependence>, j: nat, k: nat, n: nat)
    requires |log| == n + 1 && j < k <= n
    ensures k < n ==> (Linked(log, j, k) <==> Linked(log[..n], j, k))
    ensures k == n && FirstUse(log[..n], log[n].variable) == j ==>
        (Linked(log, j, k) <==> (log[j].task, log[n].task) in NewEdges(log[..n], log[n]))
    ensures k == n && Linked(log, j, k) ==> FirstUse(log[..n], log[n].variable) == j
  {
  }

  /** Item `j` is the first one on its variable that is no `source` or `sink`, and `k` is a later one that it must be
      ordered with. */
  predicate FirstAndLater(log: seq<Dependence>, j: nat, k: nat)
    requires j < k < |log|
  {
    && log[j].variable == log[k].variable
    && (forall i :: 0 <= i < j && log[i].variable == log[j].variable ==> log[i].kind in {Source, Sink})
    && MustOrder(log[j].kind, log[k].kind)
    && log[j].task.expLocalId < log[k].task.expLocalId
  }

  /** Which tasks are linked, by the rule of the standard and the order of the reports alone. */
  lemma EdgesByRule(log: seq<Dependence>, a: Task, b: Task)
    ensures (a, b) in EdgesOf(log) <==>
      exists j: nat, k: nat | j < k < |log| :: FirstAndLater(log, j, k) && log[j].task == a && log[k].task == b
  {
    EdgesExactly(log, a, b);
    hide EdgesOf;
    forall j: nat, k: nat | j < k < |log|
      ensures Linked(log, j, k) <==> FirstAndLater(log, j, k)
    {
      LinkedIsFirst(log, j, k);
    }
  }

  lemma LinkedIsFirst(log: seq<Dependence>, j: nat, k: nat)
    requires j < k < |log|
    ensures Linked(log, j, k) <==> FirstAndLater(log, j, k)
  {
    hide FirstUse, Conflicts, MustOrder;
    ConflictsIsRule(log[j].kind, log[k].kind);
    forall i | 0 <= i < j
      ensures IsOrdered(log[i].kind) <==> log[i].kind in {Source, Sink}
    {
      ConflictsIsRule(log[i].kind, log[i].kind);
    }
  }

  /** Two reports by two tasks: there is a path from the first to the second exactly by the rule, and none back. */
  lemma TwoReports(d: Dependence, e: Dependence)
    requires d.task != e.task
    ensures Reaches(EdgesOf([d, e]), d.task, e.task) <==>
      d.variable == e.variable && d.task.expLocalId < e.task.expLocalId && MustOrder(d.kind, e.kind)
    ensures !Reaches(EdgesOf([d, e]), e.task, d.task)
  {
    var log := [d, e];
    hide MustOrder, EdgesOf;
    forall a, b
      ensures (a, b) in EdgesOf(log) <==> a == d.task && b == e.task && FirstAndLater(log, 0, 1)
    {
      EdgesByRule(log, a, b);
    }
    if FirstAndLater(log, 0, 1) {
      ReachesStep(EdgesOf(log), d.task, d.task, e.task);
      NeverBothWays(log, d.task, e.task);
    } else {
      if Reaches(EdgesOf(log), d.task, e.task) { ClosedSetKeepsReach(EdgesOf(log), {d.task}, d.task, e.task); }
      if Reaches(EdgesOf(log), e.task, d.task) { ClosedSetKeepsReach(EdgesOf(log), {e.task}, e.task, d.task); }
    }
  }

  /** Every edge goes from a smaller to a larger task number. */
  lemma {:induction false} EdgesGoUp(log: seq<Dependence>, a: Task, b: Task)
    requires (a, b) in EdgesOf(log)
    ensures a.expLocalId < b.expLocalId
  {
    var n := |log| - 1;
    if (a, b) in EdgesOf(log[..n]) { EdgesGoUp(log[..n], a, b); }
  }

  lemma {:induction false} PathsGoUp(log: seq<Dependence>, p: seq<Task>, n: nat)
    requires Walk(EdgesOf(log), p) && 0 < n < |p|
    ensures p[0].expLocalId < p[n].expLocalId
  {
    EdgesGoUp(log, p[n - 1], p[n - 1 + 1]);
    if n > 1 { PathsGoUp(log, p, n - 1); }
  }

  /** The graph is acyclic after any sequence of reports. */
  lemma NeverBothWays(log: seq<Dependence>, a: Task, b: Task)
    requires Reaches(EdgesOf(log), a, b)
    ensures a != b && !Reaches(EdgesOf(log), b, a)
  {
    var p :| |p| > 1 && Walk(EdgesOf(log), p) && p[0] == a && p[|p| - 1] == b;
    PathsGoUp(log, p, |p| - 1);
    if Reaches(EdgesOf(log), b, a) {
      var q :| |q| > 1 && Walk(EdgesOf(log), q) && q[0] == b && q[|q| - 1] == a;
      PathsGoUp(log, q, |q| - 1);
    }
  }

  /** The comment on `addDeps` asks for an edge between any two conflicting items of a variable, `j` before `k`.  The
      report of `k` adds it exactly if the variable was not yet known when `j` was reported. */
  lemma LinkOfPair(log: seq<Dependence>, j: nat, k: nat)
    requires j < k < |log| && log[j].variable == log[k].variable && !IsOrdered(log[j].kind)
    requires log[j].task.expLocalId < log[k].task.expLocalId && MustOrder(log[j].kind, log[k].kind)
    ensures Linked(log, j, k) <==> FirstUse(log[..j], log[j].variable) == -1
  {
    var v := log[j].variable;
    ConflictsIsRule(log[j].kind, log[k].kind);
    if FirstUse(log[..j], v) >= 0 {
      assert log[..j][FirstUse(log[..j], v)] == log[FirstUse(log[..j], v)];
    }
  }

  /** Three tasks that write the same variable: the second and the third are not ordered at all. */
  lemma SecondAndThirdUnordered(v: nat)
    ensures var t1, t2, t3 := Task(1, 1), Task(2, 2), Task(3, 3);
      var e := EdgesOf([Dependence(v, Out, t1), Dependence(v, Out, t2), Dependence(v, Out, t3)]);
      && Reaches(e, t1, t2) && Reaches(e, t1, t3)
      && MustOrder(Out, Out) && !Reaches(e, t2, t3) && !Reaches(e, t3, t2)
  {
    var t1, t2, t3 := Task(1, 1), Task(2, 2), Task(3, 3);
    var d1, d2, d3 := Dependence(v, Out, t1), Dependence(v, Out, t2), Dependence(v, Out, t3);
    assert [d1][..0] == [] && [d1, d2][..1] == [d1] && [d1, d2, d3][..2] == [d1, d2];
    var e := EdgesOf([d1, d2, d3]);
    assert FirstUse([d1], v) == 0 && FirstUse([d1, d2], v) == 0;
    assert EdgesOf([d1]) == {};
    assert EdgesOf([d1, d2]) == {(t1, t2)};
    assert e == {(t1, t2), (t1, t3)};
    ReachesStep(e, t1, t1, t2);
    ReachesStep(e, t1, t1, t3);
    if Reaches(e, t2, t3) { ClosedSetKeepsReach(e, {t2}, t2, t3); }
    if Reaches(e, t3, t2) { ClosedSetKeepsReach(e, {t3}, t3, t2); }
  }

  // ---- the class ----

  /** Of a variable only its first dependence is stored. */
  ghost predicate Stores(deps: map<nat, seq<(Task, Kind)>>, log: seq<Dependence>) {
    && (forall v :: v in deps <==> FirstUse(log, v) >= 0)
    && (forall v :: v in deps ==> deps[v] == [(log[FirstUse(log, v)].task, log[FirstUse(log, v)].kind)])
  }

  /** The edges to the task of `d` from those stored tasks that conflict with it and come before it. */
  function EdgesFrom(pairs: seq<(Task, Kind)>, d: Dependence): Edges {
    set p | p in pairs && p.0.expLocalId < d.task.expLocalId && Conflicts(p.1, d.kind) :: (p.0, d.task)
  }

  lemma StoresNext(deps: map<nat, seq<(Task, Kind)>>, log: seq<Dependence>, d: Dependence)
    requires Stores(deps, log)
    ensures Stores(if IsOrdered(d.kind) || d.variable in deps then deps else deps[d.variable := [(d.task, d.kind)]],
        log + [d])
    ensures EdgesOf(log + [d]) == EdgesOf(log) + NewEdges(log, d)
    ensures NewEdges(log, d) == if d.variable !in deps || IsOrdered(d.kind) then {} else EdgesFrom(deps[d.variable], d)
  {
    assert (log + [d])[..|log|] == log;
  }

  /** What the search knows: visited and pending tasks can be reached, and an edge out of the visited tasks leads to a
      visited or pending one. */
  ghost predicate Search(e: Edges, from: Task, visited: set<Task>, todo: seq<Task>) {
    && (forall x :: x in visited || x in todo ==> ReachesOrIs(e, from, x))
    && (from in visited || from in todo)
    && (forall x, y :: x in visited && (x, y) in e ==> y in visited || y in todo)
  }

  lemma SearchVisit(e: Edges, from: Task, visited: set<Task>, todo: seq<Task>, cur: Task, todo': seq<Task>)
    requires Search(e, from, visited, todo + [cur])
    requires forall x :: x in todo ==> x in todo'
    requires forall x :: x in todo' ==> x in todo || (cur, x) in e
    requires forall y :: (cur, y) in e ==> y in visited + {cur} || y in todo'
    ensures Search(e, from, visited + {cur}, todo')
  {
    assert cur in todo + [cur];
    forall x | x in todo'
      ensures ReachesOrIs(e, from, x)
    {
      if x in todo {
        assert x in todo + [cur];
      } else {
        ReachesStep(e, from, cur, x);
      }
    }
    hide ReachesOrIs;
    assert forall x :: x in todo + [cur] ==> x in todo || x == cur;
  }

  lemma SearchSkip(e: Edges, from: Task, visited: set<Task>, todo: seq<Task>, cur: Task)
    requires Search(e, from, visited, todo + [cur])
    ensures ReachesOrIs(e, from, cur)
    ensures cur in visited ==> Search(e, from, visited, todo)
  {
    hide ReachesOrIs;
    assert cur in todo + [cur];
    assert forall x :: x in todo + [cur] <==> x in todo || x == cur;
  }

  lemma SearchStart(e: Edges, from: Task)
    ensures Search(e, from, {}, [from])
  {
  }

  function Targets(e: Edges): set<Task> {
    set x | x in e :: x.1
  }

  lemma NoSuccessors(g: map<Task, seq<Task>>, from: Task, to: Task)
    requires from !in g
    ensures from != to ==> !Reaches(EdgeSet(g), from, to)
  {
    if from != to && Reaches(EdgeSet(g), from, to) {
      ClosedSetKeepsReach(EdgeSet(g), {from}, from, to);
    }
  }

  lemma SearchDone(e: Edges, from: Task, visited: set<Task>, to: Task)
    requires Search(e, from, visited, []) && to !in visited
    ensures !ReachesOrIs(e, from, to)
  {
    if ReachesOrIs(e, from, to) {
      ClosedSetKeepsReach(e, visited, from, to);
    }
  }

  lemma Successors(g: map<Task, seq<Task>>, a: Task)
    ensures a !in g ==> EdgeSet(g[a := []]) == EdgeSet(g) && forall y :: (a, y) !in EdgeSet(g)
    ensures a in g ==> forall y :: y in g[a] <==> (a, y) in EdgeSet(g)
  {
  }

  class TaskDepGraph {
    var deps: map<nat, seq<(Task, Kind)>>
    var graph: map<Task, seq<Task>>
    /** The tasks whose `isMutexTask` flag has been set. */
    var mutexTasks: set<Task>
    /** All dependences reported so far. */
    ghost var log: seq<Dependence>

    /** The edges are those the log calls for. */
    ghost predicate Valid()
      reads this
    {
      Stores(deps, log) && EdgeSet(graph) == EdgesOf(log)
    }

    constructor ()
      ensures Valid() && log == [] && mutexTasks == {}
    {
      deps, graph, mutexTasks, log := map[], map[], {}, [];
    }

    method AddEdge(from: Task, to: Task)
      modifies this`graph
      ensures EdgeSet(graph) == old(EdgeSet(graph)) + {(from, to)}
    {
      if from !in graph {
        graph := graph[from := [to]];
      } else {
        graph := graph[from := graph[from] + [to]];
      }
      assert to in graph[from];
    }

    method AddDeps(d: Dependence)
      requires Valid()
      modifies this
      ensures Valid() && log == old(log) + [d]
      ensures EdgeSet(graph) == old(EdgeSet(graph)) + NewEdges(old(log), d)
      ensures mutexTasks == old(mutexTasks) + if d.kind.MutexInOutSet? then {d.task} else {}
    {
      hide Stores, NewEdges, EdgesOf, EdgeSet, FirstUse, EdgesFrom;
      StoresNext(deps, log, d);
      log := log + [d];
      if IsOrdered(d.kind) {
        return;
      }
      if d.kind.MutexInOutSet? {
        mutexTasks := mutexTasks + {d.task};
      }
      if d.variable !in deps {
        deps := deps[d.variable := [(d.task, d.kind)]];
      } else {
        AddEdges(deps[d.variable], d);
      }
    }

    method AddEdges(pairs: seq<(Task, Kind)>, d: Dependence)
      modifies this`graph
      ensures EdgeSet(graph) == old(EdgeSet(graph)) + EdgesFrom(pairs, d)
    {
      hide EdgeSet;
      for i := 0 to |pairs|
        invariant EdgeSet(graph) == old(EdgeSet(graph)) + EdgesFrom(pairs[..i], d)
      {
        assert pairs[..i + 1] == pairs[..i] + [pairs[i]];
        if d.task.expLocalId > pairs[i].0.expLocalId && Conflicts(pairs[i].1, d.kind) {
          AddEdge(pairs[i].0, d.task);
        }
      }
      assert pairs[..|pairs|] == pairs;
    }

    /** Depth-first search. Looking up the successors of a task inserts an empty list for a task that has none. */
    method HasPath(from: Task, to: Task) returns (found: bool)
      requires Valid()
      modifies this`graph
      ensures Valid() && EdgeSet(graph) == old(EdgeSet(graph))
      ensures from != to ==> (found <==> Reaches(EdgesOf(log), from, to))
      ensures from == to ==> (found <==> from in old(graph))
    {
      hide Stores, EdgesOf, Reaches, EdgeSet, Search, Targets;
      ghost var e := EdgesOf(log);
      if from !in graph {
        NoSuccessors(graph, from, to);
        return false;
      }
      var visited: set<Task> := {};
      var todo := [from];
      SearchStart(e, from);
      ghost var nodes := {from} + Targets(e);
      while todo != []
        invariant EdgeSet(graph) == e
        invariant visited <= nodes && (forall x :: x in todo ==> x in nodes)
        invariant Search(e, from, visited, todo) && to !in visited
        decreases |nodes - visited|, |todo|
      {
        var cur := todo[|todo| - 1];
        assert todo == todo[..|todo| - 1] + [cur];
        todo := todo[..|todo| - 1];
        SearchSkip(e, from, visited, todo, cur);
        if cur == to {
          return true;
        }
        if cur in visited {
          continue;
        }
        assert nodes - (visited + {cur}) < nodes - visited;
        visited, todo := Visit(cur, visited, todo, e, from);
      }
      SearchDone(e, from, visited, to);
      return false;
    }

    /** One turn of the search: mark the task, and push its successors. */
    method Visit(cur: Task, visited: set<Task>, todo: seq<Task>, ghost e: Edges, ghost from: Task)
      returns (visited': set<Task>, todo': seq<Task>)
      requires EdgeSet(graph) == e && Search(e, from, visited, todo + [cur])
      modifies this`graph
      ensures EdgeSet(graph) == e && Search(e, from, visited', todo')
      ensures visited' == visited + {cur}
      ensures forall x :: x in todo' ==> x in todo || x in Targets(e)
    {
      hide EdgeSet, Search;
      Successors(graph, cur);
      visited' := visited + {cur};
      if cur !in graph {
        graph := graph[cur := []];
      }
      todo' := PushUnvisited(graph[cur], visited', todo);
      SearchVisit(e, from, visited, todo, cur, todo');
    }

    static method PushUnvisited(neighbors: seq<Task>, visited: set<Task>, todo: seq<Task>) returns (todo': seq<Task>)
      ensures forall x :: x in todo' <==> x in todo || (x in neighbors && x !in visited)
    {
      todo' := todo;
      for i := 0 to |neighbors|
        invariant forall x :: x in todo' <==> x in todo || (x in neighbors[..i] && x !in visited)
      {
        if neighbors[i] !in visited {
          todo' := todo' + [neighbors[i]];
        }
        assert neighbors[..i + 1] == neighbors[..i] + [neighbors[i]];
      }
      assert neighbors[..|neighbors|] == neighbors;
    }
  }

  /** The graph at work: two reports, and the question whether the first task comes before the second. */
  method OrdersTwo(d: Dependence, e: Dependence) returns (found: bool)
    requires d.task != e.task
    ensures found <==>
      d.variable == e.variable && d.task.expLocalId < e.task.expLocalId && MustOrder(d.kind, e.kind)
  {
    var g := new TaskDepGraph();
    g.AddDeps(d);
    g.AddDeps(e);
    TwoReports(d, e);
    found := g.HasPath(d.task, e.task);
  }
}
