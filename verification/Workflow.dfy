/** The workflow engine's walk: from the start node along the first enabled edge,
    merging each node's result into one context. */
module Workflow {
  import opened Options
  import opened Sorting
  import opened Text

  datatype NodeDef = NodeDef(id: string, kind: string)

  datatype Edge = Edge(from: string, to: string, condition: string)

  datatype Definition = Definition(nodes: seq<NodeDef>, edges: seq<Edge>)

  /** Context values stand for what `%v` prints of them. */
  type Context = map<string, string>

  datatype Outcome = Failed | Done(result: Context, tokens: int, cost: int)

  /** What each node does on a given context. No walk executes a node twice, so a
      function loses nothing. */
  type Executor = (string, Context) -> Outcome

  const KINDS: set<string> := {"input", "output", "llm", "rag", "condition", "text2sql", "sql_execute", "tool"}

  const MAX_STEPS := 50

  // ----- conditions -----

  /** Position of the first `c`, or the length. */
  function IndexOf(s: string, c: char): (i: nat)
    ensures i <= |s|
    ensures forall j :: 0 <= j < i ==> s[j] != c
    ensures i < |s| ==> s[i] == c
  {
    if s == [] || s[0] == c then 0 else 1 + IndexOf(s[1..], c)
  }

  predicate EvalCondition(cond: string, ctx: Context) {
    var i := IndexOf(cond, '=');
    i < |cond| ==>
      var key := TrimSpace(cond[..i]);
      key in ctx && ctx[key] == TrimSpace(cond[i+1..])
  }

  predicate Enabled(e: Edge, ctx: Context) {
    e.condition == "" || EvalCondition(e.condition, ctx)
  }

  /** `key = value`, with any blanks around either, asks for exactly that entry;
      the value may itself contain `=`. */
  lemma ConditionMeaning(a: string, key: string, b: string, c: string, val: string, d: string, ctx: Context)
    requires Blank(a) && Blank(b) && Blank(c) && Blank(d) && Trimmed(key) && Trimmed(val) && Lacks(key, '=')
    ensures EvalCondition(a + key + b + "=" + (c + val + d), ctx) <==> key in ctx && ctx[key] == val
  {
    var front, back := a + key + b, c + val + d;
    var cond := front + "=" + back;
    forall j | 0 <= j < |front| ensures front[j] != '=' {
      assert front[j] == if j < |a| then a[j] else if j < |a| + |key| then key[j - |a|] else b[j - |a| - |key|];
    }
    assert cond[|front|] == '=' && forall j :: 0 <= j < |front| ==> cond[j] == front[j];
    assert IndexOf(cond, '=') == |front|;
    assert cond[..|front|] == front && cond[|front|+1..] == back;
    TrimPadded(a, key, b);
    TrimPadded(c, val, d);
  }

  // ----- the walk, as a specification -----

  function FirstInput(nodes: seq<NodeDef>): string {
    if nodes == [] then "" else if nodes[0].kind == "input" then nodes[0].id else FirstInput(nodes[1..])
  }

  function Start(def: Definition): string {
    if FirstInput(def.nodes) == "" && def.nodes != [] then def.nodes[0].id else FirstInput(def.nodes)
  }

  function EdgesFrom(edges: seq<Edge>, id: string): (out: seq<Edge>) {
    if edges == [] then []
    else EdgesFrom(edges[..|edges|-1], id)
         + if edges[|edges|-1].from == id then [edges[|edges|-1]] else []
  }

  function FirstEnabled(edges: seq<Edge>, ctx: Context): string {
    if edges == [] then "" else if Enabled(edges[0], ctx) then edges[0].to else FirstEnabled(edges[1..], ctx)
  }

  /** The context after executing `path`. */
  function After(exec: Executor, input: Context, path: seq<string>): Context {
    if path == [] then input
    else
      var ctx := After(exec, input, path[..|path|-1]);
      match exec(path[|path|-1], ctx)
      case Failed => ctx
      case Done(result, _, _) => ctx + result
  }

  function Next(def: Definition, exec: Executor, input: Context, path: seq<string>): string {
    if path == [] then Start(def)
    else FirstEnabled(EdgesFrom(def.edges, path[|path|-1]), After(exec, input, path))
  }

  datatype WalkError = NotFound(id: string) | ExecFailed(id: string)

  datatype Stop = Finished | Limit | Revisit | Broken(error: WalkError)

  /** Why the walk goes no further once `path` has been executed; None when it goes on. */
  function StopAfter(def: Definition, nodes: map<string, string>, exec: Executor, input: Context,
                     path: seq<string>): Option<Stop> {
    if Next(def, exec, input, path) != "" && |path| >= MAX_STEPS then Some(Limit)
    else FreeStop(def, nodes, exec, input, path)
  }

  /** The same without the step limit. */
  function FreeStop(def: Definition, nodes: map<string, string>, exec: Executor, input: Context,
                    path: seq<string>): Option<Stop> {
    var id := Next(def, exec, input, path);
    if id == "" then Some(Finished)
    else if id in path then Some(Revisit)
    else if id !in nodes then Some(Broken(NotFound(id)))
    else if exec(id, After(exec, input, path)).Failed? then Some(Broken(ExecFailed(id)))
    else None
  }

  /** `path` goes from the start node along first enabled edges and never had to stop. */
  ghost predicate IsWalk(def: Definition, nodes: map<string, string>, exec: Executor, input: Context,
                         path: seq<string>) {
    forall i :: 0 <= i < |path| ==> Goes(def, nodes, exec, input, path, i)
  }

  ghost predicate Goes(def: Definition, nodes: map<string, string>, exec: Executor, input: Context,
                       path: seq<string>, i: nat)
    requires i < |path|
  {
    StopAfter(def, nodes, exec, input, path[..i]) == None && path[i] == Next(def, exec, input, path[..i])
  }

  ghost predicate IsRun(def: Definition, nodes: map<string, string>, exec: Executor, input: Context,
                        path: seq<string>, stop: Stop) {
    IsWalk(def, nodes, exec, input, path) && StopAfter(def, nodes, exec, input, path) == Some(stop)
  }

  // ----- what the walk reports -----

  predicate Metered(nodes: map<string, string>, id: string) {
    id in nodes && (nodes[id] == "llm" || nodes[id] == "text2sql")
  }

  function Tokens(nodes: map<string, string>, exec: Executor, input: Context, path: seq<string>): int {
    if path == [] then 0
    else
      var front, id := path[..|path|-1], path[|path|-1];
      var o := exec(id, After(exec, input, front));
      Tokens(nodes, exec, input, front) + if Metered(nodes, id) && o.Done? then o.tokens else 0
  }

  function Cost(nodes: map<string, string>, exec: Executor, input: Context, path: seq<string>): int {
    if path == [] then 0
    else
      var front, id := path[..|path|-1], path[|path|-1];
      var o := exec(id, After(exec, input, front));
      Cost(nodes, exec, input, front) + if Metered(nodes, id) && o.Done? then o.cost else 0
  }

  /** The result of the last output node on the path. */
  function Recorded(nodes: map<string, string>, exec: Executor, input: Context, path: seq<string>): Option<Context> {
    if path == [] then None
    else
      var front, id := path[..|path|-1], path[|path|-1];
      var o := exec(id, After(exec, input, front));
      if id in nodes && nodes[id] == "output" && o.Done? then Some(o.result) else Recorded(nodes, exec, input, front)
  }

  lemma WalkGrows(def: Definition, nodes: map<string, string>, exec: Executor, input: Context, path: seq<string>)
    requires IsWalk(def, nodes, exec, input, path) && StopAfter(def, nodes, exec, input, path).None?
    ensures IsWalk(def, nodes, exec, input, path + [Next(def, exec, input, path)])
  {
    hide StopAfter, Next;
    var id := Next(def, exec, input, path);
    var longer := path + [id];
    forall i | 0 <= i < |longer| ensures Goes(def, nodes, exec, input, longer, i) {
      if i < |path| {
        assert longer[..i] == path[..i];
        assert Goes(def, nodes, exec, input, path, i);
      } else {
        assert longer[..i] == path;
      }
    }
  }

  /** What a walk along `path` that ends for `stop` has to report. */
  ghost predicate Reports(nodes: map<string, string>, exec: Executor, input: Context, path: seq<string>, stop: Stop,
                          output: Option<Context>, tokens: int, cost: int, err: Option<WalkError>) {
    var recorded := Recorded(nodes, exec, input, path);
    tokens == Tokens(nodes, exec, input, path)
    && cost == Cost(nodes, exec, input, path)
    && err == (if stop.Broken? then Some(stop.error) else None)
    && output == if stop.Broken? || recorded.Some? then recorded else Some(After(exec, input, path))
  }

  // ----- the code -----

  /** A repeated id keeps its last kind. */
  function Built(nodes: seq<NodeDef>): map<string, string> {
    if nodes == [] then map[] else Built(nodes[..|nodes|-1])[nodes[|nodes|-1].id := nodes[|nodes|-1].kind]
  }

  lemma {:induction false} BuiltFrom(nodes: seq<NodeDef>, id: string)
    ensures id in Built(nodes) ==> exists i :: 0 <= i < |nodes| && nodes[i] == NodeDef(id, Built(nodes)[id])
                                       && forall j :: i < j < |nodes| ==> nodes[j].id != id
    ensures id !in Built(nodes) ==> forall i :: 0 <= i < |nodes| ==> nodes[i].id != id
  {
    if nodes != [] {
      var front, last := nodes[..|nodes|-1], nodes[|nodes|-1];
      BuiltFrom(front, id);
      if id == last.id {
        assert nodes[|nodes|-1] == NodeDef(id, Built(nodes)[id]);
      } else if id in Built(nodes) {
        var i :| 0 <= i < |front| && front[i] == NodeDef(id, Built(front)[id])
          && forall j :: i < j < |front| ==> front[j].id != id;
        assert nodes[i] == front[i];
        assert forall j :: i < j < |front| ==> nodes[j] == front[j];
      } else {
        assert forall j :: 0 <= j < |front| ==> nodes[j] == front[j];
      }
    }
  }

  method BuildNodes(def: Definition) returns (r: Option<map<string, string>>)
    ensures r.None? <==>
            exists i :: 0 <= i < |def.nodes| && def.nodes[i].kind !in
              {"input", "output", "llm", "rag", "condition", "text2sql", "sql_execute", "tool"}
    ensures r.Some? ==> r.value == Built(def.nodes)
  {
    var nodes: map<string, string> := map[];
    for k := 0 to |def.nodes|
      invariant forall i :: 0 <= i < k ==> def.nodes[i].kind in KINDS
      invariant nodes == Built(def.nodes[..k])
    {
      var nd := def.nodes[k];
      if nd.kind !in KINDS { return None; }
      assert def.nodes[..k+1][..k] == def.nodes[..k];
      nodes := nodes[nd.id := nd.kind];
    }
    assert def.nodes[..|def.nodes|] == def.nodes;
    return Some(nodes);
  }

  method FindStart(def: Definition) returns (startID: string)
    ensures startID == Start(def)
  {
    startID := "";
    var i := 0;
    while i < |def.nodes|
      invariant 0 <= i <= |def.nodes|
      invariant startID == "" && FirstInput(def.nodes) == FirstInput(def.nodes[i..])
    {
      if def.nodes[i].kind == "input" {
        startID := def.nodes[i].id;
        break;
      }
      i := i + 1;
    }
    if startID == "" && |def.nodes| > 0 { startID := def.nodes[0].id; }
  }

  function Adjacent(adj: map<string, seq<Edge>>, id: string): seq<Edge> {
    if id in adj then adj[id] else []
  }

  method BuildAdjacency(edges: seq<Edge>) returns (adj: map<string, seq<Edge>>)
    ensures forall id :: Adjacent(adj, id) == EdgesFrom(edges, id)
  {
    adj := map[];
    for k := 0 to |edges|
      invariant forall id :: Adjacent(adj, id) == EdgesFrom(edges[..k], id)
    {
      var e := edges[k];
      assert edges[..k+1][..k] == edges[..k];
      adj := adj[e.from := Adjacent(adj, e.from) + [e]];
    }
    assert edges[..|edges|] == edges;
  }

  method ChooseNext(edges: seq<Edge>, ctx: Context) returns (nextID: string)
    ensures nextID == FirstEnabled(edges, ctx)
  {
    nextID := "";
    var i := 0;
    while i < |edges|
      invariant 0 <= i <= |edges|
      invariant nextID == "" && FirstEnabled(edges, ctx) == FirstEnabled(edges[i..], ctx)
    {
      if edges[i].condition != "" {
        if EvalCondition(edges[i].condition, ctx) {
          nextID := edges[i].to;
          break;
        }
      } else {
        nextID := edges[i].to;
        break;
      }
      i := i + 1;
    }
  }

  /** `walkAndExecute`. Tokens, cost and any recorded output are reported on
      failure as well. */
  method WalkAndExecute(def: Definition, nodes: map<string, string>, exec: Executor, input: Context)
      returns (output: Option<Context>, tokens: int, cost: int, err: Option<WalkError>)
    ensures exists path, stop :: IsRun(def, nodes, exec, input, path, stop)
                                 && Reports(nodes, exec, input, path, stop, output, tokens, cost, err)
  {
    hide EdgesFrom, FirstEnabled, Start;
    var currentID := FindStart(def);
    var adj := BuildAdjacency(def.edges);
    var context := input;
    var executed: set<string> := {};
    var steps := 0;
    ghost var path: seq<string> := [];
    output, tokens, cost, err := None, 0, 0, None;
    while currentID != "" && steps < MAX_STEPS
      invariant steps == |path| <= MAX_STEPS
      invariant IsWalk(def, nodes, exec, input, path)
      invariant currentID == Next(def, exec, input, path)
      invariant context == After(exec, input, path)
      invariant forall id :: id in executed <==> id in path
      invariant tokens == Tokens(nodes, exec, input, path) && cost == Cost(nodes, exec, input, path)
      invariant output == Recorded(nodes, exec, input, path)
    {
      steps := steps + 1;
      if currentID in executed { break; }
      executed := executed + {currentID};
      if currentID !in nodes {
        assert IsRun(def, nodes, exec, input, path, Broken(NotFound(currentID)));
        return output, tokens, cost, Some(NotFound(currentID));
      }
      var o := exec(currentID, context);
      if o.Failed? {
        assert IsRun(def, nodes, exec, input, path, Broken(ExecFailed(currentID)));
        return output, tokens, cost, Some(ExecFailed(currentID));
      }
      context := context + o.result;
      if nodes[currentID] == "llm" || nodes[currentID] == "text2sql" {
        tokens := tokens + o.tokens;
        cost := cost + o.cost;
      }
      if nodes[currentID] == "output" { output := Some(o.result); }
      WalkGrows(def, nodes, exec, input, path);
      path := path + [currentID];
      var edges := Adjacent(adj, currentID);
      currentID := ChooseNext(edges, context);
    }
    ghost var stop := StopAfter(def, nodes, exec, input, path).value;
    assert IsRun(def, nodes, exec, input, path, stop);
    if output == None { output := Some(context); }
  }

  // ----- what every run has in common -----

  lemma {:induction false} CommonPrefix(def: Definition, nodes: map<string, string>, exec: Executor, input: Context,
                                        p: seq<string>, q: seq<string>, n: nat)
    requires IsWalk(def, nodes, exec, input, p) && IsWalk(def, nodes, exec, input, q) && n <= |p| && n <= |q|
    ensures p[..n] == q[..n]
  {
    hide StopAfter, Next;
    if n > 0 {
      CommonPrefix(def, nodes, exec, input, p, q, n - 1);
      assert Goes(def, nodes, exec, input, p, n - 1) && Goes(def, nodes, exec, input, q, n - 1);
      assert p[..n] == p[..n-1] + [p[n-1]] && q[..n] == q[..n-1] + [q[n-1]];
    }
  }

  lemma NoStopInside(def: Definition, nodes: map<string, string>, exec: Executor, input: Context,
                     p: seq<string>, n: nat)
    requires IsWalk(def, nodes, exec, input, p) && n < |p|
    ensures StopAfter(def, nodes, exec, input, p[..n]) == None
  {
    hide StopAfter, Next;
    assert Goes(def, nodes, exec, input, p, n);
  }

  /** Definition, node behaviour and input determine the executed path and why it
      stops: there is one run, and `WalkAndExecute` finds it. */
  lemma RunUnique(def: Definition, nodes: map<string, string>, exec: Executor, input: Context,
                  p: seq<string>, s: Stop, q: seq<string>, t: Stop)
    requires IsRun(def, nodes, exec, input, p, s) && IsRun(def, nodes, exec, input, q, t)
    ensures p == q && s == t
  {
    hide StopAfter, Next;
    var n := if |p| <= |q| then |p| else |q|;
    CommonPrefix(def, nodes, exec, input, p, q, n);
    assert p[..|p|] == p && q[..|q|] == q;
    if |p| < |q| { NoStopInside(def, nodes, exec, input, q, |p|); }
    if |q| < |p| { NoStopInside(def, nodes, exec, input, p, |q|); }
  }

  /** The executed nodes are distinct defined nodes, at most fifty of them, and
      every context key that was ever there is there at the end. */
  lemma WalkIsSimple(def: Definition, nodes: map<string, string>, exec: Executor, input: Context, path: seq<string>)
    requires IsWalk(def, nodes, exec, input, path)
    ensures forall i, j :: 0 <= i < j < |path| ==> path[i] != path[j]
    ensures forall i :: 0 <= i < |path| ==> path[i] in nodes && path[i] != ""
    ensures |path| <= MAX_STEPS && |path| <= |nodes|
  {
    hide Next;
    forall i | 0 <= i < |path| ensures path[i] !in path[..i] && path[i] in nodes && path[i] != "" && i < MAX_STEPS {
      assert Goes(def, nodes, exec, input, path, i);
    }
    forall i, j | 0 <= i < j < |path| ensures path[i] != path[j] {
      assert path[..j][i] == path[i];
    }
    DistinctFit(path, nodes.Keys);
    if path != [] { NoStopInside(def, nodes, exec, input, path, |path| - 1); }
  }

  lemma {:induction false} KeysPersist(exec: Executor, input: Context, path: seq<string>, i: nat)
    requires i <= |path|
    ensures After(exec, input, path[..i]).Keys <= After(exec, input, path).Keys
  {
    if i < |path| {
      KeysPersist(exec, input, path[..|path|-1], i);
      assert path[..|path|-1][..i] == path[..i];
    } else {
      assert path[..i] == path;
    }
  }

  // ----- what the step limit does -----

  /** `path` is executed when no step limit interferes. */
  ghost predicate IsFreeWalk(def: Definition, nodes: map<string, string>, exec: Executor, input: Context,
                             path: seq<string>) {
    forall i :: 0 <= i < |path| ==> FreelyGoes(def, nodes, exec, input, path, i)
  }

  ghost predicate FreelyGoes(def: Definition, nodes: map<string, string>, exec: Executor, input: Context,
                             path: seq<string>, i: nat)
    requires i < |path|
  {
    FreeStop(def, nodes, exec, input, path[..i]) == None && path[i] == Next(def, exec, input, path[..i])
  }

  ghost predicate IsFreeRun(def: Definition, nodes: map<string, string>, exec: Executor, input: Context,
                            path: seq<string>, end: Stop) {
    IsFreeWalk(def, nodes, exec, input, path) && FreeStop(def, nodes, exec, input, path) == Some(end)
  }

  lemma FreeWalkGrows(def: Definition, nodes: map<string, string>, exec: Executor, input: Context, path: seq<string>)
    requires IsFreeWalk(def, nodes, exec, input, path) && FreeStop(def, nodes, exec, input, path).None?
    ensures IsFreeWalk(def, nodes, exec, input, path + [Next(def, exec, input, path)])
  {
    hide FreeStop, Next;
    var longer := path + [Next(def, exec, input, path)];
    forall i | 0 <= i < |longer| ensures FreelyGoes(def, nodes, exec, input, longer, i) {
      if i < |path| {
        assert longer[..i] == path[..i];
        assert FreelyGoes(def, nodes, exec, input, path, i);
      } else {
        assert longer[..i] == path;
      }
    }
  }

  lemma FreeWalkIsSimple(def: Definition, nodes: map<string, string>, exec: Executor, input: Context,
                         path: seq<string>)
    requires IsFreeWalk(def, nodes, exec, input, path)
    ensures |path| <= |nodes|
  {
    hide Next;
    forall i | 0 <= i < |path| ensures path[i] !in path[..i] && path[i] in nodes {
      assert FreelyGoes(def, nodes, exec, input, path, i);
    }
    forall i, j | 0 <= i < j < |path| ensures path[i] != path[j] {
      assert path[..j][i] == path[i];
    }
    DistinctFit(path, nodes.Keys);
  }

  /** Without the limit every walk ends as well: no node is executed twice. */
  lemma {:induction false} FreeRunExists(def: Definition, nodes: map<string, string>, exec: Executor,
                                         input: Context, path: seq<string>)
      returns (free: seq<string>, end: Stop)
    requires IsFreeWalk(def, nodes, exec, input, path)
    ensures IsFreeRun(def, nodes, exec, input, free, end) && path <= free && |free| <= |nodes| && end != Limit
    decreases |nodes| - |path|
  {
    hide Next;
    FreeWalkIsSimple(def, nodes, exec, input, path);
    if FreeStop(def, nodes, exec, input, path).Some? {
      free, end := path, FreeStop(def, nodes, exec, input, path).value;
    } else {
      FreeWalkGrows(def, nodes, exec, input, path);
      FreeWalkIsSimple(def, nodes, exec, input, path + [Next(def, exec, input, path)]);
      free, end := FreeRunExists(def, nodes, exec, input, path + [Next(def, exec, input, path)]);
    }
  }

  /** What the limit leaves of a run that would execute `free` and end for `end`. */
  function Cut(free: seq<string>): seq<string> {
    if |free| <= MAX_STEPS then free else free[..MAX_STEPS]
  }

  /** A run that would execute more than fifty nodes, or has executed fifty when
      something other than its end comes next. */
  predicate Overruns(free: seq<string>, end: Stop) {
    |free| > MAX_STEPS || (|free| == MAX_STEPS && end != Finished)
  }

  lemma CutRuns(def: Definition, nodes: map<string, string>, exec: Executor, input: Context,
                free: seq<string>, end: Stop)
    requires IsFreeRun(def, nodes, exec, input, free, end)
    ensures IsRun(def, nodes, exec, input, Cut(free), if Overruns(free, end) then Limit else end)
  {
    hide Next;
    var path := Cut(free);
    forall i | 0 <= i < |path| ensures Goes(def, nodes, exec, input, path, i) {
      assert path[..i] == free[..i];
      assert FreelyGoes(def, nodes, exec, input, free, i);
    }
    if |free| > MAX_STEPS {
      assert FreelyGoes(def, nodes, exec, input, free, MAX_STEPS);
    }
  }

  /** The executed path is the first fifty nodes of the unlimited one, and the limit is
      what ends it if and only if the unlimited walk would go on: to a fifty-first
      node, or from the fiftieth to a node already executed or one that fails. In
      particular it takes fifty nodes. */
  lemma LimitCutsExactly(def: Definition, nodes: map<string, string>, exec: Executor, input: Context,
                         free: seq<string>, end: Stop, path: seq<string>, stop: Stop)
    requires IsFreeRun(def, nodes, exec, input, free, end) && IsRun(def, nodes, exec, input, path, stop)
    ensures path == Cut(free)
    ensures stop == Limit <==> Overruns(free, end)
    ensures stop != Limit ==> stop == end
    ensures |nodes| < MAX_STEPS ==> stop != Limit
  {
    hide Next;
    CutRuns(def, nodes, exec, input, free, end);
    FreeWalkIsSimple(def, nodes, exec, input, free);
    RunUnique(def, nodes, exec, input, path, stop, Cut(free), if Overruns(free, end) then Limit else end);
  }

  /** `ids` in this order: each node's one edge leads to the next, none fails. */
  ghost predicate IsChain(def: Definition, nodes: map<string, string>, exec: Executor, ids: seq<string>) {
    ids != [] && Start(def) == ids[0]
    && (forall i, j :: 0 <= i < j < |ids| ==> ids[i] != ids[j])
    && (forall i :: 0 <= i < |ids| ==> ids[i] in nodes && ids[i] != "" && LeadsOn(def, exec, ids, i))
  }

  ghost predicate LeadsOn(def: Definition, exec: Executor, ids: seq<string>, i: nat)
    requires i < |ids|
  {
    EdgesFrom(def.edges, ids[i]) == (if i + 1 < |ids| then [Edge(ids[i], ids[i+1], "")] else [])
    && forall ctx :: exec(ids[i], ctx).Done?
  }

  lemma ChainNext(def: Definition, nodes: map<string, string>, exec: Executor, input: Context, ids: seq<string>, n: nat)
    requires IsChain(def, nodes, exec, ids) && n <= |ids|
    ensures Next(def, exec, input, ids[..n]) == if n < |ids| then ids[n] else ""
  {
    hide Start, EdgesFrom, After;
    if n > 0 { assert LeadsOn(def, exec, ids, n - 1); }
  }

  lemma ChainGoes(def: Definition, nodes: map<string, string>, exec: Executor, input: Context, ids: seq<string>, i: nat)
    requires IsChain(def, nodes, exec, ids) && i < |ids|
    ensures FreelyGoes(def, nodes, exec, input, ids, i)
  {
    hide Next, After, Start, EdgesFrom;
    ChainNext(def, nodes, exec, input, ids, i);
    assert LeadsOn(def, exec, ids, i);
  }

  lemma ChainRuns(def: Definition, nodes: map<string, string>, exec: Executor, input: Context, ids: seq<string>)
    requires IsChain(def, nodes, exec, ids)
    ensures IsFreeRun(def, nodes, exec, input, ids, Finished)
  {
    hide Next, After, IsChain, FreelyGoes;
    forall i | 0 <= i < |ids| ensures FreelyGoes(def, nodes, exec, input, ids, i) {
      ChainGoes(def, nodes, exec, input, ids, i);
    }
    ChainNext(def, nodes, exec, input, ids, |ids|);
    assert ids[..|ids|] == ids;
  }

  /** A workflow of nodes in a row runs to its end if it has at most fifty of them, and
      is cut off after fifty, without an error, if it has more. */
  lemma ChainTruncated(def: Definition, nodes: map<string, string>, exec: Executor, input: Context, ids: seq<string>)
    requires IsChain(def, nodes, exec, ids)
    ensures IsRun(def, nodes, exec, input, if |ids| <= MAX_STEPS then ids else ids[..MAX_STEPS],
                  if |ids| <= MAX_STEPS then Finished else Limit)
  {
    hide IsChain, IsRun, IsFreeRun;
    ChainRuns(def, nodes, exec, input, ids);
    CutRuns(def, nodes, exec, input, ids, Finished);
  }

  // ----- which edge is taken -----

  predicate Usable(e: Edge, id: string, ctx: Context) {
    e.from == id && Enabled(e, ctx)
  }

  lemma {:induction false} FirstEnabledConcat(a: seq<Edge>, b: seq<Edge>, ctx: Context)
    ensures FirstEnabled(a + b, ctx)
         == if exists i :: 0 <= i < |a| && Enabled(a[i], ctx) then FirstEnabled(a, ctx) else FirstEnabled(b, ctx)
  {
    if a == [] {
      assert a + b == b;
    } else {
      assert (a + b)[1..] == a[1..] + b;
      FirstEnabledConcat(a[1..], b, ctx);
      if !Enabled(a[0], ctx) {
        assert forall i :: 0 <= i < |a[1..]| ==> a[1..][i] == a[i+1];
        assert (exists i :: 0 <= i < |a| && Enabled(a[i], ctx)) ==>
                 exists i :: 0 <= i < |a[1..]| && Enabled(a[1..][i], ctx) by {
          if i :| 0 <= i < |a| && Enabled(a[i], ctx) { assert a[1..][i-1] == a[i]; }
        }
      }
    }
  }

  lemma {:induction false} EdgesFromHave(edges: seq<Edge>, id: string, ctx: Context)
    ensures (exists i :: 0 <= i < |EdgesFrom(edges, id)| && Enabled(EdgesFrom(edges, id)[i], ctx))
       <==> (exists k :: 0 <= k < |edges| && Usable(edges[k], id, ctx))
  {
    hide Enabled;
    if edges != [] {
      var front, e := edges[..|edges|-1], edges[|edges|-1];
      EdgesFromHave(front, id, ctx);
      var a, all := EdgesFrom(front, id), EdgesFrom(edges, id);
      if i :| 0 <= i < |a| && Enabled(a[i], ctx) { assert all[i] == a[i]; }
      if i :| 0 <= i < |all| && Enabled(all[i], ctx) {
        assert i < |a| ==> a[i] == all[i];
        assert i >= |a| ==> edges[|edges|-1] == all[i];
      }
      if k :| 0 <= k < |front| && Usable(front[k], id, ctx) { assert edges[k] == front[k]; }
      if k :| 0 <= k < |edges| && Usable(edges[k], id, ctx) {
        assert k < |front| ==> front[k] == edges[k];
        assert k == |front| ==> all[|a|] == e;
      }
    }
  }

  /** The next node is the target of the first usable edge in definition order,
      and there is none exactly when no edge is usable. */
  lemma {:induction false} FirstUsableEdge(edges: seq<Edge>, id: string, ctx: Context, k: nat)
    requires k <= |edges| && forall j :: 0 <= j < k ==> !Usable(edges[j], id, ctx)
    ensures k < |edges| && Usable(edges[k], id, ctx) ==> FirstEnabled(EdgesFrom(edges, id), ctx) == edges[k].to
    ensures k == |edges| ==> FirstEnabled(EdgesFrom(edges, id), ctx) == ""
  {
    hide Enabled;
    if edges != [] {
      var front, e := edges[..|edges|-1], edges[|edges|-1];
      var own := if e.from == id then [e] else [];
      FirstEnabledConcat(EdgesFrom(front, id), own, ctx);
      EdgesFromHave(front, id, ctx);
      assert forall j :: 0 <= j < |front| ==> front[j] == edges[j];
      if k < |front| {
        FirstUsableEdge(front, id, ctx, k);
        assert Usable(edges[k], id, ctx) ==> Usable(front[k], id, ctx);
      } else {
        assert !exists j :: 0 <= j < |front| && Usable(front[j], id, ctx);
        assert FirstEnabled([], ctx) == "";
        if own != [] { assert own[1..] == []; }
      }
    }
  }

  // ----- what the output is -----

  predicate IsOutput(nodes: map<string, string>, id: string) {
    id in nodes && nodes[id] == "output"
  }

  /** The recorded output is the result of the last output node on the path. */
  lemma {:induction false} OutputIsLast(def: Definition, nodes: map<string, string>, exec: Executor, input: Context,
                                        path: seq<string>, i: nat)
    requires IsWalk(def, nodes, exec, input, path)
    requires i <= |path| && forall j :: i < j < |path| ==> !IsOutput(nodes, path[j])
    ensures i < |path| && IsOutput(nodes, path[i]) ==>
              var o := exec(path[i], After(exec, input, path[..i]));
              o.Done? && Recorded(nodes, exec, input, path) == Some(o.result)
    ensures (forall j :: 0 <= j < |path| ==> !IsOutput(nodes, path[j])) ==> Recorded(nodes, exec, input, path) == None
  {
    hide Next, After;
    if path != [] {
      var front := path[..|path|-1];
      WalkShrinks(def, nodes, exec, input, path);
      assert forall j :: 0 <= j < |front| ==> front[j] == path[j];
      if i < |front| {
        OutputIsLast(def, nodes, exec, input, front, i);
        assert front[..i] == path[..i];
      } else {
        assert Goes(def, nodes, exec, input, path, |front|);
        assert path[..|front|] == front;
        if forall j :: 0 <= j < |path| ==> !IsOutput(nodes, path[j]) {
          assert !IsOutput(nodes, path[|front|]);
          OutputIsLast(def, nodes, exec, input, front, |front|);
        }
      }
    }
  }

  lemma WalkShrinks(def: Definition, nodes: map<string, string>, exec: Executor, input: Context, path: seq<string>)
    requires path != [] && IsWalk(def, nodes, exec, input, path)
    ensures IsWalk(def, nodes, exec, input, path[..|path|-1])
  {
    hide StopAfter, Next;
    var front := path[..|path|-1];
    forall i | 0 <= i < |front| ensures Goes(def, nodes, exec, input, front, i) {
      assert Goes(def, nodes, exec, input, path, i);
      assert front[..i] == path[..i];
    }
  }

  // ----- what does not matter -----

  /** The two engines agree on one node: its edges, its kind, what it does. */
  ghost predicate AgreeOn(def: Definition, nodes: map<string, string>, exec: Executor,
                          def': Definition, nodes': map<string, string>, exec': Executor, id: string) {
    EdgesFrom(def.edges, id) == EdgesFrom(def'.edges, id)
    && (id in nodes <==> id in nodes')
    && (id in nodes ==> nodes[id] == nodes'[id])
    && forall ctx :: exec(id, ctx) == exec'(id, ctx)
  }

  lemma {:induction false} SameContext(exec: Executor, exec': Executor, input: Context, path: seq<string>)
    requires forall i, ctx :: 0 <= i < |path| ==> exec(path[i], ctx) == exec'(path[i], ctx)
    ensures After(exec, input, path) == After(exec', input, path)
  {
    if path != [] {
      SameContext(exec, exec', input, path[..|path|-1]);
    }
  }

  lemma SameNext(def: Definition, nodes: map<string, string>, exec: Executor,
                 def': Definition, nodes': map<string, string>, exec': Executor, input: Context, path: seq<string>)
    requires Start(def) == Start(def')
    requires forall i :: 0 <= i < |path| ==> AgreeOn(def, nodes, exec, def', nodes', exec', path[i])
    ensures After(exec, input, path) == After(exec', input, path)
    ensures Next(def, exec, input, path) == Next(def', exec', input, path)
  {
    hide After, EdgesFrom, FirstEnabled, Start;
    SameContext(exec, exec', input, path);
  }

  /** Nodes off the path, and their edges, have no influence: change them as you
      like and the run is the same. */
  lemma OnlyThePathMatters(def: Definition, nodes: map<string, string>, exec: Executor,
                           def': Definition, nodes': map<string, string>, exec': Executor,
                           input: Context, path: seq<string>, stop: Stop)
    requires IsRun(def, nodes, exec, input, path, stop)
    requires Start(def) == Start(def')
    requires forall i :: 0 <= i < |path| ==> AgreeOn(def, nodes, exec, def', nodes', exec', path[i])
    requires AgreeOn(def, nodes, exec, def', nodes', exec', Next(def, exec, input, path))
    ensures IsRun(def', nodes', exec', input, path, stop)
  {
    hide Next, After, Start, EdgesFrom;
    forall i | 0 <= i < |path| ensures Goes(def', nodes', exec', input, path, i) {
      assert Goes(def, nodes, exec, input, path, i);
      SameNext(def, nodes, exec, def', nodes', exec', input, path[..i]);
      assert AgreeOn(def, nodes, exec, def', nodes', exec', path[i]);
    }
    SameNext(def, nodes, exec, def', nodes', exec', input, path);
  }
}
