/** What a run leaves in the context, what it charges, and why it ends. */
module WorkflowLaws {
  import opened Options
  import opened Text
  import opened Workflow

  // ----- the last writer wins -----

  /** What the node at place `i` of the path returns. */
  function OutcomeAt(exec: Executor, input: Context, path: seq<string>, i: nat): Outcome
    requires i < |path|
  {
    exec(path[i], After(exec, input, path[..i]))
  }

  predicate Writes(exec: Executor, input: Context, path: seq<string>, i: nat, key: string)
    requires i < |path|
  {
    OutcomeAt(exec, input, path, i).Done? && key in OutcomeAt(exec, input, path, i).result
  }

  lemma PrefixOutcome(exec: Executor, input: Context, path: seq<string>, i: nat)
    requires i < |path| - 1
    ensures OutcomeAt(exec, input, path[..|path|-1], i) == OutcomeAt(exec, input, path, i)
  {
    assert path[..|path|-1][..i] == path[..i];
  }

  /** A key is in the context exactly when the input or some result on the path has
      it, and its value is that of the last such result, else the input's. */
  lemma {:induction false} LastWriterWins(exec: Executor, input: Context, path: seq<string>, key: string)
    ensures var ctx := After(exec, input, path);
            (key in ctx <==> key in input || exists i :: 0 <= i < |path| && Writes(exec, input, path, i, key))
            && (forall i :: 0 <= i < |path| && Writes(exec, input, path, i, key)
                            && (forall j :: i < j < |path| ==> !Writes(exec, input, path, j, key)) ==>
                  ctx[key] == OutcomeAt(exec, input, path, i).result[key])
            && (key in input && (forall i :: 0 <= i < |path| ==> !Writes(exec, input, path, i, key)) ==>
                  ctx[key] == input[key])
    decreases |path|
  {
    hide OutcomeAt;
    if path != [] {
      var front, n := path[..|path|-1], |path| - 1;
      LastWriterWins(exec, input, front, key);
      forall i | 0 <= i < n ensures OutcomeAt(exec, input, front, i) == OutcomeAt(exec, input, path, i)
                            ensures Writes(exec, input, front, i, key) <==> Writes(exec, input, path, i, key)
      {
        PrefixOutcome(exec, input, path, i);
      }
      AfterStep(exec, input, path, key);
      if i :| 0 <= i < n && Writes(exec, input, front, i, key) {
        assert Writes(exec, input, path, i, key);
      }
    }
  }

  lemma AfterStep(exec: Executor, input: Context, path: seq<string>, key: string)
    requires path != []
    ensures var n := |path| - 1;
            var before, ctx := After(exec, input, path[..n]), After(exec, input, path);
            if Writes(exec, input, path, n, key)
            then key in ctx && ctx[key] == OutcomeAt(exec, input, path, n).result[key]
            else (key in ctx <==> key in before) && (key in ctx ==> ctx[key] == before[key])
  {}

  /** What is reported as output: after an error only a result of an output node; else
      the last output node's result, or without one the whole final context, key by key
      as the last node wrote it. */
  lemma OutputExactly(def: Definition, nodes: map<string, string>, exec: Executor, input: Context,
                      path: seq<string>, stop: Stop, output: Option<Context>, tokens: int, cost: int,
                      err: Option<WalkError>, key: string)
    requires IsRun(def, nodes, exec, input, path, stop)
    requires Reports(nodes, exec, input, path, stop, output, tokens, cost, err)
    ensures err == None <==> !stop.Broken?
    ensures (forall j :: 0 <= j < |path| ==> !IsOutput(nodes, path[j])) ==>
              (stop.Broken? ==> output == None)
              && (!stop.Broken? ==>
                    output.Some?
                    && (key in output.value <==>
                          key in input || exists i :: 0 <= i < |path| && Writes(exec, input, path, i, key))
                    && (forall i :: 0 <= i < |path| && Writes(exec, input, path, i, key)
                                    && (forall j :: i < j < |path| ==> !Writes(exec, input, path, j, key)) ==>
                          output.value[key] == OutcomeAt(exec, input, path, i).result[key]))
    ensures forall i :: 0 <= i < |path| && IsOutput(nodes, path[i])
                        && (forall j :: i < j < |path| ==> !IsOutput(nodes, path[j])) ==>
              OutcomeAt(exec, input, path, i).Done? && output == Some(OutcomeAt(exec, input, path, i).result)
  {
    hide After, Next, StopAfter, Writes;
    LastWriterWins(exec, input, path, key);
    if forall j :: 0 <= j < |path| ==> !IsOutput(nodes, path[j]) {
      OutputIsLast(def, nodes, exec, input, path, |path|);
    }
    forall i | 0 <= i < |path| && IsOutput(nodes, path[i])
               && (forall j :: i < j < |path| ==> !IsOutput(nodes, path[j]))
      ensures OutcomeAt(exec, input, path, i).Done? && output == Some(OutcomeAt(exec, input, path, i).result)
    {
      OutputIsLast(def, nodes, exec, input, path, i);
    }
  }

  // ----- what is charged -----

  /** Another executor that only reports other numbers for one node. */
  predicate Recharged(exec: Executor, exec': Executor, input: Context, path: seq<string>, at: nat,
                      tokens: int, cost: int)
    requires at < |path|
  {
    forall i :: 0 <= i < |path| ==>
      var o, o' := OutcomeAt(exec, input, path, i), exec'(path[i], After(exec, input, path[..i]));
      (o.Done? <==> o'.Done?)
      && (o.Done? ==> o'.result == o.result && o'.tokens == o.tokens + (if i == at then tokens else 0)
                      && o'.cost == o.cost + (if i == at then cost else 0))
  }

  lemma {:induction false} SameAfter(exec: Executor, exec': Executor, input: Context, path: seq<string>, at: nat,
                                     tokens: int, cost: int, n: nat)
    requires at < |path| && Recharged(exec, exec', input, path, at, tokens, cost) && n <= |path|
    ensures After(exec', input, path[..n]) == After(exec, input, path[..n])
  {
    hide Recharged;
    if n > 0 {
      SameAfter(exec, exec', input, path, at, tokens, cost, n - 1);
      assert path[..n][..n-1] == path[..n-1];
      RechargedAt(exec, exec', input, path, at, tokens, cost, n - 1);
    }
  }

  lemma RechargedAt(exec: Executor, exec': Executor, input: Context, path: seq<string>, at: nat,
                    tokens: int, cost: int, i: nat)
    requires at < |path| && Recharged(exec, exec', input, path, at, tokens, cost) && i < |path|
    ensures var o, o' := OutcomeAt(exec, input, path, i), exec'(path[i], After(exec, input, path[..i]));
            (o.Done? <==> o'.Done?)
            && (o.Done? ==> o'.result == o.result && o'.tokens == o.tokens + (if i == at then tokens else 0)
                            && o'.cost == o.cost + (if i == at then cost else 0))
  {}

  /** Charging one node differently changes the bill by that difference if the node is
      an llm or text2sql node, and not at all otherwise. */
  lemma {:induction false} ChargedExactly(nodes: map<string, string>, exec: Executor, exec': Executor, input: Context,
                                          path: seq<string>, at: nat, tokens: int, cost: int, n: nat)
    requires at < |path| && Recharged(exec, exec', input, path, at, tokens, cost) && n <= |path|
    requires OutcomeAt(exec, input, path, at).Done?
    ensures var counts := at < n && path[at] in nodes && nodes[path[at]] in {"llm", "text2sql"};
            Tokens(nodes, exec', input, path[..n]) - Tokens(nodes, exec, input, path[..n])
            == (if counts then tokens else 0)
            && Cost(nodes, exec', input, path[..n]) - Cost(nodes, exec, input, path[..n])
            == (if counts then cost else 0)
  {
    hide Recharged, After;
    if n > 0 {
      ChargedExactly(nodes, exec, exec', input, path, at, tokens, cost, n - 1);
      SameAfter(exec, exec', input, path, at, tokens, cost, n - 1);
      RechargedAt(exec, exec', input, path, at, tokens, cost, n - 1);
      assert path[..n][..n-1] == path[..n-1];
    }
  }

  /** Nodes that report nothing cost nothing. */
  lemma {:induction false} NothingCharged(nodes: map<string, string>, exec: Executor, input: Context, path: seq<string>)
    requires forall i :: 0 <= i < |path| && OutcomeAt(exec, input, path, i).Done? ==>
               OutcomeAt(exec, input, path, i).tokens == 0 && OutcomeAt(exec, input, path, i).cost == 0
    ensures Tokens(nodes, exec, input, path) == 0 && Cost(nodes, exec, input, path) == 0
  {
    hide After, OutcomeAt;
    if path != [] {
      var n := |path| - 1;
      forall i | 0 <= i < n ensures OutcomeAt(exec, input, path[..n], i) == OutcomeAt(exec, input, path, i) {
        PrefixOutcome(exec, input, path, i);
      }
      NothingCharged(nodes, exec, input, path[..n]);
      LastOutcome(exec, input, path);
    }
  }

  lemma LastOutcome(exec: Executor, input: Context, path: seq<string>)
    requires path != []
    ensures exec(path[|path|-1], After(exec, input, path[..|path|-1])) == OutcomeAt(exec, input, path, |path| - 1)
  {}

  // ----- how a run ends -----

  /** The run reports an error exactly when, after fewer than fifty nodes, the first
      usable edge leads to an id that no node has or to a node that fails, and that
      id was not executed before. */
  lemma EndsInErrorExactly(def: Definition, nodes: map<string, string>, exec: Executor, input: Context,
                           path: seq<string>, stop: Stop, k: nat)
    requires IsRun(def, nodes, exec, input, path, stop) && path != []
    requires k < |def.edges| && Usable(def.edges[k], path[|path|-1], After(exec, input, path))
    requires forall j :: 0 <= j < k ==> !Usable(def.edges[j], path[|path|-1], After(exec, input, path))
    ensures var id := def.edges[k].to;
            stop.Broken? <==>
              id != "" && |path| < 50 && id !in path
              && (id in nodes ==> exec(id, After(exec, input, path)).Failed?)
    ensures stop == Finished <==> def.edges[k].to == ""
    ensures stop == Revisit <==> def.edges[k].to != "" && |path| < 50 && def.edges[k].to in path
  {
    hide After, EdgesFrom, FirstEnabled, Usable;
    FirstUsableEdge(def.edges, path[|path|-1], After(exec, input, path), k);
  }

  /** Without a usable edge the run is finished. */
  lemma EndsWithoutEdge(def: Definition, nodes: map<string, string>, exec: Executor, input: Context,
                        path: seq<string>, stop: Stop)
    requires IsRun(def, nodes, exec, input, path, stop) && path != []
    requires forall j :: 0 <= j < |def.edges| ==> !Usable(def.edges[j], path[|path|-1], After(exec, input, path))
    ensures stop == Finished
  {
    hide After, EdgesFrom, FirstEnabled, Usable;
    FirstUsableEdge(def.edges, path[|path|-1], After(exec, input, path), |def.edges|);
  }

  /** A condition without `=` is always met. */
  lemma PlainCondition(cond: string, ctx: Context)
    requires Lacks(cond, '=')
    ensures EvalCondition(cond, ctx)
  {}

  /** The first executed node: the first of kind input, else the first defined. */
  lemma {:induction false} StartsAt(def: Definition, i: nat)
    requires i < |def.nodes| && def.nodes[i].id != ""
    requires if def.nodes[i].kind == "input" then forall j :: 0 <= j < i ==> def.nodes[j].kind != "input"
             else i == 0 && forall j :: 0 <= j < |def.nodes| ==> def.nodes[j].kind != "input"
    ensures Start(def) == def.nodes[i].id
  {
    if def.nodes[i].kind == "input" { FirstInputAt(def.nodes, i); } else { NoInput(def.nodes); }
  }

  lemma {:induction false} FirstInputAt(nodes: seq<NodeDef>, i: nat)
    requires i < |nodes| && nodes[i].kind == "input" && forall j :: 0 <= j < i ==> nodes[j].kind != "input"
    ensures FirstInput(nodes) == nodes[i].id
  {
    if i > 0 { FirstInputAt(nodes[1..], i - 1); }
  }

  lemma {:induction false} NoInput(nodes: seq<NodeDef>)
    requires forall j :: 0 <= j < |nodes| ==> nodes[j].kind != "input"
    ensures FirstInput(nodes) == ""
  {
    if nodes != [] { NoInput(nodes[1..]); }
  }
}
