/** The interpreter as the tests run it: blocks are executed in a loop that updates the value table,
    the memory, the current block and its predecessor, up to a step limit. */
module Interpreter {
  import opened Wrappers
  import opened Oir

  const STEP_LIMIT: nat := 10000

  /** The outcome of a run; exceeding the step limit is a failure. */
  function Limited(f: Function, arguments: seq<int>, memory: seq<int>): Outcome {
    if |f.args| != |arguments| then Failed
    else
      var o := Execute(f, StartConfig(f, arguments, memory), STEP_LIMIT);
      if o.Running? then Failed else o
  }

  method Run(f: Function, arguments: seq<int>, memory: seq<int>) returns (o: Outcome)
    ensures o == Limited(f, arguments, memory)
  {
    if |f.args| != |arguments| {
      return Failed;
    }
    var values: Env := map[];
    for k := 0 to |f.args|
      invariant values == ArgumentEnv(f.args[..k], arguments[..k])
    {
      assert f.args[..k + 1][..k] == f.args[..k] && arguments[..k + 1][..k] == arguments[..k];
      values := values[f.args[k] := Num(arguments[k])];
    }
    assert f.args[..|f.args|] == f.args && arguments[..|f.args|] == arguments;
    ghost var start := StartConfig(f, arguments, memory);
    var mem, block := memory, f.entry;
    var predecessor: Option<Label> := None;
    for steps := 0 to STEP_LIMIT
      invariant Execute(f, start, steps) == Running(Config(block, predecessor, State(values, mem)))
    {
      ghost var c := Config(block, predecessor, State(values, mem));
      ExecuteCompose(f, start, steps, 1);
      assert Execute(f, start, steps + 1) == StepBlock(f, c) by {
        var next := StepBlock(f, c);
        if next.Running? { assert Execute(f, next.config, 0) == next; }
      }
      var next := RunOneBlock(f, block, predecessor, values, mem);
      if !next.Running? {
        FinalStays(f, start, steps + 1, STEP_LIMIT);
        return next;
      }
      values, mem, block, predecessor :=
        next.config.state.env, next.config.state.memory, next.config.block, next.config.predecessor;
    }
    return Failed;
  }

  /** One block: phis in two phases, instructions in order, then the branch or return. */
  method RunOneBlock(f: Function, block: Label, predecessor: Option<Label>, env: Env, memory: seq<int>)
    returns (o: Outcome)
    ensures o == StepBlock(f, Config(block, predecessor, State(env, memory)))
  {
    if block !in f.blocks {
      return Failed;
    }
    var b := f.blocks[block];
    var values, mem := env, memory;
    var read := ReadAll(b.phis, predecessor, env);
    if !read.Ok? {
      return Stop(read);
    }
    for k := 0 to |b.phis|
      invariant AssignPhis(b.phis[k..], read.value[k..], values) == AssignPhis(b.phis, read.value, env)
    {
      assert b.phis[k..][1..] == b.phis[k + 1..] && read.value[k..][1..] == read.value[k + 1..];
      values := values[b.phis[k].dst := read.value[k]];
    }
    ghost var entry := State(values, memory);
    for k := 0 to |b.body|
      invariant RunBody(b.body[k..], State(values, mem)) == RunBody(b.body, entry)
    {
      assert b.body[k..][1..] == b.body[k + 1..];
      var r := RunInstr(b.body[k], State(values, mem));
      if !r.Ok? {
        return Stop(r);
      }
      values, mem := r.value.env, r.value.memory;
    }
    o := RunTerminator(b.terminator, block, State(values, mem));
  }

  /** What remains to be read, after the values already read. */
  function Prefixed(values: seq<Value>, rest: Exec<seq<Value>>): Exec<seq<Value>> {
    if rest.Ok? then Ok(values + rest.value) else rest
  }

  lemma NextRead(phis: seq<Phi>, predecessor: Option<Label>, env: Env, values: seq<Value>, o: Operand, v: Value)
    requires phis != [] && IncomingFrom(phis[0].incoming, predecessor) == Ok(o) && Eval(o, env) == Ok(v)
    ensures Prefixed(values, ReadPhis(phis, predecessor, env)) ==
              Prefixed(values + [v], ReadPhis(phis[1..], predecessor, env))
  {
    var rest := ReadPhis(phis[1..], predecessor, env);
    assert rest.Ok? ==> values + ([v] + rest.value) == (values + [v]) + rest.value;
  }

  /** The first phase of the phis. */
  method ReadAll(phis: seq<Phi>, predecessor: Option<Label>, env: Env) returns (r: Exec<seq<Value>>)
    ensures r == ReadPhis(phis, predecessor, env)
  {
    var values: seq<Value> := [];
    ghost var all := ReadPhis(phis, predecessor, env);
    assert phis[0..] == phis && (all.Ok? ==> [] + all.value == all.value);
    for k := 0 to |phis|
      invariant all == Prefixed(values, ReadPhis(phis[k..], predecessor, env))
    {
      assert phis[k..][0] == phis[k] && phis[k..][1..] == phis[k + 1..];
      var operand := IncomingFrom(phis[k].incoming, predecessor);
      if !operand.Ok? {
        return operand.PropagateFailure();
      }
      var v := Eval(operand.value, env);
      if !v.Ok? {
        return v.PropagateFailure();
      }
      NextRead(phis[k..], predecessor, env, values, operand.value, v.value);
      values := values + [v.value];
    }
    assert values + [] == values;
    return Ok(values);
  }

  /** The limit is ten thousand blocks: what finishes within it is the outcome, whatever runs longer
      fails, and so does a wrong number of arguments. */
  lemma LimitExactly(f: Function, arguments: seq<int>, memory: seq<int>, steps: nat, limit: nat)
    requires limit == 10000 && steps <= limit
    ensures |f.args| != |arguments| ==> Limited(f, arguments, memory) == Failed
    ensures |f.args| == |arguments| ==>
              var start := StartConfig(f, arguments, memory);
              && (Final(Execute(f, start, steps)) ==> Limited(f, arguments, memory) == Execute(f, start, steps))
              && (Execute(f, start, limit).Running? ==> Limited(f, arguments, memory) == Failed)
  {
    if |f.args| == |arguments| {
      var start := StartConfig(f, arguments, memory);
      if Final(Execute(f, start, steps)) {
        FinalStays(f, start, steps, limit);
      }
    }
  }
}
