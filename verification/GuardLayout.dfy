/** Laying structured code out as basic blocks.  Every diamond splits the current block: the tail
    moves to a join block, and the two arms meet in it through a phi. */
module GuardLayout {
  import opened Wrappers
  import opened Oir
  import opened LaneLowering
  import opened LaneCorrectness

  function GuardNumber(p: Part): int {
    match p
    case Head => -1
    case Taken(g) => g
    case NotTaken(g) => g
    case Join(g) => g
  }

  function MergePhis(b: nat, guard: nat, merge: Option<Merge>): seq<Phi> {
    match merge
    case None => []
    case Some(m) =>
      [Phi(m.dst, None, [Incoming(Label(b, Taken(guard)), m.taken), Incoming(Label(b, NotTaken(guard)), m.otherwise)])]
  }

  /** The current block, which branches on the guard, and the two arms of diamond `d`. */
  function Arms(b: nat, guard: nat, cur: Part, phis: seq<Phi>, pre: seq<Instr>, d: Item): map<Label, Block>
    requires d.Diamond?
  {
    map[Label(b, cur) :=
          Block(phis, pre, CondBr(d.condition, Label(b, Taken(guard)), Label(b, NotTaken(guard)))),
        Label(b, Taken(guard)) := Block([], d.taken, Br(Label(b, Join(guard)))),
        Label(b, NotTaken(guard)) := Block([], [], Br(Label(b, Join(guard))))]
  }

  /** The blocks of a source block from part `cur` on: `pre` is what the current block holds so far,
      `guard` the number of the next diamond. */
  function Emit(b: nat, guard: nat, cur: Part, phis: seq<Phi>, pre: seq<Instr>, items: seq<Item>, t: Terminator)
    : map<Label, Block>
    decreases |items|
  {
    if items == [] then map[Label(b, cur) := Block(phis, pre, t)]
    else match items[0]
      case Plain(i) => Emit(b, guard, cur, phis, pre + [i], items[1..], t)
      case Diamond(_, _, merge) =>
        Emit(b, guard + 1, Join(guard), MergePhis(b, guard, merge), [], items[1..], t)
        + Arms(b, guard, cur, phis, pre, items[0])
  }

  /** The part that ends with the original terminator: the predecessor its successors see. */
  function LastPart(guard: nat, cur: Part, items: seq<Item>): Part
    decreases |items|
  {
    if items == [] then cur
    else match items[0]
      case Plain(_) => LastPart(guard, cur, items[1..])
      case Diamond(_, _, _) => LastPart(guard + 1, Join(guard), items[1..])
  }

  ghost predicate SubMap(m: map<Label, Block>, m': map<Label, Block>) {
    forall l :: l in m ==> l in m' && m'[l] == m[l]
  }

  lemma {:induction false} EmitKeys(b: nat, guard: nat, cur: Part, phis: seq<Phi>, pre: seq<Instr>, items: seq<Item>,
                                    t: Terminator, l: Label)
    requires l in Emit(b, guard, cur, phis, pre, items, t)
    ensures l.block == b && (l.part == cur || GuardNumber(l.part) >= guard)
    decreases |items|
  {
    if items != [] {
      match items[0]
      case Plain(i) => EmitKeys(b, guard, cur, phis, pre + [i], items[1..], t, l);
      case Diamond(c, taken, merge) =>
        var rest := Emit(b, guard + 1, Join(guard), MergePhis(b, guard, merge), [], items[1..], t);
        if l in rest {
          EmitKeys(b, guard + 1, Join(guard), MergePhis(b, guard, merge), [], items[1..], t, l);
        }
    }
  }

  /** The blocks after a diamond are placed whenever all blocks are. */
  lemma EmitRest(b: nat, guard: nat, cur: Part, phis: seq<Phi>, pre: seq<Instr>, items: seq<Item>, t: Terminator,
                 blocks: map<Label, Block>)
    requires items != [] && items[0].Diamond? && GuardNumber(cur) < guard
    requires SubMap(Emit(b, guard, cur, phis, pre, items, t), blocks)
    ensures SubMap(Emit(b, guard + 1, Join(guard), MergePhis(b, guard, items[0].merge), [], items[1..], t), blocks)
    ensures SubMap(Arms(b, guard, cur, phis, pre, items[0]), blocks)
  {
    var whole := Emit(b, guard, cur, phis, pre, items, t);
    var rest := Emit(b, guard + 1, Join(guard), MergePhis(b, guard, items[0].merge), [], items[1..], t);
    forall l | l in rest ensures l in blocks && blocks[l] == rest[l] {
      EmitKeys(b, guard + 1, Join(guard), MergePhis(b, guard, items[0].merge), [], items[1..], t, l);
      assert l in whole && whole[l] == rest[l];
    }
    assert whole[Label(b, cur)] == blocks[Label(b, cur)];
    assert whole[Label(b, Taken(guard))] == blocks[Label(b, Taken(guard))];
    assert whole[Label(b, NotTaken(guard))] == blocks[Label(b, NotTaken(guard))];
  }

  /** Phis, then the code emitted so far, then the remaining items. */
  function RunFrom(phis: seq<Phi>, pre: seq<Instr>, items: seq<Item>, c: Config): Exec<State> {
    var env :- RunPhis(phis, c.predecessor, c.state.env);
    var s :- RunBody(pre, c.state.(env := env));
    RunItems(items, s)
  }

  /** What the laid-out block must do: the structured code, then the terminator, seen as coming
      from the last part. */
  function Finish(b: nat, guard: nat, cur: Part, phis: seq<Phi>, pre: seq<Instr>, items: seq<Item>, t: Terminator,
                  c: Config): Outcome
  {
    var r := RunFrom(phis, pre, items, c);
    if r.Ok? then RunTerminator(t, Label(b, LastPart(guard, cur, items)), r.value) else Stop(r)
  }

  lemma ExecuteOne(f: Function, c: Config)
    ensures Execute(f, c, 1) == StepBlock(f, c)
  {
    var o := StepBlock(f, c);
    if o.Running? {
      assert Execute(f, o.config, 0) == o;
    }
  }

  /** From the state at the guard through the chosen arm to the join block. */
  function ThroughArm(b: nat, guard: nat, d: Item, s: State): Exec<Config>
    requires d.Diamond?
  {
    var v :- EvalNum(d.condition, s.env);
    var s' :- if v != 0 then RunBody(d.taken, s) else Ok(s);
    Ok(Config(Label(b, Join(guard)), Some(Label(b, if v != 0 then Taken(guard) else NotTaken(guard))), s'))
  }

  /** From the start of the current block to the join block of its first diamond. */
  function ReachJoin(b: nat, guard: nat, phis: seq<Phi>, pre: seq<Instr>, d: Item, c: Config): Exec<Config>
    requires d.Diamond?
  {
    var s :- RunFrom(phis, pre, [], c);
    ThroughArm(b, guard, d, s)
  }

  /** The current block and the chosen arm are two block steps. */
  lemma ArmSteps(f: Function, b: nat, guard: nat, cur: Part, phis: seq<Phi>, pre: seq<Instr>, d: Item, c: Config)
    requires d.Diamond? && c.block == Label(b, cur) && GuardNumber(cur) < guard
    requires SubMap(Arms(b, guard, cur, phis, pre, d), f.blocks)
    ensures var r := ReachJoin(b, guard, phis, pre, d, c);
            Execute(f, c, 2) == if r.Ok? then Running(r.value) else Stop(r)
  {
    var arms := Arms(b, guard, cur, phis, pre, d);
    assert Label(b, cur) in arms && Label(b, Taken(guard)) in arms && Label(b, NotTaken(guard)) in arms;
    ExecuteOne(f, c);
    ExecuteCompose(f, c, 1, 1);
    var o := StepBlock(f, c);
    if o.Running? {
      ExecuteOne(f, o.config);
      var env := RunPhis([], o.config.predecessor, o.config.state.env);
      assert env == Ok(o.config.state.env);
    }
  }

  /** Entering a join block executes the merge of the diamond. */
  lemma MergeRuns(b: nat, guard: nat, merge: Option<Merge>, taken: bool, s: State)
    ensures var from := Label(b, if taken then Taken(guard) else NotTaken(guard));
            var operand := if merge.None? then Int(0) else if taken then merge.value.taken else merge.value.otherwise;
            var r := RunMerge(operand, merge, s);
            var env := RunPhis(MergePhis(b, guard, merge), Some(from), s.env);
            if r.Ok? then env == Ok(r.value.env) && r.value.memory == s.memory else env == r.PropagateFailure()
  {
    if merge.Some? {
      var m := merge.value;
      var from := Label(b, if taken then Taken(guard) else NotTaken(guard));
      var phis := MergePhis(b, guard, merge);
      var incoming := phis[0].incoming;
      assert incoming[1..] == [Incoming(Label(b, NotTaken(guard)), m.otherwise)];
      assert IncomingFrom(incoming, Some(from)) == Ok(if taken then m.taken else m.otherwise);
      assert ReadPhis(phis[1..], Some(from), s.env) == Ok([]);
      var v := Eval(if taken then m.taken else m.otherwise, s.env);
      if v.Ok? {
        var values := [v.value];
        assert [v.value] + [] == values;
        assert ReadPhis(phis, Some(from), s.env) == Ok(values);
        assert phis[1..] == [] && values[1..] == [];
        assert AssignPhis(phis, values, s.env) == s.env[m.dst := v.value];
      }
    }
  }

  /** The laid-out blocks execute exactly the structured code, in at most two extra block steps per
      diamond. */
  lemma {:induction false} RunEmitted(f: Function, b: nat, guard: nat, cur: Part, phis: seq<Phi>, pre: seq<Instr>,
                                      items: seq<Item>, t: Terminator, c: Config) returns (n: nat)
    requires SubMap(Emit(b, guard, cur, phis, pre, items, t), f.blocks)
    requires c.block == Label(b, cur) && GuardNumber(cur) < guard
    ensures 1 <= n <= 2 * |items| + 1
    ensures Execute(f, c, n) == Finish(b, guard, cur, phis, pre, items, t, c)
    decreases |items|, 1
  {
    if items == [] {
      n := 1;
      LastBlockRuns(f, b, guard, cur, phis, pre, t, c);
    } else if items[0].Plain? {
      n := RunEmitted(f, b, guard, cur, phis, pre + [items[0].instr], items[1..], t, c);
      PlainMoves(phis, pre, items, c);
    } else {
      n := RunDiamond(f, b, guard, cur, phis, pre, items, t, c);
    }
  }

  /** Through the first diamond, then the blocks after it. */
  lemma {:induction false} RunDiamond(f: Function, b: nat, guard: nat, cur: Part, phis: seq<Phi>, pre: seq<Instr>,
                                      items: seq<Item>, t: Terminator, c: Config) returns (n: nat)
    requires items != [] && items[0].Diamond?
    requires SubMap(Emit(b, guard, cur, phis, pre, items, t), f.blocks)
    requires c.block == Label(b, cur) && GuardNumber(cur) < guard
    ensures 1 <= n <= 2 * |items| + 1
    ensures Execute(f, c, n) == Finish(b, guard, cur, phis, pre, items, t, c)
    decreases |items|, 0
  {
    var joined;
    joined, n := ToTheJoin(f, b, guard, cur, phis, pre, items, t, c);
    if joined.Ok? {
      var merge := MergePhis(b, guard, items[0].merge);
      var m := RunEmitted(f, b, guard + 1, Join(guard), merge, [], items[1..], t, joined.value);
      ExecuteCompose(f, c, n, m);
      n := n + m;
    }
  }

  /** At most two steps reach the join block, which has the rest to do. */
  lemma ToTheJoin(f: Function, b: nat, guard: nat, cur: Part, phis: seq<Phi>, pre: seq<Instr>, items: seq<Item>,
                  t: Terminator, c: Config) returns (joined: Exec<Config>, n: nat)
    requires items != [] && items[0].Diamond?
    requires SubMap(Emit(b, guard, cur, phis, pre, items, t), f.blocks)
    requires c.block == Label(b, cur) && GuardNumber(cur) < guard
    ensures SubMap(Emit(b, guard + 1, Join(guard), MergePhis(b, guard, items[0].merge), [], items[1..], t), f.blocks)
    ensures 1 <= n <= 2 && Execute(f, c, n) == if joined.Ok? then Running(joined.value) else Stop(joined)
    ensures joined.Ok? ==> joined.value.block == Label(b, Join(guard))
    ensures var merge := MergePhis(b, guard, items[0].merge);
            Finish(b, guard, cur, phis, pre, items, t, c) ==
              if !joined.Ok? then Stop(joined)
              else Finish(b, guard + 1, Join(guard), merge, [], items[1..], t, joined.value)
  {
    EmitRest(b, guard, cur, phis, pre, items, t, f.blocks);
    ArmSteps(f, b, guard, cur, phis, pre, items[0], c);
    FinishSplits(b, guard, cur, phis, pre, items, t, c);
    joined, n := ReachJoin(b, guard, phis, pre, items[0], c), 2;
  }

  lemma LastBlockRuns(f: Function, b: nat, guard: nat, cur: Part, phis: seq<Phi>, pre: seq<Instr>, t: Terminator,
                      c: Config)
    requires SubMap(Emit(b, guard, cur, phis, pre, [], t), f.blocks) && c.block == Label(b, cur)
    ensures Execute(f, c, 1) == Finish(b, guard, cur, phis, pre, [], t, c)
  {
    ExecuteOne(f, c);
    assert Label(b, cur) in Emit(b, guard, cur, phis, pre, [], t);
  }

  lemma PlainMoves(phis: seq<Phi>, pre: seq<Instr>, items: seq<Item>, c: Config)
    requires items != [] && items[0].Plain?
    ensures RunFrom(phis, pre + [items[0].instr], items[1..], c) == RunFrom(phis, pre, items, c)
  {
    var env := RunPhis(phis, c.predecessor, c.state.env);
    if env.Ok? {
      var s := c.state.(env := env.value);
      RunBodyAppend(pre, [items[0].instr], s);
      var mid := RunBody(pre, s);
      if mid.Ok? {
        RunBodyOne(items[0].instr, mid.value);
      }
    }
  }

  /** A diamond leaves the rest to the join block. */
  lemma FinishSplits(b: nat, guard: nat, cur: Part, phis: seq<Phi>, pre: seq<Instr>, items: seq<Item>, t: Terminator,
                     c: Config)
    requires items != [] && items[0].Diamond?
    ensures var r := ReachJoin(b, guard, phis, pre, items[0], c);
            Finish(b, guard, cur, phis, pre, items, t, c) ==
              if !r.Ok? then Stop(r)
              else Finish(b, guard + 1, Join(guard), MergePhis(b, guard, items[0].merge), [], items[1..], t, r.value)
  {
    var start := RunFrom(phis, pre, [], c);
    if start.Ok? && EvalNum(items[0].condition, start.value.env).Ok? {
      var v := EvalNum(items[0].condition, start.value.env).value;
      var arm := if v != 0 then RunBody(items[0].taken, start.value) else Ok(start.value);
      if arm.Ok? {
        MergeRuns(b, guard, items[0].merge, v != 0, arm.value);
      }
    }
  }
}
