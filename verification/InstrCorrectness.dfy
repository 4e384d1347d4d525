/** Whole instructions: the scalar code of every instruction simulates it. */
module InstrCorrectness {
  import opened Wrappers
  import opened Oir
  import opened LaneLowering
  import opened LaneCorrectness

  // ---------------------------------------------------------------- lane-wise operations

  lemma LaneResultIsLocal(i: Instr, id: nat, k: nat, available: set<Name>, map': LaneMap)
    requires LaneWise(i) && KnownInstr(i, available) && Unaffected(available, map', id)
    requires LowerLane(i, id, k, map').Some?
    ensures LocalTo(LowerLane(i, id, k, map').value.result, id, k)
  {
    var w := i.width;
    match i
    case Splat(_, _, scalar) => KnownAvoids(scalar, available, map', id);
    case Select(_, _, c, x, y) =>
      LaneAvoids(x, k, w, available, map', id);
      LaneAvoids(y, k, w, available, map', id);
    case Shuffle(_, _, sw, lhs, rhs, indices) =>
      if indices[k] < sw {
        LaneAvoids(lhs, indices[k], sw, available, map', id);
      } else {
        LaneAvoids(rhs, indices[k] - sw, sw, available, map', id);
      }
    case InsertElement(_, _, vector, element, _) =>
      KnownAvoids(element, available, map', id);
      LaneAvoids(vector, k, w, available, map', id);
    case VPBinary(_, _, _, _, _, _, p) => LaneAvoids(p, k, w, available, map', id);
    case VPCompare(_, _, _, _, _, _, p) => LaneAvoids(p, k, w, available, map', id);
    case MaskedLoad(_, _, _, _, p) => LaneAvoids(p, k, w, available, map', id);
    case Gather(_, _, _, _, _, p) => LaneAvoids(p, k, w, available, map', id);
    case _ =>
  }

  /** The first `n` lanes are done and their operands hold the lanes of the result. */
  ghost predicate LanesDone(operands: seq<Operand>, xs: seq<int>, id: nat, e: Env) {
    && |operands| == |xs|
    && forall k :: 0 <= k < |xs| ==> LocalTo(operands[k], id, k) && EvalNum(operands[k], e) == Ok(xs[k])
  }

  lemma LanesStayDone(operands: seq<Operand>, xs: seq<int>, id: nat, n: nat, e: Env, e': Env)
    requires LanesDone(operands, xs, id, e) && LaneFrame(e, e', id, n) && n >= |xs|
    ensures LanesDone(operands, xs, id, e')
  {
    forall k | 0 <= k < |xs| ensures EvalNum(operands[k], e') == Ok(xs[k]) {
      assert LocalTo(operands[k], id, k);
      EvalSame(operands[k], e, e');
    }
  }

  /** The code computes all lanes, or fails as they do. */
  ghost predicate LanesHold(items: seq<Item>, operands: seq<Operand>, meaning: Exec<seq<int>>, id: nat, s: State) {
    var r := RunItems(items, s);
    match meaning
    case Ok(xs) =>
      r.Ok? && r.value.memory == s.memory && Frame(s.env, r.value.env, id) && LanesDone(operands, xs, id, r.value.env)
    case Fail => r == Fail
    case Undef => true
  }

  /** One more lane after `k` finished ones. */
  lemma LaneStep(items: seq<Item>, operands: seq<Operand>, lane: LaneCode, id: nat, k: nat, s: State, s1: State,
                 xs: seq<int>, meaning: Exec<int>)
    requires RunItems(items, s) == Ok(s1) && s1.memory == s.memory && Frame(s.env, s1.env, id)
    requires |xs| == k && LanesDone(operands, xs, id, s1.env)
    requires Yields(lane, id, k, s1, meaning) && LocalTo(lane.result, id, k)
    ensures LanesHold(items + lane.items, operands + [lane.result], AddLane(Ok(xs), meaning), id, s)
  {
    RunItemsAppend(items, lane.items, s);
    if meaning.Ok? {
      var s2 := RunItems(lane.items, s1).value;
      LaneFrameIsFrame(s1.env, s2.env, id, k);
      FrameCompose(s.env, s1.env, s2.env, id);
      LanesStayDone(operands, xs, id, k, s1.env, s2.env);
    }
  }

  /** The lane after the first `k`; a failure stays a failure. */
  lemma NextLaneRuns(i: Instr, id: nat, k: nat, items: seq<Item>, operands: seq<Operand>, before: Exec<seq<int>>,
                     s: State, ev: Env, available: set<Name>, map': LaneMap)
    requires LaneWise(i) && Unaffected(available, map', id)
    requires Tracks(ev, s.env, available, map') && KnownInstr(i, available)
    requires LowerLane(i, id, k, map').Some? && LanesHold(items, operands, before, id, s)
    requires before.Ok? ==> |before.value| == k
    ensures var lane := LowerLane(i, id, k, map').value;
            LanesHold(items + lane.items, operands + [lane.result],
                      AddLane(before, LaneMeaning(i, k, State(ev, s.memory))), id, s)
  {
    var lane := LowerLane(i, id, k, map').value;
    if before.Ok? {
      var s1 := RunItems(items, s).value;
      TracksFrame(ev, s.env, s1.env, available, map', id);
      LaneRuns(i, id, k, s1, ev, available, map');
      LaneResultIsLocal(i, id, k, available, map');
      LaneStep(items, operands, lane, id, k, s, s1, before.value, LaneMeaning(i, k, State(ev, s.memory)));
    } else {
      RunItemsAppend(items, lane.items, s);
    }
  }

  /** A relation between code and lanes, with the number of lanes. */
  type LaneRelation = (nat, seq<Item>, seq<Operand>, Exec<seq<int>>) -> bool

  /** What holds of no lanes and is kept by every lane holds of all lanes. */
  lemma {:induction false} LanesBuild(i: Instr, id: nat, n: nat, s: State, map': LaneMap, related: LaneRelation)
    requires LaneWise(i) && LowerLanes(i, id, n, map').Some? && related(0, [], [], Ok([]))
    requires forall k: nat, items, operands, xs ::
               related(k, items, operands, xs) && k < n && LowerLane(i, id, k, map').Some? ==>
                 var lane := LowerLane(i, id, k, map').value;
                 related(k + 1, items + lane.items, operands + [lane.result], AddLane(xs, LaneMeaning(i, k, s)))
    ensures var code := LowerLanes(i, id, n, map').value;
            related(n, code.0, code.1, AllLanes(i, n, s))
  {
    if n > 0 {
      LanesBuild(i, id, n - 1, s, map', related);
    }
  }

  lemma LanesRun(i: Instr, id: nat, n: nat, s: State, ev: Env, available: set<Name>, map': LaneMap)
    requires LaneWise(i) && Unaffected(available, map', id)
    requires Tracks(ev, s.env, available, map') && KnownInstr(i, available) && LowerLanes(i, id, n, map').Some?
    ensures var code := LowerLanes(i, id, n, map').value;
            LanesHold(code.0, code.1, AllLanes(i, n, State(ev, s.memory)), id, s)
  {
    var related: LaneRelation := (k: nat, items: seq<Item>, operands: seq<Operand>, xs: Exec<seq<int>>) =>
      (xs.Ok? ==> |xs.value| == k) && LanesHold(items, operands, xs, id, s);
    forall k: nat, items, operands, xs | related(k, items, operands, xs) && k < n && LowerLane(i, id, k, map').Some?
      ensures var lane := LowerLane(i, id, k, map').value;
              related(k + 1, items + lane.items, operands + [lane.result],
                      AddLane(xs, LaneMeaning(i, k, State(ev, s.memory))))
    {
      NextLaneRuns(i, id, k, items, operands, xs, s, ev, available, map');
    }
    assert LanesHold([], [], Ok([]), id, s);
    assert related(0, [], [], Ok([]));
    LanesBuild(i, id, n, State(ev, s.memory), map', related);
  }

  // ---------------------------------------------------------------- stores

  /** The code of one storing lane has the lane's effect and touches only names of that lane. */
  ghost predicate Effects(items: seq<Item>, id: nat, k: nat, s: State, meaning: Exec<seq<int>>) {
    var r := RunItems(items, s);
    match meaning
    case Ok(m) => r.Ok? && r.value.memory == m && LaneFrame(s.env, r.value.env, id, k)
    case Fail => r == Fail
    case Undef => true
  }

  lemma EffectRuns(i: Instr, id: nat, k: nat, s: State, ev: Env, available: set<Name>, map': LaneMap)
    requires Storing(i) && Unaffected(available, map', id)
    requires Tracks(ev, s.env, available, map') && KnownInstr(i, available) && LowerEffect(i, id, k, map').Some?
    ensures Effects(LowerEffect(i, id, k, map').value, id, k, s, LaneEffect(i, k, ev, s.memory))
  {
    var w := i.width;
    var base := if i.MaskedStore? then i.ptr else i.base;
    GuardTracks(i.guard, k, w, ev, s.env, available, map');
    LaneTracks(i.values, k, w, ev, s.env, available, map');
    LaneAvoids(i.values, k, w, available, map', id);
    ScalarTracks(base, ev, s.env, available, map');
    if i.Scatter? {
      LaneTracks(i.indices', k, w, ev, s.env, available, map');
    }
    var c, x, b := GuardOf(i.guard, k, w, map').value, LaneOf(i.values, k, w, map').value, ScalarOf(base, map').value;
    var index := if i.MaskedStore? then Int(k) else LaneOf(i.indices', k, w, map').value;
    StoreAtRuns(id, k, x, b, index, s, EvalNum(x, s.env).value, EvalNum(b, s.env).value, EvalNum(index, s.env).value);
    ConditionalEffectRuns(c, StoreAt(id, k, x, b, index), s, EvalNum(c, s.env).value);
  }

  lemma EffectStep(rest: seq<Item>, lane: seq<Item>, id: nat, k: nat, s: State, s1: State, meaning: Exec<seq<int>>)
    requires RunItems(rest, s) == Ok(s1) && Frame(s.env, s1.env, id) && Effects(lane, id, k, s1, meaning)
    ensures var r := RunItems(rest + lane, s);
            match meaning
            case Ok(m) => r.Ok? && r.value.memory == m && Frame(s.env, r.value.env, id)
            case Fail => r == Fail
            case Undef => true
  {
    RunItemsAppend(rest, lane, s);
    if meaning.Ok? {
      var s2 := RunItems(lane, s1).value;
      LaneFrameIsFrame(s1.env, s2.env, id, k);
      FrameCompose(s.env, s1.env, s2.env, id);
    }
  }

  lemma {:induction false} EffectsRun(i: Instr, id: nat, n: nat, s: State, ev: Env, available: set<Name>, map': LaneMap)
    requires Storing(i) && Unaffected(available, map', id)
    requires Tracks(ev, s.env, available, map') && KnownInstr(i, available) && LowerEffects(i, id, n, map').Some?
    ensures var r := RunItems(LowerEffects(i, id, n, map').value, s);
            match AllEffects(i, n, State(ev, s.memory))
            case Ok(m) => r.Ok? && r.value.memory == m && Frame(s.env, r.value.env, id)
            case Fail => r == Fail
            case Undef => true
  {
    if n > 0 {
      EffectsRun(i, id, n - 1, s, ev, available, map');
      var rest := LowerEffects(i, id, n - 1, map').value;
      var lane := LowerEffect(i, id, n - 1, map').value;
      var before := AllEffects(i, n - 1, State(ev, s.memory));
      if before.Ok? {
        var s1 := RunItems(rest, s).value;
        TracksFrame(ev, s.env, s1.env, available, map', id);
        EffectRuns(i, id, n - 1, s1, ev, available, map');
        EffectStep(rest, lane, id, n - 1, s, s1, LaneEffect(i, n - 1, ev, before.value));
      } else {
        RunItemsAppend(rest, lane, s);
      }
    }
  }

  // ---------------------------------------------------------------- reductions

  /** An operand of the accumulator chain: older than lane `n`. */
  predicate Older(o: Operand, id: nat, n: nat) {
    o.Use? ==> o.name.id != id || (!o.name.Source? && o.name.lane < n)
  }

  /** Code that holds `x` afterwards and touches only lane `k`. */
  ghost predicate LaneHolds(code: LaneCode, id: nat, k: nat, s: State, x: int) {
    var r := RunItems(code.items, s);
    r.Ok? && r.value.memory == s.memory && LaneFrame(s.env, r.value.env, id, k)
    && EvalNum(code.result, r.value.env) == Ok(x)
  }

  /** Minimum and maximum are a comparison and a choice. */
  lemma OrderedRuns(kind: Kind, id: nat, k: nat, acc: Operand, x: Operand, s: State, a: int, v: int)
    requires kind.MinAll? || kind.MaxAll?
    requires EvalNum(acc, s.env) == Ok(a) && EvalNum(x, s.env) == Ok(v)
    requires Older(acc, id, k) && Avoids(x, id)
    ensures LaneHolds(CombineCode(kind, id, k, acc, x), id, k, s, CombineLane(kind, a, v))
    ensures LocalTo(CombineCode(kind, id, k, acc, x).result, id, k)
  {
    var t := Temp(id, k, Compared);
    var compare := Compare(t, if kind.MinAll? then LT else GT, x, acc);
    var picked := ConditionalValue(Use(t), [], x, acc, Temp(id, k, Picked));
    RunItemsAppend([Plain(compare)], picked.items, s);
    RunOne(Plain(compare), s);
    var s' := RunInstr(compare, s).value;
    EvalSame(x, s.env, s'.env);
    EvalSame(acc, s.env, s'.env);
    ConditionalRuns(Use(t), [], x, acc, Temp(id, k, Picked), s', EvalNum(Use(t), s'.env).value);
  }

  lemma CombineRuns(kind: Kind, id: nat, k: nat, acc: Operand, x: Operand, s: State, a: int, v: int)
    requires EvalNum(acc, s.env) == Ok(a) && EvalNum(x, s.env) == Ok(v)
    requires Older(acc, id, k) && Avoids(x, id)
    ensures LaneHolds(CombineCode(kind, id, k, acc, x), id, k, s, CombineLane(kind, a, v))
    ensures LocalTo(CombineCode(kind, id, k, acc, x).result, id, k)
  {
    if kind.MinAll? || kind.MaxAll? {
      OrderedRuns(kind, id, k, acc, x, s, a, v);
    } else {
      RunOne(CombineCode(kind, id, k, acc, x).items[0], s);
    }
  }

  /** The code leaves the accumulator of the first `k` lanes in its result. */
  ghost predicate Reduced(code: LaneCode, acc: Exec<int>, id: nat, k: nat, s: State) {
    var r := RunItems(code.items, s);
    && acc.Ok? && r.Ok? && r.value.memory == s.memory && Frame(s.env, r.value.env, id)
    && EvalNum(code.result, r.value.env) == acc && Older(code.result, id, k)
  }

  lemma NextReduced(i: Instr, id: nat, k: nat, rest: LaneCode, acc: Exec<int>, s: State, ev: Env, available: set<Name>,
                    map': LaneMap)
    requires i.Reduce? && Unaffected(available, map', id) && Tracks(ev, s.env, available, map')
    requires KnownInstr(i, available) && Reduced(rest, acc, id, k, s)
    requires LaneOf(i.vector, k, i.width, map').Some? && GuardOf(i.guard, k, i.width, map').Some?
    ensures var x, c := LaneOf(i.vector, k, i.width, map').value, GuardOf(i.guard, k, i.width, map').value;
            Reduced(ReductionStepCode(i.kind, id, k, rest, x, c), ReduceLane(i, k, acc, ev), id, k + 1, s)
  {
    var s1 := RunItems(rest.items, s).value;
    TracksFrame(ev, s.env, s1.env, available, map', id);
    ReductionStep(i, id, k, rest, s, s1, ev, available, map');
  }

  /** A relation between code and accumulator, with the number of lanes. */
  type ReductionRelation = (nat, LaneCode, Exec<int>) -> bool

  /** What holds of the seed and is kept by every lane holds of the whole reduction. */
  lemma {:induction false} ReductionBuilds(i: Instr, id: nat, n: nat, s: State, map': LaneMap,
                                           related: ReductionRelation)
    requires i.Reduce? && LowerReduction(i, id, n, map').Some?
    requires ScalarOf(i.seed, map').Some? ==>
               related(0, LaneCode([], ScalarOf(i.seed, map').value), EvalNum(i.seed, s.env))
    requires forall k: nat, rest, acc ::
               related(k, rest, acc) && k < n
               && LaneOf(i.vector, k, i.width, map').Some? && GuardOf(i.guard, k, i.width, map').Some? ==>
                 var x, c := LaneOf(i.vector, k, i.width, map').value, GuardOf(i.guard, k, i.width, map').value;
                 related(k + 1, ReductionStepCode(i.kind, id, k, rest, x, c), ReduceLane(i, k, acc, s.env))
    ensures related(n, LowerReduction(i, id, n, map').value, ReduceLanes(i, n, s))
  {
    if n > 0 {
      ReductionBuilds(i, id, n - 1, s, map', related);
    }
  }

  lemma ReductionRuns(i: Instr, id: nat, n: nat, s: State, ev: Env, available: set<Name>, map': LaneMap)
    requires i.Reduce? && Unaffected(available, map', id)
    requires Tracks(ev, s.env, available, map') && KnownInstr(i, available) && LowerReduction(i, id, n, map').Some?
    ensures Reduced(LowerReduction(i, id, n, map').value, ReduceLanes(i, n, State(ev, s.memory)), id, n, s)
  {
    var related: ReductionRelation := (k: nat, code: LaneCode, acc: Exec<int>) => Reduced(code, acc, id, k, s);
    if ScalarOf(i.seed, map').Some? {
      ScalarTracks(i.seed, ev, s.env, available, map');
      KnownAvoids(i.seed, available, map', id);
      assert related(0, LaneCode([], ScalarOf(i.seed, map').value), EvalNum(i.seed, ev));
    }
    forall k: nat, rest, acc | related(k, rest, acc) && k < n
      && LaneOf(i.vector, k, i.width, map').Some? && GuardOf(i.guard, k, i.width, map').Some?
      ensures var x, c := LaneOf(i.vector, k, i.width, map').value, GuardOf(i.guard, k, i.width, map').value;
              related(k + 1, ReductionStepCode(i.kind, id, k, rest, x, c), ReduceLane(i, k, acc, ev))
    {
      NextReduced(i, id, k, rest, acc, s, ev, available, map');
    }
    ReductionBuilds(i, id, n, State(ev, s.memory), map', related);
  }

  lemma ExceptIsFrame(e: Env, e': Env, dst: Name)
    requires SameExcept(e, e', dst)
    ensures Frame(e, e', dst.id)
  {
    forall n: Name | n.id != dst.id ensures SameAt(e, e', n) {
      assert n != dst;
    }
  }

  lemma ReductionStep(i: Instr, id: nat, k: nat, rest: LaneCode, s: State, s1: State, ev: Env, available: set<Name>,
                      map': LaneMap)
    requires i.Reduce? && Unaffected(available, map', id)
    requires Tracks(ev, s1.env, available, map') && KnownInstr(i, available)
    requires LaneOf(i.vector, k, i.width, map').Some? && GuardOf(i.guard, k, i.width, map').Some?
    requires RunItems(rest.items, s) == Ok(s1) && s1.memory == s.memory && Frame(s.env, s1.env, id)
    requires EvalNum(rest.result, s1.env).Ok? && Older(rest.result, id, k)
    ensures var x, c := LaneOf(i.vector, k, i.width, map').value, GuardOf(i.guard, k, i.width, map').value;
            var combined := CombineCode(i.kind, id, k, rest.result, x);
            var chosen := ConditionalValue(c, [], combined.result, rest.result, Lane(id, k));
            var r := RunItems(rest.items + combined.items + chosen.items, s);
            var acc := EvalNum(rest.result, s1.env).value;
            var v, active := LaneAt(i.vector, k, i.width, ev), ActiveAt(i.guard, k, i.width, ev);
            && v.Ok? && active.Ok? && r.Ok? && r.value.memory == s.memory && Frame(s.env, r.value.env, id)
            && EvalNum(chosen.result, r.value.env) ==
                 Ok(if active.value then CombineLane(i.kind, acc, v.value) else acc)
            && Older(chosen.result, id, k + 1)
  {
    var w := i.width;
    LaneTracks(i.vector, k, w, ev, s1.env, available, map');
    LaneAvoids(i.vector, k, w, available, map', id);
    GuardTracks(i.guard, k, w, ev, s1.env, available, map');
    LaneAvoids(i.guard.mask, k, w, available, map', id);
    var x, c := LaneOf(i.vector, k, w, map').value, GuardOf(i.guard, k, w, map').value;
    var acc := EvalNum(rest.result, s1.env).value;
    CombineRuns(i.kind, id, k, rest.result, x, s1, acc, EvalNum(x, s1.env).value);
    var combined := CombineCode(i.kind, id, k, rest.result, x);
    var chosen := ConditionalValue(c, [], combined.result, rest.result, Lane(id, k));
    var s2 := RunItems(combined.items, s1).value;
    EvalSame(c, s1.env, s2.env);
    EvalSame(rest.result, s1.env, s2.env);
    ConditionalRuns(c, [], combined.result, rest.result, Lane(id, k), s2, EvalNum(c, s2.env).value);
    RunItemsAppend(rest.items, combined.items, s);
    RunItemsAppend(rest.items + combined.items, chosen.items, s);
    var s3 := RunItems(chosen.items, s2).value;
    LaneFrameIsFrame(s1.env, s2.env, id, k);
    FrameCompose(s.env, s1.env, s2.env, id);
    ExceptIsFrame(s2.env, s3.env, Lane(id, k));
    FrameCompose(s.env, s2.env, s3.env, id);
  }

  // ---------------------------------------------------------------- extraction

  lemma {:induction false} DynamicExtractRuns(id: nat, n: nat, lanes: seq<Operand>, index: Operand, s: State, j: int)
    requires 1 <= n <= |lanes| && EvalNum(index, s.env) == Ok(j) && Avoids(index, id)
    requires forall k :: 0 <= k < |lanes| ==> EvalNum(lanes[k], s.env).Ok? && Avoids(lanes[k], id)
    ensures var code := LowerDynamicExtract(id, n, lanes, index);
            var r := RunItems(code.items, s);
            && r.Ok? && r.value.memory == s.memory && Frame(s.env, r.value.env, id)
            && EvalNum(code.result, r.value.env) == EvalNum(lanes[if 0 <= j < n then j else 0], s.env)
            && Older(code.result, id, n)
  {
    if n > 1 {
      DynamicExtractRuns(id, n - 1, lanes, index, s, j);
      var rest := LowerDynamicExtract(id, n - 1, lanes, index);
      var s1 := RunItems(rest.items, s).value;
      EvalSame(index, s.env, s1.env);
      EvalSame(lanes[n - 1], s.env, s1.env);
      PickRuns(index, n - 1, lanes[n - 1], rest.result, id, s1, j);
      var chosen := ConditionalValue(Use(Temp(id, n - 1, Index)), [], lanes[n - 1], rest.result, Lane(id, n - 1));
      var compare := Plain(Compare(Temp(id, n - 1, Index), EQ, index, Int(n - 1)));
      RunItemsAppend(rest.items, [compare] + chosen.items, s);
      assert rest.items + [compare] + chosen.items == rest.items + ([compare] + chosen.items);
      var s2 := RunItems([compare] + chosen.items, s1).value;
      LaneFrameIsFrame(s1.env, s2.env, id, n - 1);
      FrameCompose(s.env, s1.env, s2.env, id);
    }
  }

  lemma ExtractRuns(i: Instr, id: nat, s: State, ev: Env, available: set<Name>, map': LaneMap)
    requires i.ExtractElement? && Unaffected(available, map', id)
    requires Tracks(ev, s.env, available, map') && KnownInstr(i, available) && LowerExtract(i, id, map').Some?
    ensures var code := LowerExtract(i, id, map').value;
            var r := RunItems(code.items, s);
            var m := ExtractLane(i, State(ev, s.memory));
            && m != Fail
            && (m.Ok? ==> r.Ok? && r.value.memory == s.memory && Frame(s.env, r.value.env, id)
                          && EvalNum(code.result, r.value.env) == m)
  {
    var lanes, j := LanesOf(i.vector, map').value, ScalarOf(i.index, map').value;
    ScalarTracks(i.index, ev, s.env, available, map');
    KnownAvoids(i.index, available, map', id);
    forall k | 0 <= k < |lanes|
      ensures EvalNum(lanes[k], s.env).Ok? && Avoids(lanes[k], id)
      ensures EvalNum(lanes[k], s.env) == LaneAt(i.vector, k, |lanes|, ev)
    {
      LaneTracks(i.vector, k, |lanes|, ev, s.env, available, map');
      LaneAvoids(i.vector, k, |lanes|, available, map', id);
    }
    assert LaneOf(i.vector, 0, |lanes|, map').Some?;
    LaneTracks(i.vector, 0, |lanes|, ev, s.env, available, map');
    if !j.Int? {
      DynamicExtractRuns(id, i.width, lanes, j, s, EvalNum(j, s.env).value);
    }
  }

  // ---------------------------------------------------------------- instructions

  /** The operands of a rewritten scalar instruction evaluate as before. */
  lemma RewriteRuns(i: Instr, s: State, ev: Env, available: set<Name>, map': LaneMap)
    requires ScalarInstr(i) && Tracks(ev, s.env, available, map') && KnownInstr(i, available) && Rewrite(i, map').Some?
    ensures var m := RunInstr(i, State(ev, s.memory));
            var r := RunInstr(Rewrite(i, map').value, s);
            && (m.Ok? <==> r.Ok?) && (!m.Ok? ==> m == r)
            && (m.Ok? ==> m.value.memory == r.value.memory)
            && (m.Ok? && i.Store? ==> m.value.env == ev && r.value.env == s.env)
            && (m.Ok? && !i.Store? ==>
                  exists x :: m.value.env == ev[i.dst := Num(x)] && r.value.env == s.env[i.dst := Num(x)])
  {
    match i
    case Binary(_, _, x, y) =>
      ScalarTracks(x, ev, s.env, available, map');
      ScalarTracks(y, ev, s.env, available, map');
    case Compare(_, _, x, y) =>
      ScalarTracks(x, ev, s.env, available, map');
      ScalarTracks(y, ev, s.env, available, map');
    case ZExt(_, x) => ScalarTracks(x, ev, s.env, available, map');
    case Gep(_, x, y) =>
      ScalarTracks(x, ev, s.env, available, map');
      ScalarTracks(y, ev, s.env, available, map');
    case Load(_, x) => ScalarTracks(x, ev, s.env, available, map');
    case Store(_, x, y) =>
      ScalarTracks(x, ev, s.env, available, map');
      ScalarTracks(y, ev, s.env, available, map');
  }

  /** The values an instruction defines. */
  function Defines(i: Instr): set<Name> {
    if i.Store? || Storing(i) then {} else {i.dst}
  }

  /** A new value joins the relation. */
  lemma TracksDefine(ev: Env, es: Env, es': Env, available: set<Name>, map': LaneMap, dst: Name, v: Value)
    requires Tracks(ev, es, available, map') && Unaffected(available, map', dst.id) && Frame(es, es', dst.id)
    requires dst in map' && Agrees(map'[dst], v, es')
    ensures Tracks(ev[dst := v], es', available + {dst}, map')
  {
    TracksFrame(ev, es, es', available, map', dst.id);
  }

  /** The lane map records for `i.dst` what the lowering of `i` produces. */
  predicate Recorded(i: Instr, map': LaneMap) {
    && i.dst.Source?
    && LowerInstr(i, map').Some?
    && var l := LowerInstr(i, map').value.lowered;
       l.Some? ==> i.dst in map' && map'[i.dst] == l.value
  }

  /** The scalar code of an instruction simulates it: same memory, same failure, and every
      available value, the new one included, stays held by its operands. */
  ghost predicate Simulated(i: Instr, s: State, ev: Env, available: set<Name>, map': LaneMap)
    requires Recorded(i, map')
  {
    var r := RunItems(LowerInstr(i, map').value.items, s);
    match RunInstr(i, State(ev, s.memory))
    case Ok(sv) =>
      r.Ok? && r.value.memory == sv.memory && Tracks(sv.env, r.value.env, available + Defines(i), map')
    case Fail => r == Fail
    case Undef => true
  }

  lemma ScalarRuns(i: Instr, s: State, ev: Env, available: set<Name>, map': LaneMap)
    requires ScalarInstr(i) && Recorded(i, map') && Unaffected(available, map', i.dst.id)
    requires Tracks(ev, s.env, available, map') && KnownInstr(i, available)
    ensures Simulated(i, s, ev, available, map')
  {
    RewriteRuns(i, s, ev, available, map');
    var code := LowerInstr(i, map').value;
    RunOne(code.items[0], s);
    var m := RunInstr(i, State(ev, s.memory));
    if m.Ok? && !i.Store? {
      var r := RunItems(code.items, s).value;
      var x :| m.value.env == ev[i.dst := Num(x)] && r.env == s.env[i.dst := Num(x)];
      TracksDefine(ev, s.env, r.env, available, map', i.dst, Num(x));
    }
  }

  lemma LaneWiseRuns(i: Instr, s: State, ev: Env, available: set<Name>, map': LaneMap)
    requires LaneWise(i) && Recorded(i, map') && Unaffected(available, map', i.dst.id)
    requires Tracks(ev, s.env, available, map') && KnownInstr(i, available)
    ensures Simulated(i, s, ev, available, map')
  {
    LanesRun(i, i.dst.id, i.width, s, ev, available, map');
    var m := AllLanes(i, i.width, State(ev, s.memory));
    if m.Ok? {
      var code := LowerInstr(i, map').value;
      TracksDefine(ev, s.env, RunItems(code.items, s).value.env, available, map', i.dst, Vec(m.value));
    }
  }

  lemma StoringRuns(i: Instr, s: State, ev: Env, available: set<Name>, map': LaneMap)
    requires Storing(i) && Recorded(i, map') && Unaffected(available, map', i.dst.id)
    requires Tracks(ev, s.env, available, map') && KnownInstr(i, available)
    ensures Simulated(i, s, ev, available, map')
  {
    EffectsRun(i, i.dst.id, i.width, s, ev, available, map');
    if RunInstr(i, State(ev, s.memory)).Ok? {
      TracksFrame(ev, s.env, RunItems(LowerInstr(i, map').value.items, s).value.env, available, map', i.dst.id);
    }
  }

  lemma ReduceRuns(i: Instr, s: State, ev: Env, available: set<Name>, map': LaneMap)
    requires i.Reduce? && Recorded(i, map') && Unaffected(available, map', i.dst.id)
    requires Tracks(ev, s.env, available, map') && KnownInstr(i, available)
    ensures Simulated(i, s, ev, available, map')
  {
    ReductionRuns(i, i.dst.id, i.width, s, ev, available, map');
    var code := LowerInstr(i, map').value;
    var x := ReduceLanes(i, i.width, State(ev, s.memory)).value;
    TracksDefine(ev, s.env, RunItems(code.items, s).value.env, available, map', i.dst, Num(x));
  }

  lemma ExtractElementRuns(i: Instr, s: State, ev: Env, available: set<Name>, map': LaneMap)
    requires i.ExtractElement? && Recorded(i, map') && Unaffected(available, map', i.dst.id)
    requires Tracks(ev, s.env, available, map') && KnownInstr(i, available)
    ensures Simulated(i, s, ev, available, map')
  {
    ExtractRuns(i, i.dst.id, s, ev, available, map');
    var m := ExtractLane(i, State(ev, s.memory));
    if m.Ok? {
      var code := LowerInstr(i, map').value;
      TracksDefine(ev, s.env, RunItems(code.items, s).value.env, available, map', i.dst, Num(m.value));
    }
  }

  lemma InstrRuns(i: Instr, s: State, ev: Env, available: set<Name>, map': LaneMap)
    requires Recorded(i, map') && Unaffected(available, map', i.dst.id)
    requires Tracks(ev, s.env, available, map') && KnownInstr(i, available)
    ensures Simulated(i, s, ev, available, map')
  {
    if ScalarInstr(i) {
      ScalarRuns(i, s, ev, available, map');
    } else if LaneWise(i) {
      LaneWiseRuns(i, s, ev, available, map');
    } else if Storing(i) {
      StoringRuns(i, s, ev, available, map');
    } else if i.Reduce? {
      ReduceRuns(i, s, ev, available, map');
    } else {
      ExtractElementRuns(i, s, ev, available, map');
    }
  }
}
