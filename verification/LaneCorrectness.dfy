/** Lane-by-lane code means what the vector instruction means.  `Tracks` relates the environment of
    the vector function to that of the scalar function through the lane map. */
module LaneCorrectness {
  import opened Wrappers
  import opened Oir
  import opened LaneLowering

  // ---------------------------------------------------------------- environments

  /** Scalar values made for lane `k` of the instruction `id`. */
  predicate LaneName(n: Name, id: nat, k: nat) {
    !n.Source? && n.id == id && n.lane == k
  }

  predicate SameAt(e: Env, e': Env, n: Name) {
    (n in e <==> n in e') && (n in e ==> e[n] == e'[n])
  }

  /** `e'` differs from `e` only in the values of lane `k` of `id`. */
  ghost predicate LaneFrame(e: Env, e': Env, id: nat, k: nat) {
    forall n: Name :: !LaneName(n, id, k) ==> SameAt(e, e', n)
  }

  /** `e'` differs from `e` only in values of the instruction `id`. */
  ghost predicate Frame(e: Env, e': Env, id: nat) {
    forall n: Name :: n.id != id ==> SameAt(e, e', n)
  }

  lemma FrameCompose(e: Env, e1: Env, e2: Env, id: nat)
    requires Frame(e, e1, id) && Frame(e1, e2, id)
    ensures Frame(e, e2, id)
  {
    forall n: Name | n.id != id ensures SameAt(e, e2, n) {
      assert SameAt(e, e1, n) && SameAt(e1, e2, n);
    }
  }

  lemma LaneFrameIsFrame(e: Env, e': Env, id: nat, k: nat)
    requires LaneFrame(e, e', id, k)
    ensures Frame(e, e', id)
  {
    forall n: Name | n.id != id ensures SameAt(e, e', n) {
      assert !LaneName(n, id, k);
    }
  }

  predicate Avoids(o: Operand, id: nat) {
    o.Use? ==> o.name.id != id
  }

  predicate AvoidsAll(l: Lowered, id: nat) {
    match l
    case One(o) => Avoids(o, id)
    case Many(os) => forall k :: 0 <= k < |os| ==> Avoids(os[k], id)
  }

  /** An operand that no lane of `id` other than `k` defines. */
  predicate LocalTo(o: Operand, id: nat, k: nat) {
    o.Use? ==> o.name.id != id || LaneName(o.name, id, k)
  }

  predicate Agrees(l: Lowered, v: Value, e: Env) {
    match l
    case One(o) => v.Num? && EvalNum(o, e) == Ok(v.n)
    case Many(os) =>
      v.Vec? && |os| == |v.lanes| && forall k :: 0 <= k < |os| ==> EvalNum(os[k], e) == Ok(v.lanes[k])
  }

  /** Every available value of the vector run is held by its lane operands in the scalar run. */
  ghost predicate Tracks(ev: Env, es: Env, available: set<Name>, map': LaneMap) {
    forall v: Name :: v in available ==> v in ev && v in map' && Agrees(map'[v], ev[v], es)
  }

  /** No available value is held by an operand that defining `id` would overwrite. */
  ghost predicate Unaffected(available: set<Name>, map': LaneMap, id: nat) {
    forall v: Name :: v in available && v in map' ==> AvoidsAll(map'[v], id)
  }

  predicate Known(o: Operand, available: set<Name>) {
    o.Use? ==> o.name in available
  }

  predicate KnownGuard(g: Guard, available: set<Name>) {
    Known(g.mask, available) && Known(g.evl, available)
  }

  /** All operands of the instruction are available. */
  predicate KnownInstr(i: Instr, a: set<Name>) {
    match i
    case Binary(_, _, x, y) => Known(x, a) && Known(y, a)
    case Compare(_, _, x, y) => Known(x, a) && Known(y, a)
    case ZExt(_, x) => Known(x, a)
    case Gep(_, x, y) => Known(x, a) && Known(y, a)
    case Load(_, x) => Known(x, a)
    case Store(_, x, y) => Known(x, a) && Known(y, a)
    case Splat(_, _, x) => Known(x, a)
    case StepVector(_, _) => true
    case VectorBinary(_, _, _, x, y) => Known(x, a) && Known(y, a)
    case VectorCompare(_, _, _, x, y) => Known(x, a) && Known(y, a)
    case VectorCast(_, _, x) => Known(x, a)
    case Select(_, _, x, y, z) => Known(x, a) && Known(y, a) && Known(z, a)
    case Shuffle(_, _, _, x, y, _) => Known(x, a) && Known(y, a)
    case InsertElement(_, _, x, y, z) => Known(x, a) && Known(y, a) && Known(z, a)
    case VPBinary(_, _, _, x, y, g, p) => Known(x, a) && Known(y, a) && KnownGuard(g, a) && Known(p, a)
    case VPCompare(_, _, _, x, y, g, p) => Known(x, a) && Known(y, a) && KnownGuard(g, a) && Known(p, a)
    case MaskedLoad(_, _, x, g, p) => Known(x, a) && KnownGuard(g, a) && Known(p, a)
    case Gather(_, _, x, y, g, p) => Known(x, a) && Known(y, a) && KnownGuard(g, a) && Known(p, a)
    case MaskedStore(_, _, x, y, g) => Known(x, a) && Known(y, a) && KnownGuard(g, a)
    case Scatter(_, _, x, y, z, g) => Known(x, a) && Known(y, a) && Known(z, a) && KnownGuard(g, a)
    case ExtractElement(_, _, x, y) => Known(x, a) && Known(y, a)
    case Reduce(_, _, _, x, g, y) => Known(x, a) && KnownGuard(g, a) && Known(y, a)
  }

  lemma EvalSame(o: Operand, e: Env, e': Env)
    requires o.Use? ==> SameAt(e, e', o.name)
    ensures Eval(o, e) == Eval(o, e') && EvalNum(o, e) == EvalNum(o, e')
  {
  }

  lemma TracksFrame(ev: Env, es: Env, es': Env, available: set<Name>, map': LaneMap, id: nat)
    requires Tracks(ev, es, available, map') && Unaffected(available, map', id) && Frame(es, es', id)
    ensures Tracks(ev, es', available, map')
  {
    forall v: Name | v in available ensures v in ev && v in map' && Agrees(map'[v], ev[v], es') {
      assert Agrees(map'[v], ev[v], es) && AvoidsAll(map'[v], id);
      match map'[v]
      case One(o) => EvalSame(o, es, es');
      case Many(os) =>
        forall k | 0 <= k < |os| ensures EvalNum(os[k], es') == EvalNum(os[k], es) {
          EvalSame(os[k], es, es');
        }
    }
  }

  lemma ScalarTracks(o: Operand, ev: Env, es: Env, available: set<Name>, map': LaneMap)
    requires Tracks(ev, es, available, map') && Known(o, available) && ScalarOf(o, map').Some?
    ensures EvalNum(o, ev).Ok? && EvalNum(o, ev) == EvalNum(ScalarOf(o, map').value, es)
  {
  }

  lemma LaneTracks(o: Operand, k: nat, width: nat, ev: Env, es: Env, available: set<Name>, map': LaneMap)
    requires Tracks(ev, es, available, map') && Known(o, available) && LaneOf(o, k, width, map').Some?
    ensures LaneAt(o, k, width, ev).Ok? && LaneAt(o, k, width, ev) == EvalNum(LaneOf(o, k, width, map').value, es)
  {
    if o.Use? {
      assert Agrees(map'[o.name], ev[o.name], es);
    }
  }

  lemma GuardTracks(g: Guard, k: nat, width: nat, ev: Env, es: Env, available: set<Name>, map': LaneMap)
    requires Tracks(ev, es, available, map') && KnownGuard(g, available) && GuardOf(g, k, width, map').Some?
    ensures var c := EvalNum(GuardOf(g, k, width, map').value, es);
            c.Ok? && ActiveAt(g, k, width, ev) == Ok(c.value != 0)
  {
    LaneTracks(g.mask, k, width, ev, es, available, map');
    ScalarTracks(g.evl, ev, es, available, map');
  }

  // ---------------------------------------------------------------- guarded lanes

  lemma {:induction false} RunPlains(body: seq<Instr>, s: State)
    ensures RunItems(Plains(body), s) == RunBody(body, s)
    decreases |body|
  {
    if body != [] {
      assert Plains(body)[1..] == Plains(body[1..]);
      var s' := RunInstr(body[0], s);
      if s'.Ok? {
        RunPlains(body[1..], s'.value);
      }
    }
  }

  ghost predicate SameExcept(e: Env, e': Env, dst: Name) {
    forall n: Name :: n != dst ==> SameAt(e, e', n)
  }

  lemma RunOne(item: Item, s: State)
    ensures RunItems([item], s) == RunItem(item, s)
  {
    var r := RunItem(item, s);
    assert [item][1..] == [];
  }

  /** A guarded value executes one arm and holds that arm's value. */
  lemma ConditionalRuns(c: Operand, taken: seq<Instr>, onTrue: Operand, onFalse: Operand, dst: Name, s: State, b: int)
    requires EvalNum(c, s.env) == Ok(b)
    requires b == 0 ==> EvalNum(onFalse, s.env).Ok?
    requires b != 0 && RunBody(taken, s).Ok? ==> EvalNum(onTrue, RunBody(taken, s).value.env).Ok?
    ensures var code := ConditionalValue(c, taken, onTrue, onFalse, dst);
            var r := RunItems(code.items, s);
            var arm := if b != 0 then RunBody(taken, s) else Ok(s);
            if !arm.Ok? then r == arm
            else
              && r.Ok? && r.value.memory == arm.value.memory
              && EvalNum(code.result, r.value.env) == EvalNum(if b != 0 then onTrue else onFalse, arm.value.env)
              && SameExcept(arm.value.env, r.value.env, dst)
  {
    if c.Int? {
      if b != 0 {
        RunPlains(taken, s);
      }
    } else {
      RunOne(Diamond(c, taken, Some(Merge(dst, onTrue, onFalse))), s);
    }
  }

  lemma ConditionalEffectRuns(c: Operand, taken: seq<Instr>, s: State, b: int)
    requires EvalNum(c, s.env) == Ok(b)
    ensures RunItems(ConditionalEffect(c, taken), s) == if b != 0 then RunBody(taken, s) else Ok(s)
  {
    if c.Int? {
      if b != 0 {
        RunPlains(taken, s);
      }
    } else {
      RunOne(Diamond(c, taken, None), s);
    }
  }

  lemma RunBodyOne(i: Instr, s: State)
    ensures RunBody([i], s) == RunInstr(i, s)
  {
    var r := RunInstr(i, s);
    assert [i][1..] == [];
  }

  lemma RunBodyTwo(i: Instr, j: Instr, s: State)
    ensures var r := RunInstr(i, s);
            RunBody([i, j], s) == if r.Ok? then RunInstr(j, r.value) else r
  {
    var r := RunInstr(i, s);
    assert [i, j][1..] == [j];
    if r.Ok? {
      RunBodyOne(j, r.value);
    }
  }

  /** The address is computed and the memory read only inside the guard. */
  lemma LoadAtRuns(id: nat, k: nat, base: Operand, index: Operand, s: State, p: int, j: int)
    requires EvalNum(base, s.env) == Ok(p) && EvalNum(index, s.env) == Ok(j)
    ensures var r := RunBody(LoadAt(id, k, base, index), s);
            var x := ReadMemory(s.memory, p + j);
            if x.Ok? then
              r.Ok? && r.value.memory == s.memory && LaneFrame(s.env, r.value.env, id, k)
              && EvalNum(Use(Temp(id, k, Access)), r.value.env) == x
            else r == Fail
  {
    RunBodyTwo(Gep(Temp(id, k, Address), base, index), Load(Temp(id, k, Access), Use(Temp(id, k, Address))), s);
  }

  lemma StoreAtRuns(id: nat, k: nat, element: Operand, base: Operand, index: Operand, s: State, x: int, p: int, j: int)
    requires EvalNum(base, s.env) == Ok(p) && EvalNum(index, s.env) == Ok(j) && EvalNum(element, s.env) == Ok(x)
    requires LocalTo(element, id, k) && element != Use(Temp(id, k, Address))
    ensures var r := RunBody(StoreAt(id, k, element, base, index), s);
            var m := WriteMemory(s.memory, p + j, x);
            if m.Ok? then r.Ok? && r.value.memory == m.value && LaneFrame(s.env, r.value.env, id, k)
            else r == Fail
  {
    RunBodyTwo(Gep(Temp(id, k, Address), base, index),
               Store(Temp(id, k, Access), element, Use(Temp(id, k, Address))), s);
  }

  // ---------------------------------------------------------------- one lane

  /** The code of one lane, run from `s`, yields `meaning` and touches only names of that lane. */
  ghost predicate Yields(code: LaneCode, id: nat, k: nat, s: State, meaning: Exec<int>) {
    var r := RunItems(code.items, s);
    match meaning
    case Ok(x) =>
      r.Ok? && r.value.memory == s.memory && LaneFrame(s.env, r.value.env, id, k)
      && EvalNum(code.result, r.value.env) == Ok(x)
    case Fail => r == Fail
    case Undef => true
  }

  /** One plain scalar instruction into the lane's own name. */
  lemma PlainYields(i: Instr, id: nat, k: nat, s: State, meaning: Exec<int>)
    requires i.dst == Lane(id, k)
    requires RunInstr(i, s) ==
               if meaning.Ok? then Ok(Define(s, i.dst, Num(meaning.value))) else meaning.PropagateFailure()
    ensures Yields(LaneCode([Plain(i)], Use(i.dst)), id, k, s, meaning)
  {
    RunOne(Plain(i), s);
  }

  lemma ConditionalYields(c: Operand, taken: seq<Instr>, onTrue: Operand, onFalse: Operand, id: nat, k: nat, s: State,
                          b: int, meaning: Exec<int>)
    requires EvalNum(c, s.env) == Ok(b)
    requires b == 0 ==> meaning.Ok? && EvalNum(onFalse, s.env) == meaning
    requires b != 0 ==>
               var r := RunBody(taken, s);
               if meaning.Ok? then
                 r.Ok? && r.value.memory == s.memory && LaneFrame(s.env, r.value.env, id, k)
                 && EvalNum(onTrue, r.value.env) == meaning
               else r == meaning.PropagateFailure()
    ensures Yields(ConditionalValue(c, taken, onTrue, onFalse, Lane(id, k)), id, k, s, meaning)
  {
    ConditionalRuns(c, taken, onTrue, onFalse, Lane(id, k), s, b);
  }

  lemma ElementwiseLane(i: Instr, id: nat, k: nat, s: State, ev: Env, available: set<Name>, map': LaneMap)
    requires i.VectorBinary? || i.VectorCompare? || i.VectorCast? || i.Splat? || i.StepVector? || i.Shuffle?
             || i.Select?
    requires Tracks(ev, s.env, available, map') && KnownInstr(i, available) && LowerLane(i, id, k, map').Some?
    ensures Yields(LowerLane(i, id, k, map').value, id, k, s, LaneMeaning(i, k, State(ev, s.memory)))
  {
    var m := LaneMeaning(i, k, State(ev, s.memory));
    match i
    case VectorBinary(_, w, op, lhs, rhs) =>
      LaneTracks(lhs, k, w, ev, s.env, available, map');
      LaneTracks(rhs, k, w, ev, s.env, available, map');
      PlainYields(Binary(Lane(id, k), op, LaneOf(lhs, k, w, map').value, LaneOf(rhs, k, w, map').value), id, k, s, m);
    case VectorCompare(_, w, pred, lhs, rhs) =>
      LaneTracks(lhs, k, w, ev, s.env, available, map');
      LaneTracks(rhs, k, w, ev, s.env, available, map');
      PlainYields(Compare(Lane(id, k), pred, LaneOf(lhs, k, w, map').value, LaneOf(rhs, k, w, map').value), id, k, s,
                  m);
    case VectorCast(_, w, src) =>
      LaneTracks(src, k, w, ev, s.env, available, map');
      PlainYields(ZExt(Lane(id, k), LaneOf(src, k, w, map').value), id, k, s, m);
    case Splat(_, _, scalar) =>
      ScalarTracks(scalar, ev, s.env, available, map');
    case StepVector(_, _) =>
    case Shuffle(_, _, sw, lhs, rhs, indices) =>
      if indices[k] < sw {
        LaneTracks(lhs, indices[k], sw, ev, s.env, available, map');
      } else {
        LaneTracks(rhs, indices[k] - sw, sw, ev, s.env, available, map');
      }
    case Select(_, w, condition, onTrue, onFalse) =>
      LaneTracks(condition, k, w, ev, s.env, available, map');
      LaneTracks(onTrue, k, w, ev, s.env, available, map');
      LaneTracks(onFalse, k, w, ev, s.env, available, map');
      ConditionalYields(LaneOf(condition, k, w, map').value, [], LaneOf(onTrue, k, w, map').value,
                        LaneOf(onFalse, k, w, map').value, id, k, s,
                        LaneAt(condition, k, w, ev).value, m);
  }

  lemma PredicatedLane(i: Instr, id: nat, k: nat, s: State, ev: Env, available: set<Name>, map': LaneMap)
    requires i.VPBinary? || i.VPCompare?
    requires Tracks(ev, s.env, available, map') && KnownInstr(i, available) && LowerLane(i, id, k, map').Some?
    ensures Yields(LowerLane(i, id, k, map').value, id, k, s, LaneMeaning(i, k, State(ev, s.memory)))
  {
    var w := i.width;
    GuardTracks(i.guard, k, w, ev, s.env, available, map');
    LaneTracks(i.lhs, k, w, ev, s.env, available, map');
    LaneTracks(i.rhs, k, w, ev, s.env, available, map');
    LaneTracks(i.passthrough, k, w, ev, s.env, available, map');
    var c, p := GuardOf(i.guard, k, w, map').value, LaneOf(i.passthrough, k, w, map').value;
    var x, y := LaneOf(i.lhs, k, w, map').value, LaneOf(i.rhs, k, w, map').value;
    var t := Temp(id, k, Active);
    var body := if i.VPBinary? then Binary(t, i.op, x, y) else Compare(t, i.pred, x, y);
    RunBodyOne(body, s);
    ConditionalYields(c, [body], Use(t), p, id, k, s, EvalNum(c, s.env).value,
                      LaneMeaning(i, k, State(ev, s.memory)));
  }

  lemma LoadingLane(i: Instr, id: nat, k: nat, s: State, ev: Env, available: set<Name>, map': LaneMap)
    requires i.MaskedLoad? || i.Gather?
    requires Tracks(ev, s.env, available, map') && KnownInstr(i, available) && LowerLane(i, id, k, map').Some?
    ensures Yields(LowerLane(i, id, k, map').value, id, k, s, LaneMeaning(i, k, State(ev, s.memory)))
  {
    var w := i.width;
    var base := if i.MaskedLoad? then i.ptr else i.base;
    GuardTracks(i.guard, k, w, ev, s.env, available, map');
    ScalarTracks(base, ev, s.env, available, map');
    LaneTracks(i.passthrough, k, w, ev, s.env, available, map');
    if i.Gather? {
      LaneTracks(i.indices', k, w, ev, s.env, available, map');
    }
    var index := if i.MaskedLoad? then Int(k) else LaneOf(i.indices', k, w, map').value;
    var b := ScalarOf(base, map').value;
    LoadAtRuns(id, k, b, index, s, EvalNum(b, s.env).value, EvalNum(index, s.env).value);
    var c := GuardOf(i.guard, k, w, map').value;
    ConditionalYields(c, LoadAt(id, k, b, index), Use(Temp(id, k, Access)), LaneOf(i.passthrough, k, w, map').value,
                      id, k, s, EvalNum(c, s.env).value, LaneMeaning(i, k, State(ev, s.memory)));
  }

  /** An index comparison followed by a guarded pick. */
  lemma PickRuns(index: Operand, k: nat, x: Operand, y: Operand, id: nat, s: State, j: int)
    requires EvalNum(index, s.env) == Ok(j) && EvalNum(x, s.env).Ok? && EvalNum(y, s.env).Ok?
    requires x != Use(Temp(id, k, Index)) && y != Use(Temp(id, k, Index))
    ensures var t := Temp(id, k, Index);
            var chosen := ConditionalValue(Use(t), [], x, y, Lane(id, k));
            Yields(LaneCode([Plain(Compare(t, EQ, index, Int(k)))] + chosen.items, chosen.result), id, k, s,
                   EvalNum(if j == k then x else y, s.env))
  {
    var t := Temp(id, k, Index);
    var compare := Compare(t, EQ, index, Int(k));
    var chosen := ConditionalValue(Use(t), [], x, y, Lane(id, k));
    RunItemsAppend([Plain(compare)], chosen.items, s);
    RunOne(Plain(compare), s);
    var s' := RunInstr(compare, s).value;
    EvalSame(x, s.env, s'.env);
    EvalSame(y, s.env, s'.env);
    ConditionalRuns(Use(t), [], x, y, Lane(id, k), s', if j == k then 1 else 0);
  }

  lemma KnownAvoids(o: Operand, available: set<Name>, map': LaneMap, id: nat)
    requires Known(o, available) && Unaffected(available, map', id)
    ensures ScalarOf(o, map').Some? ==> Avoids(ScalarOf(o, map').value, id)
  {
  }

  lemma LaneAvoids(o: Operand, k: nat, width: nat, available: set<Name>, map': LaneMap, id: nat)
    requires Known(o, available) && Unaffected(available, map', id) && LaneOf(o, k, width, map').Some?
    ensures Avoids(LaneOf(o, k, width, map').value, id)
  {
    if o.Use? {
      assert AvoidsAll(map'[o.name], id);
    }
  }

  lemma InsertingLane(i: Instr, id: nat, k: nat, s: State, ev: Env, available: set<Name>, map': LaneMap)
    requires i.InsertElement?
    requires Tracks(ev, s.env, available, map') && KnownInstr(i, available) && LowerLane(i, id, k, map').Some?
    requires Unaffected(available, map', id)
    ensures Yields(LowerLane(i, id, k, map').value, id, k, s, LaneMeaning(i, k, State(ev, s.memory)))
  {
    var w := i.width;
    ScalarTracks(i.index, ev, s.env, available, map');
    ScalarTracks(i.element, ev, s.env, available, map');
    LaneTracks(i.vector, k, w, ev, s.env, available, map');
    KnownAvoids(i.element, available, map', id);
    LaneAvoids(i.vector, k, w, available, map', id);
    var j, x, y := ScalarOf(i.index, map').value, ScalarOf(i.element, map').value, LaneOf(i.vector, k, w, map').value;
    if !j.Int? {
      PickRuns(j, k, x, y, id, s, EvalNum(j, s.env).value);
    }
  }

  lemma LaneRuns(i: Instr, id: nat, k: nat, s: State, ev: Env, available: set<Name>, map': LaneMap)
    requires LaneWise(i) && Unaffected(available, map', id)
    requires Tracks(ev, s.env, available, map') && KnownInstr(i, available) && LowerLane(i, id, k, map').Some?
    ensures Yields(LowerLane(i, id, k, map').value, id, k, s, LaneMeaning(i, k, State(ev, s.memory)))
  {
    if i.VPBinary? || i.VPCompare? {
      PredicatedLane(i, id, k, s, ev, available, map');
    } else if i.MaskedLoad? || i.Gather? {
      LoadingLane(i, id, k, s, ev, available, map');
    } else if i.InsertElement? {
      InsertingLane(i, id, k, s, ev, available, map');
    } else {
      ElementwiseLane(i, id, k, s, ev, available, map');
    }
  }
}
