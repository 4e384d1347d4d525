/** What the scalarized function looks like: only scalar instructions and scalar phis; every memory
    access is a source access, an access of a lane known to be active, or lies in an arm that is
    entered only under the mask bit of its own lane. */
module ScalarOutput {
  import opened Wrappers
  import opened Oir
  import opened LaneLowering
  import opened GuardLayout
  import opened Scalarizer

  /** Address arithmetic counts as an access: an inactive lane must not compute its address. */
  predicate Accesses(i: Instr) {
    i.Gep? || i.Load? || i.Store?
  }

  predicate MemoryOperation(i: Instr) {
    i.MaskedLoad? || i.Gather? || Storing(i)
  }

  /** `j` was made for one lane of the vector memory operation `i`. */
  predicate MadeForLane(i: Instr, j: Instr) {
    MemoryOperation(i) && j.dst.Temp? && j.dst.id == i.dst.id && j.dst.lane < i.width
  }

  /** The operand that holds the mask bit of the lane `j` was made for. */
  function LaneCondition(i: Instr, j: Instr, m: LaneMap): Option<Operand>
    requires MadeForLane(i, j)
  {
    GuardOf(i.guard, j.dst.lane, i.width, m)
  }

  predicate KnownActive(o: Option<Operand>) {
    o.Some? && o.value.Int? && o.value.n != 0
  }

  /** The access `j` stems from `i` and may run under `condition`; none means unconditionally. */
  predicate Licensed(i: Instr, m: LaneMap, condition: Option<Operand>, j: Instr) {
    || (condition.None? && Accesses(i) && j.dst == i.dst)
    || (MadeForLane(i, j)
        && if condition.None? then KnownActive(LaneCondition(i, j, m)) else LaneCondition(i, j, m) == condition)
  }

  /** Which instructions are allowed under a condition. */
  type License = (Option<Operand>, Instr) -> bool

  function LicenseOf(i: Instr, m: LaneMap): License {
    (condition: Option<Operand>, j: Instr) => Accesses(j) ==> Licensed(i, m, condition, j)
  }

  function LicenseIn(body: seq<Instr>, m: LaneMap): License {
    (condition: Option<Operand>, j: Instr) => Accesses(j) ==> exists i :: i in body && Licensed(i, m, condition, j)
  }

  lemma LicenseMeaning(i: Instr, m: LaneMap)
    ensures forall c, j :: LicenseOf(i, m)(c, j) <==> (Accesses(j) ==> Licensed(i, m, c, j))
  {
  }

  ghost predicate Neat(items: seq<Item>, license: License) {
    forall item :: item in items ==> NeatItem(item, license)
  }

  ghost predicate NeatItem(item: Item, license: License) {
    match item
    case Plain(i) => ScalarInstr(i) && license(None, i)
    case Diamond(c, taken, _) => Scalars(taken, Some(c), license)
  }

  ghost predicate Scalars(body: seq<Instr>, condition: Option<Operand>, license: License) {
    forall i :: i in body ==> ScalarInstr(i) && license(condition, i)
  }

  predicate ScalarPhis(phis: seq<Phi>) {
    forall p :: p in phis ==> p.width.None?
  }

  /** Instructions that access nothing are always allowed. */
  ghost predicate Lenient(license: License) {
    forall c, j :: !Accesses(j) ==> license(c, j)
  }

  lemma NeatAppend(a: seq<Item>, b: seq<Item>, license: License)
    requires Neat(a, license) && Neat(b, license)
    ensures Neat(a + b, license)
  {
  }

  // ---------------------------------------------------------------- one instruction

  /** A license for both ways in which conditional code is emitted. */
  ghost predicate Covers(license: License, condition: Operand, taken: seq<Instr>) {
    if !condition.Int? then Scalars(taken, Some(condition), license)
    else condition.n != 0 ==> Scalars(taken, None, license)
  }

  lemma ConditionalNeat(condition: Operand, taken: seq<Instr>, onTrue: Operand, onFalse: Operand, dst: Name,
                        license: License)
    requires Covers(license, condition, taken)
    ensures Neat(ConditionalValue(condition, taken, onTrue, onFalse, dst).items, license)
    ensures Neat(ConditionalEffect(condition, taken), license)
  {
  }

  /** The code of one lane of a memory operation is licensed by that lane's mask bit. */
  lemma AccessCovered(i: Instr, k: nat, m: LaneMap, condition: Operand, taken: seq<Instr>)
    requires MemoryOperation(i) && k < i.width && GuardOf(i.guard, k, i.width, m) == Some(condition)
    requires forall j :: j in taken ==> Accesses(j) && j.dst.Temp? && j.dst.id == i.dst.id && j.dst.lane == k
    ensures Covers(LicenseOf(i, m), condition, taken)
  {
    LicenseMeaning(i, m);
  }

  lemma LoadNeat(i: Instr, k: nat, m: LaneMap)
    requires (i.MaskedLoad? || i.Gather?) && LowerLane(i, i.dst.id, k, m).Some? && k < i.width
    requires i.dst.Source?
    ensures Neat(LowerLane(i, i.dst.id, k, m).value.items, LicenseOf(i, m))
  {
    var id, w := i.dst.id, i.width;
    var c, p := GuardOf(i.guard, k, w, m).value, LaneOf(i.passthrough, k, w, m).value;
    var base := ScalarOf(if i.MaskedLoad? then i.ptr else i.base, m).value;
    var index := if i.MaskedLoad? then Int(k) else LaneOf(i.indices', k, w, m).value;
    AccessCovered(i, k, m, c, LoadAt(id, k, base, index));
    ConditionalNeat(c, LoadAt(id, k, base, index), Use(Temp(id, k, Access)), p, Lane(id, k), LicenseOf(i, m));
  }

  lemma LaneNeat(i: Instr, k: nat, m: LaneMap)
    requires LaneWise(i) && i.dst.Source? && LowerLane(i, i.dst.id, k, m).Some? && k < i.width
    ensures Neat(LowerLane(i, i.dst.id, k, m).value.items, LicenseOf(i, m))
  {
    var id, license := i.dst.id, LicenseOf(i, m);
    LicenseMeaning(i, m);
    match i
    case Select(_, w, condition, onTrue, onFalse) =>
      ConditionalNeat(LaneOf(condition, k, w, m).value, [], LaneOf(onTrue, k, w, m).value,
                      LaneOf(onFalse, k, w, m).value, Lane(id, k), license);
    case InsertElement(_, w, vector, element, index) =>
      ConditionalNeat(Use(Temp(id, k, Index)), [], ScalarOf(element, m).value, LaneOf(vector, k, w, m).value,
                      Lane(id, k), license);
    case VPBinary(_, w, op, lhs, rhs, guard, p) =>
      ConditionalNeat(GuardOf(guard, k, w, m).value,
                      [Binary(Temp(id, k, Active), op, LaneOf(lhs, k, w, m).value, LaneOf(rhs, k, w, m).value)],
                      Use(Temp(id, k, Active)), LaneOf(p, k, w, m).value, Lane(id, k), license);
    case VPCompare(_, w, pred, lhs, rhs, guard, p) =>
      ConditionalNeat(GuardOf(guard, k, w, m).value,
                      [Compare(Temp(id, k, Active), pred, LaneOf(lhs, k, w, m).value, LaneOf(rhs, k, w, m).value)],
                      Use(Temp(id, k, Active)), LaneOf(p, k, w, m).value, Lane(id, k), license);
    case MaskedLoad(_, _, _, _, _) => LoadNeat(i, k, m);
    case Gather(_, _, _, _, _, _) => LoadNeat(i, k, m);
    case _ =>
  }

  lemma {:induction false} LanesNeat(i: Instr, n: nat, m: LaneMap)
    requires LaneWise(i) && i.dst.Source? && n <= i.width && LowerLanes(i, i.dst.id, n, m).Some?
    ensures Neat(LowerLanes(i, i.dst.id, n, m).value.0, LicenseOf(i, m))
  {
    if n > 0 {
      LanesNeat(i, n - 1, m);
      LaneNeat(i, n - 1, m);
      NextLaneNeat(i, n, m, LicenseOf(i, m));
    }
  }

  lemma NextLaneNeat(i: Instr, n: nat, m: LaneMap, license: License)
    requires LaneWise(i) && i.dst.Source? && n > 0 && LowerLanes(i, i.dst.id, n, m).Some?
    requires Neat(LowerLanes(i, i.dst.id, n - 1, m).value.0, license)
    requires Neat(LowerLane(i, i.dst.id, n - 1, m).value.items, license)
    ensures Neat(LowerLanes(i, i.dst.id, n, m).value.0, license)
  {
    NeatAppend(LowerLanes(i, i.dst.id, n - 1, m).value.0, LowerLane(i, i.dst.id, n - 1, m).value.items, license);
  }

  lemma {:induction false} EffectsNeat(i: Instr, n: nat, m: LaneMap)
    requires Storing(i) && i.dst.Source? && n <= i.width && LowerEffects(i, i.dst.id, n, m).Some?
    ensures Neat(LowerEffects(i, i.dst.id, n, m).value, LicenseOf(i, m))
  {
    if n > 0 {
      var id, w, k := i.dst.id, i.width, n - 1;
      EffectsNeat(i, k, m);
      var c, x := GuardOf(i.guard, k, w, m).value, LaneOf(i.values, k, w, m).value;
      var base := ScalarOf(if i.MaskedStore? then i.ptr else i.base, m).value;
      var index := if i.MaskedStore? then Int(k) else LaneOf(i.indices', k, w, m).value;
      AccessCovered(i, k, m, c, StoreAt(id, k, x, base, index));
      ConditionalNeat(c, StoreAt(id, k, x, base, index), Int(0), Int(0), Lane(id, k), LicenseOf(i, m));
      NeatAppend(LowerEffects(i, id, k, m).value, LowerEffect(i, id, k, m).value, LicenseOf(i, m));
    }
  }

  lemma CombineNeat(kind: Kind, id: nat, k: nat, acc: Operand, x: Operand, license: License)
    requires Lenient(license)
    ensures Neat(CombineCode(kind, id, k, acc, x).items, license)
  {
  }

  lemma ReductionStepNeat(i: Instr, id: nat, k: nat, rest: LaneCode, x: Operand, c: Operand, license: License)
    requires i.Reduce? && Neat(rest.items, license) && Lenient(license)
    ensures Neat(ReductionStepCode(i.kind, id, k, rest, x, c).items, license)
  {
    var combined := CombineCode(i.kind, id, k, rest.result, x);
    var chosen := ConditionalValue(c, [], combined.result, rest.result, Lane(id, k));
    CombineNeat(i.kind, id, k, rest.result, x, license);
    ConditionalNeat(c, [], combined.result, rest.result, Lane(id, k), license);
    NeatAppend(rest.items, combined.items, license);
    NeatAppend(rest.items + combined.items, chosen.items, license);
  }

  /** What holds of a seed and is kept by every step holds of the whole reduction. */
  lemma {:induction false} ReductionBuilds(i: Instr, id: nat, n: nat, m: LaneMap, p: LaneCode -> bool)
    requires i.Reduce? && LowerReduction(i, id, n, m).Some?
    requires forall seed :: p(LaneCode([], seed))
    requires forall k: nat, rest, x, c :: p(rest) ==> p(ReductionStepCode(i.kind, id, k, rest, x, c))
    ensures p(LowerReduction(i, id, n, m).value)
  {
    if n > 0 {
      ReductionBuilds(i, id, n - 1, m, p);
      var x, c := LaneOf(i.vector, n - 1, i.width, m).value, GuardOf(i.guard, n - 1, i.width, m).value;
      assert LowerReduction(i, id, n, m).value ==
             ReductionStepCode(i.kind, id, n - 1, LowerReduction(i, id, n - 1, m).value, x, c);
    }
  }

  lemma ReductionNeat(i: Instr, id: nat, m: LaneMap, license: License)
    requires i.Reduce? && LowerReduction(i, id, i.width, m).Some? && Lenient(license)
    ensures Neat(LowerReduction(i, id, i.width, m).value.items, license)
  {
    var neat := (code: LaneCode) => Neat(code.items, license);
    forall k: nat, rest, x, c | neat(rest) ensures neat(ReductionStepCode(i.kind, id, k, rest, x, c)) {
      ReductionStepNeat(i, id, k, rest, x, c, license);
    }
    ReductionBuilds(i, id, i.width, m, neat);
  }

  lemma {:induction false} ExtractNeat(id: nat, n: nat, lanes: seq<Operand>, index: Operand, license: License)
    requires 1 <= n <= |lanes| && Lenient(license)
    ensures Neat(LowerDynamicExtract(id, n, lanes, index).items, license)
  {
    if n > 1 {
      ExtractNeat(id, n - 1, lanes, index, license);
    }
  }

  lemma InstrNeat(i: Instr, m: LaneMap)
    requires i.dst.Source? && LowerInstr(i, m).Some?
    ensures Neat(LowerInstr(i, m).value.items, LicenseOf(i, m))
  {
    LicenseMeaning(i, m);
    if ScalarInstr(i) {
      assert Rewrite(i, m).value.dst == i.dst;
      assert NeatItem(Plain(Rewrite(i, m).value), LicenseOf(i, m));
    } else if LaneWise(i) {
      LanesNeat(i, i.width, m);
    } else if Storing(i) {
      EffectsNeat(i, i.width, m);
    } else if i.Reduce? {
      ReductionNeat(i, i.dst.id, m, LicenseOf(i, m));
    } else {
      var lanes, j := LanesOf(i.vector, m).value, ScalarOf(i.index, m).value;
      if !j.Int? {
        ExtractNeat(i.dst.id, i.width, lanes, j, LicenseOf(i, m));
      }
    }
  }

  lemma NeatWeakens(items: seq<Item>, p: License, q: License)
    requires Neat(items, p) && forall c, j :: p(c, j) ==> q(c, j)
    ensures Neat(items, q)
  {
    forall item | item in items ensures NeatItem(item, q) {
      assert NeatItem(item, p);
    }
  }

  lemma {:induction false} BodyNeat(body: seq<Instr>, m: LaneMap, license: License)
    requires forall i :: i in body ==> i.dst.Source?
    requires LowerBody(body, m).Some?
    requires forall i, c, j :: i in body && LicenseOf(i, m)(c, j) ==> license(c, j)
    ensures Neat(LowerBody(body, m).value, license)
  {
    if body != [] {
      assert body[0] in body;
      InstrNeat(body[0], m);
      NeatWeakens(LowerInstr(body[0], m).value.items, LicenseOf(body[0], m), license);
      BodyNeat(body[1..], m, license);
    }
  }

  // ---------------------------------------------------------------- blocks

  /** The only branch to `x` is the one that is taken when `c` is not zero. */
  ghost predicate EnteredUnder(blocks: map<Label, Block>, x: Label, c: Operand) {
    forall y :: y in blocks && x in Successors(blocks[y].terminator) ==>
      exists z :: z != x && blocks[y].terminator == CondBr(c, x, z)
  }

  /** A laid-out block is unconditional code, or the taken arm of one guard. */
  ghost predicate NeatBlock(blocks: map<Label, Block>, x: Label, license: License)
    requires x in blocks
  {
    && ScalarPhis(blocks[x].phis)
    && if x.part.Taken? then exists c :: EnteredUnder(blocks, x, c) && Scalars(blocks[x].body, Some(c), license)
       else Scalars(blocks[x].body, None, license)
  }

  ghost predicate HeadsOnly(t: Terminator) {
    forall s :: s in Successors(t) ==> s.part.Head?
  }

  /** Laid-out blocks branch to later guards of their own source block, or leave it. */
  lemma {:induction false} EmitBranches(b: nat, guard: nat, cur: Part, phis: seq<Phi>, pre: seq<Instr>,
                                        items: seq<Item>, t: Terminator, y: Label, s: Label)
    requires HeadsOnly(t) && y in Emit(b, guard, cur, phis, pre, items, t)
    requires s in Successors(Emit(b, guard, cur, phis, pre, items, t)[y].terminator)
    ensures s.part.Head? || (s.block == b && GuardNumber(s.part) >= guard)
    decreases |items|
  {
    if items != [] {
      match items[0]
      case Plain(i) => EmitBranches(b, guard, cur, phis, pre + [i], items[1..], t, y, s);
      case Diamond(_, taken, merge) =>
        var blocks := Emit(b, guard, cur, phis, pre, items, t);
        var rest := Emit(b, guard + 1, Join(guard), MergePhis(b, guard, merge), [], items[1..], t);
        if y in rest && blocks[y] == rest[y] {
          EmitBranches(b, guard + 1, Join(guard), MergePhis(b, guard, merge), [], items[1..], t, y, s);
        }
    }
  }

  /** One diamond in front of neat blocks. */
  lemma DiamondNeat(b: nat, guard: nat, cur: Part, phis: seq<Phi>, pre: seq<Instr>, items: seq<Item>,
                    t: Terminator, license: License, x: Label)
    requires items != [] && items[0].Diamond? && ScalarPhis(phis) && Scalars(pre, None, license)
    requires NeatItem(items[0], license) && !cur.Taken? && GuardNumber(cur) < guard && HeadsOnly(t)
    requires x in Emit(b, guard, cur, phis, pre, items, t)
    requires var rest := Emit(b, guard + 1, Join(guard), MergePhis(b, guard, items[0].merge), [], items[1..], t);
             x in rest ==> NeatBlock(rest, x, license)
    ensures NeatBlock(Emit(b, guard, cur, phis, pre, items, t), x, license)
  {
    if x in Emit(b, guard + 1, Join(guard), MergePhis(b, guard, items[0].merge), [], items[1..], t) {
      EarlierGuardsKeepAway(b, guard, cur, phis, pre, items, t, x);
    } else if x == Label(b, Taken(guard)) {
      FirstGuardEntered(b, guard, cur, phis, pre, items, t);
    }
  }

  lemma {:induction false} EmitNeat(b: nat, guard: nat, cur: Part, phis: seq<Phi>, pre: seq<Instr>, items: seq<Item>,
                                    t: Terminator, license: License, x: Label)
    requires ScalarPhis(phis) && Scalars(pre, None, license) && Neat(items, license)
    requires !cur.Taken? && GuardNumber(cur) < guard && HeadsOnly(t)
    requires x in Emit(b, guard, cur, phis, pre, items, t)
    ensures NeatBlock(Emit(b, guard, cur, phis, pre, items, t), x, license)
    decreases |items|
  {
    if items != [] {
      assert NeatItem(items[0], license);
      assert Neat(items[1..], license);
      match items[0]
      case Plain(i) => EmitNeat(b, guard, cur, phis, pre + [i], items[1..], t, license, x);
      case Diamond(_, _, merge) =>
        if x in Emit(b, guard + 1, Join(guard), MergePhis(b, guard, merge), [], items[1..], t) {
          EmitNeat(b, guard + 1, Join(guard), MergePhis(b, guard, merge), [], items[1..], t, license, x);
        }
        DiamondNeat(b, guard, cur, phis, pre, items, t, license, x);
    }
  }

  /** The first guard is entered only from the current block. */
  lemma FirstGuardEntered(b: nat, guard: nat, cur: Part, phis: seq<Phi>, pre: seq<Instr>, items: seq<Item>,
                          t: Terminator)
    requires items != [] && items[0].Diamond? && GuardNumber(cur) < guard && HeadsOnly(t)
    ensures EnteredUnder(Emit(b, guard, cur, phis, pre, items, t), Label(b, Taken(guard)), items[0].condition)
  {
    var blocks, x := Emit(b, guard, cur, phis, pre, items, t), Label(b, Taken(guard));
    var merge := MergePhis(b, guard, items[0].merge);
    var rest := Emit(b, guard + 1, Join(guard), merge, [], items[1..], t);
    forall y | y in blocks && x in Successors(blocks[y].terminator)
      ensures exists z :: z != x && blocks[y].terminator == CondBr(items[0].condition, x, z)
    {
      if y == Label(b, cur) {
        assert blocks[y].terminator == CondBr(items[0].condition, x, Label(b, NotTaken(guard)));
      } else if y in rest && blocks[y] == rest[y] {
        EmitBranches(b, guard + 1, Join(guard), merge, [], items[1..], t, y, x);
        assert false;
      }
    }
  }

  /** The blocks in front of a later guard do not branch to it. */
  lemma EarlierGuardsKeepAway(b: nat, guard: nat, cur: Part, phis: seq<Phi>, pre: seq<Instr>, items: seq<Item>,
                              t: Terminator, x: Label)
    requires items != [] && items[0].Diamond? && GuardNumber(cur) < guard
    requires x in Emit(b, guard + 1, Join(guard), MergePhis(b, guard, items[0].merge), [], items[1..], t)
    ensures var rest := Emit(b, guard + 1, Join(guard), MergePhis(b, guard, items[0].merge), [], items[1..], t);
            var blocks := Emit(b, guard, cur, phis, pre, items, t);
            && blocks[x] == rest[x]
            && forall c :: x.part.Taken? && EnteredUnder(rest, x, c) ==> EnteredUnder(blocks, x, c)
  {
    var merge := MergePhis(b, guard, items[0].merge);
    var rest := Emit(b, guard + 1, Join(guard), merge, [], items[1..], t);
    var blocks := Emit(b, guard, cur, phis, pre, items, t);
    EmitKeys(b, guard + 1, Join(guard), merge, [], items[1..], t, x);
    forall c, y | x.part.Taken? && EnteredUnder(rest, x, c) && y in blocks && x in Successors(blocks[y].terminator)
      ensures exists z :: z != x && blocks[y].terminator == CondBr(c, x, z)
    {
      assert y in rest && blocks[y] == rest[y];
    }
  }

  lemma {:induction false} LanePhisNeat(f: Function, p: Phi, n: nat, m: LaneMap)
    requires SourceNames(f) && p.width.Some? && LanePhis(f, p, n, m).Some?
    ensures ScalarPhis(LanePhis(f, p, n, m).value)
  {
    if n > 0 {
      LanePhisNeat(f, p, n - 1, m);
    }
  }

  lemma {:induction false} PhisNeat(f: Function, phis: seq<Phi>, m: LaneMap)
    requires SourceNames(f) && LowerPhis(f, phis, m).Some?
    ensures ScalarPhis(LowerPhis(f, phis, m).value)
  {
    if phis != [] {
      PhisNeat(f, phis[1..], m);
      if phis[0].width.Some? {
        LanePhisNeat(f, phis[0], phis[0].width.value, m);
      }
    }
  }

  lemma BlockNeat(f: Function, l: Label, m: LaneMap, x: Label)
    requires SourceNames(f) && l in f.blocks && HeadsOnly(f.blocks[l].terminator)
    requires LowerBlock(f, l, m).Some? && x in LowerBlock(f, l, m).value
    ensures x.block == l.block && NeatBlock(LowerBlock(f, l, m).value, x, LicenseIn(f.blocks[l].body, m))
  {
    var b := f.blocks[l];
    var phis, items := LowerPhis(f, b.phis, m).value, LowerBody(b.body, m).value;
    var t := LowerTerminator(b.terminator, m).value;
    PhisNeat(f, b.phis, m);
    BodyNeat(b.body, m, LicenseIn(b.body, m));
    EmitKeys(l.block, 0, Head, phis, [], items, t, x);
    EmitNeat(l.block, 0, Head, phis, [], items, t, LicenseIn(b.body, m), x);
  }

  /** Blocks of one source block do not branch into the guards of another. */
  lemma BlockBranches(f: Function, l: Label, m: LaneMap, y: Label, s: Label)
    requires SourceNames(f) && l in f.blocks && HeadsOnly(f.blocks[l].terminator)
    requires LowerBlock(f, l, m).Some? && y in LowerBlock(f, l, m).value
    requires s in Successors(LowerBlock(f, l, m).value[y].terminator)
    ensures s.part.Head? || s.block == l.block
  {
    var b := f.blocks[l];
    EmitBranches(l.block, 0, Head, LowerPhis(f, b.phis, m).value, [], LowerBody(b.body, m).value,
                 LowerTerminator(b.terminator, m).value, y, s);
  }

  /** The source block a laid-out block stems from. */
  lemma {:induction false} BlockOrigin(f: Function, layout: seq<Label>, m: LaneMap, x: Label) returns (l: Label)
    requires SourceNames(f) && forall l :: l in layout ==> l in f.blocks
    requires LowerBlocks(f, layout, m).Some? && x in LowerBlocks(f, layout, m).value
    ensures l in layout && LowerBlock(f, l, m).Some? && x in LowerBlock(f, l, m).value
    ensures LowerBlocks(f, layout, m).value[x] == LowerBlock(f, l, m).value[x]
  {
    if x in LowerBlock(f, layout[0], m).value {
      l := layout[0];
    } else {
      l := BlockOrigin(f, layout[1..], m, x);
    }
  }

  /** A guard arm is entered in the whole function as it is in the code of its source block. */
  lemma EntriesAreLocal(f: Function, layout: seq<Label>, m: LaneMap, l: Label, x: Label, c: Operand)
    requires WellFormed(f, layout) && LowerBlocks(f, layout, m).Some? && l in layout
    requires LowerBlock(f, l, m).Some? && x.block == l.block && x.part.Taken?
    requires EnteredUnder(LowerBlock(f, l, m).value, x, c)
    ensures EnteredUnder(LowerBlocks(f, layout, m).value, x, c)
  {
    var blocks := LowerBlocks(f, layout, m).value;
    forall y | y in blocks && x in Successors(blocks[y].terminator)
      ensures exists z :: z != x && blocks[y].terminator == CondBr(c, x, z)
    {
      var l' := BlockOrigin(f, layout, m, y);
      BlockBranches(f, l', m, y, x);
      assert l' == l;
      assert y in LowerBlock(f, l, m).value;
    }
  }

  /** The output is scalar: no vector instruction and no vector phi is left. */
  lemma ScalarizedIsScalar(f: Function, layout: seq<Label>, x: Label)
    requires WellFormed(f, layout) && Scalarize(f, layout).Some? && x in Scalarize(f, layout).value.blocks
    ensures var block := Scalarize(f, layout).value.blocks[x];
            ScalarPhis(block.phis) && forall i :: i in block.body ==> ScalarInstr(i)
  {
    var m := BuildMap(f, layout).value;
    var l := BlockOrigin(f, layout, m, x);
    BlockNeat(f, l, m, x);
  }

  /** What a neat block says about one of its accesses. */
  lemma AccessLicensed(blocks: map<Label, Block>, x: Label, body: seq<Instr>, m: LaneMap, j: Instr)
    returns (i: Instr, c: Option<Operand>)
    requires x in blocks && NeatBlock(blocks, x, LicenseIn(body, m)) && j in blocks[x].body && Accesses(j)
    ensures i in body && Licensed(i, m, c, j)
    ensures if x.part.Taken? then c.Some? && EnteredUnder(blocks, x, c.value) else c == None
  {
    c := None;
    if x.part.Taken? {
      var o :| EnteredUnder(blocks, x, o) && Scalars(blocks[x].body, Some(o), LicenseIn(body, m));
      c := Some(o);
    }
    assert LicenseIn(body, m)(c, j);
    i :| i in body && Licensed(i, m, c, j);
  }

  /** Every address and access of the output, in any block `x`, stems from an instruction `i` of the
      source block.  Outside guard arms it is a source access itself, or belongs to a lane whose mask
      bit is a constant one.  In a guard arm it belongs to a lane, and the only way into the arm is
      the branch on that lane's mask bit. */
  lemma AccessesAreGuarded(f: Function, layout: seq<Label>, x: Label, j: Instr) returns (l: Label, i: Instr)
    requires WellFormed(f, layout) && Scalarize(f, layout).Some? && x in Scalarize(f, layout).value.blocks
    requires j in Scalarize(f, layout).value.blocks[x].body && Accesses(j)
    ensures l in f.blocks && l.block == x.block && i in f.blocks[l].body
    ensures var m := BuildMap(f, layout).value;
            if x.part.Taken? then
              && MadeForLane(i, j) && LaneCondition(i, j, m).Some?
              && EnteredUnder(Scalarize(f, layout).value.blocks, x, LaneCondition(i, j, m).value)
            else
              (Accesses(i) && j.dst == i.dst) || (MadeForLane(i, j) && KnownActive(LaneCondition(i, j, m)))
  {
    var m := BuildMap(f, layout).value;
    l := BlockOrigin(f, layout, m, x);
    BlockNeat(f, l, m, x);
    var c;
    i, c := AccessLicensed(LowerBlock(f, l, m).value, x, f.blocks[l].body, m, j);
    if x.part.Taken? {
      EntriesAreLocal(f, layout, m, l, x, c.value);
    }
  }
}
