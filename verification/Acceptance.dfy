/** Which functions the scalarizer accepts, among the well-typed ones whose layout defines vector
    values before they are used. */
module Acceptance {
  import opened Wrappers
  import opened Oir
  import opened LaneLowering
  import opened LaneCorrectness
  import opened InstrCorrectness
  import opened Scalarizer
  import opened LaneMapFacts

  /** No lane count: a scalar.  Otherwise a fixed vector of that many lanes. */
  type Shape = Option<nat>

  type Types = map<Name, Shape>

  predicate HasShape(o: Operand, shape: Shape, types: Types) {
    match o
    case Int(_) => shape == None
    case Constant(lanes) => shape == Some(|lanes|)
    case Use(name) => name in types && types[name] == shape
  }

  predicate TypedGuard(g: Guard, width: nat, types: Types) {
    HasShape(g.mask, Some(width), types) && HasShape(g.evl, None, types)
  }

  /** Operands and result have the shapes the operation asks for. */
  predicate TypedInstr(i: Instr, ty: Types) {
    && (i.dst in ty || i.Store? || Storing(i))
    && match i
       case Binary(dst, _, x, y) => HasShape(x, None, ty) && HasShape(y, None, ty) && ty[dst] == None
       case Compare(dst, _, x, y) => HasShape(x, None, ty) && HasShape(y, None, ty) && ty[dst] == None
       case ZExt(dst, x) => HasShape(x, None, ty) && ty[dst] == None
       case Gep(dst, x, y) => HasShape(x, None, ty) && HasShape(y, None, ty) && ty[dst] == None
       case Load(dst, x) => HasShape(x, None, ty) && ty[dst] == None
       case Store(_, x, y) => HasShape(x, None, ty) && HasShape(y, None, ty)
       case Splat(dst, w, x) => HasShape(x, None, ty) && ty[dst] == Some(w)
       case StepVector(dst, w) => ty[dst] == Some(w)
       case VectorBinary(dst, w, _, x, y) => HasShape(x, Some(w), ty) && HasShape(y, Some(w), ty) && ty[dst] == Some(w)
       case VectorCompare(dst, w, _, x, y) => HasShape(x, Some(w), ty) && HasShape(y, Some(w), ty) && ty[dst] == Some(w)
       case VectorCast(dst, w, x) => HasShape(x, Some(w), ty) && ty[dst] == Some(w)
       case Select(dst, w, c, x, y) =>
         HasShape(c, Some(w), ty) && HasShape(x, Some(w), ty) && HasShape(y, Some(w), ty) && ty[dst] == Some(w)
       case Shuffle(dst, w, sw, x, y, indices) =>
         HasShape(x, Some(sw), ty) && HasShape(y, Some(sw), ty) && |indices| == w && ty[dst] == Some(w)
         && forall k :: 0 <= k < w ==> indices[k] < 2 * sw
       case InsertElement(dst, w, v, x, j) =>
         HasShape(v, Some(w), ty) && HasShape(x, None, ty) && HasShape(j, None, ty) && ty[dst] == Some(w)
       case VPBinary(dst, w, _, x, y, g, p) =>
         HasShape(x, Some(w), ty) && HasShape(y, Some(w), ty) && TypedGuard(g, w, ty) && HasShape(p, Some(w), ty)
         && ty[dst] == Some(w)
       case VPCompare(dst, w, _, x, y, g, p) =>
         HasShape(x, Some(w), ty) && HasShape(y, Some(w), ty) && TypedGuard(g, w, ty) && HasShape(p, Some(w), ty)
         && ty[dst] == Some(w)
       case MaskedLoad(dst, w, x, g, p) =>
         HasShape(x, None, ty) && TypedGuard(g, w, ty) && HasShape(p, Some(w), ty) && ty[dst] == Some(w)
       case Gather(dst, w, x, j, g, p) =>
         HasShape(x, None, ty) && HasShape(j, Some(w), ty) && TypedGuard(g, w, ty) && HasShape(p, Some(w), ty)
         && ty[dst] == Some(w)
       case MaskedStore(_, w, v, x, g) => HasShape(v, Some(w), ty) && HasShape(x, None, ty) && TypedGuard(g, w, ty)
       case Scatter(_, w, v, x, j, g) =>
         HasShape(v, Some(w), ty) && HasShape(x, None, ty) && HasShape(j, Some(w), ty) && TypedGuard(g, w, ty)
       case ExtractElement(dst, w, v, j) =>
         HasShape(v, Some(w), ty) && HasShape(j, None, ty) && w > 0 && ty[dst] == None
       case Reduce(dst, w, _, v, g, x) =>
         HasShape(v, Some(w), ty) && TypedGuard(g, w, ty) && HasShape(x, None, ty) && ty[dst] == None
  }

  // ---------------------------------------------------------------- typed maps

  function ShapeOf(l: Lowered): Shape {
    match l
    case One(_) => None
    case Many(os) => Some(|os|)
  }

  ghost predicate TypedMap(m: LaneMap, types: Types) {
    forall n :: n in m ==> n in types && ShapeOf(m[n]) == types[n]
  }

  lemma ScalarFound(o: Operand, m: LaneMap, types: Types)
    requires TypedMap(m, types) && Known(o, m.Keys) && HasShape(o, None, types)
    ensures ScalarOf(o, m).Some?
  {
  }

  lemma LaneFound(o: Operand, k: nat, width: nat, m: LaneMap, types: Types)
    requires TypedMap(m, types) && Known(o, m.Keys) && HasShape(o, Some(width), types) && k < width
    ensures LaneOf(o, k, width, m).Some?
  {
  }

  /** The operations that carry an active mask and an explicit vector length. */
  predicate Guarded(i: Instr) {
    i.VPBinary? || i.VPCompare? || i.MaskedLoad? || i.Gather? || Storing(i) || i.Reduce?
  }

  /** A lane index that resolves to a constant is in range. */
  predicate IndexFits(i: Instr, m: LaneMap) {
    i.InsertElement? || i.ExtractElement? ==>
      var j := ScalarOf(i.index, m);
      j.Some? && j.value.Int? ==> 0 <= j.value.n < i.width
  }

  /** An explicit vector length resolves to the constant lane count. */
  predicate LengthFits(i: Instr, m: LaneMap) {
    Guarded(i) ==> ScalarOf(i.guard.evl, m) == Some(Int(i.width))
  }

  /** What the pass checks of an instruction, besides its shapes; it checks nothing without lanes. */
  predicate Fits(i: Instr, m: LaneMap)
    requires !ScalarInstr(i)
  {
    i.width > 0 ==> IndexFits(i, m) && LengthFits(i, m)
  }

  lemma LaneAccepted(i: Instr, id: nat, k: nat, m: LaneMap, types: Types)
    requires LaneWise(i) && TypedInstr(i, types) && KnownInstr(i, m.Keys) && k < i.width
    requires TypedMap(m, types) && Fits(i, m)
    ensures LowerLane(i, id, k, m).Some?
  {
    var w := i.width;
    match i
    case Splat(_, _, x) => ScalarFound(x, m, types);
    case StepVector(_, _) =>
    case VectorBinary(_, _, _, x, y) => LaneFound(x, k, w, m, types); LaneFound(y, k, w, m, types);
    case VectorCompare(_, _, _, x, y) => LaneFound(x, k, w, m, types); LaneFound(y, k, w, m, types);
    case VectorCast(_, _, x) => LaneFound(x, k, w, m, types);
    case Select(_, _, c, x, y) =>
      LaneFound(c, k, w, m, types); LaneFound(x, k, w, m, types); LaneFound(y, k, w, m, types);
    case Shuffle(_, _, sw, x, y, indices) =>
      if indices[k] < sw {
        LaneFound(x, indices[k], sw, m, types);
      } else {
        LaneFound(y, indices[k] - sw, sw, m, types);
      }
    case InsertElement(_, _, v, x, j) =>
      LaneFound(v, k, w, m, types); ScalarFound(x, m, types); ScalarFound(j, m, types);
    case VPBinary(_, _, _, x, y, g, p) =>
      LaneFound(x, k, w, m, types); LaneFound(y, k, w, m, types); LaneFound(g.mask, k, w, m, types);
      LaneFound(p, k, w, m, types);
    case VPCompare(_, _, _, x, y, g, p) =>
      LaneFound(x, k, w, m, types); LaneFound(y, k, w, m, types); LaneFound(g.mask, k, w, m, types);
      LaneFound(p, k, w, m, types);
    case MaskedLoad(_, _, x, g, p) =>
      ScalarFound(x, m, types); LaneFound(g.mask, k, w, m, types); LaneFound(p, k, w, m, types);
    case Gather(_, _, x, j, g, p) =>
      ScalarFound(x, m, types); LaneFound(j, k, w, m, types); LaneFound(g.mask, k, w, m, types);
      LaneFound(p, k, w, m, types);
  }

  lemma {:induction false} LanesAccepted(i: Instr, id: nat, n: nat, m: LaneMap, types: Types)
    requires LaneWise(i) && TypedInstr(i, types) && KnownInstr(i, m.Keys) && n <= i.width
    requires TypedMap(m, types) && Fits(i, m)
    ensures LowerLanes(i, id, n, m).Some?
  {
    if n > 0 {
      LanesAccepted(i, id, n - 1, m, types);
      LaneAccepted(i, id, n - 1, m, types);
    }
  }

  lemma {:induction false} EffectsAccepted(i: Instr, id: nat, n: nat, m: LaneMap, types: Types)
    requires Storing(i) && TypedInstr(i, types) && KnownInstr(i, m.Keys) && n <= i.width && TypedMap(m, types)
             && Fits(i, m)
    ensures LowerEffects(i, id, n, m).Some?
  {
    if n > 0 {
      EffectsAccepted(i, id, n - 1, m, types);
      LaneFound(i.guard.mask, n - 1, i.width, m, types);
      LaneFound(i.values, n - 1, i.width, m, types);
      ScalarFound(if i.MaskedStore? then i.ptr else i.base, m, types);
      if i.Scatter? { LaneFound(i.indices', n - 1, i.width, m, types); }
    }
  }

  lemma {:induction false} ReductionAccepted(i: Instr, id: nat, n: nat, m: LaneMap, types: Types)
    requires i.Reduce? && TypedInstr(i, types) && KnownInstr(i, m.Keys) && n <= i.width && TypedMap(m, types)
             && Fits(i, m)
    ensures LowerReduction(i, id, n, m).Some?
  {
    if n == 0 {
      ScalarFound(i.seed, m, types);
    } else {
      ReductionAccepted(i, id, n - 1, m, types);
      LaneFound(i.vector, n - 1, i.width, m, types);
      LaneFound(i.guard.mask, n - 1, i.width, m, types);
    }
  }

  lemma RewriteAccepted(i: Instr, m: LaneMap, types: Types)
    requires ScalarInstr(i) && TypedInstr(i, types) && KnownInstr(i, m.Keys) && TypedMap(m, types)
    ensures Rewrite(i, m).Some?
  {
    match i
    case Binary(_, _, x, y) => ScalarFound(x, m, types); ScalarFound(y, m, types);
    case Compare(_, _, x, y) => ScalarFound(x, m, types); ScalarFound(y, m, types);
    case ZExt(_, x) => ScalarFound(x, m, types);
    case Gep(_, x, y) => ScalarFound(x, m, types); ScalarFound(y, m, types);
    case Load(_, x) => ScalarFound(x, m, types);
    case Store(_, x, y) => ScalarFound(x, m, types); ScalarFound(y, m, types);
  }

  lemma {:induction false} EveryLaneLowered(i: Instr, id: nat, n: nat, m: LaneMap, k: nat)
    requires LaneWise(i) && LowerLanes(i, id, n, m).Some? && k < n
    ensures LowerLane(i, id, k, m).Some?
  {
    if k < n - 1 {
      EveryLaneLowered(i, id, n - 1, m, k);
    }
  }

  lemma {:induction false} EveryEffectLowered(i: Instr, id: nat, n: nat, m: LaneMap, k: nat)
    requires Storing(i) && LowerEffects(i, id, n, m).Some? && k < n
    ensures LowerEffect(i, id, k, m).Some?
  {
    if k < n - 1 {
      EveryEffectLowered(i, id, n - 1, m, k);
    }
  }

  lemma GuardFits(i: Instr, m: LaneMap)
    requires Guarded(i) && GuardOf(i.guard, 0, i.width, m).Some?
    ensures Fits(i, m)
  {
  }

  /** The first lane already shows whether an operation fits. */
  lemma FirstLaneFits(i: Instr, id: nat, m: LaneMap)
    requires LaneWise(i) && LowerLane(i, id, 0, m).Some?
    ensures Fits(i, m)
  {
    if Guarded(i) {
      assert GuardOf(i.guard, 0, i.width, m).Some?;
      GuardFits(i, m);
    }
  }

  lemma LaneWiseLowered(i: Instr, m: LaneMap, types: Types)
    requires LaneWise(i) && TypedInstr(i, types) && KnownInstr(i, m.Keys) && TypedMap(m, types) && i.dst.Source?
    ensures LowerLanes(i, i.dst.id, i.width, m).Some? <==> Fits(i, m)
  {
    if Fits(i, m) {
      LanesAccepted(i, i.dst.id, i.width, m, types);
    } else if LowerLanes(i, i.dst.id, i.width, m).Some? {
      EveryLaneLowered(i, i.dst.id, i.width, m, 0);
      FirstLaneFits(i, i.dst.id, m);
    }
  }

  lemma StoringLowered(i: Instr, m: LaneMap, types: Types)
    requires Storing(i) && TypedInstr(i, types) && KnownInstr(i, m.Keys) && TypedMap(m, types) && i.dst.Source?
    ensures LowerEffects(i, i.dst.id, i.width, m).Some? <==> Fits(i, m)
  {
    if Fits(i, m) {
      EffectsAccepted(i, i.dst.id, i.width, m, types);
    } else if LowerEffects(i, i.dst.id, i.width, m).Some? {
      EveryEffectLowered(i, i.dst.id, i.width, m, 0);
    }
  }

  lemma ReductionLowered(i: Instr, m: LaneMap, types: Types)
    requires i.Reduce? && TypedInstr(i, types) && KnownInstr(i, m.Keys) && TypedMap(m, types) && i.dst.Source?
    ensures LowerReduction(i, i.dst.id, i.width, m).Some? <==> Fits(i, m)
  {
    if Fits(i, m) {
      ReductionAccepted(i, i.dst.id, i.width, m, types);
    }
  }

  lemma ExtractLowered(i: Instr, m: LaneMap, types: Types)
    requires i.ExtractElement? && TypedInstr(i, types) && KnownInstr(i, m.Keys) && TypedMap(m, types) && i.dst.Source?
    ensures LowerExtract(i, i.dst.id, m).Some? <==> Fits(i, m)
  {
    LaneFound(i.vector, 0, i.width, m, types);
    ScalarFound(i.index, m, types);
  }

  /** A typed vector instruction with mapped operands is lowered exactly when it fits. */
  lemma VectorLowered(i: Instr, m: LaneMap, types: Types)
    requires i.dst.Source? && !ScalarInstr(i) && TypedInstr(i, types) && KnownInstr(i, m.Keys) && TypedMap(m, types)
    ensures LowerInstr(i, m).Some? <==> Fits(i, m)
  {
    if LaneWise(i) {
      LaneWiseLowered(i, m, types);
    } else if Storing(i) {
      StoringLowered(i, m, types);
    } else if i.Reduce? {
      ReductionLowered(i, m, types);
    } else {
      ExtractLowered(i, m, types);
    }
  }

  lemma LoweredShape(i: Instr, m: LaneMap, types: Types)
    requires i.dst.Source? && TypedInstr(i, types) && LowerInstr(i, m).Some?
    ensures var l := LowerInstr(i, m).value.lowered;
            (l.Some? <==> Defines(i) == {i.dst}) && (l.Some? ==> i.dst in types && ShapeOf(l.value) == types[i.dst])
  {
  }

  // ---------------------------------------------------------------- typed functions

  predicate PlainValue(i: Instr) {
    ScalarInstr(i) && !i.Store?
  }

  /** Arguments, phis and plain scalar values: what is mapped before any vector operation. */
  function PlainNames(f: Function): set<Name> {
    (set a | a in f.args)
    + (set l, p | l in f.blocks && p in f.blocks[l].phis :: p.dst)
    + (set l, i | l in f.blocks && i in f.blocks[l].body && PlainValue(i) :: i.dst)
  }

  predicate TypedPhi(p: Phi, types: Types) {
    && p.dst in types && types[p.dst] == p.width && (p.width.Some? ==> p.width.value > 0)
    && forall e :: e in p.incoming ==> HasShape(e.operand, p.width, types)
  }

  predicate TypedBlock(b: Block, types: Types) {
    && (forall p :: p in b.phis ==> TypedPhi(p, types))
    && (forall i :: i in b.body ==> TypedInstr(i, types))
    && match b.terminator
       case Br(_) => true
       case CondBr(c, _, _) => HasShape(c, None, types)
       case Ret(r) => HasShape(r, None, types)
  }

  predicate Typed(f: Function, types: Types) {
    && (forall a :: a in f.args ==> a in types && types[a] == None)
    && forall l :: l in f.blocks ==> TypedBlock(f.blocks[l], types)
  }

  function MappedAfter(body: seq<Instr>, mapped: set<Name>): set<Name> {
    if body == [] then mapped
    else MappedAfter(body[1..], if ScalarInstr(body[0]) then mapped else mapped + Defines(body[0]))
  }

  /** Vector operations name operands already mapped, and define each name once. */
  predicate BodyOrdered(body: seq<Instr>, mapped: set<Name>) {
    body != [] ==>
      if ScalarInstr(body[0]) then BodyOrdered(body[1..], mapped)
      else
        && KnownInstr(body[0], mapped) && Defines(body[0]) !! mapped
        && BodyOrdered(body[1..], mapped + Defines(body[0]))
  }

  predicate LayoutOrdered(f: Function, layout: seq<Label>, mapped: set<Name>)
    requires forall l :: l in layout ==> l in f.blocks
  {
    layout != [] ==>
      && BodyOrdered(f.blocks[layout[0]].body, mapped)
      && LayoutOrdered(f, layout[1..], MappedAfter(f.blocks[layout[0]].body, mapped))
  }

  function MappedByLayout(f: Function, layout: seq<Label>, mapped: set<Name>): set<Name>
    requires forall l :: l in layout ==> l in f.blocks
  {
    if layout == [] then mapped
    else MappedByLayout(f, layout[1..], MappedAfter(f.blocks[layout[0]].body, mapped))
  }

  predicate BlockKnown(b: Block, mapped: set<Name>) {
    && (forall p, e :: p in b.phis && e in p.incoming ==> Known(e.operand, mapped))
    && (forall i :: i in b.body ==> KnownInstr(i, mapped))
    && match b.terminator
       case Br(_) => true
       case CondBr(c, _, _) => Known(c, mapped)
       case Ret(r) => Known(r, mapped)
  }

  /** Every operand is defined somewhere. */
  predicate OperandsMapped(f: Function, layout: seq<Label>)
    requires forall l :: l in layout ==> l in f.blocks
  {
    forall l :: l in f.blocks ==> BlockKnown(f.blocks[l], MappedByLayout(f, layout, PlainNames(f)))
  }

  /** The map after one lowered instruction. */
  function MapAfter(i: Instr, m: LaneMap): LaneMap
    requires i.dst.Source? && LowerInstr(i, m).Some?
  {
    var l := LowerInstr(i, m).value.lowered;
    if l.Some? then m[i.dst := l.value] else m
  }

  /** Every vector instruction of the list fits, under the map the pass has built when it reaches it. */
  predicate BodyFits(body: seq<Instr>, m: LaneMap)
    requires forall i :: i in body ==> i.dst.Source?
  {
    body != [] ==>
      if ScalarInstr(body[0]) then BodyFits(body[1..], m)
      else Fits(body[0], m) && (LowerInstr(body[0], m).Some? ==> BodyFits(body[1..], MapAfter(body[0], m)))
  }

  predicate LayoutFits(f: Function, layout: seq<Label>, m: LaneMap)
    requires SourceNames(f) && forall l :: l in layout ==> l in f.blocks
  {
    layout != [] ==>
      assert layout[0] in layout;
      var body := f.blocks[layout[0]].body;
      && BodyFits(body, m)
      && (MapBody(body, m).Some? ==> LayoutFits(f, layout[1..], MapBody(body, m).value))
  }

  /** No lane index of the function resolves to a constant out of range, and every explicit vector
      length resolves to the constant lane count. */
  predicate FunctionFits(f: Function, layout: seq<Label>)
    requires SourceNames(f) && forall l :: l in layout ==> l in f.blocks
  {
    var seeded := SeedBlocks(f, layout, ArgumentMap(f.args));
    seeded.Some? ==> LayoutFits(f, layout, seeded.value)
  }

  // ---------------------------------------------------------------- building the map succeeds

  /** What plain names are mapped to. */
  function Standing(n: Name, types: Types): Lowered
    requires n in types
  {
    match types[n]
    case None => One(Use(n))
    case Some(w) => Many(LaneUses(n.id, w))
  }

  ghost predicate OnlyStanding(m: LaneMap, types: Types, plain: set<Name>) {
    forall n :: n in m ==> n in plain && n in types && m[n] == Standing(n, types)
  }

  lemma {:induction false} SeedPhisAccepted(phis: seq<Phi>, m: LaneMap, types: Types, plain: set<Name>)
    requires OnlyStanding(m, types, plain)
    requires forall p :: p in phis ==> p.dst in types && types[p.dst] == p.width && p.dst in plain
    ensures SeedPhis(phis, m).Some? && OnlyStanding(SeedPhis(phis, m).value, types, plain)
    ensures SeedPhis(phis, m).value.Keys == m.Keys + set p | p in phis :: p.dst
  {
    if phis != [] {
      assert phis[0] in phis;
      assert PhiLowered(phis[0]) == Standing(phis[0].dst, types);
      SeedPhisAccepted(phis[1..], m[phis[0].dst := PhiLowered(phis[0])], types, plain);
    }
  }

  lemma {:induction false} SeedBodyAccepted(body: seq<Instr>, m: LaneMap, types: Types, plain: set<Name>)
    requires OnlyStanding(m, types, plain)
    requires forall i :: i in body && PlainValue(i) ==> i.dst in types && types[i.dst] == None && i.dst in plain
    ensures SeedBody(body, m).Some? && OnlyStanding(SeedBody(body, m).value, types, plain)
    ensures SeedBody(body, m).value.Keys == m.Keys + set i | i in body && PlainValue(i) :: i.dst
  {
    if body != [] {
      assert body[0] in body;
      var m' := if PlainValue(body[0]) then m[body[0].dst := One(Use(body[0].dst))] else m;
      SeedBodyAccepted(body[1..], m', types, plain);
    }
  }

  function PlainOf(b: Block): set<Name> {
    (set p | p in b.phis :: p.dst) + (set i | i in b.body && PlainValue(i) :: i.dst)
  }

  lemma {:induction false} SeedBlocksAccepted(f: Function, layout: seq<Label>, m: LaneMap, types: Types)
    requires Typed(f, types) && (forall l :: l in layout ==> l in f.blocks) && OnlyStanding(m, types, PlainNames(f))
    ensures SeedBlocks(f, layout, m).Some? && OnlyStanding(SeedBlocks(f, layout, m).value, types, PlainNames(f))
    ensures forall l :: l in layout ==> PlainOf(f.blocks[l]) <= SeedBlocks(f, layout, m).value.Keys
    ensures m.Keys <= SeedBlocks(f, layout, m).value.Keys
  {
    if layout != [] {
      var l := layout[0];
      var b := f.blocks[l];
      assert TypedBlock(b, types);
      SeedPhisAccepted(b.phis, m, types, PlainNames(f));
      var m1 := SeedPhis(b.phis, m).value;
      SeedBodyAccepted(b.body, m1, types, PlainNames(f));
      var m2 := SeedBody(b.body, m1).value;
      SeedBlocksAccepted(f, layout[1..], m2, types);
      forall x | x in layout ensures PlainOf(f.blocks[x]) <= SeedBlocks(f, layout, m).value.Keys {
        if x != l { assert x in layout[1..]; }
      }
    }
  }

  /** Every vector instruction of the list is lowered under the map. */
  ghost predicate VectorsLowered(body: seq<Instr>, m: LaneMap) {
    forall i :: i in body && !ScalarInstr(i) ==> i.dst.Source? && LowerInstr(i, m).Some?
  }

  lemma LoweredStays(body: seq<Instr>, m: LaneMap, m': LaneMap)
    requires VectorsLowered(body, m) && Extends(m, m')
    ensures VectorsLowered(body, m')
  {
    forall i | i in body && !ScalarInstr(i) ensures LowerInstr(i, m').Some? {
      LowerInstrMonotone(i, m, m');
    }
  }

  lemma {:induction false} MapBodyAccepted(body: seq<Instr>, m: LaneMap, types: Types)
    requires forall i :: i in body ==> i.dst.Source? && TypedInstr(i, types)
    requires TypedMap(m, types) && BodyOrdered(body, m.Keys)
    ensures MapBody(body, m).Some? <==> BodyFits(body, m)
    ensures MapBody(body, m).Some? ==>
              var r := MapBody(body, m).value;
              TypedMap(r, types) && r.Keys == MappedAfter(body, m.Keys) && Extends(m, r) && VectorsLowered(body, r)
  {
    if body != [] {
      var i := body[0];
      assert i in body;
      if ScalarInstr(i) {
        MapBodyAccepted(body[1..], m, types);
      } else {
        VectorLowered(i, m, types);
        if Fits(i, m) {
          LoweredShape(i, m, types);
          var m' := MapAfter(i, m);
          assert m'.Keys == m.Keys + Defines(i) && Extends(m, m');
          MapBodyAccepted(body[1..], m', types);
          if MapBody(body, m).Some? {
            LowerInstrMonotone(i, m, MapBody(body, m).value);
          }
        }
      }
    }
  }

  lemma {:induction false} MapBlocksAccepted(f: Function, layout: seq<Label>, m: LaneMap, types: Types)
    requires SourceNames(f) && Typed(f, types) && (forall l :: l in layout ==> l in f.blocks)
    requires TypedMap(m, types) && LayoutOrdered(f, layout, m.Keys)
    ensures MapBlocks(f, layout, m).Some? <==> LayoutFits(f, layout, m)
    ensures MapBlocks(f, layout, m).Some? ==>
              var r := MapBlocks(f, layout, m).value;
              && TypedMap(r, types) && r.Keys == MappedByLayout(f, layout, m.Keys) && Extends(m, r)
              && forall l :: l in layout ==> VectorsLowered(f.blocks[l].body, r)
  {
    if layout != [] {
      var b := f.blocks[layout[0]];
      assert TypedBlock(b, types);
      MapBodyAccepted(b.body, m, types);
      if MapBody(b.body, m).Some? {
        var m' := MapBody(b.body, m).value;
        MapBlocksAccepted(f, layout[1..], m', types);
        if MapBlocks(f, layout, m).Some? {
          var r := MapBlocks(f, layout, m).value;
          LoweredStays(b.body, m', r);
          forall l | l in layout ensures VectorsLowered(f.blocks[l].body, r) {
            assert l == layout[0] || l in layout[1..];
          }
        }
      }
    }
  }

  // ---------------------------------------------------------------- emission succeeds

  lemma {:induction false} BodyAccepted(body: seq<Instr>, m: LaneMap, types: Types)
    requires forall i :: i in body ==> i.dst.Source? && TypedInstr(i, types) && KnownInstr(i, m.Keys)
    requires TypedMap(m, types) && VectorsLowered(body, m)
    ensures LowerBody(body, m).Some?
  {
    if body != [] {
      assert body[0] in body;
      if ScalarInstr(body[0]) {
        RewriteAccepted(body[0], m, types);
      }
      BodyAccepted(body[1..], m, types);
    }
  }

  lemma {:induction false} ScalarIncomingAccepted(f: Function, incoming: seq<Incoming>, m: LaneMap, types: Types)
    requires SourceNames(f) && TypedMap(m, types)
    requires forall e :: e in incoming ==> HasShape(e.operand, None, types) && Known(e.operand, m.Keys)
    ensures ScalarIncoming(f, incoming, m).Some?
  {
    if incoming != [] {
      assert incoming[0] in incoming;
      ScalarFound(incoming[0].operand, m, types);
      ScalarIncomingAccepted(f, incoming[1..], m, types);
    }
  }

  lemma {:induction false} LaneIncomingAccepted(f: Function, incoming: seq<Incoming>, k: nat, w: nat, m: LaneMap,
                                                types: Types)
    requires SourceNames(f) && TypedMap(m, types) && k < w
    requires forall e :: e in incoming ==> HasShape(e.operand, Some(w), types) && Known(e.operand, m.Keys)
    ensures LaneIncoming(f, incoming, k, w, m).Some?
  {
    if incoming != [] {
      assert incoming[0] in incoming;
      LaneFound(incoming[0].operand, k, w, m, types);
      LaneIncomingAccepted(f, incoming[1..], k, w, m, types);
    }
  }

  lemma {:induction false} LanePhisAccepted(f: Function, p: Phi, n: nat, m: LaneMap, types: Types)
    requires SourceNames(f) && TypedMap(m, types) && p.width.Some? && n <= p.width.value && TypedPhi(p, types)
    requires forall e :: e in p.incoming ==> Known(e.operand, m.Keys)
    ensures LanePhis(f, p, n, m).Some?
  {
    if n > 0 {
      LanePhisAccepted(f, p, n - 1, m, types);
      LaneIncomingAccepted(f, p.incoming, n - 1, p.width.value, m, types);
    }
  }

  lemma {:induction false} PhisAccepted(f: Function, phis: seq<Phi>, m: LaneMap, types: Types)
    requires SourceNames(f) && TypedMap(m, types)
    requires forall p :: p in phis ==> TypedPhi(p, types) && forall e :: e in p.incoming ==> Known(e.operand, m.Keys)
    ensures LowerPhis(f, phis, m).Some?
  {
    if phis != [] {
      var p := phis[0];
      assert p in phis;
      if p.width.None? {
        ScalarIncomingAccepted(f, p.incoming, m, types);
      } else {
        LanePhisAccepted(f, p, p.width.value, m, types);
      }
      PhisAccepted(f, phis[1..], m, types);
    }
  }

  lemma BlockAccepted(f: Function, l: Label, m: LaneMap, types: Types)
    requires SourceNames(f) && Typed(f, types) && l in f.blocks
    requires TypedMap(m, types) && BlockKnown(f.blocks[l], m.Keys) && VectorsLowered(f.blocks[l].body, m)
    ensures LowerBlock(f, l, m).Some?
  {
    var b := f.blocks[l];
    assert TypedBlock(b, types);
    PhisAccepted(f, b.phis, m, types);
    BodyAccepted(b.body, m, types);
    match b.terminator
    case Br(_) =>
    case CondBr(c, _, _) => ScalarFound(c, m, types);
    case Ret(r) => ScalarFound(r, m, types);
  }

  lemma {:induction false} BlocksAccepted(f: Function, layout: seq<Label>, m: LaneMap, types: Types)
    requires SourceNames(f) && Typed(f, types) && (forall l :: l in layout ==> l in f.blocks) && TypedMap(m, types)
    requires forall l :: l in layout ==> BlockKnown(f.blocks[l], m.Keys) && VectorsLowered(f.blocks[l].body, m)
    ensures LowerBlocks(f, layout, m).Some?
  {
    if layout != [] {
      assert layout[0] in layout;
      BlockAccepted(f, layout[0], m, types);
      assert forall l :: l in layout[1..] ==> l in layout;
      BlocksAccepted(f, layout[1..], m, types);
    }
  }

  /** Seeding never fails, and names exactly the plain values. */
  lemma SeedAccepted(f: Function, layout: seq<Label>, types: Types)
    requires WellFormed(f, layout) && Typed(f, types)
    ensures SeedBlocks(f, layout, ArgumentMap(f.args)).Some?
    ensures var m := SeedBlocks(f, layout, ArgumentMap(f.args)).value;
            m.Keys == PlainNames(f) && OnlyStanding(m, types, PlainNames(f))
  {
    var m0 := ArgumentMap(f.args);
    SeedBlocksAccepted(f, layout, m0, types);
    var m1 := SeedBlocks(f, layout, m0).value;
    forall x | x in PlainNames(f) ensures x in m1.Keys {
      if x !in f.args {
        var l :| l in f.blocks && x in PlainOf(f.blocks[l]);
        assert l in layout;
      }
    }
  }

  /** A well-typed, ordered function is scalarized exactly when no lane index resolves to a constant
      out of range and every explicit vector length resolves to the constant lane count. */
  lemma TypedIsAccepted(f: Function, layout: seq<Label>, types: Types)
    requires WellFormed(f, layout) && Typed(f, types)
    requires LayoutOrdered(f, layout, PlainNames(f)) && OperandsMapped(f, layout)
    ensures Scalarize(f, layout).Some? <==> FunctionFits(f, layout)
  {
    SeedAccepted(f, layout, types);
    var m1 := SeedBlocks(f, layout, ArgumentMap(f.args)).value;
    assert TypedMap(m1, types);
    MapBlocksAccepted(f, layout, m1, types);
    if FunctionFits(f, layout) {
      BlocksAccepted(f, layout, MapBlocks(f, layout, m1).value, types);
    }
  }

  // ---------------------------------------------------------------- literal and plain operands

  /** A constant, or a value that scalarization leaves alone. */
  predicate Direct(o: Operand, plain: set<Name>) {
    o.Use? ==> o.name in plain
  }

  predicate DirectInstr(i: Instr, plain: set<Name>) {
    && (i.InsertElement? || i.ExtractElement? ==> Direct(i.index, plain))
    && (Guarded(i) ==> Direct(i.guard.evl, plain))
  }

  /** A literal index is in range, and the vector length is the literal lane count. */
  predicate LiterallyFits(i: Instr) {
    !ScalarInstr(i) && i.width > 0 ==>
      && ((i.InsertElement? || i.ExtractElement?) && i.index.Int? ==> 0 <= i.index.n < i.width)
      && (Guarded(i) ==> i.guard.evl == Int(i.width))
  }

  /** Plain values stand for themselves, or for one value per lane. */
  ghost predicate PlainMap(m: LaneMap, plain: set<Name>) {
    forall n :: n in plain ==> n in m && (m[n].One? ==> m[n].operand.Use?)
  }

  lemma DirectFits(i: Instr, m: LaneMap, plain: set<Name>)
    requires !ScalarInstr(i) && DirectInstr(i, plain) && PlainMap(m, plain)
    ensures Fits(i, m) <==> LiterallyFits(i)
  {
  }

  lemma {:induction false} DirectBodyFits(body: seq<Instr>, m: LaneMap, types: Types, plain: set<Name>)
    requires forall i :: i in body ==> i.dst.Source? && TypedInstr(i, types) && DirectInstr(i, plain)
    requires TypedMap(m, types) && PlainMap(m, plain) && BodyOrdered(body, m.Keys)
    ensures BodyFits(body, m) <==> forall i :: i in body ==> LiterallyFits(i)
    ensures MapBody(body, m).Some? ==> PlainMap(MapBody(body, m).value, plain)
  {
    if body != [] {
      var i := body[0];
      assert i in body && forall j :: j in body <==> j == i || j in body[1..];
      if ScalarInstr(i) {
        DirectBodyFits(body[1..], m, types, plain);
      } else {
        DirectFits(i, m, plain);
        VectorLowered(i, m, types);
        if Fits(i, m) {
          LoweredShape(i, m, types);
          var m' := MapAfter(i, m);
          assert m'.Keys == m.Keys + Defines(i);
          DirectBodyFits(body[1..], m', types, plain);
        }
      }
    }
  }

  lemma {:induction false} DirectLayoutFits(f: Function, layout: seq<Label>, m: LaneMap, types: Types)
    requires SourceNames(f) && Typed(f, types) && (forall l :: l in layout ==> l in f.blocks)
    requires forall l, i :: l in f.blocks && i in f.blocks[l].body ==> DirectInstr(i, PlainNames(f))
    requires TypedMap(m, types) && PlainMap(m, PlainNames(f)) && LayoutOrdered(f, layout, m.Keys)
    ensures LayoutFits(f, layout, m) <==> forall l, i :: l in layout && i in f.blocks[l].body ==> LiterallyFits(i)
  {
    if layout != [] {
      assert layout[0] in layout && forall l :: l in layout <==> l == layout[0] || l in layout[1..];
      var body := f.blocks[layout[0]].body;
      assert TypedBlock(f.blocks[layout[0]], types);
      DirectBodyFits(body, m, types, PlainNames(f));
      MapBodyAccepted(body, m, types);
      if MapBody(body, m).Some? {
        DirectLayoutFits(f, layout[1..], MapBody(body, m).value, types);
      }
    }
  }

  /** When indices and vector lengths are literals or plain run-time values, the scalarizer accepts
      exactly the functions whose literal indices are in range and whose vector lengths are the
      literal lane counts: a run-time vector length is always rejected, a run-time index never. */
  lemma DirectIsAccepted(f: Function, layout: seq<Label>, types: Types)
    requires WellFormed(f, layout) && Typed(f, types)
    requires LayoutOrdered(f, layout, PlainNames(f)) && OperandsMapped(f, layout)
    requires forall l, i :: l in f.blocks && i in f.blocks[l].body ==> DirectInstr(i, PlainNames(f))
    ensures Scalarize(f, layout).Some? <==>
              forall l, i :: l in f.blocks && i in f.blocks[l].body ==> LiterallyFits(i)
  {
    SeedAccepted(f, layout, types);
    DirectLayoutFits(f, layout, SeedBlocks(f, layout, ArgumentMap(f.args)).value, types);
    TypedIsAccepted(f, layout, types);
  }
}
