/** What the lane map of a scalarized SSA function records, and why its operands are never
    overwritten while they are in use. */
module LaneMapFacts {
  import opened Wrappers
  import opened Oir
  import opened LaneLowering
  import opened LaneCorrectness
  import opened InstrCorrectness
  import opened Scalarizer
  import opened Simulation
  import opened Dominance

  // ---------------------------------------------------------------- growing maps

  ghost predicate Extends(m: LaneMap, m': LaneMap) {
    forall n :: n in m ==> n in m' && m'[n] == m[n]
  }

  lemma InsertExtends(m: LaneMap, n: Name, l: Lowered)
    requires Insert(m, n, l).Some?
    ensures Extends(m, Insert(m, n, l).value)
    ensures n in Insert(m, n, l).value && Insert(m, n, l).value[n] == l
  {
  }

  lemma ScalarMonotone(o: Operand, m: LaneMap, m': LaneMap)
    requires Extends(m, m')
    ensures ScalarOf(o, m).Some? ==> ScalarOf(o, m') == ScalarOf(o, m)
  {
  }

  lemma LanesMonotone(o: Operand, m: LaneMap, m': LaneMap)
    requires Extends(m, m')
    ensures LanesOf(o, m).Some? ==> LanesOf(o, m') == LanesOf(o, m)
    ensures forall k, w :: LaneOf(o, k, w, m).Some? ==> LaneOf(o, k, w, m') == LaneOf(o, k, w, m)
  {
  }

  lemma GuardMonotone(g: Guard, m: LaneMap, m': LaneMap)
    requires Extends(m, m')
    ensures forall k, w :: GuardOf(g, k, w, m).Some? ==> GuardOf(g, k, w, m') == GuardOf(g, k, w, m)
  {
    ScalarMonotone(g.evl, m, m');
    LanesMonotone(g.mask, m, m');
  }

  lemma LowerLaneMonotone(i: Instr, id: nat, k: nat, m: LaneMap, m': LaneMap)
    requires LaneWise(i) && Extends(m, m') && LowerLane(i, id, k, m).Some?
    ensures LowerLane(i, id, k, m') == LowerLane(i, id, k, m)
  {
    match i
    case Splat(_, _, x) => ScalarMonotone(x, m, m');
    case StepVector(_, _) =>
    case VectorBinary(_, _, _, x, y) => LanesMonotone(x, m, m'); LanesMonotone(y, m, m');
    case VectorCompare(_, _, _, x, y) => LanesMonotone(x, m, m'); LanesMonotone(y, m, m');
    case VectorCast(_, _, x) => LanesMonotone(x, m, m');
    case Select(_, _, x, y, z) => LanesMonotone(x, m, m'); LanesMonotone(y, m, m'); LanesMonotone(z, m, m');
    case Shuffle(_, _, _, x, y, _) => LanesMonotone(x, m, m'); LanesMonotone(y, m, m');
    case InsertElement(_, _, x, y, z) => LanesMonotone(x, m, m'); ScalarMonotone(y, m, m'); ScalarMonotone(z, m, m');
    case VPBinary(_, _, _, x, y, g, p) =>
      LanesMonotone(x, m, m'); LanesMonotone(y, m, m'); GuardMonotone(g, m, m'); LanesMonotone(p, m, m');
    case VPCompare(_, _, _, x, y, g, p) =>
      LanesMonotone(x, m, m'); LanesMonotone(y, m, m'); GuardMonotone(g, m, m'); LanesMonotone(p, m, m');
    case MaskedLoad(_, _, x, g, p) =>
      ScalarMonotone(x, m, m'); GuardMonotone(g, m, m'); LanesMonotone(p, m, m');
    case Gather(_, _, x, y, g, p) =>
      ScalarMonotone(x, m, m'); LanesMonotone(y, m, m'); GuardMonotone(g, m, m'); LanesMonotone(p, m, m');
  }

  lemma {:induction false} LowerLanesMonotone(i: Instr, id: nat, n: nat, m: LaneMap, m': LaneMap)
    requires LaneWise(i) && Extends(m, m') && LowerLanes(i, id, n, m).Some?
    ensures LowerLanes(i, id, n, m') == LowerLanes(i, id, n, m)
  {
    if n > 0 {
      LowerLanesMonotone(i, id, n - 1, m, m');
      LowerLaneMonotone(i, id, n - 1, m, m');
    }
  }

  lemma {:induction false} LowerEffectsMonotone(i: Instr, id: nat, n: nat, m: LaneMap, m': LaneMap)
    requires Storing(i) && Extends(m, m') && LowerEffects(i, id, n, m).Some?
    ensures LowerEffects(i, id, n, m') == LowerEffects(i, id, n, m)
  {
    if n > 0 {
      LowerEffectsMonotone(i, id, n - 1, m, m');
      GuardMonotone(i.guard, m, m');
      LanesMonotone(i.values, m, m');
      ScalarMonotone(if i.MaskedStore? then i.ptr else i.base, m, m');
      if i.Scatter? { LanesMonotone(i.indices', m, m'); }
    }
  }

  lemma {:induction false} LowerReductionMonotone(i: Instr, id: nat, n: nat, m: LaneMap, m': LaneMap)
    requires i.Reduce? && Extends(m, m') && LowerReduction(i, id, n, m).Some?
    ensures LowerReduction(i, id, n, m') == LowerReduction(i, id, n, m)
  {
    if n == 0 {
      ScalarMonotone(i.seed, m, m');
    } else {
      LowerReductionMonotone(i, id, n - 1, m, m');
      LanesMonotone(i.vector, m, m');
      GuardMonotone(i.guard, m, m');
    }
  }

  lemma LowerInstrMonotone(i: Instr, m: LaneMap, m': LaneMap)
    requires i.dst.Source? && !ScalarInstr(i) && Extends(m, m') && LowerInstr(i, m).Some?
    ensures LowerInstr(i, m') == LowerInstr(i, m)
  {
    var id := i.dst.id;
    if LaneWise(i) {
      LowerLanesMonotone(i, id, i.width, m, m');
    } else if Storing(i) {
      LowerEffectsMonotone(i, id, i.width, m, m');
    } else if i.Reduce? {
      LowerReductionMonotone(i, id, i.width, m, m');
    } else {
      LanesMonotone(i.vector, m, m');
      ScalarMonotone(i.index, m, m');
    }
  }

  // ---------------------------------------------------------------- operands of lowered values

  lemma LaneResultAvoids(i: Instr, own: nat, k: nat, available: set<Name>, m: LaneMap, id: nat)
    requires LaneWise(i) && KnownInstr(i, available) && Unaffected(available, m, id) && own != id
    requires LowerLane(i, own, k, m).Some?
    ensures Avoids(LowerLane(i, own, k, m).value.result, id)
  {
    var w := i.width;
    match i
    case Splat(_, _, scalar) => KnownAvoids(scalar, available, m, id);
    case Select(_, _, c, x, y) =>
      LaneAvoids(x, k, w, available, m, id);
      LaneAvoids(y, k, w, available, m, id);
    case Shuffle(_, _, sw, lhs, rhs, indices) =>
      if indices[k] < sw {
        LaneAvoids(lhs, indices[k], sw, available, m, id);
      } else {
        LaneAvoids(rhs, indices[k] - sw, sw, available, m, id);
      }
    case InsertElement(_, _, vector, element, _) =>
      KnownAvoids(element, available, m, id);
      LaneAvoids(vector, k, w, available, m, id);
    case VPBinary(_, _, _, _, _, _, p) => LaneAvoids(p, k, w, available, m, id);
    case VPCompare(_, _, _, _, _, _, p) => LaneAvoids(p, k, w, available, m, id);
    case MaskedLoad(_, _, _, _, p) => LaneAvoids(p, k, w, available, m, id);
    case Gather(_, _, _, _, _, p) => LaneAvoids(p, k, w, available, m, id);
    case _ =>
  }

  lemma {:induction false} LanesAvoid(i: Instr, own: nat, n: nat, available: set<Name>, m: LaneMap, id: nat)
    requires LaneWise(i) && KnownInstr(i, available) && Unaffected(available, m, id) && own != id
    requires LowerLanes(i, own, n, m).Some?
    ensures AvoidsAll(Many(LowerLanes(i, own, n, m).value.1), id)
  {
    if n > 0 {
      LanesAvoid(i, own, n - 1, available, m, id);
      LaneResultAvoids(i, own, n - 1, available, m, id);
      AppendAvoids(LowerLanes(i, own, n - 1, m), LowerLane(i, own, n - 1, m), id);
    }
  }

  lemma AppendAvoids(rest: Option<(seq<Item>, seq<Operand>)>, lane: Option<LaneCode>, id: nat)
    requires rest.Some? && lane.Some? && AvoidsAll(Many(rest.value.1), id) && Avoids(lane.value.result, id)
    ensures AvoidsAll(Many(AppendLane(rest, lane).value.1), id)
  {
  }

  lemma {:induction false} ReductionAvoids(i: Instr, own: nat, n: nat, available: set<Name>, m: LaneMap, id: nat)
    requires i.Reduce? && KnownInstr(i, available) && Unaffected(available, m, id) && own != id
    requires LowerReduction(i, own, n, m).Some?
    ensures Avoids(LowerReduction(i, own, n, m).value.result, id)
  {
    if n == 0 {
      KnownAvoids(i.seed, available, m, id);
    } else {
      ReductionAvoids(i, own, n - 1, available, m, id);
      LaneAvoids(i.vector, n - 1, i.width, available, m, id);
    }
  }

  lemma {:induction false} DynamicExtractAvoids(own: nat, n: nat, lanes: seq<Operand>, index: Operand, id: nat)
    requires 1 <= n <= |lanes| && own != id && forall k :: 0 <= k < |lanes| ==> Avoids(lanes[k], id)
    ensures Avoids(LowerDynamicExtract(own, n, lanes, index).result, id)
  {
    if n > 1 {
      DynamicExtractAvoids(own, n - 1, lanes, index, id);
    }
  }

  lemma ExtractAvoids(i: Instr, own: nat, available: set<Name>, m: LaneMap, id: nat)
    requires i.ExtractElement? && KnownInstr(i, available) && Unaffected(available, m, id) && own != id
    requires LowerExtract(i, own, m).Some?
    ensures Avoids(LowerExtract(i, own, m).value.result, id)
  {
    var lanes := LanesOf(i.vector, m).value;
    forall k | 0 <= k < |lanes| ensures Avoids(lanes[k], id) {
      LaneAvoids(i.vector, k, |lanes|, available, m, id);
    }
    if !ScalarOf(i.index, m).value.Int? {
      DynamicExtractAvoids(own, i.width, lanes, ScalarOf(i.index, m).value, id);
    }
  }

  /** What stands for a result mentions the instruction itself or what its operands mention. */
  lemma LoweredAvoids(i: Instr, available: set<Name>, m: LaneMap, id: nat)
    requires i.dst.Source? && i.dst.id != id && LowerInstr(i, m).Some?
    requires KnownInstr(i, available) && Unaffected(available, m, id)
    ensures LowerInstr(i, m).value.lowered.Some? ==> AvoidsAll(LowerInstr(i, m).value.lowered.value, id)
  {
    var own := i.dst.id;
    if ScalarInstr(i) {
    } else if LaneWise(i) {
      LanesAvoid(i, own, i.width, available, m, id);
    } else if Storing(i) {
    } else if i.Reduce? {
      ReductionAvoids(i, own, i.width, available, m, id);
    } else {
      ExtractAvoids(i, own, available, m, id);
    }
  }

  // ---------------------------------------------------------------- seeding

  /** Every entry mentions only its own name. */
  ghost predicate SelfOnly(m: LaneMap) {
    forall n, id :: n in m && id != n.id ==> AvoidsAll(m[n], id)
  }

  lemma InsertSelf(m: LaneMap, n: Name, l: Lowered)
    requires SelfOnly(m) && Insert(m, n, l).Some? && forall id :: id != n.id ==> AvoidsAll(l, id)
    ensures SelfOnly(Insert(m, n, l).value)
  {
  }

  lemma {:induction false} SeedPhisFacts(phis: seq<Phi>, m: LaneMap)
    requires SelfOnly(m) && SeedPhis(phis, m).Some?
    ensures Extends(m, SeedPhis(phis, m).value) && SelfOnly(SeedPhis(phis, m).value)
    ensures forall p :: p in phis ==>
              p.dst in SeedPhis(phis, m).value && SeedPhis(phis, m).value[p.dst] == PhiLowered(p)
  {
    if phis != [] {
      InsertExtends(m, phis[0].dst, PhiLowered(phis[0]));
      InsertSelf(m, phis[0].dst, PhiLowered(phis[0]));
      var m' := Insert(m, phis[0].dst, PhiLowered(phis[0])).value;
      SeedPhisFacts(phis[1..], m');
      assert phis[0].dst in m';
      forall p | p in phis ensures p.dst in SeedPhis(phis, m).value && SeedPhis(phis, m).value[p.dst] == PhiLowered(p) {
        if p != phis[0] { assert p in phis[1..]; }
      }
    }
  }

  lemma {:induction false} SeedBodyFacts(body: seq<Instr>, m: LaneMap)
    requires SelfOnly(m) && SeedBody(body, m).Some?
    ensures Extends(m, SeedBody(body, m).value) && SelfOnly(SeedBody(body, m).value)
    ensures forall i :: i in body && ScalarInstr(i) && !i.Store? ==>
              i.dst in SeedBody(body, m).value && SeedBody(body, m).value[i.dst] == One(Use(i.dst))
  {
    if body != [] {
      var m' := m;
      if ScalarInstr(body[0]) && !body[0].Store? {
        InsertExtends(m, body[0].dst, One(Use(body[0].dst)));
        InsertSelf(m, body[0].dst, One(Use(body[0].dst)));
        m' := Insert(m, body[0].dst, One(Use(body[0].dst))).value;
        assert body[0].dst in m';
      }
      SeedBodyFacts(body[1..], m');
      forall i | i in body && ScalarInstr(i) && !i.Store?
        ensures i.dst in SeedBody(body, m).value && SeedBody(body, m).value[i.dst] == One(Use(i.dst))
      {
        if i != body[0] { assert i in body[1..]; }
      }
    }
  }

  /** Phis and plain scalar values are recorded as standing for themselves. */
  ghost predicate Seeded(f: Function, layout: seq<Label>, m: LaneMap) {
    && (forall a :: a in f.args ==> a in m && m[a] == One(Use(a)))
    && forall l :: l in layout && l in f.blocks ==> BlockSeeded(f.blocks[l], m)
  }

  ghost predicate BlockSeeded(b: Block, m: LaneMap) {
    && (forall p :: p in b.phis ==> p.dst in m && m[p.dst] == PhiLowered(p))
    && (forall i :: i in b.body && ScalarInstr(i) && !i.Store? ==> i.dst in m && m[i.dst] == One(Use(i.dst)))
  }

  lemma SeededGrows(f: Function, layout: seq<Label>, m: LaneMap, m': LaneMap)
    requires Seeded(f, layout, m) && Extends(m, m')
    ensures Seeded(f, layout, m')
  {
    forall l | l in layout && l in f.blocks ensures BlockSeeded(f.blocks[l], m') {
      assert BlockSeeded(f.blocks[l], m);
    }
  }

  lemma {:induction false} SeedBlocksFacts(f: Function, layout: seq<Label>, m: LaneMap)
    requires (forall l :: l in layout ==> l in f.blocks) && SelfOnly(m) && SeedBlocks(f, layout, m).Some?
    ensures var r := SeedBlocks(f, layout, m).value;
            Extends(m, r) && SelfOnly(r) && forall l :: l in layout ==> BlockSeeded(f.blocks[l], r)
  {
    if layout != [] {
      var b := f.blocks[layout[0]];
      SeedPhisFacts(b.phis, m);
      var m1 := SeedPhis(b.phis, m).value;
      SeedBodyFacts(b.body, m1);
      var m2 := SeedBody(b.body, m1).value;
      SeedBlocksFacts(f, layout[1..], m2);
      var r := SeedBlocks(f, layout, m).value;
      forall l | l in layout ensures BlockSeeded(f.blocks[l], r) {
        if l != layout[0] { assert l in layout[1..]; }
      }
    }
  }

  // ---------------------------------------------------------------- closure under dominance

  /** The operands that stand for a value are available before its definition. */
  ghost predicate Closed(f: Function, m: LaneMap) {
    forall l, i :: l in f.blocks && Reachable(f, l) && 0 <= i < |f.blocks[l].body| && f.blocks[l].body[i].dst in m ==>
      MentionsEarlier(f, m, l, i)
  }

  ghost predicate MentionsEarlier(f: Function, m: LaneMap, l: Label, i: nat)
    requires l in f.blocks && i < |f.blocks[l].body| && f.blocks[l].body[i].dst in m
  {
    var x := f.blocks[l].body[i].dst;
    forall id: nat :: id != x.id && Source(id) !in Before(f, l, i) ==> AvoidsAll(m[x], id)
  }

  /** Entries for arguments and phis mention only themselves, for ever. */
  ghost predicate PlainEntries(f: Function, layout: seq<Label>, m: LaneMap) {
    Seeded(f, layout, m) && forall l :: l in f.blocks ==> l in layout
  }

  /** Overwriting `id` disturbs no value available at `(l, i)` unless `id` itself is available. */
  lemma AvailableUnaffected(f: Function, layout: seq<Label>, m: LaneMap, l: Label, i: nat, id: nat)
    requires WellFormed(f, layout) && UniqueNames(f) && PlainEntries(f, layout, m) && Closed(f, m)
    requires l in f.blocks && Reachable(f, l) && i <= |f.blocks[l].body| && Source(id) !in Before(f, l, i)
    ensures Unaffected(Before(f, l, i), m, id)
  {
    forall v | v in Before(f, l, i) && v in m ensures AvoidsAll(m[v], id) {
      if v !in f.args {
        var l' := OriginOf(f, l, i, v);
        OneUnaffected(f, layout, m, l, i, l', v, id);
      }
    }
  }

  lemma OneUnaffected(f: Function, layout: seq<Label>, m: LaneMap, l: Label, i: nat, l': Label, v: Name, id: nat)
    requires WellFormed(f, layout) && UniqueNames(f) && PlainEntries(f, layout, m) && Closed(f, m)
    requires l in f.blocks && i <= |f.blocks[l].body| && Source(id) !in Before(f, l, i)
    requires l' in f.blocks && Reachable(f, l') && v in BlockDefs(f.blocks[l']) && v in Before(f, l, i) && v in m
    ensures AvoidsAll(m[v], id)
  {
    var b := f.blocks[l'];
    assert BlockSeeded(b, m);
    if v in PhiNames(b.phis) {
      var p :| p in b.phis && p.dst == v;
      assert p.dst.Source?;
    } else {
      BodyDefsMember(b.body, v);
      var k :| 0 <= k < |b.body| && v in Defines(b.body[k]);
      assert b.body[k] in b.body;
      assert v == b.body[k].dst && v.Source?;
      if Source(id) in Before(f, l', k) {
        BeforeIsTransitive(f, l, i, l', k, Source(id));
      }
      assert MentionsEarlier(f, m, l', k);
    }
  }

  /** Adding one more scalarized instruction keeps the map closed. */
  lemma InsertKeepsClosed(f: Function, layout: seq<Label>, m: LaneMap, l: Label, i: nat)
    requires WellFormed(f, layout) && SSA(f) && PlainEntries(f, layout, m) && Closed(f, m)
    requires l in f.blocks && i < |f.blocks[l].body|
    requires var instr := f.blocks[l].body[i];
             instr.dst.Source? && LowerInstr(instr, m).Some? && LowerInstr(instr, m).value.lowered.Some?
             && Insert(m, instr.dst, LowerInstr(instr, m).value.lowered.value).Some?
    ensures var instr := f.blocks[l].body[i];
            Closed(f, Insert(m, instr.dst, LowerInstr(instr, m).value.lowered.value).value)
  {
    var instr := f.blocks[l].body[i];
    var lowered := LowerInstr(instr, m).value.lowered.value;
    var m' := Insert(m, instr.dst, lowered).value;
    forall l', i' | l' in f.blocks && Reachable(f, l') && 0 <= i' < |f.blocks[l'].body|
                    && f.blocks[l'].body[i'].dst in m'
      ensures MentionsEarlier(f, m', l', i')
    {
      var x := f.blocks[l'].body[i'].dst;
      if x == instr.dst {
        SameSite(f, l, i, l', i');
        forall id: nat | id != x.id && Source(id) !in Before(f, l, i) ensures AvoidsAll(lowered, id) {
          AvailableUnaffected(f, layout, m, l, i, id);
          LoweredAvoids(instr, Before(f, l, i), m, id);
        }
      } else {
        assert MentionsEarlier(f, m, l', i');
      }
    }
  }

  lemma SameSite(f: Function, l: Label, i: nat, l': Label, i': nat)
    requires UniqueNames(f) && l in f.blocks && l' in f.blocks && i < |f.blocks[l].body| && i' < |f.blocks[l'].body|
    requires f.blocks[l].body[i].dst == f.blocks[l'].body[i'].dst
    ensures l == l' && i == i'
  {
    assert f.blocks[l].body[i] in f.blocks[l].body && f.blocks[l'].body[i'] in f.blocks[l'].body;
    assert f.blocks[l].body[i].dst in SiteNames(f.blocks[l]);
    assert f.blocks[l'].body[i'].dst in SiteNames(f.blocks[l']);
  }

  /** Every vector instruction of the list is recorded. */
  ghost predicate VectorsRecorded(body: seq<Instr>, m: LaneMap) {
    forall k :: 0 <= k < |body| && !ScalarInstr(body[k]) ==> Recorded(body[k], m)
  }

  lemma RecordedGrows(i: Instr, m: LaneMap, m': LaneMap)
    requires !ScalarInstr(i) && Recorded(i, m) && Extends(m, m')
    ensures Recorded(i, m')
  {
    LowerInstrMonotone(i, m, m');
  }

  lemma {:induction false} MapBodyFacts(f: Function, layout: seq<Label>, l: Label, from: nat, m: LaneMap)
    requires WellFormed(f, layout) && SSA(f) && PlainEntries(f, layout, m) && Closed(f, m)
    requires l in f.blocks && from <= |f.blocks[l].body|
    requires forall i :: i in f.blocks[l].body[from..] ==> i.dst.Source?
    requires MapBody(f.blocks[l].body[from..], m).Some?
    ensures var r := MapBody(f.blocks[l].body[from..], m).value;
            Extends(m, r) && PlainEntries(f, layout, r) && Closed(f, r) && VectorsRecorded(f.blocks[l].body[from..], r)
    decreases |f.blocks[l].body| - from
  {
    var body := f.blocks[l].body;
    if from < |body| {
      var rest := body[from..];
      assert rest[0] == body[from] && rest[1..] == body[from + 1..];
      var m' := m;
      if !ScalarInstr(body[from]) && LowerInstr(body[from], m).value.lowered.Some? {
        var lowered := LowerInstr(body[from], m).value.lowered.value;
        m' := Insert(m, body[from].dst, lowered).value;
        InsertExtends(m, body[from].dst, lowered);
        SeededGrows(f, layout, m, m');
        InsertKeepsClosed(f, layout, m, l, from);
        LowerInstrMonotone(body[from], m, m');
      }
      MapBodyFacts(f, layout, l, from + 1, m');
      var r := MapBody(rest, m).value;
      if !ScalarInstr(body[from]) {
        assert Recorded(body[from], m');
        RecordedGrows(body[from], m', r);
      }
      forall k | 0 <= k < |rest| && !ScalarInstr(rest[k]) ensures Recorded(rest[k], r) {
        if k > 0 { assert rest[k] == rest[1..][k - 1]; }
      }
    }
  }

  lemma {:induction false} MapBlocksFacts(f: Function, whole: seq<Label>, layout: seq<Label>, m: LaneMap)
    requires WellFormed(f, whole) && SSA(f) && PlainEntries(f, whole, m) && Closed(f, m)
    requires (forall l :: l in layout ==> l in f.blocks) && MapBlocks(f, layout, m).Some?
    ensures var r := MapBlocks(f, layout, m).value;
            Extends(m, r) && PlainEntries(f, whole, r) && Closed(f, r)
            && forall l :: l in layout ==> VectorsRecorded(f.blocks[l].body, r)
  {
    if layout != [] {
      var body := f.blocks[layout[0]].body;
      assert body[0..] == body;
      MapBodyFacts(f, whole, layout[0], 0, m);
      var m' := MapBody(body, m).value;
      MapBlocksFacts(f, whole, layout[1..], m');
      var r := MapBlocks(f, layout, m).value;
      forall l | l in layout ensures VectorsRecorded(f.blocks[l].body, r) {
        if l == layout[0] {
          forall k | 0 <= k < |body| && !ScalarInstr(body[k]) ensures Recorded(body[k], r) {
            RecordedGrows(body[k], m', r);
          }
        } else {
          assert l in layout[1..];
        }
      }
    }
  }

  /** The finished lane map of an SSA function. */
  lemma BuildMapFacts(f: Function, layout: seq<Label>)
    requires WellFormed(f, layout) && SSA(f) && BuildMap(f, layout).Some?
    ensures var m := BuildMap(f, layout).value;
            && PlainEntries(f, layout, m) && Closed(f, m)
            && forall l :: l in layout ==> VectorsRecorded(f.blocks[l].body, m)
  {
    var m0 := ArgumentMap(f.args);
    SeedBlocksFacts(f, layout, m0);
    var m1 := SeedBlocks(f, layout, m0).value;
    assert Seeded(f, layout, m1);
    MapBlocksFacts(f, layout, layout, m1);
  }
}
