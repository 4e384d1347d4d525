/** Functions the verifier accepts and the scalarizer rejects, one family per branch that rejects:
    a vector length that is not the lane count, literal, run-time or extracted from a constant, and
    a lane index that turns out to be a constant out of range. */
module ScalarizerRejections {
  import opened Wrappers
  import opened Oir
  import opened LaneLowering
  import opened LaneCorrectness
  import opened InstrCorrectness
  import opened Scalarizer
  import opened Acceptance

  const ENTRY := Label(0, Head)

  function Single(args: seq<Name>, body: seq<Instr>, result: Operand): Function {
    Function(args, ENTRY, map[ENTRY := Block([], body, Ret(result))])
  }

  /** An instruction of a straight list. */
  predicate Sound(i: Instr, types: Types, names: set<Name>) {
    i.dst.Source? && !ScalarInstr(i) && TypedInstr(i, types) && KnownInstr(i, names)
  }

  /** A list of typed vector instructions in dependency order, and a scalar result. */
  predicate Straight(args: seq<Name>, body: seq<Instr>, result: Operand, types: Types) {
    var mapped := set a | a in args;
    && (forall a :: a in args ==> a.Source? && a in types && types[a] == None)
    && BodyOrdered(body, mapped) && HasShape(result, None, types)
    && (forall i :: i in body ==> Sound(i, types, MappedAfter(body, mapped)))
    && Known(result, MappedAfter(body, mapped))
  }

  lemma {:induction false} NothingSeeded(body: seq<Instr>, m: LaneMap)
    requires forall i :: i in body ==> !ScalarInstr(i)
    ensures SeedBody(body, m) == Some(m)
  {
    if body != [] {
      assert body[0] in body;
      NothingSeeded(body[1..], m);
    }
  }

  lemma SingleIsWellFormed(args: seq<Name>, body: seq<Instr>, result: Operand, types: Types)
    requires Straight(args, body, result, types)
    ensures var f := Single(args, body, result);
            && WellFormed(f, [ENTRY]) && Typed(f, types) && PlainNames(f) == (set a | a in args)
  {
    var f := Single(args, body, result);
    forall l, i | l in f.blocks && i in f.blocks[l].body ensures !PlainValue(i) {
      assert i in body;
    }
  }

  lemma SingleIsOrdered(args: seq<Name>, body: seq<Instr>, result: Operand, types: Types)
    requires Straight(args, body, result, types)
    ensures var f := Single(args, body, result);
            && WellFormed(f, [ENTRY]) && LayoutOrdered(f, [ENTRY], PlainNames(f)) && OperandsMapped(f, [ENTRY])
  {
    SingleIsWellFormed(args, body, result, types);
    assert [ENTRY][1..] == [];
  }

  lemma SingleFits(args: seq<Name>, body: seq<Instr>, result: Operand, types: Types)
    requires Straight(args, body, result, types)
    ensures WellFormed(Single(args, body, result), [ENTRY])
    ensures FunctionFits(Single(args, body, result), [ENTRY]) <==> BodyFits(body, ArgumentMap(args))
  {
    var f := Single(args, body, result);
    SingleIsWellFormed(args, body, result, types);
    NothingSeeded(body, ArgumentMap(args));
    assert [ENTRY][1..] == [];
    var m := ArgumentMap(args);
    assert f.blocks[ENTRY].body == body;
    assert SeedBlocks(f, [ENTRY], m) == Some(m) by { assert SeedBlocks(f, [], m) == Some(m); }
    assert MapBody(body, m).Some? ==> LayoutFits(f, [], MapBody(body, m).value);
    assert LayoutFits(f, [ENTRY], m) == BodyFits(body, m);
  }

  /** Such a function is scalarized exactly when its instructions fit. */
  lemma SingleIsAccepted(args: seq<Name>, body: seq<Instr>, result: Operand, types: Types)
    requires Straight(args, body, result, types)
    ensures WellFormed(Single(args, body, result), [ENTRY])
    ensures Scalarize(Single(args, body, result), [ENTRY]).Some? <==> BodyFits(body, ArgumentMap(args))
  {
    SingleIsWellFormed(args, body, result, types);
    SingleIsOrdered(args, body, result, types);
    SingleFits(args, body, result, types);
    TypedIsAccepted(Single(args, body, result), [ENTRY], types);
  }

  lemma ThreeAreSound(a: Instr, b: Instr, c: Instr, types: Types, names: set<Name>)
    requires Sound(a, types, names) && Sound(b, types, names) && Sound(c, types, names)
    ensures forall i :: i in [a] + ([b] + [c]) ==> Sound(i, types, names)
  {
  }

  lemma OrderedStep(i: Instr, rest: seq<Instr>, mapped: set<Name>)
    requires !ScalarInstr(i) && KnownInstr(i, mapped) && Defines(i) !! mapped
    ensures BodyOrdered([i] + rest, mapped) <==> BodyOrdered(rest, mapped + Defines(i))
    ensures MappedAfter([i] + rest, mapped) == MappedAfter(rest, mapped + Defines(i))
  {
    assert ([i] + rest)[0] == i && ([i] + rest)[1..] == rest;
  }

  lemma FitsStep(i: Instr, rest: seq<Instr>, m: LaneMap)
    requires i.dst.Source? && !ScalarInstr(i) && forall j :: j in rest ==> j.dst.Source?
    ensures BodyFits([i] + rest, m) <==>
              Fits(i, m) && (LowerInstr(i, m).Some? ==> BodyFits(rest, MapAfter(i, m)))
  {
    assert ([i] + rest)[0] == i && ([i] + rest)[1..] == rest;
  }

  lemma FitsLast(i: Instr, m: LaneMap)
    requires i.dst.Source? && !ScalarInstr(i)
    ensures BodyFits([i], m) <==> Fits(i, m)
  {
    FitsStep(i, [], m);
    assert [i] + [] == [i];
  }

  lemma OrderedLast(i: Instr, mapped: set<Name>)
    requires !ScalarInstr(i) && KnownInstr(i, mapped) && Defines(i) !! mapped
    ensures BodyOrdered([i], mapped) && MappedAfter([i], mapped) == mapped + Defines(i)
  {
    OrderedStep(i, [], mapped);
    assert [i] + [] == [i];
  }

  // ---------------------------------------------------------------- vector lengths

  const ARGUMENT := Source(0)
  const FIRST := Source(1)
  const SECOND := Source(2)
  const THIRD := Source(3)

  /** An addition of three lanes under the vector length `evl`. */
  function Added(dst: Name, evl: Operand): Instr {
    VPBinary(dst, 3, Add, Constant([1, 2, 3]), Constant([4, 5, 6]), Guard(Constant([1, 1, 1]), evl),
             Constant([1, 2, 3]))
  }

  function LaneOfThree(dst: Name, vector: Operand, index: Operand): Instr {
    ExtractElement(dst, 3, vector, index)
  }

  function LengthBody(evl: Operand): seq<Instr> {
    [Added(FIRST, evl)] + [LaneOfThree(SECOND, Use(FIRST), Int(0))]
  }

  function LengthTypes(): Types {
    map[ARGUMENT := None, FIRST := Some(3), SECOND := None]
  }

  lemma AddedIsTyped(dst: Name, evl: Operand, types: Types)
    requires dst in types && types[dst] == Some(3) && HasShape(evl, None, types)
    ensures TypedInstr(Added(dst, evl), types)
  {
  }

  lemma LaneIsTyped(dst: Name, vector: Operand, types: Types)
    requires dst in types && types[dst] == None && HasShape(vector, Some(3), types)
    ensures TypedInstr(LaneOfThree(dst, vector, Int(0)), types)
  {
  }

  lemma LengthBodyIsOrdered(evl: Operand)
    requires evl.Int? || evl == Use(ARGUMENT)
    ensures BodyOrdered(LengthBody(evl), {ARGUMENT})
    ensures MappedAfter(LengthBody(evl), {ARGUMENT}) == {ARGUMENT, FIRST, SECOND}
  {
    var last := LaneOfThree(SECOND, Use(FIRST), Int(0));
    OrderedStep(Added(FIRST, evl), [last], {ARGUMENT});
    OrderedLast(last, {ARGUMENT, FIRST});
    assert {ARGUMENT} + {FIRST} == {ARGUMENT, FIRST};
  }

  lemma LengthBodyIsStraight(evl: Operand)
    requires evl.Int? || evl == Use(ARGUMENT)
    ensures Straight([ARGUMENT], LengthBody(evl), Use(SECOND), LengthTypes())
  {
    LengthBodyIsOrdered(evl);
    assert (set a | a in [ARGUMENT]) == {ARGUMENT};
    forall i | i in LengthBody(evl)
      ensures Sound(i, LengthTypes(), {ARGUMENT, FIRST, SECOND})
    {
    }
  }

  /** The vector length must be the literal three: a run-time length is rejected, and so is every
      other literal. */
  lemma LengthMustBeLaneCount(evl: Operand)
    requires evl.Int? || evl == Use(ARGUMENT)
    ensures WellFormed(Single([ARGUMENT], LengthBody(evl), Use(SECOND)), [ENTRY])
    ensures Scalarize(Single([ARGUMENT], LengthBody(evl), Use(SECOND)), [ENTRY]).Some? <==> evl == Int(3)
  {
    LengthBodyIsStraight(evl);
    SingleIsAccepted([ARGUMENT], LengthBody(evl), Use(SECOND), LengthTypes());
    AddedFits(evl, FIRST, ArgumentMap([ARGUMENT]), LaneOfThree(SECOND, Use(FIRST), Int(0)));
  }

  /** The addition fits exactly when its length resolves to three; the literal index after it fits. */
  lemma AddedFits(evl: Operand, dst: Name, m: LaneMap, last: Instr)
    requires dst.Source? && last.ExtractElement? && last.width == 3 && last.index == Int(0) && last.dst.Source?
    ensures BodyFits([Added(dst, evl)] + [last], m) <==> ScalarOf(evl, m) == Some(Int(3))
  {
    var i := Added(dst, evl);
    FitsStep(i, [last], m);
    if LowerInstr(i, m).Some? {
      FitsLast(last, MapAfter(i, m));
    }
  }

  lemma LaneIsConstant(n: int)
    ensures var i := LaneOfThree(FIRST, Constant([n, n, n]), Int(0));
            && LowerInstr(i, map[]).Some? && MapAfter(i, map[]) == map[FIRST := One(Int(n))]
            && Fits(i, map[])
  {
  }

  function ExtractedLengthBody(n: int): seq<Instr> {
    [LaneOfThree(FIRST, Constant([n, n, n]), Int(0))]
    + ([Added(SECOND, Use(FIRST))] + [LaneOfThree(THIRD, Use(SECOND), Int(0))])
  }

  function ExtractedLengthTypes(): Types {
    map[FIRST := None, SECOND := Some(3), THIRD := None]
  }

  lemma ExtractedLengthIsOrdered(n: int)
    ensures BodyOrdered(ExtractedLengthBody(n), {})
    ensures MappedAfter(ExtractedLengthBody(n), {}) == {FIRST, SECOND, THIRD}
  {
    var last := LaneOfThree(THIRD, Use(SECOND), Int(0));
    OrderedStep(LaneOfThree(FIRST, Constant([n, n, n]), Int(0)), [Added(SECOND, Use(FIRST))] + [last], {});
    OrderedStep(Added(SECOND, Use(FIRST)), [last], {FIRST});
    OrderedLast(last, {FIRST, SECOND});
    assert {} + {FIRST} == {FIRST} && {FIRST} + {SECOND} == {FIRST, SECOND};
  }

  lemma ExtractedLengthIsStraight(n: int)
    ensures Straight([], ExtractedLengthBody(n), Use(THIRD), ExtractedLengthTypes())
  {
    var types, names := ExtractedLengthTypes(), {FIRST, SECOND, THIRD};
    ExtractedLengthIsOrdered(n);
    assert (set a: Name | a in []) == {};
    LaneIsTyped(FIRST, Constant([n, n, n]), types);
    AddedIsTyped(SECOND, Use(FIRST), types);
    LaneIsTyped(THIRD, Use(SECOND), types);
    ThreeAreSound(LaneOfThree(FIRST, Constant([n, n, n]), Int(0)), Added(SECOND, Use(FIRST)),
                  LaneOfThree(THIRD, Use(SECOND), Int(0)), types, names);
  }

  /** A vector length extracted from constant lanes has become a constant when it is looked at. */
  lemma ExtractedLengthIsRead(n: int)
    ensures WellFormed(Single([], ExtractedLengthBody(n), Use(THIRD)), [ENTRY])
    ensures Scalarize(Single([], ExtractedLengthBody(n), Use(THIRD)), [ENTRY]).Some? <==> n == 3
  {
    var last := LaneOfThree(THIRD, Use(SECOND), Int(0));
    ExtractedLengthIsStraight(n);
    SingleIsAccepted([], ExtractedLengthBody(n), Use(THIRD), ExtractedLengthTypes());
    LaneIsConstant(n);
    assert ArgumentMap([]) == map[];
    FitsStep(LaneOfThree(FIRST, Constant([n, n, n]), Int(0)), [Added(SECOND, Use(FIRST))] + [last], map[]);
    AddedFits(Use(FIRST), SECOND, map[FIRST := One(Int(n))], last);
  }

  // ---------------------------------------------------------------- lane indices

  function ExtractedIndexBody(n: int): seq<Instr> {
    [LaneOfThree(FIRST, Constant([n, n, n]), Int(0))] + [LaneOfThree(SECOND, Constant([1, 2, 3]), Use(FIRST))]
  }

  function ExtractedIndexTypes(): Types {
    map[FIRST := None, SECOND := None]
  }

  lemma ExtractedIndexIsStraight(n: int)
    ensures Straight([], ExtractedIndexBody(n), Use(SECOND), ExtractedIndexTypes())
  {
    var last := LaneOfThree(SECOND, Constant([1, 2, 3]), Use(FIRST));
    var mapped: set<Name> := set a | a in [];
    OrderedStep(LaneOfThree(FIRST, Constant([n, n, n]), Int(0)), [last], mapped);
    OrderedLast(last, mapped + {FIRST});
  }

  /** An index extracted from constant lanes is accepted exactly when it is in range. */
  lemma ExtractedIndexIsChecked(n: int)
    ensures WellFormed(Single([], ExtractedIndexBody(n), Use(SECOND)), [ENTRY])
    ensures Scalarize(Single([], ExtractedIndexBody(n), Use(SECOND)), [ENTRY]).Some? <==> 0 <= n < 3
  {
    var last := LaneOfThree(SECOND, Constant([1, 2, 3]), Use(FIRST));
    ExtractedIndexIsStraight(n);
    SingleIsAccepted([], ExtractedIndexBody(n), Use(SECOND), ExtractedIndexTypes());
    LaneIsConstant(n);
    assert ArgumentMap([]) == map[];
    FitsStep(LaneOfThree(FIRST, Constant([n, n, n]), Int(0)), [last], map[]);
    FitsLast(last, map[FIRST := One(Int(n))]);
  }
}
