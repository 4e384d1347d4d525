/** The masked-memory function of the scalarizer's tests satisfies every hypothesis of the
    preservation theorem, which therefore settles its behaviour for all inputs. */
module ScalarizerExample {
  import opened Wrappers
  import opened Oir
  import opened LaneLowering
  import opened LaneCorrectness
  import opened InstrCorrectness
  import opened Scalarizer
  import opened Simulation
  import opened Dominance
  import opened Acceptance
  import opened ScalarizerTheorem

  const BASE := Source(0)
  const FLAG := Source(1)
  const ENABLED := Source(2)
  const ACTIVE := Source(3)
  const LOADED := Source(4)
  const GATHERED := Source(6)
  const SUM := Source(8)

  const ENTRY := Label(0, Head)

  function Masked(): Guard {
    Guard(Use(ACTIVE), Int(3))
  }

  /** Masked load, masked store, gather, scatter and a reduction, all under one run-time mask. */
  function Step(k: nat): Instr {
    var passthrough, indices := Constant([7, 8, 9]), Constant([2, 0, 1]);
    if k == 0 then Compare(ENABLED, NE, Use(FLAG), Int(0))
    else if k == 1 then Splat(ACTIVE, 3, Use(ENABLED))
    else if k == 2 then MaskedLoad(LOADED, 3, Use(BASE), Masked(), passthrough)
    else if k == 3 then MaskedStore(Source(5), 3, Use(LOADED), Use(BASE), Masked())
    else if k == 4 then Gather(GATHERED, 3, Use(BASE), indices, Masked(), passthrough)
    else if k == 5 then Scatter(Source(7), 3, Use(GATHERED), Use(BASE), indices, Masked())
    else Reduce(SUM, 3, AddAll, Use(GATHERED), Guard(Constant([1, 1, 1]), Int(3)), Int(0))
  }

  function Body(): (r: seq<Instr>)
    ensures |r| == 7 && forall k :: 0 <= k < 7 ==> r[k] == Step(k)
  {
    seq(7, k requires 0 <= k => Step(k))
  }

  function Memory(): Function {
    Function([BASE, FLAG], ENTRY, map[ENTRY := Block([], Body(), Ret(Use(SUM)))])
  }

  function MemoryTypes(): Types {
    map[BASE := None, FLAG := None, ENABLED := None, ACTIVE := Some(3), LOADED := Some(3), GATHERED := Some(3),
        SUM := None]
  }

  lemma StepNames(k: nat)
    requires k < 7
    ensures Step(k).dst == Source(k + 2)
  {
  }

  lemma MemoryIsWellFormed()
    ensures WellFormed(Memory(), [ENTRY]) && UniqueNames(Memory())
  {
    var f := Memory();
    var b := f.blocks[ENTRY];
    assert PhiNames(b.phis) == {};
    forall i | i in b.body ensures i.dst.Source? && i.dst.id >= 2 {
      var k :| 0 <= k < |b.body| && b.body[k] == i;
      StepNames(k);
    }
    forall i, j | 0 <= i < j < |b.body| ensures b.body[i].dst != b.body[j].dst {
      StepNames(i);
      StepNames(j);
    }
  }

  /** The arguments and the earlier values are available before instruction `i`. */
  lemma MemoryBefore(i: nat)
    requires i <= 7
    ensures BASE in Before(Memory(), ENTRY, i) && FLAG in Before(Memory(), ENTRY, i)
    ensures forall j :: 0 <= j < i && Step(j).dst in Defines(Step(j)) ==> Step(j).dst in Before(Memory(), ENTRY, i)
  {
    var f := Memory();
    assert BASE in AllNames(f) && FLAG in AllNames(f);
    forall j | 0 <= j < i && Step(j).dst in Defines(Step(j)) ensures Step(j).dst in Before(f, ENTRY, i) {
      BodyDefsMember(Body()[..i], Step(j).dst);
      assert Body()[..i][j] == Step(j);
    }
  }

  lemma StepIsKnown(i: nat, available: set<Name>)
    requires i < 7 && BASE in available && FLAG in available
    requires forall j :: 0 <= j < i && Step(j).dst in Defines(Step(j)) ==> Step(j).dst in available
    ensures KnownInstr(Step(i), available)
  {
    assert i > 0 ==> Step(0).dst in available;
    assert i > 1 ==> Step(1).dst in available;
    assert i > 2 ==> Step(2).dst in available;
    assert i > 4 ==> Step(4).dst in available;
  }

  lemma StepIsDominated(i: nat)
    requires i < 7
    ensures KnownInstr(Body()[i], Before(Memory(), ENTRY, i))
  {
    MemoryBefore(i);
    StepIsKnown(i, Before(Memory(), ENTRY, i));
  }

  lemma ResultIsDominated()
    ensures TerminatorKnown(Memory().blocks[ENTRY].terminator, Before(Memory(), ENTRY, 7))
  {
    MemoryBefore(7);
    assert Step(6).dst in Before(Memory(), ENTRY, 7);
  }

  lemma MemoryIsSSA()
    ensures SSA(Memory())
  {
    var f := Memory();
    MemoryIsWellFormed();
    forall i | 0 <= i < |f.blocks[ENTRY].body| ensures KnownInstr(f.blocks[ENTRY].body[i], Before(f, ENTRY, i)) {
      StepIsDominated(i);
    }
    ResultIsDominated();
  }

  lemma StepIsTyped(k: nat, plain: set<Name>)
    requires k < 7
    ensures TypedInstr(Step(k), MemoryTypes()) && DirectInstr(Step(k), plain) && LiterallyFits(Step(k))
  {
  }

  lemma MemoryIsTyped()
    ensures Typed(Memory(), MemoryTypes())
    ensures forall i :: i in Body() ==> DirectInstr(i, PlainNames(Memory())) && LiterallyFits(i)
  {
    var f := Memory();
    forall i | i in Body() ensures TypedInstr(i, MemoryTypes()) && DirectInstr(i, PlainNames(f)) && LiterallyFits(i) {
      var k :| 0 <= k < 7 && Body()[k] == i;
      StepIsTyped(k, PlainNames(f));
    }
  }

  /** The names instruction `k` may mention: arguments, the comparison, and earlier vector values. */
  predicate Mapped(k: nat, mapped: set<Name>) {
    && {BASE, FLAG, ENABLED} <= mapped
    && (forall j :: 0 <= j < k && j < 7 && Step(j).dst in Defines(Step(j)) ==> Step(j).dst in mapped)
    && (forall j :: k <= j < 7 ==> Step(j).dst !in mapped)
  }

  lemma MappedStep(k: nat, mapped: set<Name>)
    requires 1 <= k < 7 && Mapped(k, mapped)
    ensures KnownInstr(Step(k), mapped) && Defines(Step(k)) !! mapped && Mapped(k + 1, mapped + Defines(Step(k)))
  {
    StepIsKnown(k, mapped);
    forall j | k + 1 <= j < 7 ensures Step(j).dst !in mapped + Defines(Step(k)) {
      StepNames(j);
      StepNames(k);
    }
  }

  lemma {:induction false} OrderedFrom(k: nat, mapped: set<Name>)
    requires 1 <= k <= 7 && Mapped(k, mapped)
    ensures BodyOrdered(Body()[k..], mapped) && Mapped(7, MappedAfter(Body()[k..], mapped))
    decreases 7 - k
  {
    if k < 7 {
      assert Body()[k..][0] == Step(k) && Body()[k..][1..] == Body()[k + 1..];
      MappedStep(k, mapped);
      OrderedFrom(k + 1, mapped + Defines(Step(k)));
    }
  }

  lemma StepsAreMapped(mapped: set<Name>)
    requires Mapped(7, mapped)
    ensures BlockKnown(Memory().blocks[ENTRY], mapped)
  {
    forall i | i in Body() ensures KnownInstr(i, mapped) {
      var k :| 0 <= k < 7 && Body()[k] == i;
      StepIsKnown(k, mapped);
    }
    assert Step(6).dst in mapped;
  }

  lemma StepIsPlain(k: nat)
    requires k < 7
    ensures PlainValue(Step(k)) <==> k == 0
    ensures ScalarInstr(Step(k)) <==> k == 0
  {
  }

  lemma PlainStart()
    ensures PlainNames(Memory()) == {BASE, FLAG, ENABLED}
  {
    var f := Memory();
    var plain := PlainNames(f);
    StepIsPlain(0);
    assert Body()[0] in f.blocks[ENTRY].body;
    forall i | i in Body() && PlainValue(i) ensures i.dst == ENABLED {
      var k :| 0 <= k < 7 && Body()[k] == i;
      StepIsPlain(k);
    }
  }

  lemma MappedStart()
    ensures Mapped(1, {BASE, FLAG, ENABLED})
  {
    forall j | 1 <= j < 7 ensures Step(j).dst !in {BASE, FLAG, ENABLED} {
      StepNames(j);
    }
  }

  lemma BodyIsOrdered(mapped: set<Name>)
    requires Mapped(1, mapped)
    ensures BodyOrdered(Body(), mapped) && Mapped(7, MappedAfter(Body(), mapped))
  {
    StepIsPlain(0);
    OrderedFrom(1, mapped);
  }

  lemma MemoryIsOrdered()
    ensures LayoutOrdered(Memory(), [ENTRY], PlainNames(Memory())) && OperandsMapped(Memory(), [ENTRY])
  {
    var f := Memory();
    var plain := PlainNames(f);
    PlainStart();
    MappedStart();
    BodyIsOrdered(plain);
    assert [ENTRY][1..] == [];
    StepsAreMapped(MappedAfter(Body(), plain));
  }

  lemma MemoryIsAccepted()
    ensures WellFormed(Memory(), [ENTRY]) && Scalarize(Memory(), [ENTRY]).Some?
  {
    MemoryIsWellFormed();
    MemoryIsTyped();
    MemoryIsOrdered();
    DirectIsAccepted(Memory(), [ENTRY], MemoryTypes());
  }

  // ---------------------------------------------------------------- what the function does

  lemma ThreeLanes(i: Instr, s: State, x: int, y: int, z: int)
    requires LaneWise(i)
    requires LaneMeaning(i, 0, s) == Ok(x) && LaneMeaning(i, 1, s) == Ok(y) && LaneMeaning(i, 2, s) == Ok(z)
    ensures AllLanes(i, 3, s) == Ok([x, y, z])
  {
    assert [] + [x] == [x] && [x] + [y] == [x, y] && [x, y] + [z] == [x, y, z];
    assert AllLanes(i, 0, s) == Ok([]);
    assert AllLanes(i, 1, s) == Ok([x]);
    assert AllLanes(i, 2, s) == Ok([x, y]);
  }

  /** One failing lane fails the operation. */
  lemma {:induction false} LaneFails(i: Instr, k: nat, n: nat, s: State)
    requires LaneWise(i) && k < n && LaneMeaning(i, k, s) == Fail
    requires forall j :: 0 <= j < n ==> LaneMeaning(i, j, s) != Undef
    ensures AllLanes(i, n, s) == Fail
  {
    if k < n - 1 {
      LaneFails(i, k, n - 1, s);
    } else {
      NeverUndefined(i, n - 1, s);
    }
  }

  lemma {:induction false} NeverUndefined(i: Instr, n: nat, s: State)
    requires LaneWise(i) && forall j :: 0 <= j < n ==> LaneMeaning(i, j, s) != Undef
    ensures AllLanes(i, n, s) != Undef
  {
    if n > 0 {
      NeverUndefined(i, n - 1, s);
    }
  }

  function Bit(flag: int): int {
    if flag != 0 then 1 else 0
  }

  predicate InMemory(base: int, memory: seq<int>) {
    0 <= base && base + 3 <= |memory|
  }

  /** The values after the mask is computed. */
  function MaskedEnv(base: int, flag: int): Env {
    map[BASE := Num(base), FLAG := Num(flag), ENABLED := Num(Bit(flag)),
        ACTIVE := Vec([Bit(flag), Bit(flag), Bit(flag)])]
  }

  function LoadedLanes(base: int, flag: int, memory: seq<int>): seq<int>
    requires flag != 0 ==> InMemory(base, memory)
  {
    if flag != 0 then [memory[base], memory[base + 1], memory[base + 2]] else [7, 8, 9]
  }

  function GatheredLanes(base: int, flag: int, memory: seq<int>): seq<int>
    requires flag != 0 ==> InMemory(base, memory)
  {
    if flag != 0 then [memory[base + 2], memory[base], memory[base + 1]] else [7, 8, 9]
  }

  lemma MaskRuns(base: int, flag: int, memory: seq<int>)
    ensures var s := State(map[BASE := Num(base), FLAG := Num(flag)], memory);
            RunBody(Body(), s) == RunBody(Body()[2..], State(MaskedEnv(base, flag), memory))
  {
    var s := State(map[BASE := Num(base), FLAG := Num(flag)], memory);
    var s1 := Define(s, ENABLED, Num(Bit(flag)));
    assert RunInstr(Step(0), s) == Ok(s1);
    ThreeLanes(Step(1), s1, Bit(flag), Bit(flag), Bit(flag));
    var s2 := Define(s1, ACTIVE, Vec([Bit(flag), Bit(flag), Bit(flag)]));
    assert RunInstr(Step(1), s1) == Ok(s2);
    assert s2.env == MaskedEnv(base, flag);
    assert Body()[1..][0] == Step(1) && Body()[1..][1..] == Body()[2..];
  }

  lemma LoadRuns(base: int, flag: int, memory: seq<int>)
    ensures var s := State(MaskedEnv(base, flag), memory);
            if flag != 0 && !InMemory(base, memory) then RunInstr(Step(2), s) == Fail
            else RunInstr(Step(2), s) == Ok(Define(s, LOADED, Vec(LoadedLanes(base, flag, memory))))
  {
    var s := State(MaskedEnv(base, flag), memory);
    if flag != 0 && !InMemory(base, memory) {
      LaneFails(Step(2), if base < 0 then 0 else 2, 3, s);
    } else {
      var xs := LoadedLanes(base, flag, memory);
      ThreeLanes(Step(2), s, xs[0], xs[1], xs[2]);
    }
  }

  lemma ThreeEffects(i: Instr, s: State, a: seq<int>, b: seq<int>, c: seq<int>)
    requires Storing(i)
    requires LaneEffect(i, 0, s.env, s.memory) == Ok(a) && LaneEffect(i, 1, s.env, a) == Ok(b)
    requires LaneEffect(i, 2, s.env, b) == Ok(c)
    ensures AllEffects(i, 3, s) == Ok(c)
  {
    assert AllEffects(i, 0, s) == Ok(s.memory);
    assert AllEffects(i, 1, s) == Ok(a);
    assert AllEffects(i, 2, s) == Ok(b);
  }

  lemma WriteBack(memory: seq<int>, a: int)
    requires 0 <= a < |memory|
    ensures WriteMemory(memory, a, memory[a]) == Ok(memory)
  {
    assert memory[a := memory[a]] == memory;
  }

  /** The store writes back what was loaded. */
  lemma StoreRuns(base: int, flag: int, memory: seq<int>)
    requires flag != 0 ==> InMemory(base, memory)
    ensures var s := State(MaskedEnv(base, flag)[LOADED := Vec(LoadedLanes(base, flag, memory))], memory);
            RunInstr(Step(3), s) == Ok(s)
  {
    var s := State(MaskedEnv(base, flag)[LOADED := Vec(LoadedLanes(base, flag, memory))], memory);
    if flag != 0 {
      WriteBack(memory, base);
      WriteBack(memory, base + 1);
      WriteBack(memory, base + 2);
    }
    assert LaneEffect(Step(3), 0, s.env, memory) == Ok(memory);
    assert LaneEffect(Step(3), 1, s.env, memory) == Ok(memory);
    assert LaneEffect(Step(3), 2, s.env, memory) == Ok(memory);
    ThreeEffects(Step(3), s, memory, memory, memory);
  }

  /** The values after the gather. */
  function GatheredEnv(base: int, flag: int, memory: seq<int>): Env
    requires flag != 0 ==> InMemory(base, memory)
  {
    MaskedEnv(base, flag)[LOADED := Vec(LoadedLanes(base, flag, memory))]
                         [GATHERED := Vec(GatheredLanes(base, flag, memory))]
  }

  lemma GatherRuns(base: int, flag: int, memory: seq<int>)
    requires flag != 0 ==> InMemory(base, memory)
    ensures var s := State(MaskedEnv(base, flag)[LOADED := Vec(LoadedLanes(base, flag, memory))], memory);
            RunInstr(Step(4), s) == Ok(State(GatheredEnv(base, flag, memory), memory))
  {
    var s := State(MaskedEnv(base, flag)[LOADED := Vec(LoadedLanes(base, flag, memory))], memory);
    var xs := GatheredLanes(base, flag, memory);
    ThreeLanes(Step(4), s, xs[0], xs[1], xs[2]);
  }

  lemma ScatterRuns(base: int, flag: int, memory: seq<int>)
    requires flag != 0 ==> InMemory(base, memory)
    ensures var s := State(GatheredEnv(base, flag, memory), memory);
            RunInstr(Step(5), s) == Ok(s)
  {
    var s := State(GatheredEnv(base, flag, memory), memory);
    if flag != 0 {
      WriteBack(memory, base);
      WriteBack(memory, base + 1);
      WriteBack(memory, base + 2);
    }
    assert LaneEffect(Step(5), 0, s.env, memory) == Ok(memory);
    assert LaneEffect(Step(5), 1, s.env, memory) == Ok(memory);
    assert LaneEffect(Step(5), 2, s.env, memory) == Ok(memory);
    ThreeEffects(Step(5), s, memory, memory, memory);
  }

  lemma SumRuns(base: int, flag: int, memory: seq<int>)
    requires flag != 0 ==> InMemory(base, memory)
    ensures var s := State(GatheredEnv(base, flag, memory), memory);
            var xs := GatheredLanes(base, flag, memory);
            RunInstr(Step(6), s) == Ok(Define(s, SUM, Num(xs[0] + xs[1] + xs[2])))
  {
    var s := State(GatheredEnv(base, flag, memory), memory);
    var xs := GatheredLanes(base, flag, memory);
    assert ReduceLanes(Step(6), 0, s) == Ok(0);
    assert ReduceLanes(Step(6), 1, s) == Ok(xs[0]);
    assert ReduceLanes(Step(6), 2, s) == Ok(xs[0] + xs[1]);
  }

  lemma NextStep(k: nat, s: State)
    requires k < 7
    ensures RunBody(Body()[k..], s) ==
              var r := RunInstr(Step(k), s);
              if r.Ok? then RunBody(Body()[k + 1..], r.value) else r
  {
    assert Body()[k..][0] == Step(k) && Body()[k..][1..] == Body()[k + 1..];
  }

  /** The outcome for every base, flag and memory: disabled lanes read and write nothing and give
      the passthrough values; enabled lanes fail outside the memory. */
  function Expected(base: int, flag: int, memory: seq<int>): Outcome {
    if flag == 0 then Returned(24, memory)
    else if InMemory(base, memory) then Returned(memory[base] + memory[base + 1] + memory[base + 2], memory)
    else Failed
  }

  lemma BodyRunsToSum(base: int, flag: int, memory: seq<int>)
    ensures var r := RunBody(Body(), State(map[BASE := Num(base), FLAG := Num(flag)], memory));
            if flag != 0 && !InMemory(base, memory) then r == Fail
            else
              var xs := GatheredLanes(base, flag, memory);
              r == Ok(State(GatheredEnv(base, flag, memory)[SUM := Num(xs[0] + xs[1] + xs[2])], memory))
  {
    MaskRuns(base, flag, memory);
    LoadRuns(base, flag, memory);
    NextStep(2, State(MaskedEnv(base, flag), memory));
    if flag == 0 || InMemory(base, memory) {
      var loaded := State(MaskedEnv(base, flag)[LOADED := Vec(LoadedLanes(base, flag, memory))], memory);
      var gathered := State(GatheredEnv(base, flag, memory), memory);
      StoreRuns(base, flag, memory);
      NextStep(3, loaded);
      GatherRuns(base, flag, memory);
      NextStep(4, loaded);
      ScatterRuns(base, flag, memory);
      NextStep(5, gathered);
      SumRuns(base, flag, memory);
      NextStep(6, gathered);
    }
  }

  lemma MemoryRuns(base: int, flag: int, memory: seq<int>)
    ensures Execute(Memory(), StartConfig(Memory(), [base, flag], memory), 1) == Expected(base, flag, memory)
  {
    var f := Memory();
    var c := StartConfig(f, [base, flag], memory);
    StartEnv(base, flag);
    BodyRunsToSum(base, flag, memory);
    assert StepBlock(f, c) == Expected(base, flag, memory);
  }

  lemma StartEnv(base: int, flag: int)
    ensures ArgumentEnv([BASE, FLAG], [base, flag]) == map[BASE := Num(base), FLAG := Num(flag)]
  {
    assert [BASE, FLAG][..1] == [BASE] && [base, flag][..1] == [base];
    assert [BASE][..0] == [] && [base][..0] == [];
    assert ArgumentEnv([BASE], [base]) == map[BASE := Num(base)];
  }

  /** The scalarized function has the same outcome, for every base, flag and memory. */
  lemma ScalarizedMemoryRuns(base: int, flag: int, memory: seq<int>) returns (n: nat)
    ensures Scalarize(Memory(), [ENTRY]).Some?
    ensures var g := Scalarize(Memory(), [ENTRY]).value;
            |g.args| == 2 && Execute(g, StartConfig(g, [base, flag], memory), n) == Expected(base, flag, memory)
  {
    MemoryIsAccepted();
    MemoryIsSSA();
    MemoryRuns(base, flag, memory);
    n := ScalarizationPreservesRuns(Memory(), [ENTRY], Scalarize(Memory(), [ENTRY]).value, [base, flag], memory, 1);
  }
}
