/** Scalarization preserves execution: for every certified function, every input and every number of
    steps, the scalarized function returns what the vector function returns. */
module Preservation {
  import opened Wrappers
  import opened Oir
  import opened LaneLowering
  import opened LaneCorrectness
  import opened GuardLayout
  import opened Scalarizer
  import opened Simulation

  /** The two runs are at the entry of the same source block. */
  ghost predicate Matches(f: Function, cert: Certificate, m: LaneMap, cv: Config, cs: Config)
    requires SourceNames(f)
  {
    && cv.block == cs.block && cv.block in cert
    && (cv.predecessor.None? ==> cs.predecessor.None?)
    && (cv.predecessor.Some? ==>
          cv.predecessor.value in cert && cs.predecessor == Some(LastLabel(f, cv.predecessor.value, m)))
    && cv.state.memory == cs.state.memory
    && Tracks(cv.state.env, cs.state.env, OnEdge(f, cert, cv.predecessor), m)
    && cert[cv.block] <= OnEdge(f, cert, cv.predecessor)
  }

  lemma {:induction false} GroupIsNonempty(f: Function, p: Phi, m: LaneMap)
    requires SourceNames(f) && LowerPhi(f, p, m).Some?
    ensures LowerPhi(f, p, m).value != []
  {
  }

  lemma NoPredecessor(f: Function, phis: seq<Phi>, m: LaneMap, ev: Env, es: Env)
    requires SourceNames(f) && LowerPhis(f, phis, m).Some?
    ensures phis == [] ==> LowerPhis(f, phis, m).value == []
    ensures phis != [] ==> RunPhis(phis, None, ev) == Fail && RunPhis(LowerPhis(f, phis, m).value, None, es) == Fail
  {
    if phis != [] {
      GroupIsNonempty(f, phis[0], m);
    }
  }

  lemma PhisSimulated(f: Function, layout: seq<Label>, cert: Certificate, m: LaneMap, cv: Config, cs: Config)
    requires WellFormed(f, layout) && Certifies(f, cert, m) && Matches(f, cert, m, cv, cs)
    requires LowerPhis(f, f.blocks[cv.block].phis, m).Some?
    ensures var phis := f.blocks[cv.block].phis;
            var r := RunPhis(LowerPhis(f, phis, m).value, cs.predecessor, cs.state.env);
            match RunPhis(phis, cv.predecessor, cv.state.env)
            case Ok(ev) => r.Ok? && Tracks(ev, r.value, cert[cv.block] + PhiNames(phis), m)
            case Fail => r == Fail
            case Undef => false
  {
    var phis := f.blocks[cv.block].phis;
    var ev, es := cv.state.env, cs.state.env;
    if cv.predecessor.None? {
      NoPredecessor(f, phis, m, ev, es);
      if phis == [] {
        assert cert[cv.block] + PhiNames(phis) == cert[cv.block];
        TracksSubset(ev, es, OnEdge(f, cert, None), cert[cv.block], m);
      }
    } else {
      var from := cv.predecessor.value;
      assert BlockCertified(f, cert, m, cv.block);
      assert from in f.blocks;
      PhisRead(f, phis, m, from, ev, es, OnEdge(f, cert, Some(from)));
      var vs := ReadPhis(phis, cv.predecessor, ev);
      if vs.Ok? {
        TracksSubset(ev, es, OnEdge(f, cert, cv.predecessor), cert[cv.block], m);
        PhisAssign(f, phis, m, vs.value, ev, es, cert[cv.block]);
      }
    }
  }

  /** The scalar block up to its terminator. */
  lemma StatesSimulated(f: Function, layout: seq<Label>, cert: Certificate, m: LaneMap, cv: Config, cs: Config)
    requires WellFormed(f, layout) && Certifies(f, cert, m) && Matches(f, cert, m, cv, cs)
    requires LowerBlock(f, cv.block, m).Some?
    ensures var b := f.blocks[cv.block];
            var r := RunFrom(LowerPhis(f, b.phis, m).value, [], LowerBody(b.body, m).value, cs);
            var env := RunPhis(b.phis, cv.predecessor, cv.state.env);
            if !env.Ok? then env == Fail && r == Fail
            else
              match RunBody(b.body, cv.state.(env := env.value))
              case Ok(sv) =>
                r.Ok? && r.value.memory == sv.memory && Tracks(sv.env, r.value.env, AfterBlock(b, cert[cv.block]), m)
              case Fail => r == Fail
              case Undef => true
  {
    var b := f.blocks[cv.block];
    PhisSimulated(f, layout, cert, m, cv, cs);
    assert BlockCertified(f, cert, m, cv.block);
    var env := RunPhis(b.phis, cv.predecessor, cv.state.env);
    if env.Ok? {
      var es := RunPhis(LowerPhis(f, b.phis, m).value, cs.predecessor, cs.state.env).value;
      var s := cs.state.(env := es);
      assert RunBody([], s) == Ok(s);
      BodyRuns(b.body, s, env.value, cert[cv.block] + PhiNames(b.phis), m);
      assert State(env.value, s.memory) == cv.state.(env := env.value);
    }
  }

  /** How the outcome of a vector step and of its scalar steps correspond. */
  ghost predicate SameOutcome(f: Function, cert: Certificate, m: LaneMap, ov: Outcome, os: Outcome)
    requires SourceNames(f)
  {
    match ov
    case Undefined => true
    case Running(cv) => os.Running? && Matches(f, cert, m, cv, os.config)
    case _ => os == ov
  }

  lemma TerminatorSimulated(f: Function, cert: Certificate, m: LaneMap, l: Label, sv: State, ss: State)
    requires SourceNames(f) && Certifies(f, cert, m) && l in cert
    requires LowerTerminator(f.blocks[l].terminator, m).Some?
    requires sv.memory == ss.memory && Tracks(sv.env, ss.env, AfterBlock(f.blocks[l], cert[l]), m)
    ensures SameOutcome(f, cert, m, RunTerminator(f.blocks[l].terminator, l, sv),
                        RunTerminator(LowerTerminator(f.blocks[l].terminator, m).value, LastLabel(f, l, m), ss))
  {
    var b := f.blocks[l];
    assert BlockCertified(f, cert, m, l);
    var a := AfterBlock(b, cert[l]);
    assert OnEdge(f, cert, Some(l)) == a;
    match b.terminator
    case Br(target) =>
      assert target in Successors(b.terminator);
    case CondBr(c, onTrue, onFalse) =>
      ScalarTracks(c, sv.env, ss.env, a, m);
      assert onTrue in Successors(b.terminator) && onFalse in Successors(b.terminator);
    case Ret(r) =>
      ScalarTracks(r, sv.env, ss.env, a, m);
  }

  /** One block of the vector function is a bounded, positive number of scalar blocks. */
  lemma BlockSimulated(f: Function, layout: seq<Label>, g: Function, cert: Certificate, m: LaneMap, cv: Config,
                       cs: Config)
    returns (n: nat)
    requires WellFormed(f, layout) && Certifies(f, cert, m) && Matches(f, cert, m, cv, cs)
    requires LowerBlocks(f, layout, m) == Some(g.blocks)
    ensures 1 <= n <= Cost(f, layout, m)
    ensures SameOutcome(f, cert, m, StepBlock(f, cv), Execute(g, cs, n))
  {
    var l := cv.block;
    var b := f.blocks[l];
    BlocksArePlaced(f, layout, m, l);
    var phis, items := LowerPhis(f, b.phis, m).value, LowerBody(b.body, m).value;
    var t := LowerTerminator(b.terminator, m).value;
    assert cs.block == Label(l.block, Head);
    n := RunEmitted(g, l.block, 0, Head, phis, [], items, t, cs);
    CostCovers(f, layout, m, l);
    StatesSimulated(f, layout, cert, m, cv, cs);
    var r := RunFrom(phis, [], items, cs);
    assert LastLabel(f, l, m) == Label(l.block, LastPart(0, Head, items));
    var env := RunPhis(b.phis, cv.predecessor, cv.state.env);
    if env.Ok? {
      var sv := RunBody(b.body, cv.state.(env := env.value));
      if sv.Ok? {
        TerminatorSimulated(f, cert, m, l, sv.value, r.value);
      }
    }
  }

  /** Scalar block steps that any one source block can take at most. */
  function Cost(f: Function, layout: seq<Label>, m: LaneMap): nat
    requires SourceNames(f) && forall l :: l in layout ==> l in f.blocks
  {
    if layout == [] then 0
    else
      var items := LowerBody(f.blocks[layout[0]].body, m);
      Cost(f, layout[1..], m) + (if items.Some? then 2 * |items.value| + 1 else 0)
  }

  lemma {:induction false} CostCovers(f: Function, layout: seq<Label>, m: LaneMap, l: Label)
    requires SourceNames(f) && (forall x :: x in layout ==> x in f.blocks) && l in layout
    requires LowerBody(f.blocks[l].body, m).Some?
    ensures 2 * |LowerBody(f.blocks[l].body, m).value| + 1 <= Cost(f, layout, m)
  {
    if l != layout[0] {
      CostCovers(f, layout[1..], m, l);
    }
  }

  /** `steps` source blocks of at most `cost` scalar steps each. */
  function Budget(steps: nat, cost: nat): nat {
    if steps == 0 then 0 else cost + Budget(steps - 1, cost)
  }

  /** How outcomes correspond under a relation between configurations. */
  ghost predicate Corresponds(related: (Config, Config) -> bool, ov: Outcome, os: Outcome) {
    match ov
    case Undefined => true
    case Running(cv) => os.Running? && related(cv, os.config)
    case _ => os == ov
  }

  ghost predicate StepSimulated(f: Function, g: Function, related: (Config, Config) -> bool, cost: nat,
                                cv: Config, cs: Config)
  {
    exists n: nat :: 1 <= n <= cost && Corresponds(related, StepBlock(f, cv), Execute(g, cs, n))
  }

  lemma RunUnfolds(f: Function, c: Config, steps: nat)
    requires steps > 0
    ensures var o := StepBlock(f, c);
            Execute(f, c, steps) == if o.Running? then Execute(f, o.config, steps - 1) else o
  {
  }

  /** One simulated block, then a simulated rest. */
  lemma RunsCompose(f: Function, g: Function, related: (Config, Config) -> bool, cv: Config, cs: Config, steps: nat,
                    k: nat, rest: nat)
    requires steps > 0 && StepBlock(f, cv).Running? && Execute(g, cs, k).Running?
    requires Corresponds(related, Execute(f, StepBlock(f, cv).config, steps - 1),
                         Execute(g, Execute(g, cs, k).config, rest))
    ensures Corresponds(related, Execute(f, cv, steps), Execute(g, cs, k + rest))
    ensures Execute(f, cv, steps) == Execute(f, StepBlock(f, cv).config, steps - 1)
  {
    RunUnfolds(f, cv, steps);
    ExecuteCompose(g, cs, k, rest);
  }

  lemma StepsOf(f: Function, g: Function, related: (Config, Config) -> bool, cost: nat, cv: Config, cs: Config)
    returns (k: nat)
    requires StepSimulated(f, g, related, cost, cv, cs)
    ensures 1 <= k <= cost && Corresponds(related, StepBlock(f, cv), Execute(g, cs, k))
    ensures StepBlock(f, cv).Running? ==>
              Execute(g, cs, k).Running? && related(StepBlock(f, cv).config, Execute(g, cs, k).config)
  {
    k :| 1 <= k <= cost && Corresponds(related, StepBlock(f, cv), Execute(g, cs, k));
  }

  /** If every block of `f` is simulated by some blocks of `g`, every run is. */
  lemma {:induction false} RunSimulated(f: Function, g: Function, related: (Config, Config) -> bool, cost: nat,
                                        cv: Config, cs: Config, steps: nat) returns (n: nat)
    requires forall x, y :: related(x, y) ==> StepSimulated(f, g, related, cost, x, y)
    requires related(cv, cs)
    ensures n <= Budget(steps, cost)
    ensures Corresponds(related, Execute(f, cv, steps), Execute(g, cs, n))
    ensures Execute(f, cv, steps).Running? ==> steps <= n
    decreases steps
  {
    if steps == 0 {
      n := 0;
    } else {
      var k := StepsOf(f, g, related, cost, cv, cs);
      if StepBlock(f, cv).Running? {
        var rest := RunSimulated(f, g, related, cost, StepBlock(f, cv).config, Execute(g, cs, k).config, steps - 1);
        RunsCompose(f, g, related, cv, cs, steps, k, rest);
        n := k + rest;
      } else {
        RunUnfolds(f, cv, steps);
        n := k;
      }
    }
  }

  /** Scalarization is such a simulation. */
  lemma ScalarizationSimulates(f: Function, layout: seq<Label>, g: Function, cert: Certificate, m: LaneMap,
                               cv: Config, cs: Config, steps: nat) returns (n: nat)
    requires WellFormed(f, layout) && Certifies(f, cert, m) && Matches(f, cert, m, cv, cs)
    requires LowerBlocks(f, layout, m) == Some(g.blocks)
    ensures n <= Budget(steps, Cost(f, layout, m))
    ensures SameOutcome(f, cert, m, Execute(f, cv, steps), Execute(g, cs, n))
    ensures Execute(f, cv, steps).Running? ==> steps <= n
  {
    var related := (x: Config, y: Config) => SourceNames(f) && Matches(f, cert, m, x, y);
    forall x, y | related(x, y) ensures StepSimulated(f, g, related, Cost(f, layout, m), x, y) {
      var k := BlockSimulated(f, layout, g, cert, m, x, y);
      assert Corresponds(related, StepBlock(f, x), Execute(g, y, k));
    }
    n := RunSimulated(f, g, related, Cost(f, layout, m), cv, cs, steps);
  }

  lemma {:induction false} ArgumentsTrack(args: seq<Name>, arguments: seq<int>, m: LaneMap)
    requires |args| == |arguments| && forall a :: a in args ==> a in m && m[a] == One(Use(a))
    ensures var env := ArgumentEnv(args, arguments);
            Tracks(env, env, (set a | a in args), m)
  {
    if args != [] {
      var k := |args| - 1;
      assert args == args[..k] + [args[k]];
      ArgumentsTrack(args[..k], arguments[..k], m);
      var env := ArgumentEnv(args, arguments);
      var before := ArgumentEnv(args[..k], arguments[..k]);
      forall a | a in args ensures a in env && Agrees(m[a], env[a], env) {
        if a != args[k] {
          assert a in args[..k];
          assert Agrees(m[a], before[a], before);
        }
      }
    }
  }

  lemma StartMatches(f: Function, g: Function, cert: Certificate, m: LaneMap, arguments: seq<int>, memory: seq<int>)
    requires SourceNames(f) && Certifies(f, cert, m) && |f.args| == |arguments|
    requires g.args == f.args && g.entry == f.entry
    ensures Matches(f, cert, m, StartConfig(f, arguments, memory), StartConfig(g, arguments, memory))
  {
    ArgumentsTrack(f.args, arguments, m);
  }
}
