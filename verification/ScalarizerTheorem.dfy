/** The scalarizer is correct on every SSA function it accepts. */
module ScalarizerTheorem {
  import opened Wrappers
  import opened Oir
  import opened LaneLowering
  import opened LaneCorrectness
  import opened InstrCorrectness
  import opened Scalarizer
  import opened Simulation
  import opened Preservation
  import opened Interpreter
  import opened Dominance
  import opened LaneMapFacts

  // ---------------------------------------------------------------- the certificate

  lemma {:induction false} LowerBodyEach(body: seq<Instr>, m: LaneMap, k: nat)
    requires (forall i :: i in body ==> i.dst.Source?) && LowerBody(body, m).Some? && k < |body|
    ensures LowerInstr(body[k], m).Some?
  {
    if k > 0 {
      LowerBodyEach(body[1..], m, k - 1);
    }
  }

  lemma {:induction false} BodyCertified(f: Function, layout: seq<Label>, m: LaneMap, l: Label, i: nat)
    requires WellFormed(f, layout) && SSA(f) && PlainEntries(f, layout, m) && Closed(f, m)
    requires l in f.blocks && Reachable(f, l) && i <= |f.blocks[l].body|
    requires VectorsRecorded(f.blocks[l].body, m) && LowerBody(f.blocks[l].body, m).Some?
    ensures BodyAvailable(f.blocks[l].body[i..], Before(f, l, i), m)
    decreases |f.blocks[l].body| - i
  {
    var body := f.blocks[l].body;
    if i < |body| {
      var instr := body[i];
      assert instr in body && body[i..][0] == instr && body[i..][1..] == body[i + 1..];
      BodyCertified(f, layout, m, l, i + 1);
      BeforeStep(f, l, i);
      NotBeforeItself(f, l, i);
      AvailableUnaffected(f, layout, m, l, i, instr.dst.id);
      LowerBodyEach(body, m, i);
      assert BlockSeeded(f.blocks[l], m);
      assert Recorded(instr, m);
    }
  }

  /** A name given out by a block disturbs nothing available at the block's entry. */
  lemma EntryUnaffected(f: Function, layout: seq<Label>, m: LaneMap, l: Label, x: Name)
    requires WellFormed(f, layout) && UniqueNames(f) && PlainEntries(f, layout, m) && Closed(f, m)
    requires l in f.blocks && Reachable(f, l) && x.Source? && x in SiteNames(f.blocks[l])
    ensures Unaffected(EntrySet(f, l), m, x.id)
  {
    NotAtOwnEntry(f, l, x);
    forall v | v in EntrySet(f, l) && v in m ensures AvoidsAll(m[v], x.id) {
      if v in f.args {
        assert x !in f.args;
      } else {
        var l' := OriginOf(f, l, 0, v);
        OneEntryUnaffected(f, layout, m, l, l', v, x);
      }
    }
  }

  /** What a body value mentions came before it, so it does not mention `x`. */
  lemma OneValueUnaffected(f: Function, m: LaneMap, l: Label, l': Label, k: nat, x: Name)
    requires SourceNames(f) && UniqueNames(f) && Closed(f, m)
    requires l in f.blocks && x.Source? && x !in EntrySet(f, l)
    requires l' in f.blocks && Reachable(f, l') && k < |f.blocks[l'].body|
    requires var i := f.blocks[l'].body[k]; i.dst in Defines(i) && i.dst in EntrySet(f, l) && i.dst in m
    ensures AvoidsAll(m[f.blocks[l'].body[k].dst], x.id)
  {
    var b := f.blocks[l'];
    var v := b.body[k].dst;
    assert b.body[k] in b.body;
    BodyDefsMember(b.body, v);
    if x in Before(f, l', k) {
      DefsAreSites(b, v);
      EntryIsTransitive(f, l, l', k, v, x);
    }
    assert MentionsEarlier(f, m, l', k);
    assert x == Source(x.id);
  }

  lemma OneEntryUnaffected(f: Function, layout: seq<Label>, m: LaneMap, l: Label, l': Label, v: Name, x: Name)
    requires WellFormed(f, layout) && UniqueNames(f) && PlainEntries(f, layout, m) && Closed(f, m)
    requires l in f.blocks && x.Source? && x !in EntrySet(f, l)
    requires l' in f.blocks && Reachable(f, l') && v in BlockDefs(f.blocks[l']) && v in EntrySet(f, l) && v in m
    ensures AvoidsAll(m[v], x.id)
  {
    var b := f.blocks[l'];
    if v in PhiNames(b.phis) {
      assert BlockSeeded(b, m);
      var p :| p in b.phis && p.dst == v;
      assert p.dst.Source?;
    } else {
      BodyDefsMember(b.body, v);
      var k :| 0 <= k < |b.body| && v in Defines(b.body[k]);
      OneValueUnaffected(f, m, l, l', k, x);
    }
  }

  lemma PhiUnaffected(f: Function, layout: seq<Label>, m: LaneMap, l: Label, k: nat)
    requires WellFormed(f, layout) && UniqueNames(f) && PlainEntries(f, layout, m) && Closed(f, m)
    requires l in f.blocks && Reachable(f, l) && k < |f.blocks[l].phis|
    ensures Unaffected(EntrySet(f, l) + PhiNames(f.blocks[l].phis[..k]), m, f.blocks[l].phis[k].dst.id)
  {
    var phis := f.blocks[l].phis;
    var p := phis[k];
    assert p in phis;
    EntryUnaffected(f, layout, m, l, p.dst);
    assert BlockSeeded(f.blocks[l], m);
    forall v | v in PhiNames(phis[..k]) && v in m ensures AvoidsAll(m[v], p.dst.id) {
      var q :| q in phis[..k] && q.dst == v;
      var j :| 0 <= j < k && phis[j] == q;
      assert q in phis && q.dst.Source? && p.dst.Source? && q.dst != p.dst;
    }
  }

  lemma PhiNamesStep(phis: seq<Phi>, k: nat, a: set<Name>)
    requires k < |phis|
    ensures a + PhiNames(phis[..k + 1]) == a + PhiNames(phis[..k]) + {phis[k].dst}
  {
    assert phis[..k + 1] == phis[..k] + [phis[k]];
  }

  lemma {:induction false} PhisCertified(f: Function, layout: seq<Label>, m: LaneMap, l: Label, k: nat)
    requires WellFormed(f, layout) && UniqueNames(f) && PlainEntries(f, layout, m) && Closed(f, m)
    requires l in f.blocks && Reachable(f, l) && k <= |f.blocks[l].phis|
    ensures PhisAvailable(f.blocks[l].phis[k..], EntrySet(f, l) + PhiNames(f.blocks[l].phis[..k]), m)
    decreases |f.blocks[l].phis| - k
  {
    var phis := f.blocks[l].phis;
    if k < |phis| {
      assert phis[k] in phis && phis[k..][0] == phis[k] && phis[k..][1..] == phis[k + 1..];
      assert BlockSeeded(f.blocks[l], m);
      PhiUnaffected(f, layout, m, l, k);
      PhisCertified(f, layout, m, l, k + 1);
      PhiNamesStep(phis, k, EntrySet(f, l));
    }
  }

  lemma BlockIsCertified(f: Function, layout: seq<Label>, m: LaneMap, l: Label)
    requires WellFormed(f, layout) && SSA(f) && PlainEntries(f, layout, m) && Closed(f, m)
    requires l in f.blocks && Reachable(f, l)
    requires VectorsRecorded(f.blocks[l].body, m) && LowerBlock(f, l, m).Some?
    ensures BlockCertified(f, DominanceCertificate(f), m, l)
  {
    var b := f.blocks[l];
    var cert := DominanceCertificate(f);
    PhisCertified(f, layout, m, l, 0);
    assert b.phis[0..] == b.phis && EntrySet(f, l) + PhiNames(b.phis[..0]) == EntrySet(f, l);
    BodyCertified(f, layout, m, l, 0);
    assert b.body[0..] == b.body && BodyDefs(b.body[..0]) == {};
    assert Before(f, l, 0) == EntrySet(f, l) + PhiNames(b.phis);
    BeforeAll(f, l);
    forall s | s in Successors(b.terminator) ensures s in cert && cert[s] <= AfterBlock(b, cert[l]) {
      EdgeKeeps(f, l, s);
    }
    forall p, e | p in b.phis && e in p.incoming && e.from in cert
      ensures Known(e.operand, OnEdge(f, cert, Some(e.from)))
    {
      BeforeAll(f, e.from);
    }
  }

  /** SSA form is enough: the dominance certificate certifies the scalarized function. */
  lemma SSAIsCertified(f: Function, layout: seq<Label>)
    requires WellFormed(f, layout) && SSA(f) && Scalarize(f, layout).Some?
    ensures Certifies(f, DominanceCertificate(f), BuildMap(f, layout).value)
  {
    var m := BuildMap(f, layout).value;
    BuildMapFacts(f, layout);
    NothingAtEntry(f);
    forall l | l in DominanceCertificate(f) ensures l in f.blocks && BlockCertified(f, DominanceCertificate(f), m, l) {
      BlocksArePlaced(f, layout, m, l);
      BlockIsCertified(f, layout, m, l);
    }
  }

  // ---------------------------------------------------------------- the theorems

  /** Whatever the vector function returns, or fails with, the scalarized function returns or fails
      with too: for every SSA function the pass accepts, every input and every number of steps.
      Only runs that read a dynamic lane index out of range are undefined. */
  lemma ScalarizationPreservesRuns(f: Function, layout: seq<Label>, g: Function, arguments: seq<int>, memory: seq<int>,
                                   steps: nat) returns (n: nat)
    requires WellFormed(f, layout) && SSA(f) && Scalarize(f, layout) == Some(g) && |arguments| == |f.args|
    ensures n <= Budget(steps, Cost(f, layout, BuildMap(f, layout).value))
    ensures var o := Execute(f, StartConfig(f, arguments, memory), steps);
            var o' := Execute(g, StartConfig(g, arguments, memory), n);
            && (o.Running? ==> o'.Running? && steps <= n)
            && (Final(o) && o != Undefined ==> o' == o)
  {
    var m := BuildMap(f, layout).value;
    SSAIsCertified(f, layout);
    StartMatches(f, g, DominanceCertificate(f), m, arguments, memory);
    n := ScalarizationSimulates(f, layout, g, DominanceCertificate(f), m, StartConfig(f, arguments, memory),
                                StartConfig(g, arguments, memory), steps);
  }

  /** Conversely, a run of the scalarized function that finishes is the run of the vector function:
      scalarization neither adds results nor makes a diverging function finish. */
  lemma ScalarizedRunsAreSourceRuns(f: Function, layout: seq<Label>, g: Function, arguments: seq<int>, memory: seq<int>,
                                    n: nat)
    requires WellFormed(f, layout) && SSA(f) && Scalarize(f, layout) == Some(g) && |arguments| == |f.args|
    requires Final(Execute(g, StartConfig(g, arguments, memory), n))
    ensures var o := Execute(f, StartConfig(f, arguments, memory), n);
            o == Undefined || o == Execute(g, StartConfig(g, arguments, memory), n)
  {
    var start, start' := StartConfig(f, arguments, memory), StartConfig(g, arguments, memory);
    var k := ScalarizationPreservesRuns(f, layout, g, arguments, memory, n);
    var o := Execute(f, start, n);
    if o.Running? {
      FinalStays(g, start', n, k);
    } else if o != Undefined {
      if k <= n {
        FinalStays(g, start', k, n);
      } else {
        FinalStays(g, start', n, k);
      }
    }
  }

  /** The bounded interpreter agrees too, whenever the step limit leaves room for the guards. */
  lemma LimitedRunsAgree(f: Function, layout: seq<Label>, g: Function, arguments: seq<int>, memory: seq<int>,
                         steps: nat)
    requires WellFormed(f, layout) && SSA(f) && Scalarize(f, layout) == Some(g) && |arguments| == |f.args|
    requires steps <= STEP_LIMIT && Budget(steps, Cost(f, layout, BuildMap(f, layout).value)) <= STEP_LIMIT
    requires var o := Execute(f, StartConfig(f, arguments, memory), steps); Final(o) && o != Undefined
    ensures Limited(f, arguments, memory) == Limited(g, arguments, memory)
    ensures Limited(g, arguments, memory) == Execute(f, StartConfig(f, arguments, memory), steps)
  {
    var n := ScalarizationPreservesRuns(f, layout, g, arguments, memory, steps);
    FinalStays(f, StartConfig(f, arguments, memory), steps, STEP_LIMIT);
    FinalStays(g, StartConfig(g, arguments, memory), n, STEP_LIMIT);
  }

  /** In the other direction no room is needed: what the scalarized function returns within the
      limit, the vector function returns within it. */
  lemma LimitedScalarizedRun(f: Function, layout: seq<Label>, g: Function, arguments: seq<int>, memory: seq<int>)
    requires WellFormed(f, layout) && SSA(f) && Scalarize(f, layout) == Some(g) && |arguments| == |f.args|
    requires Limited(g, arguments, memory).Returned? && Limited(f, arguments, memory) != Undefined
    ensures Limited(f, arguments, memory) == Limited(g, arguments, memory)
  {
    ScalarizedRunsAreSourceRuns(f, layout, g, arguments, memory, STEP_LIMIT);
  }
}
