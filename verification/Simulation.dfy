/** Block by block, the scalarized function simulates the vector function.  The certificate lists
    the values available at the entry of every reachable block. */
module Simulation {
  import opened Wrappers
  import opened Oir
  import opened LaneLowering
  import opened LaneCorrectness
  import opened InstrCorrectness
  import opened Scalarizer

  // ---------------------------------------------------------------- availability

  function PhiNames(phis: seq<Phi>): set<Name> {
    set p | p in phis :: p.dst
  }

  function AfterBody(body: seq<Instr>, a: set<Name>): set<Name> {
    if body == [] then a else AfterBody(body[1..], a + Defines(body[0]))
  }

  /** Values available at the end of a block, given those at its entry. */
  function AfterBlock(b: Block, a: set<Name>): set<Name> {
    AfterBody(b.body, a + PhiNames(b.phis))
  }

  type Certificate = map<Label, set<Name>>

  /** Available on the edge from `predecessor`, before the phis of the target. */
  function OnEdge(f: Function, cert: Certificate, predecessor: Option<Label>): set<Name> {
    if predecessor.None? then (set a | a in f.args)
    else if predecessor.value in f.blocks && predecessor.value in cert then
      AfterBlock(f.blocks[predecessor.value], cert[predecessor.value])
    else {}
  }

  ghost predicate BodyAvailable(body: seq<Instr>, a: set<Name>, m: LaneMap) {
    body != [] ==>
      && KnownInstr(body[0], a) && Recorded(body[0], m) && Unaffected(a, m, body[0].dst.id)
      && BodyAvailable(body[1..], a + Defines(body[0]), m)
  }

  ghost predicate PhisAvailable(phis: seq<Phi>, a: set<Name>, m: LaneMap) {
    phis != [] ==>
      && phis[0].dst.Source? && phis[0].dst in m && m[phis[0].dst] == PhiLowered(phis[0])
      && Unaffected(a, m, phis[0].dst.id)
      && PhisAvailable(phis[1..], a + {phis[0].dst}, m)
  }

  predicate TerminatorKnown(t: Terminator, a: set<Name>) {
    match t
    case Br(_) => true
    case CondBr(c, _, _) => Known(c, a)
    case Ret(r) => Known(r, a)
  }

  /** Every operand of every reachable block is available where it is read, and defining a value
      never overwrites an operand that holds another available value. */
  ghost predicate Certifies(f: Function, cert: Certificate, m: LaneMap) {
    && f.entry in cert && cert[f.entry] <= OnEdge(f, cert, None)
    && (forall a :: a in f.args ==> a in m && m[a] == One(Use(a)))
    && forall l :: l in cert ==> l in f.blocks && BlockCertified(f, cert, m, l)
  }

  ghost predicate BlockCertified(f: Function, cert: Certificate, m: LaneMap, l: Label)
    requires l in cert && l in f.blocks
  {
    var b := f.blocks[l];
    && PhisAvailable(b.phis, cert[l], m)
    && BodyAvailable(b.body, cert[l] + PhiNames(b.phis), m)
    && TerminatorKnown(b.terminator, AfterBlock(b, cert[l]))
    && (forall s :: s in Successors(b.terminator) ==> s in cert && cert[s] <= AfterBlock(b, cert[l]))
    && (forall p, e :: p in b.phis && e in p.incoming && e.from in cert ==>
          Known(e.operand, OnEdge(f, cert, Some(e.from))))
  }

  // ---------------------------------------------------------------- bodies

  lemma TracksSubset(ev: Env, es: Env, a: set<Name>, a': set<Name>, m: LaneMap)
    requires Tracks(ev, es, a, m) && a' <= a
    ensures Tracks(ev, es, a', m)
  {
  }

  lemma {:induction false} BodyRuns(body: seq<Instr>, s: State, ev: Env, a: set<Name>, m: LaneMap)
    requires forall i :: i in body ==> i.dst.Source?
    requires BodyAvailable(body, a, m) && Tracks(ev, s.env, a, m) && LowerBody(body, m).Some?
    ensures var r := RunItems(LowerBody(body, m).value, s);
            match RunBody(body, State(ev, s.memory))
            case Ok(sv) => r.Ok? && r.value.memory == sv.memory && Tracks(sv.env, r.value.env, AfterBody(body, a), m)
            case Fail => r == Fail
            case Undef => true
  {
    if body != [] {
      InstrRuns(body[0], s, ev, a, m);
      var items := LowerInstr(body[0], m).value.items;
      RunItemsAppend(items, LowerBody(body[1..], m).value, s);
      var step := RunInstr(body[0], State(ev, s.memory));
      if step.Ok? {
        BodyRuns(body[1..], RunItems(items, s).value, step.value.env, a + Defines(body[0]), m);
      }
    }
  }

  // ---------------------------------------------------------------- reading phis

  /** The scalar phis that read one value. */
  function Scalars(v: Value): (r: seq<Value>)
    ensures v.Num? ==> r == [v]
    ensures v.Vec? ==> |r| == |v.lanes| && forall k :: 0 <= k < |r| ==> r[k] == Num(v.lanes[k])
  {
    match v
    case Num(_) => [v]
    case Vec(lanes) => seq(|lanes|, k requires 0 <= k < |lanes| => Num(lanes[k]))
  }

  function AllScalars(vs: seq<Value>): seq<Value> {
    if vs == [] then [] else Scalars(vs[0]) + AllScalars(vs[1..])
  }

  predicate Shaped(p: Phi, v: Value) {
    if p.width.None? then v.Num? else v.Vec? && |v.lanes| == p.width.value
  }

  predicate AllShaped(phis: seq<Phi>, vs: seq<Value>) {
    |phis| == |vs| && forall k :: 0 <= k < |phis| ==> Shaped(phis[k], vs[k])
  }

  lemma {:induction false} ReadAppend(a: seq<Phi>, b: seq<Phi>, predecessor: Option<Label>, env: Env)
    ensures var x, y := ReadPhis(a, predecessor, env), ReadPhis(b, predecessor, env);
            ReadPhis(a + b, predecessor, env) ==
              if !x.Ok? then x else if !y.Ok? then y else Ok(x.value + y.value)
  {
    if a == [] {
      assert a + b == b;
      var y := ReadPhis(b, predecessor, env);
      if y.Ok? { assert [] + y.value == y.value; }
    } else {
      assert (a + b)[0] == a[0] && (a + b)[1..] == a[1..] + b;
      ReadAppend(a[1..], b, predecessor, env);
      var o := IncomingFrom(a[0].incoming, predecessor);
      if o.Ok? {
        var v := Eval(o.value, env);
        var xs, ys := ReadPhis(a[1..], predecessor, env), ReadPhis(b, predecessor, env);
        if v.Ok? && xs.Ok? && ys.Ok? {
          assert [v.value] + (xs.value + ys.value) == ([v.value] + xs.value) + ys.value;
        }
      }
    }
  }

  /** Edges keep their order, and different source predecessors stay different. */
  predicate EdgesFrom(f: Function, incoming: seq<Incoming>) {
    (forall l :: l in f.blocks ==> l.part.Head?) && (forall e :: e in incoming ==> e.from in f.blocks)
  }

  lemma {:induction false} ScalarEdge(f: Function, incoming: seq<Incoming>, m: LaneMap, p: Label)
    requires SourceNames(f) && EdgesFrom(f, incoming) && p in f.blocks && ScalarIncoming(f, incoming, m).Some?
    ensures var o := IncomingFrom(incoming, Some(p));
            var o' := IncomingFrom(ScalarIncoming(f, incoming, m).value, Some(LastLabel(f, p, m)));
            if o.Ok? then ScalarOf(o.value, m).Some? && o' == Ok(ScalarOf(o.value, m).value)
            else o == Fail && o' == Fail
  {
    if incoming != [] {
      LastLabelBlock(f, p, m);
      LastLabelBlock(f, incoming[0].from, m);
      assert incoming[0] in incoming;
      var rest := ScalarIncoming(f, incoming[1..], m).value;
      var all := ScalarIncoming(f, incoming, m).value;
      assert all[1..] == rest;
      assert forall e :: e in incoming[1..] ==> e in incoming;
      ScalarEdge(f, incoming[1..], m, p);
    }
  }

  lemma {:induction false} LaneEdge(f: Function, incoming: seq<Incoming>, k: nat, width: nat, m: LaneMap, p: Label)
    requires SourceNames(f) && EdgesFrom(f, incoming) && p in f.blocks && LaneIncoming(f, incoming, k, width, m).Some?
    ensures var o := IncomingFrom(incoming, Some(p));
            var o' := IncomingFrom(LaneIncoming(f, incoming, k, width, m).value, Some(LastLabel(f, p, m)));
            if o.Ok? then LaneOf(o.value, k, width, m).Some? && o' == Ok(LaneOf(o.value, k, width, m).value)
            else o == Fail && o' == Fail
  {
    if incoming != [] {
      LastLabelBlock(f, p, m);
      LastLabelBlock(f, incoming[0].from, m);
      assert incoming[0] in incoming;
      var rest := LaneIncoming(f, incoming[1..], k, width, m).value;
      var all := LaneIncoming(f, incoming, k, width, m).value;
      assert all[1..] == rest;
      assert forall e :: e in incoming[1..] ==> e in incoming;
      LaneEdge(f, incoming[1..], k, width, m, p);
    }
  }

  lemma {:induction false} IncomingIsListed(incoming: seq<Incoming>, p: Label)
    ensures var o := IncomingFrom(incoming, Some(p));
            o != Undef && (o.Ok? ==> Incoming(p, o.value) in incoming)
  {
    if incoming != [] {
      if incoming[0].from == p {
        assert incoming[0] == Incoming(p, incoming[0].operand);
      } else {
        IncomingIsListed(incoming[1..], p);
        var o := IncomingFrom(incoming[1..], Some(p));
        assert o.Ok? ==> Incoming(p, o.value) in incoming[1..];
      }
    }
  }

  lemma ReadOne(p: Phi, predecessor: Option<Label>, env: Env)
    ensures ReadPhis([p], predecessor, env) ==
              var o :- IncomingFrom(p.incoming, predecessor);
              var v :- Eval(o, env);
              Ok([v])
  {
    assert [p][1..] == [];
    var o := IncomingFrom(p.incoming, predecessor);
    if o.Ok? {
      var v := Eval(o.value, env);
      if v.Ok? { assert [v.value] + [] == [v.value]; }
    }
  }

  /** Without an edge from the predecessor no lane phi can be read. */
  lemma NoLaneEdge(f: Function, p: Phi, n: nat, m: LaneMap, from: Label, es: Env)
    requires SourceNames(f) && p.width.Some? && EdgesFrom(f, p.incoming) && from in f.blocks
    requires 0 < n && LanePhis(f, p, n, m).Some? && !IncomingFrom(p.incoming, Some(from)).Ok?
    ensures ReadPhis(LanePhis(f, p, n, m).value, Some(LastLabel(f, from, m)), es) == Fail
    decreases n
  {
    var rest := LanePhis(f, p, n - 1, m).value;
    var incoming := LaneIncoming(f, p.incoming, n - 1, p.width.value, m).value;
    var last := Phi(Lane(p.dst.id, n - 1), None, incoming);
    var predecessor := Some(LastLabel(f, from, m));
    LaneEdge(f, p.incoming, n - 1, p.width.value, m, from);
    ReadAppend(rest, [last], predecessor, es);
    ReadOne(last, predecessor, es);
    if n > 1 {
      NoLaneEdge(f, p, n - 1, m, from, es);
    } else {
      assert rest == [];
    }
  }

  /** The phi of lane `k` reads lane `k`. */
  lemma LanePhiReads(f: Function, p: Phi, k: nat, incoming: seq<Incoming>, m: LaneMap, from: Label, ev: Env, es: Env,
                     a: set<Name>, o: Operand, v: Value)
    requires SourceNames(f) && p.width.Some? && EdgesFrom(f, p.incoming) && from in f.blocks
    requires LaneIncoming(f, p.incoming, k, p.width.value, m) == Some(incoming) && Tracks(ev, es, a, m) && Known(o, a)
    requires IncomingFrom(p.incoming, Some(from)) == Ok(o) && Eval(o, ev) == Ok(v) && Shaped(p, v) && k < |v.lanes|
    ensures ReadPhis([Phi(Lane(p.dst.id, k), None, incoming)], Some(LastLabel(f, from, m)), es) == Ok([Num(v.lanes[k])])
  {
    LaneEdge(f, p.incoming, k, p.width.value, m, from);
    LaneTracks(o, k, p.width.value, ev, es, a, m);
    NumberRead(LaneOf(o, k, p.width.value, m).value, es, v.lanes[k]);
    ReadOne(Phi(Lane(p.dst.id, k), None, incoming), Some(LastLabel(f, from, m)), es);
  }

  /** The first `n` lane phis of a vector phi read the first `n` lanes. */
  lemma {:induction false} LanePhisRead(f: Function, p: Phi, n: nat, m: LaneMap, from: Label, ev: Env, es: Env,
                                        a: set<Name>, o: Operand, v: Value)
    requires SourceNames(f) && p.width.Some? && EdgesFrom(f, p.incoming) && from in f.blocks
    requires LanePhis(f, p, n, m).Some? && Tracks(ev, es, a, m) && Known(o, a)
    requires IncomingFrom(p.incoming, Some(from)) == Ok(o) && Eval(o, ev) == Ok(v)
    requires Shaped(p, v) && n <= |v.lanes|
    ensures ReadPhis(LanePhis(f, p, n, m).value, Some(LastLabel(f, from, m)), es) == Ok(Scalars(v)[..n])
  {
    if n > 0 {
      LanePhisRead(f, p, n - 1, m, from, ev, es, a, o, v);
      var rest := LanePhis(f, p, n - 1, m).value;
      var incoming := LaneIncoming(f, p.incoming, n - 1, p.width.value, m).value;
      LanePhiReads(f, p, n - 1, incoming, m, from, ev, es, a, o, v);
      ReadSnoc(rest, Phi(Lane(p.dst.id, n - 1), None, incoming), Some(LastLabel(f, from, m)), es, Scalars(v), n - 1);
    }
  }

  lemma ReadSnoc(phis: seq<Phi>, last: Phi, predecessor: Option<Label>, env: Env, vs: seq<Value>, k: nat)
    requires k < |vs| && ReadPhis(phis, predecessor, env) == Ok(vs[..k])
    requires ReadPhis([last], predecessor, env) == Ok([vs[k]])
    ensures ReadPhis(phis + [last], predecessor, env) == Ok(vs[..k + 1])
  {
    ReadAppend(phis, [last], predecessor, env);
    assert vs[..k + 1] == vs[..k] + [vs[k]];
  }

  lemma NumberRead(o: Operand, e: Env, x: int)
    requires EvalNum(o, e) == Ok(x)
    ensures Eval(o, e) == Ok(Num(x))
  {
  }

  /** The value on the edge has the lanes the lane map promises. */
  lemma EdgeShape(f: Function, p: Phi, m: LaneMap, from: Label, ev: Env, es: Env, a: set<Name>, o: Operand)
    requires SourceNames(f) && p.width.Some? && p.width.value > 0 && EdgesFrom(f, p.incoming) && from in f.blocks
    requires LanePhis(f, p, p.width.value, m).Some? && Tracks(ev, es, a, m) && Known(o, a)
    requires IncomingFrom(p.incoming, Some(from)) == Ok(o)
    ensures Eval(o, ev).Ok? && Shaped(p, Eval(o, ev).value)
  {
    var w := p.width.value;
    LaneEdge(f, p.incoming, w - 1, w, m, from);
    LaneTracks(o, w - 1, w, ev, es, a, m);
  }

  /** One source phi and its scalar phis read the same value, or both find no edge. */
  lemma GroupReads(f: Function, p: Phi, m: LaneMap, from: Label, ev: Env, es: Env, a: set<Name>)
    requires SourceNames(f) && EdgesFrom(f, p.incoming) && from in f.blocks
    requires LowerPhi(f, p, m).Some? && Tracks(ev, es, a, m)
    requires var o := IncomingFrom(p.incoming, Some(from)); o.Ok? ==> Known(o.value, a)
    ensures var o := IncomingFrom(p.incoming, Some(from));
            var r := ReadPhis(LowerPhi(f, p, m).value, Some(LastLabel(f, from, m)), es);
            if !o.Ok? then r == Fail
            else
              var v := Eval(o.value, ev);
              v.Ok? && Shaped(p, v.value) && r == Ok(Scalars(v.value))
  {
    if p.width.None? {
      var incoming := ScalarIncoming(f, p.incoming, m).value;
      ScalarEdge(f, p.incoming, m, from);
      ReadOne(Phi(p.dst, None, incoming), Some(LastLabel(f, from, m)), es);
      var o := IncomingFrom(p.incoming, Some(from));
      if o.Ok? {
        ScalarTracks(o.value, ev, es, a, m);
      }
    } else {
      var o := IncomingFrom(p.incoming, Some(from));
      if o.Ok? {
        EdgeShape(f, p, m, from, ev, es, a, o.value);
        var v := Eval(o.value, ev).value;
        LanePhisRead(f, p, p.width.value, m, from, ev, es, a, o.value, v);
        assert Scalars(v)[..p.width.value] == Scalars(v);
      } else {
        NoLaneEdge(f, p, p.width.value, m, from, es);
      }
    }
  }

  lemma {:induction false} PhisRead(f: Function, phis: seq<Phi>, m: LaneMap, from: Label, ev: Env, es: Env,
                                    a: set<Name>)
    requires SourceNames(f) && from in f.blocks && (forall p :: p in phis ==> EdgesFrom(f, p.incoming))
    requires LowerPhis(f, phis, m).Some? && Tracks(ev, es, a, m)
    requires forall p, e :: p in phis && e in p.incoming && e.from == from ==> Known(e.operand, a)
    ensures var r := ReadPhis(LowerPhis(f, phis, m).value, Some(LastLabel(f, from, m)), es);
            match ReadPhis(phis, Some(from), ev)
            case Ok(vs) => AllShaped(phis, vs) && r == Ok(AllScalars(vs))
            case Fail => r == Fail
            case Undef => false
  {
    if phis != [] {
      var p := phis[0];
      assert p in phis;
      IncomingIsListed(p.incoming, from);
      GroupReads(f, p, m, from, ev, es, a);
      assert forall q :: q in phis[1..] ==> q in phis;
      PhisRead(f, phis[1..], m, from, ev, es, a);
      assert LowerPhis(f, phis, m).value == LowerPhi(f, p, m).value + LowerPhis(f, phis[1..], m).value;
      ReadAppend(LowerPhi(f, p, m).value, LowerPhis(f, phis[1..], m).value, Some(LastLabel(f, from, m)), es);
    }
  }

  // ---------------------------------------------------------------- assigning phis

  lemma {:induction false} AssignAppend(a: seq<Phi>, b: seq<Phi>, xs: seq<Value>, ys: seq<Value>, env: Env)
    requires |a| == |xs| && |b| == |ys|
    ensures AssignPhis(a + b, xs + ys, env) == AssignPhis(b, ys, AssignPhis(a, xs, env))
  {
    if a == [] {
      assert a + b == b && xs + ys == ys;
    } else {
      assert (a + b)[1..] == a[1..] + b && (xs + ys)[1..] == xs[1..] + ys;
      AssignAppend(a[1..], b, xs[1..], ys, env[a[0].dst := xs[0]]);
    }
  }

  lemma AssignOne(p: Phi, v: Value, env: Env)
    ensures AssignPhis([p], [v], env) == env[p.dst := v]
  {
    assert [p][1..] == [] && [v][1..] == [];
  }

  lemma AssignSnoc(phis: seq<Phi>, last: Phi, xs: seq<Value>, x: Value, env: Env)
    requires |phis| == |xs|
    ensures AssignPhis(phis + [last], xs + [x], env) == AssignPhis(phis, xs, env)[last.dst := x]
  {
    AssignAppend(phis, [last], xs, [x], env);
    AssignOne(last, x, AssignPhis(phis, xs, env));
  }

  lemma {:induction false} LanePhisAssign(f: Function, p: Phi, n: nat, m: LaneMap, lanes: seq<int>, es: Env)
    requires SourceNames(f) && p.width.Some? && LanePhis(f, p, n, m).Some? && n <= |lanes|
    ensures var r := AssignPhis(LanePhis(f, p, n, m).value, Scalars(Vec(lanes))[..n], es);
            Frame(es, r, p.dst.id) && forall k :: 0 <= k < n ==> EvalNum(Use(Lane(p.dst.id, k)), r) == Ok(lanes[k])
  {
    if n > 0 {
      LanePhisAssign(f, p, n - 1, m, lanes, es);
      var rest := LanePhis(f, p, n - 1, m).value;
      var last := LanePhis(f, p, n, m).value[n - 1];
      var vs := Scalars(Vec(lanes));
      assert vs[..n] == vs[..n - 1] + [vs[n - 1]];
      AssignSnoc(rest, last, vs[..n - 1], vs[n - 1], es);
      NextLane(p.dst.id, n, lanes, es, AssignPhis(rest, vs[..n - 1], es));
    }
  }

  /** Defining one more lane keeps the earlier ones. */
  lemma NextLane(id: nat, n: nat, lanes: seq<int>, es: Env, mid: Env)
    requires 0 < n <= |lanes| && Frame(es, mid, id)
    requires forall k :: 0 <= k < n - 1 ==> EvalNum(Use(Lane(id, k)), mid) == Ok(lanes[k])
    ensures var r := mid[Lane(id, n - 1) := Num(lanes[n - 1])];
            Frame(es, r, id) && forall k :: 0 <= k < n ==> EvalNum(Use(Lane(id, k)), r) == Ok(lanes[k])
  {
    FrameUpdate(es, mid, Lane(id, n - 1), Num(lanes[n - 1]));
  }

  lemma FrameUpdate(e: Env, e': Env, dst: Name, v: Value)
    requires Frame(e, e', dst.id)
    ensures Frame(e, e'[dst := v], dst.id)
  {
    forall n: Name | n.id != dst.id ensures SameAt(e, e'[dst := v], n) {
      assert SameAt(e, e', n);
    }
  }

  /** Assigning one group makes the phi's value available. */
  lemma GroupAssigns(f: Function, p: Phi, m: LaneMap, v: Value, ev: Env, es: Env, a: set<Name>)
    requires SourceNames(f) && LowerPhi(f, p, m).Some? && Shaped(p, v) && p.dst.Source?
    requires p.dst in m && m[p.dst] == PhiLowered(p) && Unaffected(a, m, p.dst.id) && Tracks(ev, es, a, m)
    ensures |LowerPhi(f, p, m).value| == |Scalars(v)|
    ensures Tracks(ev[p.dst := v], AssignPhis(LowerPhi(f, p, m).value, Scalars(v), es), a + {p.dst}, m)
  {
    if p.width.None? {
      AssignOne(LowerPhi(f, p, m).value[0], v, es);
      TracksDefine(ev, es, es[p.dst := v], a, m, p.dst, v);
    } else {
      LanePhisAssign(f, p, p.width.value, m, v.lanes, es);
      assert Scalars(v)[..|v.lanes|] == Scalars(v);
      TracksDefine(ev, es, AssignPhis(LowerPhi(f, p, m).value, Scalars(v), es), a, m, p.dst, v);
    }
  }

  lemma {:induction false} PhisAssign(f: Function, phis: seq<Phi>, m: LaneMap, vs: seq<Value>, ev: Env, es: Env,
                                      a: set<Name>)
    requires SourceNames(f) && LowerPhis(f, phis, m).Some? && AllShaped(phis, vs)
    requires PhisAvailable(phis, a, m) && Tracks(ev, es, a, m)
    ensures |LowerPhis(f, phis, m).value| == |AllScalars(vs)|
    ensures Tracks(AssignPhis(phis, vs, ev), AssignPhis(LowerPhis(f, phis, m).value, AllScalars(vs), es),
                   a + PhiNames(phis), m)
  {
    if phis == [] {
      assert a + PhiNames(phis) == a;
    } else {
      var p, v := phis[0], vs[0];
      GroupAssigns(f, p, m, v, ev, es, a);
      var group := LowerPhi(f, p, m).value;
      var es' := AssignPhis(group, Scalars(v), es);
      PhisAssign(f, phis[1..], m, vs[1..], ev[p.dst := v], es', a + {p.dst});
      AssignAppend(group, LowerPhis(f, phis[1..], m).value, Scalars(v), AllScalars(vs[1..]), es);
      assert a + PhiNames(phis) == a + {p.dst} + PhiNames(phis[1..]);
    }
  }
}
