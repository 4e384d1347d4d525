/** The portable vector scalarizer: a lane map is built in layout order, then every block is emitted
    with its vector phis split, its instructions lowered lane by lane and its guards laid out. */
module Scalarizer {
  import opened Wrappers
  import opened Oir
  import opened LaneLowering
  import opened GuardLayout

  // ---------------------------------------------------------------- the lane map

  /** A value is recorded once; recording it differently is a malformed function. */
  function Insert(m: LaneMap, n: Name, l: Lowered): Option<LaneMap> {
    if n in m && m[n] != l then None else Some(m[n := l])
  }

  function LaneUses(id: nat, width: nat): (r: seq<Operand>)
    ensures |r| == width && forall k :: 0 <= k < width ==> r[k] == Use(Lane(id, k))
  {
    seq(width, k requires 0 <= k < width => Use(Lane(id, k)))
  }

  /** A scalar phi stands for itself, a vector phi for one scalar phi per lane. */
  function PhiLowered(p: Phi): Lowered {
    if p.width.None? then One(Use(p.dst)) else Many(LaneUses(p.dst.id, p.width.value))
  }

  function SeedPhis(phis: seq<Phi>, m: LaneMap): Option<LaneMap> {
    if phis == [] then Some(m)
    else
      var m' :- Insert(m, phis[0].dst, PhiLowered(phis[0]));
      SeedPhis(phis[1..], m')
  }

  /** Plain scalar values stand for themselves. */
  function SeedBody(body: seq<Instr>, m: LaneMap): Option<LaneMap> {
    if body == [] then Some(m)
    else if ScalarInstr(body[0]) && !body[0].Store? then
      var m' :- Insert(m, body[0].dst, One(Use(body[0].dst)));
      SeedBody(body[1..], m')
    else SeedBody(body[1..], m)
  }

  function SeedBlocks(f: Function, layout: seq<Label>, m: LaneMap): Option<LaneMap>
    requires forall l :: l in layout ==> l in f.blocks
  {
    if layout == [] then Some(m)
    else
      var m1 :- SeedPhis(f.blocks[layout[0]].phis, m);
      var m2 :- SeedBody(f.blocks[layout[0]].body, m1);
      SeedBlocks(f, layout[1..], m2)
  }

  /** Vector operations are scalarized in layout order: their operands must already be mapped. */
  function MapBody(body: seq<Instr>, m: LaneMap): Option<LaneMap>
    requires forall i :: i in body ==> i.dst.Source?
  {
    if body == [] then Some(m)
    else if ScalarInstr(body[0]) then MapBody(body[1..], m)
    else
      var code :- LowerInstr(body[0], m);
      var m' :- if code.lowered.Some? then Insert(m, body[0].dst, code.lowered.value) else Some(m);
      MapBody(body[1..], m')
  }

  function MapBlocks(f: Function, layout: seq<Label>, m: LaneMap): Option<LaneMap>
    requires forall l :: l in layout ==> l in f.blocks
    requires SourceNames(f)
  {
    if layout == [] then Some(m)
    else
      assert layout[0] in f.blocks;
      var m' :- MapBody(f.blocks[layout[0]].body, m);
      MapBlocks(f, layout[1..], m')
  }

  function ArgumentMap(args: seq<Name>): LaneMap {
    map a | a in args :: One(Use(a))
  }

  function BuildMap(f: Function, layout: seq<Label>): Option<LaneMap>
    requires forall l :: l in layout ==> l in f.blocks
    requires SourceNames(f)
  {
    var seeded :- SeedBlocks(f, layout, ArgumentMap(f.args));
    MapBlocks(f, layout, seeded)
  }

  // ---------------------------------------------------------------- well-formed input

  predicate SourceNames(f: Function) {
    && (forall a :: a in f.args ==> a.Source?)
    && forall l :: l in f.blocks ==>
         && (forall p :: p in f.blocks[l].phis ==> p.dst.Source?)
         && (forall i :: i in f.blocks[l].body ==> i.dst.Source?)
  }

  function Successors(t: Terminator): set<Label> {
    match t
    case Br(target) => {target}
    case CondBr(_, onTrue, onFalse) => {onTrue, onFalse}
    case Ret(_) => {}
  }

  /** The control-flow graph of a verified function, with its blocks listed once each. */
  predicate WellFormed(f: Function, layout: seq<Label>) {
    && SourceNames(f)
    && f.entry in f.blocks
    && (forall l :: l in f.blocks ==>
          l in layout && l.part.Head? && Successors(f.blocks[l].terminator) <= f.blocks.Keys)
    && (forall l :: l in layout ==> l in f.blocks)
    && (forall i, j :: 0 <= i < j < |layout| ==> layout[i] != layout[j])
    && (forall l, p, e :: l in f.blocks && p in f.blocks[l].phis && e in p.incoming ==> e.from in f.blocks)
  }

  // ---------------------------------------------------------------- emission

  function LowerBody(body: seq<Instr>, m: LaneMap): Option<seq<Item>>
    requires forall i :: i in body ==> i.dst.Source?
  {
    if body == [] then Some([])
    else
      var code :- LowerInstr(body[0], m);
      var rest :- LowerBody(body[1..], m);
      Some(code.items + rest)
  }

  /** The block that ends with the terminator of source block `l`. */
  function LastLabel(f: Function, l: Label, m: LaneMap): Label
    requires SourceNames(f)
  {
    if l in f.blocks then
      var items := LowerBody(f.blocks[l].body, m);
      if items.Some? then Label(l.block, LastPart(0, Head, items.value)) else l
    else l
  }

  function ScalarIncoming(f: Function, incoming: seq<Incoming>, m: LaneMap): Option<seq<Incoming>>
    requires SourceNames(f)
  {
    if incoming == [] then Some([])
    else
      var o :- ScalarOf(incoming[0].operand, m);
      var rest :- ScalarIncoming(f, incoming[1..], m);
      Some([Incoming(LastLabel(f, incoming[0].from, m), o)] + rest)
  }

  function LaneIncoming(f: Function, incoming: seq<Incoming>, k: nat, width: nat, m: LaneMap): Option<seq<Incoming>>
    requires SourceNames(f)
  {
    if incoming == [] then Some([])
    else
      var o :- LaneOf(incoming[0].operand, k, width, m);
      var rest :- LaneIncoming(f, incoming[1..], k, width, m);
      Some([Incoming(LastLabel(f, incoming[0].from, m), o)] + rest)
  }

  /** One scalar phi for each of the first `n` lanes. */
  function LanePhis(f: Function, p: Phi, n: nat, m: LaneMap): (r: Option<seq<Phi>>)
    requires SourceNames(f) && p.width.Some?
    ensures r.Some? ==> |r.value| == n
  {
    if n == 0 then Some([])
    else
      var rest :- LanePhis(f, p, n - 1, m);
      var incoming :- LaneIncoming(f, p.incoming, n - 1, p.width.value, m);
      Some(rest + [Phi(Lane(p.dst.id, n - 1), None, incoming)])
  }

  function LowerPhi(f: Function, p: Phi, m: LaneMap): Option<seq<Phi>>
    requires SourceNames(f)
  {
    if p.width.None? then
      var incoming :- ScalarIncoming(f, p.incoming, m);
      Some([Phi(p.dst, None, incoming)])
    else if p.width.value == 0 then None
    else LanePhis(f, p, p.width.value, m)
  }

  function LowerPhis(f: Function, phis: seq<Phi>, m: LaneMap): Option<seq<Phi>>
    requires SourceNames(f)
  {
    if phis == [] then Some([])
    else
      var group :- LowerPhi(f, phis[0], m);
      var rest :- LowerPhis(f, phis[1..], m);
      Some(group + rest)
  }

  function LowerTerminator(t: Terminator, m: LaneMap): Option<Terminator> {
    match t
    case Br(target) => Some(t)
    case CondBr(condition, onTrue, onFalse) =>
      var c :- ScalarOf(condition, m);
      Some(CondBr(c, onTrue, onFalse))
    case Ret(result) =>
      var r :- ScalarOf(result, m);
      Some(Ret(r))
  }

  function LowerBlock(f: Function, l: Label, m: LaneMap): Option<map<Label, Block>>
    requires SourceNames(f) && l in f.blocks
  {
    var b := f.blocks[l];
    var phis :- LowerPhis(f, b.phis, m);
    var items :- LowerBody(b.body, m);
    var t :- LowerTerminator(b.terminator, m);
    Some(Emit(l.block, 0, Head, phis, [], items, t))
  }

  function LowerBlocks(f: Function, layout: seq<Label>, m: LaneMap): Option<map<Label, Block>>
    requires SourceNames(f) && forall l :: l in layout ==> l in f.blocks
  {
    if layout == [] then Some(map[])
    else
      var blocks :- LowerBlock(f, layout[0], m);
      var rest :- LowerBlocks(f, layout[1..], m);
      Some(rest + blocks)
  }

  function Scalarize(f: Function, layout: seq<Label>): Option<Function>
    requires WellFormed(f, layout)
  {
    var m :- BuildMap(f, layout);
    var blocks :- LowerBlocks(f, layout, m);
    Some(Function(f.args, f.entry, blocks))
  }

  // ---------------------------------------------------------------- the emitted blocks

  /** The blocks emitted for every source block are all there, unchanged. */
  lemma {:induction false} BlocksArePlaced(f: Function, layout: seq<Label>, m: LaneMap, l: Label)
    requires SourceNames(f) && forall x :: x in layout ==> x in f.blocks && x.part.Head?
    requires forall i, j :: 0 <= i < j < |layout| ==> layout[i] != layout[j]
    requires LowerBlocks(f, layout, m).Some? && l in layout
    ensures LowerBlock(f, l, m).Some? && SubMap(LowerBlock(f, l, m).value, LowerBlocks(f, layout, m).value)
  {
    var first := LowerBlock(f, layout[0], m).value;
    var rest := LowerBlocks(f, layout[1..], m).value;
    if l != layout[0] {
      assert l in layout[1..];
      assert forall x :: x in layout[1..] ==> x in layout;
      BlocksArePlaced(f, layout[1..], m, l);
      var mine := LowerBlock(f, l, m).value;
      forall x | x in mine ensures x in rest + first && (rest + first)[x] == mine[x] {
        BlockKeys(f, l, m, x);
        if x in first {
          BlockKeys(f, layout[0], m, x);
        }
      }
    }
  }

  lemma BlockKeys(f: Function, l: Label, m: LaneMap, x: Label)
    requires SourceNames(f) && l in f.blocks && LowerBlock(f, l, m).Some? && x in LowerBlock(f, l, m).value
    ensures x.block == l.block
  {
    var b := f.blocks[l];
    EmitKeys(l.block, 0, Head, LowerPhis(f, b.phis, m).value, [], LowerBody(b.body, m).value,
             LowerTerminator(b.terminator, m).value, x);
  }

  lemma LastLabelBlock(f: Function, l: Label, m: LaneMap)
    requires SourceNames(f)
    ensures LastLabel(f, l, m).block == l.block
  {
  }
}
