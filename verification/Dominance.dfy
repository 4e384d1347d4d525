/** Every function in SSA form has a certificate: the values whose definitions lie on every path to
    a block are available at its entry, and no definition overwrites a lane operand in use. */
module Dominance {
  import opened Oir
  import opened LaneCorrectness
  import opened InstrCorrectness
  import opened Scalarizer
  import opened Simulation

  // ---------------------------------------------------------------- paths

  /** A walk through the control-flow graph from the entry. */
  ghost predicate Path(f: Function, p: seq<Label>) {
    && p != [] && p[0] == f.entry
    && (forall i :: 0 <= i < |p| ==> p[i] in f.blocks)
    && (forall i :: 0 < i < |p| ==> p[i] in Successors(f.blocks[p[i - 1]].terminator))
  }

  ghost predicate PathTo(f: Function, p: seq<Label>, l: Label) {
    Path(f, p) && p[|p| - 1] == l
  }

  ghost predicate Reachable(f: Function, l: Label) {
    exists p :: PathTo(f, p, l)
  }

  function BodyDefs(body: seq<Instr>): set<Name> {
    AfterBody(body, {})
  }

  function BlockDefs(b: Block): set<Name> {
    PhiNames(b.phis) + BodyDefs(b.body)
  }

  /** Some block before the last one of the path defines `x`. */
  ghost predicate DefinedOn(f: Function, p: seq<Label>, x: Name) {
    exists j :: 0 <= j < |p| - 1 && p[j] in f.blocks && x in BlockDefs(f.blocks[p[j]])
  }

  /** `x` is defined on every way into `l`. */
  ghost predicate AtEntry(f: Function, x: Name, l: Label) {
    x in f.args || forall p :: PathTo(f, p, l) ==> DefinedOn(f, p, x)
  }

  function AllNames(f: Function): set<Name> {
    (set a | a in f.args) + (set l, x | l in f.blocks && x in BlockDefs(f.blocks[l]) :: x)
  }

  ghost function EntrySet(f: Function, l: Label): set<Name> {
    set x | x in AllNames(f) && AtEntry(f, x, l)
  }

  /** The values available before instruction `i` of block `l`. */
  ghost function Before(f: Function, l: Label, i: nat): set<Name>
    requires l in f.blocks && i <= |f.blocks[l].body|
  {
    EntrySet(f, l) + PhiNames(f.blocks[l].phis) + BodyDefs(f.blocks[l].body[..i])
  }

  ghost function DominanceCertificate(f: Function): Certificate {
    map l | l in f.blocks && Reachable(f, l) :: EntrySet(f, l)
  }

  // ---------------------------------------------------------------- SSA form

  /** All names a block gives out; stores only use theirs as an identity. */
  function SiteNames(b: Block): set<Name> {
    PhiNames(b.phis) + (set i | i in b.body :: i.dst)
  }

  /** Every name is given out once. */
  predicate UniqueNames(f: Function) {
    && (forall l, x :: l in f.blocks && x in f.args ==> x !in SiteNames(f.blocks[l]))
    && (forall l, l', x ::
          l in f.blocks && l' in f.blocks && x in SiteNames(f.blocks[l]) && x in SiteNames(f.blocks[l']) ==> l == l')
    && (forall l :: l in f.blocks ==>
          var b := f.blocks[l];
          && (forall i, j :: 0 <= i < j < |b.phis| ==> b.phis[i].dst != b.phis[j].dst)
          && (forall i, j :: 0 <= i < j < |b.body| ==> b.body[i].dst != b.body[j].dst)
          && (forall i :: 0 <= i < |b.body| ==> b.body[i].dst !in PhiNames(b.phis)))
  }

  /** Every use is dominated by its definition. */
  ghost predicate UsesDominated(f: Function) {
    forall l :: l in f.blocks && Reachable(f, l) ==>
      var b := f.blocks[l];
      && (forall i :: 0 <= i < |b.body| ==> KnownInstr(b.body[i], Before(f, l, i)))
      && TerminatorKnown(b.terminator, Before(f, l, |b.body|))
      && (forall p, e :: p in b.phis && e in p.incoming && e.from in f.blocks && Reachable(f, e.from) ==>
            Known(e.operand, Before(f, e.from, |f.blocks[e.from].body|)))
  }

  ghost predicate SSA(f: Function) {
    UniqueNames(f) && UsesDominated(f)
  }

  // ---------------------------------------------------------------- bodies

  lemma {:induction false} AfterBodyDefs(body: seq<Instr>, a: set<Name>)
    ensures AfterBody(body, a) == a + BodyDefs(body)
    decreases |body|
  {
    if body != [] {
      AfterBodyDefs(body[1..], a + Defines(body[0]));
      AfterBodyDefs(body[1..], Defines(body[0]));
      assert {} + Defines(body[0]) == Defines(body[0]);
    }
  }

  lemma {:induction false} BodyDefsMember(body: seq<Instr>, x: Name)
    ensures x in BodyDefs(body) <==> exists i :: 0 <= i < |body| && x in Defines(body[i])
  {
    if body != [] {
      BodyDefsMember(body[1..], x);
      AfterBodyDefs(body[1..], Defines(body[0]));
      assert {} + Defines(body[0]) == Defines(body[0]);
      if x in BodyDefs(body[1..]) {
        var i :| 0 <= i < |body[1..]| && x in Defines(body[1..][i]);
        assert x in Defines(body[i + 1]);
      }
      if exists i :: 0 < i < |body| && x in Defines(body[i]) {
        var i :| 0 < i < |body| && x in Defines(body[i]);
        assert x in Defines(body[1..][i - 1]);
      }
    }
  }

  lemma BodyDefsStep(body: seq<Instr>, i: nat)
    requires i < |body|
    ensures BodyDefs(body[..i + 1]) == BodyDefs(body[..i]) + Defines(body[i])
  {
    forall x ensures x in BodyDefs(body[..i + 1]) <==> x in BodyDefs(body[..i]) + Defines(body[i]) {
      BodyDefsMember(body[..i + 1], x);
      BodyDefsMember(body[..i], x);
      if x in BodyDefs(body[..i]) {
        var j :| 0 <= j < i && x in Defines(body[..i][j]);
        assert x in Defines(body[..i + 1][j]);
      }
      if x in Defines(body[i]) {
        assert x in Defines(body[..i + 1][i]);
      }
      if x in BodyDefs(body[..i + 1]) {
        var j :| 0 <= j < i + 1 && x in Defines(body[..i + 1][j]);
        if j < i { assert x in Defines(body[..i][j]); }
      }
    }
  }

  lemma BeforeStep(f: Function, l: Label, i: nat)
    requires l in f.blocks && i < |f.blocks[l].body|
    ensures Before(f, l, i + 1) == Before(f, l, i) + Defines(f.blocks[l].body[i])
  {
    BodyDefsStep(f.blocks[l].body, i);
  }

  lemma BeforeAll(f: Function, l: Label)
    requires l in f.blocks
    ensures Before(f, l, |f.blocks[l].body|) == AfterBlock(f.blocks[l], EntrySet(f, l))
  {
    var b := f.blocks[l];
    AfterBodyDefs(b.body, EntrySet(f, l) + PhiNames(b.phis));
    assert b.body[..|b.body|] == b.body;
  }

  lemma DefsAreSites(b: Block, x: Name)
    requires x in BlockDefs(b)
    ensures x in SiteNames(b)
  {
    if x !in PhiNames(b.phis) {
      BodyDefsMember(b.body, x);
    }
  }

  // ---------------------------------------------------------------- dominance

  lemma PathPrefix(f: Function, p: seq<Label>, j: nat)
    requires Path(f, p) && j < |p|
    ensures PathTo(f, p[..j + 1], p[j])
  {
  }

  lemma PathExtend(f: Function, p: seq<Label>, l: Label, s: Label)
    requires PathTo(f, p, l) && s in f.blocks && s in Successors(f.blocks[l].terminator)
    ensures PathTo(f, p + [s], s)
  {
  }

  /** A path that meets its last block only at the end. */
  lemma {:induction false} ShortPath(f: Function, p: seq<Label>, l: Label) returns (q: seq<Label>)
    requires PathTo(f, p, l)
    ensures PathTo(f, q, l) && forall j :: 0 <= j < |q| - 1 ==> q[j] != l
    decreases |p|
  {
    if j :| 0 <= j < |p| - 1 && p[j] == l {
      PathPrefix(f, p, j);
      q := ShortPath(f, p[..j + 1], l);
    } else {
      q := p;
    }
  }

  /** No block makes one of its own names available at its entry. */
  lemma NotAtOwnEntry(f: Function, l: Label, x: Name)
    requires UniqueNames(f) && l in f.blocks && Reachable(f, l) && x in SiteNames(f.blocks[l])
    ensures x !in EntrySet(f, l)
  {
    var p :| PathTo(f, p, l);
    var q := ShortPath(f, p, l);
    if x in EntrySet(f, l) {
      assert DefinedOn(f, q, x);
      var j :| 0 <= j < |q| - 1 && q[j] in f.blocks && x in BlockDefs(f.blocks[q[j]]);
      DefsAreSites(f.blocks[q[j]], x);
    }
  }

  lemma NotBeforeItself(f: Function, l: Label, i: nat)
    requires UniqueNames(f) && l in f.blocks && Reachable(f, l) && i < |f.blocks[l].body|
    ensures f.blocks[l].body[i].dst !in Before(f, l, i)
  {
    var body := f.blocks[l].body;
    var x := body[i].dst;
    assert body[i] in body;
    NotAtOwnEntry(f, l, x);
    BodyDefsMember(body[..i], x);
  }

  /** What is available before a definition is available wherever the definition is. */
  lemma BeforeIsTransitive(f: Function, l: Label, i: nat, l': Label, i': nat, x: Name)
    requires UniqueNames(f) && l in f.blocks && l' in f.blocks
    requires i <= |f.blocks[l].body| && i' < |f.blocks[l'].body|
    requires f.blocks[l'].body[i'].dst in Before(f, l, i) && x in Before(f, l', i')
    ensures x in Before(f, l, i)
  {
    var body, body' := f.blocks[l].body, f.blocks[l'].body;
    var v := body'[i'].dst;
    assert body'[i'] in body';
    assert v in SiteNames(f.blocks[l']);
    if v in BodyDefs(body[..i]) {
      BodyDefsMember(body[..i], v);
      var j :| 0 <= j < i && v in Defines(body[..i][j]);
      assert body[j].dst == v && body[j] in body;
      assert l == l' && j == i';
      BodyDefsGrow(body, i', i, x);
    } else if v in PhiNames(f.blocks[l].phis) {
      assert false;
    } else {
      EntryIsTransitive(f, l, l', i', v, x);
    }
  }

  lemma BodyDefsGrow(body: seq<Instr>, i: nat, j: nat, x: Name)
    requires i <= j <= |body|
    ensures x in BodyDefs(body[..i]) ==> x in BodyDefs(body[..j])
  {
    BodyDefsMember(body[..i], x);
    BodyDefsMember(body[..j], x);
    if x in BodyDefs(body[..i]) {
      var k :| 0 <= k < i && x in Defines(body[..i][k]);
      assert x in Defines(body[..j][k]);
    }
  }

  lemma EntryIsTransitive(f: Function, l: Label, l': Label, i': nat, v: Name, x: Name)
    requires UniqueNames(f) && l in f.blocks && l' in f.blocks && i' <= |f.blocks[l'].body|
    requires v in SiteNames(f.blocks[l']) && v in EntrySet(f, l) && x in Before(f, l', i')
    ensures x in EntrySet(f, l)
  {
    BeforeIsNamed(f, l', i', x);
    if x !in f.args {
      forall p | PathTo(f, p, l) ensures DefinedOn(f, p, x) {
        assert DefinedOn(f, p, v) by {
          assert AtEntry(f, v, l);
          assert v !in f.args;
        }
        DefinedThrough(f, p, l', i', v, x);
      }
    }
  }

  lemma BeforeIsNamed(f: Function, l: Label, i: nat, x: Name)
    requires l in f.blocks && i <= |f.blocks[l].body| && x in Before(f, l, i)
    ensures x in AllNames(f)
  {
    if x !in EntrySet(f, l) {
      BodyDefsGrow(f.blocks[l].body, i, |f.blocks[l].body|, x);
      assert f.blocks[l].body[..|f.blocks[l].body|] == f.blocks[l].body;
      assert x in BlockDefs(f.blocks[l]);
    }
  }

  lemma DefinedThrough(f: Function, p: seq<Label>, l: Label, i: nat, v: Name, x: Name)
    requires UniqueNames(f) && Path(f, p) && DefinedOn(f, p, v) && x !in f.args
    requires l in f.blocks && v in SiteNames(f.blocks[l]) && i <= |f.blocks[l].body| && x in Before(f, l, i)
    ensures DefinedOn(f, p, x)
  {
    var j :| 0 <= j < |p| - 1 && p[j] in f.blocks && v in BlockDefs(f.blocks[p[j]]);
    DefsAreSites(f.blocks[p[j]], v);
    assert p[j] == l;
    EarlierOnPath(f, p, j, i, x);
  }

  /** What is available inside block `p[j]` is defined on every path through it. */
  lemma EarlierOnPath(f: Function, p: seq<Label>, j: nat, i: nat, x: Name)
    requires Path(f, p) && j < |p| - 1 && x !in f.args
    requires i <= |f.blocks[p[j]].body| && x in Before(f, p[j], i)
    ensures DefinedOn(f, p, x)
  {
    var b := f.blocks[p[j]];
    if x in EntrySet(f, p[j]) {
      PathPrefix(f, p, j);
      assert DefinedOn(f, p[..j + 1], x);
      var k :| 0 <= k < j && p[..j + 1][k] in f.blocks && x in BlockDefs(f.blocks[p[..j + 1][k]]);
      assert p[k] in f.blocks && x in BlockDefs(f.blocks[p[k]]);
    } else {
      BodyDefsGrow(b.body, i, |b.body|, x);
      assert b.body[..|b.body|] == b.body;
      assert p[j] in f.blocks && x in BlockDefs(b);
    }
  }

  /** A value available at a reachable block comes from the arguments or from a reachable block. */
  lemma OriginOf(f: Function, l: Label, i: nat, v: Name) returns (l': Label)
    requires l in f.blocks && Reachable(f, l) && i <= |f.blocks[l].body|
    requires v in Before(f, l, i) && v !in f.args
    ensures l' in f.blocks && Reachable(f, l') && v in BlockDefs(f.blocks[l'])
  {
    l' := l;
    if v in EntrySet(f, l) && v !in BlockDefs(f.blocks[l]) {
      var p :| PathTo(f, p, l);
      assert DefinedOn(f, p, v);
      var j :| 0 <= j < |p| - 1 && p[j] in f.blocks && v in BlockDefs(f.blocks[p[j]]);
      PathPrefix(f, p, j);
      l' := p[j];
    } else {
      BodyDefsGrow(f.blocks[l].body, i, |f.blocks[l].body|, v);
      assert f.blocks[l].body[..|f.blocks[l].body|] == f.blocks[l].body;
    }
  }

  /** Availability flows along edges. */
  lemma EdgeKeeps(f: Function, l: Label, s: Label)
    requires l in f.blocks && s in f.blocks && Reachable(f, l) && s in Successors(f.blocks[l].terminator)
    ensures Reachable(f, s) && EntrySet(f, s) <= AfterBlock(f.blocks[l], EntrySet(f, l))
  {
    var p :| PathTo(f, p, l);
    PathExtend(f, p, l, s);
    var b := f.blocks[l];
    AfterBodyDefs(b.body, EntrySet(f, l) + PhiNames(b.phis));
    forall x | x in EntrySet(f, s) && x !in BlockDefs(b) ensures x in EntrySet(f, l) {
      if x !in f.args {
        forall q | PathTo(f, q, l) ensures DefinedOn(f, q, x) {
          PathExtend(f, q, l, s);
          assert DefinedOn(f, q + [s], x);
          var j :| 0 <= j < |q| && (q + [s])[j] in f.blocks && x in BlockDefs(f.blocks[(q + [s])[j]]);
          assert q[j] != l;
          assert x in BlockDefs(f.blocks[q[j]]);
        }
      }
    }
  }

  lemma NothingAtEntry(f: Function)
    requires f.entry in f.blocks
    ensures Reachable(f, f.entry) && EntrySet(f, f.entry) <= (set a | a in f.args)
  {
    assert PathTo(f, [f.entry], f.entry);
    forall x | x in EntrySet(f, f.entry) && x !in f.args ensures DefinedOn(f, [f.entry], x) {
    }
  }
}
