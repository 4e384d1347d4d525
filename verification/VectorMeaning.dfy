/** Order-free characterizations of what the interpreter defines step by step: stores lane by lane,
    and the phis of a block. */
module VectorMeaning {
  import opened Wrappers
  import opened Oir

  /** Lane `k` is active and its address is `a`. */
  predicate Writes(i: Instr, k: nat, env: Env, a: int)
    requires Storing(i)
  {
    ActiveAt(i.guard, k, i.width, env) == Ok(true) && StoreAddress(i, k, env) == Ok(a)
  }

  /** `a` keeps its value, or holds the value of the last active lane that names it. */
  ghost predicate LastWriterWins(i: Instr, n: nat, s: State, a: int, x: int)
    requires Storing(i) && 0 <= a < |s.memory|
  {
    || (x == s.memory[a] && forall k :: 0 <= k < n ==> !Writes(i, k, s.env, a))
    || (exists k :: 0 <= k < n && Writes(i, k, s.env, a) && LaneAt(i.values, k, i.width, s.env) == Ok(x)
                    && forall j :: k < j < n ==> !Writes(i, j, s.env, a))
  }

  /** A masked store or scatter leaves in every cell what its last active writer stored, reads no
      cell, and changes no cell that no active lane names. */
  lemma {:induction false} StoreMeaning(i: Instr, n: nat, s: State)
    requires Storing(i) && AllEffects(i, n, s).Ok?
    ensures var m := AllEffects(i, n, s).value;
            |m| == |s.memory| && forall a :: 0 <= a < |m| ==> LastWriterWins(i, n, s, a, m[a])
    ensures forall k, a :: 0 <= k < n && Writes(i, k, s.env, a) ==> 0 <= a < |s.memory|
  {
    if n > 0 {
      StoreMeaning(i, n - 1, s);
      var before := AllEffects(i, n - 1, s).value;
      var m := AllEffects(i, n, s).value;
      var active := ActiveAt(i.guard, n - 1, i.width, s.env).value;
      var address := StoreAddress(i, n - 1, s.env).value;
      forall a | 0 <= a < |m| ensures LastWriterWins(i, n, s, a, m[a]) {
        assert LastWriterWins(i, n - 1, s, a, before[a]);
        if active && address == a {
          assert Writes(i, n - 1, s.env, a);
        } else {
          assert !Writes(i, n - 1, s.env, a);
        }
      }
    }
  }

  /** A store fails exactly when an active lane leaves the memory; inactive lanes cannot fault. */
  lemma {:induction false} StoreFaults(i: Instr, n: nat, s: State)
    requires Storing(i)
    requires forall k :: 0 <= k < n ==>
               && ActiveAt(i.guard, k, i.width, s.env).Ok? && LaneAt(i.values, k, i.width, s.env).Ok?
               && StoreAddress(i, k, s.env).Ok?
    ensures AllEffects(i, n, s).Ok? <==> forall k, a :: 0 <= k < n && Writes(i, k, s.env, a) ==> 0 <= a < |s.memory|
    ensures AllEffects(i, n, s) != Undef
  {
    if n > 0 {
      StoreFaults(i, n - 1, s);
      if AllEffects(i, n - 1, s).Ok? {
        StoreMeaning(i, n - 1, s);
        var a := StoreAddress(i, n - 1, s.env).value;
        assert ActiveAt(i.guard, n - 1, i.width, s.env).value ==> Writes(i, n - 1, s.env, a);
      }
    }
  }

  /** The value a phi takes on the edge from the predecessor. */
  function PhiValue(p: Phi, predecessor: Option<Label>, env: Env): Exec<Value> {
    var o :- IncomingFrom(p.incoming, predecessor);
    Eval(o, env)
  }

  predicate DistinctPhis(phis: seq<Phi>) {
    forall i, j :: 0 <= i < j < |phis| ==> phis[i].dst != phis[j].dst
  }

  lemma {:induction false} EdgeNeverUndefined(incoming: seq<Incoming>, predecessor: Option<Label>)
    ensures IncomingFrom(incoming, predecessor) != Undef
  {
    if incoming != [] && predecessor.Some? && incoming[0].from != predecessor.value {
      EdgeNeverUndefined(incoming[1..], predecessor);
    }
  }

  /** All phis read the environment before any of them is assigned. */
  lemma {:induction false} ReadsAreIndependent(phis: seq<Phi>, predecessor: Option<Label>, env: Env)
    ensures var r := ReadPhis(phis, predecessor, env);
            && r != Undef
            && (r.Ok? <==> forall k :: 0 <= k < |phis| ==> PhiValue(phis[k], predecessor, env).Ok?)
            && (r.Ok? ==> forall k :: 0 <= k < |phis| ==> PhiValue(phis[k], predecessor, env) == Ok(r.value[k]))
  {
    if phis != [] {
      EdgeNeverUndefined(phis[0].incoming, predecessor);
      ReadsAreIndependent(phis[1..], predecessor, env);
      var r, rest := ReadPhis(phis, predecessor, env), ReadPhis(phis[1..], predecessor, env);
      if rest.Ok? && PhiValue(phis[0], predecessor, env).Ok? {
        forall k | 0 <= k < |phis| ensures PhiValue(phis[k], predecessor, env) == Ok(r.value[k]) {
          if k > 0 { assert phis[k] == phis[1..][k - 1]; }
        }
      } else if !rest.Ok? {
        var k :| 0 <= k < |phis[1..]| && !PhiValue(phis[1..][k], predecessor, env).Ok?;
        assert phis[k + 1] == phis[1..][k];
      }
    }
  }

  lemma {:induction false} AssignmentsAreIndependent(phis: seq<Phi>, values: seq<Value>, env: Env)
    requires |phis| == |values| && DistinctPhis(phis)
    ensures var r := AssignPhis(phis, values, env);
            && (forall n :: n in r <==> n in env || exists k :: 0 <= k < |phis| && phis[k].dst == n)
            && (forall k :: 0 <= k < |phis| ==> r[phis[k].dst] == values[k])
            && (forall n :: n in env && (forall k :: 0 <= k < |phis| ==> phis[k].dst != n) ==> r[n] == env[n])
  {
    if phis != [] {
      var env' := env[phis[0].dst := values[0]];
      assert forall j :: 0 <= j < |phis[1..]| ==> phis[1..][j] == phis[j + 1];
      AssignmentsAreIndependent(phis[1..], values[1..], env');
      var r := AssignPhis(phis, values, env);
      forall k | 0 <= k < |phis| ensures phis[k].dst in r && r[phis[k].dst] == values[k] {
        if k > 0 {
          assert phis[k] == phis[1..][k - 1] && values[k] == values[1..][k - 1];
        } else {
          assert phis[0].dst in env' && env'[phis[0].dst] == values[0];
          assert forall j :: 0 <= j < |phis[1..]| ==> phis[1..][j].dst != phis[0].dst;
        }
      }
      forall n ensures n in r <==> n in env || exists k :: 0 <= k < |phis| && phis[k].dst == n {
        if k :| 0 <= k < |phis[1..]| && phis[1..][k].dst == n {
          assert phis[k + 1].dst == n;
        }
      }
    }
  }

  /** Two-phase reading makes the result independent of the order of the phis in the block. */
  lemma PhiOrderIsIrrelevant(phis: seq<Phi>, phis': seq<Phi>, predecessor: Option<Label>, env: Env)
    requires DistinctPhis(phis) && DistinctPhis(phis') && forall p :: p in phis <==> p in phis'
    ensures RunPhis(phis, predecessor, env) == RunPhis(phis', predecessor, env)
  {
    ReadsAreIndependent(phis, predecessor, env);
    ReadsAreIndependent(phis', predecessor, env);
    var r, r' := ReadPhis(phis, predecessor, env), ReadPhis(phis', predecessor, env);
    SameSuccess(phis, phis', predecessor, env);
    SameSuccess(phis', phis, predecessor, env);
    if r.Ok? {
      AssignmentsAreIndependent(phis, r.value, env);
      AssignmentsAreIndependent(phis', r'.value, env);
      var e, e' := AssignPhis(phis, r.value, env), AssignPhis(phis', r'.value, env);
      forall n ensures (n in e <==> n in e') && (n in e ==> e[n] == e'[n]) {
        AssignedAlike(phis, phis', r.value, r'.value, predecessor, env, n);
        AssignedAlike(phis', phis, r'.value, r.value, predecessor, env, n);
      }
      assert e == e';
    }
  }

  lemma SameSuccess(phis: seq<Phi>, phis': seq<Phi>, predecessor: Option<Label>, env: Env)
    requires forall p :: p in phis <==> p in phis'
    ensures ReadPhis(phis', predecessor, env).Ok? ==> ReadPhis(phis, predecessor, env).Ok?
  {
    ReadsAreIndependent(phis, predecessor, env);
    ReadsAreIndependent(phis', predecessor, env);
    if ReadPhis(phis', predecessor, env).Ok? {
      forall k | 0 <= k < |phis| ensures PhiValue(phis[k], predecessor, env).Ok? {
        assert phis[k] in phis;
        var j :| 0 <= j < |phis'| && phis'[j] == phis[k];
      }
    }
  }

  lemma AssignedAlike(phis: seq<Phi>, phis': seq<Phi>, vs: seq<Value>, vs': seq<Value>, predecessor: Option<Label>,
                      env: Env, n: Name)
    requires |phis| == |vs| && |phis'| == |vs'| && forall p :: p in phis <==> p in phis'
    requires forall k :: 0 <= k < |phis| ==> PhiValue(phis[k], predecessor, env) == Ok(vs[k])
    requires forall k :: 0 <= k < |phis'| ==> PhiValue(phis'[k], predecessor, env) == Ok(vs'[k])
    ensures forall k :: 0 <= k < |phis| && phis[k].dst == n ==>
              exists j :: 0 <= j < |phis'| && phis'[j].dst == n && vs'[j] == vs[k]
  {
    forall k | 0 <= k < |phis| && phis[k].dst == n
      ensures exists j :: 0 <= j < |phis'| && phis'[j].dst == n && vs'[j] == vs[k]
    {
      assert phis[k] in phis;
      var j :| 0 <= j < |phis'| && phis'[j] == phis[k];
      assert PhiValue(phis'[j], predecessor, env) == Ok(vs'[j]);
    }
  }
}
