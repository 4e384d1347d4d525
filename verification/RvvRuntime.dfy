/** The process-wide vector-support probe: a lock-free once-cache shared by any number of
    concurrent calls, and a per-call query of the calling thread's vector control.  Kernel replies
    are arbitrary inputs; a run interleaves the atomic steps of all calls in any order. */
module RvvRuntime {
  import opened Wrappers
  import opened Digits

  const UNKNOWN: int := -1
  const NO: int := 0
  const YES: int := 1

  const ENOSYS: int := 38
  const KEY_IMA_EXT_0: int := 4
  const VSTATE_CTRL_ON: int := 2

  /** What `getauxval(AT_HWCAP)` answered. */
  datatype AuxvalReply = AuxvalReply(hwcap: nat, errno: int)

  /** What `riscv_hwprobe` answered, with the key and value it left in the pair. */
  datatype HwprobeReply = HwprobeReply(result: int, errno: int, key: int, value: nat)

  /** The replies one probe saw; the second call is not made when the first one fails. */
  datatype Evidence = Evidence(auxval: AuxvalReply, hwprobe: Option<HwprobeReply>)

  /** Bit 'V' - 'A' of the hardware capability word. */
  predicate HwcapHasV(hwcap: nat) {
    hwcap / 0x20_0000 % 2 == 1
  }

  /** Bit 2 of the IMA extension word. */
  predicate HwprobeHasV(value: nat) {
    value / 4 % 2 == 1
  }

  /** The decision of one probe, branch by branch. */
  function ProbeHardware(e: Evidence): int {
    if e.auxval.errno != 0 || e.hwprobe.None? then NO
    else
      var hwcapHasV := HwcapHasV(e.auxval.hwcap);
      var p := e.hwprobe.value;
      if p.result == -1 && p.errno == ENOSYS then (if hwcapHasV then YES else NO)
      else if p.result != 0 || p.key != KEY_IMA_EXT_0 then NO
      else if hwcapHasV != HwprobeHasV(p.value) then NO
      else if hwcapHasV then YES
      else NO
  }

  /** Both sources report the vector extension, or the newer one does not exist on this kernel. */
  predicate ConsistentSupport(e: Evidence) {
    && e.auxval.errno == 0 && HwcapHasV(e.auxval.hwcap) && e.hwprobe.Some?
    && var p := e.hwprobe.value;
       || (p.result == -1 && p.errno == ENOSYS)
       || (p.result == 0 && p.key == KEY_IMA_EXT_0 && HwprobeHasV(p.value))
  }

  lemma ProbeFailsClosed(e: Evidence)
    ensures ProbeHardware(e) == YES <==> ConsistentSupport(e)
    ensures ProbeHardware(e) == NO <==> !ConsistentSupport(e)
  {
  }

  /** The control word says vector state is on for this thread. */
  predicate ControlOn(control: int) {
    control >= 0 && control % 4 == VSTATE_CTRL_ON
  }

  /** Where a call is.  `hardware` is what its lookup returned, `control` what its query read. */
  datatype Call =
    | AtLoad
    | AtAuxval
    | AtHwprobe(auxval: AuxvalReply)
    | AtExchange(detected: int, evidence: Evidence)
    | AtControl(hardware: int)
    | Returned(result: int, hardware: int, control: Option<int>)

  /** `winner` records whose replies filled the cache; no step reads it. */
  datatype State = State(cache: int, calls: map<nat, Call>, winner: Option<Evidence>)

  predicate Initial(s: State) {
    s == State(UNKNOWN, map[], None)
  }

  /** The lookup returned `hardware`: zero ends the call, anything else goes on to the query. */
  function AfterLookup(hardware: int): Call {
    if hardware == NO then Returned(0, hardware, None) else AtControl(hardware)
  }

  datatype Input =
    | Begin
    | Proceed
    | Auxval(auxval: AuxvalReply)
    | Hwprobe(hwprobe: HwprobeReply)
    | Control(control: int)

  /** Call `id` takes its next atomic step. */
  predicate Step(s: State, id: nat, input: Input, s': State) {
    if input.Begin? then
      id !in s.calls && s' == s.(calls := s.calls[id := AtLoad])
    else
      id in s.calls &&
      match (s.calls[id], input)
      case (AtLoad, Proceed) =>
        s' == s.(calls := s.calls[id := if s.cache != UNKNOWN then AfterLookup(s.cache) else AtAuxval])
      case (AtAuxval, Auxval(a)) =>
        s' == s.(calls := s.calls[id :=
          if a.errno != 0 then AtExchange(NO, Evidence(a, None)) else AtHwprobe(a)])
      case (AtHwprobe(a), Hwprobe(p)) =>
        var e := Evidence(a, Some(p));
        s' == s.(calls := s.calls[id := AtExchange(ProbeHardware(e), e)])
      case (AtExchange(detected, e), Proceed) =>
        if s.cache == UNKNOWN then
          s' == State(detected, s.calls[id := AfterLookup(detected)], Some(e))
        else
          s' == s.(calls := s.calls[id := AfterLookup(s.cache)])
      case (AtControl(hardware), Control(control)) =>
        s' == s.(calls := s.calls[id := Returned(if ControlOn(control) then 1 else 0, hardware, Some(control))])
      case _ => false
  }

  /** A finite prefix of an execution: consecutive states are one step of one call apart. */
  ghost predicate Run(run: seq<State>) {
    && run != [] && Initial(run[0])
    && forall i :: 0 < i < |run| ==> Next(run[i - 1], run[i])
  }

  ghost predicate Next(s: State, s': State) {
    exists id, input :: Step(s, id, input, s')
  }

  /** What a call may know, given the cache. */
  predicate CallInvariant(c: Call, cache: int) {
    match c
    case AtExchange(detected, e) => detected == ProbeHardware(e)
    case AtControl(hardware) => hardware == cache == YES
    case Returned(result, hardware, control) =>
      && hardware == cache != UNKNOWN
      && (control.Some? <==> hardware == YES)
      && result == if control.Some? && ControlOn(control.value) then 1 else 0
    case _ => true
  }

  predicate Invariant(s: State) {
    && (s.cache == if s.winner.Some? then ProbeHardware(s.winner.value) else UNKNOWN)
    && forall id :: id in s.calls ==> CallInvariant(s.calls[id], s.cache)
  }

  lemma StepKeepsInvariant(s: State, id: nat, input: Input, s': State)
    requires Invariant(s) && Step(s, id, input, s')
    ensures Invariant(s')
    ensures s.cache != UNKNOWN ==> s'.cache == s.cache && s'.winner == s.winner
  {
    forall other | other in s'.calls && other != id ensures CallInvariant(s'.calls[other], s'.cache) {
      assert s'.calls[other] == s.calls[other];
    }
    assert id in s'.calls;
    if !input.Begin? && s.calls[id].AtExchange? {
      ProbeFailsClosed(s.calls[id].evidence);
    }
    if s.winner.Some? {
      ProbeFailsClosed(s.winner.value);
    }
  }

  lemma {:induction false} InvariantHolds(run: seq<State>, i: nat)
    requires Run(run) && i < |run|
    ensures Invariant(run[i])
  {
    if i > 0 {
      InvariantHolds(run, i - 1);
      assert Next(run[i - 1], run[i]);
      var id, input :| Step(run[i - 1], id, input, run[i]);
      StepKeepsInvariant(run[i - 1], id, input, run[i]);
    }
  }

  /** Once decided, the cache and its winner never change again. */
  lemma {:induction false} CacheIsStable(run: seq<State>, i: nat, j: nat)
    requires Run(run) && i <= j < |run| && run[i].cache != UNKNOWN
    ensures run[j].cache == run[i].cache && run[j].winner == run[i].winner
    decreases j
  {
    if i < j {
      CacheIsStable(run, i, j - 1);
      InvariantHolds(run, j - 1);
      assert Next(run[j - 1], run[j]);
      var id, input :| Step(run[j - 1], id, input, run[j]);
      StepKeepsInvariant(run[j - 1], id, input, run[j]);
    }
  }

  /** The cache is written at most once in any run. */
  lemma CacheChangesAtMostOnce(run: seq<State>, i: nat, j: nat)
    requires Run(run) && 0 < i < j < |run| && run[i - 1].cache != run[i].cache
    ensures run[j - 1].cache == run[j].cache
  {
    InvariantHolds(run, i - 1);
    assert Next(run[i - 1], run[i]);
    var id, input :| Step(run[i - 1], id, input, run[i]);
    StepKeepsInvariant(run[i - 1], id, input, run[i]);
    if run[i].winner.Some? {
      ProbeFailsClosed(run[i].winner.value);
    }
    CacheIsStable(run, i, j - 1);
    CacheIsStable(run, i, j);
  }

  /** The value a call's hardware lookup returned, once it has. */
  function Lookup(c: Call): Option<int> {
    match c
    case AtControl(h) => Some(h)
    case Returned(_, h, _) => Some(h)
    case _ => None
  }

  /** All completed lookups of a run agree, whenever and wherever they completed, even when racing
      probes saw different replies; the agreed value is the decision of one winning probe. */
  lemma LookupsAgree(run: seq<State>, i: nat, j: nat, x: nat, y: nat)
    requires Run(run) && i <= j < |run| && x in run[i].calls && y in run[j].calls
    requires Lookup(run[i].calls[x]).Some? && Lookup(run[j].calls[y]).Some?
    ensures Lookup(run[i].calls[x]) == Lookup(run[j].calls[y])
    ensures run[j].winner.Some? && Lookup(run[j].calls[y]).value == ProbeHardware(run[j].winner.value)
  {
    InvariantHolds(run, i);
    InvariantHolds(run, j);
    assert CallInvariant(run[i].calls[x], run[i].cache);
    assert CallInvariant(run[j].calls[y], run[j].cache);
    CacheIsStable(run, i, j);
  }

  /** A call answers one exactly when the winning probe found consistent vector support and the
      control word this same call read is ON. */
  lemma AvailableExactly(run: seq<State>, i: nat, id: nat)
    requires Run(run) && i < |run| && id in run[i].calls && run[i].calls[id].Returned?
    ensures var c := run[i].calls[id];
            && run[i].winner.Some?
            && (c.result == 0 || c.result == 1)
            && (c.result == 1 <==>
                  ConsistentSupport(run[i].winner.value) && c.control.Some? && ControlOn(c.control.value))
  {
    InvariantHolds(run, i);
    assert CallInvariant(run[i].calls[id], run[i].cache);
    if run[i].winner.Some? {
      ProbeFailsClosed(run[i].winner.value);
    }
  }

  /** Bit `v` of the capability word is read, `v` counted from 'A' to 'V'. */
  lemma CapabilityBit(hwcap: nat, v: nat)
    requires v == 21
    ensures HwcapHasV(hwcap) <==> Digit(hwcap, v) == 1
  {
    PowerAdds(7, 7);
    PowerAdds(7, v - 7);
    assert Power(7) == 0x80;
    DigitAt(hwcap, v);
  }

  /** Bit 2 of the extension word is read, and of the control word the lowest two, which hold 2. */
  lemma OtherBits(value: nat, control: int)
    ensures HwprobeHasV(value) <==> Digit(value, 2) == 1
    ensures ControlOn(control) <==> control >= 0 && Digit(control, 1) == 1 && Digit(control, 0) == 0
  {
    assert Power(2) == 4;
    DigitAt(value, 2);
    assert Digit(control, 1) == Digit(control / 2, 0);
  }

  /** The newer probe does not exist (error 38), or it names key 4 and the V bit of its value. */
  predicate ReportsV(p: HwprobeReply) {
    (p.result == -1 && p.errno == 38) || (p.result == 0 && p.key == 4 && Digit(p.value, 2) == 1)
  }

  /** The whole decision in terms of the replies and their bits. */
  lemma AvailableByReplies(run: seq<State>, i: nat, id: nat, v: nat)
    requires Run(run) && i < |run| && id in run[i].calls && run[i].calls[id].Returned? && v == 21
    ensures var c, w := run[i].calls[id], run[i].winner;
            c.result == 1 <==>
              && w.Some? && w.value.auxval.errno == 0 && Digit(w.value.auxval.hwcap, v) == 1
              && w.value.hwprobe.Some? && ReportsV(w.value.hwprobe.value)
              && c.control.Some? && c.control.value >= 0
              && Digit(c.control.value, 1) == 1 && Digit(c.control.value, 0) == 0
  {
    AvailableExactly(run, i, id);
    var c, w := run[i].calls[id], run[i].winner;
    CapabilityBit(w.value.auxval.hwcap, v);
    OtherBits(if w.value.hwprobe.Some? then w.value.hwprobe.value.value else 0,
              if c.control.Some? then c.control.value else 0);
  }

  /** Own steps a call has left at most. */
  function StepsLeft(c: Call): nat {
    match c
    case AtLoad => 5
    case AtAuxval => 4
    case AtHwprobe(_) => 3
    case AtExchange(_, _) => 2
    case AtControl(_) => 1
    case Returned(_, _, _) => 0
  }

  /** The probe is wait-free: every own step brings a call closer to its end, no step of another
      call sets it back, and a call that has not returned can always take its next step. */
  lemma WaitFree(s: State, id: nat, other: nat, input: Input, s': State)
    requires other in s.calls && Step(s, id, input, s')
    ensures other in s'.calls && StepsLeft(s'.calls[other]) <= StepsLeft(s.calls[other])
    ensures other == id ==> StepsLeft(s'.calls[other]) < StepsLeft(s.calls[other])
    ensures StepsLeft(s'.calls[other]) > 0 ==> exists input', s'' :: Step(s', other, input', s'')
  {
    var c := s'.calls[other];
    match c
    case AtLoad =>
      assert Step(s', other, Proceed,
        s'.(calls := s'.calls[other := if s'.cache != UNKNOWN then AfterLookup(s'.cache) else AtAuxval]));
    case AtAuxval =>
      var a := AuxvalReply(0, 0);
      assert Step(s', other, Auxval(a), s'.(calls := s'.calls[other := AtHwprobe(a)]));
    case AtHwprobe(a) =>
      var p := HwprobeReply(0, 0, 0, 0);
      var e := Evidence(a, Some(p));
      assert Step(s', other, Hwprobe(p), s'.(calls := s'.calls[other := AtExchange(ProbeHardware(e), e)]));
    case AtExchange(detected, e) =>
      assert Step(s', other, Proceed,
        if s'.cache == UNKNOWN then State(detected, s'.calls[other := AfterLookup(detected)], Some(e))
        else s'.(calls := s'.calls[other := AfterLookup(s'.cache)]));
    case AtControl(hardware) =>
      assert Step(s', other, Control(-1), s'.(calls := s'.calls[other := Returned(0, hardware, Some(-1))]));
    case Returned(_, _, _) =>
  }
}
