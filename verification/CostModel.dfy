/** Summaries of cost-model decisions: one per source file, and their aggregate over all files. */
module CostModel {
  import opened Wrappers

  /** A list element that is an object, with the defaults of missing fields filled in, or not. */
  datatype Decision =
    | NotAnObject
    | Decision(pass: string, transform: string, action: string, gain: int, risk: int, score: int, reason: string,
               proof: Option<string>)

  type Counts = map<string, int>

  /** The status of one file: OK, or any other text. */
  datatype FileStatus = Fine | Bad(text: string)

  /** The overall status: the distinct texts of the files that were not OK are joined. */
  datatype Status = NotRun | OK | Failures(texts: set<string>)

  datatype Sums = Sums(total: int, accepted: int, bypassed: int, rejected: int, acceptedGain: int, acceptedRisk: int,
                       acceptedScore: int, bypassedGain: int, bypassedRisk: int, bypassedScore: int,
                       rejectedGain: int, rejectedRisk: int)

  datatype Maps = Maps(byTransform: Counts, byTransformAction: Counts, byTransformRejectReason: Counts,
                       byPassTransformAction: Counts, byRejectReason: Counts, byProofStatus: Counts)

  datatype FileSummary = FileSummary(status: FileStatus, sums: Sums, maps: Maps)

  datatype Summary = Summary(status: Status, sums: Sums, maps: Maps)

  // ---------------------------------------------------------------- keyed counts

  /** `m.get(k, 0)` */
  function Get(m: Counts, k: string): int {
    if k in m then m[k] else 0
  }

  function Bump(m: Counts, k: Option<string>): Counts {
    if k.Some? then m[k.value := Get(m, k.value) + 1] else m
  }

  /** Key-wise sum. */
  function Plus(m: Counts, n: Counts): (r: Counts)
    ensures r.Keys == m.Keys + n.Keys && forall k :: Get(r, k) == Get(m, k) + Get(n, k)
  {
    map k | k in m.Keys + n.Keys :: Get(m, k) + Get(n, k)
  }

  lemma SameCounts(m: Counts, n: Counts)
    requires m.Keys == n.Keys && forall k :: Get(m, k) == Get(n, k)
    ensures m == n
  {
    assert forall k :: k in m ==> m[k] == Get(m, k) && n[k] == Get(n, k);
  }

  /** How many decisions have each key. */
  function Tally(ds: seq<Decision>, key: Decision -> Option<string>): Counts {
    if ds == [] then map[] else Bump(Tally(ds[..|ds| - 1], key), key(ds[|ds| - 1]))
  }

  function CountKey(ds: seq<Decision>, key: Decision -> Option<string>, k: string): nat {
    if ds == [] then 0
    else CountKey(ds[..|ds| - 1], key, k) + if key(ds[|ds| - 1]) == Some(k) then 1 else 0
  }

  function Sum(ds: seq<Decision>, f: Decision -> int): int {
    if ds == [] then 0 else Sum(ds[..|ds| - 1], f) + f(ds[|ds| - 1])
  }

  /** The entry of a key is the number of decisions with it, and only such keys have entries. */
  lemma {:induction false} TallyCounts(ds: seq<Decision>, key: Decision -> Option<string>, k: string)
    ensures Get(Tally(ds, key), k) == CountKey(ds, key, k)
    ensures k in Tally(ds, key) <==> CountKey(ds, key, k) > 0
  {
    if ds != [] {
      TallyCounts(ds[..|ds| - 1], key, k);
    }
  }

  lemma {:induction false} TallyAppend(a: seq<Decision>, b: seq<Decision>, key: Decision -> Option<string>)
    ensures Tally(a + b, key) == Plus(Tally(a, key), Tally(b, key))
  {
    if b == [] {
      assert a + b == a;
      SameCounts(Tally(a, key), Plus(Tally(a, key), map[]));
    } else {
      var n := |b| - 1;
      assert (a + b)[..|a + b| - 1] == a + b[..n];
      TallyAppend(a, b[..n], key);
      SameCounts(Tally(a + b, key), Plus(Tally(a, key), Tally(b, key)));
    }
  }

  lemma {:induction false} SumAppend(a: seq<Decision>, b: seq<Decision>, f: Decision -> int)
    ensures Sum(a + b, f) == Sum(a, f) + Sum(b, f)
  {
    if b == [] {
      assert a + b == a;
    } else {
      var n := |b| - 1;
      assert (a + b)[..|a + b| - 1] == a + b[..n];
      SumAppend(a, b[..n], f);
    }
  }

  // ---------------------------------------------------------------- one file

  function TransformKey(d: Decision): Option<string> {
    if d.Decision? then Some(d.transform) else None
  }

  function ActionKey(d: Decision): Option<string> {
    if d.Decision? then Some(d.transform + "/" + d.action) else None
  }

  function PassKey(d: Decision): Option<string> {
    if d.Decision? then Some(d.pass + "/" + d.transform + "/" + d.action) else None
  }

  function ReasonKey(d: Decision): Option<string> {
    if Has(d, REJECT) then Some(d.reason) else None
  }

  function TransformReasonKey(d: Decision): Option<string> {
    if Has(d, REJECT) then Some(d.transform + "/" + d.reason) else None
  }

  function ProofKey(d: Decision): Option<string> {
    if d.Decision? then d.proof else None
  }

  predicate Has(d: Decision, action: string) {
    d.Decision? && d.action == action
  }

  /** The contribution of `field` when the decision has the action. */
  function Of(d: Decision, action: string, field: Decision -> int): int {
    if Has(d, action) then field(d) else 0
  }

  function One(d: Decision): int { 1 }
  function Gain(d: Decision): int { if d.Decision? then d.gain else 0 }
  function Risk(d: Decision): int { if d.Decision? then d.risk else 0 }
  function Score(d: Decision): int { if d.Decision? then d.score else 0 }

  function Total(ds: seq<Decision>, action: string, field: Decision -> int): int {
    Sum(ds, Weight(action, field))
  }

  function Weight(action: string, field: Decision -> int): Decision -> int {
    d => Of(d, action, field)
  }

  const ACCEPT := "Accept"
  const BYPASS := "BypassProfitability"
  const REJECT := "Reject"

  lemma ActionsDiffer()
    ensures ACCEPT != BYPASS && BYPASS != REJECT && ACCEPT != REJECT
  {
    assert ACCEPT[0] == 'A' && BYPASS[0] == 'B' && REJECT[0] == 'R';
  }

  function SumsOf(ds: seq<Decision>): Sums {
    Sums(Total(ds, ACCEPT, One) + Total(ds, BYPASS, One) + Total(ds, REJECT, One),
         Total(ds, ACCEPT, One), Total(ds, BYPASS, One), Total(ds, REJECT, One),
         Total(ds, ACCEPT, Gain), Total(ds, ACCEPT, Risk), Total(ds, ACCEPT, Score),
         Total(ds, BYPASS, Gain), Total(ds, BYPASS, Risk), Total(ds, BYPASS, Score),
         Total(ds, REJECT, Gain), Total(ds, REJECT, Risk))
  }

  function MapsOf(ds: seq<Decision>): Maps {
    Maps(Tally(ds, TransformKey), Tally(ds, ActionKey), Tally(ds, TransformReasonKey), Tally(ds, PassKey),
         Tally(ds, ReasonKey), Tally(ds, ProofKey))
  }

  /** What a file's compiler run produced: no decision list, or a list. */
  datatype Run = Failed(text: string) | Listed(decisions: seq<Decision>)

  function NoSums(): Sums { Sums(0, 0, 0, 0, 0, 0, 0, 0, 0, 0, 0, 0) }
  function NoMaps(): Maps { Maps(map[], map[], map[], map[], map[], map[]) }

  function SummaryOf(r: Run): FileSummary {
    match r
    case Failed(text) => FileSummary(Bad(text), NoSums(), NoMaps())
    case Listed(ds) => FileSummary(Fine, SumsOf(ds), MapsOf(ds))
  }

  /** Adding one decision to the sums. */
  function CountIn(s: Sums, d: Decision): Sums {
    if Has(d, ACCEPT) then
      s.(total := s.total + 1, accepted := s.accepted + 1, acceptedGain := s.acceptedGain + d.gain,
         acceptedRisk := s.acceptedRisk + d.risk, acceptedScore := s.acceptedScore + d.score)
    else if Has(d, BYPASS) then
      s.(total := s.total + 1, bypassed := s.bypassed + 1, bypassedGain := s.bypassedGain + d.gain,
         bypassedRisk := s.bypassedRisk + d.risk, bypassedScore := s.bypassedScore + d.score)
    else if Has(d, REJECT) then
      s.(total := s.total + 1, rejected := s.rejected + 1, rejectedGain := s.rejectedGain + d.gain,
         rejectedRisk := s.rejectedRisk + d.risk)
    else s
  }

  lemma TotalStep(ds: seq<Decision>, d: Decision, action: string, field: Decision -> int)
    ensures Total(ds + [d], action, field) == Total(ds, action, field) + Of(d, action, field)
  {
    assert (ds + [d])[..|ds|] == ds;
  }

  lemma SumsStep(ds: seq<Decision>, d: Decision)
    ensures SumsOf(ds + [d]) == CountIn(SumsOf(ds), d)
  {
    ActionsDiffer();
    TotalStep(ds, d, ACCEPT, One);
    TotalStep(ds, d, ACCEPT, Gain);
    TotalStep(ds, d, ACCEPT, Risk);
    TotalStep(ds, d, ACCEPT, Score);
    TotalStep(ds, d, BYPASS, One);
    TotalStep(ds, d, BYPASS, Gain);
    TotalStep(ds, d, BYPASS, Risk);
    TotalStep(ds, d, BYPASS, Score);
    TotalStep(ds, d, REJECT, One);
    TotalStep(ds, d, REJECT, Gain);
    TotalStep(ds, d, REJECT, Risk);
  }

  lemma TallyStep(ds: seq<Decision>, d: Decision, key: Decision -> Option<string>)
    ensures Tally(ds + [d], key) == Bump(Tally(ds, key), key(d))
  {
    assert (ds + [d])[..|ds|] == ds;
  }

  /** The loop over the decisions of one file, updating every counter and table in place. */
  method Collect(r: Run) returns (s: FileSummary)
    ensures s == SummaryOf(r)
  {
    if r.Failed? {
      return FileSummary(Bad(r.text), NoSums(), NoMaps());
    }
    var ds := r.decisions;
    var sums, maps := NoSums(), NoMaps();
    for k := 0 to |ds|
      invariant sums == SumsOf(ds[..k])
      invariant maps == MapsOf(ds[..k])
    {
      var d := ds[k];
      assert ds[..k + 1] == ds[..k] + [d];
      SumsStep(ds[..k], d);
      sums := CountIn(sums, d);
      maps := CountKeys(maps, d, ds[..k]);
    }
    assert ds[..|ds|] == ds;
    return FileSummary(Fine, sums, maps);
  }

  /** The tables that one decision enters. */
  method CountKeys(maps: Maps, d: Decision, ghost before: seq<Decision>) returns (r: Maps)
    requires maps == MapsOf(before)
    ensures r == MapsOf(before + [d])
  {
    TallyStep(before, d, TransformKey);
    TallyStep(before, d, ActionKey);
    TallyStep(before, d, TransformReasonKey);
    TallyStep(before, d, PassKey);
    TallyStep(before, d, ReasonKey);
    TallyStep(before, d, ProofKey);
    r := maps;
    if d.Decision? {
      r := r.(byTransform := Bump(r.byTransform, Some(d.transform)),
              byTransformAction := Bump(r.byTransformAction, Some(d.transform + "/" + d.action)),
              byPassTransformAction :=
                Bump(r.byPassTransformAction, Some(d.pass + "/" + d.transform + "/" + d.action)));
      if d.action == REJECT {
        r := r.(byRejectReason := Bump(r.byRejectReason, Some(d.reason)),
                byTransformRejectReason := Bump(r.byTransformRejectReason, Some(d.transform + "/" + d.reason)));
      }
      if d.proof.Some? {
        r := r.(byProofStatus := Bump(r.byProofStatus, d.proof));
      }
    }
  }

  /** What one decision contributes; by `CollectIsHomomorphic` a list contributes the sum. */
  lemma OneDecision(pass: string, transform: string, action: string, gain: int, risk: int, score: int, reason: string,
                    proof: Option<string>)
    ensures var d := Decision(pass, transform, action, gain, risk, score, reason, proof);
            && (action == "Accept" ==> SumsOf([d]) == Sums(1, 1, 0, 0, gain, risk, score, 0, 0, 0, 0, 0))
            && (action == "BypassProfitability" ==> SumsOf([d]) == Sums(1, 0, 1, 0, 0, 0, 0, gain, risk, score, 0, 0))
            && (action == "Reject" ==> SumsOf([d]) == Sums(1, 0, 0, 1, 0, 0, 0, 0, 0, 0, gain, risk))
            && (action != "Accept" && action != "BypassProfitability" && action != "Reject" ==> SumsOf([d]) == NoSums())
            && MapsOf([d]) ==
                 Maps(map[transform := 1], map[transform + "/" + action := 1],
                      if action == "Reject" then map[transform + "/" + reason := 1] else map[],
                      map[pass + "/" + transform + "/" + action := 1],
                      if action == "Reject" then map[reason := 1] else map[],
                      if proof.Some? then map[proof.value := 1] else map[])
    ensures SumsOf([NotAnObject]) == SumsOf([]) == Sums(0, 0, 0, 0, 0, 0, 0, 0, 0, 0, 0, 0)
    ensures MapsOf([NotAnObject]) == MapsOf([]) == Maps(map[], map[], map[], map[], map[], map[])
  {
    var d := Decision(pass, transform, action, gain, risk, score, reason, proof);
    assert [] + [d] == [d] && [] + [NotAnObject] == [NotAnObject];
    SumsStep([], d);
    SumsStep([], NotAnObject);
    ActionsDiffer();
    TalliesOfOne(d);
    TalliesOfOne(NotAnObject);
  }

  lemma TalliesOfOne(d: Decision)
    ensures MapsOf([d]) == Maps(Bump(map[], TransformKey(d)), Bump(map[], ActionKey(d)),
                                Bump(map[], TransformReasonKey(d)), Bump(map[], PassKey(d)), Bump(map[], ReasonKey(d)),
                                Bump(map[], ProofKey(d)))
  {
    assert [] + [d] == [d];
    TallyStep([], d, TransformKey);
    TallyStep([], d, ActionKey);
    TallyStep([], d, TransformReasonKey);
    TallyStep([], d, PassKey);
    TallyStep([], d, ReasonKey);
    TallyStep([], d, ProofKey);
  }

  // ---------------------------------------------------------------- all files

  function AddSums(a: Sums, b: Sums): Sums {
    Sums(a.total + b.total, a.accepted + b.accepted, a.bypassed + b.bypassed, a.rejected + b.rejected,
         a.acceptedGain + b.acceptedGain, a.acceptedRisk + b.acceptedRisk, a.acceptedScore + b.acceptedScore,
         a.bypassedGain + b.bypassedGain, a.bypassedRisk + b.bypassedRisk, a.bypassedScore + b.bypassedScore,
         a.rejectedGain + b.rejectedGain, a.rejectedRisk + b.rejectedRisk)
  }

  function AddMaps(a: Maps, b: Maps): Maps {
    Maps(Plus(a.byTransform, b.byTransform), Plus(a.byTransformAction, b.byTransformAction),
         Plus(a.byTransformRejectReason, b.byTransformRejectReason),
         Plus(a.byPassTransformAction, b.byPassTransformAction), Plus(a.byRejectReason, b.byRejectReason),
         Plus(a.byProofStatus, b.byProofStatus))
  }

  function Join(s: Status, file: FileStatus): Status {
    match file
    case Fine => if s == NotRun then OK else s
    case Bad(text) => Failures((if s.Failures? then s.texts else {}) + {text})
  }

  /** The aggregate of per-file summaries; one that is not OK contributes its status only. */
  function Aggregated(files: seq<FileSummary>): Summary {
    if files == [] then Summary(NotRun, NoSums(), NoMaps())
    else
      var s, last := Aggregated(files[..|files| - 1]), files[|files| - 1];
      if last.status.Fine? then
        Summary(Join(s.status, last.status), AddSums(s.sums, last.sums), AddMaps(s.maps, last.maps))
      else s.(status := Join(s.status, last.status))
  }

  /** The decisions of all files, in file order. */
  function AllDecisions(runs: seq<Run>): seq<Decision> {
    if runs == [] then []
    else
      var last := runs[|runs| - 1];
      AllDecisions(runs[..|runs| - 1]) + if last.Listed? then last.decisions else []
  }

  lemma TotalAppend(a: seq<Decision>, b: seq<Decision>, action: string, field: Decision -> int)
    ensures Total(a + b, action, field) == Total(a, action, field) + Total(b, action, field)
  {
    SumAppend(a, b, Weight(action, field));
  }

  /** Collecting is a homomorphism from lists of decisions to summaries. */
  lemma CollectIsHomomorphic(a: seq<Decision>, b: seq<Decision>)
    ensures SumsOf(a + b) == AddSums(SumsOf(a), SumsOf(b))
    ensures MapsOf(a + b) == AddMaps(MapsOf(a), MapsOf(b))
  {
    TotalAppend(a, b, ACCEPT, One);
    TotalAppend(a, b, ACCEPT, Gain);
    TotalAppend(a, b, ACCEPT, Risk);
    TotalAppend(a, b, ACCEPT, Score);
    TotalAppend(a, b, BYPASS, One);
    TotalAppend(a, b, BYPASS, Gain);
    TotalAppend(a, b, BYPASS, Risk);
    TotalAppend(a, b, BYPASS, Score);
    TotalAppend(a, b, REJECT, One);
    TotalAppend(a, b, REJECT, Gain);
    TotalAppend(a, b, REJECT, Risk);
    TallyAppend(a, b, TransformKey);
    TallyAppend(a, b, ActionKey);
    TallyAppend(a, b, TransformReasonKey);
    TallyAppend(a, b, PassKey);
    TallyAppend(a, b, ReasonKey);
    TallyAppend(a, b, ProofKey);
  }

  /** `m[k] = m.get(k, 0) + v` for every entry of `n`. */
  method AddInto(m: Counts, n: Counts) returns (r: Counts)
    ensures r == Plus(m, n)
  {
    r := m;
    var todo := n.Keys;
    while todo != {}
      invariant todo <= n.Keys && PartlyAdded(m, n, todo, r)
      decreases |todo|
    {
      var k :| k in todo;
      AddOne(m, n, todo, r, k);
      r := r[k := Get(r, k) + n[k]];
      todo := todo - {k};
    }
    SameCounts(r, Plus(m, n));
  }

  /** All entries of `n` but those in `todo` are added to `m`. */
  ghost predicate PartlyAdded(m: Counts, n: Counts, todo: set<string>, r: Counts) {
    && (forall k :: k in r <==> k in m || (k in n && k !in todo))
    && (forall k :: k in r ==> r[k] == Get(m, k) + if k in todo then 0 else Get(n, k))
  }

  lemma AddOne(m: Counts, n: Counts, todo: set<string>, r: Counts, k: string)
    requires todo <= n.Keys && PartlyAdded(m, n, todo, r) && k in todo
    ensures PartlyAdded(m, n, todo - {k}, r[k := Get(r, k) + n[k]])
  {
  }

  /** The aggregation loop, table by table. */
  method Aggregate(files: seq<FileSummary>) returns (s: Summary)
    ensures s == Aggregated(files)
  {
    s := Summary(NotRun, NoSums(), NoMaps());
    for j := 0 to |files|
      invariant s == Aggregated(files[..j])
    {
      assert files[..j + 1][..j] == files[..j];
      var status := Join(s.status, files[j].status);
      if files[j].status.Fine? {
        var maps := MergeMaps(s.maps, files[j].maps);
        s := Summary(status, AddSums(s.sums, files[j].sums), maps);
      } else {
        s := s.(status := status);
      }
    }
    assert files[..|files|] == files;
  }

  function Summaries(runs: seq<Run>): (r: seq<FileSummary>)
    ensures |r| == |runs| && forall j :: 0 <= j < |runs| ==> r[j] == SummaryOf(runs[j])
  {
    seq(|runs|, j requires 0 <= j < |runs| => SummaryOf(runs[j]))
  }

  /** Aggregating per-file summaries gives the summary of one pass over the decisions of all files
      that were OK. */
  lemma {:induction false} AggregateIsOnePass(runs: seq<Run>)
    ensures var s := Aggregated(Summaries(runs));
            s.sums == SumsOf(AllDecisions(runs)) && s.maps == MapsOf(AllDecisions(runs))
  {
    if runs != [] {
      var front, last := runs[..|runs| - 1], runs[|runs| - 1];
      AggregateIsOnePass(front);
      assert Summaries(runs)[..|runs| - 1] == Summaries(front);
      if last.Listed? {
        CollectIsHomomorphic(AllDecisions(front), last.decisions);
      } else {
        assert AllDecisions(front) + [] == AllDecisions(front);
      }
    }
  }

  method MergeMaps(a: Maps, b: Maps) returns (r: Maps)
    ensures r == AddMaps(a, b)
  {
    var byTransform := AddInto(a.byTransform, b.byTransform);
    var byTransformAction := AddInto(a.byTransformAction, b.byTransformAction);
    var byTransformRejectReason := AddInto(a.byTransformRejectReason, b.byTransformRejectReason);
    var byPassTransformAction := AddInto(a.byPassTransformAction, b.byPassTransformAction);
    var byRejectReason := AddInto(a.byRejectReason, b.byRejectReason);
    var byProofStatus := AddInto(a.byProofStatus, b.byProofStatus);
    r := Maps(byTransform, byTransformAction, byTransformRejectReason, byPassTransformAction, byRejectReason,
              byProofStatus);
  }

  /** The aggregate is OK exactly when there are files and all of them are; otherwise it names the
      statuses of those that are not. */
  lemma {:induction false} StatusExactly(files: seq<FileSummary>)
    ensures var s := Aggregated(files).status;
            && (s == NotRun <==> files == [])
            && (s == OK <==> files != [] && forall f :: f in files ==> f.status.Fine?)
            && (s.Failures? ==> forall t :: t in s.texts <==> exists f :: f in files && f.status == Bad(t))
  {
    if files != [] {
      var front, last := files[..|files| - 1], files[|files| - 1];
      StatusExactly(front);
      assert last in files && forall f :: f in files <==> f in front || f == last;
    }
  }

  // ---------------------------------------------------------------- conservation

  /** The sum of all entries. */
  ghost function Entries(m: Counts): int
    decreases m.Keys
  {
    if m == map[] then 0
    else
      var k :| k in m;
      m[k] + Entries(m - {k})
  }

  lemma {:induction false} EntriesWithout(m: Counts, k: string)
    requires k in m
    ensures Entries(m) == m[k] + Entries(m - {k})
    decreases m.Keys
  {
    var j :| j in m && Entries(m) == m[j] + Entries(m - {j});
    if j != k {
      EntriesWithout(m - {j}, k);
      EntriesWithout(m - {k}, j);
      assert m - {j} - {k} == m - {k} - {j};
    }
  }

  lemma EntriesBump(m: Counts, k: Option<string>)
    ensures Entries(Bump(m, k)) == Entries(m) + if k.Some? then 1 else 0
  {
    if k.Some? {
      var r := Bump(m, k);
      EntriesWithout(r, k.value);
      assert r - {k.value} == m - {k.value};
      if k.value in m {
        EntriesWithout(m, k.value);
      } else {
        assert m - {k.value} == m;
      }
    }
  }

  /** 1 for a decision that has a key. */
  function Keyed(key: Decision -> Option<string>): Decision -> int {
    d => if key(d).Some? then 1 else 0
  }

  lemma {:induction false} TallyTotal(ds: seq<Decision>, key: Decision -> Option<string>)
    ensures Entries(Tally(ds, key)) == Sum(ds, Keyed(key))
  {
    if ds != [] {
      TallyTotal(ds[..|ds| - 1], key);
      EntriesBump(Tally(ds[..|ds| - 1], key), key(ds[|ds| - 1]));
    }
  }

  lemma {:induction false} SumsAgree(ds: seq<Decision>, f: Decision -> int, g: Decision -> int)
    requires forall d :: d in ds ==> f(d) == g(d)
    ensures Sum(ds, f) == Sum(ds, g)
  {
    if ds != [] {
      SumsAgree(ds[..|ds| - 1], f, g);
    }
  }

  lemma RejectWeight(d: Decision)
    ensures Keyed(ReasonKey)(d) == Weight(REJECT, One)(d) == Keyed(TransformReasonKey)(d)
  {
    assert ReasonKey(d).Some? == Has(d, REJECT) == TransformReasonKey(d).Some?;
    assert Weight(REJECT, One)(d) == Of(d, REJECT, One);
    assert Keyed(ReasonKey)(d) == if ReasonKey(d).Some? then 1 else 0;
    assert Keyed(TransformReasonKey)(d) == if TransformReasonKey(d).Some? then 1 else 0;
    assert One(d) == 1;
  }

  /** Reject reasons are counted once per rejected decision, with or without the transform. */
  lemma ReasonsSumToRejected(ds: seq<Decision>)
    ensures Entries(MapsOf(ds).byRejectReason) == SumsOf(ds).rejected
    ensures Entries(MapsOf(ds).byTransformRejectReason) == SumsOf(ds).rejected
  {
    TallyTotal(ds, ReasonKey);
    TallyTotal(ds, TransformReasonKey);
    forall d ensures Keyed(ReasonKey)(d) == Weight(REJECT, One)(d)
                     && Keyed(TransformReasonKey)(d) == Weight(REJECT, One)(d) {
      RejectWeight(d);
    }
    SumsAgree(ds, Keyed(ReasonKey), Weight(REJECT, One));
    SumsAgree(ds, Keyed(TransformReasonKey), Weight(REJECT, One));
  }

  predicate KnownAction(d: Decision) {
    d.NotAnObject? || Has(d, ACCEPT) || Has(d, BYPASS) || Has(d, REJECT)
  }

  /** The per-transform counts cover all objects, but `total_decisions` only the three known
      actions: the two agree exactly when every decision has a known action. */
  lemma {:induction false} TransformsSumToTotal(ds: seq<Decision>)
    ensures Entries(MapsOf(ds).byTransform) >= SumsOf(ds).total
    ensures Entries(MapsOf(ds).byTransform) == SumsOf(ds).total <==> forall d :: d in ds ==> KnownAction(d)
  {
    TallyTotal(ds, TransformKey);
    Uncovered(ds);
  }

  lemma {:induction false} Uncovered(ds: seq<Decision>)
    ensures var all := Sum(ds, Keyed(TransformKey));
            && all >= SumsOf(ds).total
            && (all == SumsOf(ds).total <==> forall d :: d in ds ==> KnownAction(d))
  {
    if ds != [] {
      var front, last := ds[..|ds| - 1], ds[|ds| - 1];
      Uncovered(front);
      assert ds == front + [last];
      SumsStep(front, last);
      assert last in ds && Keyed(TransformKey)(last) == if last.Decision? then 1 else 0;
      assert forall d :: d in ds <==> d in front || d == last;
    }
  }
}
