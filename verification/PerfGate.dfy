/** The regression gate over a comparison payload. */
module PerfGate {
  import opened Wrappers
  import opened PerfBaseline

  /** An entry of the payload's regression list as the gate finds it. */
  datatype Entry = Malformed | Entry(case': string, pct: Option<real>, sec: Option<real>)

  /** The payload as the gate reads it: the regressions field may not be a list. */
  datatype Delta = Delta(status: string, totalPct: Option<real>, regressions: Option<seq<Entry>>)

  datatype Reason =
    | OverallDelta(total: real)
    | OverallRegression
    | UnrecognizedStatus(status: string)
    | InvalidField
    | InvalidRow
    | CaseRegression(case': string, pct: Option<real>, sec: Option<real>)

  function NonBlocking(): set<string> {
    {"IMPROVEMENT", "OK", "CODE_NO_CHANGE", "NO_DYNAMIC_CHANGE", "INCONCLUSIVE", "NO BASELINE"}
  }

  function StatusText(s: Status): string {
    match s
    case IMPROVEMENT => "IMPROVEMENT"
    case OK => "OK"
    case REGRESSION => "REGRESSION"
    case CODE_NO_CHANGE => "CODE_NO_CHANGE"
    case NO_DYNAMIC_CHANGE => "NO_DYNAMIC_CHANGE"
    case INCONCLUSIVE => "INCONCLUSIVE"
    case NO_BASELINE => "NO BASELINE"
  }

  /** The gate reads a written status as the comparison meant it: the texts differ, and all but
      REGRESSION's are the ones that do not block. */
  lemma StatusTextsAreRead(s: Status, t: Status)
    ensures StatusText(s) == StatusText(t) ==> s == t
    ensures StatusText(s) == "REGRESSION" <==> s == REGRESSION
    ensures StatusText(s) in NonBlocking() <==> s != REGRESSION
    ensures forall x :: x in NonBlocking() ==> exists u: Status :: StatusText(u) == x
  {
    assert StatusText(IMPROVEMENT) == "IMPROVEMENT" && StatusText(OK) == "OK";
    assert StatusText(CODE_NO_CHANGE) == "CODE_NO_CHANGE" && StatusText(NO_DYNAMIC_CHANGE) == "NO_DYNAMIC_CHANGE";
    assert StatusText(INCONCLUSIVE) == "INCONCLUSIVE" && StatusText(NO_BASELINE) == "NO BASELINE";
  }

  function EntryReason(e: Entry): Reason {
    match e
    case Malformed => InvalidRow
    case Entry(name, pct, sec) => CaseRegression(name, pct, sec)
  }

  function EntryReasons(entries: seq<Entry>): (r: seq<Reason>)
    ensures |r| == |entries| && forall k :: 0 <= k < |entries| ==> r[k] == EntryReason(entries[k])
  {
    seq(|entries|, k requires 0 <= k < |entries| => EntryReason(entries[k]))
  }

  /** What the overall status contributes. */
  function StatusReasons(d: Delta): seq<Reason> {
    if d.status in NonBlocking() then []
    else if d.status != "REGRESSION" then [UnrecognizedStatus(d.status)]
    else [if d.totalPct.Some? then OverallDelta(d.totalPct.value) else OverallRegression]
  }

  /** The gate walks the status, then the list; a payload it cannot read fails the gate. */
  method RegressionReasons(d: Delta) returns (reasons: seq<Reason>)
    ensures reasons == StatusReasons(d) + match d.regressions
              case None => [InvalidField]
              case Some(entries) => EntryReasons(entries)
    ensures reasons == [] <==> d.status in NonBlocking() && d.regressions == Some([])
  {
    reasons := [];
    if d.status == "REGRESSION" {
      reasons := [if d.totalPct.Some? then OverallDelta(d.totalPct.value) else OverallRegression];
    } else if d.status !in NonBlocking() {
      reasons := [UnrecognizedStatus(d.status)];
    }
    if d.regressions.None? {
      return reasons + [InvalidField];
    }
    var entries := d.regressions.value;
    for k := 0 to |entries|
      invariant reasons == StatusReasons(d) + EntryReasons(entries[..k])
    {
      assert EntryReasons(entries[..k + 1]) == EntryReasons(entries[..k]) + [EntryReason(entries[k])];
      reasons := reasons + [EntryReason(entries[k])];
    }
    assert entries[..|entries|] == entries;
  }

  function Entries(rows: seq<Row>): (r: seq<Entry>)
    ensures |r| == |rows|
    ensures forall k :: 0 <= k < |rows| ==>
              r[k] == Entry(rows[k].case', Some(rows[k].observedPct), Some(rows[k].observedDelta))
  {
    seq(|rows|, k requires 0 <= k < |rows| =>
      Entry(rows[k].case', Some(rows[k].observedPct), Some(rows[k].observedDelta)))
  }

  /** The payload as the comparison writes it. */
  function Written(p: Payload): Delta {
    Delta(StatusText(p.status), Some(p.totalPct), Some(Entries(p.regressions)))
  }

  /** The comparison followed by the gate. */
  predicate GateFails(order: seq<string>, current: Reports, baseline: Reports) {
    var p := Summary(Rows(order, current, baseline));
    p.status == REGRESSION || p.regressions != []
  }

  lemma WrittenStatus(p: Payload)
    ensures StatusReasons(Written(p)) == if p.status == REGRESSION then [OverallDelta(p.totalPct)] else []
  {
    assert p.status != REGRESSION ==> StatusText(p.status) in NonBlocking();
  }

  /** The gate over a written payload reports the overall status, then every important regression,
      worst first, and nothing else. */
  method Gate(order: seq<string>, current: Reports, baseline: Reports) returns (reasons: seq<Reason>)
    requires Common(order, current, baseline)
    ensures var p := Summary(Rows(order, current, baseline));
            && reasons == (if p.status == REGRESSION then [OverallDelta(p.totalPct)] else [])
                          + EntryReasons(Entries(p.regressions))
            && Ordered(p.regressions) && multiset(p.regressions) == multiset(Important(p.rows))
    ensures reasons != [] <==> GateFails(order, current, baseline)
  {
    var p := Compare(order, current, baseline);
    WrittenStatus(p);
    SortOrdered(Important(p.rows));
    reasons := RegressionReasons(Written(p));
  }

  lemma SortKeepsLength(rows: seq<Row>)
    ensures |Sort(rows)| == |rows|
  {
    assert |multiset(Sort(rows))| == |multiset(rows)|;
  }

  /** The gate decides on the times and the evidence alone: the judged total is 10% above the
      baseline total, or some judgeable case is 20% and 50ms slower. */
  lemma GateExactly(order: seq<string>, current: Reports, baseline: Reports)
    ensures var rows := Rows(order, current, baseline);
            GateFails(order, current, baseline) <==>
              || (Baseline(rows) > 0.0 && 10.0 * Effective(rows) >= 11.0 * Baseline(rows))
              || exists n :: n in order && SlowCase(n, current, baseline)
  {
    var rows := Rows(order, current, baseline);
    RowsAreSound(order, current, baseline);
    OverallRegressionExactly(rows);
    SortKeepsLength(Important(rows));
    ImportantCases(order, current, baseline);
  }

  predicate SlowCase(n: string, current: Reports, baseline: Reports) {
    && Timed(n, current, baseline) && Judgeable(current[n], baseline[n])
    && var c, b := current[n].time.value, baseline[n].time.value;
       b > 0.0 && 5.0 * c >= 6.0 * b && c >= b + 0.05
  }

  lemma {:induction false} ImportantCases(order: seq<string>, current: Reports, baseline: Reports)
    ensures Important(Rows(order, current, baseline)) != [] <==>
              exists n :: n in order && SlowCase(n, current, baseline)
  {
    if order != [] {
      var front, last := order[..|order| - 1], order[|order| - 1];
      ImportantCases(front, current, baseline);
      var rows := Rows(order, current, baseline);
      if Timed(last, current, baseline) {
        ImportantExactly(last, current[last], baseline[last]);
        assert rows[..|rows| - 1] == Rows(front, current, baseline);
      } else {
        assert rows == Rows(front, current, baseline);
      }
      assert forall n :: n in order <==> n in front || n == last;
      assert SlowCase(last, current, baseline) ==> last in order;
      assert (exists n :: n in order && SlowCase(n, current, baseline)) <==>
             (exists n :: n in front && SlowCase(n, current, baseline)) || SlowCase(last, current, baseline);
    }
  }

  /** Slower code never passes a gate that faster code failed: raising current times, with all other
      evidence fixed, keeps a failing gate failing. */
  lemma GateIsMonotone(order: seq<string>, current: Reports, current': Reports, baseline: Reports)
    requires AllSlower(current, current')
    ensures GateFails(order, current, baseline) ==> GateFails(order, current', baseline)
  {
    TotalsAreMonotone(order, current, current', baseline);
    RowsAreSound(order, current, baseline);
    RowsAreSound(order, current', baseline);
    var x, x' := Rows(order, current, baseline), Rows(order, current', baseline);
    OverallRegressionExactly(x);
    OverallRegressionExactly(x');
    SortKeepsLength(Important(x));
    SortKeepsLength(Important(x'));
  }

}
