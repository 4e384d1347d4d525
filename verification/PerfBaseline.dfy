/** The comparison of a performance report with its baseline, and the gate that reads the result.
    Times are exact reals. */
module PerfBaseline {
  import opened Wrappers

  /** A time cell matches `[0-9]+(\.[0-9]+)?s`: it is never negative. */
  type Seconds = t: real | t >= 0.0

  const CASE_REGRESSION_DELTA_PCT := 20.0
  const CASE_REGRESSION_DELTA_SEC := 0.05
  const CASE_MEASURABLE_DELTA_PCT := 3.0
  const CASE_MEASURABLE_DELTA_SEC := 0.01
  const TOTAL_REGRESSION_DELTA_PCT := 10.0
  const TOTAL_IMPROVEMENT_DELTA_PCT := 10.0

  /** What one report says about a case. */
  datatype Report = Report(
    time: Option<Seconds>,
    assembly: Option<string>,
    executable: Option<string>,
    instructions: Option<int>,
    samples: seq<Seconds>)

  datatype Status = IMPROVEMENT | OK | REGRESSION | CODE_NO_CHANGE | NO_DYNAMIC_CHANGE | INCONCLUSIVE | NO_BASELINE

  datatype Row = Row(
    case': string,
    current: Seconds,
    baseline: Seconds,
    effective: Seconds,
    observedDelta: real,
    observedPct: real,
    status: Status,
    important: bool)

  datatype Payload = Payload(
    status: Status,
    comparable: nat,
    adjudicated: nat,
    currentTotal: real,
    baselineTotal: real,
    totalDelta: real,
    totalPct: real,
    wins: nat,
    losses: nat,
    ties: nat,
    codeNoChange: nat,
    noDynamicChange: nat,
    inconclusive: nat,
    regressions: seq<Row>,
    rows: seq<Row>)

  function Abs(x: real): real {
    if x < 0.0 then -x else x
  }

  // ---------------------------------------------------------------- one case

  function Least(xs: seq<Seconds>): (r: Seconds)
    requires xs != []
    ensures r in xs && forall x :: x in xs ==> r <= x
  {
    assert forall x :: x in xs ==> x == xs[0] || x in xs[1..];
    if |xs| == 1 then xs[0] else var rest := Least(xs[1..]); if xs[0] < rest then xs[0] else rest
  }

  function Greatest(xs: seq<Seconds>): (r: Seconds)
    requires xs != []
    ensures r in xs && forall x :: x in xs ==> x <= r
  {
    assert forall x :: x in xs ==> x == xs[0] || x in xs[1..];
    if |xs| == 1 then xs[0] else var rest := Greatest(xs[1..]); if xs[0] > rest then xs[0] else rest
  }

  /** The same code ran, so a time difference is noise. */
  predicate SameCode(current: Report, baseline: Report) {
    if current.executable.Some? && baseline.executable.Some? then current.executable == baseline.executable
    else current.assembly.Some? && current.assembly == baseline.assembly
  }

  predicate SameCount(current: Report, baseline: Report) {
    current.instructions.Some? && current.instructions == baseline.instructions
  }

  predicate SamplesOverlap(current: Report, baseline: Report) {
    && |current.samples| >= 2 && |baseline.samples| >= 2
    && Least(current.samples) <= Greatest(baseline.samples)
    && Least(baseline.samples) <= Greatest(current.samples)
  }

  function ClassifyChange(current: Report, baseline: Report, currentTime: Seconds, baselineTime: Seconds): Status {
    if SameCode(current, baseline) then CODE_NO_CHANGE
    else if SameCount(current, baseline) then NO_DYNAMIC_CHANGE
    else
      var delta := currentTime - baselineTime;
      var pct := if baselineTime == 0.0 then 0.0 else Abs(delta / baselineTime) * 100.0;
      if pct < CASE_MEASURABLE_DELTA_PCT || Abs(delta) < CASE_MEASURABLE_DELTA_SEC then INCONCLUSIVE
      else if SamplesOverlap(current, baseline) then INCONCLUSIVE
      else if currentTime < baselineTime then IMPROVEMENT
      else REGRESSION
  }

  /** Positive when the current compiler is faster. */
  function SpeedPct(current: real, baseline: real): real {
    if baseline == 0.0 then 0.0 else (baseline - current) / baseline * 100.0
  }

  predicate Measurable(s: Status) {
    s == IMPROVEMENT || s == REGRESSION
  }

  function Compared(name: string, current: Report, baseline: Report): Row
    requires current.time.Some? && baseline.time.Some?
  {
    var c, b := current.time.value, baseline.time.value;
    var status := ClassifyChange(current, baseline, c, b);
    Row(name, c, b, if Measurable(status) then c else b, c - b, SpeedPct(c, b), status,
        status == REGRESSION && SpeedPct(c, b) <= -CASE_REGRESSION_DELTA_PCT && c - b >= CASE_REGRESSION_DELTA_SEC)
  }

  /** The evidence allows a verdict on the times. */
  predicate Judgeable(current: Report, baseline: Report) {
    !SameCode(current, baseline) && !SameCount(current, baseline) && !SamplesOverlap(current, baseline)
  }

  /** Percentage thresholds as bounds on the times. */
  lemma PctAtMost(c: real, b: real, p: real)
    requires b > 0.0
    ensures SpeedPct(c, b) <= -p <==> 100.0 * c >= (100.0 + p) * b
    ensures SpeedPct(c, b) >= p <==> 100.0 * c <= (100.0 - p) * b
  {
    var q := (b - c) / b;
    assert q * b == b - c;
    if 100.0 * q <= -p {
      assert 100.0 * q * b <= -p * b;
    } else {
      assert 100.0 * q * b > -p * b;
    }
    if 100.0 * q >= p {
      assert 100.0 * q * b >= p * b;
    } else {
      assert 100.0 * q * b < p * b;
    }
  }

  lemma AbsPct(c: real, b: real, p: real)
    requires b > 0.0
    ensures Abs((c - b) / b) * 100.0 < p <==> 100.0 * Abs(c - b) < p * b
  {
    var q := (c - b) / b;
    assert q * b == c - b;
    assert Abs(q) * b == Abs(c - b);
    if Abs(q) * 100.0 < p {
      assert Abs(q) * 100.0 * b < p * b;
    } else {
      assert Abs(q) * 100.0 * b >= p * b;
    }
  }

  /** The verdict in terms of the times alone: a change of at least 3% and 10ms. */
  lemma VerdictExactly(name: string, current: Report, baseline: Report)
    requires current.time.Some? && baseline.time.Some?
    ensures var c, b := current.time.value, baseline.time.value;
            var r := Compared(name, current, baseline);
            var far := b > 0.0 && 100.0 * Abs(c - b) >= 3.0 * b && Abs(c - b) >= 0.01;
            && (r.status == REGRESSION <==> Judgeable(current, baseline) && far && c > b)
            && (r.status == IMPROVEMENT <==> Judgeable(current, baseline) && far && c < b)
  {
    var c, b := current.time.value, baseline.time.value;
    if b > 0.0 {
      AbsPct(c, b, 3.0);
    }
  }

  /** An important regression is a judgeable slowdown of at least 20% and 50ms; the evidence floor
      is then met. */
  lemma ImportantExactly(name: string, current: Report, baseline: Report)
    requires current.time.Some? && baseline.time.Some?
    ensures var c, b := current.time.value, baseline.time.value;
            Compared(name, current, baseline).important <==>
              Judgeable(current, baseline) && b > 0.0 && 5.0 * c >= 6.0 * b && c >= b + 0.05
  {
    VerdictExactly(name, current, baseline);
    var c, b := current.time.value, baseline.time.value;
    if b > 0.0 {
      PctAtMost(c, b, 20.0);
    }
  }

  /** Some time of `xs` is at most some time of `ys`. */
  ghost predicate Reaches(xs: seq<Seconds>, ys: seq<Seconds>) {
    exists x, y :: x in xs && y in ys && x <= y
  }

  lemma OverlapExactly(current: Report, baseline: Report)
    ensures SamplesOverlap(current, baseline) <==>
              && |current.samples| >= 2 && |baseline.samples| >= 2
              && Reaches(current.samples, baseline.samples) && Reaches(baseline.samples, current.samples)
  {
    if |current.samples| >= 2 && |baseline.samples| >= 2 {
      ReachesByExtremes(current.samples, baseline.samples);
      ReachesByExtremes(baseline.samples, current.samples);
    }
  }

  lemma ReachesByExtremes(xs: seq<Seconds>, ys: seq<Seconds>)
    requires xs != [] && ys != []
    ensures Reaches(xs, ys) <==> Least(xs) <= Greatest(ys)
  {
    if Reaches(xs, ys) {
      var x, y :| x in xs && y in ys && x <= y;
      assert Least(xs) <= x <= y <= Greatest(ys);
    }
    assert Least(xs) in xs && Greatest(ys) in ys;
  }

  /** When each verdict arises, from the evidence and the times alone: equal executables decide, or
      equal assemblies where an executable is not known; then equal instruction counts; then the
      evidence floor and the samples. */
  lemma EvidenceExactly(name: string, current: Report, baseline: Report)
    requires current.time.Some? && baseline.time.Some?
    ensures var c, b := current.time.value, baseline.time.value;
            var s := Compared(name, current, baseline).status;
            var code := if current.executable.Some? && baseline.executable.Some?
                        then current.executable.value == baseline.executable.value
                        else current.assembly.Some? && baseline.assembly.Some?
                             && current.assembly.value == baseline.assembly.value;
            var count := current.instructions.Some? && baseline.instructions.Some?
                         && current.instructions.value == baseline.instructions.value;
            var near := b == 0.0 || 100.0 * Abs(c - b) < 3.0 * b || Abs(c - b) < 0.01;
            var overlap := |current.samples| >= 2 && |baseline.samples| >= 2
                           && Reaches(current.samples, baseline.samples) && Reaches(baseline.samples, current.samples);
            && (s == CODE_NO_CHANGE <==> code)
            && (s == NO_DYNAMIC_CHANGE <==> !code && count)
            && (s == INCONCLUSIVE <==> !code && !count && (near || overlap))
            && (s == IMPROVEMENT <==> !code && !count && !near && !overlap && c < b)
            && (s == REGRESSION <==> !code && !count && !near && !overlap && c > b)
  {
    OverlapExactly(current, baseline);
    VerdictExactly(name, current, baseline);
  }

  /** The numbers of a row: the speed-up percentage times the baseline is a hundred times the saving. */
  lemma RowExactly(name: string, current: Report, baseline: Report)
    requires current.time.Some? && baseline.time.Some?
    ensures var c, b, r := current.time.value, baseline.time.value, Compared(name, current, baseline);
            && r.case' == name && r.current == c && r.baseline == b && r.observedDelta == c - b
            && r.observedPct * b == (if b > 0.0 then 100.0 * (b - c) else 0.0) && (b == 0.0 ==> r.observedPct == 0.0)
            && r.effective == (if r.status == IMPROVEMENT || r.status == REGRESSION then c else b)
  {
    var c, b := current.time.value, baseline.time.value;
    if b > 0.0 {
      var q: real := (b as real - c) / b;
      assert q * b == b as real - c;
    }
  }

  // ---------------------------------------------------------------- all cases

  type Reports = map<string, Report>

  predicate Timed(name: string, current: Reports, baseline: Reports) {
    name in current && name in baseline && current[name].time.Some? && baseline[name].time.Some?
  }

  /** The cases both reports have, in the order they are walked. */
  ghost predicate Common(order: seq<string>, current: Reports, baseline: Reports) {
    && (forall n :: n in order <==> n in current && n in baseline)
    && (forall i, j :: 0 <= i < j < |order| ==> order[i] != order[j])
  }

  function Rows(order: seq<string>, current: Reports, baseline: Reports): seq<Row> {
    if order == [] then []
    else
      var n, last := |order| - 1, order[|order| - 1];
      Rows(order[..n], current, baseline)
      + if Timed(last, current, baseline) then [Compared(last, current[last], baseline[last])] else []
  }

  function Count(rows: seq<Row>, s: Status): nat {
    if rows == [] then 0 else Count(rows[..|rows| - 1], s) + if rows[|rows| - 1].status == s then 1 else 0
  }

  function Effective(rows: seq<Row>): (t: Seconds) {
    if rows == [] then 0.0 else Effective(rows[..|rows| - 1]) + rows[|rows| - 1].effective
  }

  function Baseline(rows: seq<Row>): (t: Seconds) {
    if rows == [] then 0.0 else Baseline(rows[..|rows| - 1]) + rows[|rows| - 1].baseline
  }

  /** Observed deltas of the rows whose change is measurable. */
  function MeasuredDelta(rows: seq<Row>): real {
    if rows == [] then 0.0
    else
      var last := rows[|rows| - 1];
      MeasuredDelta(rows[..|rows| - 1]) + if Measurable(last.status) then last.observedDelta else 0.0
  }

  function Important(rows: seq<Row>): seq<Row> {
    if rows == [] then []
    else
      var last := rows[|rows| - 1];
      Important(rows[..|rows| - 1]) + if last.important then [last] else []
  }

  function Decide(comparable: nat, adjudicated: nat, codeNoChange: nat, inconclusive: nat, pct: real): Status {
    if comparable == 0 then NO_BASELINE
    else if adjudicated == 0 && codeNoChange == comparable then CODE_NO_CHANGE
    else if adjudicated == 0 && inconclusive == 0 then NO_DYNAMIC_CHANGE
    else if adjudicated == 0 then INCONCLUSIVE
    else if pct <= -TOTAL_REGRESSION_DELTA_PCT then REGRESSION
    else if pct >= TOTAL_IMPROVEMENT_DELTA_PCT then IMPROVEMENT
    else OK
  }

  function Overall(rows: seq<Row>): Status {
    Decide(|rows|, Count(rows, IMPROVEMENT) + Count(rows, REGRESSION), Count(rows, CODE_NO_CHANGE),
           Count(rows, INCONCLUSIVE), SpeedPct(Effective(rows), Baseline(rows)))
  }

  /** The sort key: slowest relative to the baseline first, then the largest loss in seconds. */
  predicate Before(x: Row, y: Row) {
    x.observedPct < y.observedPct || (x.observedPct == y.observedPct && x.observedDelta >= y.observedDelta)
  }

  function Insert(r: Row, rows: seq<Row>): (s: seq<Row>)
    ensures multiset(s) == multiset(rows) + multiset{r}
  {
    if rows == [] || !Before(rows[|rows| - 1], r) then
      (if rows == [] then [r]
       else
         var s := Insert(r, rows[..|rows| - 1]) + [rows[|rows| - 1]];
         assert rows == rows[..|rows| - 1] + [rows[|rows| - 1]];
         s)
    else rows + [r]
  }

  /** The stable sort by `Before`. */
  function Sort(rows: seq<Row>): (s: seq<Row>)
    ensures multiset(s) == multiset(rows)
  {
    if rows == [] then []
    else
      assert rows == rows[..|rows| - 1] + [rows[|rows| - 1]];
      Insert(rows[|rows| - 1], Sort(rows[..|rows| - 1]))
  }

  predicate Ordered(rows: seq<Row>) {
    forall i, j :: 0 <= i < j < |rows| ==> Before(rows[i], rows[j])
  }

  lemma {:induction false} InsertOrdered(r: Row, rows: seq<Row>)
    requires Ordered(rows)
    ensures Ordered(Insert(r, rows))
  {
    if rows != [] && !Before(rows[|rows| - 1], r) {
      var front, last := rows[..|rows| - 1], rows[|rows| - 1];
      InsertOrdered(r, front);
      var s := Insert(r, front);
      forall i | 0 <= i < |s| ensures Before(s[i], last) {
        assert s[i] in multiset(s);
        assert s[i] == r || s[i] in multiset(front);
        if s[i] != r {
          assert s[i] in front;
        }
      }
    }
  }

  lemma {:induction false} SortOrdered(rows: seq<Row>)
    ensures Ordered(Sort(rows))
  {
    if rows != [] {
      SortOrdered(rows[..|rows| - 1]);
      InsertOrdered(rows[|rows| - 1], Sort(rows[..|rows| - 1]));
    }
  }

  /** The rows with this sort key, in order. */
  function WithKey(rows: seq<Row>, pct: real, delta: real): seq<Row> {
    if rows == [] then []
    else
      var last := rows[|rows| - 1];
      WithKey(rows[..|rows| - 1], pct, delta)
      + if last.observedPct == pct && last.observedDelta == delta then [last] else []
  }

  lemma WithKeyMore(rows: seq<Row>, r: Row, pct: real, delta: real)
    ensures WithKey(rows + [r], pct, delta) ==
              WithKey(rows, pct, delta) + if r.observedPct == pct && r.observedDelta == delta then [r] else []
  {
    assert (rows + [r])[..|rows|] == rows;
  }

  lemma {:induction false} InsertIsStable(r: Row, rows: seq<Row>, pct: real, delta: real)
    requires Ordered(rows)
    ensures WithKey(Insert(r, rows), pct, delta) ==
              WithKey(rows, pct, delta) + if r.observedPct == pct && r.observedDelta == delta then [r] else []
  {
    if rows != [] && !Before(rows[|rows| - 1], r) {
      var front, last := rows[..|rows| - 1], rows[|rows| - 1];
      InsertIsStable(r, front, pct, delta);
      WithKeyMore(Insert(r, front), last, pct, delta);
    } else {
      WithKeyMore(rows, r, pct, delta);
    }
  }

  /** Rows with equal keys stay in the order of the cases: with the order of the list and its contents
      this determines it. */
  lemma {:induction false} SortIsStable(rows: seq<Row>, pct: real, delta: real)
    ensures WithKey(Sort(rows), pct, delta) == WithKey(rows, pct, delta)
  {
    if rows != [] {
      var front := rows[..|rows| - 1];
      SortIsStable(front, pct, delta);
      SortOrdered(front);
      InsertIsStable(rows[|rows| - 1], Sort(front), pct, delta);
    }
  }

  /** The list of the payload: worst percentage first, then the largest loss. */
  lemma ListedWorstFirst(rows: seq<Row>, i: nat, j: nat)
    requires i < j < |Summary(rows).regressions|
    ensures var x, y := Summary(rows).regressions[i], Summary(rows).regressions[j];
            x.observedPct < y.observedPct || (x.observedPct == y.observedPct && x.observedDelta >= y.observedDelta)
  {
    SortOrdered(Important(rows));
    assert Before(Summary(rows).regressions[i], Summary(rows).regressions[j]);
  }

  function Summary(rows: seq<Row>): Payload {
    Payload(
      Overall(rows), |rows|, Count(rows, IMPROVEMENT) + Count(rows, REGRESSION), Effective(rows), Baseline(rows),
      Effective(rows) - Baseline(rows), SpeedPct(Effective(rows), Baseline(rows)),
      Count(rows, IMPROVEMENT), Count(rows, REGRESSION),
      Count(rows, CODE_NO_CHANGE) + Count(rows, NO_DYNAMIC_CHANGE) + Count(rows, INCONCLUSIVE),
      Count(rows, CODE_NO_CHANGE), Count(rows, NO_DYNAMIC_CHANGE), Count(rows, INCONCLUSIVE),
      Sort(Important(rows)), rows)
  }

  /** One more row in every aggregate. */
  lemma Appended(rows: seq<Row>, r: Row)
    ensures forall s :: Count(rows + [r], s) == Count(rows, s) + if r.status == s then 1 else 0
    ensures Effective(rows + [r]) == Effective(rows) + r.effective
    ensures Baseline(rows + [r]) == Baseline(rows) + r.baseline
    ensures Important(rows + [r]) == Important(rows) + if r.important then [r] else []
  {
    assert (rows + [r])[..|rows|] == rows;
  }

  lemma RowsGrow(order: seq<string>, k: nat, current: Reports, baseline: Reports)
    requires k < |order|
    ensures Rows(order[..k + 1], current, baseline) ==
              Rows(order[..k], current, baseline)
              + if Timed(order[k], current, baseline)
                then [Compared(order[k], current[order[k]], baseline[order[k]])] else []
  {
    assert order[..k + 1][..k] == order[..k];
  }

  /** The loop counters. */
  datatype Counters = Counters(wins: nat, losses: nat, ties: nat, adjudicated: nat, codeNoChange: nat,
                               noDynamicChange: nat, inconclusive: nat)

  /** The counters for `n(s)` rows of each status `s`. */
  function Counting(n: Status -> nat): Counters {
    Counters(n(IMPROVEMENT), n(REGRESSION), n(CODE_NO_CHANGE) + n(NO_DYNAMIC_CHANGE) + n(INCONCLUSIVE),
             n(IMPROVEMENT) + n(REGRESSION), n(CODE_NO_CHANGE), n(NO_DYNAMIC_CHANGE), n(INCONCLUSIVE))
  }

  function Counted(rows: seq<Row>): Counters {
    Counting(s => Count(rows, s))
  }

  /** One more row: exactly its status is counted once more. */
  method Tally(c: Counters, row: Row, ghost n: Status -> nat, ghost n': Status -> nat) returns (c': Counters)
    requires c == Counting(n) && row.status != OK && row.status != NO_BASELINE
    requires forall s :: n'(s) == n(s) + if row.status == s then 1 else 0
    ensures c' == Counting(n')
  {
    if row.status == IMPROVEMENT {
      c' := c.(wins := c.wins + 1, adjudicated := c.adjudicated + 1);
    } else if row.status == REGRESSION {
      c' := c.(losses := c.losses + 1, adjudicated := c.adjudicated + 1);
    } else if row.status == CODE_NO_CHANGE {
      c' := c.(codeNoChange := c.codeNoChange + 1, ties := c.ties + 1);
    } else if row.status == NO_DYNAMIC_CHANGE {
      c' := c.(noDynamicChange := c.noDynamicChange + 1, ties := c.ties + 1);
    } else {
      c' := c.(inconclusive := c.inconclusive + 1, ties := c.ties + 1);
    }
  }

  /** The row of one case. */
  method Judge(name: string, current: Report, baseline: Report) returns (row: Row)
    requires current.time.Some? && baseline.time.Some?
    ensures row == Compared(name, current, baseline) && row.status != OK && row.status != NO_BASELINE
  {
    var c, b := current.time.value, baseline.time.value;
    var status := ClassifyChange(current, baseline, c, b);
    var pct := SpeedPct(c, b);
    var important := status == REGRESSION && pct <= -CASE_REGRESSION_DELTA_PCT && c - b >= CASE_REGRESSION_DELTA_SEC;
    row := Row(name, c, b, if Measurable(status) then c else b, c - b, pct, status, important);
  }

  /** The walk over the common cases: rows, counters and totals are updated case by case. */
  method Walk(order: seq<string>, current: Reports, baseline: Reports)
    returns (rows: seq<Row>, counters: Counters, currentTotal: real, baselineTotal: real)
    requires Common(order, current, baseline)
    ensures rows == Rows(order, current, baseline) && counters == Counted(rows)
    ensures currentTotal == Effective(rows) && baselineTotal == Baseline(rows)
  {
    rows, counters, currentTotal, baselineTotal := [], Counters(0, 0, 0, 0, 0, 0, 0), 0.0, 0.0;
    for k := 0 to |order|
      invariant rows == Rows(order[..k], current, baseline) && counters == Counted(rows)
      invariant currentTotal == Effective(rows) && baselineTotal == Baseline(rows)
    {
      var name := order[k];
      RowsGrow(order, k, current, baseline);
      if Timed(name, current, baseline) {
        var row := Judge(name, current[name], baseline[name]);
        Appended(rows, row);
        counters := Tally(counters, row, s => Count(rows, s), s => Count(rows + [row], s));
        rows, currentTotal, baselineTotal := rows + [row], currentTotal + row.effective, baselineTotal + row.baseline;
      }
    }
    assert order[..|order|] == order;
  }

  /** The comparison: the walk, then the overall status, and the important rows sorted. */
  method Compare(order: seq<string>, current: Reports, baseline: Reports) returns (p: Payload)
    requires Common(order, current, baseline)
    ensures p == Summary(Rows(order, current, baseline))
  {
    var rows, n, currentTotal, baselineTotal := Walk(order, current, baseline);
    var totalDelta, totalPct := 0.0, 0.0;
    if rows != [] {
      totalDelta, totalPct := currentTotal - baselineTotal, SpeedPct(currentTotal, baselineTotal);
    }
    var status := Decide(|rows|, n.adjudicated, n.codeNoChange, n.inconclusive, totalPct);
    p := Payload(status, |rows|, n.adjudicated, currentTotal, baselineTotal, totalDelta, totalPct, n.wins, n.losses,
                 n.ties, n.codeNoChange, n.noDynamicChange, n.inconclusive, Sort(Important(rows)), rows);
  }

  // ---------------------------------------------------------------- conservation

  /** What the row builder guarantees of every row. */
  predicate Sound(r: Row) {
    && r.status != OK && r.status != NO_BASELINE
    && r.observedDelta == r.current - r.baseline
    && r.effective == (if Measurable(r.status) then r.current else r.baseline)
    && (r.important ==> r.status == REGRESSION)
    && (r.effective > r.baseline <==> r.status == REGRESSION)
    && (r.effective < r.baseline <==> r.status == IMPROVEMENT)
  }

  lemma {:induction false} RowsAreSound(order: seq<string>, current: Reports, baseline: Reports)
    ensures forall r :: r in Rows(order, current, baseline) ==> Sound(r)
  {
    if order != [] {
      RowsAreSound(order[..|order| - 1], current, baseline);
      var last := order[|order| - 1];
      if Timed(last, current, baseline) {
        VerdictExactly(last, current[last], baseline[last]);
      }
    }
  }

  lemma {:induction false} RowTotals(rows: seq<Row>)
    requires forall r :: r in rows ==> Sound(r)
    ensures Count(rows, IMPROVEMENT) + Count(rows, REGRESSION) + Count(rows, CODE_NO_CHANGE)
            + Count(rows, NO_DYNAMIC_CHANGE) + Count(rows, INCONCLUSIVE) == |rows|
    ensures Effective(rows) - Baseline(rows) == MeasuredDelta(rows)
    ensures Count(rows, REGRESSION) == 0 ==> Effective(rows) <= Baseline(rows)
  {
    if rows != [] {
      assert rows[|rows| - 1] in rows;
      RowTotals(rows[..|rows| - 1]);
    }
  }

  /** Every case is counted once, and only measurable changes move the total. */
  lemma Conservation(order: seq<string>, current: Reports, baseline: Reports)
    ensures var p := Summary(Rows(order, current, baseline));
            && p.wins + p.losses + p.ties == p.comparable
            && p.ties == p.codeNoChange + p.noDynamicChange + p.inconclusive
            && p.totalDelta == MeasuredDelta(p.rows)
  {
    RowsAreSound(order, current, baseline);
    RowTotals(Rows(order, current, baseline));
  }

  /** The overall status is REGRESSION exactly when the effective total is at least 10% above a
      positive baseline total; a slower case is then among the rows. */
  lemma OverallRegressionExactly(rows: seq<Row>)
    requires forall r :: r in rows ==> Sound(r)
    ensures Overall(rows) == REGRESSION <==> Baseline(rows) > 0.0 && 10.0 * Effective(rows) >= 11.0 * Baseline(rows)
    ensures Overall(rows) == REGRESSION ==> exists r :: r in rows && r.status == REGRESSION
  {
    RowTotals(rows);
    if Baseline(rows) > 0.0 {
      PctAtMost(Effective(rows), Baseline(rows), 10.0);
    }
    if Overall(rows) == REGRESSION {
      CountWitness(rows, REGRESSION);
    }
  }

  predicate Unmeasured(s: Status) {
    s == CODE_NO_CHANGE || s == NO_DYNAMIC_CHANGE || s == INCONCLUSIVE
  }

  lemma {:induction false} CountsAre(rows: seq<Row>, s: Status)
    ensures Count(rows, s) > 0 <==> exists r :: r in rows && r.status == s
    ensures Count(rows, s) <= |rows|
    ensures Count(rows, s) == |rows| <==> forall r :: r in rows ==> r.status == s
  {
    if rows != [] {
      var front, last := rows[..|rows| - 1], rows[|rows| - 1];
      CountsAre(front, s);
      assert forall r :: r in rows <==> r in front || r == last;
    }
  }

  /** Without a measured change only the kinds of rows decide. */
  lemma QuietExactly(rows: seq<Row>)
    requires rows != [] && Count(rows, IMPROVEMENT) + Count(rows, REGRESSION) == 0
    requires forall r :: r in rows ==> Unmeasured(r.status)
    ensures var s := Overall(rows);
            && (s == CODE_NO_CHANGE <==> forall r :: r in rows ==> r.status == CODE_NO_CHANGE)
            && (s == INCONCLUSIVE <==> exists r :: r in rows && r.status == INCONCLUSIVE)
            && (s == NO_DYNAMIC_CHANGE <==>
                  && (forall r :: r in rows ==> r.status == CODE_NO_CHANGE || r.status == NO_DYNAMIC_CHANGE)
                  && exists r :: r in rows && r.status == NO_DYNAMIC_CHANGE)
            && (s == CODE_NO_CHANGE || s == NO_DYNAMIC_CHANGE || s == INCONCLUSIVE)
  {
    CountsAre(rows, CODE_NO_CHANGE);
    CountsAre(rows, INCONCLUSIVE);
  }

  lemma MeasuredExactly(rows: seq<Row>)
    requires rows != [] && Count(rows, IMPROVEMENT) + Count(rows, REGRESSION) > 0
    ensures var s, c, b := Overall(rows), Effective(rows), Baseline(rows);
            && (s == REGRESSION <==> b > 0.0 && 10.0 * c >= 11.0 * b)
            && (s == IMPROVEMENT <==> b > 0.0 && 10.0 * c <= 9.0 * b)
            && (s == REGRESSION || s == IMPROVEMENT || s == OK)
  {
    if Baseline(rows) > 0.0 {
      PctAtMost(Effective(rows), Baseline(rows), 10.0);
    }
  }

  /** When each overall status arises, in terms of the rows and the two totals. */
  lemma OverallExactly(rows: seq<Row>)
    requires forall r :: r in rows ==> Sound(r)
    ensures var s, c, b := Overall(rows), Effective(rows), Baseline(rows);
            var quiet := forall r :: r in rows ==> Unmeasured(r.status);
            && (s == NO_BASELINE <==> rows == [])
            && (s == CODE_NO_CHANGE <==> rows != [] && forall r :: r in rows ==> r.status == CODE_NO_CHANGE)
            && (s == NO_DYNAMIC_CHANGE <==>
                  && (forall r :: r in rows ==> r.status == CODE_NO_CHANGE || r.status == NO_DYNAMIC_CHANGE)
                  && exists r :: r in rows && r.status == NO_DYNAMIC_CHANGE)
            && (s == INCONCLUSIVE <==> quiet && exists r :: r in rows && r.status == INCONCLUSIVE)
            && (s == REGRESSION <==> !quiet && b > 0.0 && 10.0 * c >= 11.0 * b)
            && (s == IMPROVEMENT <==> !quiet && b > 0.0 && 10.0 * c <= 9.0 * b)
            && (s == OK <==> !quiet && !(b > 0.0 && (10.0 * c >= 11.0 * b || 10.0 * c <= 9.0 * b)))
  {
    if rows != [] {
      CountsAre(rows, IMPROVEMENT);
      CountsAre(rows, REGRESSION);
      if Count(rows, IMPROVEMENT) + Count(rows, REGRESSION) == 0 {
        QuietExactly(rows);
      } else {
        MeasuredExactly(rows);
      }
    }
  }

  /** `at` lists the positions of the cases both reports have times for. */
  predicate TimedAt(at: seq<nat>, order: seq<string>, current: Reports, baseline: Reports) {
    && (forall k :: 0 <= k < |at| ==> at[k] < |order|)
    && (forall k, l :: 0 <= k < l < |at| ==> at[k] < at[l])
    && (forall j :: 0 <= j < |order| ==> (Timed(order[j], current, baseline) <==> j in at))
  }

  lemma TimedAtMore(at: seq<nat>, order: seq<string>, name: string, current: Reports, baseline: Reports)
    requires TimedAt(at, order, current, baseline)
    ensures TimedAt(at + if Timed(name, current, baseline) then [|order|] else [], order + [name], current, baseline)
  {
    var at' := at + if Timed(name, current, baseline) then [|order|] else [];
    forall j | 0 <= j < |order| + 1 ensures Timed((order + [name])[j], current, baseline) <==> j in at' {
      if j < |order| {
        assert j in at' <==> j in at;
      } else {
        assert j !in at;
      }
    }
  }

  /** Every case with two times has exactly one row, in the order of the cases. */
  lemma {:induction false} RowsInOrder(order: seq<string>, current: Reports, baseline: Reports) returns (at: seq<nat>)
    ensures TimedAt(at, order, current, baseline) && |at| == |Rows(order, current, baseline)|
    ensures forall k :: 0 <= k < |at| ==>
              && Timed(order[at[k]], current, baseline)
              && Rows(order, current, baseline)[k]
                 == Compared(order[at[k]], current[order[at[k]]], baseline[order[at[k]]])
  {
    at := [];
    if order != [] {
      var n := |order| - 1;
      var front := RowsInOrder(order[..n], current, baseline);
      at := front + if Timed(order[n], current, baseline) then [n] else [];
      TimedAtMore(front, order[..n], order[n], current, baseline);
      assert order == order[..n] + [order[n]];
    }
  }

  lemma {:induction false} CountWitness(rows: seq<Row>, s: Status)
    ensures Count(rows, s) > 0 ==> exists r :: r in rows && r.status == s
  {
    if rows != [] {
      CountWitness(rows[..|rows| - 1], s);
    }
  }

  // ---------------------------------------------------------------- monotonicity

  /** The same evidence with a current time that is at least as large. */
  predicate Slower(r: Report, r': Report) {
    && r'.(time := r.time) == r
    && r.time.Some? == r'.time.Some?
    && (r.time.Some? ==> r.time.value <= r'.time.value)
  }

  ghost predicate AllSlower(current: Reports, current': Reports) {
    current.Keys == current'.Keys && forall n :: n in current ==> Slower(current[n], current'[n])
  }

  /** The effective time never decreases when the measured time grows. */
  lemma EffectiveIsMonotone(name: string, r: Report, r': Report, baseline: Report)
    requires Slower(r, r') && r.time.Some? && baseline.time.Some?
    ensures var x, x' := Compared(name, r, baseline), Compared(name, r', baseline);
            x.effective <= x'.effective && x.baseline == x'.baseline && (x.important ==> x'.important)
  {
    assert Judgeable(r, baseline) == Judgeable(r', baseline);
    VerdictExactly(name, r, baseline);
    VerdictExactly(name, r', baseline);
    ImportantExactly(name, r, baseline);
    ImportantExactly(name, r', baseline);
  }

  lemma {:induction false} TotalsAreMonotone(order: seq<string>, current: Reports, current': Reports, baseline: Reports)
    requires AllSlower(current, current')
    ensures var x, x' := Rows(order, current, baseline), Rows(order, current', baseline);
            && Effective(x) <= Effective(x') && Baseline(x) == Baseline(x')
            && |Important(x)| <= |Important(x')|
  {
    if order != [] {
      var n, last := |order| - 1, order[|order| - 1];
      TotalsAreMonotone(order[..n], current, current', baseline);
      if last in current { assert Slower(current[last], current'[last]); }
      if Timed(last, current, baseline) {
        EffectiveIsMonotone(last, current[last], current'[last], baseline[last]);
        var x, x' := Rows(order, current, baseline), Rows(order, current', baseline);
        assert x[..|x| - 1] == Rows(order[..n], current, baseline);
        assert x'[..|x'| - 1] == Rows(order[..n], current', baseline);
      } else {
        assert Rows(order, current, baseline) == Rows(order[..n], current, baseline);
        assert Rows(order, current', baseline) == Rows(order[..n], current', baseline);
      }
    }
  }
}
