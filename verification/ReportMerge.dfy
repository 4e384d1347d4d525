/** Merging a remote report list into the local one: run histories by `run_id`, report indices by
    key.  An absent file is an empty list here; nothing is written when nothing is new. */
module ReportMerge {
  import opened Wrappers

  // ---------------------------------------------------------------- run histories

  datatype RunId = Null | Id(text: string)

  /** A list element that is an object, possibly without `run_id`, or anything else. */
  datatype Run = NotAnObject(text: string) | Run(runId: Option<RunId>, content: string)

  datatype Merged = Merged(runs: seq<Run>) | KeyError

  /** `row.get("run_id")`: a missing key reads as null. */
  function GetId(r: Run): RunId
    requires r.Run?
  {
    if r.runId.Some? then r.runId.value else Null
  }

  /** Every object carries its `run_id`. */
  predicate Identified(runs: seq<Run>) {
    forall r :: r in runs && r.Run? ==> r.runId.Some?
  }

  function Ids(runs: seq<Run>): set<RunId> {
    set r | r in runs && r.Run? :: GetId(r)
  }

  predicate IsNew(r: Run, ids: set<RunId>) {
    r.Run? && GetId(r) !in ids
  }

  /** The rows of a list whose `run_id` is not among `ids`. */
  function NewRuns(runs: seq<Run>, ids: set<RunId>): (n: seq<Run>)
    ensures forall r :: r in n <==> r in runs && IsNew(r, ids)
  {
    if runs == [] then []
    else
      var n, last := |runs| - 1, runs[|runs| - 1];
      assert forall r :: r in runs <==> r in runs[..n] || r == last;
      NewRuns(runs[..n], ids) + if IsNew(last, ids) then [last] else []
  }

  /** Local rows are indexed by `run_id`, remote rows looked up. */
  function MergeHistory(local: seq<Run>, remote: seq<Run>): Merged {
    if Identified(local) then Merged(local + NewRuns(remote, Ids(local))) else KeyError
  }

  lemma {:induction false} NewRunsAppend(a: seq<Run>, b: seq<Run>, ids: set<RunId>)
    ensures NewRuns(a + b, ids) == NewRuns(a, ids) + NewRuns(b, ids)
  {
    if b == [] {
      assert a + b == a;
    } else {
      var n := |b| - 1;
      assert (a + b)[..|a + b| - 1] == a + b[..n];
      NewRunsAppend(a, b[..n], ids);
    }
  }

  /** Filtering twice is filtering by both sets. */
  lemma {:induction false} NewRunsTwice(runs: seq<Run>, ids: set<RunId>, more: set<RunId>)
    ensures NewRuns(NewRuns(runs, ids), more) == NewRuns(runs, ids + more)
  {
    if runs != [] {
      var n, last := |runs| - 1, runs[|runs| - 1];
      NewRunsTwice(runs[..n], ids, more);
      NewRunsAppend(NewRuns(runs[..n], ids), if IsNew(last, ids) then [last] else [], more);
      OneRun(last, more);
    }
  }

  lemma OneRun(r: Run, ids: set<RunId>)
    ensures NewRuns([r], ids) == if IsNew(r, ids) then [r] else []
    ensures NewRuns([], ids) == []
  {
    assert [r][..0] == [];
  }

  lemma IdsOfMerge(local: seq<Run>, remote: seq<Run>)
    ensures Ids(local + NewRuns(remote, Ids(local))) == Ids(local) + Ids(remote)
  {
    var m := local + NewRuns(remote, Ids(local));
    forall x | x in Ids(local) + Ids(remote) ensures x in Ids(m) {
      if x in Ids(local) {
        var r :| r in local && r.Run? && GetId(r) == x;
        assert r in m;
      } else {
        var r :| r in remote && r.Run? && GetId(r) == x;
        assert r in NewRuns(remote, Ids(local)) && r in m;
      }
    }
  }

  lemma {:induction false} NothingNew(runs: seq<Run>, ids: set<RunId>)
    requires forall r :: r in runs && r.Run? ==> GetId(r) in ids
    ensures NewRuns(runs, ids) == []
  {
    if runs != [] {
      NothingNew(runs[..|runs| - 1], ids);
    }
  }

  /** `at` lists the positions of the new rows of `runs`, in order. */
  predicate Selects(at: seq<nat>, runs: seq<Run>, ids: set<RunId>) {
    && (forall k :: 0 <= k < |at| ==> at[k] < |runs|)
    && (forall k, l :: 0 <= k < l < |at| ==> at[k] < at[l])
    && (forall j :: 0 <= j < |runs| ==> (IsNew(runs[j], ids) <==> j in at))
  }

  lemma SelectsMore(at: seq<nat>, runs: seq<Run>, r: Run, ids: set<RunId>)
    requires Selects(at, runs, ids)
    ensures Selects(at + if IsNew(r, ids) then [|runs|] else [], runs + [r], ids)
  {
    var at' := at + if IsNew(r, ids) then [|runs|] else [];
    forall j | 0 <= j < |runs| + 1 ensures IsNew((runs + [r])[j], ids) <==> j in at' {
      if j < |runs| {
        assert j in at' <==> j in at;
      } else {
        assert j !in at;
      }
    }
  }

  /** The filter takes exactly the new rows, each once, in their order. */
  lemma {:induction false} NewRunsInOrder(runs: seq<Run>, ids: set<RunId>) returns (at: seq<nat>)
    ensures Selects(at, runs, ids) && |at| == |NewRuns(runs, ids)|
    ensures forall k :: 0 <= k < |at| ==> NewRuns(runs, ids)[k] == runs[at[k]]
  {
    at := [];
    if runs != [] {
      var n := |runs| - 1;
      var front := NewRunsInOrder(runs[..n], ids);
      at := front + if IsNew(runs[n], ids) then [n] else [];
      SelectsMore(front, runs[..n], runs[n], ids);
      assert runs == runs[..n] + [runs[n]];
    }
  }

  /** The local history stays a prefix, no run of either side is lost, and what follows it are
      exactly the remote rows with a new identifier, in remote order and as often as they occur. */
  lemma HistoryKeepsEverything(local: seq<Run>, remote: seq<Run>) returns (at: seq<nat>)
    requires Identified(local)
    ensures var m := MergeHistory(local, remote).runs;
            && local <= m && Ids(m) == Ids(local) + Ids(remote)
            && Selects(at, remote, Ids(local)) && |m| == |local| + |at|
            && forall k :: 0 <= k < |at| ==> m[|local| + k] == remote[at[k]]
  {
    IdsOfMerge(local, remote);
    at := NewRunsInOrder(remote, Ids(local));
  }

  /** Merging the same remote again changes nothing, exactly when every row the first merge took
      over carries its `run_id`; otherwise the second merge raises. */
  lemma HistoryIsIdempotent(local: seq<Run>, remote: seq<Run>)
    requires Identified(local)
    ensures var m := MergeHistory(local, remote);
            MergeHistory(m.runs, remote) == if Identified(NewRuns(remote, Ids(local))) then m else KeyError
  {
    var added := NewRuns(remote, Ids(local));
    IdsOfMerge(local, remote);
    if Identified(added) {
      assert Identified(local + added);
      NothingNew(remote, Ids(local + added));
    } else {
      var r :| r in added && r.Run? && r.runId.None?;
      assert r in local + added;
    }
  }

  /** Merging in any grouping gives the same list. */
  lemma HistoryIsAssociative(a: seq<Run>, b: seq<Run>, c: seq<Run>)
    requires Identified(a) && Identified(b)
    ensures MergeHistory(a, b).Merged? && MergeHistory(b, c).Merged?
    ensures MergeHistory(MergeHistory(a, b).runs, c) == MergeHistory(a, MergeHistory(b, c).runs)
  {
    var ab, bc := MergeHistory(a, b).runs, MergeHistory(b, c).runs;
    assert Identified(ab) by {
      assert forall r :: r in ab ==> r in a || r in b;
    }
    IdsOfMerge(a, b);
    Regroup(a, b, c, Ids(a), Ids(b));
  }

  lemma Regroup(a: seq<Run>, b: seq<Run>, c: seq<Run>, ids: set<RunId>, more: set<RunId>)
    ensures a + NewRuns(b, ids) + NewRuns(c, ids + more) == a + NewRuns(b + NewRuns(c, more), ids)
  {
    NewRunsAppend(b, NewRuns(c, more), ids);
    NewRunsTwice(c, more, ids);
    assert more + ids == ids + more;
  }

  /** Repeated rows inside the remote list are all taken over: the merge removes no duplicates. */
  lemma HistoryKeepsRemoteDuplicates(id: RunId, content: string)
    ensures var r := Run(Some(id), content);
            MergeHistory([], [r, r]) == Merged([r, r])
  {
    var r := Run(Some(id), content);
    assert [r, r][..1] == [r] && [r][..0] == [];
    assert NewRuns([r], {}) == [r];
    assert Ids([]) == {};
    assert [] + [r, r] == [r, r];
  }

  /** When a run is taken over beside one local run: exactly when the identifiers differ, a missing one
      reading as null; a local run without identifier raises. */
  lemma HistoryOfTwo(x: Option<RunId>, y: Option<RunId>, content: string, content': string)
    ensures var l, r := Run(x, content), Run(y, content');
            && (x.None? ==> MergeHistory([l], [r]) == KeyError)
            && (x.Some? && (x == y || (x.value == Null && y.None?)) ==> MergeHistory([l], [r]) == Merged([l]))
            && (x.Some? && x != y && !(x.value == Null && y.None?) ==> MergeHistory([l], [r]) == Merged([l, r]))
  {
    var l, r := Run(x, content), Run(y, content');
    assert l in [l];
    if x.Some? {
      OneRun(r, Ids([l]));
      assert Ids([l]) == {x.value};
      assert [l] + [r] == [l, r] && [l] + [] == [l];
    }
  }

  // ---------------------------------------------------------------- report indices

  /** `id` and `perf_report_url` as text, empty when absent or false. */
  datatype Report = NotAReport(text: string) | Report(id: string, url: string, content: string)

  /** The identifier, or else the URL, or else nothing. */
  function Key(r: Report): string {
    if r.NotAReport? then "" else if r.id != "" then r.id else r.url
  }

  function Keys(rows: seq<Report>): set<string> {
    set r | r in rows && r.Report? :: Key(r)
  }

  /** The rows added by walking `rows` with the keys seen so far. */
  function NewReports(rows: seq<Report>, keys: set<string>): seq<Report> {
    if rows == [] then []
    else if Key(rows[0]) == "" || Key(rows[0]) in keys then NewReports(rows[1..], keys)
    else [rows[0]] + NewReports(rows[1..], keys + {Key(rows[0])})
  }

  function MergeIndex(local: seq<Report>, remote: seq<Report>): seq<Report> {
    local + NewReports(remote, Keys(local))
  }

  /** When a report is taken over beside one local report: a non-empty identifier decides, and the URL
      counts only without one. */
  lemma IndexOfTwo(id: string, url: string, id': string, url': string, content: string, content': string)
    ensures var l, r := Report(id, url, content), Report(id', url', content');
            var m := MergeIndex([l], [r]);
            && (m == [l] || m == [l, r])
            && (id != "" && id' != "" ==> (m == [l] <==> id == id'))
            && (id == "" && id' == "" ==> (m == [l] <==> url' == "" || url == url'))
            && (id != "" && id' == "" ==> (m == [l] <==> url' == "" || id == url'))
            && (id == "" && id' != "" ==> (m == [l] <==> url == id'))
    ensures MergeIndex([Report(id, url, content)], [NotAReport(content')]) == [Report(id, url, content)]
  {
    var l, r, n := Report(id, url, content), Report(id', url', content'), NotAReport(content');
    assert l in [l] && Keys([l]) == {Key(l)};
    OneReport(r, Keys([l]));
    OneReport(n, Keys([l]));
    assert [l] + [r] == [l, r] && [l] + [] == [l];
  }

  lemma OneReport(r: Report, keys: set<string>)
    ensures NewReports([r], keys) == if Key(r) == "" || Key(r) in keys then [] else [r]
  {
    assert [r][1..] == [];
  }

  /** The loop over the remote rows, with its growing key set. */
  method MergeIndexRows(local: seq<Report>, remote: seq<Report>) returns (merged: seq<Report>)
    ensures merged == MergeIndex(local, remote)
  {
    var keys := Keys(local);
    var added: seq<Report> := [];
    for k := 0 to |remote|
      invariant NewReports(remote, Keys(local)) == added + NewReports(remote[k..], keys)
    {
      assert remote[k..][0] == remote[k] && remote[k..][1..] == remote[k + 1..];
      var key := Key(remote[k]);
      if key != "" && key !in keys {
        keys, added := keys + {key}, added + [remote[k]];
      }
    }
    merged := local + added;
  }

  /** The walk adds rows of the list with keys that are new and not empty. */
  lemma {:induction false} AddedRowsAreNew(rows: seq<Report>, keys: set<string>)
    ensures forall r :: r in NewReports(rows, keys) ==> r in rows && r.Report? && Key(r) != "" && Key(r) !in keys
  {
    if rows != [] {
      AddedRowsAreNew(rows[1..], keys);
      AddedRowsAreNew(rows[1..], keys + {Key(rows[0])});
    }
  }

  predicate DistinctKeys(rows: seq<Report>) {
    forall i, j :: 0 <= i < j < |rows| ==> Key(rows[i]) != Key(rows[j])
  }

  lemma PrependDistinct(first: Report, rest: seq<Report>)
    requires DistinctKeys(rest) && forall r :: r in rest ==> Key(r) != Key(first)
    ensures DistinctKeys([first] + rest)
  {
    var n := [first] + rest;
    forall i, j | 0 <= i < j < |n| ensures Key(n[i]) != Key(n[j]) {
      assert n[j] == rest[j - 1] && rest[j - 1] in rest;
      assert i > 0 ==> n[i] == rest[i - 1];
    }
  }

  /** It adds no key twice. */
  lemma {:induction false} AddedKeysAreDistinct(rows: seq<Report>, keys: set<string>)
    ensures DistinctKeys(NewReports(rows, keys))
  {
    if rows != [] {
      var key := Key(rows[0]);
      AddedKeysAreDistinct(rows[1..], keys);
      AddedKeysAreDistinct(rows[1..], keys + {key});
      AddedRowsAreNew(rows[1..], keys + {key});
      PrependDistinct(rows[0], NewReports(rows[1..], keys + {key}));
    }
  }

  /** It adds every key that is new and not empty. */
  lemma {:induction false} AddedKeysAreAll(rows: seq<Report>, keys: set<string>, r: Report)
    requires r in rows && Key(r) != "" && Key(r) !in keys
    ensures exists x :: x in NewReports(rows, keys) && Key(x) == Key(r)
  {
    var key := Key(rows[0]);
    if key == "" || key in keys {
      AddedKeysAreAll(rows[1..], keys, r);
    } else if key == Key(r) {
      assert rows[0] in NewReports(rows, keys);
    } else {
      AddedKeysAreAll(rows[1..], keys + {key}, r);
      var rest := NewReports(rows[1..], keys + {key});
      var x :| x in rest && Key(x) == Key(r);
      assert x in NewReports(rows, keys);
    }
  }

  /** What the walk adds: each new non-empty key once. */
  lemma NewReportsExact(rows: seq<Report>, keys: set<string>)
    ensures var n := NewReports(rows, keys);
            && (forall r :: r in n ==> r in rows && r.Report? && Key(r) != "" && Key(r) !in keys)
            && DistinctKeys(n)
            && Keys(n) == Keys(rows) - keys - {""}
  {
    AddedRowsAreNew(rows, keys);
    AddedKeysAreDistinct(rows, keys);
    var n := NewReports(rows, keys);
    forall x | x in Keys(rows) - keys - {""} ensures x in Keys(n) {
      var r :| r in rows && r.Report? && Key(r) == x;
      AddedKeysAreAll(rows, keys, r);
    }
    assert forall x :: x in Keys(n) ==> x in Keys(rows) - keys - {""};
  }

  /** The local index stays a prefix; every remote key that is not empty is present afterwards, and
      each key that was new is there exactly once. */
  lemma IndexAddsEachNewKeyOnce(local: seq<Report>, remote: seq<Report>)
    ensures var m := MergeIndex(local, remote);
            && local <= m
            && Keys(m) == Keys(local) + (Keys(remote) - {""})
            && DistinctKeys(m[|local|..])
            && forall r :: r in m[|local|..] ==> r in remote && Key(r) !in Keys(local) && Key(r) != ""
  {
    NewReportsExact(remote, Keys(local));
    var n := NewReports(remote, Keys(local));
    KeysAppend(local, n);
    assert MergeIndex(local, remote)[|local|..] == n;
  }

  lemma KeysAppend(a: seq<Report>, b: seq<Report>)
    ensures Keys(a + b) == Keys(a) + Keys(b)
  {
    assert forall r :: r in a + b <==> r in a || r in b;
  }

  lemma {:induction false} NoNewReports(rows: seq<Report>, keys: set<string>)
    requires forall r :: r in rows ==> Key(r) == "" || Key(r) in keys
    ensures NewReports(rows, keys) == []
  {
    if rows != [] {
      NoNewReports(rows[1..], keys);
    }
  }

  /** Merging the same remote again never changes the index. */
  lemma IndexIsIdempotent(local: seq<Report>, remote: seq<Report>)
    ensures MergeIndex(MergeIndex(local, remote), remote) == MergeIndex(local, remote)
  {
    IndexAddsEachNewKeyOnce(local, remote);
    assert forall r :: r in remote && r.Report? ==> Key(r) in Keys(remote);
    NoNewReports(remote, Keys(MergeIndex(local, remote)));
  }

  /** Walking a concatenation continues with the keys the first part added. */
  lemma {:induction false} NewReportsAppend(a: seq<Report>, b: seq<Report>, keys: set<string>)
    ensures NewReports(a + b, keys) == NewReports(a, keys) + NewReports(b, keys + (Keys(a) - {""}))
  {
    if a == [] {
      assert a + b == b && keys + (Keys(a) - {""}) == keys;
    } else {
      var key := Key(a[0]);
      var keys' := if key == "" || key in keys then keys else keys + {key};
      assert (a + b)[1..] == a[1..] + b;
      NewReportsAppend(a[1..], b, keys');
      assert forall r :: r in a <==> r == a[0] || r in a[1..];
      assert keys + (Keys(a) - {""}) == keys' + (Keys(a[1..]) - {""});
    }
  }

  /** Walking what an earlier walk kept, with more keys known, is walking with all of them. */
  lemma {:induction false} NewReportsTwice(rows: seq<Report>, seen: set<string>, keys: set<string>)
    ensures NewReports(NewReports(rows, seen), keys) == NewReports(rows, seen + keys)
  {
    if rows != [] {
      var key := Key(rows[0]);
      if key == "" || key in seen {
        NewReportsTwice(rows[1..], seen, keys);
      } else {
        var rest := NewReports(rows[1..], seen + {key});
        assert NewReports(rows, seen)[0] == rows[0] && NewReports(rows, seen)[1..] == rest;
        if key in keys {
          NewReportsTwice(rows[1..], seen + {key}, keys);
          assert seen + {key} + keys == seen + keys;
        } else {
          NewReportsTwice(rows[1..], seen + {key}, keys + {key});
          assert seen + {key} + (keys + {key}) == seen + keys + {key};
        }
      }
    }
  }

  lemma IndexIsAssociative(a: seq<Report>, b: seq<Report>, c: seq<Report>)
    ensures MergeIndex(MergeIndex(a, b), c) == MergeIndex(a, MergeIndex(b, c))
  {
    var ka, kb := Keys(a), Keys(b);
    var bc := NewReports(c, kb);
    IndexAddsEachNewKeyOnce(a, b);
    NewReportsAppend(b, bc, ka);
    NewReportsTwice(c, kb, ka + (kb - {""}));
    EmptyKeyIsIrrelevant(c, kb + (ka + (kb - {""})), ka + (kb - {""}));
  }

  /** The empty key is skipped before it is looked up. */
  lemma {:induction false} EmptyKeyIsIrrelevant(rows: seq<Report>, keys: set<string>, keys': set<string>)
    requires keys - {""} == keys' - {""}
    ensures NewReports(rows, keys) == NewReports(rows, keys')
  {
    if rows != [] {
      var key := Key(rows[0]);
      assert key != "" ==> (key in keys <==> key in keys - {""}) && (key in keys' <==> key in keys' - {""});
      EmptyKeyIsIrrelevant(rows[1..], keys, keys');
      assert (keys + {key}) - {""} == (keys' + {key}) - {""} by {
        assert forall x :: x in keys && x != "" <==> x in keys - {""};
        assert forall x :: x in keys' && x != "" <==> x in keys' - {""};
      }
      EmptyKeyIsIrrelevant(rows[1..], keys + {key}, keys' + {key});
    }
  }
}
