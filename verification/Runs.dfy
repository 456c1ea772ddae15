/**
 * A whole evaluation run (run.py): one episode per model and task, collected in whatever order the
 * jobs finish, then counted per model.
 */
module Runs {
  import opened Base
  import opened Lex

  type Model = string
  type TaskId = string

  datatype Record = Record(model: Model, task: TaskId, solved: bool, infraFailure: bool, promptTokens: nat,
                           completionTokens: nat)

  datatype Summary = Summary(model: Model, episodes: nat, solved: nat, infraFailures: nat, promptTokens: nat,
                             completionTokens: nat)

  /** The record a job leaves: the rollout's own, or a crash record, for the same model and task either way. */
  type Outcome = (Model, TaskId) -> Record

  predicate Faithful(run: Outcome, m: Model, t: TaskId) {
    run(m, t).model == m && run(m, t).task == t
  }

  /** The jobs, model by model and row by row. */
  function Row(run: Outcome, m: Model, tasks: seq<TaskId>): (r: seq<Record>)
    ensures |r| == |tasks| && forall j :: 0 <= j < |tasks| ==> r[j] == run(m, tasks[j])
  {
    if tasks == [] then [] else [run(m, tasks[0])] + Row(run, m, tasks[1..])
  }

  function Jobs(run: Outcome, models: seq<Model>, tasks: seq<TaskId>): seq<Record> {
    if models == [] then [] else Row(run, models[0], tasks) + Jobs(run, models[1..], tasks)
  }

  // ---------------------------------------------------------------- collecting

  function Of(records: seq<Record>, m: Model): seq<Record> {
    if records == [] then [] else (if records[0].model == m then [records[0]] else []) + Of(records[1..], m)
  }

  lemma {:induction false} OfConcat(a: seq<Record>, b: seq<Record>, m: Model)
    ensures Of(a + b, m) == Of(a, m) + Of(b, m)
  {
    if a == [] {
      assert a + b == b;
    } else {
      assert (a + b)[1..] == a[1..] + b && (a + b)[0] == a[0];
      OfConcat(a[1..], b, m);
      var head := if a[0].model == m then [a[0]] else [];
      assert head + (Of(a[1..], m) + Of(b, m)) == head + Of(a[1..], m) + Of(b, m);
    }
  }

  function Total(records: seq<Record>, f: Record -> nat): nat {
    if records == [] then 0 else f(records[0]) + Total(records[1..], f)
  }

  lemma {:induction false} TotalConcat(a: seq<Record>, b: seq<Record>, f: Record -> nat)
    ensures Total(a + b, f) == Total(a, f) + Total(b, f)
  {
    if a == [] {
      assert a + b == b;
    } else {
      assert (a + b)[1..] == a[1..] + b;
      TotalConcat(a[1..], b, f);
    }
  }

  const SOLVED: Record -> nat := (r: Record) => if r.solved then 1 else 0
  const INFRA: Record -> nat := (r: Record) => if r.infraFailure then 1 else 0
  const PROMPT: Record -> nat := (r: Record) => r.promptTokens
  const COMPLETION: Record -> nat := (r: Record) => r.completionTokens

  function SummaryOf(m: Model, records: seq<Record>): Summary {
    Summary(m, |records|, Total(records, SOLVED), Total(records, INFRA), Total(records, PROMPT),
            Total(records, COMPLETION))
  }

  method EmptyLists(models: seq<Model>) returns (byModel: map<Model, seq<Record>>)
    ensures forall m :: m in models <==> m in byModel
    ensures forall m :: m in byModel ==> byModel[m] == []
  {
    byModel := map[];
    for k := 0 to |models|
      invariant forall m :: m in models[..k] <==> m in byModel
      invariant forall m :: m in byModel ==> byModel[m] == []
    {
      assert models[..k + 1] == models[..k] + [models[k]];
      byModel := byModel[models[k] := []];
    }
    assert models[..|models|] == models;
  }

  /** What is listed so far: each model's records, and nothing for models not listed. */
  ghost predicate Lists(byModel: map<Model, seq<Record>>, records: seq<Record>) {
    forall m :: Of(records, m) == if m in byModel then byModel[m] else []
  }

  lemma ListOneMore(byModel: map<Model, seq<Record>>, records: seq<Record>, rec: Record)
    requires Lists(byModel, records)
    ensures Lists(byModel[rec.model := (if rec.model in byModel then byModel[rec.model] else []) + [rec]],
                  records + [rec])
  {
    forall m ensures Of(records + [rec], m) == Of(records, m) + if rec.model == m then [rec] else [] {
      OfConcat(records, [rec], m);
    }
  }

  /** Appends each record to its model's list as it comes in. */
  method Collect(models: seq<Model>, finished: seq<Record>) returns (byModel: map<Model, seq<Record>>)
    ensures forall m :: m in models ==> m in byModel
    ensures Lists(byModel, finished)
  {
    byModel := EmptyLists(models);
    for k := 0 to |finished|
      invariant forall m :: m in models ==> m in byModel
      invariant Lists(byModel, finished[..k])
    {
      var rec := finished[k];
      assert finished[..k + 1] == finished[..k] + [rec];
      ListOneMore(byModel, finished[..k], rec);
      byModel := byModel[rec.model := (if rec.model in byModel then byModel[rec.model] else []) + [rec]];
    }
    assert finished[..|finished|] == finished;
  }

  /** One pass over a model's records. */
  method Summarize(m: Model, records: seq<Record>) returns (s: Summary)
    ensures s == SummaryOf(m, records)
  {
    s := Summary(m, |records|, 0, 0, 0, 0);
    for k := 0 to |records|
      invariant s == Summary(m, |records|, Total(records[..k], SOLVED), Total(records[..k], INFRA),
                             Total(records[..k], PROMPT), Total(records[..k], COMPLETION))
    {
      var r := records[k];
      assert records[..k + 1] == records[..k] + [r];
      TotalOneMore(records[..k], r, SOLVED);
      TotalOneMore(records[..k], r, INFRA);
      TotalOneMore(records[..k], r, PROMPT);
      TotalOneMore(records[..k], r, COMPLETION);
      s := s.(solved := s.solved + (if r.solved then 1 else 0),
              infraFailures := s.infraFailures + (if r.infraFailure then 1 else 0),
              promptTokens := s.promptTokens + r.promptTokens,
              completionTokens := s.completionTokens + r.completionTokens);
    }
    assert records[..|records|] == records;
  }

  lemma TotalOneMore(a: seq<Record>, r: Record, f: Record -> nat)
    ensures Total(a + [r], f) == Total(a, f) + f(r)
  {
    TotalConcat(a, [r], f);
    assert Total([r], f) == f(r) + Total([r][1..], f);
  }

  /** A summary, record by record: from nothing, each record adds itself to the counts it belongs to. */
  lemma SummaryGrows(m: Model, records: seq<Record>, r: Record)
    ensures SummaryOf(m, []) == Summary(m, 0, 0, 0, 0, 0)
    ensures var s := SummaryOf(m, records);
            SummaryOf(m, records + [r])
            == Summary(m, s.episodes + 1,
                       if r.solved then s.solved + 1 else s.solved,
                       if r.infraFailure then s.infraFailures + 1 else s.infraFailures,
                       s.promptTokens + r.promptTokens, s.completionTokens + r.completionTokens)
  {
    TotalOneMore(records, r, SOLVED);
    TotalOneMore(records, r, INFRA);
    TotalOneMore(records, r, PROMPT);
    TotalOneMore(records, r, COMPLETION);
  }

  /** The places of the records with a mark. */
  function Marked(records: seq<Record>, mark: Record -> bool): set<nat> {
    set i: nat | i < |records| && mark(records[i])
  }

  lemma {:induction false} TotalCounts(records: seq<Record>, mark: Record -> bool, f: Record -> nat)
    requires forall r :: f(r) == if mark(r) then 1 else 0
    ensures Total(records, f) == |Marked(records, mark)|
  {
    if records == [] {
      assert Marked(records, mark) == {};
    } else {
      var k := |records| - 1;
      var front := records[..k];
      assert records == front + [records[k]];
      TotalOneMore(front, records[k], f);
      TotalCounts(front, mark, f);
      assert Marked(records, mark) == Marked(front, mark) + if mark(records[k]) then {k} else {};
    }
  }

  /** The counts of a summary are numbers of episodes. */
  lemma SummaryCounts(m: Model, records: seq<Record>)
    ensures SummaryOf(m, records).episodes == |records|
    ensures SummaryOf(m, records).solved == |Marked(records, (r: Record) => r.solved)|
    ensures SummaryOf(m, records).infraFailures == |Marked(records, (r: Record) => r.infraFailure)|
  {
    TotalCounts(records, (r: Record) => r.solved, SOLVED);
    TotalCounts(records, (r: Record) => r.infraFailure, INFRA);
  }

  // ---------------------------------------------------------------- completion order

  /** A total does not depend on the order. */
  lemma {:induction false} TotalPermuted(xs: seq<Record>, ys: seq<Record>, f: Record -> nat)
    requires multiset(xs) == multiset(ys)
    ensures Total(xs, f) == Total(ys, f)
    decreases |ys|
  {
    if ys == [] {
      assert |multiset(xs)| == 0;
    } else {
      assert ys[0] in multiset(ys) && ys[0] in multiset(xs);
      var k :| 0 <= k < |xs| && xs[k] == ys[0];
      SameRest(xs, k, ys);
      TotalPermuted(xs[..k] + xs[k + 1..], ys[1..], f);
      TotalConcat(xs[..k], xs[k..], f);
      TotalConcat(xs[..k], xs[k + 1..], f);
      assert xs == xs[..k] + xs[k..] && xs[k..][1..] == xs[k + 1..];
    }
  }

  /** A model's list holds its records as often as the whole does, and no others. */
  lemma {:induction false} OfCount(xs: seq<Record>, m: Model, r: Record)
    ensures multiset(Of(xs, m))[r] == if r.model == m then multiset(xs)[r] else 0
  {
    if xs != [] {
      OfCount(xs[1..], m, r);
      assert xs == [xs[0]] + xs[1..];
    }
  }

  lemma OfPermuted(xs: seq<Record>, ys: seq<Record>, m: Model)
    requires multiset(xs) == multiset(ys)
    ensures multiset(Of(xs, m)) == multiset(Of(ys, m))
  {
    forall r ensures multiset(Of(xs, m))[r] == multiset(Of(ys, m))[r] {
      OfCount(xs, m, r);
      OfCount(ys, m, r);
    }
  }

  /** The summaries are the same for every completion order. */
  lemma SummaryIgnoresOrder(xs: seq<Record>, ys: seq<Record>, m: Model)
    requires multiset(xs) == multiset(ys)
    ensures SummaryOf(m, Of(xs, m)) == SummaryOf(m, Of(ys, m))
  {
    OfPermuted(xs, ys, m);
    var a, b := Of(xs, m), Of(ys, m);
    assert |multiset(a)| == |multiset(b)|;
    TotalPermuted(a, b, SOLVED);
    TotalPermuted(a, b, INFRA);
    TotalPermuted(a, b, PROMPT);
    TotalPermuted(a, b, COMPLETION);
  }

  // ---------------------------------------------------------------- one record per model and task

  function PairTest(m: Model, t: TaskId): Record -> nat {
    (r: Record) => if r.model == m && r.task == t then 1 else 0
  }

  function Count(records: seq<Record>, m: Model, t: TaskId): nat {
    Total(records, PairTest(m, t))
  }

  lemma {:induction false} CountInRow(run: Outcome, m: Model, tasks: seq<TaskId>, m': Model, t: TaskId)
    requires Distinct(tasks) && forall j :: 0 <= j < |tasks| ==> Faithful(run, m, tasks[j])
    ensures Count(Row(run, m, tasks), m', t) == if m == m' && t in tasks then 1 else 0
  {
    if tasks != [] {
      assert tasks == [tasks[0]] + tasks[1..];
      assert Faithful(run, m, tasks[0]);
      forall j | 0 <= j < |tasks[1..]| ensures Faithful(run, m, tasks[1..][j]) { assert tasks[1..][j] == tasks[j + 1]; }
      CountInRow(run, m, tasks[1..], m', t);
      assert tasks[0] !in tasks[1..];
    }
  }

  /** Distinct models and tasks: every pair has exactly one record, and nothing else has any. */
  lemma {:induction false} OneRecordPerPair(run: Outcome, models: seq<Model>, tasks: seq<TaskId>, m: Model, t: TaskId)
    requires Distinct(models) && Distinct(tasks)
    requires forall i, j :: 0 <= i < |models| && 0 <= j < |tasks| ==> Faithful(run, models[i], tasks[j])
    ensures Count(Jobs(run, models, tasks), m, t) == if m in models && t in tasks then 1 else 0
  {
    if models != [] {
      assert models == [models[0]] + models[1..];
      CountInRow(run, models[0], tasks, m, t);
      forall i, j | 0 <= i < |models[1..]| && 0 <= j < |tasks| ensures Faithful(run, models[1..][i], tasks[j]) {
        assert models[1..][i] == models[i + 1];
      }
      OneRecordPerPair(run, models[1..], tasks, m, t);
      assert models[0] !in models[1..];
      TotalConcat(Row(run, models[0], tasks), Jobs(run, models[1..], tasks), PairTest(m, t));
    }
  }

  /** And in whatever order the jobs finish, each pair still has its one record, in its model's list. */
  lemma OneRecordInAnyOrder(run: Outcome, models: seq<Model>, tasks: seq<TaskId>, finished: seq<Record>, m: Model,
                            t: TaskId)
    requires Distinct(models) && Distinct(tasks)
    requires forall i, j :: 0 <= i < |models| && 0 <= j < |tasks| ==> Faithful(run, models[i], tasks[j])
    requires multiset(finished) == multiset(Jobs(run, models, tasks))
    ensures Count(Of(finished, m), m, t) == if m in models && t in tasks then 1 else 0
  {
    OneRecordPerPair(run, models, tasks, m, t);
    TotalPermuted(finished, Jobs(run, models, tasks), PairTest(m, t));
    CountOwn(finished, m, t);
  }

  lemma {:induction false} CountOwn(records: seq<Record>, m: Model, t: TaskId)
    ensures Count(Of(records, m), m, t) == Count(records, m, t)
  {
    if records != [] {
      CountOwn(records[1..], m, t);
      TotalConcat(if records[0].model == m then [records[0]] else [], Of(records[1..], m), PairTest(m, t));
    }
  }
}
