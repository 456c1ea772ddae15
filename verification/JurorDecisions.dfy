/**
 * Where the vote comes from: over every schedule, what the juror commits to and reveals is what one of
 * its own deliberations on that dispute and round came to.
 */
module JurorDecisions {
  import opened Base
  import opened JurorState
  import opened Juror
  import opened JurorChain
  import opened JurorProtocol
  import opened JurorSafety
  import opened JurorRuns
  import opened JurorTheorems

  // ---------------------------------------------------------------- what one stretch may decide

  /** The decision for a round is as before, or was open and is now what this deliberation came to. */
  predicate DecidedFrom(d: Data, w: Data, t: Task, i: Input, id: nat, r: nat) {
    || RecordOf(w, id, r).decision == RecordOf(d, id, r).decision
    || (RecordOf(d, id, r).decision.None? && t == Deliberating(id, r) && i.verdict.Some?
        && RecordOf(w, id, r).decision == i.verdict)
  }

  /** So it is in memory and in every content the file passes through. */
  ghost predicate Decides(d: Data, o: Outcome, t: Task, i: Input, id: nat, r: nat) {
    && DecidedFrom(d, o.data, t, i, id, r)
    && forall k :: 0 <= k < |o.writes| ==> DecidedFrom(d, o.writes[k], t, i, id, r)
  }

  lemma EnsureDecides(d: Data, id': nat, r': nat, t: Task, i: Input, id: nat, r: nat)
    ensures Decides(d, EnsureDisputeRun(d, id'), t, i, id, r) && Decides(d, RoundRun(d, id', r'), t, i, id, r)
  {
    EnsureKeepsRecords(d, id', r', id, r);
  }

  lemma PutDecides(d: Data, id': nat, r': nat, rec: RoundRecord, t: Task, i: Input, id: nat, r: nat)
    requires rec.decision == RecordOf(d, id', r').decision
    ensures Decides(d, PutRoundRun(d, id', r', rec), t, i, id, r)
  {
    EnsureDecides(d, id', r', t, i, id, r);
    PutThenGet(d, id', r', rec, id, r);
  }

  lemma ResolveDecides(d: Data, id': nat, t: Task, i: Input, id: nat, r: nat)
    ensures Decides(d, ResolveRun(d, id'), t, i, id, r)
  {
    EnsureKeepsRecords(d, id', r, id, r);
  }

  lemma {:induction false} DiscoverDecides(d: Data, events: seq<Log>, t: Task, i: Input, id: nat, r: nat)
    ensures RecordOf(DiscoverRun(d, events).data, id, r) == RecordOf(d, id, r)
    ensures Decides(d, DiscoverRun(d, events), t, i, id, r)
  {
    if events != [] {
      var n := |events| - 1;
      var o := DiscoverRun(d, events[..n]);
      DiscoverDecides(d, events[..n], t, i, id, r);
      if Announces(events[n]) { EnsureKeepsRecords(o.data, events[n].id, r, id, r); }
    }
  }

  lemma ScanDecides(d: Data, events: seq<Log>, to: nat, t: Task, i: Input, id: nat, r: nat)
    ensures Decides(d, ScanRun(d, events, to), t, i, id, r)
  {
    DiscoverDecides(d, events, t, i, id, r);
  }

  lemma PublishDecides(d: Data, id': nat, r': nat, t: Task, i: Input, id: nat, r: nat)
    ensures Decides(d, MaybePublish(d, id', r').outcome, t, i, id, r)
  {
    EnsureDecides(d, id', r', t, i, id, r);
  }

  lemma DriveDecides(H: Hash, p: Proc, id': nat, v: DisputeView, t: Task, i: Input, id: nat, r: nat)
    ensures Decides(p.mem, Drive(H, p, id', v, i).outcome, t, i, id, r)
  {
    EnsureDecides(p.mem, id', v.round, t, i, id, r);
    ResolveDecides(p.mem, id', t, i, id, r);
    var rec := RecordOf(p.mem, id', v.round);
    if ChosenVerdict(rec).Some? {
      PutDecides(p.mem, id', v.round, Fixed(H, rec, id', v.round, ChosenVerdict(rec).value, i.salt), t, i, id, r);
    }
  }

  lemma ConfirmedDecides(p: Proc, m: Message, t: Task, i: Input, id: nat, r: nat)
    ensures Decides(p.mem, Confirmed(p, m).outcome, t, i, id, r)
  {
    var rec := RecordOf(p.mem, m.id, m.round);
    if m.CommitMsg? {
      PutDecides(p.mem, m.id, m.round, rec.(commitConfirmed := true), t, i, id, r);
    } else {
      var o := RevealConfirmedRun(p.mem, m.id, m.round);
      PutDecides(p.mem, m.id, m.round, rec.(revealConfirmed := true), t, i, id, r);
      PutThenGet(p.mem, m.id, m.round, rec.(revealConfirmed := true), id, r);
      EnsureKeepsRecords(o.data, m.id, m.round, id, r);
    }
  }

  lemma DecisionDecides(d: Data, i: Input, id': nat, r': nat, id: nat, r: nat)
    ensures Decides(d, DecisionRun(d, id', r', i.verdict), Deliberating(id', r'), i, id, r)
  {
    var t := Deliberating(id', r');
    EnsureDecides(d, id', r', t, i, id, r);
    var rec := RecordOf(d, id', r');
    if i.verdict.Some? && rec.verdict.None? && rec.decision.None? {
      DecisionStored(d, id', r', i.verdict.value, id, r);
    }
  }

  lemma WorkDecides(H: Hash, p: Proc, executed: set<Message>, t: Task, i: Input, id: nat, r: nat)
    ensures Decides(p.mem, Work(H, p, executed, t, i).outcome, t, i, id, r)
  {
    match t
    case Driving(id', v) => DriveDecides(H, p, id', v, t, i, id, r);
    case Sending(m) =>
    case Sent(m) =>
      var rec := RecordOf(p.mem, m.id, m.round);
      if m.CommitMsg? { PutDecides(p.mem, m.id, m.round, rec.(commitTx := Some(i.tx)), t, i, id, r); }
      else { PutDecides(p.mem, m.id, m.round, rec.(revealTx := Some(i.tx)), t, i, id, r); }
    case Confirming(m) => ConfirmedDecides(p, m, t, i, id, r);
    case Deliberating(id', r') => DecisionDecides(p.mem, i, id', r', id, r);
    case Publishing(id', r') =>
      PutDecides(p.mem, id', r', RecordOf(p.mem, id', r').(published := true), t, i, id, r);
    case Finishing(id', rounds) =>
      if rounds == [] { ResolveDecides(p.mem, id', t, i, id, r); }
      else { PublishDecides(p.mem, id', rounds[0], t, i, id, r); }
    case Fetched(from, to, events) => ScanDecides(p.mem, events, to, t, i, id, r);
  }

  // ---------------------------------------------------------------- any schedule

  /** Step k of the schedule ends a deliberation on this round, and it came to `v`. */
  ghost predicate DeliberatedAt(c: Config, steps: seq<Step>, k: nat, id: nat, r: nat, v: Verdict) {
    && k < |steps| && steps[k].Resume?
    && steps[k].task == Deliberating(id, r) && steps[k].input.verdict == Some(v)
    && Run(c, INIT, steps[..k]).proc.Some? && steps[k].task in Run(c, INIT, steps[..k]).proc.value.tasks
  }

  ghost predicate Deliberated(c: Config, steps: seq<Step>, id: nat, r: nat, v: Verdict) {
    exists k: nat :: DeliberatedAt(c, steps, k, id, r, v)
  }

  lemma DeliberatedBefore(c: Config, steps: seq<Step>, id: nat, r: nat, v: Verdict)
    requires steps != [] && Deliberated(c, steps[..|steps| - 1], id, r, v)
    ensures Deliberated(c, steps, id, r, v)
  {
    var before := steps[..|steps| - 1];
    var k: nat :| DeliberatedAt(c, before, k, id, r, v);
    assert before[..k] == steps[..k] && before[k] == steps[k];
    assert DeliberatedAt(c, steps, k, id, r, v);
  }

  /** What one step does to a stored decision: nothing, unless it is open and a deliberation on it ends. */
  lemma StepDecides(c: Config, s: Sys, step: Step, id: nat, r: nat)
    requires Inv(c, s)
    ensures var a, b := RecordOf(Held(c, s), id, r).decision, RecordOf(Held(c, Next(c, s, step)), id, r).decision;
            || a == b
            || (a.None? && b.Some? && step.Resume? && step.task == Deliberating(id, r) && step.input.verdict == b
                && s.proc.Some? && step.task in s.proc.value.tasks)
  {
    match step
    case Resume(t, i, dies) =>
      if s.proc.Some? && t in s.proc.value.tasks {
        var p := s.proc.value;
        var o := Work(c.H, p, s.executed, t, i).outcome;
        WorkDecides(c.H, p, s.executed, t, i, id, r);
        assert SameVote(RecordOf(Held(c, s), id, r), RecordOf(p.mem, id, r));
        var k := if dies.Some? && dies.value <= |o.writes| then dies.value else |o.writes|;
        assert o.writes[..|o.writes|] == o.writes;
        if k > 0 { assert Held(c, Next(c, s, step)) == o.writes[k - 1]; }
      }
    case _ =>
  }

  /** Every decision on file is what a deliberation of the schedule came to. */
  lemma {:induction false} DecisionsAreDeliberated(c: Config, steps: seq<Step>, id: nat, r: nat)
    ensures var d := RecordOf(Held(c, Run(c, INIT, steps)), id, r).decision;
            d.Some? ==> Deliberated(c, steps, id, r, d.value)
  {
    if steps != [] {
      var n := |steps| - 1;
      var s := Run(c, INIT, steps[..n]);
      DecisionsAreDeliberated(c, steps[..n], id, r);
      Reachable(c, steps[..n]);
      StepDecides(c, s, steps[n], id, r);
      var a, b := RecordOf(Held(c, s), id, r).decision, RecordOf(Held(c, Next(c, s, steps[n])), id, r).decision;
      if b.Some? {
        if a == b { DeliberatedBefore(c, steps, id, r, b.value); }
        else { assert DeliberatedAt(c, steps, n, id, r, b.value); }
      }
    }
  }

  /** A decision on file is never replaced. */
  lemma {:induction false} DecisionStays(c: Config, before: seq<Step>, after: seq<Step>, id: nat, r: nat)
    requires RecordOf(Held(c, Run(c, INIT, before)), id, r).decision.Some?
    ensures RecordOf(Held(c, Run(c, Run(c, INIT, before), after)), id, r).decision
            == RecordOf(Held(c, Run(c, INIT, before)), id, r).decision
  {
    if after != [] {
      var n := |after| - 1;
      DecisionStays(c, before, after[..n], id, r);
      Reachable(c, before);
      RunKeeps(c, Run(c, INIT, before), after[..n]);
      StepDecides(c, Run(c, Run(c, INIT, before), after[..n]), after[n], id, r);
    }
  }

  predicate CommitsTo(c: Config, m: Message, v: Verdict, salt: Salt)
    requires m.CommitMsg?
  {
    c.H(m.id, m.round, v, salt) == m.commitment
  }

  /**
   * Whatever the juror hands to the network votes what it decided: every commitment is the hash of the
   * verdict one of its deliberations on that round came to, and every reveal gives such a verdict.
   */
  lemma VotesAreDeliberated(c: Config, steps: seq<Step>, m: Message)
    requires m in Run(c, INIT, steps).net
    ensures m.RevealMsg? ==> Deliberated(c, steps, m.id, m.round, m.verdict)
    ensures m.CommitMsg? ==>
              exists v, salt :: CommitsTo(c, m, v, salt) && Deliberated(c, steps, m.id, m.round, v)
  {
    var s := Run(c, INIT, steps);
    Reachable(c, steps);
    assert Backed(c, s.chain, Held(c, s), m);
    var rec := RecordOf(Held(c, s), m.id, m.round);
    assert Sound(c.H, m.id, m.round, rec);
    DecisionsAreDeliberated(c, steps, m.id, m.round);
    if m.CommitMsg? {
      assert CommitsTo(c, m, rec.verdict.value, rec.salt.value);
      assert Deliberated(c, steps, m.id, m.round, rec.verdict.value);
    }
  }
}
