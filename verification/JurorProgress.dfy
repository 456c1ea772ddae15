/**
 * The juror gets on: from whatever state a schedule leaves, a restarted process that is then left alone
 * decides, commits, publishes and finishes, and reads on in the log.
 */
module JurorProgress {
  import opened Base
  import opened JurorState
  import opened Juror
  import opened JurorChain
  import opened JurorProtocol
  import opened JurorSafety
  import opened JurorRuns
  import opened JurorTheorems

  // ---------------------------------------------------------------- from a restart to the phase

  lemma {:induction false} RunConcat(c: Config, s: Sys, a: seq<Step>, b: seq<Step>)
    ensures Run(c, s, a + b) == Run(c, Run(c, s, a), b)
  {
    if b == [] {
      assert a + b == a;
    } else {
      var n := |b| - 1;
      RunConcat(c, s, a, b[..n]);
      assert (a + b)[..|a + b| - 1] == a + b[..n] && (a + b)[|a + b| - 1] == b[n];
    }
  }

  /** Killed, started again, and the answer about one dispute handled. */
  function Restart(ch: Chain, id: nat, i: Input): seq<Step> {
    [Kill, Start(false), ReadDispute(id, ch.now), Resume(Driving(id, ViewOf(ch, id, ch.now)), i, None)]
  }

  /** What the process does with that answer, its memory being what the file holds. */
  function AfterRestart(c: Config, s: Sys, id: nat, i: Input): Effect {
    var view := ViewOf(s.chain, id, s.chain.now);
    Drive(c.H, Proc(Held(c, s), {Driving(id, view)}), id, view, i)
  }

  lemma FourSteps(c: Config, s: Sys, a1: Step, a2: Step, a3: Step, a4: Step)
    ensures Run(c, s, [a1, a2, a3, a4]) == Next(c, Next(c, Next(c, Next(c, s, a1), a2), a3), a4)
  {
    RunOneMore(c, s, [], a1);
    RunOneMore(c, s, [a1], a2);
    RunOneMore(c, s, [a1, a2], a3);
    RunOneMore(c, s, [a1, a2, a3], a4);
    assert [] + [a1] == [a1] && [a1] + [a2] == [a1, a2] && [a1, a2] + [a3] == [a1, a2, a3];
    assert [a1, a2, a3] + [a4] == [a1, a2, a3, a4];
  }

  lemma TwoSteps(c: Config, s: Sys, a1: Step, a2: Step)
    ensures Run(c, s, [a1, a2]) == Next(c, Next(c, s, a1), a2)
  {
    RunOneMore(c, s, [], a1);
    RunOneMore(c, s, [a1], a2);
    assert [] + [a1] == [a1] && [a1] + [a2] == [a1, a2];
  }

  lemma OneStep(c: Config, s: Sys, a1: Step)
    ensures Run(c, s, [a1]) == Next(c, s, a1)
  {
    RunOneMore(c, s, [], a1);
    assert [] + [a1] == [a1];
  }

  lemma Restarts(c: Config, s: Sys, id: nat, i: Input)
    requires id in Held(c, s).disputes && !Held(c, s).disputes[id].resolved
    ensures var e := AfterRestart(c, s, id, i);
            Run(c, s, Restart(s.chain, id, i))
            == s.(disk := After(Some(Held(c, s)), e.outcome.writes), proc := Some(Proc(e.outcome.data, e.tasks)),
                  released := s.released + e.released, alarms := s.alarms + e.alarms)
  {
    var view := ViewOf(s.chain, id, s.chain.now);
    var t := Driving(id, view);
    var held := Held(c, s);
    FourSteps(c, s, Kill, Start(false), ReadDispute(id, s.chain.now), Resume(t, i, None));
    var s2 := s.(disk := Some(held), proc := Some(Proc(held, {})));
    assert Next(c, Next(c, s, Kill), Start(false)) == s2;
    assert {} + {t} == {t};
    var s3 := s.(disk := Some(held), proc := Some(Proc(held, {t})));
    assert Next(c, s2, ReadDispute(id, s.chain.now)) == s3;
    var e := AfterRestart(c, s, id, i);
    assert {t} - {t} + e.tasks == e.tasks;
  }

  // ---------------------------------------------------------------- deciding and committing

  /** The contract would take a commitment of this juror now. */
  predicate CommitWindow(ch: Chain, id: nat) {
    && MaySee(ch, id)
    && ch.now <= ch.disputes[id].commitDeadline
    && ch.disputes[id].seats[ch.disputes[id].round].commitment == ZERO32
  }

  /** Nothing decided yet: the restarted process deliberates, and what comes back is on file. */
  lemma RestartDecides(c: Config, steps: seq<Step>, id: nat, i: Input, j: Input)
    requires var s := Run(c, INIT, steps);
             && CommitWindow(s.chain, id) && id in Held(c, s).disputes && !Held(c, s).disputes[id].resolved
             && ChosenVerdict(RecordOf(Held(c, s), id, s.chain.disputes[id].round)).None?
    requires !i.waiting && j.verdict.Some?
    ensures var s := Run(c, INIT, steps);
            var r := s.chain.disputes[id].round;
            var n := Run(c, s, Restart(s.chain, id, i) + [Resume(Deliberating(id, r), j, None)]);
            n.disk.Some? && RecordOf(n.disk.value, id, r).decision == j.verdict
  {
    var s := Run(c, INIT, steps);
    var r := s.chain.disputes[id].round;
    var held := Held(c, s);
    Restarts(c, s, id, i);
    var m := Run(c, s, Restart(s.chain, id, i));
    assert PhaseOf(ViewOf(s.chain, id, s.chain.now)) == Commit;
    assert m.proc.value == Proc(EnsureRound(held, id, r), {Deliberating(id, r)});
    EnsureKeepsRecords(held, id, r, id, r);
    DecisionStored(m.proc.value.mem, id, r, j.verdict.value, id, r);
    RunConcat(c, s, Restart(s.chain, id, i), [Resume(Deliberating(id, r), j, None)]);
    OneStep(c, m, Resume(Deliberating(id, r), j, None));
  }

  /** What a restarted process commits to: the stored secret, or its decision under a fresh salt. */
  function Pledge(c: Config, d: Data, id: nat, r: nat, salt: Salt): Option<Commitment> {
    var rec := RecordOf(d, id, r);
    if HasSecret(rec) then rec.commitment
    else if rec.decision.Some? then Some(c.H(id, r, rec.decision.value, salt))
    else None
  }

  /** Something decided: the restarted process sends its commitment, and executed in time it is on chain. */
  lemma RestartCommits(c: Config, steps: seq<Step>, id: nat, i: Input)
    requires var s := Run(c, INIT, steps);
             && CommitWindow(s.chain, id) && id in Held(c, s).disputes && !Held(c, s).disputes[id].resolved
             && RecordOf(Held(c, s), id, s.chain.disputes[id].round).decision.Some?
             && Pledge(c, Held(c, s), id, s.chain.disputes[id].round, i.salt) != Some(ZERO32)
    ensures var s := Run(c, INIT, steps);
            var r := s.chain.disputes[id].round;
            var pledge := Pledge(c, Held(c, s), id, r, i.salt);
            && pledge.Some?
            && var m := CommitMsg(id, r, pledge.value);
               var n := Run(c, s, Restart(s.chain, id, i) + [Broadcast(m), Deliver(m)]);
               Seated(n.chain, id, r) && OnChain(n.chain, id, r).commitment == pledge.value
  {
    var s := Run(c, INIT, steps);
    var r := s.chain.disputes[id].round;
    var held := Held(c, s);
    Reachable(c, steps);
    assert Sound(c.H, id, r, RecordOf(held, id, r));
    Restarts(c, s, id, i);
    var m := CommitMsg(id, r, Pledge(c, held, id, r, i.salt).value);
    var a := Run(c, s, Restart(s.chain, id, i));
    SendsPledge(c, s, id, i);
    RunConcat(c, s, Restart(s.chain, id, i), [Broadcast(m), Deliver(m)]);
    PledgeLands(c, a, id, m);
  }

  lemma PledgeLands(c: Config, a: Sys, id: nat, m: Message)
    requires CommitWindow(a.chain, id) && a.proc.Some? && Sending(m) in a.proc.value.tasks
    requires m.CommitMsg? && m.id == id && m.round == a.chain.disputes[id].round && m.commitment != ZERO32
    ensures var n := Run(c, a, [Broadcast(m), Deliver(m)]);
            Seated(n.chain, id, m.round) && OnChain(n.chain, id, m.round).commitment == m.commitment
  {
    TwoSteps(c, a, Broadcast(m), Deliver(m));
    var b := Next(c, a, Broadcast(m));
    assert m in b.net && b.chain == a.chain && AcceptsCommit(a.chain, id, m.commitment);
  }

  lemma SendsPledge(c: Config, s: Sys, id: nat, i: Input)
    requires CommitWindow(s.chain, id)
    requires var r := s.chain.disputes[id].round;
             var rec := RecordOf(Held(c, s), id, r);
             Sound(c.H, id, r, rec) && rec.decision.Some?
    ensures var r := s.chain.disputes[id].round;
            var pledge := Pledge(c, Held(c, s), id, r, i.salt);
            pledge.Some? && AfterRestart(c, s, id, i).tasks == {Sending(CommitMsg(id, r, pledge.value))}
  {
    var r := s.chain.disputes[id].round;
    var held := Held(c, s);
    assert PhaseOf(ViewOf(s.chain, id, s.chain.now)) == Commit;
    Prepared(c.H, held, id, r, ChosenVerdict(RecordOf(held, id, r)).value, i.salt);
  }

  // ---------------------------------------------------------------- publishing and finishing

  /** The own vote is revealed and its rationale not out yet: the restarted process releases it. */
  lemma RestartPublishes(c: Config, steps: seq<Step>, id: nat, i: Input, j: Input)
    requires var s := Run(c, INIT, steps);
             && MaySee(s.chain, id) && id in Held(c, s).disputes && !Held(c, s).disputes[id].resolved
             && var r := s.chain.disputes[id].round;
                OnChain(s.chain, id, r).commitment != ZERO32 && OnChain(s.chain, id, r).revealed
                && !RecordOf(Held(c, s), id, r).published
    ensures var s := Run(c, INIT, steps);
            var r := s.chain.disputes[id].round;
            var n := Run(c, s, Restart(s.chain, id, i) + [Resume(Publishing(id, r), j, None)]);
            && (id, r) in n.released
            && n.disk.Some? && RecordOf(n.disk.value, id, r).published
  {
    var s := Run(c, INIT, steps);
    var r := s.chain.disputes[id].round;
    var held := Held(c, s);
    Reachable(c, steps);
    assert Opens(c.H, held, id, r, OnChain(s.chain, id, r).commitment);
    assert Sound(c.H, id, r, RecordOf(held, id, r));
    Restarts(c, s, id, i);
    ReleasesNow(c, s, id, i);
    var m := Run(c, s, Restart(s.chain, id, i));
    RunConcat(c, s, Restart(s.chain, id, i), [Resume(Publishing(id, r), j, None)]);
    ThenMarked(c, m, id, r, j);
  }

  lemma ReleasesNow(c: Config, s: Sys, id: nat, i: Input)
    requires MaySee(s.chain, id)
    requires var r := s.chain.disputes[id].round;
             && OnChain(s.chain, id, r).commitment != ZERO32 && OnChain(s.chain, id, r).revealed
             && Opens(c.H, Held(c, s), id, r, OnChain(s.chain, id, r).commitment)
             && Sound(c.H, id, r, RecordOf(Held(c, s), id, r)) && !RecordOf(Held(c, s), id, r).published
    ensures var r := s.chain.disputes[id].round;
            var e := AfterRestart(c, s, id, i);
            e.tasks == {Publishing(id, r)} && (id, r) in e.released
  {
    assert PhaseOf(ViewOf(s.chain, id, s.chain.now)) == Publish;
  }

  lemma ThenMarked(c: Config, m: Sys, id: nat, r: nat, j: Input)
    requires m.proc.Some? && Publishing(id, r) in m.proc.value.tasks && (id, r) in m.released
    ensures var n := Next(c, m, Resume(Publishing(id, r), j, None));
            Run(c, m, [Resume(Publishing(id, r), j, None)]) == n
            && (id, r) in n.released && n.disk.Some? && RecordOf(n.disk.value, id, r).published
  {
    OneStep(c, m, Resume(Publishing(id, r), j, None));
    var mem := m.proc.value.mem;
    PutThenGet(mem, id, r, RecordOf(mem, id, r).(published := true), id, r);
  }

  /** A rationale is released only from a complete record that is not marked published. */
  lemma ReleasesOnlyNew(H: Hash, p: Proc, executed: set<Message>, t: Task, i: Input, id: nat, r: nat)
    requires (id, r) in Work(H, p, executed, t, i).released
    ensures var rec := RecordOf(p.mem, id, r);
            rec.decision.Some? && rec.verdict.Some? && rec.commitment.Some? && !rec.published
  {
    if t.Confirming? && t.msg.RevealMsg? {
      PutThenGet(p.mem, t.msg.id, t.msg.round,
                 RecordOf(p.mem, t.msg.id, t.msg.round).(revealConfirmed := true), id, r);
    }
  }

  /** The rounds a resolved dispute was sat in, one after the other, and then the mark. */
  function FinishSteps(id: nat, rounds: seq<nat>, i: Input): seq<Step> {
    [Resume(Finishing(id, rounds), i, None)] + if rounds == [] then [] else FinishSteps(id, rounds[1..], i)
  }

  lemma {:induction false} FinishRuns(c: Config, s: Sys, id: nat, rounds: seq<nat>, i: Input)
    requires s.proc.Some? && Finishing(id, rounds) in s.proc.value.tasks && id in s.proc.value.mem.disputes
    ensures var n := Run(c, s, FinishSteps(id, rounds, i));
            n.disk.Some? && id in n.disk.value.disputes && n.disk.value.disputes[id].resolved
    ensures forall r :: r in rounds && Publishable(RecordOf(s.proc.value.mem, id, r)) ==>
              (id, r) in Run(c, s, FinishSteps(id, rounds, i)).released
    decreases |rounds|
  {
    var step := Resume(Finishing(id, rounds), i, None);
    OneStep(c, s, step);
    var n := Next(c, s, step);
    if rounds == [] {
      assert FinishSteps(id, rounds, i) == [step];
    } else {
      var mem := s.proc.value.mem;
      RunConcat(c, s, [step], FinishSteps(id, rounds[1..], i));
      forall r ensures RecordOf(n.proc.value.mem, id, r) == RecordOf(mem, id, r) {
        EnsureKeepsRecords(mem, id, rounds[0], id, r);
      }
      EnsureKeepsRecords(mem, id, rounds[0], id, rounds[0]);
      FinishRuns(c, n, id, rounds[1..], i);
      ReleasedStays(c, n, FinishSteps(id, rounds[1..], i));
      forall r | r in rounds && Publishable(RecordOf(mem, id, r))
        ensures (id, r) in Run(c, s, FinishSteps(id, rounds, i)).released
      {
        if r != rounds[0] { assert r in rounds[1..]; }
      }
    }
  }

  lemma {:induction false} ReleasedStays(c: Config, s: Sys, steps: seq<Step>)
    ensures s.released <= Run(c, s, steps).released
  {
    if steps != [] { ReleasedStays(c, s, steps[..|steps| - 1]); }
  }

  /** The dispute is settled: the restarted process releases what is left to publish and marks it resolved. */
  lemma RestartFinishes(c: Config, steps: seq<Step>, id: nat, i: Input, r: nat)
    requires var s := Run(c, INIT, steps);
             && id in s.chain.disputes && s.chain.disputes[id].falseDescription && s.chain.disputes[id].stage == Settled
             && id in Held(c, s).disputes && !Held(c, s).disputes[id].resolved
    ensures var s := Run(c, INIT, steps);
            var mine := ViewOf(s.chain, id, s.chain.now).mine;
            var n := Run(c, s, Restart(s.chain, id, i) + FinishSteps(id, mine, i));
            && n.disk.Some? && id in n.disk.value.disputes && n.disk.value.disputes[id].resolved
            && (Seated(s.chain, id, r) && Publishable(RecordOf(Held(c, s), id, r)) ==> (id, r) in n.released)
  {
    var s := Run(c, INIT, steps);
    var mine := ViewOf(s.chain, id, s.chain.now).mine;
    Reachable(c, steps);
    assert DisputeOk(s.chain.disputes[id]);
    Restarts(c, s, id, i);
    assert PhaseOf(ViewOf(s.chain, id, s.chain.now)) == Finish;
    var m := Run(c, s, Restart(s.chain, id, i));
    assert m.proc.value == Proc(Held(c, s), {Finishing(id, mine)});
    FinishRuns(c, m, id, mine, i);
    RunConcat(c, s, Restart(s.chain, id, i), FinishSteps(id, mine, i));
    if Seated(s.chain, id, r) { assert r in mine; }
  }

  // ---------------------------------------------------------------- reading on in the log

  /** The chunk a running process fetches next. */
  function NextChunk(c: Config, s: Sys, head: nat): Task
    requires s.proc.Some?
  {
    var from := s.proc.value.mem.cursor + 1;
    var to := if from + c.logRange - 1 < head then from + c.logRange - 1 else head;
    Fetched(from, to, EventsIn(s.chain.logs, from, to))
  }

  /** Every dispute announced in these blocks is among those stored. */
  ghost predicate AllStored(logs: seq<Log>, from: nat, to: nat, d: Data) {
    forall k :: 0 <= k < |logs| && from <= logs[k].block <= to
                && (logs[k].JurorsSelected? || (logs[k].DisputeOpened? && logs[k].falseDescription)) ==>
      logs[k].id in d.disputes
  }

  lemma ChunkStores(d: Data, logs: seq<Log>, from: nat, to: nat)
    requires d.cursor < from <= to
    ensures var o := ScanRun(d, EventsIn(logs, from, to), to);
            && o.writes != [] && o.writes[|o.writes| - 1].cursor == to
            && AllStored(logs, from, to, o.writes[|o.writes| - 1])
  {
    ChunkFinds(d, logs, from, to);
    forall k | 0 <= k < |logs| && Announces(logs[k]) && from <= logs[k].block <= to
      ensures logs[k].id in Announced(logs, from, to)
    {
      AnnouncedIs(logs, from, to, logs[k].id);
    }
  }

  /** A running process behind the head fetches the next chunk; handling it moves the file's cursor to its end. */
  lemma ScanAdvances(c: Config, s: Sys, head: nat, i: Input)
    requires c.logRange >= 1 && s.proc.Some? && s.proc.value.mem.cursor < head <= s.chain.sealed
    ensures var n := Run(c, s, [FetchLogs(head), Resume(NextChunk(c, s, head), i, None)]);
            var cursor, to := s.proc.value.mem.cursor, NextChunk(c, s, head).to;
            && cursor < to <= head && to <= cursor + c.logRange && (to == head || to == cursor + c.logRange)
            && n.disk.Some? && n.disk.value.cursor == to
            && AllStored(s.chain.logs, cursor + 1, to, n.disk.value)
  {
    var t := NextChunk(c, s, head);
    var mem := s.proc.value.mem;
    TwoSteps(c, s, FetchLogs(head), Resume(t, i, None));
    var m := Next(c, s, FetchLogs(head));
    assert t in m.proc.value.tasks && m.proc.value.mem == mem;
    ChunkStores(mem, s.chain.logs, mem.cursor + 1, t.to);
  }

  /** The opening of a dispute over a false description is in the log. */
  predicate OpenedBy(l: Log, id: nat) {
    l.DisputeOpened? && l.id == id && l.falseDescription && l.block > 0
  }

  ghost predicate OpenedIn(logs: seq<Log>, id: nat) {
    exists i :: 0 <= i < |logs| && OpenedBy(logs[i], id)
  }

  ghost predicate AllOpened(ch: Chain) {
    forall id :: id in ch.disputes && ch.disputes[id].falseDescription ==> OpenedIn(ch.logs, id)
  }

  lemma OpenedAfter(logs: seq<Log>, l: Log, id: nat)
    requires OpenedIn(logs, id) || OpenedBy(l, id)
    ensures OpenedIn(logs + [l], id)
  {
    if OpenedIn(logs, id) {
      var i :| 0 <= i < |logs| && OpenedBy(logs[i], id);
      assert (logs + [l])[i] == logs[i];
    } else {
      assert (logs + [l])[|logs|] == l;
    }
  }

  /** A change of one dispute that exists already, or the opening of a new one. */
  lemma ReplacedOpened(ch: Chain, id: nat, d: Dispute, l: Log)
    requires AllOpened(ch)
    requires OpenedBy(l, id) || !d.falseDescription
             || (id in ch.disputes && ch.disputes[id].falseDescription)
    ensures AllOpened(Replace(ch, id, d, l))
  {
    var n := Replace(ch, id, d, l);
    forall k | k in n.disputes && n.disputes[k].falseDescription ensures OpenedIn(n.logs, k) {
      OpenedAfter(ch.logs, l, k);
    }
  }

  lemma StepOpened(c: Config, s: Sys, step: Step)
    requires AllOpened(s.chain)
    ensures AllOpened(Next(c, s, step).chain)
  {
    match step
    case ChainMoves(m) =>
      if !m.Seal? && ChangeBy(s.chain, m).Change? {
        var e := ChangeBy(s.chain, m);
        ReplacedOpened(s.chain, e.id, e.dispute, e.event);
      }
    case Deliver(m) =>
      if m in s.net && Accepts(c.H, s.chain, m) {
        var d := s.chain.disputes[m.id];
        var seat := if m.CommitMsg? then d.seats[d.round].(commitment := m.commitment)
                    else d.seats[d.round].(revealed := true);
        ReplacedOpened(s.chain, m.id, d.(seats := d.seats[d.round := seat]), OtherEvent(s.chain.sealed + 1));
      }
    case _ =>
  }

  /**
   * No dispute over a false description escapes: its opening stands in some block, and once the cursor
   * on disk has come to that block, having started no later, the dispute is on disk.
   */
  lemma EveryDisputeFound(c: Config, steps: seq<Step>, id: nat) returns (i: nat)
    requires var ch := Run(c, INIT, steps).chain; id in ch.disputes && ch.disputes[id].falseDescription
    ensures var s := Run(c, INIT, steps);
            && i < |s.chain.logs| && OpenedBy(s.chain.logs[i], id)
            && (s.disk.Some? && c.startBlock <= s.chain.logs[i].block <= s.disk.value.cursor ==>
                  id in s.disk.value.disputes)
  {
    var s := Run(c, INIT, steps);
    RunOpened(c, steps);
    i :| 0 <= i < |s.chain.logs| && OpenedBy(s.chain.logs[i], id);
    if s.disk.Some? && c.startBlock <= s.chain.logs[i].block <= s.disk.value.cursor { NoDisputeLost(c, steps, i); }
  }

  lemma {:induction false} RunOpened(c: Config, steps: seq<Step>)
    ensures AllOpened(Run(c, INIT, steps).chain)
  {
    if steps != [] {
      var n := |steps| - 1;
      RunOpened(c, steps[..n]);
      StepOpened(c, Run(c, INIT, steps[..n]), steps[n]);
    }
  }
}
