/** Every step keeps the invariant, and what that says about whole runs. */
module JurorRuns {
  import opened Base
  import opened JurorState
  import opened Juror
  import opened JurorChain
  import opened JurorProtocol
  import opened JurorSafety

  // ---------------------------------------------------------------- what survives when chain and file grow

  lemma DataStays(c: Config, a: Chain, b: Chain, d: Data)
    requires DataOk(c, a, d) && ChainGrows(a, b)
    ensures DataOk(c, b, d)
  {
    PastStays(a, b, FirstBlock(c), d.cursor);
  }

  lemma BackedStays(c: Config, a: Chain, b: Chain, d: Data, e: Data, m: Message)
    requires Backed(c, a, d, m) && ChainGrows(a, b) && Keeps(d, e)
    ensures Backed(c, b, e, m)
  {
  }

  lemma TaskStays(c: Config, a: Chain, b: Chain, d: Data, e: Data, t: Task)
    requires TaskOk(c, a, d, t) && ChainGrows(a, b) && Keeps(d, e)
    ensures TaskOk(c, b, e, t)
  {
    match t
    case Sending(m) => BackedStays(c, a, b, d, e, m);
    case Sent(m) => BackedStays(c, a, b, d, e, m);
    case Confirming(m) => BackedStays(c, a, b, d, e, m);
    case Fetched(from, to, events) => PastStays(a, b, from, to);
    case _ =>
  }

  lemma ChainStays(ch: Chain)
    ensures ChainGrows(ch, ch)
  {
    assert ch.logs[..|ch.logs|] == ch.logs;
    forall id | id in ch.disputes ensures DisputeGrows(ch.disputes[id], ch.disputes[id]) { Unchanged(ch.disputes[id]); }
  }

  /** The whole invariant moves along when only the chain grows and gains no unbacked vote. */
  lemma InvAlong(c: Config, s: Sys, ch: Chain, executed: set<Message>)
    requires Inv(c, s) && ChainOk(ch) && ChainGrows(s.chain, ch)
    requires VotesBacked(c, ch, Held(c, s))
    requires forall m :: m in executed ==> m in s.executed || Done(ch, m)
    ensures Inv(c, s.(chain := ch, executed := executed))
  {
    var d := Held(c, s);
    DataStays(c, s.chain, ch, d);
    forall m | m in s.net ensures Backed(c, ch, d, m) { BackedStays(c, s.chain, ch, d, d, m); }
    forall m | m in executed ensures Done(ch, m) { assert m in s.executed ==> Done(s.chain, m); }
    forall p | p in s.released ensures Open(ch, p.0, p.1) { assert Open(s.chain, p.0, p.1); }
    if s.proc.Some? {
      forall t | t in s.proc.value.tasks ensures TaskOk(c, ch, d, t) { TaskStays(c, s.chain, ch, d, d, t); }
    }
  }

  // ---------------------------------------------------------------- the chain's steps

  /** Other people's calls write no commitment into this juror's seats. */
  lemma MoveCommitsNothing(ch: Chain, m: ChainStep, id: nat, r: nat)
    requires ChainOk(ch) && Seated(Move(ch, m), id, r) && OnChain(Move(ch, m), id, r).commitment != ZERO32
    ensures Seated(ch, id, r) && OnChain(ch, id, r) == OnChain(Move(ch, m), id, r)
  {
  }

  lemma ChainMoveKeeps(c: Config, s: Sys, m: ChainStep)
    requires Inv(c, s)
    ensures Inv(c, s.(chain := Move(s.chain, m)))
  {
    var ch := Move(s.chain, m);
    MoveKeeps(s.chain, m);
    forall id, r | Seated(ch, id, r) && OnChain(ch, id, r).commitment != ZERO32
      ensures Opens(c.H, Held(c, s), id, r, OnChain(ch, id, r).commitment)
    {
      MoveCommitsNothing(s.chain, m, id, r);
    }
    InvAlong(c, s, ch, s.executed);
  }

  /** A transaction meant for a round can only land in that round: the juror has no other seat. */
  lemma LandsInItsRound(c: Config, s: Sys, m: Message)
    requires Inv(c, s) && m in s.net && Accepts(c.H, s.chain, m)
    ensures MaySee(s.chain, m.id) && s.chain.disputes[m.id].round == m.round
  {
    assert Backed(c, s.chain, Held(c, s), m);
    assert DisputeOk(s.chain.disputes[m.id]);
  }

  lemma DeliverKeeps(c: Config, s: Sys, m: Message)
    requires Inv(c, s) && m in s.net && Accepts(c.H, s.chain, m)
    ensures Inv(c, s.(chain := Execute(c.H, s.chain, m), executed := s.executed + {m}))
    ensures ChainGrows(s.chain, Execute(c.H, s.chain, m)) && Done(Execute(c.H, s.chain, m), m)
  {
    LandsInItsRound(c, s, m);
    assert Backed(c, s.chain, Held(c, s), m);
    var before := OnChain(s.chain, m.id, m.round);
    var seat := if m.CommitMsg? then before.(commitment := m.commitment) else before.(revealed := true);
    assert Execute(c.H, s.chain, m) == SetSeat(s.chain, m.id, seat);
    SetSeatKeeps(s.chain, m.id, seat);
    var ch := SetSeat(s.chain, m.id, seat);
    forall id, r | Seated(ch, id, r) && OnChain(ch, id, r).commitment != ZERO32
      ensures Opens(c.H, Held(c, s), id, r, OnChain(ch, id, r).commitment)
    {
      if id != m.id || r != m.round { assert OnChain(ch, id, r) == OnChain(s.chain, id, r); }
    }
    InvAlong(c, s, ch, s.executed + {m});
  }

  // ---------------------------------------------------------------- the process's stretches

  ghost predicate EffectOk(c: Config, ch: Chain, d: Data, e: Effect) {
    && OutcomeOk(c, ch, d, e.outcome)
    && (forall t :: t in e.tasks ==> TaskOk(c, ch, e.outcome.data, t))
    && (forall p :: p in e.released ==> Open(ch, p.0, p.1) && HasSecret(RecordOf(d, p.0, p.1)))
    && e.alarms == {}
  }

  lemma PublishOk(c: Config, ch: Chain, d: Data, id: nat, r: nat)
    requires DataOk(c, ch, d) && Open(ch, id, r)
    ensures EffectOk(c, ch, d, MaybePublish(d, id, r))
  {
    RoundOk(c, ch, d, id, r);
    assert Sound(c.H, id, r, RecordOf(d, id, r));
    EnsureKeepsRecords(d, id, r, id, r);
  }

  lemma CommitOk(c: Config, ch: Chain, p: Proc, id: nat, r: nat, i: Input)
    requires DataOk(c, ch, p.mem) && Seated(ch, id, r)
    ensures EffectOk(c, ch, p.mem, Commits(c.H, p, id, r, i))
  {
    var chosen := ChosenVerdict(RecordOf(p.mem, id, r));
    if chosen.None? {
      RoundOk(c, ch, p.mem, id, r);
    } else {
      PrepareOk(c, ch, p.mem, id, r, chosen.value, i.salt);
      Prepared(c.H, p.mem, id, r, chosen.value, i.salt);
      var o := PrepareRun(c.H, p.mem, id, r, chosen.value, i.salt);
      OutcomeData(c, ch, p.mem, o);
      assert Sound(c.H, id, r, RecordOf(o.data, id, r));
      assert Opens(c.H, o.data, id, r, SecretOf(RecordOf(o.data, id, r)).commitment);
    }
  }

  /** The guards of the reveal phase cannot fire: what is on chain is what the file can open. */
  lemma RevealOk(c: Config, ch: Chain, p: Proc, id: nat, r: nat)
    requires DataOk(c, ch, p.mem) && Seated(ch, id, r) && Opens(c.H, p.mem, id, r, OnChain(ch, id, r).commitment)
    ensures EffectOk(c, ch, p.mem, Reveals(c.H, p, id, r, OnChain(ch, id, r).commitment))
    ensures RevealOf(c.H, RecordOf(p.mem, id, r), id, r, OnChain(ch, id, r).commitment)
            == SendReveal(RecordOf(p.mem, id, r).verdict.value, RecordOf(p.mem, id, r).salt.value)
  {
    RoundOk(c, ch, p.mem, id, r);
    EnsureKeepsRecords(p.mem, id, r, id, r);
  }

  lemma DriveOk(c: Config, ch: Chain, p: Proc, id: nat, v: DisputeView, i: Input)
    requires DataOk(c, ch, p.mem) && VotesBacked(c, ch, p.mem) && ViewOk(ch, id, v)
    ensures EffectOk(c, ch, p.mem, Drive(c.H, p, id, v, i))
  {
    NothingDone(c, ch, p.mem);
    match PhaseOf(v)
    case GiveUp => ResolveOk(c, ch, p.mem, id);
    case Commit => CommitOk(c, ch, p, id, v.round, i);
    case Reveal => RevealOk(c, ch, p, id, v.round);
    case Publish => PublishOk(c, ch, p.mem, id, v.round);
    case _ =>
  }

  lemma ConfirmedOk(c: Config, ch: Chain, p: Proc, m: Message)
    requires DataOk(c, ch, p.mem) && Backed(c, ch, p.mem, m) && Done(ch, m)
    ensures EffectOk(c, ch, p.mem, Confirmed(p, m))
  {
    match m
    case CommitMsg(id, r, _) =>
      MarkOk(c, ch, p.mem, id, r, RecordOf(p.mem, id, r).(commitConfirmed := true));
    case RevealMsg(id, r, _, _) =>
      MarkOk(c, ch, p.mem, id, r, RecordOf(p.mem, id, r).(revealConfirmed := true));
      var o := RevealConfirmedRun(p.mem, id, r);
      OutcomeData(c, ch, p.mem, o);
      PutThenGet(p.mem, id, r, RecordOf(p.mem, id, r).(revealConfirmed := true), id, r);
      PublishOk(c, ch, o.data, id, r);
      OutcomeThen(c, ch, p.mem, o, MaybePublish(o.data, id, r).outcome);
  }

  lemma SentOk(c: Config, ch: Chain, d: Data, m: Message, tx: TxHash)
    requires DataOk(c, ch, d) && Backed(c, ch, d, m)
    ensures var o := if m.CommitMsg? then CommitSentRun(d, m.id, m.round, tx) else RevealSentRun(d, m.id, m.round, tx);
            OutcomeOk(c, ch, d, o) && Backed(c, ch, o.data, m)
  {
    var rec := RecordOf(d, m.id, m.round);
    var o := if m.CommitMsg? then CommitSentRun(d, m.id, m.round, tx) else RevealSentRun(d, m.id, m.round, tx);
    MarkOk(c, ch, d, m.id, m.round, if m.CommitMsg? then rec.(commitTx := Some(tx)) else rec.(revealTx := Some(tx)));
    OutcomeData(c, ch, d, o);
    ChainStays(ch);
    BackedStays(c, ch, ch, d, o.data, m);
  }

  lemma ScanOk(c: Config, ch: Chain, d: Data, from: nat, to: nat, events: seq<Log>)
    requires DataOk(c, ch, d) && FetchOk(ch, d, from, to, events)
    ensures OutcomeOk(c, ch, d, ScanRun(d, events, to))
  {
    var o := DiscoverRun(d, events);
    DiscoverOk(c, ch, d, events);
    OutcomeData(c, ch, d, o);
    DiscoverFinds(d, events, to);
    CursorOk(c, ch, o.data, from, to);
    OutcomeThen(c, ch, d, o, CursorRun(o.data, to));
  }

  lemma CursorOk(c: Config, ch: Chain, d: Data, from: nat, to: nat)
    requires DataOk(c, ch, d) && from <= d.cursor + 1 && to <= ch.sealed
            && Announced(ch.logs, from, to) <= d.disputes.Keys
    ensures OutcomeOk(c, ch, d, CursorRun(d, to))
  {
    if to > d.cursor {
      AnnouncedSplit(ch.logs, from, d.cursor, to);
      var f := FirstBlock(c);
      if f <= d.cursor + 1 {
        AnnouncedSplit(ch.logs, f, d.cursor, to);
      } else if f <= to {
        AnnouncedSplit(ch.logs, d.cursor + 1, f - 1, to);
      } else {
        AnnouncedNowhere(ch.logs, f, to);
      }
      CursorSynced(d, to);
    }
  }

  lemma CursorSynced(d: Data, to: nat)
    requires to > d.cursor
    ensures Synced(WithCursor(d, to), WithCursor(d, to)) && Keeps(d, WithCursor(d, to))
    ensures forall H, r, id :: Sound(H, id, r, RecordOf(d, id, r)) ==>
              Sound(H, id, r, RecordOf(WithCursor(d, to), id, r))
  {
  }

  lemma WorkOk(c: Config, ch: Chain, p: Proc, executed: set<Message>, t: Task, i: Input)
    requires DataOk(c, ch, p.mem) && VotesBacked(c, ch, p.mem) && TaskOk(c, ch, p.mem, t)
    requires forall m :: m in executed ==> Done(ch, m)
    ensures EffectOk(c, ch, p.mem, Work(c.H, p, executed, t, i))
  {
    NothingDone(c, ch, p.mem);
    match t
    case Driving(id, v) => DriveOk(c, ch, p, id, v, i);
    case Sending(m) =>
    case Sent(m) => SentOk(c, ch, p.mem, m, i.tx);
    case Confirming(m) => if m in executed { ConfirmedOk(c, ch, p, m); }
    case Deliberating(id, r) => DecisionOk(c, ch, p.mem, id, r, i.verdict);
    case Publishing(id, r) => MarkOk(c, ch, p.mem, id, r, RecordOf(p.mem, id, r).(published := true));
    case Finishing(id, rounds) =>
      if rounds == [] { ResolveOk(c, ch, p.mem, id); } else { PublishOk(c, ch, p.mem, id, rounds[0]); }
    case Fetched(from, to, events) => ScanOk(c, ch, p.mem, from, to, events);
  }

  lemma DecisionOk(c: Config, ch: Chain, d: Data, id: nat, r: nat, v: Option<Verdict>)
    requires DataOk(c, ch, d) && id in ch.disputes
    ensures OutcomeOk(c, ch, d, DecisionRun(d, id, r, v))
  {
    NothingDone(c, ch, d);
    RoundOk(c, ch, d, id, r);
    var rec := RecordOf(d, id, r);
    assert Sound(c.H, id, r, rec);
    if v.Some? && rec.verdict.None? && rec.decision.None? { PutRoundOk(c, ch, d, id, r, rec.(decision := v)); }
  }

  // ---------------------------------------------------------------- any step, any run

  /** The state moves on to a file that keeps the old one and, if the process lives, is in step with it. */
  lemma InvOnDisk(c: Config, s: Sys, d: Data, proc: Option<Proc>, more: set<(nat, nat)>)
    requires forall p :: p in more ==> Open(s.chain, p.0, p.1) && HasSecret(RecordOf(Held(c, s), p.0, p.1))
    requires Inv(c, s) && DataOk(c, s.chain, d) && Keeps(Held(c, s), d)
    requires proc.Some? ==> Synced(d, proc.value.mem) && forall t :: t in proc.value.tasks ==> TaskOk(c, s.chain, d, t)
    ensures Inv(c, s.(disk := Some(d), proc := proc, released := s.released + more))
  {
    ChainStays(s.chain);
    forall id, r | Seated(s.chain, id, r) && OnChain(s.chain, id, r).commitment != ZERO32
      ensures Opens(c.H, d, id, r, OnChain(s.chain, id, r).commitment)
    {
      OpensStays(c.H, Held(c, s), d, id, r, OnChain(s.chain, id, r).commitment);
    }
    forall m | m in s.net ensures Backed(c, s.chain, d, m) { BackedStays(c, s.chain, s.chain, Held(c, s), d, m); }
  }

  lemma VotesAlong(c: Config, ch: Chain, a: Data, b: Data)
    requires VotesBacked(c, ch, a) && Keeps(a, b)
    ensures VotesBacked(c, ch, b)
  {
    forall id, r | Seated(ch, id, r) && OnChain(ch, id, r).commitment != ZERO32
      ensures Opens(c.H, b, id, r, OnChain(ch, id, r).commitment)
    {
      OpensStays(c.H, a, b, id, r, OnChain(ch, id, r).commitment);
    }
  }

  /** What a stretch leaves on disk, at its end or when killed after k writes. */
  lemma FileAfter(c: Config, ch: Chain, held: Data, mem: Data, o: Outcome, disk: Option<Data>, k: nat)
    requires disk == Some(held) && Synced(held, mem) && DataOk(c, ch, held) && OutcomeOk(c, ch, mem, o)
            && k <= |o.writes|
    ensures After(disk, o.writes[..k]).Some?
    ensures var d := After(disk, o.writes[..k]).value;
            DataOk(c, ch, d) && Keeps(held, d) && (k == |o.writes| ==> Synced(d, o.data))
  {
    var d := After(disk, o.writes[..k]).value;
    if k == 0 {
      SyncedTrivially(held);
      if |o.writes| == 0 {
        SyncedBack(o.data, mem);
        SyncedTrans(held, mem, o.data);
      }
    } else {
      assert d == o.writes[k - 1];
      SyncedKeeps(held, mem, d);
      if k == |o.writes| { SyncedBack(o.data, d); }
    }
  }

  lemma ResumeKeeps(c: Config, s: Sys, t: Task, i: Input, dies: Option<nat>)
    requires Inv(c, s) && s.proc.Some? && t in s.proc.value.tasks
    ensures var n := Finished(s, t, Work(c.H, s.proc.value, s.executed, t, i), dies);
            Inv(c, n) && Keeps(Held(c, s), Held(c, n))
  {
    var p := s.proc.value;
    var held := Held(c, s);
    var e := Work(c.H, p, s.executed, t, i);
    SyncedTrivially(held);
    SyncedKeeps(held, p.mem, held);
    SyncedOk(c, s.chain, held, p.mem);
    VotesAlong(c, s.chain, held, p.mem);
    ChainStays(s.chain);
    TaskStays(c, s.chain, s.chain, held, p.mem, t);
    WorkOk(c, s.chain, p, s.executed, t, i);
    var n := Finished(s, t, e, dies);
    var died := dies.Some? && dies.value <= |e.outcome.writes|;
    var k := if died then dies.value else |e.outcome.writes|;
    assert e.outcome.writes[..|e.outcome.writes|] == e.outcome.writes;
    FileAfter(c, s.chain, held, p.mem, e.outcome, s.disk, k);
    var d := After(s.disk, e.outcome.writes[..k]).value;
    var proc := if died then None else Some(Proc(e.outcome.data, p.tasks - {t} + e.tasks));
    if !died {
      SyncedBack(d, e.outcome.data);
      SyncedTrivially(d);
      SyncedKeeps(d, e.outcome.data, d);
      SyncedKeeps(d, e.outcome.data, e.outcome.data);
      forall u | u in p.tasks - {t} + e.tasks ensures TaskOk(c, s.chain, d, u) {
        if u in e.tasks {
          TaskStays(c, s.chain, s.chain, e.outcome.data, d, u);
        } else {
          TaskStays(c, s.chain, s.chain, held, d, u);
        }
      }
    }
    InvOnDisk(c, s, d, proc, e.released);
    assert n == s.(disk := Some(d), proc := proc, released := s.released + e.released);
  }

  lemma StartKeeps(c: Config, s: Sys, stillborn: bool)
    requires Inv(c, s) && s.proc.None?
    ensures Inv(c, Next(c, s, Start(stillborn))) && Held(c, Next(c, s, Start(stillborn))) == Held(c, s)
  {
    SyncedTrivially(Held(c, s));
    InvOnDisk(c, s, Held(c, s), if stillborn then None else Some(Proc(Held(c, s), {})), {});
    assert s.released + {} == s.released;
  }

  lemma FetchKeeps(c: Config, s: Sys, head: nat)
    requires Inv(c, s) && s.proc.Some?
    ensures Inv(c, Fetch(c, s, head)) && Held(c, Fetch(c, s, head)) == Held(c, s)
  {
    var p := s.proc.value;
    var from := p.mem.cursor + 1;
    var to := if from + c.logRange - 1 < head then from + c.logRange - 1 else head;
    if from <= to && head <= s.chain.sealed {
      var events := EventsIn(s.chain.logs, from, to);
      EventsAreLogs(s.chain.logs, from, to);
      EventsInAnnounce(s.chain.logs, from, to);
      assert TaskOk(c, s.chain, Held(c, s), Fetched(from, to, events));
    }
  }

  lemma {:induction false} EventsAreLogs(logs: seq<Log>, from: nat, to: nat)
    ensures forall i :: 0 <= i < |EventsIn(logs, from, to)| ==>
              EventsIn(logs, from, to)[i] in logs && EventsIn(logs, from, to)[i].block <= to
  {
    if logs != [] { EventsAreLogs(logs[1..], from, to); }
  }

  lemma ReadKeeps(c: Config, s: Sys, id: nat, now: nat)
    requires Inv(c, s) && s.proc.Some?
    ensures Inv(c, Read(s, id, now)) && Held(c, Read(s, id, now)) == Held(c, s)
  {
    var p := s.proc.value;
    if id in p.mem.disputes {
      assert id in Held(c, s).disputes;
      assert TaskOk(c, s.chain, Held(c, s), Driving(id, ViewOf(s.chain, id, now)));
    }
  }

  lemma HandKeeps(c: Config, s: Sys, m: Message)
    requires Inv(c, s) && s.proc.Some?
    ensures Inv(c, Hand(s, m)) && Held(c, Hand(s, m)) == Held(c, s)
  {
    if Sending(m) in s.proc.value.tasks { assert TaskOk(c, s.chain, Held(c, s), Sending(m)); }
  }

  /** How one state may follow another. */
  ghost predicate Follows(c: Config, s: Sys, n: Sys) {
    && Inv(c, n) && Keeps(Held(c, s), Held(c, n)) && ChainGrows(s.chain, n.chain)
    && s.net <= n.net && s.executed <= n.executed && s.released <= n.released
  }

  lemma StepKeeps(c: Config, s: Sys, step: Step)
    requires Inv(c, s)
    ensures Follows(c, s, Next(c, s, step))
  {
    ChainStays(s.chain);
    SyncedTrivially(Held(c, s));
    match step
    case ChainMoves(m) => ChainMoveKeeps(c, s, m); MoveKeeps(s.chain, m);
    case Deliver(m) => if m in s.net && Accepts(c.H, s.chain, m) { DeliverKeeps(c, s, m); }
    case Start(stillborn) => if s.proc.None? { StartKeeps(c, s, stillborn); }
    case Kill =>
    case FetchLogs(head) => if s.proc.Some? { FetchKeeps(c, s, head); }
    case ReadDispute(id, now) => if s.proc.Some? { ReadKeeps(c, s, id, now); }
    case Resume(t, i, dies) => if s.proc.Some? && t in s.proc.value.tasks { ResumeKeeps(c, s, t, i, dies); }
    case Broadcast(m) => if s.proc.Some? { HandKeeps(c, s, m); }
    case Abandon(t) =>
  }

  lemma FollowsTrans(c: Config, a: Sys, b: Sys, d: Sys)
    requires Follows(c, a, b) && Follows(c, b, d)
    ensures Follows(c, a, d)
  {
    KeepsTrans(Held(c, a), Held(c, b), Held(c, d));
    ChainGrowsTrans(a.chain, b.chain, d.chain);
  }

  lemma ChainGrowsTrans(a: Chain, b: Chain, d: Chain)
    requires ChainGrows(a, b) && ChainGrows(b, d)
    ensures ChainGrows(a, d)
  {
    assert d.logs[..|a.logs|] == d.logs[..|b.logs|][..|a.logs|];
    forall i | |a.logs| <= i < |d.logs| ensures d.logs[i].block > a.sealed {
      if i < |b.logs| { assert d.logs[i] == d.logs[..|b.logs|][i]; }
    }
  }

  lemma {:induction false} RunKeeps(c: Config, s: Sys, steps: seq<Step>)
    requires Inv(c, s)
    ensures Follows(c, s, Run(c, s, steps))
  {
    if steps == [] {
      ChainStays(s.chain);
      SyncedTrivially(Held(c, s));
    } else {
      var n := |steps| - 1;
      RunKeeps(c, s, steps[..n]);
      StepKeeps(c, Run(c, s, steps[..n]), steps[n]);
      FollowsTrans(c, s, Run(c, s, steps[..n]), Run(c, s, steps));
    }
  }

  lemma InitOk(c: Config)
    ensures Inv(c, INIT)
  {
    AnnouncedNowhere(GENESIS.logs, FirstBlock(c), Initial(c.startBlock).cursor);
    forall id, r ensures Sound(c.H, id, r, RecordOf(Initial(c.startBlock), id, r)) {}
  }
}
