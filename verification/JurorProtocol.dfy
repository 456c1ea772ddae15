/**
 * The juror as a transition system: one process that may be killed at any instruction, its state
 * file, the transactions it ever handed to the network, and the chain. A schedule is any list of
 * steps; the network may deliver a transaction at any later time, any number of times, or never.
 */
module JurorProtocol {
  import opened Base
  import opened JurorState
  import opened Juror
  import opened JurorChain

  /** A transaction, tagged with the round the process meant; the contract is not told the round. */
  datatype Message =
    | CommitMsg(id: nat, round: nat, commitment: Commitment)
    | RevealMsg(id: nat, round: nat, verdict: Verdict, salt: Salt)

  /** Work waiting behind an await. */
  datatype Task =
    | Driving(id: nat, view: DisputeView)
    | Sending(msg: Message)
    | Sent(msg: Message)
    | Confirming(msg: Message)
    | Deliberating(id: nat, round: nat)
    | Publishing(id: nat, round: nat)
    | Finishing(id: nat, rounds: seq<nat>)
    | Fetched(from: nat, to: nat, events: seq<Log>)

  datatype Proc = Proc(mem: Data, tasks: set<Task>)

  /** `released`: rationales that may be public. `alarms`: rounds where the reveal was refused by its own guards. */
  datatype Sys = Sys(disk: Option<Data>, proc: Option<Proc>, chain: Chain, net: set<Message>, executed: set<Message>,
                     released: set<(nat, nat)>, alarms: set<(nat, nat)>)

  datatype Config = Config(H: Hash, startBlock: nat, logRange: nat)

  const INIT := Sys(None, None, GENESIS, {}, {}, {}, {})

  /** What the awaited call came back with. */
  datatype Input = Input(salt: Salt, waiting: bool, verdict: Option<Verdict>, tx: TxHash)

  /** `dies` = Some(k): killed in this stretch, after k of its writes. */
  datatype Step =
    | Start(stillborn: bool)
    | Kill
    | FetchLogs(head: nat)
    | ReadDispute(id: nat, now: nat)
    | Resume(task: Task, input: Input, dies: Option<nat>)
    | Broadcast(msg: Message)
    | Abandon(task: Task)
    | ChainMoves(move: ChainStep)
    | Deliver(msg: Message)

  // ---------------------------------------------------------------- one stretch

  datatype Effect = Effect(outcome: Outcome, tasks: set<Task>, released: set<(nat, nat)>, alarms: set<(nat, nat)>)

  function Quiet(o: Outcome, tasks: set<Task>): Effect {
    Effect(o, tasks, {}, {})
  }

  /** maybePublish: a complete unpublished record goes out. */
  function MaybePublish(d: Data, id: nat, r: nat): Effect {
    if Publishable(RecordOf(d, id, r)) then Effect(RoundRun(d, id, r), {Publishing(id, r)}, {(id, r)}, {})
    else Quiet(RoundRun(d, id, r), {})
  }

  function Commits(H: Hash, p: Proc, id: nat, r: nat, i: Input): Effect {
    var (o, a) := CommitRun(H, p.mem, id, r, i.waiting || Deliberating(id, r) in p.tasks, i.salt);
    Quiet(o, match a
             case NothingToDo => {}
             case StartDecision => {Deliberating(id, r)}
             case SendCommit(c) => {Sending(CommitMsg(id, r, c))})
  }

  function Reveals(H: Hash, p: Proc, id: nat, r: nat, onChain: Commitment): Effect {
    match RevealOf(H, RecordOf(p.mem, id, r), id, r, onChain)
    case SendReveal(v, salt) => Quiet(RoundRun(p.mem, id, r), {Sending(RevealMsg(id, r, v, salt))})
    case NoSecretStored => Effect(RoundRun(p.mem, id, r), {}, {}, {(id, r)})
    case SecretMismatch => Effect(RoundRun(p.mem, id, r), {}, {}, {(id, r)})
  }

  /** drive, once getDispute has answered. The keeper's calls are moves of the chain. */
  function Drive(H: Hash, p: Proc, id: nat, v: DisputeView, i: Input): Effect {
    match PhaseOf(v)
    case GiveUp => Quiet(ResolveRun(p.mem, id), {})
    case Finish => Quiet(Outcome(p.mem, []), {Finishing(id, v.mine)})
    case Commit => Commits(H, p, id, v.round, i)
    case Reveal =>
      if v.seat.Some? then Reveals(H, p, id, v.round, v.seat.value.commitment)
      else Quiet(Outcome(p.mem, []), {})
    case Publish => MaybePublish(p.mem, id, v.round)
    case _ => Quiet(Outcome(p.mem, []), {})
  }

  /** The receipt of a transaction arrived; it only ever reports success for one that was executed. */
  function Confirmed(p: Proc, m: Message): Effect {
    match m
    case CommitMsg(id, r, _) => Quiet(CommitConfirmedRun(p.mem, id, r), {})
    case RevealMsg(id, r, _, _) =>
      var o := RevealConfirmedRun(p.mem, id, r);
      var e := MaybePublish(o.data, id, r);
      e.(outcome := Outcome(e.outcome.data, o.writes + e.outcome.writes))
  }

  function Work(H: Hash, p: Proc, executed: set<Message>, t: Task, i: Input): Effect {
    match t
    case Driving(id, v) => Drive(H, p, id, v, i)
    case Sending(m) => Quiet(Outcome(p.mem, []), {t})
    case Sent(CommitMsg(id, r, c)) => Quiet(CommitSentRun(p.mem, id, r, i.tx), {Confirming(CommitMsg(id, r, c))})
    case Sent(RevealMsg(id, r, v, salt)) =>
      Quiet(RevealSentRun(p.mem, id, r, i.tx), {Confirming(RevealMsg(id, r, v, salt))})
    case Confirming(m) => if m in executed then Confirmed(p, m) else Quiet(Outcome(p.mem, []), {})
    case Deliberating(id, r) => Quiet(DecisionRun(p.mem, id, r, i.verdict), {})
    case Publishing(id, r) => Quiet(PublishedRun(p.mem, id, r), {})
    case Finishing(id, rounds) =>
      if rounds == [] then Quiet(ResolveRun(p.mem, id), {})
      else
        var e := MaybePublish(p.mem, id, rounds[0]);
        e.(tasks := e.tasks + {Finishing(id, rounds[1..])})
    case Fetched(from, to, events) => Quiet(ScanRun(p.mem, events, to), {})
  }

  // ---------------------------------------------------------------- one step

  function Execute(H: Hash, c: Chain, m: Message): Chain {
    match m
    case CommitMsg(id, _, commitment) => CommitVote(c, id, commitment)
    case RevealMsg(id, _, v, salt) => RevealVote(H, c, id, v, salt)
  }

  predicate Accepts(H: Hash, c: Chain, m: Message) {
    match m
    case CommitMsg(id, _, commitment) => AcceptsCommit(c, id, commitment)
    case RevealMsg(id, _, v, salt) => AcceptsReveal(H, c, id, v, salt)
  }

  function Finished(s: Sys, t: Task, e: Effect, dies: Option<nat>): Sys
    requires s.proc.Some?
  {
    var after := s.(released := s.released + e.released, alarms := s.alarms + e.alarms);
    if dies.Some? && dies.value <= |e.outcome.writes| then
      after.(disk := After(s.disk, e.outcome.writes[..dies.value]), proc := None)
    else
      after.(disk := After(s.disk, e.outcome.writes),
             proc := Some(Proc(e.outcome.data, s.proc.value.tasks - {t} + e.tasks)))
  }

  function Fetch(c: Config, s: Sys, head: nat): Sys
    requires s.proc.Some?
  {
    var p := s.proc.value;
    var from := p.mem.cursor + 1;
    var to := if from + c.logRange - 1 < head then from + c.logRange - 1 else head;
    if from <= to && head <= s.chain.sealed then
      s.(proc := Some(p.(tasks := p.tasks + {Fetched(from, to, EventsIn(s.chain.logs, from, to))})))
    else s
  }

  /** Resolved disputes are not driven again. */
  function Read(s: Sys, id: nat, now: nat): Sys
    requires s.proc.Some?
  {
    var p := s.proc.value;
    if id in p.mem.disputes && !p.mem.disputes[id].resolved && now <= s.chain.now then
      s.(proc := Some(p.(tasks := p.tasks + {Driving(id, ViewOf(s.chain, id, now))})))
    else s
  }

  function Hand(s: Sys, m: Message): Sys
    requires s.proc.Some?
  {
    var p := s.proc.value;
    if Sending(m) in p.tasks then s.(net := s.net + {m}, proc := Some(p.(tasks := p.tasks - {Sending(m)} + {Sent(m)})))
    else s
  }

  /** A step that is not enabled does nothing. */
  function Next(c: Config, s: Sys, step: Step): Sys {
    match step
    case ChainMoves(m) => s.(chain := Move(s.chain, m))
    case Deliver(m) =>
      if m in s.net && Accepts(c.H, s.chain, m)
      then s.(chain := Execute(c.H, s.chain, m), executed := s.executed + {m})
      else s
    case Start(stillborn) =>
      if s.proc.Some? then s
      else
        var d := if s.disk.Some? then s.disk.value else Initial(c.startBlock);
        s.(disk := Some(d), proc := if stillborn then None else Some(Proc(d, {})))
    case Kill => s.(proc := None)
    case FetchLogs(head) => if s.proc.Some? then Fetch(c, s, head) else s
    case ReadDispute(id, now) => if s.proc.Some? then Read(s, id, now) else s
    case Resume(t, i, dies) =>
      if s.proc.Some? && t in s.proc.value.tasks
      then Finished(s, t, Work(c.H, s.proc.value, s.executed, t, i), dies)
      else s
    case Broadcast(m) => if s.proc.Some? then Hand(s, m) else s
    case Abandon(t) => if s.proc.Some? then s.(proc := Some(s.proc.value.(tasks := s.proc.value.tasks - {t}))) else s
  }

  function Run(c: Config, s: Sys, steps: seq<Step>): Sys {
    if steps == [] then s else Next(c, Run(c, s, steps[..|steps| - 1]), steps[|steps| - 1])
  }
}
