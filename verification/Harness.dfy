/**
 * The harness around an episode (environment.py): tool calls become step requests, replies update the
 * harness's own view, and the record's score comes from grading with that view's termination.
 */
module Harness {
  import opened Base
  import opened Episode
  import GradingLaws

  datatype Ending = ByServer(why: Termination) | TokenBudget

  datatype ToolEntry = ToolEntry(name: string, ok: bool)

  /** The harness's fields of an episode; `stopped` once an error or a token stop ended the rollout. */
  datatype View = View(done: bool, termination: Option<Ending>, actionsUsed: int, idle: nat, actions: seq<ToolEntry>,
                       tokenBudgetExhausted: bool, stopped: bool)

  const FRESH := View(false, None, 0, 0, [], false, false)

  /** What became of a request on its way to the server and back. */
  datatype Delivery = Answered | NeverArrived | AnswerLost

  /** One tool call of a model turn: known tool or not, usable arguments or not, and the step it asks for. */
  datatype ToolCall = ToolCall(name: string, known: bool, parses: bool, step: Call, delivery: Delivery)

  function Seen(t: Option<Termination>): Option<Ending> {
    match t case None => None case Some(why) => Some(ByServer(why))
  }

  /** What a reply does to the view. */
  function Absorb(v: View, name: string, r: Reply): View {
    match r
    case Stepped(ok, _, st) =>
      v.(done := st.done, termination := Seen(st.termination), actionsUsed := st.actionsUsed,
         actions := v.actions + [ToolEntry(name, ok)])
    case EpisodeDone => v.(done := true, actions := v.actions + [ToolEntry(name, false)])
    case NoEpisode => v.(actions := v.actions + [ToolEntry(name, false)])
    case Internal => v.(actions := v.actions + [ToolEntry(name, false)])
  }

  /** Harness and server together. */
  datatype Pair = Pair(view: View, server: State)

  function AfterCall(p: Pair, tc: ToolCall): Pair {
    if p.view.stopped || p.view.done then p
    else if !tc.known || !tc.parses then p.(view := p.view.(actions := p.view.actions + [ToolEntry(tc.name, false)]))
    else
      match tc.delivery
      case Answered => Pair(Absorb(p.view, tc.name, ReplyTo(p.server, tc.step)), After(p.server, tc.step))
      case NeverArrived => p.(view := p.view.(stopped := true))
      case AnswerLost => Pair(p.view.(stopped := true), After(p.server, tc.step))
  }

  function AfterCalls(p: Pair, calls: seq<ToolCall>): Pair {
    if calls == [] then p else AfterCall(AfterCalls(p, calls[..|calls| - 1]), calls[|calls| - 1])
  }

  /** A rollout: turns of tool calls, or a model call refused for the token budget. */
  datatype Event = Turn(calls: seq<ToolCall>) | OutOfTokens

  /** Nothing more is asked of the model once the episode is over or the rollout has stopped. */
  function AfterEvent(p: Pair, e: Event): Pair {
    if p.view.stopped || p.view.done then p
    else
      match e
      case Turn(calls) =>
        if calls == [] then p.(view := p.view.(idle := p.view.idle + 1))
        else AfterCalls(p.(view := p.view.(idle := 0)), calls)
      case OutOfTokens =>
        p.(view := p.view.(tokenBudgetExhausted := true, stopped := true,
                           termination := if p.view.termination.Some? then p.view.termination else Some(TokenBudget)))
  }

  function Rollout(p: Pair, events: seq<Event>): Pair {
    if events == [] then p else AfterEvent(Rollout(p, events[..|events| - 1]), events[|events| - 1])
  }

  function Begin(actionBudget: int, timeBudget: real, now: real): Pair {
    Pair(FRESH, ResetState(actionBudget, timeBudget, now))
  }

  // ---------------------------------------------------------------- the program

  class EnvEpisode {
    var view: View
    const server: EpisodeDir

    constructor (server: EpisodeDir)
      ensures view == FRESH && this.server == server
    {
      view := FRESH;
      this.server := server;
    }

    method RunToolCall(tc: ToolCall)
      requires server.saved.Some? && !view.stopped
      modifies this, server
      ensures server.saved.Some?
      ensures Pair(view, server.saved.value) == AfterCall(old(Pair(view, server.saved.value)), tc)
    {
      if view.done { return; }
      if !tc.known || !tc.parses {
        view := view.(actions := view.actions + [ToolEntry(tc.name, false)]);
        return;
      }
      if tc.delivery == NeverArrived {
        view := view.(stopped := true);
        return;
      }
      var resp := server.Step(tc.step);
      if tc.delivery == AnswerLost {
        view := view.(stopped := true);
        return;
      }
      match resp
      case Stepped(ok, _, st) =>
        view := view.(done := st.done);
        view := view.(termination := Seen(st.termination));
        view := view.(actionsUsed := st.actionsUsed);
        view := view.(actions := view.actions + [ToolEntry(tc.name, ok)]);
      case EpisodeDone =>
        view := view.(done := true);
        view := view.(actions := view.actions + [ToolEntry(tc.name, false)]);
      case NoEpisode =>
        assert false;
      case Internal =>
        view := view.(actions := view.actions + [ToolEntry(tc.name, false)]);
    }

    /** One model turn: the calls run one after the other; an infrastructure error aborts the rest. */
    method EnvResponse(calls: seq<ToolCall>)
      requires server.saved.Some? && !view.stopped && !view.done
      modifies this, server
      ensures server.saved.Some?
      ensures Pair(view, server.saved.value) == AfterEvent(old(Pair(view, server.saved.value)), Turn(calls))
    {
      if calls == [] {
        view := view.(idle := view.idle + 1);
        return;
      }
      view := view.(idle := 0);
      ghost var p := Pair(view, server.saved.value);
      for k := 0 to |calls|
        invariant server.saved.Some? && !view.stopped
        invariant Pair(view, server.saved.value) == AfterCalls(p, calls[..k])
      {
        assert calls[..k + 1][..k] == calls[..k];
        RunToolCall(calls[k]);
        if view.stopped {
          StoppedEarly(p, calls, k + 1);
          return;
        }
      }
      assert calls[..|calls|] == calls;
    }
  }

  lemma {:induction false} StoppedStays(p: Pair, calls: seq<ToolCall>)
    requires p.view.stopped || p.view.done
    ensures AfterCalls(p, calls) == p
  {
    if calls != [] { StoppedStays(p, calls[..|calls| - 1]); }
  }

  /** The calls after a stop make no difference. */
  lemma StoppedEarly(p: Pair, calls: seq<ToolCall>, n: nat)
    requires n <= |calls| && AfterCalls(p, calls[..n]).view.stopped
    ensures AfterCalls(p, calls) == AfterCalls(p, calls[..n])
  {
    StoppedStays(AfterCalls(p, calls[..n]), calls[n..]);
    CallsConcat(p, calls[..n], calls[n..]);
    assert calls[..n] + calls[n..] == calls;
  }

  lemma {:induction false} CallsConcat(p: Pair, a: seq<ToolCall>, b: seq<ToolCall>)
    ensures AfterCalls(p, a + b) == AfterCalls(AfterCalls(p, a), b)
  {
    if b == [] {
      assert a + b == a;
    } else {
      CallsConcat(p, a, b[..|b| - 1]);
      assert (a + b)[..|a + b| - 1] == a + b[..|b| - 1];
    }
  }

  // ---------------------------------------------------------------- harness and server agree

  /** While the rollout goes on, the view is the server's state; afterwards it is at least not ahead of it. */
  predicate Agrees(p: Pair) {
    && Kept(p.server)
    && (!p.view.stopped ==> p.view.done == p.server.done && p.view.termination == Seen(p.server.termination)
                            && p.view.actionsUsed == p.server.actionsUsed && !p.view.tokenBudgetExhausted)
    && (p.view.stopped ==> !p.view.done && (p.view.termination.None? || p.view.termination == Some(TokenBudget))
                           && (p.view.tokenBudgetExhausted <==> p.view.termination == Some(TokenBudget)))
  }

  lemma CallAgrees(p: Pair, tc: ToolCall)
    requires Agrees(p)
    ensures Agrees(AfterCall(p, tc))
  {
    AfterKeeps(p.server, tc.step);
  }

  lemma {:induction false} CallsAgree(p: Pair, calls: seq<ToolCall>)
    requires Agrees(p)
    ensures Agrees(AfterCalls(p, calls))
  {
    if calls != [] {
      CallsAgree(p, calls[..|calls| - 1]);
      CallAgrees(AfterCalls(p, calls[..|calls| - 1]), calls[|calls| - 1]);
    }
  }

  lemma {:induction false} RolloutAgrees(p: Pair, events: seq<Event>)
    requires Agrees(p)
    ensures Agrees(Rollout(p, events))
  {
    if events != [] {
      var n := |events| - 1;
      RolloutAgrees(p, events[..n]);
      var q := Rollout(p, events[..n]);
      if events[n].Turn? { CallsAgree(q.(view := q.view.(idle := 0)), events[n].calls); }
    }
  }

  /** Two turns of tool calls come to the same as one. */
  lemma TurnsMerge(p: Pair, a: seq<ToolCall>, b: seq<ToolCall>)
    requires a != [] && b != []
    ensures AfterEvent(AfterEvent(p, Turn(a)), Turn(b)) == AfterEvent(p, Turn(a + b))
  {
    if !p.view.stopped && !p.view.done {
      var q := p.(view := p.view.(idle := 0));
      CallsConcat(q, a, b);
      IdleIsZero(q, a);
      var m := AfterCalls(q, a);
      if m.view.stopped || m.view.done { StoppedStays(m, b); }
      assert m.(view := m.view.(idle := 0)) == m;
    }
  }

  function Turns(batches: seq<seq<ToolCall>>): (events: seq<Event>)
    ensures |events| == |batches| && forall i :: 0 <= i < |batches| ==> events[i] == Turn(batches[i])
  {
    seq(|batches|, i requires 0 <= i < |batches| => Turn(batches[i]))
  }

  lemma {:induction false} TurnsFlatten(p: Pair, batches: seq<seq<ToolCall>>)
    requires batches != [] && forall i :: 0 <= i < |batches| ==> batches[i] != []
    ensures Flatten(batches) != [] && Rollout(p, Turns(batches)) == AfterEvent(p, Turn(Flatten(batches)))
  {
    var n := |batches| - 1;
    var last := batches[n];
    assert batches == batches[..n] + [last] && Turns(batches)[..n] == Turns(batches[..n]);
    FlattenAppend(batches[..n], [last]);
    assert Flatten([last]) == last + Flatten([][..]) && last + [] == last;
    if n > 0 {
      TurnsFlatten(p, batches[..n]);
      TurnsMerge(p, Flatten(batches[..n]), last);
    } else {
      assert batches[..0] == [] && [] + last == last;
    }
  }

  /** However a list of tool calls is cut into turns, none of them empty, the rollout comes to the same. */
  lemma BatchingIsImmaterial(p: Pair, a: seq<seq<ToolCall>>, b: seq<seq<ToolCall>>)
    requires forall i :: 0 <= i < |a| ==> a[i] != []
    requires forall i :: 0 <= i < |b| ==> b[i] != []
    requires Flatten(a) == Flatten(b)
    ensures Rollout(p, Turns(a)) == Rollout(p, Turns(b))
  {
    if a != [] { TurnsFlatten(p, a); }
    if b != [] { TurnsFlatten(p, b); }
  }

  lemma {:induction false} IdleIsZero(p: Pair, calls: seq<ToolCall>)
    requires p.view.idle == 0
    ensures AfterCalls(p, calls).view.idle == 0
  {
    if calls != [] { IdleIsZero(p, calls[..|calls| - 1]); }
  }

  // ---------------------------------------------------------------- what a call leaves behind

  /** A rollout begins open, with nothing done on either side. */
  lemma BeginsOpen(actionBudget: int, timeBudget: real, now: real)
    ensures var p := Rollout(Begin(actionBudget, timeBudget, now), []);
            && !p.view.done && !p.view.stopped && !p.view.tokenBudgetExhausted
            && p.view.termination.None? && p.view.actionsUsed == 0 && p.view.idle == 0 && p.view.actions == []
            && !p.server.done && p.server.log == [] && p.server.actionsUsed == 0 && p.server.termination.None?
            && p.server.actionBudget == actionBudget && p.server.timeBudget == timeBudget && p.server.startedAt == now
  {
  }

  /** A call of no known tool, or with unusable arguments, costs one failed entry and never reaches the server. */
  lemma RefusedLocally(p: Pair, tc: ToolCall)
    requires !p.view.stopped && !p.view.done && (!tc.known || !tc.parses)
    ensures var n := AfterCall(p, tc);
            && n.server == p.server
            && n.view.actions == p.view.actions + [ToolEntry(tc.name, false)]
            && n.view.(actions := p.view.actions) == p.view
  {
  }

  /** A call whose request or reply is lost breaks the rollout off and leaves no entry. */
  lemma LostCall(p: Pair, tc: ToolCall)
    requires !p.view.stopped && !p.view.done && tc.known && tc.parses && tc.delivery != Answered
    ensures var n := AfterCall(p, tc);
            && n.view.stopped && n.view.(stopped := false) == p.view
            && n.server == if tc.delivery == NeverArrived then p.server else After(p.server, tc.step)
  {
  }

  function CountTools(actions: seq<ToolEntry>): nat {
    if actions == [] then 0 else CountTools(actions[..|actions| - 1]) + if actions[|actions| - 1].ok then 1 else 0
  }

  function CountSteps(log: seq<Entry>): nat {
    if log == [] then 0 else CountSteps(log[..|log| - 1]) + if log[|log| - 1].ok then 1 else 0
  }

  /** An answered call adds one entry, marked a success exactly when the server recorded a successful step. */
  lemma AnsweredCall(p: Pair, tc: ToolCall)
    requires !p.view.stopped && !p.view.done && tc.known && tc.parses && tc.delivery == Answered
    requires !p.server.done
    ensures var n := AfterCall(p, tc);
            && n.server == After(p.server, tc.step)
            && |n.view.actions| == |p.view.actions| + 1 && n.view.actions[..|p.view.actions|] == p.view.actions
            && n.view.actions[|p.view.actions|].name == tc.name
            && (n.view.actions[|p.view.actions|].ok
                <==> |n.server.log| == |p.server.log| + 1 && n.server.log[|p.server.log|].ok)
            && CountTools(n.view.actions) - CountTools(p.view.actions)
                == CountSteps(n.server.log) - CountSteps(p.server.log)
  {
    var n := AfterCall(p, tc);
    assert n.view.actions[..|p.view.actions|] == p.view.actions;
    if |n.server.log| == |p.server.log| + 1 { assert n.server.log[..|p.server.log|] == p.server.log; }
  }

  /** A call answered with episode_done or an internal error adds one failed entry; the first also ends the view. */
  lemma FailedCall(p: Pair, tc: ToolCall)
    requires !p.view.stopped && !p.view.done && tc.known && tc.parses && tc.delivery == Answered
    requires ReplyTo(p.server, tc.step).EpisodeDone? || ReplyTo(p.server, tc.step).Internal?
    ensures var n := AfterCall(p, tc);
            && n.server == p.server
            && n.view.actions == p.view.actions + [ToolEntry(tc.name, false)]
            && (n.view.done <==> p.server.done)
            && n.view.(actions := p.view.actions, done := false) == p.view
  {
  }

  /** Calls counted as successes are steps the server recorded as successful. */
  predicate Counted(p: Pair) {
    !p.view.stopped ==> CountTools(p.view.actions) == CountSteps(p.server.log)
  }

  lemma CallCounted(p: Pair, tc: ToolCall)
    requires Agrees(p) && Counted(p)
    ensures Counted(AfterCall(p, tc))
  {
    if !p.view.stopped && !p.view.done {
      if !tc.known || !tc.parses {
        assert (p.view.actions + [ToolEntry(tc.name, false)])[..|p.view.actions|] == p.view.actions;
      } else if tc.delivery == Answered {
        AnsweredCall(p, tc);
      }
    }
  }

  lemma {:induction false} CallsCounted(p: Pair, calls: seq<ToolCall>)
    requires Agrees(p) && Counted(p)
    ensures Agrees(AfterCalls(p, calls)) && Counted(AfterCalls(p, calls))
  {
    if calls != [] {
      var n := |calls| - 1;
      CallsCounted(p, calls[..n]);
      CallAgrees(AfterCalls(p, calls[..n]), calls[n]);
      CallCounted(AfterCalls(p, calls[..n]), calls[n]);
    }
  }

  /** Along every unbroken rollout the calls counted as successes are the server's successful steps. */
  lemma {:induction false} SuccessesAreSteps(actionBudget: int, timeBudget: real, now: real, events: seq<Event>)
    ensures var p := Rollout(Begin(actionBudget, timeBudget, now), events); Agrees(p) && Counted(p)
  {
    var b := Begin(actionBudget, timeBudget, now);
    RolloutAgrees(b, events);
    if events != [] {
      var n := |events| - 1;
      SuccessesAreSteps(actionBudget, timeBudget, now, events[..n]);
      var q := Rollout(b, events[..n]);
      if events[n].Turn? { CallsCounted(q.(view := q.view.(idle := 0)), events[n].calls); }
    }
  }

  /** How many of the latest turns asked for nothing. */
  function TrailingIdle(events: seq<Event>): nat {
    if events == [] || events[|events| - 1] != Turn([]) then 0 else 1 + TrailingIdle(events[..|events| - 1])
  }

  /** While the rollout is open, the idle counter is the number of latest turns without a tool call. */
  lemma {:induction false} IdleIsTrailing(actionBudget: int, timeBudget: real, now: real, events: seq<Event>)
    ensures var v := Rollout(Begin(actionBudget, timeBudget, now), events).view;
            !v.stopped && !v.done ==> v.idle == TrailingIdle(events)
  {
    if events != [] {
      var n := |events| - 1;
      IdleIsTrailing(actionBudget, timeBudget, now, events[..n]);
      var q := Rollout(Begin(actionBudget, timeBudget, now), events[..n]);
      if events[n].Turn? && events[n].calls != [] { IdleIsZero(q.(view := q.view.(idle := 0)), events[n].calls); }
    }
  }

  /** A token stop ends the rollout with the reason kept that was there, if any, and asks for nothing more. */
  lemma TokenStopExactly(p: Pair)
    requires !p.view.stopped && !p.view.done
    ensures var n := AfterEvent(p, OutOfTokens);
            && n.server == p.server && n.view.stopped && n.view.tokenBudgetExhausted
            && n.view.termination == (if p.view.termination == None then Some(TokenBudget) else p.view.termination)
            && n.view.actions == p.view.actions && n.view.actionsUsed == p.view.actionsUsed
            && forall e :: AfterEvent(n, e) == n
  {
  }

  // ---------------------------------------------------------------- the record

  datatype EpisodeStatus = Succeeded | NotSolved | InfraFailure

  /** What the rollout reported: nothing, the token stop, a fault of the model's answer, or any other error. */
  datatype Trouble = NoTrouble | TokenStop | ModelFault | OtherFault

  /** What grading came to; nothing is graded when the reset failed. */
  datatype Grade = NotGraded | GradingFailed | Graded(run: GradingLaws.TestRun)

  /** No `termination` stands for an incomplete episode. */
  datatype Record = Record(score: int, solved: bool, status: EpisodeStatus, termination: Option<Ending>,
                           tokenBudgetExhausted: bool, actionsUsed: int)

  /** score_episode: no grade counts 0; grading is told the view's termination. */
  function ScoreEpisode(v: View, grade: Grade, trouble: Trouble): Record {
    var submitted := v.termination == Some(ByServer(Submitted));
    var score := if grade.Graded? then GradingLaws.ScoreOf(grade.run, submitted) else 0;
    var infra := trouble.OtherFault? || grade.GradingFailed?;
    var status := if infra then InfraFailure else if score == 1 then Succeeded else NotSolved;
    Record(score, score == 1, status, v.termination, v.tokenBudgetExhausted, v.actionsUsed)
  }

  /** What a record says: which of the three statuses, and that everything else is the episode's own. */
  lemma RecordExactly(v: View, grade: Grade, trouble: Trouble)
    ensures var r := ScoreEpisode(v, grade, trouble);
            && (r.score == 0 || r.score == 1)
            && (r.solved <==> r.score == 1)
            && (r.status == InfraFailure <==> trouble == OtherFault || grade == GradingFailed)
            && (r.status == Succeeded <==> r.score == 1 && trouble != OtherFault)
            && (r.status == NotSolved <==> r.score == 0 && trouble != OtherFault && grade != GradingFailed)
            && r.termination == v.termination && r.actionsUsed == v.actionsUsed
            && (r.tokenBudgetExhausted <==> v.tokenBudgetExhausted)
  {
  }

  /**
   * A record scores 1 exactly when the rollout was not broken off, the server ended the episode for a
   * submit, and every hidden test passed.
   */
  lemma ScoreOneExactly(actionBudget: int, timeBudget: real, now: real, events: seq<Event>,
                        grade: Grade, trouble: Trouble)
    ensures var p := Rollout(Begin(actionBudget, timeBudget, now), events);
            ScoreEpisode(p.view, grade, trouble).score == 1
            <==> && !p.view.stopped && p.server.termination == Some(Submitted)
                 && grade.Graded? && GradingLaws.AllPassed(grade.run)
  {
    RolloutAgrees(Begin(actionBudget, timeBudget, now), events);
  }

  /**
   * And then the server recorded, as the last step of the episode, a submit that came in time, within
   * the action budget; the record's action count is the server's. No token stop, timeout or exhausted
   * budget can score 1.
   */
  lemma ScoreOneMeansSubmitted(actionBudget: int, timeBudget: real, now: real, events: seq<Event>,
                               grade: Grade, trouble: Trouble)
    requires ScoreEpisode(Rollout(Begin(actionBudget, timeBudget, now), events).view, grade, trouble).score == 1
    ensures var p := Rollout(Begin(actionBudget, timeBudget, now), events);
            && grade.Graded? && GradingLaws.AllPassed(grade.run)
            && p.server.termination == Some(Submitted) && p.server.log != []
            && var last := p.server.log[|p.server.log| - 1];
               last.kind == SUBMIT && last.ok && last.t <= timeBudget
               && p.server.actionsUsed <= Bound(actionBudget)
               && ScoreEpisode(p.view, grade, trouble).actionsUsed == p.server.actionsUsed
               && !p.view.tokenBudgetExhausted && !p.view.stopped
  {
    var b := Begin(actionBudget, timeBudget, now);
    RolloutAgrees(b, events);
    BudgetsStay(b, events);
  }

  lemma {:induction false} BudgetsStay(p: Pair, events: seq<Event>)
    requires Kept(p.server)
    ensures var s := Rollout(p, events).server;
            Kept(s) && s.actionBudget == p.server.actionBudget && s.timeBudget == p.server.timeBudget
  {
    if events != [] {
      var n := |events| - 1;
      BudgetsStay(p, events[..n]);
      var q := Rollout(p, events[..n]);
      if events[n].Turn? { BudgetsStayInTurn(q.(view := q.view.(idle := 0)), events[n].calls); }
    }
  }

  lemma {:induction false} BudgetsStayInTurn(p: Pair, calls: seq<ToolCall>)
    requires Kept(p.server)
    ensures var s := AfterCalls(p, calls).server;
            Kept(s) && s.actionBudget == p.server.actionBudget && s.timeBudget == p.server.timeBudget
  {
    if calls != [] {
      BudgetsStayInTurn(p, calls[..|calls| - 1]);
      AfterKeeps(AfterCalls(p, calls[..|calls| - 1]).server, calls[|calls| - 1].step);
    }
  }

  /** While nothing went wrong, done, termination and action count of harness and server coincide after every event. */
  lemma ViewIsServer(actionBudget: int, timeBudget: real, now: real, events: seq<Event>)
    ensures var p := Rollout(Begin(actionBudget, timeBudget, now), events);
            !p.view.stopped ==> p.view.done == p.server.done && p.view.termination == Seen(p.server.termination)
                                && p.view.actionsUsed == p.server.actionsUsed
  {
    RolloutAgrees(Begin(actionBudget, timeBudget, now), events);
  }
}
