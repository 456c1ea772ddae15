/**
 * The episode machine (env.py): one saved state per episode, changed only by reset and by a step
 * that records itself. Every law is over any list of step calls, whatever the actions do.
 */
module Episode {
  import opened Base

  datatype Termination = Timeout | Submitted | BudgetExhausted

  /** A request's action type; requests that are no object have none. */
  type Kind = Option<string>

  const SUBMIT: Kind := Some("submit")

  datatype Entry = Entry(i: nat, kind: Kind, t: real, ok: bool)

  datatype State = State(actionBudget: int, timeBudget: real, startedAt: real, actionsUsed: int, done: bool,
                         termination: Option<Termination>, log: seq<Entry>)

  /** What carrying out a tool action came to: a result, a TaskError, or any other exception. */
  datatype Performed = Did | Refused | Failed

  datatype Call = Call(kind: Kind, now: real, performed: Performed)

  /** The status part of a reply. */
  datatype Status = Status(done: bool, termination: Option<Termination>, actionsUsed: int, actionsRemaining: int)

  datatype Reply = Stepped(ok: bool, notice: bool, status: Status) | EpisodeDone | NoEpisode | Internal

  function ResetState(actionBudget: int, timeBudget: real, now: real): State {
    State(actionBudget, timeBudget, now, 0, false, None, [])
  }

  function StatusOf(s: State): Status {
    var remaining := if s.actionBudget > s.actionsUsed then s.actionBudget - s.actionsUsed else 0;
    Status(s.done, s.termination, s.actionsUsed, remaining)
  }

  // ---------------------------------------------------------------- one step

  /** Which of the four branches an open episode takes. */
  datatype Branch = TooLate | Submits | OverBudget | Acts

  function BranchOf(s: State, c: Call): Branch {
    if c.now - s.startedAt > s.timeBudget then TooLate
    else if c.kind == SUBMIT then Submits
    else if s.actionsUsed >= s.actionBudget then OverBudget
    else Acts
  }

  function Ended(s: State, why: Termination, e: Entry): State {
    s.(done := true, termination := Some(why), log := s.log + [e])
  }

  /** The state after a step call; one that raises leaves it alone. */
  function After(s: State, c: Call): State {
    if s.done then s
    else
      var e := Entry(|s.log|, c.kind, c.now - s.startedAt, false);
      match BranchOf(s, c)
      case TooLate => Ended(s, Timeout, e)
      case Submits => Ended(s, Submitted, e.(ok := true))
      case OverBudget => Ended(s, BudgetExhausted, e)
      case Acts =>
        if c.performed == Failed then s
        else s.(actionsUsed := s.actionsUsed + 1, log := s.log + [e.(ok := c.performed == Did)])
  }

  function ReplyTo(s: State, c: Call): Reply {
    if s.done then EpisodeDone
    else if BranchOf(s, c) == Acts && c.performed == Failed then Internal
    else
      var n := After(s, c);
      Stepped(n.log[|n.log| - 1].ok, BranchOf(s, c) == Acts && n.actionsUsed >= n.actionBudget, StatusOf(n))
  }

  /** A working directory: the saved state, if any, and whether it holds anything else. */
  class EpisodeDir {
    var saved: Option<State>
    var occupied: bool

    constructor (occupied: bool)
      ensures saved == None && this.occupied == occupied
    {
      saved, this.occupied := None, occupied;
    }

    /** An earlier episode is wiped; any other directory that is not empty is refused and left alone. */
    method Reset(actionBudget: int, timeBudget: real, now: real) returns (ok: bool)
      modifies this
      ensures ok <==> old(saved).Some? || !old(occupied)
      ensures ok ==> saved == Some(ResetState(actionBudget, timeBudget, now)) && occupied
      ensures !ok ==> saved == None && occupied
    {
      if saved.Some? {
        saved, occupied := None, false;
      } else if occupied {
        return false;
      }
      occupied := true;
      saved := Some(State(actionBudget, timeBudget, now, 0, false, None, []));
      return true;
    }

    /** The state is loaded, changed in memory, and saved at the very end. */
    method Step(c: Call) returns (r: Reply)
      modifies this`saved
      ensures old(saved).None? ==> r == NoEpisode && saved == None
      ensures old(saved).Some? ==> r == ReplyTo(old(saved).value, c) && saved == Some(After(old(saved).value, c))
    {
      if saved.None? { return NoEpisode; }
      var state := saved.value;
      if state.done { return EpisodeDone; }
      var elapsed := c.now - state.startedAt;
      var entry := Entry(|state.log|, c.kind, elapsed, false);
      var ok, notice := false, false;
      if elapsed > state.timeBudget {
        state := state.(done := true, termination := Some(Timeout));
      } else if c.kind == SUBMIT {
        state := state.(done := true, termination := Some(Submitted));
        ok := true;
      } else if state.actionsUsed >= state.actionBudget {
        state := state.(done := true, termination := Some(BudgetExhausted));
      } else {
        state := state.(actionsUsed := state.actionsUsed + 1);
        if c.performed == Failed { return Internal; }
        ok := c.performed == Did;
        notice := state.actionsUsed >= state.actionBudget;
      }
      entry := entry.(ok := ok);
      state := state.(log := state.log + [entry]);
      saved := Some(state);
      return Stepped(ok, notice, StatusOf(state));
    }

    /** Removes the whole directory of an episode, and nothing that is none. */
    method Close() returns (closed: bool)
      modifies this
      ensures closed <==> old(saved).Some?
      ensures saved == None && occupied == (old(occupied) && !closed)
    {
      closed := saved.Some?;
      if closed { saved, occupied := None, false; }
    }
  }

  // ---------------------------------------------------------------- any run

  function Run(s: State, calls: seq<Call>): State {
    if calls == [] then s else After(Run(s, calls[..|calls| - 1]), calls[|calls| - 1])
  }

  function Bound(budget: int): nat {
    if budget > 0 then budget else 0
  }

  /** The entry that ended the episode, and why. */
  predicate EndedBy(s: State, e: Entry) {
    && (s.termination == Some(Timeout) ==> e.t > s.timeBudget && !e.ok)
    && (s.termination == Some(Submitted) ==> e.t <= s.timeBudget && e.kind == SUBMIT && e.ok)
    && (s.termination == Some(BudgetExhausted)
        ==> e.t <= s.timeBudget && e.kind != SUBMIT && !e.ok && s.actionsUsed == Bound(s.actionBudget))
  }

  /** The books balance: one entry per used action, one more for the ending, and the ending explains itself. */
  predicate Kept(s: State) {
    && |s.log| == s.actionsUsed + (if s.done then 1 else 0)
    && 0 <= s.actionsUsed <= Bound(s.actionBudget)
    && (s.done <==> s.termination.Some?)
    && (forall k :: 0 <= k < |s.log| ==> s.log[k].i == k)
    && (forall k :: 0 <= k < s.actionsUsed ==> s.log[k].kind != SUBMIT && s.log[k].t <= s.timeBudget)
    && (s.done ==> EndedBy(s, s.log[|s.log| - 1]))
  }

  lemma AfterKeeps(s: State, c: Call)
    requires Kept(s)
    ensures Kept(After(s, c))
    ensures After(s, c).actionBudget == s.actionBudget && After(s, c).timeBudget == s.timeBudget
            && After(s, c).startedAt == s.startedAt
  {
  }

  lemma {:induction false} RunKept(budget: int, timeBudget: real, now: real, calls: seq<Call>)
    ensures var s := Run(ResetState(budget, timeBudget, now), calls);
            Kept(s) && s.actionBudget == budget && s.timeBudget == timeBudget && s.startedAt == now
  {
    if calls != [] {
      RunKept(budget, timeBudget, now, calls[..|calls| - 1]);
      AfterKeeps(Run(ResetState(budget, timeBudget, now), calls[..|calls| - 1]), calls[|calls| - 1]);
    }
  }

  /** At most budget + 1 steps are ever recorded, and at most budget of them used an action. */
  lemma RecordedSteps(budget: int, timeBudget: real, now: real, calls: seq<Call>)
    ensures var s := Run(ResetState(budget, timeBudget, now), calls);
            |s.log| == s.actionsUsed + (if s.done then 1 else 0) && s.actionsUsed <= Bound(budget)
                && |s.log| <= Bound(budget) + 1
  {
    RunKept(budget, timeBudget, now, calls);
  }

  /** An ended episode stays as it is, whatever is called. */
  lemma {:induction false} DoneIsAbsorbing(s: State, calls: seq<Call>)
    requires s.done
    ensures Run(s, calls) == s
  {
    if calls != [] { DoneIsAbsorbing(s, calls[..|calls| - 1]); }
  }

  lemma {:induction false} RunConcat(s: State, a: seq<Call>, b: seq<Call>)
    ensures Run(s, a + b) == Run(Run(s, a), b)
  {
    if b == [] {
      assert a + b == a;
    } else {
      var n := |b| - 1;
      RunConcat(s, a, b[..n]);
      assert (a + b)[..|a + b| - 1] == a + b[..n];
    }
  }

  function ReasonOf(b: Branch): Option<Termination> {
    match b
    case TooLate => Some(Timeout)
    case Submits => Some(Submitted)
    case OverBudget => Some(BudgetExhausted)
    case Acts => None
  }

  /** Call `i` of the run found the episode open and ended it for reason `why`. */
  predicate EndsAt(s: State, calls: seq<Call>, i: nat, why: Termination)
    requires i < |calls|
  {
    var before := Run(s, calls[..i]);
    !before.done && ReasonOf(BranchOf(before, calls[i])) == Some(why)
  }

  /**
   * The reason a run ended is the reason of the one call that found it open and ended it: submitted
   * exactly when a submit arrived while the episode was open and in time, and so on.
   */
  lemma {:induction false} TerminationExactly(s: State, calls: seq<Call>, why: Termination)
    requires !s.done && s.termination.None?
    ensures Run(s, calls).termination == Some(why) <==> exists i :: 0 <= i < |calls| && EndsAt(s, calls, i, why)
    ensures Run(s, calls).done <==> Run(s, calls).termination.Some?
  {
    if calls != [] {
      var n := |calls| - 1;
      var init := calls[..n];
      TerminationExactly(s, init, why);
      forall i | 0 <= i < n ensures EndsAt(s, init, i, why) == EndsAt(s, calls, i, why) {
        assert init[..i] == calls[..i];
      }
      if Run(s, calls).termination == Some(why) {
        if Run(s, init).done {
          var i :| 0 <= i < n && EndsAt(s, init, i, why);
          assert EndsAt(s, calls, i, why);
        } else {
          assert EndsAt(s, calls, n, why);
        }
      }
      if i :| 0 <= i < |calls| && EndsAt(s, calls, i, why) {
        if i < n { assert EndsAt(s, init, i, why); }
      }
    }
  }

  /** A step whose action raises leaves the saved state as it was; every other call on an open episode is recorded. */
  lemma OnlyRecordedStepsChange(s: State, c: Call)
    ensures After(s, c) == s <==> s.done || (BranchOf(s, c) == Acts && c.performed == Failed)
    ensures After(s, c) != s ==> |After(s, c).log| == |s.log| + 1 && After(s, c).log[..|s.log|] == s.log
  {
  }

  /**
   * What a caller learns, anywhere along a run: that the episode is over, that the action raised, or the
   * state just saved, where used and remaining actions make up the budget. `ok` is that of the entry
   * recorded, and the notice comes with the action that uses the budget up.
   */
  lemma RepliesExactly(budget: int, timeBudget: real, now: real, calls: seq<Call>, c: Call)
    ensures var s := Run(ResetState(budget, timeBudget, now), calls);
            var n := After(s, c);
            match ReplyTo(s, c)
            case EpisodeDone => s.done
            case Internal => !s.done && n == s && c.performed == Failed
            case NoEpisode => false
            case Stepped(ok, notice, status) =>
              && !s.done && |n.log| == |s.log| + 1 && ok == n.log[|s.log|].ok
              && status.done == n.done && status.termination == n.termination && status.actionsUsed == n.actionsUsed
              && status.actionsUsed + status.actionsRemaining == Bound(budget)
              && (notice <==> n.actionsUsed == s.actionsUsed + 1 && n.actionsUsed == budget)
  {
    RunKept(budget, timeBudget, now, calls);
    RunKept(budget, timeBudget, now, calls + [c]);
    assert (calls + [c])[..|calls|] == calls;
  }
}
