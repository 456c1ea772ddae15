/** The promises of the juror service, over every schedule from the first start. */
module JurorTheorems {
  import opened Base
  import opened JurorState
  import opened Juror
  import opened JurorChain
  import opened JurorProtocol
  import opened JurorSafety
  import opened JurorRuns

  lemma Reachable(c: Config, steps: seq<Step>)
    ensures Inv(c, Run(c, INIT, steps))
  {
    InitOk(c);
    RunKeeps(c, INIT, steps);
  }

  /** All commitments ever handed to the network for one round are one value, which the file opens. */
  lemma OneCommitmentPerRound(c: Config, steps: seq<Step>, m: Message)
    requires m in Run(c, INIT, steps).net && m.CommitMsg?
    ensures Run(c, INIT, steps).disk.Some?
    ensures Opens(c.H, Run(c, INIT, steps).disk.value, m.id, m.round, m.commitment)
    ensures forall k :: k in Run(c, INIT, steps).net && k.CommitMsg? && k.id == m.id && k.round == m.round ==>
              k.commitment == m.commitment
  {
    Reachable(c, steps);
    var s := Run(c, INIT, steps);
    assert Backed(c, s.chain, Held(c, s), m);
    NothingHeldBefore(c, m.id, m.round);
    forall k | k in s.net && k.CommitMsg? && k.id == m.id && k.round == m.round ensures k.commitment == m.commitment {
      assert Backed(c, s.chain, Held(c, s), k);
    }
  }

  lemma NothingHeldBefore(c: Config, id: nat, r: nat)
    ensures !HasSecret(RecordOf(Initial(c.startBlock), id, r))
  {
  }

  /** Every reveal ever sent opens every commitment ever sent for the same round. */
  lemma RevealsOpenCommitments(c: Config, steps: seq<Step>, m: Message, k: Message)
    requires m in Run(c, INIT, steps).net && k in Run(c, INIT, steps).net
    requires m.CommitMsg? && k.RevealMsg? && m.id == k.id && m.round == k.round
    ensures c.H(k.id, k.round, k.verdict, k.salt) == m.commitment
  {
    Reachable(c, steps);
    var s := Run(c, INIT, steps);
    assert Backed(c, s.chain, Held(c, s), m) && Backed(c, s.chain, Held(c, s), k);
  }

  /** The guards of the reveal phase never refuse. */
  lemma RevealIsNeverRefused(c: Config, steps: seq<Step>)
    ensures Run(c, INIT, steps).alarms == {}
  {
    Reachable(c, steps);
  }

  /** Whatever happens after a commitment was sent, the file goes on holding the same verdict and salt for it. */
  lemma SecretStays(c: Config, before: seq<Step>, after: seq<Step>, m: Message)
    requires m in Run(c, INIT, before).net && m.CommitMsg?
    ensures var s, n := Run(c, INIT, before), Run(c, Run(c, INIT, before), after);
            && s.disk.Some? && n.disk.Some?
            && HasSecret(RecordOf(s.disk.value, m.id, m.round))
            && SameVote(RecordOf(s.disk.value, m.id, m.round), RecordOf(n.disk.value, m.id, m.round))
  {
    OneCommitmentPerRound(c, before, m);
    Reachable(c, before);
    var s := Run(c, INIT, before);
    RunKeeps(c, s, after);
    var n := Run(c, s, after);
    assert Keeps(Held(c, s), Held(c, n));
    NothingHeldBefore(c, m.id, m.round);
  }

  /** A rationale is public only when the vote is; and it argues for the verdict the commitment binds. */
  lemma PublishedOnlyAfterReveal(c: Config, steps: seq<Step>, id: nat, r: nat)
    requires (id, r) in Run(c, INIT, steps).released
    ensures var s := Run(c, INIT, steps);
            && Open(s.chain, id, r)
            && s.disk.Some?
            && var rec := RecordOf(s.disk.value, id, r);
               HasSecret(rec) && rec.decision == rec.verdict
                   && c.H(id, r, rec.verdict.value, rec.salt.value) == rec.commitment.value
  {
    Reachable(c, steps);
    var s := Run(c, INIT, steps);
    assert Open(s.chain, (id, r).0, (id, r).1) && HasSecret(RecordOf(Held(c, s), (id, r).0, (id, r).1));
    NothingHeldBefore(c, id, r);
    assert Sound(c.H, id, r, RecordOf(Held(c, s), id, r));
  }

  /**
   * Every dispute over a false description, and every dispute a panel was drawn for, is on disk if its
   * event stands between the start block and the cursor on disk.
   */
  lemma NoDisputeLost(c: Config, steps: seq<Step>, i: nat)
    requires var s := Run(c, INIT, steps);
             && s.disk.Some? && i < |s.chain.logs|
             && var l := s.chain.logs[i];
                && (l.JurorsSelected? || (l.DisputeOpened? && l.falseDescription))
                && 0 < l.block && c.startBlock <= l.block <= s.disk.value.cursor
    ensures var s := Run(c, INIT, steps); s.chain.logs[i].id in s.disk.value.disputes
  {
    Reachable(c, steps);
    var s := Run(c, INIT, steps);
    AnnouncedIs(s.chain.logs, FirstBlock(c), s.disk.value.cursor, s.chain.logs[i].id);
  }

  /** The cursor on disk never moves back, no dispute is dropped, and a decided dispute is never taken up again. */
  lemma CursorNeverBack(c: Config, before: seq<Step>, after: seq<Step>)
    requires Run(c, INIT, before).disk.Some?
    ensures var s, n := Run(c, INIT, before), Run(c, Run(c, INIT, before), after);
            && n.disk.Some?
            && s.disk.value.cursor <= n.disk.value.cursor
            && s.disk.value.disputes.Keys <= n.disk.value.disputes.Keys
            && forall id :: id in n.disk.value.disputes && n.disk.value.disputes[id].resolved ==> Over(n.chain, id)
  {
    Reachable(c, before);
    RunKeeps(c, Run(c, INIT, before), after);
    DiskStays(c, Run(c, INIT, before), after);
  }

  lemma {:induction false} DiskStays(c: Config, s: Sys, steps: seq<Step>)
    requires s.disk.Some?
    ensures Run(c, s, steps).disk.Some?
  {
    if steps != [] { DiskStays(c, s, steps[..|steps| - 1]); }
  }

  // ---------------------------------------------------------------- a vote on chain can be revealed

  /** From crash to revealed: start, look at the dispute, resume, send, be executed. */
  function Recovery(id: nat, now: nat, view: DisputeView, i: Input, m: Message): seq<Step> {
    [Kill, Start(false), ReadDispute(id, now), Resume(Driving(id, view), i, None), Broadcast(m), Deliver(m)]
  }

  predicate RevealWindow(ch: Chain, id: nat) {
    && MaySee(ch, id)
    && var d := ch.disputes[id];
       && (ch.now > d.commitDeadline || AllCommitted(d)) && ch.now <= d.revealDeadline
       && d.seats[d.round].commitment != ZERO32 && !d.seats[d.round].revealed
  }

  /**
   * The phase the juror picks from a fresh view is the contract's: it commits exactly when some
   * commitment would be accepted, and reveals exactly when an opening of its seat would be.
   */
  lemma PhaseIsTheContracts(H: Hash, ch: Chain, id: nat, v: Verdict, salt: Salt)
    ensures var phase := PhaseOf(ViewOf(ch, id, ch.now));
            && (phase == Commit <==> exists x :: AcceptsCommit(ch, id, x))
            && (phase == Reveal <==> RevealWindow(ch, id))
            && (AcceptsReveal(H, ch, id, v, salt) <==>
                  phase == Reveal && H(id, ch.disputes[id].round, v, salt)
                      == OnChain(ch, id, ch.disputes[id].round).commitment)
  {
    if PhaseOf(ViewOf(ch, id, ch.now)) == Commit { assert AcceptsCommit(ch, id, ZERO32 + 1); }
  }

  /**
   * After any schedule whatever, if this juror's commitment is on chain and the reveal window is open,
   * then killing the process and starting it again leads to a revealed vote.
   */
  lemma RestartReveals(c: Config, steps: seq<Step>, id: nat, i: Input)
    requires RevealWindow(Run(c, INIT, steps).chain, id)
    ensures var s := Run(c, INIT, steps);
            var r := s.chain.disputes[id].round;
            && s.disk.Some? && HasSecret(RecordOf(s.disk.value, id, r))
            && var rec := RecordOf(s.disk.value, id, r);
               var m := RevealMsg(id, r, rec.verdict.value, rec.salt.value);
               var n := Run(c, s, Recovery(id, s.chain.now, ViewOf(s.chain, id, s.chain.now), i, m));
               Seated(n.chain, id, r) && OnChain(n.chain, id, r).revealed
               && OnChain(n.chain, id, r).commitment == OnChain(s.chain, id, r).commitment
  {
    Reachable(c, steps);
    var s := Run(c, INIT, steps);
    var r := s.chain.disputes[id].round;
    NothingHeldBefore(c, id, r);
    assert Opens(c.H, Held(c, s), id, r, OnChain(s.chain, id, r).commitment);
    Recovers(c, s, id, i);
  }

  lemma Recovers(c: Config, s: Sys, id: nat, i: Input)
    requires Inv(c, s) && s.disk.Some? && RevealWindow(s.chain, id)
    requires Opens(c.H, s.disk.value, id, s.chain.disputes[id].round,
                   OnChain(s.chain, id, s.chain.disputes[id].round).commitment)
    ensures var r := s.chain.disputes[id].round;
            var rec := RecordOf(s.disk.value, id, r);
            var m := RevealMsg(id, r, rec.verdict.value, rec.salt.value);
            var n := Run(c, s, Recovery(id, s.chain.now, ViewOf(s.chain, id, s.chain.now), i, m));
            Seated(n.chain, id, r) && OnChain(n.chain, id, r) == OnChain(s.chain, id, r).(revealed := true)
  {
    var r := s.chain.disputes[id].round;
    var rec := RecordOf(s.disk.value, id, r);
    var m := RevealMsg(id, r, rec.verdict.value, rec.salt.value);
    var view := ViewOf(s.chain, id, s.chain.now);
    var s2 := s.(proc := Some(Proc(s.disk.value, {})));
    Restarted(c, s, id, view);
    var s3 := s.(proc := Some(Proc(s.disk.value, {Driving(id, view)})));
    var s4 := Next(c, s3, Resume(Driving(id, view), i, None));
    Resumed(c, s3, id, i);
    var s5 := Next(c, s4, Broadcast(m));
    assert m in s5.net && s5.chain == s.chain;
    SixSteps(c, s, Kill, Start(false), ReadDispute(id, s.chain.now), Resume(Driving(id, view), i, None), Broadcast(m),
             Deliver(m));
  }

  lemma Restarted(c: Config, s: Sys, id: nat, view: DisputeView)
    requires Inv(c, s) && s.disk.Some? && RevealWindow(s.chain, id) && view == ViewOf(s.chain, id, s.chain.now)
    requires HasSecret(RecordOf(s.disk.value, id, s.chain.disputes[id].round))
    ensures Next(c, Next(c, Next(c, s, Kill), Start(false)), ReadDispute(id, s.chain.now))
            == s.(proc := Some(Proc(s.disk.value, {Driving(id, view)})))
  {
    assert Next(c, Next(c, s, Kill), Start(false)) == s.(proc := Some(Proc(s.disk.value, {})));
    assert id in s.disk.value.disputes && !s.disk.value.disputes[id].resolved by { assert Closed(s.chain, Held(c, s)); }
    assert {} + {Driving(id, view)} == {Driving(id, view)};
  }

  lemma Resumed(c: Config, s: Sys, id: nat, i: Input)
    requires s.proc.Some? && RevealWindow(s.chain, id)
    requires Opens(c.H, s.proc.value.mem, id, s.chain.disputes[id].round,
                   OnChain(s.chain, id, s.chain.disputes[id].round).commitment)
    requires Driving(id, ViewOf(s.chain, id, s.chain.now)) in s.proc.value.tasks
    ensures var n := Next(c, s, Resume(Driving(id, ViewOf(s.chain, id, s.chain.now)), i, None));
            var rec := RecordOf(s.proc.value.mem, id, s.chain.disputes[id].round);
            && n.proc.Some? && n.chain == s.chain
            && Sending(RevealMsg(id, s.chain.disputes[id].round, rec.verdict.value, rec.salt.value))
                in n.proc.value.tasks
  {
    assert PhaseOf(ViewOf(s.chain, id, s.chain.now)) == Reveal;
  }

  lemma RunOneMore(c: Config, s: Sys, steps: seq<Step>, step: Step)
    ensures Run(c, s, steps + [step]) == Next(c, Run(c, s, steps), step)
  {
    assert (steps + [step])[..|steps|] == steps;
  }

  lemma SixSteps(c: Config, s: Sys, a1: Step, a2: Step, a3: Step, a4: Step, a5: Step, a6: Step)
    ensures Run(c, s, [a1, a2, a3, a4, a5, a6])
            == Next(c, Next(c, Next(c, Next(c, Next(c, Next(c, s, a1), a2), a3), a4), a5), a6)
  {
    RunOneMore(c, s, [], a1);
    RunOneMore(c, s, [a1], a2);
    RunOneMore(c, s, [a1, a2], a3);
    RunOneMore(c, s, [a1, a2, a3], a4);
    RunOneMore(c, s, [a1, a2, a3, a4], a5);
    RunOneMore(c, s, [a1, a2, a3, a4, a5], a6);
    assert [] + [a1] == [a1] && [a1] + [a2] == [a1, a2] && [a1, a2] + [a3] == [a1, a2, a3];
    assert [a1, a2, a3] + [a4] == [a1, a2, a3, a4] && [a1, a2, a3, a4] + [a5] == [a1, a2, a3, a4, a5];
    assert [a1, a2, a3, a4, a5] + [a6] == [a1, a2, a3, a4, a5, a6];
  }
}
