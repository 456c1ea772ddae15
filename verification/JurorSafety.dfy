/**
 * What every schedule keeps: the commit secret is durable before it is sent and never changes, the
 * reveal guards never fire, nothing is published early, and no announced dispute is lost.
 */
module JurorSafety {
  import opened Base
  import opened JurorState
  import opened Juror
  import opened JurorChain
  import opened JurorProtocol

  // ---------------------------------------------------------------- what data must look like

  /** No secret at all, or a complete one, for the verdict that was decided. */
  predicate Sound(H: Hash, id: nat, r: nat, rec: RoundRecord) {
    HasNoSecret(rec) || (HasSecret(rec) && rec.verdict == rec.decision
                         && rec.commitment.value == H(id, r, rec.verdict.value, rec.salt.value))
  }

  /** The data hold the verdict and salt that open commitment `c`. */
  predicate Opens(H: Hash, d: Data, id: nat, r: nat, c: Commitment) {
    var rec := RecordOf(d, id, r);
    HasSecret(rec) && rec.commitment.value == c && H(id, r, rec.verdict.value, rec.salt.value) == c
  }

  function FirstBlock(c: Config): nat {
    Initial(c.startBlock).cursor + 1
  }

  ghost predicate SoundData(H: Hash, d: Data) {
    forall id, r :: Sound(H, id, r, RecordOf(d, id, r))
  }

  /** Every dispute announced up to the cursor is stored. */
  ghost predicate Covered(c: Config, ch: Chain, d: Data) {
    && (d.cursor < FirstBlock(c) || d.cursor <= ch.sealed)
    && Announced(ch.logs, FirstBlock(c), d.cursor) <= d.disputes.Keys
  }

  predicate Closed(ch: Chain, d: Data) {
    && d.disputes.Keys <= ch.disputes.Keys
    && forall id :: id in d.disputes && d.disputes[id].resolved ==> Over(ch, id)
  }

  ghost predicate DataOk(c: Config, ch: Chain, d: Data) {
    SoundData(c.H, d) && Covered(c, ch, d) && Closed(ch, d)
  }

  // ---------------------------------------------------------------- how data may change

  /** Secrets are never lost or changed, disputes never forgotten, the cursor never moved back. */
  ghost predicate Keeps(a: Data, b: Data) {
    && (forall id, r :: HasSecret(RecordOf(a, id, r)) ==> SameVote(RecordOf(a, id, r), RecordOf(b, id, r)))
    && a.cursor <= b.cursor && a.disputes.Keys <= b.disputes.Keys
  }

  /** Equal but for what a restart may lose: records without a secret and progress marks. */
  ghost predicate Synced(a: Data, b: Data) {
    && (forall id, r :: SameVote(RecordOf(a, id, r), RecordOf(b, id, r)))
    && a.cursor == b.cursor && a.disputes.Keys == b.disputes.Keys
    && forall id :: id in a.disputes ==> a.disputes[id].resolved == b.disputes[id].resolved
  }

  lemma KeepsTrans(a: Data, b: Data, d: Data)
    requires Keeps(a, b) && Keeps(b, d)
    ensures Keeps(a, d)
  {
  }

  lemma SyncedKeeps(a: Data, b: Data, d: Data)
    requires Synced(a, b)
    ensures Keeps(a, d) <==> Keeps(b, d)
    ensures Keeps(d, a) <==> Keeps(d, b)
  {
  }

  lemma SyncedOk(c: Config, ch: Chain, a: Data, b: Data)
    requires Synced(a, b) && DataOk(c, ch, a)
    ensures DataOk(c, ch, b)
  {
    forall id, r ensures Sound(c.H, id, r, RecordOf(b, id, r)) {
      assert Sound(c.H, id, r, RecordOf(a, id, r));
    }
  }

  lemma OpensStays(H: Hash, a: Data, b: Data, id: nat, r: nat, c: Commitment)
    requires Opens(H, a, id, r, c) && Keeps(a, b)
    ensures Opens(H, b, id, r, c)
  {
  }

  /** A good outcome: every content the file passes through is good, and the last one is in step with memory. */
  ghost predicate OutcomeOk(c: Config, ch: Chain, d: Data, o: Outcome) {
    && (forall i :: 0 <= i < |o.writes| ==> DataOk(c, ch, o.writes[i]) && Keeps(d, o.writes[i]))
    && Synced(o.data, if o.writes == [] then d else o.writes[|o.writes| - 1])
  }

  lemma OutcomeData(c: Config, ch: Chain, d: Data, o: Outcome)
    requires DataOk(c, ch, d) && OutcomeOk(c, ch, d, o)
    ensures DataOk(c, ch, o.data) && Keeps(d, o.data)
  {
    var last := if o.writes == [] then d else o.writes[|o.writes| - 1];
    SyncedBack(o.data, last);
    SyncedOk(c, ch, last, o.data);
    SyncedKeeps(o.data, last, d);
  }

  lemma SyncedBack(a: Data, b: Data)
    requires Synced(a, b)
    ensures Synced(b, a)
  {
  }

  lemma SyncedTrans(a: Data, b: Data, d: Data)
    requires Synced(a, b) && Synced(b, d)
    ensures Synced(a, d)
  {
  }

  /** One operation after another. */
  lemma OutcomeThen(c: Config, ch: Chain, d: Data, first: Outcome, second: Outcome)
    requires DataOk(c, ch, d) && OutcomeOk(c, ch, d, first) && OutcomeOk(c, ch, first.data, second)
    ensures OutcomeOk(c, ch, d, Outcome(second.data, first.writes + second.writes))
  {
    OutcomeData(c, ch, d, first);
    var ws := first.writes + second.writes;
    forall i | 0 <= i < |ws| ensures DataOk(c, ch, ws[i]) && Keeps(d, ws[i]) {
      if i < |first.writes| {
        assert ws[i] == first.writes[i];
      } else {
        assert ws[i] == second.writes[i - |first.writes|];
        KeepsTrans(d, first.data, ws[i]);
      }
    }
    if second.writes == [] {
      assert ws == first.writes;
      SyncedTrans(second.data, first.data, if ws == [] then d else ws[|ws| - 1]);
    } else {
      assert ws[|ws| - 1] == second.writes[|second.writes| - 1];
    }
  }

  lemma NothingDone(c: Config, ch: Chain, d: Data)
    ensures OutcomeOk(c, ch, d, Outcome(d, []))
  {
  }

  // ---------------------------------------------------------------- the store's operations are good

  lemma EnsureDisputeOk(c: Config, ch: Chain, d: Data, id: nat)
    requires DataOk(c, ch, d) && id in ch.disputes
    ensures OutcomeOk(c, ch, d, EnsureDisputeRun(d, id))
  {
    var e := EnsureDispute(d, id);
    forall i, k ensures RecordOf(e, i, k) == RecordOf(d, i, k) { EnsureKeepsRecords(d, id, 0, i, k); }
    assert SoundData(c.H, e) by {
      forall i, k ensures Sound(c.H, i, k, RecordOf(e, i, k)) { assert Sound(c.H, i, k, RecordOf(d, i, k)); }
    }
  }

  lemma RoundOk(c: Config, ch: Chain, d: Data, id: nat, r: nat)
    requires DataOk(c, ch, d) && id in ch.disputes
    ensures OutcomeOk(c, ch, d, RoundRun(d, id, r))
  {
    EnsureDisputeOk(c, ch, d, id);
    RoundInMemory(d, id, r);
  }

  lemma RoundInMemory(d: Data, id: nat, r: nat)
    ensures Synced(EnsureRound(d, id, r), EnsureDispute(d, id))
  {
    forall i, k ensures RecordOf(EnsureRound(d, id, r), i, k) == RecordOf(EnsureDispute(d, id), i, k) {
      EnsureKeepsRecords(d, id, r, i, k);
    }
  }

  /** A record may be replaced by one that is sound and leaves a complete secret alone. */
  lemma PutRoundOk(c: Config, ch: Chain, d: Data, id: nat, r: nat, rec: RoundRecord)
    requires DataOk(c, ch, d) && id in ch.disputes && Sound(c.H, id, r, rec)
    requires HasSecret(RecordOf(d, id, r)) ==> SameVote(RecordOf(d, id, r), rec)
    ensures OutcomeOk(c, ch, d, PutRoundRun(d, id, r, rec))
  {
    var e := PutRound(d, id, r, rec);
    forall i, k ensures RecordOf(e, i, k) == if i == id && k == r then rec else RecordOf(d, i, k) {
      PutThenGet(d, id, r, rec, i, k);
    }
    PutThenGet(d, id, r, rec, id, r);
    assert SoundData(c.H, e) by {
      forall i, k ensures Sound(c.H, i, k, RecordOf(e, i, k)) { assert Sound(c.H, i, k, RecordOf(d, i, k)); }
    }
    assert Keeps(d, e) && DataOk(c, ch, e);
    EnsureDisputeOk(c, ch, d, id);
    SyncedTrivially(e);
  }

  lemma SyncedTrivially(d: Data)
    ensures Synced(d, d)
  {
  }

  /** Progress marks and decisions do not touch the secret. */
  lemma MarkOk(c: Config, ch: Chain, d: Data, id: nat, r: nat, rec: RoundRecord)
    requires DataOk(c, ch, d) && id in ch.disputes && SameVote(RecordOf(d, id, r), rec)
    ensures OutcomeOk(c, ch, d, PutRoundRun(d, id, r, rec))
  {
    assert Sound(c.H, id, r, RecordOf(d, id, r));
    PutRoundOk(c, ch, d, id, r, rec);
  }

  lemma PrepareOk(c: Config, ch: Chain, d: Data, id: nat, r: nat, v: Verdict, salt: Salt)
    requires DataOk(c, ch, d) && id in ch.disputes && ChosenVerdict(RecordOf(d, id, r)) == Some(v)
    ensures OutcomeOk(c, ch, d, PrepareRun(c.H, d, id, r, v, salt))
  {
    assert Sound(c.H, id, r, RecordOf(d, id, r));
    if HasSecret(RecordOf(d, id, r)) {
      RoundOk(c, ch, d, id, r);
    } else {
      PutRoundOk(c, ch, d, id, r, Fixed(c.H, RecordOf(d, id, r), id, r, v, salt));
    }
  }

  lemma ResolveOk(c: Config, ch: Chain, d: Data, id: nat)
    requires DataOk(c, ch, d) && Over(ch, id)
    ensures OutcomeOk(c, ch, d, ResolveRun(d, id))
  {
    var e := MarkResolved(d, id);
    forall i, k ensures RecordOf(e, i, k) == RecordOf(d, i, k) { EnsureKeepsRecords(d, id, 0, i, k); }
    assert SoundData(c.H, e) by {
      forall i, k ensures Sound(c.H, i, k, RecordOf(e, i, k)) { assert Sound(c.H, i, k, RecordOf(d, i, k)); }
    }
  }

  lemma {:induction false} DiscoverOk(c: Config, ch: Chain, d: Data, events: seq<Log>)
    requires DataOk(c, ch, d)
    requires forall i :: 0 <= i < |events| && Announces(events[i]) ==> events[i].id in ch.disputes
    ensures OutcomeOk(c, ch, d, DiscoverRun(d, events))
  {
    if events == [] {
      NothingDone(c, ch, d);
    } else {
      var n := |events| - 1;
      var o := DiscoverRun(d, events[..n]);
      DiscoverOk(c, ch, d, events[..n]);
      OutcomeData(c, ch, d, o);
      if Announces(events[n]) {
        EnsureDisputeOk(c, ch, o.data, events[n].id);
        OutcomeThen(c, ch, d, o, EnsureDisputeRun(o.data, events[n].id));
      }
    }
  }

  // ---------------------------------------------------------------- the invariant

  /** What the file holds, or would hold after a first start. */
  function Held(c: Config, s: Sys): Data {
    if s.disk.Some? then s.disk.value else Initial(c.startBlock)
  }

  /** A transaction is backed by the secret on disk, and meant for a seat this juror has. */
  predicate Backed(c: Config, ch: Chain, d: Data, m: Message) {
    && Seated(ch, m.id, m.round)
    && match m
       case CommitMsg(id, r, commitment) => Opens(c.H, d, id, r, commitment)
       case RevealMsg(id, r, v, salt) =>
         HasSecret(RecordOf(d, id, r)) && RecordOf(d, id, r).verdict == Some(v) && RecordOf(d, id, r).salt == Some(salt)
  }

  predicate Done(ch: Chain, m: Message) {
    && Seated(ch, m.id, m.round)
    && (m.CommitMsg? ==> OnChain(ch, m.id, m.round).commitment != ZERO32)
    && (m.RevealMsg? ==> OnChain(ch, m.id, m.round).revealed)
  }

  /** A snapshot, however old, agrees with the chain on everything that cannot be undone. */
  predicate ViewOk(ch: Chain, id: nat, v: DisputeView) {
    && id in ch.disputes
    && (v.status == NotFalseDescription ==> !ch.disputes[id].falseDescription)
    && (v.status == Resolved ==> ch.disputes[id].stage == Settled)
    && (v.seat.Some? ==> Seated(ch, id, v.round)
                         && (v.seat.value.commitment != ZERO32
                             ==> OnChain(ch, id, v.round).commitment == v.seat.value.commitment)
                         && (v.seat.value.revealed ==> OnChain(ch, id, v.round).revealed))
  }

  ghost predicate TaskOk(c: Config, ch: Chain, d: Data, t: Task) {
    match t
    case Driving(id, v) => ViewOk(ch, id, v)
    case Sending(m) => Backed(c, ch, d, m)
    case Sent(m) => Backed(c, ch, d, m)
    case Confirming(m) => Backed(c, ch, d, m)
    case Deliberating(id, _) => id in ch.disputes
    case Publishing(id, _) => id in ch.disputes
    case Finishing(id, _) => id in ch.disputes && ch.disputes[id].stage == Settled
    case Fetched(from, to, events) => FetchOk(ch, d, from, to, events)
  }

  /** The events read are all there will ever be for the range, and the range follows what is covered. */
  ghost predicate FetchOk(ch: Chain, d: Data, from: nat, to: nat, events: seq<Log>) {
    && from <= d.cursor + 1 && to <= ch.sealed
    && (forall i :: 0 <= i < |events| ==>
          events[i].block <= to && (Announces(events[i]) ==> events[i].id in ch.disputes))
    && Announced(events, 0, to) == Announced(ch.logs, from, to)
  }

  /** Commitments on chain can be opened from the file. */
  ghost predicate VotesBacked(c: Config, ch: Chain, d: Data) {
    forall id, r :: Seated(ch, id, r) && OnChain(ch, id, r).commitment != ZERO32
        ==> Opens(c.H, d, id, r, OnChain(ch, id, r).commitment)
  }

  ghost predicate Inv(c: Config, s: Sys) {
    && ChainOk(s.chain)
    && DataOk(c, s.chain, Held(c, s))
    && VotesBacked(c, s.chain, Held(c, s))
    && (forall m :: m in s.net ==> Backed(c, s.chain, Held(c, s), m))
    && (forall m :: m in s.executed ==> Done(s.chain, m))
    && (forall p :: p in s.released ==> Open(s.chain, p.0, p.1) && HasSecret(RecordOf(Held(c, s), p.0, p.1)))
    && s.alarms == {}
    && (s.proc.Some? ==>
          && s.disk.Some? && Synced(Held(c, s), s.proc.value.mem)
          && forall t :: t in s.proc.value.tasks ==> TaskOk(c, s.chain, Held(c, s), t))
  }
}
