/**
 * The juror process: log scanning, and the stretches of the per-dispute protocol between two
 * awaits. Each method is one such stretch; what happens at the awaits is in JurorProtocol.
 */
module Juror {
  import opened Base
  import opened JurorState

  // ---------------------------------------------------------------- what the chain shows

  datatype Log =
    | DisputeOpened(block: nat, id: nat, falseDescription: bool)
    | JurorsSelected(block: nat, id: nat)
    | OtherEvent(block: nat)

  /** The events that make a dispute known to the juror. */
  predicate Announces(l: Log) {
    l.JurorsSelected? || (l.DisputeOpened? && l.falseDescription)
  }

  /** Disputes announced in blocks `from` to `to`. */
  ghost function Announced(logs: seq<Log>, from: nat, to: int): set<nat> {
    if logs == [] then {}
    else
      var rest := Announced(logs[1..], from, to);
      if from <= logs[0].block <= to && Announces(logs[0]) then {logs[0].id} + rest else rest
  }

  lemma {:induction false} AnnouncedIs(logs: seq<Log>, from: nat, to: int, id: nat)
    ensures id in Announced(logs, from, to)
            <==> exists i :: 0 <= i < |logs| && from <= logs[i].block <= to && Announces(logs[i]) && logs[i].id == id
  {
    if logs != [] {
      AnnouncedIs(logs[1..], from, to, id);
      if i :| 0 <= i < |logs| && from <= logs[i].block <= to && Announces(logs[i]) && logs[i].id == id {
        if i > 0 { assert logs[1..][i - 1] == logs[i]; }
      }
      if id in Announced(logs[1..], from, to) {
        var i :| 0 <= i < |logs[1..]| && from <= logs[1..][i].block <= to && Announces(logs[1..][i])
            && logs[1..][i].id == id;
        assert logs[i + 1] == logs[1..][i];
      }
    }
  }

  /** eth_getLogs: the events of a block range, in order. */
  function EventsIn(logs: seq<Log>, from: nat, to: nat): seq<Log> {
    if logs == [] then []
    else (if from <= logs[0].block <= to then [logs[0]] else []) + EventsIn(logs[1..], from, to)
  }

  function Discovered(d: Data, ids: set<nat>): Data {
    d.(disputes := map id | id in d.disputes.Keys + ids ::
         if id in d.disputes then d.disputes[id] else DisputeRecord(map[], false))
  }

  lemma DiscoverOne(d: Data, id: nat)
    ensures EnsureDispute(d, id) == Discovered(d, {id})
  {
    assert EnsureDispute(d, id).disputes == Discovered(d, {id}).disputes;
  }

  lemma DiscoverMore(d: Data, a: set<nat>, b: set<nat>)
    ensures Discovered(Discovered(d, a), b) == Discovered(d, a + b)
  {
    assert Discovered(Discovered(d, a), b).disputes == Discovered(d, a + b).disputes;
  }

  lemma DiscoverNothing(d: Data)
    ensures Discovered(d, {}) == d
  {
    assert Discovered(d, {}).disputes == d.disputes;
  }

  lemma {:induction false} EventsInAnnounce(logs: seq<Log>, from: nat, to: nat)
    ensures Announced(EventsIn(logs, from, to), 0, to) == Announced(logs, from, to)
  {
    if logs != [] {
      EventsInAnnounce(logs[1..], from, to);
      if from <= logs[0].block <= to {
        assert EventsIn(logs, from, to)[1..] == EventsIn(logs[1..], from, to);
      } else {
        assert EventsIn(logs, from, to) == EventsIn(logs[1..], from, to);
      }
    }
  }

  lemma {:induction false} AnnouncedConcat(a: seq<Log>, b: seq<Log>, from: nat, to: int)
    ensures Announced(a + b, from, to) == Announced(a, from, to) + Announced(b, from, to)
  {
    if a == [] {
      assert a + b == b;
    } else {
      AnnouncedConcat(a[1..], b, from, to);
      assert (a + b)[1..] == a[1..] + b;
    }
  }

  lemma {:induction false} AnnouncedSplit(logs: seq<Log>, from: nat, mid: int, to: nat)
    requires 0 <= mid + 1 && from <= mid + 1 && mid <= to
    ensures Announced(logs, from, to) == Announced(logs, from, mid) + Announced(logs, mid + 1, to)
  {
    if logs != [] { AnnouncedSplit(logs[1..], from, mid, to); }
  }

  /** A range that ends before it begins announces nothing. */
  lemma {:induction false} AnnouncedNowhere(logs: seq<Log>, from: nat, to: int)
    requires to < from
    ensures Announced(logs, from, to) == {}
  {
    if logs != [] { AnnouncedNowhere(logs[1..], from, to); }
  }

  /** Ranges one after the other, from `from` up to and including `to`. */
  ghost predicate Tiles(ranges: seq<(nat, nat)>, from: nat, to: int) {
    if ranges == [] then to + 1 == from
    else ranges[0].0 == from && from <= ranges[0].1 <= to && Tiles(ranges[1..], ranges[0].1 + 1, to)
  }

  lemma {:induction false} TilesPush(ranges: seq<(nat, nat)>, from: nat, mid: int, to: nat)
    requires Tiles(ranges, from, mid) && mid < to && mid + 1 >= 0
    ensures Tiles(ranges + [(mid + 1, to)], from, to)
  {
    if ranges == [] {
      assert [] + [(mid + 1, to)] == [(mid + 1, to)];
      assert [(mid + 1, to)][1..] == [];
    } else {
      TilesPush(ranges[1..], ranges[0].1 + 1, mid, to);
      assert (ranges + [(mid + 1, to)])[1..] == ranges[1..] + [(mid + 1, to)];
    }
  }

  // ---------------------------------------------------------------- which phase a dispute is in

  datatype SeatView = SeatView(commitment: Commitment, revealed: bool)

  /** A snapshot of a dispute: status, this juror's seat in the current round, the rounds it sat in, deadlines. */
  datatype Status = NotFalseDescription | Resolved | AwaitingSelection | Voting | OtherStatus

  datatype DisputeView = DisputeView(status: Status, round: nat, seat: Option<SeatView>, mine: seq<nat>,
                                     allCommitted: bool, commitDeadline: nat, revealDeadline: nat, now: nat)

  datatype Phase = GiveUp | Finish | Select | Commit | CommitLate | Reveal | RevealLate | Wait | Publish | Unseated

  function PhaseOf(v: DisputeView): Phase {
    match v.status
    case NotFalseDescription => GiveUp
    case Resolved => Finish
    case AwaitingSelection => Select
    case OtherStatus => Wait
    case Voting =>
      match v.seat
      case None => Unseated
      case Some(seat) =>
        if seat.commitment == ZERO32 then (if v.now <= v.commitDeadline then Commit else CommitLate)
        else if !seat.revealed then
          (if (v.now > v.commitDeadline || v.allCommitted) && v.now <= v.revealDeadline then Reveal
           else if v.now > v.revealDeadline then RevealLate else Wait)
        else Publish
  }

  // ---------------------------------------------------------------- the phases

  datatype CommitAction = NothingToDo | StartDecision | SendCommit(commitment: Commitment)

  datatype RevealAction = NoSecretStored | SecretMismatch | SendReveal(verdict: Verdict, salt: Salt)

  /** The verdict the commit phase would commit to. */
  function ChosenVerdict(rec: RoundRecord): Option<Verdict> {
    if rec.verdict.Some? then rec.verdict else rec.decision
  }

  function RevealOf(H: Hash, rec: RoundRecord, id: nat, r: nat, onChain: Commitment): RevealAction {
    if rec.salt.None? || rec.verdict.None? then NoSecretStored
    else if H(id, r, rec.verdict.value, rec.salt.value) != onChain then SecretMismatch
    else SendReveal(rec.verdict.value, rec.salt.value)
  }

  predicate Publishable(rec: RoundRecord) {
    rec.decision.Some? && rec.verdict.Some? && rec.commitment.Some? && !rec.published
  }

  // ---------------------------------------------------------------- stretches between two awaits

  /** commitPhase up to its first await; `waiting` when a deliberation is under way or tried too recently. */
  function CommitRun(H: Hash, d: Data, id: nat, r: nat, waiting: bool, salt: Salt): (Outcome, CommitAction) {
    var chosen := ChosenVerdict(RecordOf(d, id, r));
    if chosen.None? then (RoundRun(d, id, r), if waiting then NothingToDo else StartDecision)
    else
      var o := PrepareRun(H, d, id, r, chosen.value, salt);
      Prepared(H, d, id, r, chosen.value, salt);
      (o, SendCommit(SecretOf(RecordOf(o.data, id, r)).commitment))
  }

  /** The end of a deliberation: its verdict is stored unless a verdict or decision is already there. */
  function DecisionRun(d: Data, id: nat, r: nat, v: Option<Verdict>): Outcome {
    var rec := RecordOf(d, id, r);
    if v.None? then Outcome(d, [])
    else if rec.verdict.Some? || rec.decision.Some? then RoundRun(d, id, r)
    else PutRoundRun(d, id, r, rec.(decision := v))
  }

  /** A deliberation's verdict becomes its round's decision, in memory and in the file, and nothing else changes. */
  lemma DecisionStored(d: Data, id: nat, r: nat, v: Verdict, id': nat, r': nat)
    requires RecordOf(d, id, r).verdict.None? && RecordOf(d, id, r).decision.None?
    ensures var o := DecisionRun(d, id, r, Some(v));
            && RecordOf(o.data, id, r) == RecordOf(d, id, r).(decision := Some(v))
            && ((id', r') != (id, r) ==> RecordOf(o.data, id', r') == RecordOf(d, id', r'))
            && o.writes != [] && o.writes[|o.writes| - 1] == o.data
            && forall k :: 0 <= k < |o.writes| - 1 ==> RecordOf(o.writes[k], id', r') == RecordOf(d, id', r')
  {
    PutThenGet(d, id, r, RecordOf(d, id, r).(decision := Some(v)), id', r');
    PutThenGet(d, id, r, RecordOf(d, id, r).(decision := Some(v)), id, r);
    EnsureKeepsRecords(d, id, r, id', r');
  }

  /** Otherwise every record stays: no verdict came back, or one is stored already. */
  lemma DecisionIgnored(d: Data, id: nat, r: nat, v: Option<Verdict>, id': nat, r': nat)
    requires v.None? || RecordOf(d, id, r).verdict.Some? || RecordOf(d, id, r).decision.Some?
    ensures var o := DecisionRun(d, id, r, v);
            && RecordOf(o.data, id', r') == RecordOf(d, id', r')
            && forall k :: 0 <= k < |o.writes| ==> RecordOf(o.writes[k], id', r') == RecordOf(d, id', r')
  {
    EnsureKeepsRecords(d, id, r, id', r');
  }

  ghost predicate DecisionKeeps(d: Data, id: nat, r: nat, v: Option<Verdict>, id': nat, r': nat) {
    var o := DecisionRun(d, id, r, v);
    var rec := RecordOf(d, id, r);
    if (id', r') == (id, r) && v.Some? && rec.verdict.None? && rec.decision.None?
    then RecordOf(o.data, id, r) == rec.(decision := v) && After(None, o.writes) == Some(o.data)
    else RecordOf(o.data, id', r') == RecordOf(d, id', r')
  }

  lemma DecisionKept(d: Data, id: nat, r: nat, v: Option<Verdict>, id': nat, r': nat)
    ensures DecisionKeeps(d, id, r, v, id', r')
  {
    var rec := RecordOf(d, id, r);
    if v.Some? && rec.verdict.None? && rec.decision.None? { DecisionStored(d, id, r, v.value, id', r'); }
    else { DecisionIgnored(d, id, r, v, id', r'); }
  }

  function CommitSentRun(d: Data, id: nat, r: nat, hash: TxHash): Outcome {
    PutRoundRun(d, id, r, RecordOf(d, id, r).(commitTx := Some(hash)))
  }

  function CommitConfirmedRun(d: Data, id: nat, r: nat): Outcome {
    PutRoundRun(d, id, r, RecordOf(d, id, r).(commitConfirmed := true))
  }

  function RevealSentRun(d: Data, id: nat, r: nat, hash: TxHash): Outcome {
    PutRoundRun(d, id, r, RecordOf(d, id, r).(revealTx := Some(hash)))
  }

  function RevealConfirmedRun(d: Data, id: nat, r: nat): Outcome {
    PutRoundRun(d, id, r, RecordOf(d, id, r).(revealConfirmed := true))
  }

  function PublishedRun(d: Data, id: nat, r: nat): Outcome {
    PutRoundRun(d, id, r, RecordOf(d, id, r).(published := true))
  }

  function ResolveRun(d: Data, id: nat): Outcome {
    Outcome(MarkResolved(d, id), [MarkResolved(d, id)])
  }

  /** The events of one chunk: each announced dispute gets a record. */
  function DiscoverRun(d: Data, events: seq<Log>): Outcome {
    if events == [] then Outcome(d, [])
    else
      var o := DiscoverRun(d, events[..|events| - 1]);
      var l := events[|events| - 1];
      if Announces(l) then
        var e := EnsureDisputeRun(o.data, l.id);
        Outcome(e.data, o.writes + e.writes)
      else o
  }

  function ScanRun(d: Data, events: seq<Log>, to: nat): Outcome {
    var o := DiscoverRun(d, events);
    Outcome(WithCursor(o.data, to), o.writes + CursorRun(o.data, to).writes)
  }

  lemma {:induction false} DiscoverFinds(d: Data, events: seq<Log>, to: nat)
    requires forall i :: 0 <= i < |events| ==> events[i].block <= to
    ensures DiscoverRun(d, events).data == Discovered(d, Announced(events, 0, to))
    ensures After(Some(d), DiscoverRun(d, events).writes) == Some(DiscoverRun(d, events).data)
  {
    DiscoverNothing(d);
    if events == [] {
      assert Announced(events, 0, to) == {};
    } else {
      var n := |events| - 1;
      var l := events[n];
      DiscoverFinds(d, events[..n], to);
      assert events == events[..n] + [l];
      AnnouncedConcat(events[..n], [l], 0, to);
      assert Announced([l], 0, to) == if Announces(l) then {l.id} else {} by {
        if Announces(l) { assert [l][0] == l; }
      }
      DiscoverMore(d, Announced(events[..n], 0, to), Announced([l], 0, to));
      if Announces(l) {
        DiscoverOne(DiscoverRun(d, events[..n]).data, l.id);
      } else {
        assert Announced(events, 0, to) == Announced(events[..n], 0, to);
      }
    }
  }

  /** The state that has every dispute announced after the cursor, up to block `to`. */
  ghost function Scanned(d: Data, logs: seq<Log>, to: nat): Data {
    Discovered(d, Announced(logs, d.cursor + 1, to)).(cursor := to)
  }

  lemma ScannedNothing(d: Data, logs: seq<Log>)
    ensures Scanned(d, logs, d.cursor) == d
  {
    AnnouncedNowhere(logs, d.cursor + 1, d.cursor);
    DiscoverNothing(d);
  }

  /** One chunk, read right after the cursor, carries a scan on to the chunk's end. */
  lemma ScanFinds(d0: Data, logs: seq<Log>, from: nat, to: nat)
    requires d0.cursor < from <= to
    ensures var o := ScanRun(Scanned(d0, logs, from - 1), EventsIn(logs, from, to), to);
            o.data == Scanned(d0, logs, to) && After(None, o.writes) == Some(o.data)
  {
    ChunkFinds(Scanned(d0, logs, from - 1), logs, from, to);
    AnnouncedSplit(logs, d0.cursor + 1, from - 1, to);
    ScanCarriesOn(d0, logs, from, to, Announced(logs, d0.cursor + 1, from - 1), Announced(logs, from, to),
                  Announced(logs, d0.cursor + 1, to));
  }

  lemma ScanCarriesOn(d0: Data, logs: seq<Log>, from: nat, to: nat, a: set<nat>, b: set<nat>, c: set<nat>)
    requires d0.cursor < from <= to && c == a + b
    requires a == Announced(logs, d0.cursor + 1, from - 1) && b == Announced(logs, from, to)
            && c == Announced(logs, d0.cursor + 1, to)
    ensures Discovered(Scanned(d0, logs, from - 1), b).(cursor := to) == Scanned(d0, logs, to)
  {
    CarryOn(d0, a, b, c, from - 1, to);
    assert Scanned(d0, logs, to) == Discovered(d0, c).(cursor := to);
    assert Scanned(d0, logs, from - 1) == Discovered(d0, a).(cursor := from - 1);
  }

  lemma CarryOn(d: Data, a: set<nat>, b: set<nat>, c: set<nat>, mid: nat, to: nat)
    requires c == a + b
    ensures Discovered(Discovered(d, a).(cursor := mid), b).(cursor := to) == Discovered(d, c).(cursor := to)
  {
    assert Discovered(Discovered(d, a).(cursor := mid), b).disputes == Discovered(d, a + b).disputes;
  }

  lemma ChunkFinds(d: Data, logs: seq<Log>, from: nat, to: nat)
    requires d.cursor < to
    ensures var o := ScanRun(d, EventsIn(logs, from, to), to);
            o.data == Discovered(d, Announced(logs, from, to)).(cursor := to) && After(None, o.writes) == Some(o.data)
  {
    EventsInRange(logs, from, to);
    DiscoverFinds(d, EventsIn(logs, from, to), to);
    EventsInAnnounce(logs, from, to);
  }

  class JurorProcess {
    const store: JurorStore
    const H: Hash
    const logRange: nat
    const evidenceRetryMs: nat
    var pending: set<(nat, nat)>
    var lastEvidenceTry: map<(nat, nat), nat>
    var stopping: bool

    constructor (store: JurorStore, H: Hash, logRange: nat, evidenceRetryMs: nat)
      ensures this.store == store && this.H == H && this.logRange == logRange && this.evidenceRetryMs == evidenceRetryMs
      ensures pending == {} && lastEvidenceTry == map[] && !stopping
    {
      this.store := store;
      this.H := H;
      this.logRange := logRange;
      this.evidenceRetryMs := evidenceRetryMs;
      pending, lastEvidenceTry, stopping := {}, map[], false;
    }

    /** No deliberation may start: one is running, or the last attempt is too recent. */
    predicate Waiting(id: nat, r: nat, nowMs: nat)
      reads this
    {
      || (id, r) in pending
      || nowMs < (if (id, r) in lastEvidenceTry then lastEvidenceTry[(id, r)] else 0) + evidenceRetryMs
    }

    method HandleEvents(events: seq<Log>)
      requires store.file.Valid()
      modifies store, store.file
      ensures store.Did(DiscoverRun(old(store.data), events))
    {
      ghost var h0 := store.file.history;
      for k := 0 to |events|
        invariant store.file.Valid()
        invariant store.data == DiscoverRun(old(store.data), events[..k]).data
        invariant store.file.history == h0 + DiscoverRun(old(store.data), events[..k]).writes
      {
        assert events[..k + 1][..k] == events[..k] && events[..k + 1][k] == events[k];
        if Announces(events[k]) {
          store.EnsureDisputeRecord(events[k].id);
        }
      }
      assert events[..|events|] == events;
    }

    method ScanChunk(logs: seq<Log>, from: nat, to: nat)
      requires store.file.Valid()
      modifies store, store.file
      ensures store.Did(ScanRun(old(store.data), EventsIn(logs, from, to), to))
      ensures ScanRun(old(store.data), EventsIn(logs, from, to), to).writes != [] ==>
                store.file.content == After(None, ScanRun(old(store.data), EventsIn(logs, from, to), to).writes)
    {
      HandleEvents(EventsIn(logs, from, to));
      store.SetCursor(to);
    }

    method ScanNextChunk(ghost d0: Data, logs: seq<Log>, from: nat, to: nat)
      requires store.file.Valid() && d0.cursor < from <= to && store.data == Scanned(d0, logs, from - 1)
      modifies store, store.file
      ensures store.file.Valid() && store.data == Scanned(d0, logs, to) && store.file.content == Some(store.data)
    {
      ScanFinds(d0, logs, from, to);
      ScanChunk(logs, from, to);
    }

    /**
     * Scans from the cursor towards the head in chunks, until the head is reached or the process is
     * told to stop, which may happen while any chunk is fetched (`stopAt`). Afterwards the cursor is at
     * `end`, the chunks read tile the blocks in between without gap or overlap, and every dispute
     * announced in them is stored, in memory and on disk. Without a stop, `end` is the head.
     */
    method ScanLogs(logs: seq<Log>, head: nat, stopAt: Option<nat>)
      returns (ghost ranges: seq<(nat, nat)>, ghost end: nat)
      requires logRange >= 1 && store.file.Valid()
      modifies this`stopping, store, store.file
      ensures store.file.Valid()
      ensures stopping <==> old(stopping) || (stopAt.Some? && stopAt.value < |ranges|)
      ensures store.data == Scanned(old(store.data), logs, end)
      ensures if ranges == [] then store.data == old(store.data) && store.file.content == old(store.file.content)
              else store.file.content == Some(store.data)
      ensures Tiles(ranges, old(store.data).cursor + 1, end)
      ensures forall i :: 0 <= i < |ranges| ==> ranges[i].1 - ranges[i].0 < logRange
      ensures old(store.data).cursor <= end && (end <= head || ranges == [])
      ensures !stopping ==> end >= head
      ensures old(stopping) ==> ranges == []
      ensures stopAt.Some? ==> |ranges| <= stopAt.value + 1
    {
      ghost var d0 := store.data;
      var from := store.data.cursor + 1;
      var fetched := 0;
      ranges := [];
      ScannedNothing(d0, logs);
      while from <= head && !stopping
        invariant store.file.Valid() && fetched == |ranges|
        invariant if ranges == [] then from == d0.cursor + 1 else d0.cursor + 1 < from <= head + 1
        invariant ranges == [] ==> store.data == d0 && store.file.content == old(store.file.content)
        invariant ranges != [] ==> !old(stopping) && store.file.content == Some(store.data)
        invariant store.data == Scanned(d0, logs, from - 1)
        invariant Tiles(ranges, d0.cursor + 1, from - 1)
        invariant forall i :: 0 <= i < |ranges| ==> ranges[i].1 - ranges[i].0 < logRange
        invariant stopping <==> old(stopping) || (stopAt.Some? && stopAt.value < |ranges|)
        invariant stopAt.Some? ==> |ranges| <= stopAt.value + 1
        decreases head + 1 - from
      {
        var to := if from + logRange - 1 < head then from + logRange - 1 else head;
        if stopAt == Some(fetched) { stopping := true; }
        ScanNextChunk(d0, logs, from, to);
        TilesPush(ranges, d0.cursor + 1, from - 1, to);
        ranges := ranges + [(from, to)];
        fetched := fetched + 1;
        from := to + 1;
      }
      end := from - 1;
    }

    /** The commit phase up to its first await. A commitment handed out is already on disk. */
    method CommitPhase(id: nat, r: nat, nowMs: nat, freshSalt: Salt) returns (a: CommitAction)
      requires store.file.Valid()
      modifies this, store, store.file
      ensures var (o, act) := CommitRun(H, old(store.data), id, r, old(Waiting(id, r, nowMs)), freshSalt);
              store.Did(o) && a == act
      ensures var rec := RecordOf(old(store.data), id, r);
              && (a.SendCommit? <==> rec.verdict.Some? || rec.decision.Some?)
              && (a.StartDecision? <==>
                    && rec.verdict.None? && rec.decision.None? && (id, r) !in old(pending)
                    && ((id, r) in old(lastEvidenceTry) ==> nowMs - old(lastEvidenceTry)[(id, r)] >= evidenceRetryMs)
                    && ((id, r) !in old(lastEvidenceTry) ==> nowMs >= evidenceRetryMs))
      ensures pending == if a.StartDecision? then old(pending) + {(id, r)} else old(pending)
      ensures lastEvidenceTry
              == if a.StartDecision? then old(lastEvidenceTry)[(id, r) := nowMs] else old(lastEvidenceTry)
      ensures stopping == old(stopping)
    {
      var rec := store.Round(id, r);
      if rec.verdict.None? && rec.decision.None? {
        if (id, r) in pending { return NothingToDo; }
        var last := if (id, r) in lastEvidenceTry then lastEvidenceTry[(id, r)] else 0;
        if nowMs < last + evidenceRetryMs { return NothingToDo; }
        lastEvidenceTry := lastEvidenceTry[(id, r) := nowMs];
        pending := pending + {(id, r)};
        return StartDecision;
      }
      var verdict := if rec.verdict.Some? then rec.verdict.value else rec.decision.value;
      PrepareAfterRound(H, old(store.data), id, r, verdict, freshSalt);
      var s := store.Prepare(H, id, r, verdict, freshSalt);
      return SendCommit(s.commitment);
    }

    method DecisionDone(id: nat, r: nat, v: Option<Verdict>)
      requires store.file.Valid()
      modifies this, store, store.file
      ensures store.Did(DecisionRun(old(store.data), id, r, v))
      ensures pending == old(pending) - {(id, r)}
      ensures var rec := RecordOf(old(store.data), id, r);
              if v.Some? && rec.verdict.None? && rec.decision.None?
              then RecordOf(store.data, id, r) == rec.(decision := v) && store.file.content == Some(store.data)
              else forall i: nat, k: nat :: RecordOf(store.data, i, k) == RecordOf(old(store.data), i, k)
      ensures forall i: nat, k: nat :: (i, k) != (id, r) ==>
                RecordOf(store.data, i, k) == RecordOf(old(store.data), i, k)
    {
      forall i: nat, k: nat ensures DecisionKeeps(store.data, id, r, v, i, k) {
        DecisionKept(store.data, id, r, v, i, k);
      }
      assert DecisionKeeps(store.data, id, r, v, id, r);
      pending := pending - {(id, r)};
      if v.None? { return; }
      var rec := store.Round(id, r);
      if rec.verdict.Some? || rec.decision.Some? { return; }
      PutAfterEnsure(old(store.data), id, r, rec.(decision := v));
      store.UpdateRound(id, r, rec.(decision := v));
    }

    method CommitSent(id: nat, r: nat, hash: TxHash)
      requires id in store.data.disputes && store.file.Valid()
      modifies store, store.file
      ensures store.Did(CommitSentRun(old(store.data), id, r, hash))
      ensures RecordOf(store.data, id, r) == RecordOf(old(store.data), id, r).(commitTx := Some(hash))
      ensures store.file.content == Some(store.data)
    {
      store.UpdateRound(id, r, RecordOf(store.data, id, r).(commitTx := Some(hash)));
    }

    method CommitConfirmed(id: nat, r: nat)
      requires id in store.data.disputes && store.file.Valid()
      modifies store, store.file
      ensures store.Did(CommitConfirmedRun(old(store.data), id, r))
      ensures RecordOf(store.data, id, r) == RecordOf(old(store.data), id, r).(commitConfirmed := true)
      ensures store.file.content == Some(store.data)
    {
      store.UpdateRound(id, r, RecordOf(store.data, id, r).(commitConfirmed := true));
    }

    /** The reveal phase up to its first await: checks the stored secret against the seat. */
    method RevealPhase(id: nat, r: nat, onChain: Commitment) returns (a: RevealAction)
      requires store.file.Valid()
      modifies store, store.file
      ensures store.Did(RoundRun(old(store.data), id, r))
      ensures a == RevealOf(H, RecordOf(old(store.data), id, r), id, r, onChain)
    {
      var rec := store.Round(id, r);
      if rec.salt.None? || rec.verdict.None? { return NoSecretStored; }
      var recomputed := H(id, r, rec.verdict.value, rec.salt.value);
      if recomputed != onChain { return SecretMismatch; }
      return SendReveal(rec.verdict.value, rec.salt.value);
    }

    method RevealSent(id: nat, r: nat, hash: TxHash)
      requires id in store.data.disputes && store.file.Valid()
      modifies store, store.file
      ensures store.Did(RevealSentRun(old(store.data), id, r, hash))
      ensures RecordOf(store.data, id, r) == RecordOf(old(store.data), id, r).(revealTx := Some(hash))
      ensures store.file.content == Some(store.data)
    {
      store.UpdateRound(id, r, RecordOf(store.data, id, r).(revealTx := Some(hash)));
    }

    method RevealConfirmed(id: nat, r: nat)
      requires id in store.data.disputes && store.file.Valid()
      modifies store, store.file
      ensures store.Did(RevealConfirmedRun(old(store.data), id, r))
      ensures RecordOf(store.data, id, r) == RecordOf(old(store.data), id, r).(revealConfirmed := true)
      ensures store.file.content == Some(store.data)
    {
      store.UpdateRound(id, r, RecordOf(store.data, id, r).(revealConfirmed := true));
    }

    /** The first half of maybePublish: is there a rationale to release? */
    method MayPublish(id: nat, r: nat) returns (yes: bool)
      requires store.file.Valid()
      modifies store, store.file
      ensures store.Did(RoundRun(old(store.data), id, r))
      ensures var rec := RecordOf(old(store.data), id, r);
              yes <==> rec.decision.Some? && rec.verdict.Some? && rec.commitment.Some? && !rec.published
      ensures yes == Publishable(RecordOf(old(store.data), id, r))
    {
      var rec := store.Round(id, r);
      yes := rec.decision.Some? && rec.verdict.Some? && rec.commitment.Some? && !rec.published;
    }

    /** The second half, once the rationale is out. */
    method Published(id: nat, r: nat)
      requires id in store.data.disputes && store.file.Valid()
      modifies store, store.file
      ensures store.Did(PublishedRun(old(store.data), id, r))
      ensures RecordOf(store.data, id, r) == RecordOf(old(store.data), id, r).(published := true)
      ensures store.file.content == Some(store.data)
    {
      store.UpdateRound(id, r, RecordOf(store.data, id, r).(published := true));
    }
  }

  // ---------------------------------------------------------------- facts the methods use

  lemma {:induction false} EventsInRange(logs: seq<Log>, from: nat, to: nat)
    ensures forall i :: 0 <= i < |EventsIn(logs, from, to)| ==> EventsIn(logs, from, to)[i].block <= to
  {
    if logs != [] { EventsInRange(logs[1..], from, to); }
  }

  /** Looking the round up first changes nothing: the writes of both add up to the same. */
  lemma PrepareAfterRound(H: Hash, d: Data, id: nat, r: nat, v: Verdict, salt: Salt)
    ensures var first := RoundRun(d, id, r);
            var second := PrepareRun(H, first.data, id, r, v, salt);
            PrepareRun(H, d, id, r, v, salt) == Outcome(second.data, first.writes + second.writes)
  {
    var first := RoundRun(d, id, r);
    EnsureKeepsRecords(d, id, r, id, r);
    PutAfterEnsure(d, id, r, Fixed(H, RecordOf(d, id, r), id, r, v, salt));
    assert id in first.data.disputes;
    assert first.writes + [] == first.writes;
  }
}
