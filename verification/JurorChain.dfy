/**
 * The market contract as far as the juror relies on it: disputes, this juror's seats, deadlines,
 * when a commit or a reveal is accepted, and the event log.
 */
module JurorChain {
  import opened Base
  import opened JurorState
  import opened Juror

  datatype Seat = Seat(commitment: Commitment, revealed: bool)

  datatype Stage = Drawing | Balloting | Settled

  /** A dispute with this juror's seats, by round; `othersCommitted` is about the rest of the current panel. */
  datatype Dispute = Dispute(falseDescription: bool, stage: Stage, round: nat, commitDeadline: nat, revealDeadline: nat,
                             othersCommitted: bool, seats: map<nat, Seat>)

  /** `sealed` is the number of the last complete block; events go into the next one. */
  datatype Chain = Chain(sealed: nat, now: nat, disputes: map<nat, Dispute>, logs: seq<Log>)

  const GENESIS := Chain(0, 0, map[], [])

  datatype ChainStep =
    | Seal(elapsed: nat)
    | OpenDispute(id: nat, falseDescription: bool)
    | Draw(id: nat, seated: bool, commitWindow: nat, revealWindow: nat)
    | DrawFails(id: nat)
    | OthersCommit(id: nat)
    | Tally(id: nat, decided: bool)

  function AllCommitted(d: Dispute): bool {
    d.othersCommitted && d.round in d.seats && d.seats[d.round].commitment != ZERO32
  }

  /** A failed first round leads to a second, a failed second one to the fallback verdict. */
  function AdvanceOrFallback(d: Dispute): Dispute {
    if d.round == 1 then
      d.(round := 2, stage := Drawing, commitDeadline := 0, revealDeadline := 0, othersCommitted := false)
    else d.(stage := Settled)
  }

  /** The second panel is drawn without the members of the first. */
  function DrawPanel(d: Dispute, seated: bool, commitDeadline: nat, revealDeadline: nat): Dispute {
    d.(stage := Balloting, commitDeadline := commitDeadline, revealDeadline := revealDeadline,
       seats := if seated && !(d.round == 2 && 1 in d.seats) && d.round !in d.seats
                then d.seats[d.round := Seat(ZERO32, false)] else d.seats)
  }

  datatype Change = NoChange | Change(id: nat, dispute: Dispute, event: Log)

  predicate At(c: Chain, id: nat, stage: Stage) {
    id in c.disputes && c.disputes[id].falseDescription && c.disputes[id].stage == stage
  }

  /** Calls of everybody else; one the contract would revert changes nothing. */
  function ChangeBy(c: Chain, m: ChainStep): Change {
    var block := c.sealed + 1;
    match m
    case Seal(_) => NoChange
    case OpenDispute(id, fd) =>
      if id in c.disputes then NoChange
      else Change(id, Dispute(fd, Drawing, 1, 0, 0, false, map[]), Log.DisputeOpened(block, id, fd))
    case Draw(id, seated, commitWindow, revealWindow) =>
      if !At(c, id, Drawing) then NoChange
      else Change(id, DrawPanel(c.disputes[id], seated, c.now + commitWindow, c.now + commitWindow + revealWindow),
                  Log.JurorsSelected(block, id))
    case DrawFails(id) =>
      if !At(c, id, Drawing) then NoChange else Change(id, AdvanceOrFallback(c.disputes[id]), OtherEvent(block))
    case OthersCommit(id) =>
      if !At(c, id, Balloting) then NoChange
      else Change(id, c.disputes[id].(othersCommitted := true), OtherEvent(block))
    case Tally(id, decided) =>
      if !At(c, id, Balloting) then NoChange
      else Change(id, if decided then c.disputes[id].(stage := Settled)
                  else AdvanceOrFallback(c.disputes[id]), OtherEvent(block))
  }

  function Replace(c: Chain, id: nat, d: Dispute, l: Log): Chain {
    c.(disputes := c.disputes[id := d], logs := c.logs + [l])
  }

  function Move(c: Chain, m: ChainStep): Chain {
    if m.Seal? then c.(sealed := c.sealed + 1, now := c.now + m.elapsed)
    else
      match ChangeBy(c, m)
      case NoChange => c
      case Change(id, d, l) => Replace(c, id, d, l)
  }

  // ---------------------------------------------------------------- this juror's transactions

  predicate MaySee(c: Chain, id: nat) {
    id in c.disputes && c.disputes[id].falseDescription && c.disputes[id].stage == Balloting
        && c.disputes[id].round in c.disputes[id].seats
  }

  predicate AcceptsCommit(c: Chain, id: nat, commitment: Commitment) {
    && MaySee(c, id)
    && var d := c.disputes[id];
       c.now <= d.commitDeadline && commitment != ZERO32 && d.seats[d.round].commitment == ZERO32
  }

  predicate AcceptsReveal(H: Hash, c: Chain, id: nat, v: Verdict, salt: Salt) {
    && MaySee(c, id)
    && var d := c.disputes[id];
       && c.now <= d.revealDeadline && (c.now > d.commitDeadline || AllCommitted(d))
       && d.seats[d.round].commitment != ZERO32 && !d.seats[d.round].revealed
       && H(id, d.round, v, salt) == d.seats[d.round].commitment
  }

  function SetSeat(c: Chain, id: nat, seat: Seat): Chain
    requires id in c.disputes
  {
    var d := c.disputes[id];
    Replace(c, id, d.(seats := d.seats[d.round := seat]), OtherEvent(c.sealed + 1))
  }

  function CommitVote(c: Chain, id: nat, commitment: Commitment): Chain {
    if AcceptsCommit(c, id, commitment) then
      SetSeat(c, id, c.disputes[id].seats[c.disputes[id].round].(commitment := commitment))
    else c
  }

  function RevealVote(H: Hash, c: Chain, id: nat, v: Verdict, salt: Salt): Chain {
    if AcceptsReveal(H, c, id, v, salt) then
      SetSeat(c, id, c.disputes[id].seats[c.disputes[id].round].(revealed := true))
    else c
  }

  /** What getDispute answers, with the time of an earlier head. */
  function ViewOf(c: Chain, id: nat, now: nat): DisputeView {
    if id !in c.disputes then DisputeView(NotFalseDescription, 0, None, [], false, 0, 0, now)
    else
      var d := c.disputes[id];
      DisputeView(
        if !d.falseDescription then NotFalseDescription
        else match d.stage case Drawing => AwaitingSelection case Balloting => Voting case Settled => Resolved,
        d.round,
        if d.round in d.seats then Some(SeatView(d.seats[d.round].commitment, d.seats[d.round].revealed)) else None,
        (if 1 in d.seats then [1] else []) + (if 2 in d.seats then [2] else []),
        AllCommitted(d), d.commitDeadline, d.revealDeadline, now)
  }

  // ---------------------------------------------------------------- what stays

  predicate Seated(c: Chain, id: nat, r: nat) {
    id in c.disputes && r in c.disputes[id].seats
  }

  function OnChain(c: Chain, id: nat, r: nat): Seat
    requires Seated(c, id, r)
  {
    c.disputes[id].seats[r]
  }

  /** The rationale may be public: the own vote is revealed, or the dispute is over. */
  predicate Open(c: Chain, id: nat, r: nat) {
    || (id in c.disputes && c.disputes[id].stage == Settled)
    || (Seated(c, id, r) && OnChain(c, id, r).revealed)
  }

  predicate Over(c: Chain, id: nat) {
    id in c.disputes && (!c.disputes[id].falseDescription || c.disputes[id].stage == Settled)
  }

  /** At most one of the two rounds has a seat of this juror. */
  predicate DisputeOk(d: Dispute) {
    && (d.round == 1 || d.round == 2)
    && (forall r :: r in d.seats ==> 1 <= r <= d.round)
    && !(1 in d.seats && 2 in d.seats)
  }

  ghost predicate ChainOk(c: Chain) {
    && (forall id :: id in c.disputes ==> DisputeOk(c.disputes[id]))
    && (forall i :: 0 <= i < |c.logs| ==> c.logs[i].block <= c.sealed + 1)
    && (forall i :: 0 <= i < |c.logs| && Announces(c.logs[i]) ==> c.logs[i].id in c.disputes)
  }

  predicate SeatGrows(a: Seat, b: Seat) {
    (a.commitment != ZERO32 ==> b.commitment == a.commitment) && (a.revealed ==> b.revealed)
  }

  ghost predicate DisputeGrows(a: Dispute, b: Dispute) {
    && a.falseDescription == b.falseDescription && (a.stage == Settled ==> b.stage == Settled)
    && forall r :: r in a.seats ==> r in b.seats && SeatGrows(a.seats[r], b.seats[r])
  }

  ghost predicate ChainGrows(a: Chain, b: Chain) {
    && (forall id :: id in a.disputes ==> id in b.disputes && DisputeGrows(a.disputes[id], b.disputes[id]))
    && a.sealed <= b.sealed
    && |a.logs| <= |b.logs| && b.logs[..|a.logs|] == a.logs
    && (forall i :: |a.logs| <= i < |b.logs| ==> b.logs[i].block > a.sealed)
  }

  /** A transaction that replaces one dispute and logs one event in the open block. */
  lemma Replaced(c: Chain, id: nat, d: Dispute, l: Log)
    requires ChainOk(c) && DisputeOk(d) && l.block == c.sealed + 1 && (Announces(l) ==> l.id == id)
    requires id in c.disputes ==> DisputeGrows(c.disputes[id], d)
    ensures ChainOk(Replace(c, id, d, l)) && ChainGrows(c, Replace(c, id, d, l))
  {
    var e := Replace(c, id, d, l);
    assert e.logs[..|c.logs|] == c.logs;
    forall k | k in c.disputes ensures k in e.disputes && DisputeGrows(c.disputes[k], e.disputes[k]) {
      Unchanged(c.disputes[k]);
    }
  }

  lemma Unchanged(d: Dispute)
    ensures DisputeGrows(d, d)
  {
  }

  lemma ChangeGrows(c: Chain, m: ChainStep)
    requires ChainOk(c) && ChangeBy(c, m).Change?
    ensures var e := ChangeBy(c, m);
            && DisputeOk(e.dispute) && e.event.block == c.sealed + 1 && (Announces(e.event) ==> e.event.id == e.id)
            && (e.id in c.disputes ==> DisputeGrows(c.disputes[e.id], e.dispute))
  {
  }

  lemma MoveKeeps(c: Chain, m: ChainStep)
    requires ChainOk(c)
    ensures ChainOk(Move(c, m)) && ChainGrows(c, Move(c, m))
  {
    assert c.logs[..|c.logs|] == c.logs;
    if m.Seal? || ChangeBy(c, m).NoChange? {
    } else {
      var e := ChangeBy(c, m);
      ChangeGrows(c, m);
      Replaced(c, e.id, e.dispute, e.event);
    }
  }

  lemma SetSeatKeeps(c: Chain, id: nat, seat: Seat)
    requires ChainOk(c) && MaySee(c, id) && SeatGrows(c.disputes[id].seats[c.disputes[id].round], seat)
    ensures ChainOk(SetSeat(c, id, seat)) && ChainGrows(c, SetSeat(c, id, seat))
  {
    var d := c.disputes[id];
    Replaced(c, id, d.(seats := d.seats[d.round := seat]), OtherEvent(c.sealed + 1));
  }

  lemma {:induction false} NewEventsAreLater(a: seq<Log>, more: seq<Log>, from: nat, to: int, last: nat)
    requires forall i :: 0 <= i < |more| ==> more[i].block > last
    requires to <= last
    ensures Announced(a + more, from, to) == Announced(a, from, to)
  {
    AnnouncedConcat(a, more, from, to);
    Later(more, from, to);
  }

  lemma {:induction false} Later(more: seq<Log>, from: nat, to: int)
    requires forall i :: 0 <= i < |more| ==> more[i].block > to
    ensures Announced(more, from, to) == {}
  {
    if more != [] { Later(more[1..], from, to); }
  }

  /** What was announced in complete blocks never changes. */
  lemma PastStays(a: Chain, b: Chain, from: nat, to: int)
    requires ChainGrows(a, b) && (to <= a.sealed || to < from)
    ensures Announced(b.logs, from, to) == Announced(a.logs, from, to)
  {
    if to < from {
      AnnouncedNowhere(a.logs, from, to);
      AnnouncedNowhere(b.logs, from, to);
    } else {
      NewEventsAreLater(a.logs, b.logs[|a.logs|..], from, to, a.sealed);
      assert b.logs == a.logs + b.logs[|a.logs|..];
    }
  }
}
