/**
 * The juror's durable state: log cursor, disputes, rounds and vote secrets, kept in one file that
 * is only ever replaced whole (write to a temporary file, fsync, rename).
 */
module JurorState {
  import opened Base

  datatype Verdict = Uphold | Reject

  type Salt = int
  type Commitment = int
  type TxHash = int

  /** The on-chain value of an empty commitment. */
  const ZERO32: Commitment := 0

  /** keccak256(abi.encode(disputeId, round, verdict, salt, juror)) for this juror; nothing is assumed of it. */
  type Hash = (nat, nat, Verdict, Salt) -> Commitment

  datatype RoundRecord = RoundRecord(
    decision: Option<Verdict>,
    verdict: Option<Verdict>,
    salt: Option<Salt>,
    commitment: Option<Commitment>,
    commitTx: Option<TxHash>,
    commitConfirmed: bool,
    revealTx: Option<TxHash>,
    revealConfirmed: bool,
    published: bool)

  const NEW_ROUND := RoundRecord(None, None, None, None, None, false, None, false, false)

  datatype DisputeRecord = DisputeRecord(rounds: map<nat, RoundRecord>, resolved: bool)

  datatype Data = Data(cursor: nat, disputes: map<nat, DisputeRecord>)

  /** The state of a first start: everything below the start block counts as processed. */
  function Initial(startBlock: nat): Data {
    Data(if startBlock > 0 then startBlock - 1 else 0, map[])
  }

  // ---------------------------------------------------------------- reading and updating

  function RecordOf(d: Data, id: nat, r: nat): RoundRecord {
    if id in d.disputes && r in d.disputes[id].rounds then d.disputes[id].rounds[r] else NEW_ROUND
  }

  function WithCursor(d: Data, b: nat): Data {
    if b <= d.cursor then d else d.(cursor := b)
  }

  function EnsureDispute(d: Data, id: nat): Data {
    if id in d.disputes then d else d.(disputes := d.disputes[id := DisputeRecord(map[], false)])
  }

  function PutRound(d: Data, id: nat, r: nat, rec: RoundRecord): Data {
    var e := EnsureDispute(d, id);
    e.(disputes := e.disputes[id := e.disputes[id].(rounds := e.disputes[id].rounds[r := rec])])
  }

  /** The round's record is looked up, created in memory when missing. */
  function EnsureRound(d: Data, id: nat, r: nat): Data {
    if id in d.disputes && r in d.disputes[id].rounds then d else PutRound(d, id, r, NEW_ROUND)
  }

  function MarkResolved(d: Data, id: nat): Data {
    if id in d.disputes then d.(disputes := d.disputes[id := d.disputes[id].(resolved := true)]) else d
  }

  lemma PutThenGet(d: Data, id: nat, r: nat, rec: RoundRecord, id': nat, r': nat)
    ensures RecordOf(PutRound(d, id, r, rec), id', r') == if id == id' && r == r' then rec else RecordOf(d, id', r')
    ensures PutRound(d, id, r, rec).cursor == d.cursor
    ensures PutRound(d, id, r, rec).disputes.Keys == d.disputes.Keys + {id}
  {
  }

  lemma EnsureKeepsRecords(d: Data, id: nat, r: nat, id': nat, r': nat)
    ensures RecordOf(EnsureDispute(d, id), id', r') == RecordOf(d, id', r')
    ensures RecordOf(EnsureRound(d, id, r), id', r') == RecordOf(d, id', r')
    ensures RecordOf(MarkResolved(d, id), id', r') == RecordOf(d, id', r')
    ensures EnsureDispute(d, id).disputes.Keys == EnsureRound(d, id, r).disputes.Keys == d.disputes.Keys + {id}
    ensures MarkResolved(d, id).disputes.Keys == d.disputes.Keys
    ensures EnsureDispute(d, id).cursor == EnsureRound(d, id, r).cursor == MarkResolved(d, id).cursor == d.cursor
  {
    PutThenGet(d, id, r, NEW_ROUND, id', r');
  }

  /** A round not heard of has nothing in it. */
  lemma NothingStored(d: Data, id: nat, r: nat)
    requires id !in d.disputes || r !in d.disputes[id].rounds
    ensures var rec := RecordOf(d, id, r);
            && rec.decision.None? && rec.verdict.None? && rec.salt.None? && rec.commitment.None?
            && rec.commitTx.None? && !rec.commitConfirmed && rec.revealTx.None? && !rec.revealConfirmed
            && !rec.published
  {
  }

  lemma PutAfterEnsure(d: Data, id: nat, r: nat, rec: RoundRecord)
    ensures PutRound(EnsureRound(d, id, r), id, r, rec) == PutRound(d, id, r, rec)
  {
    var e := EnsureDispute(d, id);
    assert e.disputes[id].rounds[r := NEW_ROUND][r := rec] == e.disputes[id].rounds[r := rec];
    assert PutRound(EnsureRound(d, id, r), id, r, rec).disputes == PutRound(d, id, r, rec).disputes;
  }

  // ---------------------------------------------------------------- the vote secret

  datatype Secret = Secret(verdict: Verdict, salt: Salt, commitment: Commitment)

  predicate HasSecret(rec: RoundRecord) {
    rec.salt.Some? && rec.verdict.Some? && rec.commitment.Some?
  }

  predicate HasNoSecret(rec: RoundRecord) {
    rec.salt.None? && rec.verdict.None? && rec.commitment.None?
  }

  function SecretOf(rec: RoundRecord): Secret
    requires HasSecret(rec)
  {
    Secret(rec.verdict.value, rec.salt.value, rec.commitment.value)
  }

  predicate SameVote(a: RoundRecord, b: RoundRecord) {
    a.decision == b.decision && a.verdict == b.verdict && a.salt == b.salt && a.commitment == b.commitment
  }

  // ---------------------------------------------------------------- what an operation leaves behind

  /** Memory after an operation, and the successive contents it gave to the file. */
  datatype Outcome = Outcome(data: Data, writes: seq<Data>)

  /** The file after some writes. */
  function After(file: Option<Data>, writes: seq<Data>): Option<Data> {
    if writes == [] then file else Some(writes[|writes| - 1])
  }

  function EnsureDisputeRun(d: Data, id: nat): Outcome {
    Outcome(EnsureDispute(d, id), if id in d.disputes then [] else [EnsureDispute(d, id)])
  }

  /** Looking a round up saves a new dispute, but makes a new round in memory only. */
  function RoundRun(d: Data, id: nat, r: nat): Outcome {
    Outcome(EnsureRound(d, id, r), EnsureDisputeRun(d, id).writes)
  }

  function CursorRun(d: Data, b: nat): Outcome {
    Outcome(WithCursor(d, b), if b <= d.cursor then [] else [WithCursor(d, b)])
  }

  function PutRoundRun(d: Data, id: nat, r: nat, rec: RoundRecord): Outcome {
    Outcome(PutRound(d, id, r, rec), RoundRun(d, id, r).writes + [PutRound(d, id, r, rec)])
  }

  function Fixed(H: Hash, rec: RoundRecord, id: nat, r: nat, v: Verdict, salt: Salt): RoundRecord {
    rec.(verdict := Some(v), salt := Some(salt), commitment := Some(H(id, r, v, salt)))
  }

  /** A complete secret stands; otherwise one is fixed from a fresh salt. */
  function PrepareRun(H: Hash, d: Data, id: nat, r: nat, v: Verdict, salt: Salt): Outcome {
    var rec := RecordOf(d, id, r);
    if HasSecret(rec) then RoundRun(d, id, r) else PutRoundRun(d, id, r, Fixed(H, rec, id, r, v, salt))
  }

  /** The record a prepared round ends up with. */
  lemma Prepared(H: Hash, d: Data, id: nat, r: nat, v: Verdict, salt: Salt)
    ensures var rec := RecordOf(PrepareRun(H, d, id, r, v, salt).data, id, r);
            && HasSecret(rec)
            && (HasSecret(RecordOf(d, id, r)) ==> rec == RecordOf(d, id, r))
            && (!HasSecret(RecordOf(d, id, r)) ==> SecretOf(rec) == Secret(v, salt, H(id, r, v, salt)))
  {
    EnsureKeepsRecords(d, id, r, id, r);
    PutThenGet(d, id, r, Fixed(H, RecordOf(d, id, r), id, r, v, salt), id, r);
  }

  // ---------------------------------------------------------------- the file and the store

  /** The state file: `content` is what a restart finds, `history` everything it ever found there. */
  class StateFile {
    var content: Option<Data>
    ghost var history: seq<Data>

    ghost predicate Valid()
      reads this
    {
      content == After(None, history)
    }

    constructor ()
      ensures Valid() && content == None
    {
      content := None;
      history := [];
    }

    /** The rename replaces the whole file at once. */
    method WriteFileAtomic(d: Data)
      requires Valid()
      modifies this
      ensures Valid() && history == old(history) + [d]
    {
      content := Some(d);
      history := history + [d];
    }
  }

  class JurorStore {
    const file: StateFile
    var data: Data

    /** The store did what the outcome says: to its memory, and write by write to the file. */
    twostate predicate Did(o: Outcome)
      reads this, file
    {
      data == o.data && file.history == old(file.history) + o.writes && file.Valid()
    }

    /** Loads the file, or writes the initial state when there is none. */
    constructor (file: StateFile, startBlock: nat)
      requires file.Valid()
      modifies file
      ensures this.file == file && file.Valid()
      ensures data == if old(file.content).Some? then old(file.content).value else Initial(startBlock)
      ensures file.history == old(file.history) + if old(file.content).Some? then [] else [Initial(startBlock)]
    {
      this.file := file;
      data := if file.content.Some? then file.content.value else Initial(startBlock);
      new;
      if file.content.None? { Save(); }
    }

    method Save()
      requires file.Valid()
      modifies file
      ensures file.Valid() && file.history == old(file.history) + [data]
    {
      file.WriteFileAtomic(data);
    }

    method SetCursor(b: nat)
      requires file.Valid()
      modifies this, file
      ensures Did(CursorRun(old(data), b))
    {
      if b <= data.cursor { return; }
      data := data.(cursor := b);
      Save();
    }

    method EnsureDisputeRecord(id: nat)
      requires file.Valid()
      modifies this, file
      ensures Did(EnsureDisputeRun(old(data), id))
    {
      if id !in data.disputes {
        data := data.(disputes := data.disputes[id := DisputeRecord(map[], false)]);
        Save();
      }
    }

    method Round(id: nat, r: nat) returns (rec: RoundRecord)
      requires file.Valid()
      modifies this, file
      ensures Did(RoundRun(old(data), id, r)) && rec == RecordOf(old(data), id, r)
    {
      EnsureDisputeRecord(id);
      if r !in data.disputes[id].rounds {
        var dispute := data.disputes[id];
        data := data.(disputes := data.disputes[id := dispute.(rounds := dispute.rounds[r := NEW_ROUND])]);
      }
      rec := data.disputes[id].rounds[r];
    }

    /** Mutate one round's record, then persist. */
    method UpdateRound(id: nat, r: nat, rec: RoundRecord)
      requires id in data.disputes && file.Valid()
      modifies this, file
      ensures Did(PutRoundRun(old(data), id, r, rec))
      ensures RecordOf(data, id, r) == rec && file.content == Some(data)
    {
      data := data.(disputes := data.disputes[id := data.disputes[id].(rounds := data.disputes[id].rounds[r := rec])]);
      Save();
    }

    method Resolve(id: nat)
      requires id in data.disputes && file.Valid()
      modifies this, file
      ensures Did(Outcome(MarkResolved(old(data), id), [MarkResolved(old(data), id)]))
    {
      data := data.(disputes := data.disputes[id := data.disputes[id].(resolved := true)]);
      Save();
    }

    /** Fixes the vote secret and persists it before it is handed out; never replaces a complete one. */
    method Prepare(H: Hash, id: nat, r: nat, v: Verdict, freshSalt: Salt) returns (s: Secret)
      requires file.Valid()
      modifies this, file
      ensures Did(PrepareRun(H, old(data), id, r, v, freshSalt))
      ensures HasSecret(RecordOf(data, id, r)) && s == SecretOf(RecordOf(data, id, r))
      ensures var rec := RecordOf(old(data), id, r);
              s == if rec.verdict.Some? && rec.salt.Some? && rec.commitment.Some?
                   then Secret(rec.verdict.value, rec.salt.value, rec.commitment.value)
                   else Secret(v, freshSalt, H(id, r, v, freshSalt))
    {
      Prepared(H, data, id, r, v, freshSalt);
      var rec := Round(id, r);
      if rec.salt.Some? && rec.verdict.Some? && rec.commitment.Some? {
        return Secret(rec.verdict.value, rec.salt.value, rec.commitment.value);
      }
      PutAfterEnsure(old(data), id, r, Fixed(H, rec, id, r, v, freshSalt));
      rec := rec.(verdict := Some(v));
      rec := rec.(salt := Some(freshSalt));
      rec := rec.(commitment := Some(H(id, r, v, freshSalt)));
      UpdateRound(id, r, rec);
      return Secret(v, freshSalt, rec.commitment.value);
    }
  }
}
