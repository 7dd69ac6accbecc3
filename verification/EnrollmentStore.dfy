/** The Service's in-memory enrollment store. */
module EnrollmentStore {
  import opened Prelude
  import opened Flights
  import opened Enrollment

  type Table = map<string, Record>

  datatype Entry = Found(record: Record) | Wait(channel: CallId) | Open

  /** First lock-held region of FindOrCreateEnrollment. */
  function EnterCreate(table: Table, pending: map<string, CallId>, agentDID: string): Entry {
    if agentDID in table then Found(table[agentDID])
    else if agentDID in pending then Wait(pending[agentDID])
    else Open
  }

  /** Lock-held region of SaveEnrollment. */
  function EnterSave(pending: map<string, CallId>, agentDID: string): Entry {
    if agentDID in pending then Wait(pending[agentDID]) else Open
  }

  function Admit(agentDID: string, outcome: Result<Record>): Result<Record> {
    match outcome
    case Err(_) => outcome
    case Ok(r) => if !ValidRecord(r) || r.agentDID != agentDID then Err("invalid record") else outcome
  }

  function Commit(table: Table, agentDID: string, outcome: Result<Record>): Table {
    var admitted := Admit(agentDID, outcome);
    if admitted.Ok? then table[agentDID := admitted.value] else table
  }

  ghost predicate Stored(table: Table) {
    forall did :: did in table ==> ValidRecord(table[did]) && table[did].agentDID == did
  }

  class MemoryEnrollmentStore {
    var records: Table
    var pending: map<string, CallId>
    var closed: set<CallId>

    /** An agent whose enrollment is being created has no record. */
    ghost predicate Valid()
      reads this
    {
      && Stored(records)
      && (forall k :: k in pending ==> k !in records)
    }

    constructor ()
      ensures Valid() && records == map[] && pending == map[] && closed == {}
    {
      records, pending, closed := map[], map[], {};
    }

    method FindEnrollment(agentDID: string) returns (found: Option<Record>)
      requires Valid()
      ensures found.Some? <==> agentDID in records
      ensures found.Some? ==> found.value == records[agentDID] && found.value.agentDID == agentDID
    {
      found := if agentDID in records then Some(records[agentDID]) else None;
    }

    method BeginCreate(agentDID: string, me: CallId) returns (entry: Entry)
      requires Valid()
      modifies this`pending
      ensures Valid()
      ensures entry == old(EnterCreate(records, pending, agentDID))
      ensures pending == if entry.Open? then old(pending)[agentDID := me] else old(pending)
    {
      if agentDID in records { return Found(records[agentDID]); }
      if agentDID in pending { return Wait(pending[agentDID]); }
      pending := pending[agentDID := me];
      return Open;
    }

    /** `outcome` is what the caller's create returned. */
    method EndCreate(agentDID: string, me: CallId, outcome: Result<Record>) returns (result: Result<Record>)
      requires Valid() && agentDID in pending && pending[agentDID] == me
      modifies this
      ensures Valid()
      ensures records == Commit(old(records), agentDID, outcome) && result == Admit(agentDID, outcome)
      ensures agentDID !in old(records)
      ensures pending == old(pending) - {agentDID} && closed == old(closed) + {me}
    {
      result := outcome;
      if result.Ok? && (!ValidRecord(result.value) || result.value.agentDID != agentDID) {
        result := Err("invalid record");
      }
      pending := pending - {agentDID};
      if result.Ok? {
        records := records[agentDID := result.value];
      }
      closed := closed + {me};
    }

    method SaveEnrollment(record: Record) returns (entry: Entry)
      requires Valid() && ValidRecord(record)
      modifies this`records
      ensures Valid()
      ensures entry == EnterSave(pending, record.agentDID)
      ensures records == if entry.Open? then old(records)[record.agentDID := record] else old(records)
    {
      if record.agentDID in pending { return Wait(pending[record.agentDID]); }
      records := records[record.agentDID := record];
      return Open;
    }
  }
}
