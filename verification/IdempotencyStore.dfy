/** The idempotency stores of the Platform and of the Service.

The two differ only in what they call the owner of a key: the Platform's principal,
the Service's Agent DID.  A completed response is kept for one hour of the store's
clock; every lookup first deletes what has expired.  */
module IdempotencyStore {
  import opened Prelude
  import opened Flights

  /** IdempotencyInput; `owner` is Principal or AgentDID, `operation` is Operation or Command. */
  datatype Input = Input(
    owner: string,
    operation: string,
    key: string,
    requestHash: string,
    canonicalRequestHash: string)

  datatype Response = Response(
    body: string,
    contentType: string,
    createdAt: Time,
    headers: map<string, seq<string>>,
    status: int)

  datatype Record = Record(input: Input, response: Response)

  type Table = map<string, Record>

  predicate ValidInput(i: Input) {
    i.owner != "" && i.key != "" && i.operation != "" && i.requestHash != ""
  }

  /** Canonical hashes decide when both sides have one, the published hash otherwise. */
  predicate Matches(saved: Input, request: Input) {
    && saved.owner == request.owner && saved.operation == request.operation && saved.key == request.key
    && if saved.canonicalRequestHash != "" && request.canonicalRequestHash != ""
       then saved.canonicalRequestHash == request.canonicalRequestHash
       else saved.requestHash == request.requestHash
  }

  function StoreKey(i: Input): string {
    i.owner + NUL + i.key
  }

  /** The joined key keeps owners and keys apart as long as no owner holds the separator. */
  lemma StoreKeysSeparate(i: Input, j: Input)
    requires NUL[0] !in i.owner && NUL[0] !in j.owner
    ensures StoreKey(i) == StoreKey(j) <==> i.owner == j.owner && i.key == j.key
  {
    if StoreKey(i) == StoreKey(j) {
      var key := StoreKey(i);
      assert key[|i.owner|] == NUL[0] && key[|j.owner|] == NUL[0];
      assert i.owner == key[..|i.owner|] && j.owner == key[..|j.owner|];
      assert i.key == key[|i.owner| + 1..] && j.key == key[|j.owner| + 1..];
    }
  }

  /** Requests of one owner, operation and key match by their canonical hashes if both
      have one; a worker that knows only the published hash still matches by that. */
  lemma VersionsMatch(saved: Input, request: Input)
    requires saved.owner == request.owner && saved.operation == request.operation && saved.key == request.key
    ensures saved.canonicalRequestHash != "" && request.canonicalRequestHash != "" ==>
              (Matches(saved, request) <==> saved.canonicalRequestHash == request.canonicalRequestHash)
    ensures saved.canonicalRequestHash == "" || request.canonicalRequestHash == "" ==>
              (Matches(saved, request) <==> saved.requestHash == request.requestHash)
  {
  }

  predicate Expired(response: Response, now: Time) {
    !(response.createdAt + HOUR > now)
  }

  function Swept(table: Table, now: Time): Table {
    map k | k in table && !Expired(table[k].response, now) :: table[k]
  }

  /** The store dates a response that its producer left undated. */
  function Dated(response: Response, now: Time): Response {
    if response.createdAt == ZERO_TIME then response.(createdAt := now) else response
  }

  datatype Entry = Replay(response: Response) | Conflict | Wait(channel: CallId) | Execute

  /** The decision of the first lock-held region, on the swept table. */
  function Enter(swept: Table, pending: map<string, CallId>, input: Input): Entry {
    var key := StoreKey(input);
    if key in swept then
      if Matches(swept[key].input, input) then Replay(swept[key].response) else Conflict
    else if key in pending then Wait(pending[key])
    else Execute
  }

  function Commit(table: Table, input: Input, outcome: Result<Response>, now: Time): Table {
    match outcome
    case Err(_) => table
    case Ok(response) => table[StoreKey(input) := Record(input, Dated(response, now))]
  }

  class MemoryIdempotencyStore {
    var records: Table
    var pending: map<string, CallId>
    var closed: set<CallId>

    /** A key that is being executed has no stored response. */
    ghost predicate Valid()
      reads this
    {
      forall k :: k in pending ==> k !in records
    }

    constructor ()
      ensures Valid() && records == map[] && pending == map[] && closed == {}
    {
      records, pending, closed := map[], map[], {};
    }

    /** Deletes while ranging over the map, in whatever order the map yields. */
    method Expire(now: Time)
      modifies this`records
      ensures records == Swept(old(records), now)
      ensures old(Valid()) ==> Valid()
    {
      var left := records.Keys;
      while left != {}
        invariant left <= old(records).Keys
        invariant records == map k | k in old(records) && (k in left || !Expired(old(records)[k].response, now)) :: old(records)[k]
      {
        var key :| key in left;
        if Expired(records[key].response, now) {
          records := records - {key};
        }
        left := left - {key};
      }
    }

    /** First lock-held region of ExecuteIdempotent for call `me`. */
    method EnterKey(input: Input, me: CallId, now: Time) returns (entry: Entry)
      requires Valid()
      modifies this`records, this`pending
      ensures Valid()
      ensures records == Swept(old(records), now)
      ensures entry == old(Enter(Swept(records, now), pending, input))
      ensures pending == if entry.Execute? then old(pending)[StoreKey(input) := me] else old(pending)
    {
      var key := StoreKey(input);
      Expire(now);
      if key in records {
        return if Matches(records[key].input, input) then Replay(records[key].response) else Conflict;
      }
      if key in pending {
        return Wait(pending[key]);
      }
      pending := pending[key := me];
      return Execute;
    }

    /** Second lock-held region: `outcome` is what the caller's execute returned. */
    method LeaveKey(input: Input, me: CallId, outcome: Result<Response>, now: Time) returns (result: Result<Response>)
      requires Valid()
      requires StoreKey(input) in pending && pending[StoreKey(input)] == me
      modifies this
      ensures Valid()
      ensures records == Commit(old(records), input, outcome, now)
      ensures pending == old(pending) - {StoreKey(input)} && closed == old(closed) + {me}
      ensures outcome.Err? ==> result == outcome && records == old(records)
      ensures outcome.Ok? ==>
                && result.Ok? && records == old(records)[StoreKey(input) := Record(input, result.value)]
                && result.value == outcome.value.(createdAt := result.value.createdAt)
                && result.value.createdAt == if outcome.value.createdAt == ZERO_TIME then now else outcome.value.createdAt
    {
      var key := StoreKey(input);
      pending := pending - {key};
      result := outcome;
      if result.Ok? {
        var response := result.value;
        if response.createdAt == ZERO_TIME {
          response := response.(createdAt := now);
        }
        records := records[key := Record(input, response)];
        result := Ok(response);
      }
      closed := closed + {me};
    }
  }
}
