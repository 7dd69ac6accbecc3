/** The Platform's in-memory identity store: one map of records and three
secondary indexes, each changed only under the lock.  */
module IdentityStore {
  import opened Prelude
  import opened DIDSyntax
  import opened Flights

  datatype ManagedAgentStatus = Active | Revoked | Suspended | Terminated | Unknown(name: string)

  datatype IdentityRecord = IdentityRecord(
    agentDID: string,
    agentDIDID: string,
    agentIdentityID: string,
    createdAt: Time,
    didDocumentURL: string,
    keyID: string,
    principal: string,
    serviceDID: string,
    signingAlgorithms: seq<string>,
    status: ManagedAgentStatus,
    updatedAt: Time)

  predicate IsManagedAgentStatus(status: ManagedAgentStatus) {
    !status.Unknown?
  }

  predicate ValidRecord(r: IdentityRecord) {
    && r.agentDID != "" && r.agentDIDID != "" && r.agentIdentityID != ""
    && r.createdAt != ZERO_TIME && r.didDocumentURL != "" && r.keyID != ""
    && r.principal != "" && r.serviceDID != "" && r.signingAlgorithms != []
    && IsManagedAgentStatus(r.status) && r.updatedAt != ZERO_TIME
  }

  function Scope(r: IdentityRecord): string {
    ScopeKey(r.principal, r.serviceDID)
  }

  /** Everything of a record that its lifecycle never touches. */
  predicate SameIdentity(a: IdentityRecord, b: IdentityRecord) {
    a.(status := b.status, updatedAt := b.updatedAt) == b
  }

  // ------------------------------------------------------- the locked maps

  datatype Tables = Tables(
    byAgentDID: map<string, string>,
    byAgentDIDID: map<string, string>,
    byScope: map<string, string>,
    records: map<string, IdentityRecord>)

  const NO_TABLES := Tables(map[], map[], map[], map[])

  function ByScope(r: IdentityRecord): string { Scope(r) }
  function ByAgentDID(r: IdentityRecord): string { r.agentDID }
  function ByAgentDIDID(r: IdentityRecord): string { r.agentDIDID }

  /** `index` is exactly the inverse of `key` over the records. */
  ghost predicate Inverts(records: map<string, IdentityRecord>, index: map<string, string>, key: IdentityRecord -> string) {
    && (forall id :: id in records ==> key(records[id]) in index && index[key(records[id])] == id)
    && (forall k :: k in index ==> index[k] in records && key(records[index[k]]) == k)
  }

  ghost predicate Sound(records: map<string, IdentityRecord>) {
    forall id :: id in records ==> ValidRecord(records[id]) && records[id].agentIdentityID == id != ""
  }

  ghost predicate Indexed(t: Tables) {
    && Sound(t.records)
    && Inverts(t.records, t.byScope, ByScope)
    && Inverts(t.records, t.byAgentDID, ByAgentDID)
    && Inverts(t.records, t.byAgentDIDID, ByAgentDIDID)
  }

  /** No two records share a scope, an Agent DID, or an Agent DID identifier. */
  lemma IndexesAreInjective(t: Tables, a: string, b: string)
    requires Indexed(t) && a in t.records && b in t.records && a != b
    ensures Scope(t.records[a]) != Scope(t.records[b])
    ensures t.records[a].agentDID != t.records[b].agentDID
    ensures t.records[a].agentDIDID != t.records[b].agentDIDID
  {
    assert forall id :: id in t.records ==> t.byScope[ByScope(t.records[id])] == id;
    assert forall id :: id in t.records ==> t.byAgentDID[ByAgentDID(t.records[id])] == id;
    assert forall id :: id in t.records ==> t.byAgentDIDID[ByAgentDIDID(t.records[id])] == id;
  }

  lemma InvertsInsert(records: map<string, IdentityRecord>, index: map<string, string>, key: IdentityRecord -> string, r: IdentityRecord)
    requires Inverts(records, index, key)
    requires r.agentIdentityID !in records && key(r) !in index
    ensures Inverts(records[r.agentIdentityID := r], index[key(r) := r.agentIdentityID], key)
  {
  }

  lemma InvertsUpdate(records: map<string, IdentityRecord>, index: map<string, string>, key: IdentityRecord -> string, r: IdentityRecord)
    requires Inverts(records, index, key)
    requires r.agentIdentityID in records && key(records[r.agentIdentityID]) == key(r)
    ensures Inverts(records[r.agentIdentityID := r], index, key)
  {
  }

  /** Go's map read: a missing key reads as the empty string. */
  function Read(index: map<string, string>, key: string): string {
    if key in index then index[key] else ""
  }

  function FindBy(records: map<string, IdentityRecord>, index: map<string, string>, wanted: string): Option<IdentityRecord> {
    var id := Read(index, wanted);
    if id in records then Some(records[id]) else None
  }

  /** The answer to a lookup: a stored record that carries the key, None exactly when
      no record does. */
  ghost predicate IsLookup(records: map<string, IdentityRecord>, key: IdentityRecord -> string, wanted: string, found: Option<IdentityRecord>) {
    && (found.Some? ==>
          && key(found.value) == wanted
          && found.value.agentIdentityID in records && records[found.value.agentIdentityID] == found.value)
    && (found.None? <==> forall id :: id in records ==> key(records[id]) != wanted)
  }

  /** Lookup through an exact index answers for exactly the records that carry the key. */
  lemma LookupsAgreeWithRecords(records: map<string, IdentityRecord>, index: map<string, string>, key: IdentityRecord -> string, wanted: string)
    requires Sound(records) && Inverts(records, index, key)
    ensures IsLookup(records, key, wanted, FindBy(records, index, wanted))
  {
    hide ValidRecord;
    assert forall id :: id in records ==> index[key(records[id])] == id;
  }

  // -------------------------------------------------- the creating region

  /** What the store makes of the outcome of the caller's create function. */
  function Admit(t: Tables, principal: string, serviceDID: string, outcome: Result<IdentityRecord>): Result<IdentityRecord> {
    match outcome
    case Err(_) => outcome
    case Ok(r) =>
      if !ValidRecord(r) then Err("invalid record")
      else if r.principal != principal || r.serviceDID != serviceDID then Err("scope mismatch")
      else if r.agentIdentityID in t.records || Read(t.byAgentDID, r.agentDID) != "" || Read(t.byAgentDIDID, r.agentDIDID) != "" then
        Err("duplicate identity material")
      else Ok(r)
  }

  function Insert(t: Tables, r: IdentityRecord): Tables {
    Tables(
      t.byAgentDID[r.agentDID := r.agentIdentityID],
      t.byAgentDIDID[r.agentDIDID := r.agentIdentityID],
      t.byScope[Scope(r) := r.agentIdentityID],
      t.records[r.agentIdentityID := r])
  }

  function Commit(t: Tables, principal: string, serviceDID: string, outcome: Result<IdentityRecord>): Tables {
    var admitted := Admit(t, principal, serviceDID, outcome);
    if admitted.Ok? then Insert(t, admitted.value) else t
  }

  function UpdateStatus(t: Tables, id: string, status: ManagedAgentStatus, at: Time): Tables {
    if id in t.records then t.(records := t.records[id := t.records[id].(status := status, updatedAt := at)])
    else t
  }

  lemma AdmittedScope(t: Tables, principal: string, serviceDID: string, outcome: Result<IdentityRecord>)
    ensures var admitted := Admit(t, principal, serviceDID, outcome);
            admitted.Ok? ==> Scope(admitted.value) == ScopeKey(principal, serviceDID)
  {
  }

  /** The scope was free while the creation was pending, so inserting overwrites nothing. */
  lemma CommitKeepsIndexed(t: Tables, principal: string, serviceDID: string, outcome: Result<IdentityRecord>)
    requires Indexed(t) && ScopeKey(principal, serviceDID) !in t.byScope
    ensures Indexed(Commit(t, principal, serviceDID, outcome))
    ensures Extends(t, Commit(t, principal, serviceDID, outcome))
  {
    hide Inverts;
    var admitted := Admit(t, principal, serviceDID, outcome);
    if admitted.Ok? {
      var r := admitted.value;
      NamesAreNotEmpty(t);
      InvertsInsert(t.records, t.byScope, ByScope, r);
      InvertsInsert(t.records, t.byAgentDID, ByAgentDID, r);
      InvertsInsert(t.records, t.byAgentDIDID, ByAgentDIDID, r);
    }
  }

  /** An indexed entry never reads as Go's empty string. */
  lemma NamesAreNotEmpty(t: Tables)
    requires Indexed(t)
    ensures forall k :: k in t.byScope ==> Read(t.byScope, k) != ""
    ensures forall k :: k in t.byAgentDID ==> Read(t.byAgentDID, k) != ""
    ensures forall k :: k in t.byAgentDIDID ==> Read(t.byAgentDIDID, k) != ""
  {
  }

  lemma UpdateKeepsIndexed(t: Tables, id: string, status: ManagedAgentStatus, at: Time)
    requires Indexed(t) && IsManagedAgentStatus(status) && at != ZERO_TIME
    ensures Indexed(UpdateStatus(t, id, status, at))
    ensures Extends(t, UpdateStatus(t, id, status, at))
  {
    hide Inverts;
    if id in t.records {
      var r := t.records[id].(status := status, updatedAt := at);
      InvertsUpdate(t.records, t.byScope, ByScope, r);
      InvertsUpdate(t.records, t.byAgentDID, ByAgentDID, r);
      InvertsUpdate(t.records, t.byAgentDIDID, ByAgentDIDID, r);
    }
  }

  /** Identities are never lost, renamed, or moved to another scope. */
  ghost predicate Extends(t: Tables, u: Tables) {
    && (forall id :: id in t.records ==> id in u.records && SameIdentity(t.records[id], u.records[id]))
    && (forall k :: k in t.byScope ==> k in u.byScope && u.byScope[k] == t.byScope[k])
  }

  lemma ExtendsReflexive(t: Tables)
    ensures Extends(t, t)
  {
  }

  lemma ExtendsTransitive(t: Tables, u: Tables, v: Tables)
    requires Extends(t, u) && Extends(u, v)
    ensures Extends(t, v)
  {
    forall id | id in t.records ensures id in v.records && SameIdentity(t.records[id], v.records[id]) {
      assert SameIdentity(t.records[id], u.records[id]) && SameIdentity(u.records[id], v.records[id]);
    }
  }

  // ------------------------------------------------------------ the object

  /** What the first lock-held region of FindOrCreateIdentity decides. */
  datatype Entry = Found(record: IdentityRecord) | Wait(channel: CallId) | Create

  function Enter(t: Tables, pending: map<string, CallId>, key: string): Entry {
    var found := FindBy(t.records, t.byScope, key);
    if found.Some? then Found(found.value)
    else if key in pending then Wait(pending[key])
    else Create
  }

  class MemoryIdentityStore {
    var byAgentDID: map<string, string>
    var byAgentDIDID: map<string, string>
    var byScope: map<string, string>
    var records: map<string, IdentityRecord>
    var pending: map<string, CallId>
    var closed: set<CallId>

    ghost function View(): Tables
      reads this
    {
      Tables(byAgentDID, byAgentDIDID, byScope, records)
    }

    /** The indexes are exact, and a scope that is being created has no identity. */
    ghost predicate Valid()
      reads this
    {
      && Indexed(View())
      && (forall k :: k in pending ==> k !in byScope)
    }

    constructor ()
      ensures Valid() && View() == NO_TABLES && pending == map[] && closed == {}
    {
      byAgentDID, byAgentDIDID, byScope := map[], map[], map[];
      records, pending, closed := map[], map[], {};
    }

    /** First lock-held region of FindOrCreateIdentity for call `me`. */
    method EnterScope(principal: string, serviceDID: string, me: CallId) returns (entry: Entry)
      requires Valid()
      modifies this`pending
      ensures Valid()
      ensures entry == old(Enter(View(), pending, ScopeKey(principal, serviceDID)))
      ensures pending == if entry.Create? then old(pending)[ScopeKey(principal, serviceDID) := me] else old(pending)
    {
      NamesAreNotEmpty(View());
      var key := ScopeKey(principal, serviceDID);
      if key in byScope && byScope[key] != "" {
        return Found(records[byScope[key]]);
      }
      if key in pending {
        return Wait(pending[key]);
      }
      pending := pending[key := me];
      return Create;
    }

    /** The checks on what the caller's create returned. */
    method CheckOutcome(principal: string, serviceDID: string, outcome: Result<IdentityRecord>) returns (result: Result<IdentityRecord>)
      ensures result == Admit(View(), principal, serviceDID, outcome)
    {
      result := outcome;
      if result.Ok? && !ValidRecord(result.value) {
        result := Err("invalid record");
      } else if result.Ok? && (result.value.principal != principal || result.value.serviceDID != serviceDID) {
        result := Err("scope mismatch");
      }
      if result.Ok? {
        var record := result.value;
        if record.agentIdentityID in records || Read(byAgentDID, record.agentDID) != "" || Read(byAgentDIDID, record.agentDIDID) != "" {
          result := Err("duplicate identity material");
        }
      }
    }

    /** Second lock-held region: `outcome` is what the caller's create returned. */
    method LeaveScope(principal: string, serviceDID: string, me: CallId, outcome: Result<IdentityRecord>)
      returns (result: Result<IdentityRecord>)
      requires Valid()
      requires ScopeKey(principal, serviceDID) in pending && pending[ScopeKey(principal, serviceDID)] == me
      modifies this
      ensures Valid()
      ensures View() == Commit(old(View()), principal, serviceDID, outcome)
      ensures result == Admit(old(View()), principal, serviceDID, outcome)
      ensures pending == old(pending) - {ScopeKey(principal, serviceDID)}
      ensures closed == old(closed) + {me}
    {
      hide Indexed, Extends, Admit, ScopeKey, Scope;
      ghost var before := View();
      CommitKeepsIndexed(before, principal, serviceDID, outcome);
      AdmittedScope(before, principal, serviceDID, outcome);
      var key := ScopeKey(principal, serviceDID);
      result := CheckOutcome(principal, serviceDID, outcome);
      pending := pending - {key};
      if result.Ok? {
        var record := result.value;
        records := records[record.agentIdentityID := record];
        byScope := byScope[key := record.agentIdentityID];
        byAgentDID := byAgentDID[record.agentDID := record.agentIdentityID];
        byAgentDIDID := byAgentDIDID[record.agentDIDID := record.agentIdentityID];
        assert View() == Insert(before, record);
      }
      closed := closed + {me};
      assert View() == Commit(before, principal, serviceDID, outcome);
    }

    method FindIdentityByAgentDID(agentDID: string) returns (found: Option<IdentityRecord>)
      requires Valid()
      ensures found.Some? ==>
                && found.value.agentDID == agentDID
                && found.value.agentIdentityID in records && records[found.value.agentIdentityID] == found.value
      ensures found.None? <==> forall id :: id in records ==> records[id].agentDID != agentDID
    {
      LookupsAgreeWithRecords(records, byAgentDID, ByAgentDID, agentDID);
      var id := Read(byAgentDID, agentDID);
      found := if id in records then Some(records[id]) else None;
    }

    method FindIdentityByAgentDIDID(agentDIDID: string) returns (found: Option<IdentityRecord>)
      requires Valid()
      ensures found.Some? ==>
                && found.value.agentDIDID == agentDIDID
                && found.value.agentIdentityID in records && records[found.value.agentIdentityID] == found.value
      ensures found.None? <==> forall id :: id in records ==> records[id].agentDIDID != agentDIDID
    {
      LookupsAgreeWithRecords(records, byAgentDIDID, ByAgentDIDID, agentDIDID);
      var id := Read(byAgentDIDID, agentDIDID);
      found := if id in records then Some(records[id]) else None;
    }

    method UpdateIdentity(id: string, status: ManagedAgentStatus, at: Time) returns (result: Result<Option<IdentityRecord>>)
      requires Valid()
      modifies this`records
      ensures Valid() && Extends(old(View()), View())
      ensures result.Err? <==> !IsManagedAgentStatus(status) || at == ZERO_TIME
      ensures View() == if result.Err? then old(View()) else UpdateStatus(old(View()), id, status, at)
      ensures result.Ok? && id in old(records) ==>
                && records == old(records)[id := records[id]] && result.value == Some(records[id])
                && records[id].status == status && records[id].updatedAt == at && SameIdentity(old(records)[id], records[id])
      ensures result.Ok? && id !in old(records) ==> records == old(records) && result.value.None?
    {
      if !IsManagedAgentStatus(status) || at == ZERO_TIME {
        return Err("invalid update");
      }
      UpdateKeepsIndexed(View(), id, status, at);
      if id !in records {
        return Ok(None);
      }
      records := records[id := records[id].(status := status, updatedAt := at)];
      return Ok(Some(records[id]));
    }
  }
}
