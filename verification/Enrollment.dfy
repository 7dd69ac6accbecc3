/** Enrollment records, required claims and documents, and the repeated Enroll that
updates a record from a snapshot.

Claim Values are a map from claim name to an opaque value; `None` is Go's nil.  */
module Enrollment {
  import opened Prelude

  type ClaimValues = map<string, string>

  datatype Status = Active | Pending | Rejected | Suspended | Terminated | Unavailable | Other(name: string)

  datatype Document = Document(id: string, required: bool)

  /** The parts of the Inspect document that enrollment consults. */
  datatype Config = Config(documents: seq<Document>, requiredClaims: seq<string>)

  datatype Record = Record(
    acknowledged: seq<string>,
    renewals: seq<string>,          // RequiredDocumentIDs: acknowledgements to be renewed
    agentDID: string,
    claims: Option<ClaimValues>,
    createdAt: Time,
    enrollmentID: string,
    ownerActionRequired: bool,
    requirementsPending: seq<string>,
    since: Time,
    status: Status,
    updatedAt: Time,
    verificationPending: seq<string>)

  datatype Request = Request(agentDID: string, acknowledged: Option<seq<string>>, claims: Option<ClaimValues>)

  /** A policy decision; `status` is None when the policy leaves it empty. */
  datatype Decision = Decision(
    updateExisting: Option<bool>,
    ownerActionRequired: Option<bool>,
    requirementsPending: Option<seq<string>>,
    status: Option<Status>,
    verificationPending: Option<seq<string>>)

  predicate ValidRecord(r: Record) {
    && r.agentDID != "" && r.enrollmentID != ""
    && r.createdAt != ZERO_TIME && r.since != ZERO_TIME && r.updatedAt != ZERO_TIME
    && !r.status.Other?
  }

  predicate ValidDecisionStatus(s: Status) {
    s.Active? || s.Pending? || s.Rejected?
  }

  /** What makes an enrollment the same enrollment. */
  predicate SameEnrollment(a: Record, b: Record) {
    && a.agentDID == b.agentDID && a.enrollmentID == b.enrollmentID
    && a.createdAt == b.createdAt && a.since == b.since && a.status == b.status
  }

  // --------------------------------------------------- lists and their filters

  /** The elements of `s` outside `drop`, in order. */
  function Without(s: seq<string>, drop: set<string>): seq<string> {
    if s == [] then [] else (if s[0] in drop then [] else [s[0]]) + Without(s[1..], drop)
  }

  lemma {:induction false} WithoutAppend(s: seq<string>, x: string, drop: set<string>)
    ensures Without(s + [x], drop) == Without(s, drop) + (if x in drop then [] else [x])
  {
    if s == [] {
      assert s + [x] == [x];
    } else {
      WithoutAppend(s[1..], x, drop);
      assert (s + [x])[1..] == s[1..] + [x];
    }
  }

  lemma {:induction false} WithoutTwice(s: seq<string>, a: set<string>, b: set<string>)
    ensures Without(Without(s, a), b) == Without(s, a + b)
  {
    if s != [] {
      WithoutTwice(s[1..], a, b);
      var rest := Without(s[1..], a);
      if s[0] in a {
        assert Without(s, a) == rest;
      } else {
        assert ([s[0]] + rest)[1..] == rest;
      }
    }
  }

  lemma {:induction false} WithoutMembers(s: seq<string>, drop: set<string>, x: string)
    ensures x in Without(s, drop) <==> x in s && x !in drop
  {
    if s != [] {
      WithoutMembers(s[1..], drop, x);
      assert s == [s[0]] + s[1..];
    }
  }

  function Elements(s: seq<string>): set<string> {
    set x | x in s
  }

  predicate NoDuplicates(s: seq<string>) {
    forall i, j :: 0 <= i < j < |s| ==> s[i] != s[j]
  }

  // ------------------------------------------------------------ claims

  function NamesOf(claims: Option<ClaimValues>): set<string> {
    if claims.None? then {} else claims.value.Keys
  }

  method MissingRequiredClaimNames(required: seq<string>, claims: Option<ClaimValues>) returns (missing: seq<string>)
    ensures missing == Without(required, NamesOf(claims))
  {
    missing := [];
    for i := 0 to |required|
      invariant missing == Without(required[..i], NamesOf(claims))
    {
      assert required[..i + 1] == required[..i] + [required[i]];
      WithoutAppend(required[..i], required[i], NamesOf(claims));
      if claims.None? || required[i] !in claims.value {
        missing := missing + [required[i]];
      }
    }
    assert required[..|required|] == required;
  }

  function Merge(existing: Option<ClaimValues>, supplied: Option<ClaimValues>): Option<ClaimValues> {
    match (existing, supplied)
    case (None, _) => supplied
    case (_, None) => existing
    case (Some(e), Some(s)) => Some(e + s)
  }

  /** Every name the caller supplies overwrites the stored value. */
  method MergeDocumentClaims(existing: Option<ClaimValues>, supplied: Option<ClaimValues>) returns (merged: Option<ClaimValues>)
    ensures merged == Merge(existing, supplied)
    ensures NamesOf(merged) == NamesOf(existing) + NamesOf(supplied)
    ensures forall n :: n in NamesOf(supplied) ==> merged.value[n] == supplied.value[n]
    ensures forall n :: n in NamesOf(existing) && n !in NamesOf(supplied) ==> merged.value[n] == existing.value[n]
  {
    if existing.None? { return supplied; }
    var result: ClaimValues := map[];
    for i := 0 to 2
      invariant i == 0 ==> result == map[]
      invariant i == 1 ==> result == existing.value
      invariant i == 2 ==> result == if supplied.None? then existing.value else existing.value + supplied.value
    {
      var claims := if i == 0 then existing else supplied;
      if claims.None? { continue; }
      var left := claims.value.Keys;
      ghost var before := result;
      while left != {}
        invariant left <= claims.value.Keys
        invariant result == before + (map n | n in claims.value && n !in left :: claims.value[n])
      {
        var name :| name in left;
        result := result[name := claims.value[name]];
        left := left - {name};
      }
      assert (map n | n in claims.value && n !in left :: claims.value[n]) == claims.value;
      assert map[] + existing.value == existing.value;
    }
    return Some(result);
  }

  function MissingClaims(config: Config, claims: Option<ClaimValues>): seq<string> {
    Without(config.requiredClaims, NamesOf(claims))
  }

  /** After a merge exactly those required names are missing that neither side has. */
  lemma MissingAfterMerge(config: Config, existing: Option<ClaimValues>, supplied: Option<ClaimValues>)
    ensures MissingClaims(config, Merge(existing, supplied))
         == Without(config.requiredClaims, NamesOf(existing) + NamesOf(supplied))
         == Without(MissingClaims(config, existing), NamesOf(supplied))
  {
    assert NamesOf(Merge(existing, supplied)) == NamesOf(existing) + NamesOf(supplied);
    WithoutTwice(config.requiredClaims, NamesOf(existing), NamesOf(supplied));
  }

  // --------------------------------------------------------- documents

  predicate IsMissing(d: Document, r: Record) {
    d.required && (d.id !in r.acknowledged || d.id in r.renewals)
  }

  /** Required documents that are unacknowledged or due for renewal, in catalog order. */
  function MissingIDs(documents: seq<Document>, r: Record): seq<string> {
    if documents == [] then []
    else (if IsMissing(documents[0], r) then [documents[0].id] else []) + MissingIDs(documents[1..], r)
  }

  lemma {:induction false} MissingIDsAppend(documents: seq<Document>, d: Document, r: Record)
    ensures MissingIDs(documents + [d], r) == MissingIDs(documents, r) + (if IsMissing(d, r) then [d.id] else [])
  {
    if documents == [] {
      assert documents + [d] == [d];
    } else {
      MissingIDsAppend(documents[1..], d, r);
      assert (documents + [d])[1..] == documents[1..] + [d];
    }
  }

  /** A required document that the record does not acknowledge, or is to acknowledge anew. */
  ghost predicate Lacks(documents: seq<Document>, r: Record, id: string) {
    exists d :: d in documents && d.id == id && d.required && (id in r.acknowledged ==> id in r.renewals)
  }

  lemma {:induction false} MissingIDsAreLacking(documents: seq<Document>, r: Record, id: string)
    ensures id in MissingIDs(documents, r) <==> Lacks(documents, r, id)
  {
    if documents != [] {
      MissingIDsAreLacking(documents[1..], r, id);
      assert documents == [documents[0]] + documents[1..];
      assert forall d :: d in documents <==> d == documents[0] || d in documents[1..];
    }
  }

  method MissingDocumentIDs(documents: seq<Document>, r: Record) returns (missing: seq<string>)
    ensures missing == MissingIDs(documents, r)
    ensures forall id :: id in missing <==> Lacks(documents, r, id)
  {
    hide Lacks;
    forall id ensures id in MissingIDs(documents, r) <==> Lacks(documents, r, id) {
      MissingIDsAreLacking(documents, r, id);
    }
    missing := [];
    for i := 0 to |documents|
      invariant missing == MissingIDs(documents[..i], r)
    {
      assert documents[..i + 1] == documents[..i] + [documents[i]];
      MissingIDsAppend(documents[..i], documents[i], r);
      if documents[i].required && (documents[i].id !in r.acknowledged || documents[i].id in r.renewals) {
        missing := missing + [documents[i].id];
      }
    }
    assert documents[..|documents|] == documents;
  }

  predicate InCatalog(documents: seq<Document>, id: string) {
    exists d :: d in documents && d.id == id
  }

  method ContainsID(documents: seq<Document>, id: string) returns (found: bool)
    ensures found <==> InCatalog(documents, id)
  {
    for i := 0 to |documents|
      invariant forall j :: 0 <= j < i ==> documents[j].id != id
    {
      if documents[i].id == id { return true; }
    }
    return false;
  }

  /** The acknowledged list after a declaration: the old list is a prefix, only
      declared catalog identifiers are added, each once. */
  ghost predicate AcceptedFrom(documents: seq<Document>, existing: seq<string>, declared: seq<string>, ids: seq<string>) {
    && existing <= ids
    && (forall x :: x in ids <==> x in existing || (x in declared && exists d :: d in documents && d.id == x))
    && (forall i, j :: |existing| <= i < |ids| && 0 <= j < i ==> ids[i] != ids[j])
  }

  method AcceptedDocumentIDs(documents: seq<Document>, existing: seq<string>, declared: seq<string>) returns (ids: seq<string>)
    ensures AcceptedFrom(documents, existing, declared, ids)
    ensures ids == Accepted(documents, existing, declared)
  {
    ids := existing;
    for i := 0 to |declared|
      invariant AcceptedFrom(documents, existing, declared[..i], ids)
      invariant ids == Accepted(documents, existing, declared[..i])
    {
      assert declared[..i + 1][..i] == declared[..i] && declared[..i + 1][i] == declared[i];
      var known := ContainsID(documents, declared[i]);
      assert forall x :: x in declared[..i + 1] <==> x in declared[..i] || x == declared[i];
      if declared[i] !in ids && known {
        ids := ids + [declared[i]];
      }
    }
    assert declared[..|declared|] == declared;
  }

  ghost function Accepted(documents: seq<Document>, existing: seq<string>, declared: seq<string>): (ids: seq<string>) {
    if declared == [] then existing
    else
      var n := |declared| - 1;
      var ids := Accepted(documents, existing, declared[..n]);
      if declared[n] !in ids && InCatalog(documents, declared[n]) then ids + [declared[n]] else ids
  }

  lemma {:induction false} AcceptedIsAccepted(documents: seq<Document>, existing: seq<string>, declared: seq<string>)
    ensures AcceptedFrom(documents, existing, declared, Accepted(documents, existing, declared))
  {
    if declared != [] {
      var n := |declared| - 1;
      AcceptedIsAccepted(documents, existing, declared[..n]);
      assert forall x :: x in declared <==> x in declared[..n] || x == declared[n];
    }
  }

  lemma AcceptedStaysDuplicateFree(documents: seq<Document>, existing: seq<string>, declared: seq<string>, ids: seq<string>)
    requires NoDuplicates(existing) && AcceptedFrom(documents, existing, declared, ids)
    ensures NoDuplicates(ids)
  {
    forall i, j | 0 <= i < j < |ids| ensures ids[i] != ids[j] {
      if j < |existing| { assert ids[i] == existing[i] && ids[j] == existing[j]; }
    }
  }

  /** Where a list first has an element; its length if it never does. */
  function FirstOf(s: seq<string>, x: string): (i: nat)
    ensures i <= |s| && (i < |s| <==> x in s)
  {
    if s == [] || s[0] == x then 0 else 1 + FirstOf(s[1..], x)
  }

  lemma {:induction false} FirstOfAppend(s: seq<string>, y: string, x: string)
    ensures x in s ==> FirstOf(s + [y], x) == FirstOf(s, x)
    ensures x !in s && x == y ==> FirstOf(s + [y], x) == |s|
  {
    if s == [] {
      assert s + [y] == [y];
    } else {
      FirstOfAppend(s[1..], y, x);
      assert (s + [y])[1..] == s[1..] + [y];
    }
  }

  /** New acknowledgements come in the order in which they were declared. */
  lemma {:induction false} AcceptedInOrder(documents: seq<Document>, existing: seq<string>, declared: seq<string>)
    ensures var ids := Accepted(documents, existing, declared);
            |existing| <= |ids| && forall i, j :: |existing| <= i < j < |ids| ==> FirstOf(declared, ids[i]) < FirstOf(declared, ids[j])
  {
    if declared != [] {
      var n := |declared| - 1;
      var before, ids := Accepted(documents, existing, declared[..n]), Accepted(documents, existing, declared);
      AcceptedInOrder(documents, existing, declared[..n]);
      AcceptedIsAccepted(documents, existing, declared[..n]);
      NewOnesAreDeclared(documents, existing, declared[..n], before);
      assert declared == declared[..n] + [declared[n]];
      forall i, j | |existing| <= i < j < |ids| ensures FirstOf(declared, ids[i]) < FirstOf(declared, ids[j]) {
        FirstOfAppend(declared[..n], declared[n], ids[i]);
        FirstOfAppend(declared[..n], declared[n], ids[j]);
        assert ids[i] == before[i] && before[i] in declared[..n];
        if j < |before| {
          assert ids[j] == before[j] && before[j] in declared[..n];
        } else {
          assert ids[j] == declared[n] && declared[n] !in declared[..n];
        }
      }
    }
  }

  lemma NewOnesAreDeclared(documents: seq<Document>, existing: seq<string>, declared: seq<string>, ids: seq<string>)
    requires AcceptedFrom(documents, existing, declared, ids)
    ensures forall i :: |existing| <= i < |ids| ==> ids[i] in declared
  {
    assert forall i, k :: |existing| <= i < |ids| && 0 <= k < |existing| ==> ids[k] == existing[k] && ids[i] != ids[k];
  }

  method Renewals(renewals: seq<string>, declared: seq<string>) returns (left: seq<string>)
    ensures left == Without(renewals, Elements(declared))
  {
    left := [];
    for i := 0 to |renewals|
      invariant left == Without(renewals[..i], Elements(declared))
    {
      assert renewals[..i + 1] == renewals[..i] + [renewals[i]];
      WithoutAppend(renewals[..i], renewals[i], Elements(declared));
      if renewals[i] !in declared {
        left := left + [renewals[i]];
      }
    }
    assert renewals[..|renewals|] == renewals;
  }

  // ----------------------------------------------------- repeated Enroll

  datatype Update =
    | Fails                                                // the call returns an error
    | Refused                                              // 403 enrollment_failed
    | Unmet(claims: seq<string>, documents: seq<string>)   // 422 requirements_unmet
    | Unchanged                                            // the policy asked to leave the record alone
    | Save(record: Record)

  function Declared(request: Request): seq<string> {
    if request.acknowledged.Some? then request.acknowledged.value else []
  }

  /** The record that a repeated Enroll writes, made from its snapshot. */
  ghost function Updated(config: Config, request: Request, existing: Record, decision: Decision, now: Time): Record {
    existing.(
      claims := Merge(existing.claims, request.claims),
      ownerActionRequired := if decision.ownerActionRequired.Some? then decision.ownerActionRequired.value else existing.ownerActionRequired,
      requirementsPending := if decision.requirementsPending.Some? then decision.requirementsPending.value else existing.requirementsPending,
      verificationPending := if decision.verificationPending.Some? then decision.verificationPending.value else existing.verificationPending,
      acknowledged := Accepted(config.documents, existing.acknowledged, Declared(request)),
      renewals := Without(existing.renewals, Elements(Declared(request))),
      updatedAt := now)
  }

  /** The decision of a repeated Enroll. */
  ghost function Decide(config: Config, request: Request, existing: Record, decision: Decision, now: Time): Update {
    var missing := MissingClaims(config, Merge(existing.claims, request.claims));
    var unread := if request.acknowledged.Some? then [] else MissingIDs(config.documents, existing);
    if !ValidRecord(existing) || (decision.status.Some? && !ValidDecisionStatus(decision.status.value)) then Fails
    else if decision.status == Some(Rejected) then Refused
    else if decision.updateExisting == Some(false) then Unchanged
    else if missing != [] || unread != [] then Unmet(missing, unread)
    else Save(Updated(config, request, existing, decision, now))
  }

  /** The fields that a repeated Enroll overwrites, one after the other. */
  method Overwrite(config: Config, request: Request, snapshot: Record, merged: Option<ClaimValues>, decision: Decision, now: Time) returns (existing: Record)
    requires merged == Merge(snapshot.claims, request.claims)
    ensures existing == Updated(config, request, snapshot, decision, now)
  {
    hide AcceptedFrom, Accepted, Merge, Without, Elements, InCatalog;
    existing := snapshot.(claims := merged);
    if decision.ownerActionRequired.Some? {
      existing := existing.(ownerActionRequired := decision.ownerActionRequired.value);
    }
    if decision.requirementsPending.Some? {
      existing := existing.(requirementsPending := decision.requirementsPending.value);
    }
    if decision.verificationPending.Some? {
      existing := existing.(verificationPending := decision.verificationPending.value);
    }
    var declared := if request.acknowledged.Some? then request.acknowledged.value else [];
    var ids := AcceptedDocumentIDs(config.documents, existing.acknowledged, declared);
    var left := Renewals(existing.renewals, declared);
    existing := existing.(acknowledged := ids, renewals := left, updatedAt := now);
  }

  /** The caller of a repeated Enroll is told what it lacks: a required claim that neither
      the record nor the request has, or, without a declaration, a required document. */
  ghost predicate LacksSomething(config: Config, request: Request, existing: Record) {
    || (exists name :: name in config.requiredClaims && name !in NamesOf(existing.claims) && name !in NamesOf(request.claims))
    || (request.acknowledged.None? && exists id :: Lacks(config.documents, existing, id))
  }

  predicate IsSet<T(==)>(said: Option<T>, value: T) {
    said.Some? && said.value == value
  }

  /** Which outcome a repeated Enroll has, case by case. */
  ghost predicate ComesTo(config: Config, request: Request, existing: Record, decision: Decision, update: Update) {
    var wrong := !ValidRecord(existing) || (decision.status.Some? && decision.status.value !in {Active, Pending, Rejected});
    var refused := !wrong && IsSet(decision.status, Rejected);
    var kept := !wrong && !refused && IsSet(decision.updateExisting, false);
    var unmet := !wrong && !refused && !kept && LacksSomething(config, request, existing);
    && (update.Fails? <==> wrong) && (update.Refused? <==> refused) && (update.Unchanged? <==> kept) && (update.Unmet? <==> unmet)
    && (update.Unmet? ==>
          && update.claims == Without(config.requiredClaims, NamesOf(existing.claims) + NamesOf(request.claims))
          && (if request.acknowledged.Some? then update.documents == [] else forall id :: id in update.documents <==> Lacks(config.documents, existing, id)))
  }

  lemma DecidesByCases(config: Config, request: Request, existing: Record, decision: Decision, now: Time)
    ensures ComesTo(config, request, existing, decision, Decide(config, request, existing, decision, now))
  {
    var drop := NamesOf(existing.claims) + NamesOf(request.claims);
    MissingAfterMerge(config, existing.claims, request.claims);
    NothingLeft(config.requiredClaims, drop);
    forall id ensures id in MissingIDs(config.documents, existing) <==> Lacks(config.documents, existing, id) {
      MissingIDsAreLacking(config.documents, existing, id);
    }
    assert MissingIDs(config.documents, existing) != [] ==> MissingIDs(config.documents, existing)[0] in MissingIDs(config.documents, existing);
    hide ValidRecord, MissingClaims, MissingIDs, Without, Lacks, Merge, NamesOf, Updated;
  }

  lemma {:induction false} NothingLeft(s: seq<string>, drop: set<string>)
    ensures Without(s, drop) == [] <==> forall x :: x in s ==> x in drop
  {
    forall x ensures x in Without(s, drop) <==> x in s && x !in drop {
      WithoutMembers(s, drop, x);
    }
    if Without(s, drop) != [] {
      assert Without(s, drop)[0] in Without(s, drop);
    }
  }

  method UpdateEnrollment(config: Config, request: Request, snapshot: Record, decision: Decision, now: Time) returns (update: Update)
    ensures update == Decide(config, request, snapshot, decision, now)
    ensures ComesTo(config, request, snapshot, decision, update)
  {
    DecidesByCases(config, request, snapshot, decision, now);
    hide ComesTo, ValidRecord, ValidDecisionStatus, AcceptedFrom, Accepted, Merge, MissingIDs, NamesOf, Without, Elements, NoDuplicates, InCatalog;
    var existing := snapshot;
    if !ValidRecord(existing) { return Fails; }
    if decision.status.Some? && !ValidDecisionStatus(decision.status.value) { return Fails; }
    if decision.status == Some(Rejected) { return Refused; }
    if decision.updateExisting.None? || decision.updateExisting.value {
      var merged := MergeDocumentClaims(existing.claims, request.claims);
      var missingClaims := MissingRequiredClaimNames(config.requiredClaims, merged);
      var missingIDs := MissingDocumentIDs(config.documents, existing);
      if request.acknowledged.Some? {
        missingIDs := [];
      }
      if missingClaims != [] || missingIDs != [] {
        return Unmet(missingClaims, missingIDs);
      }
      existing := Overwrite(config, request, existing, merged, decision, now);
      return Save(existing);
    }
    return Unchanged;
  }

  /** The documents still missing after a saved repeated Enroll are exactly the
      ones missing before that were not declared, in catalog order. */
  lemma {:induction false} MissingAfterDeclaration(catalog: seq<Document>, documents: seq<Document>, before: Record, after: Record, declared: seq<string>)
    requires forall d :: d in documents ==> d in catalog
    requires after.acknowledged == Accepted(catalog, before.acknowledged, declared)
    requires after.renewals == Without(before.renewals, Elements(declared))
    ensures MissingIDs(documents, after) == Without(MissingIDs(documents, before), Elements(declared))
  {
    if documents != [] {
      var d := documents[0];
      MissingAfterDeclaration(catalog, documents[1..], before, after, declared);
      AcceptedIsAccepted(catalog, before.acknowledged, declared);
      assert d in catalog && InCatalog(catalog, d.id);
      WithoutMembers(before.renewals, Elements(declared), d.id);
      assert IsMissing(d, after) <==> IsMissing(d, before) && d.id !in declared;
      var rest := MissingIDs(documents[1..], before);
      if IsMissing(d, before) {
        assert ([d.id] + rest)[1..] == rest;
      } else {
        assert [] + rest == rest;
      }
    }
  }

  /** What the decision says, or what was there when it says nothing. */
  function Given<T>(said: Option<T>, before: T): T {
    if said.Some? then said.value else before
  }

  /** What a saved repeated Enroll keeps, and what it leaves missing. */
  lemma SavedUpdateIsFaithful(config: Config, request: Request, existing: Record, decision: Decision, now: Time)
    requires Decide(config, request, existing, decision, now).Save?
    ensures var saved := Decide(config, request, existing, decision, now).record; var declared := Declared(request);
            && SameEnrollment(existing, saved)
            && MissingIDs(config.documents, saved) == Without(MissingIDs(config.documents, existing), Elements(declared))
            && AcceptedFrom(config.documents, existing.acknowledged, declared, saved.acknowledged)
            && (NoDuplicates(existing.acknowledged) ==> NoDuplicates(saved.acknowledged))
            && MissingClaims(config, saved.claims) == []
            && Without(MissingClaims(config, existing.claims), NamesOf(request.claims)) == []
    ensures request.acknowledged.None? ==> MissingIDs(config.documents, existing) == []
    ensures var saved := Decide(config, request, existing, decision, now).record;
            && NamesOf(saved.claims) == NamesOf(existing.claims) + NamesOf(request.claims)
            && (forall n :: n in NamesOf(request.claims) ==> saved.claims.value[n] == request.claims.value[n])
            && (forall n :: n in NamesOf(existing.claims) && n !in NamesOf(request.claims) ==> saved.claims.value[n] == existing.claims.value[n])
            && saved.renewals == Without(existing.renewals, Elements(Declared(request)))
    ensures var saved := Decide(config, request, existing, decision, now).record;
            && saved.updatedAt == now
            && saved.ownerActionRequired == Given(decision.ownerActionRequired, existing.ownerActionRequired)
            && saved.requirementsPending == Given(decision.requirementsPending, existing.requirementsPending)
            && saved.verificationPending == Given(decision.verificationPending, existing.verificationPending)
  {
    var saved := Decide(config, request, existing, decision, now).record;
    var declared := Declared(request);
    MissingAfterDeclaration(config.documents, config.documents, existing, saved, declared);
    AcceptedIsAccepted(config.documents, existing.acknowledged, declared);
    MissingAfterMerge(config, existing.claims, request.claims);
    if NoDuplicates(existing.acknowledged) {
      AcceptedStaysDuplicateFree(config.documents, existing.acknowledged, declared, saved.acknowledged);
    }
  }

  // ------------------------------------------------------- first Enroll

  datatype Creation = Failure | Missing(claims: seq<string>, documents: seq<string>) | Made(record: Record)

  /** The create function that Enroll hands to the enrollment store.  `presentable`
      says whether the response built from the decision validates. */
  ghost function Create(config: Config, request: Request, decision: Decision, presentable: bool, identifier: string, now: Time): Creation {
    var missing := MissingClaims(config, request.claims);
    var unread := if request.acknowledged.Some? then [] else RequiredIDs(config.documents);
    var status := if decision.status.Some? then decision.status.value else Active;
    if missing != [] || unread != [] then Missing(missing, unread)
    else if !ValidDecisionStatus(status) || !presentable || identifier == "" then Failure
    else Made(Record(
                if status.Rejected? then [] else Accepted(config.documents, [], Declared(request)),
                [],
                request.agentDID,
                request.claims,
                now,
                identifier,
                decision.ownerActionRequired == Some(true),
                if decision.requirementsPending.Some? then decision.requirementsPending.value else [],
                now,
                status,
                now,
                if decision.verificationPending.Some? then decision.verificationPending.value else []))
  }

  /** missingDocumentIDs of the empty record: every required document. */
  function RequiredIDs(documents: seq<Document>): seq<string> {
    if documents == [] then []
    else (if documents[0].required then [documents[0].id] else []) + RequiredIDs(documents[1..])
  }

  lemma {:induction false} NothingAcknowledged(documents: seq<Document>, r: Record)
    requires r.acknowledged == []
    ensures MissingIDs(documents, r) == RequiredIDs(documents)
  {
    if documents != [] {
      NothingAcknowledged(documents[1..], r);
    }
  }

  /** Which outcome a first Enroll has, and the record that it makes; an empty status
      means active. */
  lemma CreatesByCases(config: Config, request: Request, decision: Decision, presentable: bool, identifier: string, now: Time)
    ensures var created := Create(config, request, decision, presentable, identifier, now);
            var lacking := (exists name :: name in config.requiredClaims && name !in NamesOf(request.claims))
                           || (request.acknowledged.None? && exists d :: d in config.documents && d.required);
            var status := if decision.status.None? then Active else decision.status.value;
            && (created.Missing? <==> lacking)
            && (created.Failure? <==> !lacking && (status !in {Active, Pending, Rejected} || !presentable || identifier == ""))
            && (created.Missing? ==>
                  && created.claims == Without(config.requiredClaims, NamesOf(request.claims))
                  && created.documents == if request.acknowledged.Some? then [] else RequiredIDs(config.documents))
            && (created.Made? ==>
                  var r := created.record;
                  && r.agentDID == request.agentDID && r.enrollmentID == identifier && r.status == status && r.claims == request.claims
                  && r.createdAt == r.since == r.updatedAt == now && r.renewals == []
                  && r.ownerActionRequired == Given(decision.ownerActionRequired, false)
                  && r.requirementsPending == Given(decision.requirementsPending, [])
                  && r.verificationPending == Given(decision.verificationPending, []))
  {
    NothingLeft(config.requiredClaims, NamesOf(request.claims));
    NothingRequired(config.documents);
    hide Without, NamesOf, RequiredIDs, Accepted;
  }

  lemma {:induction false} NothingRequired(documents: seq<Document>)
    ensures RequiredIDs(documents) == [] <==> forall d :: d in documents ==> !d.required
  {
    if documents != [] {
      NothingRequired(documents[1..]);
      assert forall d :: d in documents <==> d == documents[0] || d in documents[1..];
    }
  }

  /** A first Enroll leaves no required claim missing, and exactly the undeclared required
      documents; without a declaration it succeeds only if none is required.  A rejected
      one is stored as well, and acknowledges nothing. */
  lemma NewEnrollmentIsFaithful(config: Config, request: Request, decision: Decision, presentable: bool, identifier: string, now: Time)
    requires Create(config, request, decision, presentable, identifier, now).Made?
    ensures var made := Create(config, request, decision, presentable, identifier, now).record; var declared := Declared(request);
            && MissingClaims(config, made.claims) == []
            && MissingIDs(config.documents, made) ==
               (if made.status.Rejected? then RequiredIDs(config.documents) else Without(RequiredIDs(config.documents), Elements(declared)))
            && (made.status.Rejected? <==> decision.status == Some(Rejected))
            && (if made.status.Rejected? then made.acknowledged == [] else AcceptedFrom(config.documents, [], declared, made.acknowledged))
            && NoDuplicates(made.acknowledged)
            && (request.acknowledged.None? ==> MissingIDs(config.documents, made) == [])
  {
    var made := Create(config, request, decision, presentable, identifier, now).record;
    var declared := Declared(request);
    var blank := made.(acknowledged := []);
    NothingAcknowledged(config.documents, blank);
    if !made.status.Rejected? {
      assert Without([], Elements(declared)) == [];
      MissingAfterDeclaration(config.documents, config.documents, blank, made, declared);
      AcceptedIsAccepted(config.documents, [], declared);
      AcceptedStaysDuplicateFree(config.documents, [], declared, made.acknowledged);
    }
  }

  // ------------------------------------------------- what every record has

  /** All required claims, and acknowledgements of catalog documents, each once. */
  ghost predicate WellEnrolled(config: Config, r: Record) {
    && MissingClaims(config, r.claims) == []
    && NoDuplicates(r.acknowledged)
    && forall id :: id in r.acknowledged ==> InCatalog(config.documents, id)
  }

  /** Some first Enroll makes this record. */
  ghost predicate IsMade(config: Config, r: Record) {
    exists request, decision, presentable, identifier, now ::
      Create(config, request, decision, presentable, identifier, now) == Made(r)
  }

  lemma MadeIsWellEnrolled(config: Config, r: Record)
    requires IsMade(config, r)
    ensures WellEnrolled(config, r)
  {
    var request, decision, presentable, identifier, now :|
      Create(config, request, decision, presentable, identifier, now) == Made(r);
    NewEnrollmentIsFaithful(config, request, decision, presentable, identifier, now);
    hide Create, MissingClaims, MissingIDs, Without, RequiredIDs, InCatalog, NoDuplicates;
  }

  lemma SavedIsWellEnrolled(config: Config, request: Request, existing: Record, decision: Decision, now: Time)
    requires WellEnrolled(config, existing) && Decide(config, request, existing, decision, now).Save?
    ensures WellEnrolled(config, Decide(config, request, existing, decision, now).record)
  {
    SavedUpdateIsFaithful(config, request, existing, decision, now);
    hide Decide, MissingClaims, MissingIDs, Without, InCatalog, NoDuplicates, Merge;
  }
}
