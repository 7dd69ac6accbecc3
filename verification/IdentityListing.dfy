/** Listing a principal's identities.

The records come out of a map in random order and are sorted; pages are cut from the
sorted list.  The sort is a library call, represented here by insertion.  */
module IdentityListing {
  import opened Prelude
  import opened IdentityStore

  /** An empty Service DID and an absent status select everything; limit 0 is no limit. */
  datatype Query = Query(serviceDID: string, status: Option<ManagedAgentStatus>, limit: int, offset: int, descending: bool)

  datatype Listing = Listing(identities: seq<IdentityRecord>, total: nat)

  predicate Selects(q: Query, principal: string, r: IdentityRecord) {
    r.principal == principal && (q.serviceDID == "" || r.serviceDID == q.serviceDID) && (q.status.None? || r.status == q.status.value)
  }

  function Selected(records: map<string, IdentityRecord>, q: Query, principal: string): set<IdentityRecord> {
    set id | id in records && Selects(q, principal, records[id]) :: records[id]
  }

  /** Older first; the identifier decides between records of one instant. */
  predicate Precedes(a: IdentityRecord, b: IdentityRecord) {
    a.createdAt < b.createdAt || (a.createdAt == b.createdAt && Less(a.agentIdentityID, b.agentIdentityID))
  }

  predicate Comes(a: IdentityRecord, b: IdentityRecord, descending: bool) {
    if descending then Precedes(b, a) else Precedes(a, b)
  }

  predicate Ordered(s: seq<IdentityRecord>, descending: bool) {
    forall i, j :: 0 <= i < j < |s| ==> Comes(s[i], s[j], descending)
  }

  function Elements(s: seq<IdentityRecord>): set<IdentityRecord> {
    set r | r in s
  }

  lemma ComesIsAStrictOrder(a: IdentityRecord, b: IdentityRecord, c: IdentityRecord, descending: bool)
    ensures !Comes(a, a, descending)
    ensures Comes(a, b, descending) && Comes(b, c, descending) ==> Comes(a, c, descending)
    ensures a.agentIdentityID != b.agentIdentityID ==> Comes(a, b, descending) || Comes(b, a, descending)
  {
    LessTrichotomy(a.agentIdentityID, a.agentIdentityID);
    LessTrichotomy(a.agentIdentityID, b.agentIdentityID);
    if Less(a.agentIdentityID, b.agentIdentityID) && Less(b.agentIdentityID, c.agentIdentityID) {
      LessTransitive(a.agentIdentityID, b.agentIdentityID, c.agentIdentityID);
    }
    if Less(c.agentIdentityID, b.agentIdentityID) && Less(b.agentIdentityID, a.agentIdentityID) {
      LessTransitive(c.agentIdentityID, b.agentIdentityID, a.agentIdentityID);
    }
  }

  // ---------------------------------------------------------------- sorting

  function Insert(r: IdentityRecord, s: seq<IdentityRecord>, descending: bool): seq<IdentityRecord> {
    if s == [] || Comes(r, s[0], descending) then [r] + s else [s[0]] + Insert(r, s[1..], descending)
  }

  function Sorted(s: seq<IdentityRecord>, descending: bool): seq<IdentityRecord> {
    if s == [] then [] else Insert(s[0], Sorted(s[1..], descending), descending)
  }

  lemma {:induction false} InsertKeepsOrder(r: IdentityRecord, s: seq<IdentityRecord>, descending: bool)
    requires Ordered(s, descending) && forall x :: x in s ==> x.agentIdentityID != r.agentIdentityID
    ensures Ordered(Insert(r, s, descending), descending)
    ensures forall x :: x in Insert(r, s, descending) <==> x == r || x in s
  {
    hide Comes;
    if s != [] {
      var first, rest := s[0], s[1..];
      assert s == [first] + rest;
      if Comes(r, first, descending) {
        forall x | x in rest ensures Comes(r, x, descending) {
          ComesIsAStrictOrder(r, first, x, descending);
        }
        ConsKeepsOrder(r, s, descending);
      } else {
        ComesIsAStrictOrder(r, first, first, descending);
        InsertKeepsOrder(r, rest, descending);
        ConsKeepsOrder(first, Insert(r, rest, descending), descending);
      }
    }
  }

  lemma ConsKeepsOrder(r: IdentityRecord, s: seq<IdentityRecord>, descending: bool)
    requires Ordered(s, descending) && forall x :: x in s ==> Comes(r, x, descending)
    ensures Ordered([r] + s, descending)
  {
  }

  lemma {:induction false} SortedIsOrdered(s: seq<IdentityRecord>, descending: bool)
    requires forall i, j :: 0 <= i < j < |s| ==> s[i].agentIdentityID != s[j].agentIdentityID
    ensures Ordered(Sorted(s, descending), descending)
    ensures forall x :: x in Sorted(s, descending) <==> x in s
  {
    if s != [] {
      var rest := s[1..];
      SortedIsOrdered(rest, descending);
      assert s == [s[0]] + rest;
      forall x | x in Sorted(rest, descending) ensures x.agentIdentityID != s[0].agentIdentityID {
        var j :| 0 <= j < |rest| && rest[j] == x;
        assert s[j + 1] == x;
      }
      InsertKeepsOrder(s[0], Sorted(rest, descending), descending);
    }
  }

  // ---------------------------------------------------------------- pages

  /** Starts at the offset and is as long as the limit and the list allow. */
  function Page(s: seq<IdentityRecord>, offset: nat, limit: nat): (page: seq<IdentityRecord>)
    ensures var left := if offset >= |s| then 0 else |s| - offset; |page| == if limit == 0 || left <= limit then left else limit
    ensures forall i :: 0 <= i < |page| ==> page[i] == s[offset + i]
  {
    var rest := if offset >= |s| then [] else s[offset..];
    if limit != 0 && |rest| > limit then rest[..limit] else rest
  }

  /** The listing that a query asks for. */
  ghost predicate IsListing(records: map<string, IdentityRecord>, q: Query, principal: string, s: seq<IdentityRecord>) {
    Ordered(s, q.descending) && Elements(s) == Selected(records, q, principal)
  }

  /** A listing shows exactly the principal's records for the Service and the status that
      the query names, older ones first, or last if it is descending; identifiers decide
      between records of one instant. */
  lemma ListingsShow(records: map<string, IdentityRecord>, q: Query, principal: string, s: seq<IdentityRecord>)
    requires IsListing(records, q, principal, s)
    ensures forall r :: r in s <==>
              && (exists id :: id in records && records[id] == r) && r.principal == principal
              && (q.serviceDID != "" ==> r.serviceDID == q.serviceDID) && (q.status.Some? ==> r.status == q.status.value)
    ensures forall i, j :: 0 <= i < j < |s| ==>
              if s[i].createdAt != s[j].createdAt then (s[i].createdAt < s[j].createdAt <==> !q.descending)
              else if q.descending then Less(s[j].agentIdentityID, s[i].agentIdentityID)
              else Less(s[i].agentIdentityID, s[j].agentIdentityID)
  {
    assert forall r :: r in s <==> r in Elements(s);
  }

  /** The records that a query selects, in the order in which the map yields them. */
  method Collect(tables: Tables, principal: string, q: Query) returns (found: seq<IdentityRecord>)
    requires Indexed(tables)
    ensures Elements(found) == Selected(tables.records, q, principal)
    ensures forall i, j :: 0 <= i < j < |found| ==> found[i].agentIdentityID != found[j].agentIdentityID
  {
    hide Indexed, Selects;
    var records := tables.records;
    found := [];
    var left := records.Keys;
    while left != {}
      invariant left <= records.Keys
      invariant Elements(found) == set id | id in records && id !in left && Selects(q, principal, records[id]) :: records[id]
      invariant forall r :: r in found ==> r.agentIdentityID in records && r.agentIdentityID !in left
      invariant forall i, j :: 0 <= i < j < |found| ==> found[i].agentIdentityID != found[j].agentIdentityID
    {
      var id :| id in left;
      NamedByKey(tables, id);
      if Selects(q, principal, records[id]) {
        assert Elements(found + [records[id]]) == Elements(found) + {records[id]};
        found := found + [records[id]];
      }
      left := left - {id};
    }
  }

  /** Collects, sorts, and cuts the page. */
  method ListIdentities(tables: Tables, principal: string, q: Query) returns (listing: Option<Listing>, ghost sorted: seq<IdentityRecord>)
    requires Indexed(tables)
    ensures listing.None? <==> principal == "" || q.limit < 0 || q.offset < 0
    ensures listing.Some? ==>
              && IsListing(tables.records, q, principal, sorted)
              && listing.value.total == |sorted| == |Selected(tables.records, q, principal)|
              && listing.value.identities == Page(sorted, q.offset, q.limit)
  {
    sorted := [];
    if principal == "" || q.limit < 0 || q.offset < 0 { return None, sorted; }
    var found := Collect(tables, principal, q);
    hide Indexed, Selected;
    SortedIsOrdered(found, q.descending);
    var records := Sorted(found, q.descending);
    sorted := records;
    assert Elements(sorted) == Elements(found);
    OrderedHasNoDuplicates(sorted, q.descending);
    var total := |records|;
    if q.offset >= total {
      records := [];
    } else if q.offset != 0 {
      records := records[q.offset..];
    }
    if q.limit != 0 && |records| > q.limit {
      records := records[..q.limit];
    }
    return Some(Listing(records, total)), sorted;
  }

  lemma NamedByKey(tables: Tables, id: string)
    requires Indexed(tables) && id in tables.records
    ensures tables.records[id].agentIdentityID == id
  {
  }

  lemma {:induction false} OrderedHasNoDuplicates(s: seq<IdentityRecord>, descending: bool)
    requires Ordered(s, descending)
    ensures |Elements(s)| == |s|
  {
    if s != [] {
      var rest := s[1..];
      OrderedHasNoDuplicates(rest, descending);
      assert s == [s[0]] + rest;
      forall x | x in rest ensures x != s[0] {
        ComesIsAStrictOrder(s[0], x, x, descending);
      }
      assert Elements(s) == Elements(rest) + {s[0]};
    }
  }

  /** Map order cannot show: there is one listing. */
  lemma {:induction false} ListingIsUnique(s: seq<IdentityRecord>, t: seq<IdentityRecord>, descending: bool)
    requires Ordered(s, descending) && Ordered(t, descending) && Elements(s) == Elements(t)
    ensures s == t
  {
    NoElements(s);
    NoElements(t);
    if s != [] && t != [] {
      hide Comes;
      var a, b := s[0], t[0];
      assert a in Elements(t) && b in Elements(s);
      assert a != b ==> Comes(a, b, descending) && Comes(b, a, descending);
      ComesIsAStrictOrder(a, b, a, descending);
      assert s == [a] + s[1..] && t == [b] + t[1..];
      FirstIsAlone(s, descending);
      FirstIsAlone(t, descending);
      assert Elements(s[1..]) == Elements(s) - {a} && Elements(t[1..]) == Elements(t) - {a};
      ListingIsUnique(s[1..], t[1..], descending);
    }
  }

  lemma NoElements(s: seq<IdentityRecord>)
    ensures Elements(s) == {} <==> s == []
  {
    if s != [] { assert s[0] in Elements(s); }
  }

  lemma FirstIsAlone(s: seq<IdentityRecord>, descending: bool)
    requires s != [] && Ordered(s, descending)
    ensures s[0] !in s[1..]
  {
    ComesIsAStrictOrder(s[0], s[0], s[0], descending);
  }

  /** Consecutive pages from an offset on. */
  function Pages(s: seq<IdentityRecord>, offset: nat, limit: nat): seq<IdentityRecord>
    requires limit > 0
    decreases |s| - offset
  {
    if offset >= |s| then [] else Page(s, offset, limit) + Pages(s, offset + limit, limit)
  }

  /** Paging loses and repeats nothing. */
  lemma {:induction false} PagesCoverTheListing(s: seq<IdentityRecord>, offset: nat, limit: nat)
    requires limit > 0 && offset <= |s|
    ensures Pages(s, offset, limit) == s[offset..]
    decreases |s| - offset
  {
    if offset + limit <= |s| {
      PagesCoverTheListing(s, offset + limit, limit);
      assert s[offset..] == s[offset..][..limit] + s[offset + limit..];
    } else if offset < |s| {
      assert Pages(s, offset + limit, limit) == [];
    }
  }
}
