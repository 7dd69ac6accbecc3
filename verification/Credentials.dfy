/** The in-memory store of session credentials, and the handlers over it.

Hashing, header canonicalisation, base64, time parsing and the Authorization grammar
are parameters: fixed functions about which nothing is assumed.  A request's headers
are a function from field name to the list of its values.  The store keeps expired
and revoked records for ever, so that no secret is ever issued twice.  */
module Credentials {
  import opened Prelude

  type GrantType = string

  const OAUTH_BEARER: GrantType := "oauth-bearer"
  const API_KEY: GrantType := "api-key"
  const BASIC: GrantType := "basic"
  const AUTHORIZATION := "Authorization"

  /** A built-in grant response; `expiresAt` is still text. */
  datatype Issued =
    | OAuthBearer(accessToken: string, credentialID: string, expiresAt: string, scopes: seq<string>)
    | APIKey(header: string, apiKey: string, credentialID: string, expiresAt: string, scopes: seq<string>)
    | Basic(username: string, password: string, credentialID: string, expiresAt: string, scopes: seq<string>)

  datatype Scheme = Bearer | BasicScheme | AEP

  datatype Authorization = Authorization(scheme: Scheme, credentials: string)

  datatype Library = Library(
    hash: string -> string,
    canonicalHeader: string -> string,
    base64: string -> string,
    parseTime: string -> Option<Time>,
    parse: string -> Option<Authorization>,
    isValid: Issued -> bool)

  datatype Record = Record(
    agentDID: string,
    createdAt: Time,
    credential: Issued,
    credentialID: string,
    expiresAt: Time,
    grantType: GrantType)

  /** What the store keeps: a verifier, never the secret. */
  datatype Stored = Stored(
    agentDID: string,
    credentialID: string,
    expiresAt: Time,
    grantType: GrantType,
    header: string,
    revokedAt: Time,
    scopes: seq<string>,
    verifier: string)

  datatype Input = Input(values: string -> seq<string>, now: Time)

  type Table = map<string, Stored>

  function GrantTypeOf(c: Issued): GrantType {
    if c.OAuthBearer? then OAUTH_BEARER else if c.APIKey? then API_KEY else BASIC
  }

  function Secret(lib: Library, c: Issued): string {
    match c
    case OAuthBearer(token, _, _, _) => token
    case APIKey(_, key, _, _, _) => key
    case Basic(username, password, _, _, _) => lib.base64(username + ":" + password)
  }

  function HeaderOf(lib: Library, c: Issued): string {
    if c.APIKey? then lib.canonicalHeader(c.header) else AUTHORIZATION
  }

  /** memoryCredentialRecord. */
  function Store(lib: Library, r: Record): Result<Stored> {
    var expiry := lib.parseTime(r.credential.expiresAt);
    if r.agentDID == "" || r.credentialID == "" || r.createdAt == ZERO_TIME || !(r.expiresAt > r.createdAt) || r.grantType == "" then
      Err("invalid record")
    else if GrantTypeOf(r.credential) != r.grantType || !lib.isValid(r.credential) then Err("invalid credential")
    else if expiry != Some(r.expiresAt) || r.credential.credentialID != r.credentialID then Err("metadata does not match")
    else Ok(Stored(r.agentDID, r.credentialID, r.expiresAt, r.grantType, HeaderOf(lib, r.credential), ZERO_TIME,
                   r.credential.scopes, lib.hash(Secret(lib, r.credential))))
  }

  // ---------------------------------------------------- effect on the table

  /** What a presentation can find: two such records would be one secret issued twice. */
  predicate SameSecret(a: Stored, b: Stored) {
    a.grantType == b.grantType && a.header == b.header && a.verifier == b.verifier
  }

  ghost predicate Accepts(lib: Library, table: Table, r: Record) {
    && Store(lib, r).Ok?
    && r.credentialID !in table
    && forall id :: id in table ==> !SameSecret(table[id], Store(lib, r).value)
  }

  ghost function Saved(lib: Library, table: Table, r: Record): Table {
    if Accepts(lib, table, r) then table[r.credentialID := Store(lib, r).value] else table
  }

  function RevokedOne(table: Table, agentDID: string, g: GrantType, id: string, at: Time): Table {
    if id in table && table[id].agentDID == agentDID && table[id].grantType == g
    then table[id := table[id].(revokedAt := at)] else table
  }

  function RevokedAll(table: Table, agentDID: string, g: GrantType, at: Time): Table {
    map id | id in table :: Withdrawn(table[id], agentDID, g, at)
  }

  function Withdrawn(r: Stored, agentDID: string, g: GrantType, at: Time): Stored {
    if r.agentDID == agentDID && r.grantType == g then r.(revokedAt := at) else r
  }

  // ------------------------------------------------- answer of the table

  /** The credentials in Authorization values of the grant type's scheme. */
  function SchemeValues(lib: Library, g: GrantType, values: seq<string>): seq<string> {
    if values == [] then []
    else
      var parsed := lib.parse(values[0]);
      var expected := if g == BASIC then BasicScheme else Bearer;
      (if parsed.Some? && parsed.value.scheme == expected then [parsed.value.credentials] else [])
      + SchemeValues(lib, g, values[1..])
  }

  function PresentingHeaders(table: Table, g: GrantType): set<string> {
    if g == API_KEY then set id | id in table && table[id].grantType == g :: table[id].header else {AUTHORIZATION}
  }

  function Offered(lib: Library, g: GrantType, input: Input, header: string): seq<string> {
    if g == API_KEY then input.values(header) else SchemeValues(lib, g, input.values(AUTHORIZATION))
  }

  datatype Presentation = Presentation(header: string, value: string)

  /** The one presentation in the request: no other header of this grant type has a value. */
  predicate Sole(lib: Library, table: Table, g: GrantType, input: Input, header: string) {
    && header in PresentingHeaders(table, g)
    && |Offered(lib, g, input, header)| == 1
    && forall h :: h in PresentingHeaders(table, g) && h != header ==> Offered(lib, g, input, h) == []
  }

  function NameSent(lib: Library, g: GrantType, header: string): string {
    if g == API_KEY then lib.canonicalHeader(header) else AUTHORIZATION
  }

  predicate Live(r: Stored, now: Time) {
    r.revokedAt == ZERO_TIME && r.expiresAt > now
  }

  /** The record with this identifier is the one that the request presents. */
  ghost predicate Answers(lib: Library, table: Table, g: GrantType, input: Input, id: string) {
    && id in table && table[id].grantType == g && Live(table[id], input.now)
    && exists header :: Sole(lib, table, g, input, header)
                     && table[id].header == NameSent(lib, g, header)
                     && table[id].verifier == lib.hash(Offered(lib, g, input, header)[0])
  }

  ghost function Authenticate(lib: Library, table: Table, g: GrantType, input: Input): (found: Option<Stored>)
    ensures found.None? <==> forall id :: !Answers(lib, table, g, input, id)
    ensures found.Some? ==> exists id :: Answers(lib, table, g, input, id) && table[id] == found.value
  {
    if id :| Answers(lib, table, g, input, id) then Some(table[id]) else None
  }

  ghost predicate Unique(table: Table) {
    forall i, j :: i in table && j in table && SameSecret(table[i], table[j]) ==> i == j
  }

  ghost predicate Named(table: Table) {
    forall id :: id in table ==> table[id].credentialID == id && id != "" && table[id].agentDID != ""
  }

  lemma SoleHeaderIsOne(lib: Library, table: Table, g: GrantType, input: Input, h: string, k: string)
    requires Sole(lib, table, g, input, h) && Sole(lib, table, g, input, k)
    ensures h == k
  {
  }

  /** Map iteration order cannot change the answer: at most one record answers. */
  lemma OneRecordAnswers(lib: Library, table: Table, g: GrantType, input: Input, i: string, j: string)
    requires Unique(table)
    requires Answers(lib, table, g, input, i) && Answers(lib, table, g, input, j)
    ensures i == j
  {
    hide Live, NameSent, Offered;
    var h :| Sole(lib, table, g, input, h) && table[i].header == NameSent(lib, g, h) && table[i].verifier == lib.hash(Offered(lib, g, input, h)[0]);
    var k :| Sole(lib, table, g, input, k) && table[j].header == NameSent(lib, g, k) && table[j].verifier == lib.hash(Offered(lib, g, input, k)[0]);
    SoleHeaderIsOne(lib, table, g, input, h, k);
    assert SameSecret(table[i], table[j]);
  }

  /** Without it, it could: two records with one secret both answer. */
  lemma SharedSecretsAreAmbiguous(lib: Library, table: Table, g: GrantType, input: Input, i: string, j: string)
    requires Answers(lib, table, g, input, i)
    requires j in table && SameSecret(table[i], table[j]) && Live(table[j], input.now)
    ensures Answers(lib, table, g, input, j)
  {
  }

  // ------------------------------------------------- what is accepted, and as what

  /** A record that describes its own credential and is in order. */
  predicate IsInOrder(lib: Library, r: Record) {
    && r.agentDID != "" && r.credentialID != "" && r.createdAt != ZERO_TIME && r.createdAt < r.expiresAt
    && r.credential.credentialID == r.credentialID && lib.parseTime(r.credential.expiresAt) == Some(r.expiresAt) && lib.isValid(r.credential)
    && match r.credential
       case OAuthBearer(_, _, _, _) => r.grantType == "oauth-bearer"
       case APIKey(_, _, _, _, _) => r.grantType == "api-key"
       case Basic(_, _, _, _, _) => r.grantType == "basic"
  }

  /** What is kept of a record: its metadata, a live mark, and the hash of its secret. */
  predicate Keeps(lib: Library, r: Record, kept: Stored) {
    && kept.agentDID == r.agentDID && kept.credentialID == r.credentialID && kept.grantType == r.grantType
    && kept.expiresAt == r.expiresAt && kept.revokedAt == ZERO_TIME && kept.scopes == r.credential.scopes
    && match r.credential
       case OAuthBearer(token, _, _, _) => kept.header == "Authorization" && kept.verifier == lib.hash(token)
       case APIKey(header, key, _, _, _) => kept.header == lib.canonicalHeader(header) && kept.verifier == lib.hash(key)
       case Basic(user, password, _, _, _) => kept.header == "Authorization" && kept.verifier == lib.hash(lib.base64(user + ":" + password))
  }

  /** A credential is accepted exactly if its record is in order, its identifier is new,
      and nobody of its type holds its secret. */
  lemma AcceptedExactly(lib: Library, table: Table, r: Record, kept: Stored)
    requires Keeps(lib, r, kept)
    ensures Accepts(lib, table, r) <==>
            && IsInOrder(lib, r) && r.credentialID !in table
            && forall id :: id in table ==> !(table[id].grantType == kept.grantType && table[id].header == kept.header && table[id].verifier == kept.verifier)
    ensures Accepts(lib, table, r) ==> Saved(lib, table, r) == table[r.credentialID := kept]
  {
  }

  // ---------------------------------------- what a presentation comes down to

  predicate HasScheme(lib: Library, scheme: Scheme, value: string) {
    lib.parse(value).Some? && lib.parse(value).value.scheme == scheme
  }

  /** Among these values exactly the i-th has the scheme, and these are its credentials. */
  ghost predicate AloneAt(lib: Library, scheme: Scheme, values: seq<string>, i: nat, credentials: string) {
    && i < |values| && lib.parse(values[i]) == Some(Authorization(scheme, credentials))
    && forall j :: 0 <= j < |values| && j != i ==> !HasScheme(lib, scheme, values[j])
  }

  lemma {:induction false} NoSchemeValues(lib: Library, g: GrantType, values: seq<string>)
    ensures SchemeValues(lib, g, values) == [] <==> forall j :: 0 <= j < |values| ==> !HasScheme(lib, if g == "basic" then BasicScheme else Bearer, values[j])
  {
    if values != [] {
      NoSchemeValues(lib, g, values[1..]);
      assert forall j :: 0 <= j < |values| ==> values[j] == if j == 0 then values[0] else values[1..][j - 1];
    }
  }

  /** Basic credentials go with the Basic scheme, all others with Bearer. */
  lemma {:induction false} SchemeValuesMean(lib: Library, g: GrantType, values: seq<string>, c: string)
    ensures var scheme := if g == "basic" then BasicScheme else Bearer;
            SchemeValues(lib, g, values) == [c] <==> exists i: nat :: AloneAt(lib, scheme, values, i, c)
  {
    var scheme := if g == "basic" then BasicScheme else Bearer;
    if values != [] {
      var first, rest := values[0], values[1..];
      SchemeValuesMean(lib, g, rest, c);
      NoSchemeValues(lib, g, rest);
      assert forall j :: 0 < j < |values| ==> values[j] == rest[j - 1];
      if HasScheme(lib, scheme, first) {
        var own, others := lib.parse(first).value.credentials, SchemeValues(lib, g, rest);
        assert SchemeValues(lib, g, values) == [own] + others;
        if [own] + others == [c] {
          assert own == ([own] + others)[0] && others == ([own] + others)[1..];
        }
        forall i: nat | AloneAt(lib, scheme, values, i, c) ensures i == 0 {
        }
        assert AloneAt(lib, scheme, values, 0, c) <==>
               lib.parse(first).value.credentials == c && forall j :: 0 <= j < |rest| ==> !HasScheme(lib, scheme, rest[j]);
      } else {
        assert SchemeValues(lib, g, values) == SchemeValues(lib, g, rest);
        AloneLater(lib, scheme, values, c);
      }
    }
  }

  lemma AloneLater(lib: Library, scheme: Scheme, values: seq<string>, c: string)
    requires values != [] && !HasScheme(lib, scheme, values[0])
    ensures (exists i: nat :: AloneAt(lib, scheme, values, i, c)) <==> exists i: nat :: AloneAt(lib, scheme, values[1..], i, c)
  {
    var rest := values[1..];
    assert forall j :: 0 <= j < |rest| ==> rest[j] == values[j + 1];
    if i: nat :| AloneAt(lib, scheme, values, i, c) {
      assert AloneAt(lib, scheme, rest, i - 1, c);
    }
    if i: nat :| AloneAt(lib, scheme, rest, i, c) {
      assert AloneAt(lib, scheme, values, i + 1, c);
    }
  }

  /** The only value of the scheme is the secret of this record. */
  ghost predicate BringsValue(lib: Library, scheme: Scheme, input: Input, r: Stored) {
    r.header == "Authorization" &&
    exists i: nat, c :: AloneAt(lib, scheme, input.values("Authorization"), i, c) && r.verifier == lib.hash(c)
  }

  /** The request brings the secret of this record. */
  ghost predicate BringsUp(lib: Library, table: Table, g: GrantType, input: Input, r: Stored) {
    if g == "api-key" then
      exists h :: OnlyKeyIn(table, input, h) && r.header == lib.canonicalHeader(h) && r.verifier == lib.hash(input.values(h)[0])
    else if g == "basic" then BringsValue(lib, BasicScheme, input, r)
    else BringsValue(lib, Bearer, input, r)
  }

  /** A record answers exactly if it is of the type, unrevoked, unexpired, and its secret
      is what the request brings: the only API key, or the only value of its scheme. */
  lemma AnswersMean(lib: Library, table: Table, g: GrantType, input: Input, id: string)
    ensures Answers(lib, table, g, input, id) <==>
            && id in table && table[id].grantType == g && table[id].revokedAt == ZERO_TIME && input.now < table[id].expiresAt
            && BringsUp(lib, table, g, input, table[id])
  {
    if id in table {
      if g == API_KEY {
        KeysMean(lib, table, input, table[id]);
      } else {
        ValuesMean(lib, table, g, input, table[id]);
      }
    }
    hide Sole, BringsUp, NameSent, Offered;
  }

  /** The only API key that the request carries is in this header. */
  ghost predicate OnlyKeyIn(table: Table, input: Input, h: string) {
    && (exists id :: id in table && table[id].grantType == "api-key" && table[id].header == h)
    && |input.values(h)| == 1
    && forall id :: id in table && table[id].grantType == "api-key" && table[id].header != h ==> input.values(table[id].header) == []
  }

  lemma KeysMean(lib: Library, table: Table, input: Input, r: Stored)
    ensures BringsUp(lib, table, API_KEY, input, r) <==>
            exists h :: Sole(lib, table, API_KEY, input, h) && r.header == NameSent(lib, API_KEY, h) && r.verifier == lib.hash(Offered(lib, API_KEY, input, h)[0])
  {
    forall h ensures Sole(lib, table, API_KEY, input, h) <==> OnlyKeyIn(table, input, h) {
      assert forall id :: id in table && table[id].grantType == API_KEY ==> table[id].header in PresentingHeaders(table, API_KEY);
    }
    hide Sole, OnlyKeyIn;
  }

  lemma ValuesMean(lib: Library, table: Table, g: GrantType, input: Input, r: Stored)
    requires g != API_KEY
    ensures BringsUp(lib, table, g, input, r) <==>
            exists h :: Sole(lib, table, g, input, h) && r.header == NameSent(lib, g, h) && r.verifier == lib.hash(Offered(lib, g, input, h)[0])
  {
    SoleIsAlone(lib, table, g, input);
    BringingMeans(lib, g, input, r);
    hide Sole, SchemeValues, BringsValue;
    if |SchemeValues(lib, g, input.values(AUTHORIZATION))| == 1 {
      assert Sole(lib, table, g, input, AUTHORIZATION);
    }
  }

  lemma BringingMeans(lib: Library, g: GrantType, input: Input, r: Stored)
    ensures var values := SchemeValues(lib, g, input.values(AUTHORIZATION));
            BringsValue(lib, if g == "basic" then BasicScheme else Bearer, input, r) <==>
            r.header == "Authorization" && |values| == 1 && r.verifier == lib.hash(values[0])
  {
    var values, scheme := SchemeValues(lib, g, input.values(AUTHORIZATION)), if g == "basic" then BasicScheme else Bearer;
    hide SchemeValues, AloneAt;
    if BringsValue(lib, scheme, input, r) {
      var i: nat, c :| AloneAt(lib, scheme, input.values("Authorization"), i, c) && r.verifier == lib.hash(c);
      SchemeValuesMean(lib, g, input.values(AUTHORIZATION), c);
      assert values == [c];
    }
    if |values| == 1 {
      assert values == [values[0]];
      SchemeValuesMean(lib, g, input.values(AUTHORIZATION), values[0]);
      var i: nat :| AloneAt(lib, scheme, input.values("Authorization"), i, values[0]);
    }
  }

  lemma SoleIsAlone(lib: Library, table: Table, g: GrantType, input: Input)
    requires g != API_KEY
    ensures forall h :: Sole(lib, table, g, input, h) <==> h == AUTHORIZATION && |SchemeValues(lib, g, input.values(AUTHORIZATION))| == 1
  {
    hide SchemeValues;
  }

  // ------------------------------------------------------------- the store

  class MemoryServiceCredentialStore {
    const lib: Library
    var records: Table

    ghost predicate Valid()
      reads this
    {
      Unique(records) && Named(records)
    }

    constructor (lib: Library)
      ensures Valid() && records == map[] && this.lib == lib
    {
      this.lib := lib;
      records := map[];
    }

    method SaveCredential(record: Record) returns (saved: bool)
      requires Valid()
      modifies this
      ensures Valid()
      ensures saved <==> old(Accepts(lib, records, record))
      ensures records == old(Saved(lib, records, record))
    {
      var stored := Store(lib, record);
      if stored.Err? || record.credentialID in records { return false; }
      var left := records.Keys;
      while left != {}
        invariant left <= records.Keys
        invariant forall id :: id in records && id !in left ==> !SameSecret(records[id], stored.value)
      {
        var id :| id in left;
        if SameSecret(records[id], stored.value) { return false; }
        left := left - {id};
      }
      records := records[record.credentialID := stored.value];
      return true;
    }

    /** The presentations in one header. */
    method HeaderPresentations(input: Input, header: string) returns (result: seq<Presentation>)
      ensures |result| == |input.values(header)|
      ensures forall i :: 0 <= i < |result| ==> result[i] == Presentation(lib.canonicalHeader(header), input.values(header)[i])
    {
      result := [];
      var values := input.values(header);
      for i := 0 to |values|
        invariant |result| == i
        invariant forall k :: 0 <= k < i ==> result[k] == Presentation(lib.canonicalHeader(header), values[k])
      {
        result := result + [Presentation(lib.canonicalHeader(header), values[i])];
      }
    }

    /** The presentations in every header that API keys are sent in, in map order. */
    method APIKeyPresentations(input: Input) returns (presentations: seq<Presentation>, ghost source: string)
      ensures |presentations| == 1 <==> exists h :: Sole(lib, records, API_KEY, input, h)
      ensures |presentations| == 1 ==> Sole(lib, records, API_KEY, input, source) && ComesFrom(lib, input, presentations, source)
    {
      hide Counted, Sole;
      var headers := {};
      var left := records.Keys;
      while left != {}
        invariant left <= records.Keys
        invariant headers == set id | id in records && id !in left && records[id].grantType == API_KEY :: records[id].header
      {
        var id :| id in left;
        if records[id].grantType == API_KEY {
          headers := headers + {records[id].header};
        }
        left := left - {id};
      }
      assert headers == PresentingHeaders(records, API_KEY);
      presentations, source := [], "";
      CountNothing(input, "");
      ghost var done := {};
      while headers != {}
        invariant done !! headers && done + headers == PresentingHeaders(records, API_KEY)
        invariant Counted(input, done, |presentations|, source)
        invariant |presentations| == 1 ==> ComesFrom(lib, input, presentations, source)
        decreases headers
      {
        var header :| header in headers;
        var more := HeaderPresentations(input, header);
        CountOne(input, done, header, |presentations|, source, |presentations + more|);
        if |more| > 0 {
          source := header;
        }
        presentations := presentations + more;
        headers, done := headers - {header}, done + {header};
      }
      CountedIsSole(lib, records, input, |presentations|, source);
    }

    method AuthenticateCredential(g: GrantType, input: Input) returns (found: Option<Stored>)
      requires Valid()
      ensures found == Authenticate(lib, records, g, input)
    {
      var presentations := [];
      ghost var header := AUTHORIZATION;
      if g == API_KEY {
        presentations, header := APIKeyPresentations(input);
      } else {
        var values := SchemeValues(lib, g, input.values(AUTHORIZATION));
        for i := 0 to |values|
          invariant |presentations| == i
          invariant forall k :: 0 <= k < i ==> presentations[k] == Presentation(AUTHORIZATION, values[k])
        {
          presentations := presentations + [Presentation(AUTHORIZATION, values[i])];
        }
        assert Sole(lib, records, g, input, AUTHORIZATION) <==> |presentations| == 1;
      }
      if |presentations| != 1 { return None; }
      assert Sole(lib, records, g, input, header) && presentations[0] == Presentation(NameSent(lib, g, header), Offered(lib, g, input, header)[0]);
      var left := records.Keys;
      while left != {}
        invariant left <= records.Keys
        invariant forall id :: id in records && id !in left ==> !Answers(lib, records, g, input, id)
      {
        var id :| id in left;
        var record := records[id];
        if record.grantType != g || record.header != presentations[0].header || record.revokedAt != ZERO_TIME || !(record.expiresAt > input.now) {
          NotPresented(lib, records, g, input, header, id);
          left := left - {id};
          continue;
        }
        if lib.hash(presentations[0].value) == record.verifier {
          assert Answers(lib, records, g, input, id);
          AuthenticateIs(lib, records, g, input, id);
          return Some(record);
        }
        NotPresented(lib, records, g, input, header, id);
        left := left - {id};
      }
      return None;
    }

    method RevokeCredential(agentDID: string, g: GrantType, id: string, at: Time) returns (ok: bool)
      requires Valid()
      modifies this
      ensures Valid()
      ensures ok <==> at != ZERO_TIME
      ensures records == if ok then RevokedOne(old(records), agentDID, g, id, at) else old(records)
    {
      if at == ZERO_TIME { return false; }
      if id in records && records[id].agentDID == agentDID && records[id].grantType == g {
        records := records[id := records[id].(revokedAt := at)];
      }
      return true;
    }

    method RevokeGrantType(agentDID: string, g: GrantType, at: Time) returns (ok: bool)
      requires Valid()
      modifies this
      ensures Valid()
      ensures ok <==> at != ZERO_TIME
      ensures records == if ok then RevokedAll(old(records), agentDID, g, at) else old(records)
    {
      if at == ZERO_TIME { return false; }
      var left := records.Keys;
      while left != {}
        invariant left <= old(records).Keys
        invariant records.Keys == old(records).Keys
        invariant forall id :: id in left ==> records[id] == old(records)[id]
        invariant forall id | id in records && id !in left :: records[id] == Withdrawn(old(records)[id], agentDID, g, at)
      {
        var id :| id in left;
        if records[id].agentDID == agentDID && records[id].grantType == g {
          records := records[id := records[id].(revokedAt := at)];
        }
        left := left - {id};
      }
      assert records == RevokedAll(old(records), agentDID, g, at);
      return true;
    }
  }

  /** The only presentation is the only value of its header. */
  predicate ComesFrom(lib: Library, input: Input, presentations: seq<Presentation>, header: string) {
    && |presentations| == 1 && |input.values(header)| == 1
    && presentations[0] == Presentation(lib.canonicalHeader(header), input.values(header)[0])
  }

  /** The headers hold `n` values; if only one, `source` is its header. */
  ghost predicate Counted(input: Input, headers: set<string>, n: nat, source: string) {
    && (n == 0 <==> forall h :: h in headers ==> input.values(h) == [])
    && (n == 1 <==> exists h :: h in headers && LoneIn(input, headers, h))
    && (n == 1 ==> source in headers && LoneIn(input, headers, source))
  }

  ghost predicate LoneIn(input: Input, headers: set<string>, header: string) {
    |input.values(header)| == 1 && forall h :: h in headers && h != header ==> input.values(h) == []
  }

  lemma CountNothing(input: Input, source: string)
    ensures Counted(input, {}, 0, source)
  {
  }

  lemma CountedIsSole(lib: Library, table: Table, input: Input, n: nat, source: string)
    requires Counted(input, PresentingHeaders(table, API_KEY), n, source)
    ensures n == 1 <==> exists h :: Sole(lib, table, API_KEY, input, h)
    ensures n == 1 ==> Sole(lib, table, API_KEY, input, source)
  {
    assert forall h | h in PresentingHeaders(table, API_KEY) ::
        LoneIn(input, PresentingHeaders(table, API_KEY), h) <==> Sole(lib, table, API_KEY, input, h);
  }

  lemma CountOne(input: Input, headers: set<string>, header: string, n: nat, source: string, m: nat)
    requires header !in headers && Counted(input, headers, n, source) && m == n + |input.values(header)|
    ensures Counted(input, headers + {header}, m, if |input.values(header)| > 0 then header else source)
  {
    var all := headers + {header};
    var values := input.values(header);
    forall h | h in all && LoneIn(input, all, h) ensures m == 1 {
      if h == header {
        assert forall k :: k in headers ==> k in all && k != header;
      } else {
        assert header in all && values == [];
        assert LoneIn(input, headers, h);
      }
    }
    if m == 1 {
      if n == 1 {
        assert LoneIn(input, all, source);
      } else {
        assert LoneIn(input, all, header);
      }
    }
  }

  lemma NotPresented(lib: Library, table: Table, g: GrantType, input: Input, header: string, id: string)
    requires Sole(lib, table, g, input, header) && id in table
    requires || table[id].grantType != g || !Live(table[id], input.now)
             || table[id].header != NameSent(lib, g, header) || table[id].verifier != lib.hash(Offered(lib, g, input, header)[0])
    ensures !Answers(lib, table, g, input, id)
  {
    forall h | Sole(lib, table, g, input, h) ensures h == header {
      SoleHeaderIsOne(lib, table, g, input, h, header);
    }
  }

  lemma AuthenticateIs(lib: Library, table: Table, g: GrantType, input: Input, id: string)
    requires Unique(table) && Answers(lib, table, g, input, id)
    ensures Authenticate(lib, table, g, input) == Some(table[id])
  {
    forall j | Answers(lib, table, g, input, j) ensures j == id {
      OneRecordAnswers(lib, table, g, input, j, id);
    }
  }
}
