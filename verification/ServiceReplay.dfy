/** Assertion authentication on the Service: the checks on the claims, then one
consumption of the replay store.

Every command reads its clock before it reaches the store, so consumptions need not
come in the order of their clocks.  A run is the sequence of attempts in the order
in which they take the store's lock.  The verifier is the caller's: it may return
any claims.  */
module ServiceReplay {
  import opened Prelude
  import opened AssertionWindow

  datatype Claims = Claims(
    issuer: string,
    subject: string,
    audience: string,
    operation: string,
    resource: string,
    jwtID: string,
    issuedAt: int64,
    expiresAt: int64)

  /** Members of the unverified header that are strings. */
  datatype Header = Header(alg: Option<string>, typ: Option<string>, kid: Option<string>)

  datatype Config = Config(
    serviceDID: string,
    methods: seq<string>,
    algorithms: seq<string>,
    skew: int64,
    lifetime: int64,
    isProtectedURI: string -> bool)

  datatype Attempt = Attempt(
    presented: bool,            // an assertion was sent at all
    verified: Option<Claims>,   // what the verifier returned
    header: Option<Header>,     // what the unverified decoding returned
    operation: string,
    resource: string,
    now: int64)

  datatype ReplayRecord = ReplayRecord(subject: string, jwtID: string, expiresAt: int64)

  type Table = map<string, ReplayRecord>

  /** ValidateClientAssertionClaims. */
  predicate ValidClaims(config: Config, c: Claims) {
    && c.issuer != "" && c.subject != "" && c.issuer == c.subject && c.audience != "" && c.jwtID != ""
    && IsAssertionOperation(c.operation)
    && (if c.operation == AUTHENTICATE then config.isProtectedURI(c.resource) else c.resource == "")
    && ValidTimes(c.issuedAt, c.expiresAt)
  }

  /** "did:" and the method name of a DID with at least two colons, "" otherwise. */
  function IdentityMethod(did: string): string {
    var first := IndexOf(did, ':');
    if first == |did| then ""
    else
      var rest := did[first + 1..];
      var second := IndexOf(rest, ':');
      if second == |rest| || did[..first] != "did" || second == 0 then "" else "did:" + rest[..second]
  }

  function BeforeHash(keyID: string): string {
    keyID[..IndexOf(keyID, '#')]
  }

  predicate HeaderNames(config: Config, h: Header, subject: string) {
    && h.alg.Some? && h.alg.value in config.algorithms
    && h.typ == Some("JWT")
    && h.kid.Some? && BeforeHash(h.kid.value) == subject
  }

  /** validAssertion. */
  predicate ValidAssertion(config: Config, a: Attempt, c: Claims) {
    && ValidClaims(config, c)
    && c.audience == config.serviceDID && c.operation == a.operation && c.resource == a.resource
    && IdentityMethod(c.subject) in config.methods
    && a.header.Some? && HeaderNames(config, a.header.value, c.subject)
    && ServiceWindow(c.issuedAt, c.expiresAt, a.now, config.skew, config.lifetime)
  }

  /** The attempt reaches the replay store. */
  predicate Passes(config: Config, a: Attempt) {
    && a.presented && a.verified.Some?
    && ValidAssertion(config, a, a.verified.value)
    && a.verified.value.expiresAt as int + config.skew as int <= MAX_INT64 as int
  }

  function Submission(config: Config, a: Attempt): ReplayRecord
    requires Passes(config, a)
  {
    var c := a.verified.value;
    ReplayRecord(c.subject, c.jwtID, c.expiresAt + config.skew)
  }

  // -------------------------------------------- the checks, one by one

  /** The header names the algorithm, the type and the key, whose DID is the subject's. */
  predicate IsSignedBy(config: Config, h: Header, subject: string) {
    && h.alg.Some? && h.alg.value in config.algorithms && h.typ == Some("JWT") && h.kid.Some?
    && '#' !in subject && subject <= h.kid.value && (|h.kid.value| > |subject| ==> h.kid.value[|subject|] == '#')
  }

  lemma KeyIDsMean(config: Config, h: Header, subject: string)
    ensures HeaderNames(config, h, subject) <==> IsSignedBy(config, h, subject)
  {
    if h.kid.Some? {
      var kid := h.kid.value;
      var cut := IndexOf(kid, '#');
      if '#' !in subject && subject <= kid {
        if |kid| > |subject| && kid[|subject|] == '#' {
          assert kid[..|subject|] == subject;
          IndexOfFirst(kid, '#', |subject|);
        } else if |kid| == |subject| {
          assert kid == subject && kid[..cut] <= kid;
        }
      }
    }
  }

  /** The method of a DID is what stands between its first two colons; a text without such
      a part has none. */
  lemma MethodsMean(did: string, name: string, rest: string)
    requires name != "" && ':' !in name
    ensures IdentityMethod("did:" + name + ":" + rest) == "did:" + name
    ensures IdentityMethod(did) == "did:" + name ==> "did:" + name + ":" <= did
    ensures IdentityMethod(did) == "" || exists n :: n != "" && ':' !in n && IdentityMethod(did) == "did:" + n
  {
    MethodHasAName(did);
    var whole, after := "did:" + name + ":" + rest, name + ":" + rest;
    assert whole[3] == ':' && whole[4..] == after && whole[..3] == "did";
    assert after[|name|] == ':' && after[..|name|] == name;
    MethodOfParts(whole, 3, |name|);
    MethodIsPrefix(did, name);
  }

  lemma MethodHasAName(did: string)
    ensures IdentityMethod(did) == "" || exists n :: n != "" && ':' !in n && IdentityMethod(did) == "did:" + n
  {
    var first := IndexOf(did, ':');
    if first < |did| {
      var tail := did[first + 1..];
      var n := tail[..IndexOf(tail, ':')];
      assert ':' !in n;
    }
  }

  lemma MethodOfParts(did: string, first: nat, second: nat)
    requires first < |did| && did[first] == ':' && did[..first] == "did"
    requires 0 < second < |did| - first - 1 && did[first + 1..][second] == ':' && ':' !in did[first + 1..][..second]
    ensures IdentityMethod(did) == "did:" + did[first + 1..][..second]
  {
    assert ':' !in "did";
    IndexOfFirst(did, ':', first);
    IndexOfFirst(did[first + 1..], ':', second);
  }

  lemma MethodIsPrefix(did: string, name: string)
    requires name != ""
    ensures IdentityMethod(did) == "did:" + name ==> "did:" + name + ":" <= did
  {
    var first := IndexOf(did, ':');
    if first < |did| {
      var tail := did[first + 1..];
      var second := IndexOf(tail, ':');
      if second < |tail| && did[..first] == "did" && IdentityMethod(did) == "did:" + name {
        assert ("did:" + tail[..second])[4..] == tail[..second] && ("did:" + name)[4..] == name;
        assert did == "did" + ":" + tail[..second] + ":" + tail[second + 1..];
      }
    }
  }

  /** Everything that an assertion must say before the store is asked: it is this agent's,
      for this Service, operation and resource, signed as advertised, and in its window. */
  lemma PassesExactly(config: Config, a: Attempt)
    ensures Passes(config, a) <==>
            && a.presented && a.verified.Some? && a.header.Some?
            && var c := a.verified.value;
               && c.issuer == c.subject != "" && c.audience == config.serviceDID != "" && c.jwtID != ""
               && c.operation == a.operation && c.operation in {"enroll", "grant", "revoke", "status", "authenticate"}
               && c.resource == a.resource && (if c.operation == "authenticate" then config.isProtectedURI(c.resource) else c.resource == "")
               && IdentityMethod(c.subject) in config.methods && IsSignedBy(config, a.header.value, c.subject)
               && var lifetime := c.expiresAt as int - c.issuedAt as int;
                  && 0 < lifetime <= 300 && lifetime <= config.lifetime as int
                  && a.now as int + config.skew as int >= c.issuedAt as int && a.now as int - (config.skew as int) < c.expiresAt as int
                  && c.issuedAt as int + config.lifetime as int < 0x8000_0000_0000_0000
                  && c.expiresAt as int + config.skew as int < 0x8000_0000_0000_0000
  {
    if a.verified.Some? && a.header.Some? {
      KeyIDsMean(config, a.header.value, a.verified.value.subject);
    }
    hide HeaderNames, IsSignedBy, IdentityMethod;
  }

  // ------------------------------------------------------------- the store

  function Key(r: ReplayRecord): string {
    r.subject + NUL + r.jwtID
  }

  function Swept(records: Table, now: int64): Table {
    map k | k in records && records[k].expiresAt > now :: records[k]
  }

  function Consume(records: Table, r: ReplayRecord, now: int64): Table {
    if Key(r) in Swept(records, now) then Swept(records, now) else Swept(records, now)[Key(r) := r]
  }

  class MemoryReplayStore {
    var records: Table

    constructor ()
      ensures records == map[]
    {
      records := map[];
    }

    /** Prunes while ranging over the map, in whatever order the map yields. */
    method ConsumeReplay(record: ReplayRecord, now: int64) returns (result: Result<bool>)
      modifies this
      ensures result.Err? <==> record.subject == "" || record.jwtID == "" || record.expiresAt <= now
      ensures result.Err? ==> records == old(records)
      ensures result.Ok? ==> records == Consume(old(records), record, now)
      ensures result.Ok? ==> result.value == (Key(record) !in Swept(old(records), now))
    {
      if record.subject == "" || record.jwtID == "" || record.expiresAt <= now {
        return Err("invalid record");
      }
      var left := records.Keys;
      while left != {}
        invariant left <= old(records).Keys
        invariant records == map k | k in old(records) && (k in left || old(records)[k].expiresAt > now) :: old(records)[k]
      {
        var existing :| existing in left;
        if records[existing].expiresAt <= now {
          records := records - {existing};
        }
        left := left - {existing};
      }
      assert records == Swept(old(records), now);
      if Key(record) in records {
        return Ok(false);
      }
      records := records[Key(record) := record];
      return Ok(true);
    }
  }

  // ------------------------------------------------- authenticateAssertion

  method CheckAssertion(config: Config, a: Attempt, c: Claims) returns (valid: bool)
    requires ServiceLimits(config.skew, config.lifetime)
    ensures valid <==> ValidAssertion(config, a, c)
  {
    if !ValidClaims(config, c) { return false; }
    if c.issuer != c.subject || c.audience != config.serviceDID || c.operation != a.operation || c.resource != a.resource {
      return false;
    }
    if IdentityMethod(c.subject) !in config.methods || a.header.None? { return false; }
    if !HeaderNames(config, a.header.value, c.subject) { return false; }
    valid := InsideServiceWindow(c.issuedAt, c.expiresAt, a.now, config.skew, config.lifetime);
  }

  /** `Err` would be the replay store's error; no attempt ever causes it. */
  method AuthenticateAssertion(config: Config, store: MemoryReplayStore, a: Attempt) returns (result: Result<Option<Claims>>)
    requires ServiceLimits(config.skew, config.lifetime)
    modifies store
    ensures result.Ok?
    ensures store.records == Next(config, old(store.records), a)
    ensures result.value == if Recognizes(config, old(store.records), a) then a.verified else None
  {
    if !a.presented { return Ok(None); }
    if a.verified.None? { return Ok(None); }
    var claims := a.verified.value;
    var valid := CheckAssertion(config, a, claims);
    if !valid { return Ok(None); }
    if claims.expiresAt > MAX_INT64 - config.skew { return Ok(None); }
    var record := ReplayRecord(claims.subject, claims.jwtID, claims.expiresAt + config.skew);
    var consumed := store.ConsumeReplay(record, a.now);
    if consumed.Err? { return Err("replay store failed"); }
    if !consumed.value { return Ok(None); }
    return Ok(Some(claims));
  }

  predicate Recognizes(config: Config, records: Table, a: Attempt) {
    Passes(config, a) && Key(Submission(config, a)) !in Swept(records, a.now)
  }

  function Next(config: Config, records: Table, a: Attempt): Table {
    if Passes(config, a) then Consume(records, Submission(config, a), a.now) else records
  }

  // ------------------------------------------------------------- the runs

  function After(config: Config, run: seq<Attempt>): Table {
    if run == [] then map[] else Next(config, After(config, run[..|run| - 1]), run[|run| - 1])
  }

  predicate Accepted(config: Config, run: seq<Attempt>, j: nat)
    requires j < |run|
  {
    Recognizes(config, After(config, run[..j]), run[j])
  }

  predicate SameKey(config: Config, a: Attempt, b: Attempt) {
    Passes(config, a) && Passes(config, b) && Key(Submission(config, a)) == Key(Submission(config, b))
  }

  /** Some attempt after `i` and before `n` swept what `i` had stored. */
  ghost predicate Forgotten(config: Config, run: seq<Attempt>, i: nat, n: nat)
    requires i < n <= |run| && Passes(config, run[i])
  {
    exists k :: i < k < n && Passes(config, run[k]) && run[k].now >= Submission(config, run[i]).expiresAt
  }

  /** `i` was accepted, under this key, and its record is still there after `n` attempts. */
  ghost predicate Remembers(config: Config, run: seq<Attempt>, key: string, i: nat, n: nat)
    requires i < n <= |run|
  {
    && Accepted(config, run, i)
    && Key(Submission(config, run[i])) == key
    && !Forgotten(config, run, i, n)
  }

  /** What the store holds after `n` attempts, in terms of the run alone. */
  lemma {:induction false} StoreRemembers(config: Config, run: seq<Attempt>, n: nat, key: string)
    requires n <= |run|
    ensures key in After(config, run[..n]) <==> exists i: nat :: i < n && Remembers(config, run, key, i, n)
    ensures forall i: nat | i < n && Remembers(config, run, key, i, n) ::
              key in After(config, run[..n]) && After(config, run[..n])[key] == Submission(config, run[i])
  {
    if n > 0 {
      var m := n - 1;
      StoreRemembers(config, run, m, key);
      assert run[..n][..m] == run[..m] && run[..n][m] == run[m];
      hide Forgotten, Passes, Submission, Remembers, After;
      forall i: nat | i < m && Passes(config, run[i])
        ensures Forgotten(config, run, i, n) <==>
                Forgotten(config, run, i, m) || (Passes(config, run[m]) && run[m].now >= Submission(config, run[i]).expiresAt)
      {
        ForgottenByTheLast(config, run, i, m, n);
      }
      LastAttempt(config, run, m, n, key);
    }
  }

  lemma ForgottenByTheLast(config: Config, run: seq<Attempt>, i: nat, m: nat, n: nat)
    requires i < m < |run| && n == m + 1 && Passes(config, run[i])
    ensures Forgotten(config, run, i, n) <==>
            Forgotten(config, run, i, m) || (Passes(config, run[m]) && run[m].now >= Submission(config, run[i]).expiresAt)
  {
    hide Passes, Submission;
  }

  /** One more attempt, given what the store remembers before it. */
  lemma LastAttempt(config: Config, run: seq<Attempt>, m: nat, n: nat, key: string)
    requires m < |run| && n == m + 1 && run[..n][..m] == run[..m] && run[..n][m] == run[m]
    requires key in After(config, run[..m]) <==> exists i: nat :: i < m && Remembers(config, run, key, i, m)
    requires forall i: nat | i < m && Remembers(config, run, key, i, m) ::
               key in After(config, run[..m]) && After(config, run[..m])[key] == Submission(config, run[i])
    requires forall i: nat | i < m && Passes(config, run[i]) ::
               Forgotten(config, run, i, n) <==>
               Forgotten(config, run, i, m) || (Passes(config, run[m]) && run[m].now >= Submission(config, run[i]).expiresAt)
    ensures key in After(config, run[..n]) <==> exists i: nat :: i < n && Remembers(config, run, key, i, n)
    ensures forall i: nat | i < n && Remembers(config, run, key, i, n) ::
              key in After(config, run[..n]) && After(config, run[..n])[key] == Submission(config, run[i])
  {
    hide Passes, Submission;
    var before, after, a := After(config, run[..m]), After(config, run[..n]), run[m];
    assert after == Next(config, before, a);
    assert Accepted(config, run, m) <==> Recognizes(config, before, a);
    forall i: nat | i < n && Remembers(config, run, key, i, n)
      ensures key in after && after[key] == Submission(config, run[i])
    {
      if i < m { assert Remembers(config, run, key, i, m); }
    }
    if key in after {
      if Passes(config, a) && Key(Submission(config, a)) == key && key !in Swept(before, a.now) {
        assert Remembers(config, run, key, m, n);
      } else {
        var i: nat :| i < m && Remembers(config, run, key, i, m);
        assert Remembers(config, run, key, i, n);
      }
    }
  }

  /** Exactly when an attempt is recognised, whatever the order of the clocks: it
      passes the checks, and every earlier acceptance under its key has since been
      swept, by an attempt up to and including this one. */
  lemma AcceptedExactly(config: Config, run: seq<Attempt>, j: nat)
    requires j < |run|
    ensures Accepted(config, run, j) <==>
            && Passes(config, run[j])
            && forall i: nat | i < j && Accepted(config, run, i) && SameKey(config, run[i], run[j]) ::
                 Forgotten(config, run, i, j + 1)
  {
    if Passes(config, run[j]) {
      var key := Key(Submission(config, run[j]));
      var before := After(config, run[..j]);
      StoreRemembers(config, run, j, key);
      hide Passes, Submission, After, Forgotten;
      if key in Swept(before, run[j].now) {
        var i: nat :| i < j && Remembers(config, run, key, i, j);
        ForgottenByTheLast(config, run, i, j, j + 1);
        assert before[key] == Submission(config, run[i]);
      }
      forall i: nat | Accepted(config, run, j) && i < j && Accepted(config, run, i) && SameKey(config, run[i], run[j])
        ensures Forgotten(config, run, i, j + 1)
      {
        ForgottenByTheLast(config, run, i, j, j + 1);
        if !Forgotten(config, run, i, j) {
          assert Remembers(config, run, key, i, j);
          assert run[j].now >= Submission(config, run[i]).expiresAt;
        }
      }
    }
  }

  // ------------------------------------------------- nondecreasing clocks

  /** Clocks never go back between attempts that reach the store. */
  ghost predicate Ordered(config: Config, run: seq<Attempt>) {
    forall i, j | 0 <= i < j < |run| && Passes(config, run[i]) && Passes(config, run[j]) :: run[i].now <= run[j].now
  }

  /** Two acceptances for one subject and JWT identifier are at least the first
      one's expiry, with its tolerance, apart. */
  lemma AcceptancesAreSeparated(config: Config, run: seq<Attempt>, i: nat, j: nat)
    requires Ordered(config, run) && i < j < |run|
    requires Accepted(config, run, i) && Accepted(config, run, j)
    requires run[i].verified.value.subject == run[j].verified.value.subject
    requires run[i].verified.value.jwtID == run[j].verified.value.jwtID
    ensures run[j].now as int >= run[i].verified.value.expiresAt as int + config.skew as int
  {
    AcceptedExactly(config, run, j);
    assert SameKey(config, run[i], run[j]);
  }

  /** And no further: the next assertion under the key that passes the checks is accepted
      exactly from that moment on. */
  lemma NextUseExactly(config: Config, run: seq<Attempt>, i: nat, j: nat)
    requires Ordered(config, run) && i < j < |run|
    requires Accepted(config, run, i) && SameKey(config, run[i], run[j])
    requires forall k: nat | i < k < j && Accepted(config, run, k) :: !SameKey(config, run[k], run[j])
    ensures Accepted(config, run, j) <==> run[j].now as int >= run[i].verified.value.expiresAt as int + config.skew as int
  {
    AcceptedExactly(config, run, j);
    hide Accepted, Passes;
    forall h: nat | h < i && Accepted(config, run, h) && SameKey(config, run[h], run[j])
      ensures Forgotten(config, run, h, j + 1)
    {
      AcceptedExactly(config, run, i);
      assert SameKey(config, run[h], run[i]);
      StaysForgotten(config, run, h, i + 1, j + 1);
    }
    assert Forgotten(config, run, i, j + 1) <==> run[j].now >= Submission(config, run[i]).expiresAt;
  }

  lemma StaysForgotten(config: Config, run: seq<Attempt>, i: nat, m: nat, n: nat)
    requires i < m <= n <= |run| && Passes(config, run[i]) && Forgotten(config, run, i, m)
    ensures Forgotten(config, run, i, n)
  {
    hide Passes;
  }

  /** The claims of one assertion are accepted at most once in a run. */
  lemma AcceptedAtMostOnce(config: Config, run: seq<Attempt>, i: nat, j: nat)
    requires Ordered(config, run) && i < |run| && j < |run|
    requires Accepted(config, run, i) && Accepted(config, run, j) && run[i].verified == run[j].verified
    ensures i == j
  {
    if i < j {
      AcceptancesAreSeparated(config, run, i, j);
      assert false;
    } else if j < i {
      AcceptancesAreSeparated(config, run, j, i);
      assert false;
    }
  }

  /** Forgetting is safe: once a record has been swept, its assertion is out of its
      window for every later attempt. */
  lemma ForgottenMeansExpired(config: Config, run: seq<Attempt>, i: nat, j: nat)
    requires Ordered(config, run) && i < j < |run| && Passes(config, run[i]) && Forgotten(config, run, i, j)
    requires run[j].verified == run[i].verified
    ensures !Passes(config, run[j])
  {
  }

  /** The order matters: an attempt with a late clock that overtakes one with an
      early clock makes the store forget, and the same assertion passes again. */
  lemma OutOfOrderReplay(config: Config, a: Attempt, b: Attempt)
    requires Passes(config, a) && Passes(config, b) && !SameKey(config, a, b)
    requires b.now >= Submission(config, a).expiresAt
    ensures Accepted(config, [a, b, a], 0) && Accepted(config, [a, b, a], 2)
  {
    var run := [a, b, a];
    AcceptedExactly(config, run, 0);
    assert run[2] == a && run[1] == b;
    assert Forgotten(config, run, 0, 3);
    AcceptedExactly(config, run, 2);
  }

  /** A first assertion, valid for its first hundred seconds, and a second that takes
      over at that moment, meet these conditions. */
  lemma OutOfOrderExample(config: Config)
    requires IsExample(config)
    ensures var a, b := ExampleAttempt("1", 0), ExampleAttempt("2", 100);
            Accepted(config, [a, b, a], 0) && Accepted(config, [a, b, a], 2)
  {
    hide Passes, Accepted, Submission;
    var a, b := ExampleAttempt("1", 0), ExampleAttempt("2", 100);
    ExamplePasses(config, "1", 0);
    ExamplePasses(config, "2", 100);
    LastOctetsDiffer("did:web:a" + NUL, "1", "2");
    assert b.now == 100;
    hide ExampleAttempt;
    OutOfOrderReplay(config, a, b);
  }

  predicate IsExample(config: Config) {
    config.serviceDID == "did:web:s" && config.methods == ["did:web"] && config.algorithms == ["EdDSA"] && config.skew == 0 && config.lifetime == 300
  }

  lemma LastOctetsDiffer(front: string, a: string, b: string)
    requires |a| == |b| == 1 && a != b
    ensures front + a != front + b
  {
    assert (front + a)[|front|] == a[0] && (front + b)[|front|] == b[0];
  }

  /** An enroll assertion that is issued now and valid for a hundred seconds. */
  function ExampleAttempt(jwtID: string, now: int64): Attempt
    requires 0 <= now <= 1000
  {
    var claims := Claims("did:web:a", "did:web:a", "did:web:s", "enroll", "", jwtID, now, now + 100);
    Attempt(true, Some(claims), Some(Header(Some("EdDSA"), Some("JWT"), Some("did:web:a"))), "enroll", "", now)
  }

  lemma ExamplePasses(config: Config, jwtID: string, now: int64)
    requires 0 <= now <= 1000 && |jwtID| == 1 && IsExample(config)
    ensures var a := ExampleAttempt(jwtID, now);
            && Passes(config, a) && Submission(config, a).expiresAt == now + 100
            && Key(Submission(config, a)) == "did:web:a" + NUL + jwtID
  {
    hide IdentityMethod, HeaderNames, ValidClaims;
    NamesOfTheExample("did:web:a");
    var a := ExampleAttempt(jwtID, now);
    var c := a.verified.value;
    ExampleClaims(config, c, now);
    ExampleHeader(config, a.header.value, c.subject);
    assert ValidAssertion(config, a, c);
    hide ValidAssertion;
  }

  lemma ExampleClaims(config: Config, c: Claims, now: int64)
    requires 0 <= now <= 1000 && |c.jwtID| == 1
    requires c == Claims("did:web:a", "did:web:a", "did:web:s", "enroll", "", c.jwtID, now, now + 100)
    ensures ValidClaims(config, c)
  {
  }

  lemma ExampleHeader(config: Config, h: Header, subject: string)
    requires config.algorithms == ["EdDSA"] && subject == "did:web:a"
    requires h == Header(Some("EdDSA"), Some("JWT"), Some(subject))
    ensures HeaderNames(config, h, subject)
  {
    NamesOfTheExample(subject);
    hide BeforeHash, IdentityMethod;
  }

  lemma NamesOfTheExample(did: string)
    requires did == "did:web:a"
    ensures IdentityMethod(did) == "did:web" && BeforeHash(did) == did
  {
    IndexOfFirst(did, ':', 3);
    var rest := did[4..];
    IndexOfFirst(rest, ':', 3);
    assert rest[..3] == "web" && did[..3] == "did";
    assert forall k :: 0 <= k < |did| ==> did[k] != '#';
    assert did[..|did|] == did;
  }

  // ---------------------------------------------------------- store keys

  /** The key separates its two parts as long as no subject holds the separator. */
  lemma KeysSeparate(r: ReplayRecord, s: ReplayRecord)
    requires NUL[0] !in r.subject && NUL[0] !in s.subject
    ensures Key(r) == Key(s) <==> r.subject == s.subject && r.jwtID == s.jwtID
  {
    if Key(r) == Key(s) {
      var key := Key(r);
      assert key[|r.subject|] == NUL[0] && key[|s.subject|] == NUL[0];
      assert r.subject == key[..|r.subject|] && s.subject == key[..|s.subject|];
      assert r.jwtID == key[|r.subject| + 1..] && s.jwtID == key[|s.subject| + 1..];
    }
  }
}
