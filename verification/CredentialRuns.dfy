/** Every sequence of operations on one credential store.

Each operation holds the store's lock for its whole effect, so an interleaving is a
sequence.  */
module CredentialRuns {
  import opened Prelude
  import opened Credentials

  datatype Op =
    | Save(record: Record)
    | RevokeOne(agentDID: string, grantType: GrantType, id: string, at: Time)
    | RevokeAll(agentDID: string, grantType: GrantType, at: Time)

  ghost function Apply(lib: Library, table: Table, op: Op): Table {
    match op
    case Save(record) => Saved(lib, table, record)
    case RevokeOne(agentDID, g, id, at) => if at == ZERO_TIME then table else RevokedOne(table, agentDID, g, id, at)
    case RevokeAll(agentDID, g, at) => if at == ZERO_TIME then table else RevokedAll(table, agentDID, g, at)
  }

  ghost function After(lib: Library, table: Table, run: seq<Op>): Table {
    if run == [] then table else Apply(lib, After(lib, table, run[..|run| - 1]), run[|run| - 1])
  }

  ghost predicate Valid(table: Table) {
    Unique(table) && Named(table)
  }

  /** Nothing is forgotten: of a stored record only the revocation time can change,
      and never back to none. */
  ghost predicate Extends(t: Table, u: Table) {
    forall id :: id in t ==>
      && id in u
      && u[id] == t[id].(revokedAt := u[id].revokedAt)
      && (t[id].revokedAt != ZERO_TIME ==> u[id].revokedAt != ZERO_TIME)
  }

  lemma ApplyKeepsValid(lib: Library, t: Table, op: Op)
    requires Valid(t)
    ensures Valid(Apply(lib, t, op)) && Extends(t, Apply(lib, t, op))
  {
    if op.Save? {
      SaveKeepsValid(lib, t, op.record);
    } else {
      RevokeKeepsValid(lib, t, op);
    }
  }

  lemma SaveKeepsValid(lib: Library, t: Table, r: Record)
    requires Valid(t)
    ensures Valid(Saved(lib, t, r)) && Extends(t, Saved(lib, t, r))
  {
    if Accepts(lib, t, r) {
      var stored := Store(lib, r).value;
      var u := t[r.credentialID := stored];
      hide Store;
      forall i, j | i in u && j in u && SameSecret(u[i], u[j]) ensures i == j {
        if i == r.credentialID || j == r.credentialID {
          assert forall id :: id in t ==> !SameSecret(t[id], stored) && !SameSecret(stored, t[id]);
        }
      }
    }
  }

  lemma RevokeKeepsValid(lib: Library, t: Table, op: Op)
    requires Valid(t) && !op.Save?
    ensures Valid(Apply(lib, t, op)) && Extends(t, Apply(lib, t, op))
  {
    var u := Apply(lib, t, op);
    assert u.Keys == t.Keys;
    assert forall id :: id in t ==> u[id] == t[id].(revokedAt := u[id].revokedAt);
    forall i, j | i in u && j in u && SameSecret(u[i], u[j]) ensures i == j {
      assert SameSecret(t[i], t[j]);
    }
  }

  lemma ExtendsTransitive(t: Table, u: Table, v: Table)
    requires Extends(t, u) && Extends(u, v)
    ensures Extends(t, v)
  {
  }

  lemma {:induction false} RunKeepsValid(lib: Library, table: Table, run: seq<Op>)
    requires Valid(table)
    ensures Valid(After(lib, table, run)) && Extends(table, After(lib, table, run))
  {
    if run != [] {
      hide Valid, Extends, Apply;
      var n := |run| - 1;
      RunKeepsValid(lib, table, run[..n]);
      ApplyKeepsValid(lib, After(lib, table, run[..n]), run[n]);
      ExtendsTransitive(table, After(lib, table, run[..n]), After(lib, table, run));
    } else {
      assert After(lib, table, run) == table;
    }
  }

  /** A request presents the secret behind a record. */
  ghost predicate Presents(lib: Library, table: Table, g: GrantType, input: Input, r: Stored) {
    exists header :: Sole(lib, table, g, input, header)
                  && r.grantType == g && r.header == NameSent(lib, g, header)
                  && r.verifier == lib.hash(Offered(lib, g, input, header)[0])
  }

  lemma OnlyTheHolderAnswers(lib: Library, table: Table, g: GrantType, input: Input, id: string, j: string)
    requires Unique(table) && id in table && Presents(lib, table, g, input, table[id])
    requires Answers(lib, table, g, input, j)
    ensures j == id
  {
    hide Live, NameSent, Offered;
    var h :| Sole(lib, table, g, input, h) && table[id].header == NameSent(lib, g, h) && table[id].verifier == lib.hash(Offered(lib, g, input, h)[0]);
    var k :| Sole(lib, table, g, input, k) && table[j].header == NameSent(lib, g, k) && table[j].verifier == lib.hash(Offered(lib, g, input, k)[0]);
    SoleHeaderIsOne(lib, table, g, input, h, k);
    assert SameSecret(table[id], table[j]);
  }

  /** Once the record behind a secret is revoked, by identifier or by grant type, no
      request that presents the secret authenticates again, at any time and whatever
      is saved or revoked in between. */
  lemma RevokedNeverAuthenticates(lib: Library, table: Table, more: seq<Op>, id: string, g: GrantType, input: Input)
    requires Valid(table) && id in table && table[id].revokedAt != ZERO_TIME
    requires Presents(lib, After(lib, table, more), g, input, table[id])
    ensures Authenticate(lib, After(lib, table, more), g, input) == None
  {
    RunKeepsValid(lib, table, more);
    var later := After(lib, table, more);
    assert Presents(lib, later, g, input, later[id]);
    forall j | Answers(lib, later, g, input, j) ensures j == id {
      OnlyTheHolderAnswers(lib, later, g, input, id, j);
    }
    assert !Answers(lib, later, g, input, id);
  }

  /** Nor can the secret be issued a second time, to anyone. */
  lemma RevokedSecretsAreNotReissued(lib: Library, table: Table, more: seq<Op>, id: string, r: Record)
    requires Valid(table) && id in table && Store(lib, r).Ok? && SameSecret(table[id], Store(lib, r).value)
    ensures !Accepts(lib, After(lib, table, more), r)
  {
    RunKeepsValid(lib, table, more);
    hide Store;
    assert SameSecret(After(lib, table, more)[id], Store(lib, r).value);
  }

  /** The operation withdraws this credential of this agent, by name or with all others
      of its type. */
  predicate Withdraws(op: Op, agentDID: string, g: GrantType, id: string) {
    !op.Save? && op.agentDID == agentDID && op.grantType == g && op.at != ZERO_TIME && (op.RevokeOne? ==> op.id == id)
  }

  lemma WithdrawsExactly(lib: Library, table: Table, op: Op, id: string)
    requires id in table
    ensures var u := Apply(lib, table, op);
            id in u && u[id] == if Withdraws(op, table[id].agentDID, table[id].grantType, id) then table[id].(revokedAt := op.at) else table[id]
  {
    hide Store;
  }

  /** A credential is revoked exactly by the operations that withdraw it, and nothing else
      changes a stored record: a Revoke of one agent, type or credential leaves all others
      as they are. */
  lemma {:induction false} RevokedExactly(lib: Library, table: Table, run: seq<Op>, id: string)
    requires id in table
    ensures id in After(lib, table, run)
    ensures var r, last := table[id], After(lib, table, run)[id];
            && last == r.(revokedAt := last.revokedAt)
            && (last.revokedAt != ZERO_TIME <==> r.revokedAt != ZERO_TIME || exists op :: op in run && Withdraws(op, r.agentDID, r.grantType, id))
            && ((forall op | op in run :: !Withdraws(op, r.agentDID, r.grantType, id)) ==> last == r)
  {
    if run != [] {
      hide Apply, Withdraws;
      var n := |run| - 1;
      RevokedExactly(lib, table, run[..n], id);
      WithdrawsExactly(lib, After(lib, table, run[..n]), run[n], id);
      assert run == run[..n] + [run[n]];
      assert forall op :: op in run <==> op in run[..n] || op == run[n];
      WithdrawalHasATime(run[n], table[id].agentDID, table[id].grantType, id);
    }
  }

  lemma WithdrawalHasATime(op: Op, agentDID: string, g: GrantType, id: string)
    ensures Withdraws(op, agentDID, g, id) ==> !op.Save? && op.at != ZERO_TIME
  {
  }

  /** How a request presents an issued credential: a bearer token or an encoded pair as
      the only value of its scheme, an API key as the only one, in its header. */
  ghost predicate Shows(lib: Library, table: Table, c: Issued, input: Input) {
    match c
    case OAuthBearer(token, _, _, _) => exists i: nat :: AloneAt(lib, Bearer, input.values("Authorization"), i, token)
    case Basic(user, password, _, _, _) => exists i: nat :: AloneAt(lib, BasicScheme, input.values("Authorization"), i, lib.base64(user + ":" + password))
    case APIKey(header, key, _, _, _) =>
      var h := lib.canonicalHeader(header);
      lib.canonicalHeader(h) == h && OnlyKeyIn(table, input, h) && input.values(h) == [key]
  }

  lemma ShownBringsUp(lib: Library, table: Table, r: Record, kept: Stored, input: Input)
    requires IsInOrder(lib, r) && Keeps(lib, r, kept) && Shows(lib, table, r.credential, input)
    ensures BringsUp(lib, table, r.grantType, input, kept)
  {
    hide AloneAt, OnlyKeyIn, BringsValue;
    match r.credential
    case OAuthBearer(token, _, _, _) => ShownValue(lib, Bearer, input, kept, token);
    case Basic(user, password, _, _, _) => ShownValue(lib, BasicScheme, input, kept, lib.base64(user + ":" + password));
    case APIKey(header, key, _, _, _) =>
      var h := lib.canonicalHeader(header);
      assert OnlyKeyIn(table, input, h) && kept.header == lib.canonicalHeader(h) && input.values(h)[0] == key;
  }

  lemma ShownValue(lib: Library, scheme: Scheme, input: Input, kept: Stored, c: string)
    requires exists i: nat :: AloneAt(lib, scheme, input.values("Authorization"), i, c)
    requires kept.header == "Authorization" && kept.verifier == lib.hash(c)
    ensures BringsValue(lib, scheme, input, kept)
  {
    hide AloneAt;
  }

  /** Issue and authenticate are inverse: a credential that was accepted, shown before it
      expires and unless it has been withdrawn, is found, for its agent and with its
      scopes, whatever else was saved and revoked in between. */
  lemma IssuedCredentialAuthenticates(lib: Library, table: Table, r: Record, more: seq<Op>, input: Input)
    requires Valid(table) && Accepts(lib, table, r)
    requires forall op | op in more :: !Withdraws(op, r.agentDID, r.grantType, r.credentialID)
    requires input.now < r.expiresAt && Shows(lib, After(lib, Saved(lib, table, r), more), r.credential, input)
    ensures var found := Authenticate(lib, After(lib, Saved(lib, table, r), more), r.grantType, input);
            found.Some? && Keeps(lib, r, found.value)
  {
    var start, kept := Saved(lib, table, r), Store(lib, r).value;
    KeptIsStored(lib, r);
    AcceptedExactly(lib, table, r, kept);
    SaveKeepsValid(lib, table, r);
    hide Store, Keeps, IsInOrder, Shows, BringsUp, Accepts, Saved, Valid, Extends, Answers, Authenticate;
    KeepsTheNames(lib, r, kept);
    RevokedExactly(lib, start, more, r.credentialID);
    RunKeepsValid(lib, start, more);
    var later := After(lib, start, more);
    ShownBringsUp(lib, later, r, kept, input);
    AnswersMean(lib, later, r.grantType, input, r.credentialID);
    ValidIsUnique(later);
    AuthenticateIs(lib, later, r.grantType, input, r.credentialID);
  }

  lemma ValidIsUnique(table: Table)
    requires Valid(table)
    ensures Unique(table)
  {
  }

  lemma KeptIsStored(lib: Library, r: Record)
    requires Store(lib, r).Ok?
    ensures Keeps(lib, r, Store(lib, r).value)
  {
  }

  lemma KeepsTheNames(lib: Library, r: Record, kept: Stored)
    requires Keeps(lib, r, kept)
    ensures kept.agentDID == r.agentDID && kept.grantType == r.grantType && kept.revokedAt == ZERO_TIME && kept.expiresAt == r.expiresAt
  {
  }
}
