/** The agent's fetch of a protected resource, against an adversarial network.

Everything the network does is a function of the requests sent so far, so what is
proved holds for any server and any network behaviour: any status, any Location,
any challenge, any policy, any Inspect document, any cancellation.  The log of sent
requests is what an observer would see.  */
module ResourceFetch {
  import opened Prelude
  import opened ResourceHeaders

  /** How a request was sent: for an authenticated one, the DID of the Inspect
      document in force and the methods it may use. */
  datatype Kind = Anonymous | Authenticated(serviceDID: string, methods: seq<string>)

  datatype Sent = Sent(target: Url, headers: Headers, kind: Kind, response: Option<Response>)

  type Log = seq<Sent>

  datatype PolicyState = Required | Public | Fallback

  datatype Policy = Policy(state: PolicyState, methods: seq<string>)

  datatype Inspection = Inspection(serviceDID: string, methods: seq<string>)

  /** `cancelled` is asked at three points of an iteration. */
  datatype Network = Network(
    cancelled: (Log, int) -> bool,
    service: (Log, Url) -> bool,
    policy: (Log, Url) -> Policy,
    respond: (Log, Url, Headers, Kind) -> Option<Response>,
    inspect: (Log, Url) -> Option<Inspection>,
    credentials: (Log, Url, seq<string>) -> Option<Headers>)

  datatype Outcome = Error | Delivered(response: Response)

  predicate IsRedirect(status: int) {
    status == 301 || status == 302 || status == 303 || status == 307 || status == 308
  }

  // ------------------------------------------------------ parts of a log

  predicate RedirectsLast(log: Log) {
    log != [] && log[|log| - 1].response.Some? && IsRedirect(log[|log| - 1].response.value.status)
  }

  /** The next request would be the first to its target. */
  predicate Starting(log: Log) {
    log == [] || RedirectsLast(log)
  }

  function Hops(log: Log): nat {
    if log == [] then 0 else Hops(log[..|log| - 1]) + if RedirectsLast(log) then 1 else 0
  }

  /** Some target so far, this one included, was not at the origin of the caller's request. */
  ghost predicate Away(lib: Library, r: Request, log: Log, target: Url) {
    !(SameOrigin(lib, target, r.original) && forall j :: 0 <= j < |log| ==> SameOrigin(lib, log[j].target, r.original))
  }

  /** The last request was anonymous, to the same target, and drew a challenge that
      names this Service. */
  predicate Challenged(lib: Library, log: Log, target: Url, serviceDID: string) {
    && log != []
    && var e := log[|log| - 1];
       && e.kind.Anonymous? && e.target == target
       && e.response.Some? && e.response.value.status == 401
       && var challenge := lib.challenge(e.response.value.authenticate);
          challenge.Some? && challenge.value.serviceDID == serviceDID && SameOrigin(lib, challenge.value.inspect, target)
  }

  function MethodsOf(policy: Policy, inspection: Inspection): seq<string> {
    if policy.state.Required? then policy.methods else inspection.methods
  }

  predicate MayUse(m: string, inspection: Inspection, r: Request) {
    m in inspection.methods && (r.allowed.Some? ==> m in r.allowed.value)
  }

  /** The methods that the Inspect document advertises and the caller allows, in order. */
  function Allowed(methods: seq<string>, inspection: Inspection, r: Request): (allowed: seq<string>)
    ensures forall m :: m in allowed <==> m in methods && MayUse(m, inspection, r)
  {
    if methods == [] then []
    else
      var n := |methods| - 1;
      assert methods == methods[..n] + [methods[n]];
      Allowed(methods[..n], inspection, r) + if MayUse(methods[n], inspection, r) then [methods[n]] else []
  }

  // -------------------------------------------------- what may be sent when

  /** An anonymous request opens a hop unless authentication is required at home.  It
      carries the caller's harmless headers at home and nothing once away. */
  ghost predicate ProperAnonymous(lib: Library, net: Network, r: Request, log: Log, e: Sent) {
    && e.kind.Anonymous? && Starting(log)
    && (!net.policy(log, e.target).state.Required? || Away(lib, r, log, e.target))
    && e.headers == if Away(lib, r, log, e.target) then map[] else WithoutHeaders(lib, r.headers, STRIPPED)
  }

  /** The policy of the hop, read before its first request. */
  function HopPolicy(net: Network, log: Log, target: Url): Policy {
    net.policy(if Starting(log) then log else log[..|log| - 1], target)
  }

  /** An authenticated request carries merged headers, may use exactly the allowed
      methods, and either opens a hop at home where authentication is required, or
      answers a challenge of the Service that was inspected. */
  ghost predicate ProperAuthenticated(lib: Library, net: Network, r: Request, log: Log, e: Sent) {
    var policy, inspection := HopPolicy(net, log, e.target), net.inspect(log, e.target);
    && inspection.Some?
    && e.kind == Authenticated(inspection.value.serviceDID, Allowed(MethodsOf(policy, inspection.value), inspection.value, r))
    && (if Starting(log) then policy.state.Required? && !Away(lib, r, log, e.target)
        else Challenged(lib, log, e.target, inspection.value.serviceDID))
    && var controlled := net.credentials(log, e.target, e.kind.methods);
       controlled.Some? && MergedFor(lib, r, SameOrigin(lib, e.target, r.original), controlled.value, e.headers)
  }

  /** Each target is the one before, or where a redirect of the one before leads. */
  predicate Follows(lib: Library, r: Request, log: Log, e: Sent) {
    if log == [] then e.target == r.original
    else
      var last := log[|log| - 1];
      if RedirectsLast(log) then lib.resolve(last.target, last.response.value.location) == Some(e.target)
      else last.response.Some? && last.target == e.target && last.kind.Anonymous? && e.kind.Authenticated?
  }

  ghost predicate Proper(lib: Library, net: Network, r: Request, log: Log, e: Sent) {
    && ValidTarget(r, e.target) && Follows(lib, r, log, e)
    && (ProperAnonymous(lib, net, r, log, e) || ProperAuthenticated(lib, net, r, log, e))
  }

  ghost predicate SafeLog(lib: Library, net: Network, r: Request, log: Log) {
    && (forall i | 0 <= i < |log| :: Proper(lib, net, r, log[..i], log[i]))
    && (forall i, j :: 0 <= i < j < |log| && log[i].target.scheme == "https" ==> log[j].target.scheme == "https")
  }

  // ------------------------------------------------------- when it may stop

  /** Where a redirect leads, unless it must be refused. */
  function Redirected(lib: Library, r: Request, response: Response, current: Url, count: nat, maximum: nat): Option<Url> {
    var next := lib.resolve(current, response.location);
    if count >= maximum || response.location == "" || next.None? || !ValidTarget(r, next.value) then None
    else if current.scheme == "https" && next.value.scheme != "https" then None
    else next
  }

  /** The target of the next hop, if there is one. */
  function NextTarget(lib: Library, r: Request, maximum: nat, log: Log): Option<Url> {
    if log == [] then Some(r.original)
    else if !RedirectsLast(log) then None
    else Redirected(lib, r, log[|log| - 1].response.value, log[|log| - 1].target, Hops(log[..|log| - 1]), maximum)
  }

  /** Why no authenticated request could be sent. */
  ghost predicate CannotAuthenticate(lib: Library, net: Network, r: Request, log: Log, target: Url, challenge: Option<Challenge>) {
    var policy, inspection := HopPolicy(net, log, target), net.inspect(log, target);
    || inspection.None?
    || (challenge.Some? && challenge.value.serviceDID != inspection.value.serviceDID)
    || (policy.state.Public? && challenge.Some? && net.cancelled(log, 2))
    || var controlled := net.credentials(log, target, Allowed(MethodsOf(policy, inspection.value), inspection.value, r));
       || controlled.None?
       || CannotMerge(lib, r, SameOrigin(lib, target, r.original), controlled.value)
  }

  /** What becomes of the last request when no hop follows it. */
  ghost predicate Concludes(lib: Library, net: Network, r: Request, log: Log, outcome: Outcome)
    requires log != []
  {
    var e := log[|log| - 1];
    if e.response.None? || IsRedirect(e.response.value.status) then outcome.Error?
    else if e.kind.Authenticated? then outcome == Delivered(e.response.value)
    else
      var challenge := lib.challenge(e.response.value.authenticate);
      if e.response.value.status != 401 || challenge.None? then outcome == Delivered(e.response.value)
      else if !SameOrigin(lib, challenge.value.inspect, e.target) then outcome.Error?
      else if outcome.Error? then CannotAuthenticate(lib, net, r, log, e.target, challenge)
      else
        && outcome.response == e.response.value
        && net.inspect(log, e.target).Some?
        && MethodsOf(HopPolicy(net, log, e.target), net.inspect(log, e.target).value) == []
  }

  /** Why a hop never sends its first request. */
  ghost predicate Balks(lib: Library, net: Network, r: Request, log: Log, target: Url) {
    || net.cancelled(log, 0) || !net.service(log, target) || net.cancelled(log, 1)
    || (&& net.policy(log, target).state.Required? && !Away(lib, r, log, target)
        && CannotAuthenticate(lib, net, r, log, target, None))
  }

  /** The fetch stops only for a reason: a delivered response is not one that could
      still be followed or answered, and an error has a cause. */
  ghost predicate EndsRightly(lib: Library, net: Network, r: Request, maximum: nat, log: Log, outcome: Outcome) {
    var next := NextTarget(lib, r, maximum, log);
    if next.Some? then outcome.Error? && Balks(lib, net, r, log, next.value)
    else log != [] && Concludes(lib, net, r, log, outcome)
  }

  // ------------------------------------------------------------- the fetch

  method ResourceRedirect(lib: Library, r: Request, response: Response, current: Url, count: nat, maximum: nat) returns (next: Option<Url>)
    ensures next == Redirected(lib, r, response, current, count, maximum)
  {
    if count >= maximum { return None; }
    if response.location == "" { return None; }
    next := lib.resolve(current, response.location);
    if next.None? || !ValidTarget(r, next.value) { return None; }
    if current.scheme == "https" && next.value.scheme != "https" { return None; }
  }

  method AllowedMethods(methods: seq<string>, inspection: Inspection, r: Request) returns (allowed: seq<string>)
    ensures allowed == Allowed(methods, inspection, r)
  {
    allowed := [];
    for i := 0 to |methods|
      invariant allowed == Allowed(methods[..i], inspection, r)
    {
      assert methods[..i + 1][..i] == methods[..i];
      if methods[i] in inspection.methods && (r.allowed.None? || methods[i] in r.allowed.value) {
        allowed := allowed + [methods[i]];
      }
    }
    assert methods[..|methods|] == methods;
  }

  /** The state between two hops. */
  ghost predicate Between(lib: Library, net: Network, r: Request, maximum: nat, log: Log, target: Url, requireChallenge: bool, redirects: nat) {
    && |log| <= 2 * redirects && redirects == Hops(log) && redirects <= maximum
    && SafeLog(lib, net, r, log) && ValidTarget(r, target)
    && (requireChallenge <==> Away(lib, r, log, target))
    && Starting(log) && NextTarget(lib, r, maximum, log) == Some(target)
    && (forall j :: 0 <= j < |log| && log[j].target.scheme == "https" ==> target.scheme == "https")
  }

  /** The state after at most `n` requests of a hop. */
  ghost predicate Within(lib: Library, net: Network, r: Request, maximum: nat, log: Log, target: Url, requireChallenge: bool, redirects: nat, n: nat) {
    && 0 < |log| <= 2 * redirects + n && redirects == Hops(log[..|log| - 1]) && redirects <= maximum
    && SafeLog(lib, net, r, log) && log[|log| - 1].target == target
    && (requireChallenge <==> Away(lib, r, log, target))
  }

  /** One more request. */
  lemma SendKeepsSafe(lib: Library, net: Network, r: Request, log: Log, e: Sent)
    requires SafeLog(lib, net, r, log) && Proper(lib, net, r, log, e)
    requires forall j :: 0 <= j < |log| && log[j].target.scheme == "https" ==> e.target.scheme == "https"
    ensures SafeLog(lib, net, r, log + [e])
  {
    hide Proper;
    var more := log + [e];
    forall i | 0 <= i < |more| ensures Proper(lib, net, r, more[..i], more[i]) {
      assert more[..i] == log[..i];
      assert log[..|log|] == log;
    }
  }

  lemma LastTargetIsValid(lib: Library, net: Network, r: Request, log: Log)
    requires SafeLog(lib, net, r, log) && log != []
    ensures var target := log[|log| - 1].target;
            && ValidTarget(r, target)
            && forall j :: 0 <= j < |log| && log[j].target.scheme == "https" ==> target.scheme == "https"
  {
    var last := |log| - 1;
    assert Proper(lib, net, r, log[..last], log[last]);
    hide Proper, ValidTarget;
  }

  lemma StartIsBetween(lib: Library, net: Network, r: Request, maximum: nat)
    requires ValidTarget(r, r.original)
    ensures Between(lib, net, r, maximum, [], r.original, false, 0)
  {
  }

  /** Sending to the current target changes neither distance from home nor hops. */
  lemma SendToTarget(lib: Library, r: Request, log: Log, e: Sent)
    ensures Away(lib, r, log + [e], e.target) <==> Away(lib, r, log, e.target)
    ensures (log + [e])[..|log|] == log
  {
    hide SameOrigin;
    var more := log + [e];
    assert more[|log|] == e;
    assert forall j :: 0 <= j < |log| ==> more[j] == log[j];
  }

  lemma AnonymousIsSent(lib: Library, net: Network, r: Request, maximum: nat, log: Log, target: Url, requireChallenge: bool, redirects: nat, e: Sent)
    requires Between(lib, net, r, maximum, log, target, requireChallenge, redirects)
    requires e.target == target && e.kind == Anonymous
    requires !net.policy(log, target).state.Required? || requireChallenge
    requires e.headers == if requireChallenge then map[] else WithoutHeaders(lib, r.headers, STRIPPED)
    ensures Within(lib, net, r, maximum, log + [e], target, requireChallenge, redirects, 1)
    ensures HopPolicy(net, log + [e], target) == net.policy(log, target) || RedirectsLast(log + [e])
  {
    hide WithoutHeaders, SafeLog, ValidTarget, Away, Redirected;
    assert ProperAnonymous(lib, net, r, log, e);
    assert Follows(lib, r, log, e) by { hide *; FollowsRedirect(lib, r, maximum, log, e); }
    hide ProperAnonymous, Follows;
    SendKeepsSafe(lib, net, r, log, e);
    SendToTarget(lib, r, log, e);
  }

  lemma FollowsRedirect(lib: Library, r: Request, maximum: nat, log: Log, e: Sent)
    requires NextTarget(lib, r, maximum, log) == Some(e.target)
    ensures Follows(lib, r, log, e)
  {
  }

  /** An authenticated request that opens a hop, at home. */
  lemma DirectIsSent(lib: Library, net: Network, r: Request, maximum: nat, log: Log, target: Url, redirects: nat, e: Sent)
    requires Between(lib, net, r, maximum, log, target, false, redirects)
    requires e.target == target && ProperAuthenticated(lib, net, r, log, e)
    ensures Within(lib, net, r, maximum, log + [e], target, false, redirects, 1)
  {
    hide SafeLog, ValidTarget, Away, ProperAuthenticated, ProperAnonymous, Follows, Redirected;
    FollowsRedirect(lib, r, maximum, log, e);
    SendKeepsSafe(lib, net, r, log, e);
    SendToTarget(lib, r, log, e);
  }

  /** An authenticated request that answers the challenge just drawn. */
  lemma AnswerIsSent(lib: Library, net: Network, r: Request, maximum: nat, log: Log, target: Url, requireChallenge: bool, redirects: nat, e: Sent)
    requires Within(lib, net, r, maximum, log, target, requireChallenge, redirects, 1)
    requires !RedirectsLast(log) && log[|log| - 1].kind.Anonymous? && log[|log| - 1].response.Some?
    requires e.target == target && e.kind.Authenticated? && ProperAuthenticated(lib, net, r, log, e)
    ensures Within(lib, net, r, maximum, log + [e], target, requireChallenge, redirects, 2)
  {
    LastTargetIsValid(lib, net, r, log);
    hide SafeLog, ValidTarget, Away, ProperAuthenticated, ProperAnonymous;
    assert Follows(lib, r, log, e);
    hide Follows;
    SendKeepsSafe(lib, net, r, log, e);
    SendToTarget(lib, r, log, e);
  }

  lemma AwayAfterHop(lib: Library, r: Request, log: Log, target: Url, next: Url)
    requires log != [] && log[|log| - 1].target == target
    ensures Away(lib, r, log, next) <==> Away(lib, r, log, target) || !SameOrigin(lib, target, next)
  {
    SameOriginIsAnEquivalence(lib, next, target, r.original);
    SameOriginIsAnEquivalence(lib, target, next, r.original);
    SameOriginIsAnEquivalence(lib, target, r.original, next);
    hide SameOrigin;
    assert SameOrigin(lib, target, r.original) && SameOrigin(lib, next, r.original) ==> SameOrigin(lib, target, next) by {
      SameOriginIsAnEquivalence(lib, next, r.original, target);
      SameOriginIsAnEquivalence(lib, target, r.original, next);
    }
  }

  /** Following a redirect. */
  lemma HopKeepsBetween(lib: Library, net: Network, r: Request, maximum: nat, log: Log, target: Url, requireChallenge: bool, redirects: nat, n: nat, next: Url)
    requires Within(lib, net, r, maximum, log, target, requireChallenge, redirects, n) && n <= 2 && RedirectsLast(log)
    requires Redirected(lib, r, log[|log| - 1].response.value, target, redirects, maximum) == Some(next)
    ensures Between(lib, net, r, maximum, log, next, requireChallenge || !SameOrigin(lib, target, next), redirects + 1)
    ensures redirects + 1 <= maximum
  {
    LastTargetIsValid(lib, net, r, log);
    AwayAfterHop(lib, r, log, target, next);
    hide SafeLog, Away, SameOrigin, ValidTarget;
  }

  /** What the fetch promises when it returns. */
  ghost predicate Finished(lib: Library, net: Network, r: Request, maximum: nat, log: Log, outcome: Outcome) {
    SafeLog(lib, net, r, log) && |log| <= 2 * (maximum + 1) && EndsRightly(lib, net, r, maximum, log, outcome)
  }

  lemma EndsBeforeHop(lib: Library, net: Network, r: Request, maximum: nat, log: Log, target: Url, requireChallenge: bool, redirects: nat)
    requires Between(lib, net, r, maximum, log, target, requireChallenge, redirects)
    requires || net.cancelled(log, 0) || !net.service(log, target) || net.cancelled(log, 1)
             || (net.policy(log, target).state.Required? && !requireChallenge && CannotAuthenticate(lib, net, r, log, target, None))
    ensures Finished(lib, net, r, maximum, log, Error)
  {
    hide SafeLog, Away, CannotAuthenticate, NextTarget;
  }

  lemma EndsAfterSending(lib: Library, net: Network, r: Request, maximum: nat, log: Log, target: Url, requireChallenge: bool, redirects: nat, n: nat, outcome: Outcome)
    requires Within(lib, net, r, maximum, log, target, requireChallenge, redirects, n) && n <= 2 && Concludes(lib, net, r, log, outcome)
    requires RedirectsLast(log) ==> Redirected(lib, r, log[|log| - 1].response.value, target, redirects, maximum).None?
    ensures Finished(lib, net, r, maximum, log, outcome)
  {
    hide SafeLog, Away, Concludes, Redirected;
  }

  /** Just before authentication: either nothing was sent in this hop, because the
      policy requires authentication at home, or a challenge has been drawn. */
  ghost predicate AtTheDoor(lib: Library, net: Network, r: Request, maximum: nat, log: Log, target: Url, requireChallenge: bool, redirects: nat, policy: Policy, challenge: Option<Challenge>) {
    && HopPolicy(net, log, target) == policy
    && if challenge.None? then
         Between(lib, net, r, maximum, log, target, requireChallenge, redirects) && policy.state.Required? && !requireChallenge
       else
         && Within(lib, net, r, maximum, log, target, requireChallenge, redirects, 1) && !RedirectsLast(log)
         && var e := log[|log| - 1];
            && e.kind.Anonymous? && e.response.Some? && e.response.value.status == 401
            && lib.challenge(e.response.value.authenticate) == challenge && SameOrigin(lib, challenge.value.inspect, target)
  }

  lemma DirectDoor(lib: Library, net: Network, r: Request, maximum: nat, log: Log, target: Url, redirects: nat, policy: Policy)
    requires Between(lib, net, r, maximum, log, target, false, redirects) && policy == net.policy(log, target) && policy.state.Required?
    ensures AtTheDoor(lib, net, r, maximum, log, target, false, redirects, policy, None) && HopPolicy(net, log, target) == policy
  {
    hide SafeLog, Away, NextTarget;
  }

  lemma ChallengedDoor(lib: Library, net: Network, r: Request, maximum: nat, log: Log, target: Url, requireChallenge: bool, redirects: nat, policy: Policy, challenge: Option<Challenge>)
    requires Within(lib, net, r, maximum, log, target, requireChallenge, redirects, 1) && HopPolicy(net, log, target) == policy
    requires log != [] && var e := log[|log| - 1];
             && e.kind.Anonymous? && e.response.Some? && e.response.value.status == 401
             && lib.challenge(e.response.value.authenticate) == challenge && challenge.Some? && SameOrigin(lib, challenge.value.inspect, target)
    ensures AtTheDoor(lib, net, r, maximum, log, target, requireChallenge, redirects, policy, challenge)
  {
    hide SafeLog, Away, SameOrigin, Within;
  }

  lemma EndsUnauthenticated(lib: Library, net: Network, r: Request, maximum: nat, log: Log, target: Url, requireChallenge: bool, redirects: nat, policy: Policy, challenge: Option<Challenge>)
    requires AtTheDoor(lib, net, r, maximum, log, target, requireChallenge, redirects, policy, challenge)
    requires CannotAuthenticate(lib, net, r, log, target, challenge)
    ensures Finished(lib, net, r, maximum, log, Error)
  {
    hide SafeLog, Away, CannotAuthenticate, NextTarget, SameOrigin, Finished;
    if challenge.None? {
      EndsBeforeHop(lib, net, r, maximum, log, target, requireChallenge, redirects);
    } else {
      EndsAfterSending(lib, net, r, maximum, log, target, requireChallenge, redirects, 1, Error);
    }
  }

  lemma EndsWithoutMethods(lib: Library, net: Network, r: Request, maximum: nat, log: Log, target: Url, requireChallenge: bool, redirects: nat, policy: Policy, challenge: Option<Challenge>)
    requires AtTheDoor(lib, net, r, maximum, log, target, requireChallenge, redirects, policy, challenge) && challenge.Some?
    requires net.inspect(log, target).Some? && MethodsOf(policy, net.inspect(log, target).value) == []
    ensures Finished(lib, net, r, maximum, log, Delivered(log[|log| - 1].response.value))
  {
    hide SafeLog, Away, CannotAuthenticate, NextTarget, SameOrigin, Finished;
    EndsAfterSending(lib, net, r, maximum, log, target, requireChallenge, redirects, 1, Delivered(log[|log| - 1].response.value));
  }

  /** What has been checked at the door makes the authenticated request a proper one. */
  lemma AuthenticatedIsSent(lib: Library, net: Network, r: Request, maximum: nat, log: Log, target: Url, requireChallenge: bool, redirects: nat, policy: Policy, challenge: Option<Challenge>, e: Sent)
    requires AtTheDoor(lib, net, r, maximum, log, target, requireChallenge, redirects, policy, challenge) && e.target == target
    requires IsReady(lib, net, r, log, target, policy, challenge, e.kind, e.headers)
    ensures Within(lib, net, r, maximum, log + [e], target, requireChallenge, redirects, 2)
  {
    hide SafeLog, NextTarget, SameOrigin, Away, MergedFor, Allowed;
    if challenge.None? {
      DirectIsSent(lib, net, r, maximum, log, target, redirects, e);
    } else {
      AnswerIsSent(lib, net, r, maximum, log, target, requireChallenge, redirects, e);
    }
  }

  datatype Preparation = Impossible | NoMethods | Ready(kind: Kind, headers: Headers)

  /** Inspect, choose the methods, get the agent's headers and merge the caller's. */
  method PrepareAuthentication(lib: Library, net: Network, r: Request, log: Log, target: Url, policy: Policy, challenge: Option<Challenge>)
    returns (preparation: Preparation)
    requires Lawful(lib) && HopPolicy(net, log, target) == policy
    ensures preparation.Impossible? ==> CannotAuthenticate(lib, net, r, log, target, challenge)
    ensures preparation.NoMethods? ==>
              challenge.Some? && net.inspect(log, target).Some? && MethodsOf(policy, net.inspect(log, target).value) == []
    ensures preparation.Ready? ==> preparation.kind.Authenticated? && IsReady(lib, net, r, log, target, policy, challenge, preparation.kind, preparation.headers)
  {
    hide Lawful, SameOrigin, MergedFor, CannotMerge, MustRefuse, OneSpelling, HopPolicy, Allowed;
    var inspection := net.inspect(log, target);
    if inspection.None? { return Impossible; }
    if challenge.Some? && challenge.value.serviceDID != inspection.value.serviceDID { return Impossible; }
    if policy.state == Public && challenge.Some? && net.cancelled(log, 2) { return Impossible; }
    var methods := inspection.value.methods;
    if policy.state == Required {
      methods := policy.methods;
    }
    if |methods| == 0 && challenge.Some? { return NoMethods; }
    var allowed := AllowedMethods(methods, inspection.value, r);
    var controlled := net.credentials(log, target, allowed);
    if controlled.None? { return Impossible; }
    var merged := MergeResourceHeaders(lib, r, target, controlled.value);
    if merged.None? { return Impossible; }
    return Ready(Authenticated(inspection.value.serviceDID, allowed), merged.value);
  }

  ghost predicate IsReady(lib: Library, net: Network, r: Request, log: Log, target: Url, policy: Policy, challenge: Option<Challenge>, kind: Kind, headers: Headers) {
    var inspection := net.inspect(log, target);
    && inspection.Some? && (challenge.Some? ==> challenge.value.serviceDID == inspection.value.serviceDID)
    && kind == Authenticated(inspection.value.serviceDID, Allowed(MethodsOf(policy, inspection.value), inspection.value, r))
    && var controlled := net.credentials(log, target, kind.methods);
       controlled.Some? && MergedFor(lib, r, SameOrigin(lib, target, r.original), controlled.value, headers)
  }

  method FetchResource(lib: Library, net: Network, r: Request, maximum: nat) returns (outcome: Outcome, log: Log)
    requires Lawful(lib) && ValidTarget(r, r.original)
    ensures SafeLog(lib, net, r, log)
    ensures |log| <= 2 * (maximum + 1)
    ensures EndsRightly(lib, net, r, maximum, log, outcome)
  {
    hide SafeLog, ValidTarget, MergedFor, WithoutHeaders, Lawful, SameOrigin, Away, IsRedirect, AnyConflict, CannotMerge, Redirected, Allowed, Hops, EndsRightly, Between, Within, AtTheDoor, HopPolicy, CannotAuthenticate, IsReady;
    var target := r.original;
    var requireChallenge := false;
    var redirects := 0;
    log := [];
    StartIsBetween(lib, net, r, maximum);
    while true
      invariant Between(lib, net, r, maximum, log, target, requireChallenge, redirects)
      decreases maximum - redirects
    {
      if net.cancelled(log, 0) || !net.service(log, target) {
        EndsBeforeHop(lib, net, r, maximum, log, target, requireChallenge, redirects);
        return Error, log;
      }
      var policy := net.policy(log, target);
      if net.cancelled(log, 1) {
        EndsBeforeHop(lib, net, r, maximum, log, target, requireChallenge, redirects);
        return Error, log;
      }
      var anonymous: Option<Response> := None;
      var challenge: Option<Challenge> := None;
      if policy.state != Required || requireChallenge {
        var headers: Headers := map[];
        if !requireChallenge {
          headers := RemoveResourceHeaders(lib, r.headers, STRIPPED);
        }
        anonymous := net.respond(log, target, headers, Anonymous);
        AnonymousIsSent(lib, net, r, maximum, log, target, requireChallenge, redirects, Sent(target, headers, Anonymous, anonymous));
        log := log + [Sent(target, headers, Anonymous, anonymous)];
        if anonymous.None? {
          EndsAfterSending(lib, net, r, maximum, log, target, requireChallenge, redirects, 1, Error);
          return Error, log;
        }
        if IsRedirect(anonymous.value.status) {
          var next := ResourceRedirect(lib, r, anonymous.value, target, redirects, maximum);
          if next.None? {
            EndsAfterSending(lib, net, r, maximum, log, target, requireChallenge, redirects, 1, Error);
            return Error, log;
          }
          HopKeepsBetween(lib, net, r, maximum, log, target, requireChallenge, redirects, 1, next.value);
          requireChallenge := requireChallenge || !SameOrigin(lib, target, next.value);
          target := next.value;
          redirects := redirects + 1;
          continue;
        }
        challenge := lib.challenge(anonymous.value.authenticate);
        if anonymous.value.status != 401 || challenge.None? {
          EndsAfterSending(lib, net, r, maximum, log, target, requireChallenge, redirects, 1, Delivered(anonymous.value));
          return Delivered(anonymous.value), log;
        }
        if !SameOrigin(lib, challenge.value.inspect, target) {
          EndsAfterSending(lib, net, r, maximum, log, target, requireChallenge, redirects, 1, Error);
          return Error, log;
        }
        ChallengedDoor(lib, net, r, maximum, log, target, requireChallenge, redirects, policy, challenge);
      } else {
        DirectDoor(lib, net, r, maximum, log, target, redirects, policy);
      }
      var preparation := PrepareAuthentication(lib, net, r, log, target, policy, challenge);
      if preparation.Impossible? {
        EndsUnauthenticated(lib, net, r, maximum, log, target, requireChallenge, redirects, policy, challenge);
        return Error, log;
      }
      if preparation.NoMethods? {
        EndsWithoutMethods(lib, net, r, maximum, log, target, requireChallenge, redirects, policy, challenge);
        return Delivered(anonymous.value), log;
      }
      var kind, headers := preparation.kind, preparation.headers;
      var response := net.respond(log, target, headers, kind);
      AuthenticatedIsSent(lib, net, r, maximum, log, target, requireChallenge, redirects, policy, challenge,
        Sent(target, headers, kind, response));
      log := log + [Sent(target, headers, kind, response)];
      if response.None? {
        EndsAfterSending(lib, net, r, maximum, log, target, requireChallenge, redirects, 2, Error);
        return Error, log;
      }
      if !IsRedirect(response.value.status) {
        EndsAfterSending(lib, net, r, maximum, log, target, requireChallenge, redirects, 2, Delivered(response.value));
        return Delivered(response.value), log;
      }
      var next := ResourceRedirect(lib, r, response.value, target, redirects, maximum);
      if next.None? {
        EndsAfterSending(lib, net, r, maximum, log, target, requireChallenge, redirects, 2, Error);
        return Error, log;
      }
      HopKeepsBetween(lib, net, r, maximum, log, target, requireChallenge, redirects, 2, next.value);
      requireChallenge := requireChallenge || !SameOrigin(lib, target, next.value);
      target := next.value;
      redirects := redirects + 1;
    }
  }

  /** The entry point: zero means the default limit, and nothing is sent for an
      invalid limit or target. */
  method FetchProtectedResource(lib: Library, net: Network, r: Request, maximumRedirects: int) returns (outcome: Outcome, log: Log)
    requires Lawful(lib)
    ensures maximumRedirects < 0 || !ValidTarget(r, r.original) ==> outcome == Error && log == []
    ensures var maximum := if maximumRedirects == 0 then 5 else maximumRedirects;
            maximum >= 0 && ValidTarget(r, r.original) ==>
              SafeLog(lib, net, r, log) && |log| <= 2 * (maximum + 1) && EndsRightly(lib, net, r, maximum, log, outcome)
  {
    log := [];
    var maximum := maximumRedirects;
    if maximum == 0 { maximum := 5; }
    if maximum < 0 || !ValidTarget(r, r.original) { return Error, log; }
    outcome, log := FetchResource(lib, net, r, maximum);
  }

  // ------------------------------------------------ what a safe log rules out

  /** Where the next hop may lead: the redirects stay within the limit, and the target
      is on https unless every request so far, and the target itself, stayed on the
      local machine over http. */
  lemma RedirectTargetsAreSafe(lib: Library, net: Network, r: Request, maximum: nat, log: Log, next: Url)
    requires SafeLog(lib, net, r, log) && RedirectsLast(log) && NextTarget(lib, r, maximum, log) == Some(next)
    ensures 0 < Hops(log) <= maximum
    ensures lib.resolve(log[|log| - 1].target, log[|log| - 1].response.value.location) == Some(next)
    ensures next.scheme != "https" ==>
              && r.allowInsecureLoopback && next.scheme == "http" && IsLoopback(next.hostname)
              && forall j :: 0 <= j < |log| ==> log[j].target.scheme == "http" && IsLoopback(log[j].target.hostname)
  {
    if next.scheme != "https" {
      forall j | 0 <= j < |log| ensures log[j].target.scheme == "http" && IsLoopback(log[j].target.hostname) {
        ProperAt(lib, net, r, log, j);
      }
    }
  }

  /** Where a redirect leads, exactly: within the limit, to the resolution of its Location,
      which must be a plain URL on https, or on http at the local machine if the caller
      allows that and the redirect does not leave https. */
  lemma RedirectsAreFollowedExactly(lib: Library, r: Request, maximum: nat, log: Log, next: Url)
    requires log != [] && log[|log| - 1].response.Some?
    ensures NextTarget(lib, r, maximum, log) == Some(next) <==>
            var e := log[|log| - 1];
            && e.response.value.status in {301, 302, 303, 307, 308} && Hops(log[..|log| - 1]) < maximum
            && e.response.value.location != "" && lib.resolve(e.target, e.response.value.location) == Some(next) && next.plain
            && (|| next.scheme == "https"
                || (next.scheme == "http" && e.target.scheme != "https" && r.allowInsecureLoopback
                    && next.hostname in {"localhost", "127.0.0.1", "::1"}))
  {
    hide Hops;
  }

  /** What is delivered is never a redirect, and is the answer to the last request. */
  lemma DeliveredIsTheLastAnswer(lib: Library, net: Network, r: Request, maximum: nat, log: Log, outcome: Outcome)
    requires EndsRightly(lib, net, r, maximum, log, outcome) && outcome.Delivered?
    ensures log != [] && log[|log| - 1].response == Some(outcome.response)
    ensures outcome.response.status !in {301, 302, 303, 307, 308}
  {
    hide Balks, NextTarget, HopPolicy, MethodsOf, SameOrigin;
  }

  /** An anonymous request carries none of the caller's credentials: at home every other
      header of the caller's, and away from home no header at all. */
  lemma AnonymousRequestsAreHarmless(lib: Library, net: Network, r: Request, log: Log, i: nat, n: string)
    requires SafeLog(lib, net, r, log) && i < |log| && log[i].kind.Anonymous?
    ensures n in log[i].headers <==>
              && n in r.headers && !Away(lib, r, log[..i], log[i].target)
              && lib.fold(n) != lib.fold("Authorization") && lib.fold(n) != lib.fold("AEP-Authorization")
              && lib.fold(n) != lib.fold("PAYMENT-SIGNATURE") && lib.fold(n) != lib.fold("Cookie") && lib.fold(n) != lib.fold("Proxy-Authorization")
    ensures n in log[i].headers ==> log[i].headers[n] == r.headers[n]
  {
    ProperAt(lib, net, r, log, i);
    StrippedNames(lib, n);
    hide SafeLog, Away, Follows, ValidTarget, ProperAuthenticated, IsOneOf;
  }

  lemma StrippedNames(lib: Library, n: string)
    ensures IsOneOf(lib, n, STRIPPED) <==>
              || lib.fold(n) == lib.fold("Authorization") || lib.fold(n) == lib.fold("AEP-Authorization")
              || lib.fold(n) == lib.fold("PAYMENT-SIGNATURE") || lib.fold(n) == lib.fold("Cookie") || lib.fold(n) == lib.fold("Proxy-Authorization")
  {
    var names := STRIPPED;
    assert |names| == 5 && names[0] == "Authorization" && names[1] == "AEP-Authorization" && names[2] == "PAYMENT-SIGNATURE"
        && names[3] == "Cookie" && names[4] == "Proxy-Authorization";
  }

  /** An authenticated request may use exactly the methods that the Inspect document
      advertises, the caller allows, and a policy that requires authentication lists. */
  lemma AuthenticatedMethods(lib: Library, net: Network, r: Request, log: Log, i: nat, m: string)
    requires SafeLog(lib, net, r, log) && i < |log| && log[i].kind.Authenticated?
    ensures var inspection, policy := net.inspect(log[..i], log[i].target), HopPolicy(net, log[..i], log[i].target);
            && inspection.Some? && log[i].kind.serviceDID == inspection.value.serviceDID
            && (m in log[i].kind.methods <==>
                  m in inspection.value.methods && (r.allowed.None? || m in r.allowed.value) && (policy.state.Required? ==> m in policy.methods))
  {
    ProperAt(lib, net, r, log, i);
    hide SafeLog, Away, Follows, ValidTarget, ProperAnonymous, HopPolicy, Challenged, MergedFor;
  }

  /** The caller's headers stay home: away from the origin of the caller's request, a
      request carries only headers that the agent itself controls, and then only as an
      answer to a challenge by the Service that was inspected. */
  lemma CallerHeadersStayHome(lib: Library, net: Network, r: Request, log: Log, i: nat)
    requires SafeLog(lib, net, r, log) && i < |log| && !SameOrigin(lib, log[i].target, r.original)
    ensures log[i].kind.Anonymous? ==> log[i].headers == map[]
    ensures log[i].kind.Authenticated? ==>
              && Challenged(lib, log[..i], log[i].target, log[i].kind.serviceDID)
              && var controlled := net.credentials(log[..i], log[i].target, log[i].kind.methods);
                 controlled.Some? && forall n :: n in log[i].headers ==> n in controlled.value && log[i].headers[n] == controlled.value[n]
  {
    hide WithoutHeaders, SameOrigin, Challenged, Follows, Allowed, MergedFor;
    assert Proper(lib, net, r, log[..i], log[i]);
    assert Away(lib, r, log[..i], log[i].target);
    if log[i].kind.Authenticated? {
      OnlyControlledAway(lib, r, net.credentials(log[..i], log[i].target, log[i].kind.methods).value, log[i].headers);
    }
  }

  /** Once a hop has left the origin, every later authenticated request follows a bare
      anonymous request to the same target that drew a challenge of the inspected
      Service, even back at the origin it started from. */
  lemma ChallengedAfterLeaving(lib: Library, net: Network, r: Request, log: Log, i: nat, j: nat)
    requires SafeLog(lib, net, r, log) && i < j < |log|
    requires !SameOrigin(lib, log[i].target, log[i + 1].target) && log[j].kind.Authenticated?
    ensures j > 0 && log[j - 1].headers == map[] && Challenged(lib, log[..j], log[j].target, log[j].kind.serviceDID)
    ensures log[j - 1].kind.Anonymous? && log[j - 1].target == log[j].target
    ensures log[j - 1].response.Some? && log[j - 1].response.value.status == 401
    ensures var challenge := lib.challenge(log[j - 1].response.value.authenticate);
            challenge.Some? && challenge.value.serviceDID == log[j].kind.serviceDID && SameOrigin(lib, challenge.value.inspect, log[j].target)
  {
    hide SafeLog, WithoutHeaders, MergedFor, Allowed, SameOrigin, Follows, ValidTarget, Away, HopPolicy;
    LeavingIsRemembered(lib, r, log, i, j);
    ProperAt(lib, net, r, log, j);
    ProperAt(lib, net, r, log, j - 1);
    var front, last := log[..j - 1], log[j - 1];
    assert log[..j] == front + [last] && (front + [last])[j - 1] == last;
    NotStartingAway(lib, net, r, log[..j], log[j]);
    SendToTarget(lib, r, front, last);
  }

  lemma ProperAt(lib: Library, net: Network, r: Request, log: Log, i: nat)
    requires SafeLog(lib, net, r, log) && i < |log|
    ensures Proper(lib, net, r, log[..i], log[i])
  {
  }

  lemma NotStartingAway(lib: Library, net: Network, r: Request, log: Log, e: Sent)
    requires Proper(lib, net, r, log, e) && e.kind.Authenticated? && Away(lib, r, log, e.target)
    ensures Challenged(lib, log, e.target, e.kind.serviceDID)
  {
    hide WithoutHeaders, MergedFor, Allowed, SameOrigin, Follows, ValidTarget, Away;
  }

  lemma LeavingIsRemembered(lib: Library, r: Request, log: Log, i: nat, j: nat)
    requires i < j < |log| && !SameOrigin(lib, log[i].target, log[i + 1].target)
    ensures Away(lib, r, log[..j], log[j].target)
  {
    assert log[..j][i] == log[i];
    assert i + 1 < j ==> log[..j][i + 1] == log[i + 1];
    assert !SameOrigin(lib, log[i].target, r.original) || !SameOrigin(lib, log[i + 1].target, r.original);
  }
}
