/** Origins, and the headers of a protected-resource request.

`fold` maps a name to the representative of its case-insensitive class, so two names
are equal under case folding exactly when `fold` agrees on them.  Header maps are
ranged over in an arbitrary order; two spellings of one name may both be present.  */
module ResourceHeaders {
  import opened Prelude

  /** `plain` says that the URL has a host and neither user, fragment nor opaque part. */
  datatype Url = Url(scheme: string, hostname: string, port: string, rest: string, plain: bool)

  type Headers = map<string, seq<string>>

  datatype Library = Library(
    fold: string -> string,
    canonical: string -> string,
    parsesAsAuthorization: string -> bool,
    resolve: (Url, string) -> Option<Url>,
    challenge: string -> Option<Challenge>)

  datatype Challenge = Challenge(serviceDID: string, inspect: Url)

  datatype Response = Response(status: int, location: string, authenticate: string)

  /** `allowed` is None when the caller does not restrict the methods. */
  datatype Request = Request(
    original: Url,
    headers: Headers,
    additional: Headers,
    allowed: Option<seq<string>>,
    allowInsecureLoopback: bool)

  const AEP_AUTHORIZATION := "AEP-Authorization"
  const AUTHORIZATION := "Authorization"
  const STRIPPED := [AUTHORIZATION, AEP_AUTHORIZATION, "PAYMENT-SIGNATURE", "Cookie", "Proxy-Authorization"]

  // ---------------------------------------------------------------- origins

  function EffectivePort(u: Url): string {
    if u.port != "" then u.port
    else if u.scheme == "https" then "443"
    else if u.scheme == "http" then "80"
    else ""
  }

  predicate SameOrigin(lib: Library, a: Url, b: Url) {
    lib.fold(a.scheme) == lib.fold(b.scheme) && lib.fold(a.hostname) == lib.fold(b.hostname) && EffectivePort(a) == EffectivePort(b)
  }

  predicate IsLoopback(host: string) {
    host == "localhost" || host == "127.0.0.1" || host == "::1"
  }

  predicate ValidTarget(r: Request, u: Url) {
    u.plain && (u.scheme == "https" || (r.allowInsecureLoopback && u.scheme == "http" && IsLoopback(u.hostname)))
  }

  /** The redirect check leans on this: origins can be compared hop by hop. */
  lemma SameOriginIsAnEquivalence(lib: Library, a: Url, b: Url, c: Url)
    ensures SameOrigin(lib, a, a)
    ensures SameOrigin(lib, a, b) ==> SameOrigin(lib, b, a)
    ensures SameOrigin(lib, a, b) && SameOrigin(lib, b, c) ==> SameOrigin(lib, a, c)
  {
  }

  /** What makes two origins one: scheme and host in any case, and the port, which https
      and http may leave out. */
  lemma SameOriginExactly(lib: Library, a: Url, b: Url)
    ensures a.port != "" && b.port != "" ==>
              (SameOrigin(lib, a, b) <==> lib.fold(a.scheme) == lib.fold(b.scheme) && lib.fold(a.hostname) == lib.fold(b.hostname) && a.port == b.port)
    ensures a.port == "" && a.scheme == "https" ==> (SameOrigin(lib, a, b) <==> SameOrigin(lib, a.(port := "443"), b))
    ensures a.port == "" && a.scheme == "http" ==> (SameOrigin(lib, a, b) <==> SameOrigin(lib, a.(port := "80"), b))
    ensures a.port == "" && a.scheme !in {"https", "http"} && b.port != "" ==> !SameOrigin(lib, a, b)
  {
  }

  // ---------------------------------------------------------------- headers

  predicate HasHeader(lib: Library, headers: Headers, name: string) {
    exists n :: n in headers && lib.fold(n) == lib.fold(name)
  }

  predicate IsOneOf(lib: Library, n: string, names: seq<string>) {
    exists i :: 0 <= i < |names| && lib.fold(names[i]) == lib.fold(n)
  }

  function WithoutHeaders(lib: Library, headers: Headers, names: seq<string>): Headers {
    map n | n in headers && !IsOneOf(lib, n, names) :: headers[n]
  }

  /** Deletes while ranging over the map. */
  method RemoveResourceHeaders(lib: Library, headers: Headers, names: seq<string>) returns (result: Headers)
    ensures result == WithoutHeaders(lib, headers, names)
  {
    result := headers;
    var left := headers.Keys;
    while left != {}
      invariant left <= headers.Keys
      invariant forall n :: n in result <==> n in headers && (n in left || !IsOneOf(lib, n, names))
      invariant forall n :: n in result ==> result[n] == headers[n]
    {
      var candidate :| candidate in left;
      ghost var before := result;
      for i := 0 to |names|
        invariant (forall k :: 0 <= k < i ==> lib.fold(names[k]) != lib.fold(candidate)) ==> result == before
        invariant (exists k :: 0 <= k < i && lib.fold(names[k]) == lib.fold(candidate)) ==> result == before - {candidate}
      {
        if lib.fold(candidate) == lib.fold(names[i]) {
          result := result - {candidate};
        }
      }
      left := left - {candidate};
    }
  }

  method ResourceHasHeader(lib: Library, headers: Headers, name: string) returns (has: bool)
    ensures has <==> HasHeader(lib, headers, name)
  {
    var left := headers.Keys;
    while left != {}
      invariant left <= headers.Keys
      invariant forall n :: n in headers && n !in left ==> lib.fold(n) != lib.fold(name)
    {
      var candidate :| candidate in left;
      if lib.fold(candidate) == lib.fold(name) { return true; }
      left := left - {candidate};
    }
    return false;
  }

  function Values(headers: Headers, name: string): seq<string> {
    if name in headers then headers[name] else []
  }

  function Get(lib: Library, headers: Headers, name: string): string {
    var values := Values(headers, lib.canonical(name));
    if values == [] then "" else values[0]
  }

  /** No name is present in two spellings. */
  ghost predicate OneSpelling(lib: Library, headers: Headers) {
    forall a, b :: a in headers && b in headers && lib.canonical(a) == lib.canonical(b) ==> a == b
  }

  /** Some spelling of the canonical name `n`, outside `left`, holds exactly these values. */
  predicate Holds(lib: Library, headers: Headers, left: set<string>, n: string, values: seq<string>) {
    exists c :: c in headers && c !in left && lib.canonical(c) == n && headers[c] == values
  }

  predicate Names(lib: Library, headers: Headers, left: set<string>, n: string) {
    exists c :: c in headers && c !in left && lib.canonical(c) == n
  }

  /** No spelling of the canonical name has an empty list of values. */
  predicate NoneEmpty(lib: Library, headers: Headers, left: set<string>, n: string) {
    forall c :: c in headers && c !in left && lib.canonical(c) == n ==> headers[c] != []
  }

  /** The canonical copy of the headers outside `left`: under each name exactly the
      values that some spelling of the name had, and the very list if there is one
      spelling only. */
  ghost predicate Canonicalizes(lib: Library, headers: Headers, left: set<string>, result: Headers) {
    && (forall n, v :: n in result && v in result[n] ==> exists c :: c in headers && c !in left && lib.canonical(c) == n && v in headers[c])
    && (forall c, v :: c in headers && c !in left && v in headers[c] ==> lib.canonical(c) in result && v in result[lib.canonical(c)])
    && (forall n :: n in result ==> result[n] != [])
    && (OneSpelling(lib, headers) ==> forall n :: n in result ==> Holds(lib, headers, left, n, result[n]))
  }

  method CanonicalCopy(lib: Library, headers: Headers) returns (result: Headers)
    ensures Canonicalizes(lib, headers, {}, result)
  {
    hide Canonicalizes;
    result := map[];
    var left := headers.Keys;
    CopiedNothing(lib, headers);
    while left != {}
      invariant left <= headers.Keys
      invariant Canonicalizes(lib, headers, left, result)
    {
      var name :| name in left;
      var values, key := headers[name], lib.canonical(name);
      ghost var before := result;
      for i := 0 to |values|
        invariant i == 0 ==> result == before
        invariant i > 0 ==> result == before[key := Values(before, key) + values[..i]]
      {
        assert values[..i + 1] == values[..i] + [values[i]];
        assert Values(before, key) + values[..i] + [values[i]] == Values(before, key) + values[..i + 1];
        assert Values(before, key) + values[..0] == Values(before, key);
        result := result[key := Values(result, key) + [values[i]]];
      }
      assert values[..|values|] == values;
      CopiedOne(lib, headers, left, before, name, result);
      left := left - {name};
    }
  }

  lemma CopiedNothing(lib: Library, headers: Headers)
    ensures Canonicalizes(lib, headers, headers.Keys, map[])
  {
  }

  lemma CopiedOne(lib: Library, headers: Headers, left: set<string>, before: Headers, name: string, result: Headers)
    requires Canonicalizes(lib, headers, left, before) && name in left && name in headers
    requires var key := lib.canonical(name);
             result == if headers[name] == [] then before else before[key := Values(before, key) + headers[name]]
    ensures Canonicalizes(lib, headers, left - {name}, result)
  {
    var rest, key := left - {name}, lib.canonical(name);
    forall n, v | n in result && v in result[n]
      ensures exists c :: c in headers && c !in rest && lib.canonical(c) == n && v in headers[c]
    {
      if n in before && v in before[n] {
        var c :| c in headers && c !in left && lib.canonical(c) == n && v in headers[c];
        assert c !in rest;
      } else {
        assert name !in rest && v in headers[name];
      }
    }
    if OneSpelling(lib, headers) {
      forall n | n in result ensures Holds(lib, headers, rest, n, result[n]) {
        CopiedAlone(lib, headers, left, before, name, result, n);
      }
    }
  }

  lemma CopiedAlone(lib: Library, headers: Headers, left: set<string>, before: Headers, name: string, result: Headers, n: string)
    requires OneSpelling(lib, headers) && name in left && name in headers && n in result
    requires forall m :: m in before ==> Holds(lib, headers, left, m, before[m])
    requires var key := lib.canonical(name);
             result == if headers[name] == [] then before else before[key := Values(before, key) + headers[name]]
    ensures Holds(lib, headers, left - {name}, n, result[n])
  {
    assert name !in left - {name};
    if n in before {
      var c :| c in headers && c !in left && lib.canonical(c) == n && headers[c] == before[n];
      assert c !in left - {name} && c != name && n != lib.canonical(name);
    } else {
      assert result[n] == [] + headers[name] == headers[name];
    }
  }

  /** Additional authentication may not name what the agent itself controls. */
  predicate Conflicts(lib: Library, controlled: Headers, name: string) {
    lib.fold(name) == lib.fold(AEP_AUTHORIZATION) || HasHeader(lib, controlled, name)
  }

  /** `result` is `base` with each additional header outside `left` in place of the
      header of that canonical name.  It is there unless some spelling of it came
      without values, and then with the values of one of its spellings. */
  ghost predicate Overridden(lib: Library, base: Headers, additional: Headers, left: set<string>, result: Headers) {
    && (forall n :: n in result && Names(lib, additional, left, n) ==> Holds(lib, additional, left, n, result[n]) && result[n] != [])
    && (forall n :: Names(lib, additional, left, n) && NoneEmpty(lib, additional, left, n) ==> n in result)
    && (forall n :: !Names(lib, additional, left, n) ==> (n in result <==> n in base) && (n in base ==> result[n] == base[n]))
  }

  lemma OverriddenOne(lib: Library, base: Headers, additional: Headers, left: set<string>, before: Headers, name: string, result: Headers)
    requires Overridden(lib, base, additional, left, before) && name in left && name in additional
    requires result == if additional[name] == [] then before - {lib.canonical(name)} else before[lib.canonical(name) := additional[name]]
    ensures Overridden(lib, base, additional, left - {name}, result)
  {
    hide Names, NoneEmpty, Holds;
    var rest, key := left - {name}, lib.canonical(name);
    OwnName(lib, additional, left, name);
    forall n | n != key
      ensures Names(lib, additional, rest, n) <==> Names(lib, additional, left, n)
      ensures NoneEmpty(lib, additional, rest, n) <==> NoneEmpty(lib, additional, left, n)
      ensures n in before && Holds(lib, additional, left, n, before[n]) ==> Holds(lib, additional, rest, n, before[n])
    {
      OtherNames(lib, additional, left, name, n);
    }
  }

  lemma OwnName(lib: Library, headers: Headers, left: set<string>, name: string)
    requires name in left && name in headers
    ensures var rest, key := left - {name}, lib.canonical(name);
            && Names(lib, headers, rest, key) && Holds(lib, headers, rest, key, headers[name])
            && (headers[name] == [] ==> !NoneEmpty(lib, headers, rest, key))
  {
    assert name !in left - {name};
  }

  lemma OtherNames(lib: Library, headers: Headers, left: set<string>, name: string, n: string)
    requires name in left && lib.canonical(name) != n
    ensures Names(lib, headers, left - {name}, n) <==> Names(lib, headers, left, n)
    ensures NoneEmpty(lib, headers, left - {name}, n) <==> NoneEmpty(lib, headers, left, n)
    ensures forall values :: Holds(lib, headers, left, n, values) ==> Holds(lib, headers, left - {name}, n, values)
  {
    assert forall c :: c in headers && lib.canonical(c) == n ==> (c in left - {name} <==> c in left);
  }

  predicate AnyConflict(lib: Library, additional: Headers, controlled: Headers) {
    exists name :: name in additional && Conflicts(lib, controlled, name)
  }

  method AddAuthentication(lib: Library, base: Headers, additional: Headers, controlled: Headers) returns (result: Option<Headers>)
    ensures result.None? <==> AnyConflict(lib, additional, controlled)
    ensures result.None? <==>
              exists n :: n in additional && (lib.fold(n) == lib.fold("AEP-Authorization") || exists c :: c in controlled && lib.fold(c) == lib.fold(n))
    ensures result.Some? ==> Overridden(lib, base, additional, {}, result.value)
  {
    hide Overridden;
    var merged := base;
    var left := additional.Keys;
    OverriddenNothing(lib, base, additional);
    while left != {}
      invariant left <= additional.Keys
      invariant forall name :: name in additional && name !in left ==> !Conflicts(lib, controlled, name)
      invariant Overridden(lib, base, additional, left, merged)
    {
      var name :| name in left;
      var has := ResourceHasHeader(lib, controlled, name);
      if lib.fold(name) == lib.fold(AEP_AUTHORIZATION) || has {
        assert Conflicts(lib, controlled, name);
        return None;
      }
      ghost var before := merged;
      var values, key := additional[name], lib.canonical(name);
      merged := merged - {key};
      for i := 0 to |values|
        invariant i == 0 ==> merged == before - {key}
        invariant i > 0 ==> merged == before[key := values[..i]]
      {
        assert values[..i + 1] == values[..i] + [values[i]];
        merged := merged[key := Values(merged, key) + [values[i]]];
      }
      assert values[..|values|] == values;
      OverriddenOne(lib, base, additional, left, before, name, merged);
      left := left - {name};
    }
    return Some(merged);
  }

  lemma OverriddenNothing(lib: Library, base: Headers, additional: Headers)
    ensures Overridden(lib, base, additional, additional.Keys, base)
  {
  }

  predicate FoldDistinct(lib: Library, headers: Headers) {
    forall a, b :: a in headers && b in headers && lib.fold(a) == lib.fold(b) ==> a == b
  }

  /** The controlled headers outside `left` have replaced whatever folds like them. */
  predicate Controls(lib: Library, base: Headers, controlled: Headers, left: set<string>, result: Headers) {
    && (forall n :: n in result && n in controlled && n !in left ==> result[n] == controlled[n])
    && (forall n :: n in result && (n !in controlled || n in left) ==> n in base && result[n] == base[n] && !Folds(lib, controlled, left, n))
    && (forall n :: n in base && !Folds(lib, controlled, left, n) ==> n in result && result[n] == base[n])
    && (FoldDistinct(lib, controlled) ==> forall n :: n in controlled && n !in left ==> n in result)
  }

  predicate Folds(lib: Library, controlled: Headers, left: set<string>, n: string) {
    exists c :: c in controlled && c !in left && lib.fold(c) == lib.fold(n)
  }

  lemma FoldsOne(lib: Library, controlled: Headers, left: set<string>, name: string, n: string)
    requires name in left && name in controlled
    ensures Folds(lib, controlled, left - {name}, n) <==> Folds(lib, controlled, left, n) || lib.fold(name) == lib.fold(n)
  {
    assert name !in left - {name};
    if c :| c in controlled && c !in left && lib.fold(c) == lib.fold(n) {
      assert c !in left - {name};
    }
  }

  lemma WithoutOne(lib: Library, headers: Headers, name: string)
    ensures WithoutHeaders(lib, headers, [name]) == map n | n in headers && lib.fold(name) != lib.fold(n) :: headers[n]
  {
    assert forall n :: IsOneOf(lib, n, [name]) <==> lib.fold(name) == lib.fold(n) by {
      assert [name][0] == name;
    }
  }

  lemma ControlledOne(lib: Library, base: Headers, controlled: Headers, left: set<string>, before: Headers, name: string)
    requires Controls(lib, base, controlled, left, before) && name in left && name in controlled
    ensures Controls(lib, base, controlled, left - {name}, WithoutHeaders(lib, before, [name])[name := controlled[name]])
  {
    WithoutOne(lib, before, name);
    hide IsOneOf, Folds, WithoutHeaders;
    var rest := left - {name};
    var result := WithoutHeaders(lib, before, [name])[name := controlled[name]];
    forall n | n in result && (n !in controlled || n in rest)
      ensures n in base && result[n] == base[n] && !Folds(lib, controlled, rest, n)
    {
      FoldsOne(lib, controlled, left, name, n);
    }
    forall n | n in base && !Folds(lib, controlled, rest, n) ensures n in result && result[n] == base[n] {
      FoldsOne(lib, controlled, left, name, n);
    }
  }

  method ApplyControlled(lib: Library, base: Headers, controlled: Headers) returns (result: Headers)
    ensures Controls(lib, base, controlled, {}, result)
  {
    result := base;
    var left := controlled.Keys;
    while left != {}
      invariant left <= controlled.Keys
      invariant Controls(lib, base, controlled, left, result)
    {
      var name :| name in left;
      ControlledOne(lib, base, controlled, left, result, name);
      result := RemoveResourceHeaders(lib, result, [name]);
      result := result[name := controlled[name]];
      left := left - {name};
    }
  }

  /** Canonicalisation changes nothing but the case of a name, Authorization has one
      canonical form, and the two authorization fields are different names. */
  ghost predicate Lawful(lib: Library) {
    && (forall n :: lib.fold(lib.canonical(n)) == lib.fold(n))
    && (forall n :: lib.fold(n) == lib.fold(AUTHORIZATION) ==> lib.canonical(n) == lib.canonical(AUTHORIZATION))
    && lib.fold(AEP_AUTHORIZATION) != lib.fold(AUTHORIZATION)
  }

  /** Values of one of the request's own headers. */
  ghost predicate IsRequestHeader(lib: Library, r: Request, n: string, values: seq<string>) {
    && values != []
    && (forall v :: v in values ==> exists c :: c in r.headers && lib.canonical(c) == n && v in r.headers[c])
    && (OneSpelling(lib, r.headers) ==> Holds(lib, r.headers, {}, n, values))
  }

  /** The caller's part of an authenticated request, before anything is removed from
      it: nothing away from home; at home every additional header, in place of the
      request's own of that name, and the request's other headers. */
  ghost predicate Supplied(lib: Library, r: Request, same: bool, supplied: Headers) {
    if !same then supplied == map[]
    else
      && (forall n :: n in supplied ==>
            if Names(lib, r.additional, {}, n) then Holds(lib, r.additional, {}, n, supplied[n]) && supplied[n] != []
            else IsRequestHeader(lib, r, n, supplied[n]))
      && (forall n :: Names(lib, r.additional, {}, n) && NoneEmpty(lib, r.additional, {}, n) ==> n in supplied)
      && (forall c, v :: c in r.headers && v in r.headers[c] && !Names(lib, r.additional, {}, lib.canonical(c)) ==>
            lib.canonical(c) in supplied && v in supplied[lib.canonical(c)])
  }

  method CallerHeaders(lib: Library, r: Request, same: bool, controlled: Headers) returns (supplied: Option<Headers>)
    ensures supplied.None? <==> same && AnyConflict(lib, r.additional, controlled)
    ensures supplied.Some? ==> Supplied(lib, r, same, supplied.value)
  {
    if !same { return Some(map[]); }
    var copied := CanonicalCopy(lib, r.headers);
    supplied := AddAuthentication(lib, copied, r.additional, controlled);
    if supplied.Some? {
      OverriddenIsSupplied(lib, r, copied, supplied.value);
    }
  }

  lemma OverriddenIsSupplied(lib: Library, r: Request, copied: Headers, supplied: Headers)
    requires Canonicalizes(lib, r.headers, {}, copied) && Overridden(lib, copied, r.additional, {}, supplied)
    ensures Supplied(lib, r, true, supplied)
  {
    hide Names, NoneEmpty, Holds, OneSpelling;
  }

  /** The supplied Authorization starts with a value that parses: it has to go. */
  predicate Presents(lib: Library, supplied: Headers) {
    lib.parsesAsAuthorization(Get(lib, supplied, AUTHORIZATION))
  }

  /** What of the supplied headers stays in the request. */
  predicate Stays(lib: Library, controlled: Headers, supplied: Headers, n: string) {
    && !HasHeader(lib, controlled, n) && lib.fold(n) != lib.fold(AEP_AUTHORIZATION)
    && !(lib.fold(n) == lib.fold(AUTHORIZATION) && Presents(lib, supplied))
  }

  /** The agent's headers with their values, and of the others exactly those that stay. */
  ghost predicate Settles(lib: Library, controlled: Headers, supplied: Headers, result: Headers) {
    && (forall n :: n in result && n in controlled ==> result[n] == controlled[n])
    && (FoldDistinct(lib, controlled) ==> controlled.Keys <= result.Keys)
    && (forall n :: n !in controlled ==>
          && (n in result <==> n in supplied && Stays(lib, controlled, supplied, n))
          && (n in result ==> result[n] == supplied[n]))
  }

  /** The merge is refused: an additional header names what the agent controls, or the
      agent sends no Authorization and an additional one would be removed. */
  ghost predicate Refuses(lib: Library, r: Request, same: bool, controlled: Headers, supplied: Headers) {
    same && (AnyConflict(lib, r.additional, controlled) ||
             (HasHeader(lib, r.additional, AUTHORIZATION) && !HasHeader(lib, controlled, AUTHORIZATION) && Presents(lib, supplied)))
  }

  lemma RemovedOne(lib: Library, headers: Headers, name: string)
    ensures var u := WithoutHeaders(lib, headers, [name]);
            && (forall n :: n in u <==> n in headers && lib.fold(n) != lib.fold(name))
            && (forall n :: n in u ==> u[n] == headers[n])
  {
    WithoutOne(lib, headers, name);
  }

  /** What the two removals leave of the supplied headers. */
  ghost predicate Cleans(lib: Library, controlled: Headers, supplied: Headers, cleaned: Headers) {
    && (forall n :: n in cleaned <==>
          && n in supplied && lib.fold(n) != lib.fold(AEP_AUTHORIZATION)
          && (lib.fold(n) == lib.fold(AUTHORIZATION) && Presents(lib, supplied) ==> HasHeader(lib, controlled, AUTHORIZATION)))
    && (forall n :: n in cleaned ==> cleaned[n] == supplied[n])
  }

  method CleanHeaders(lib: Library, r: Request, same: bool, controlled: Headers, supplied: Headers) returns (cleaned: Option<Headers>)
    requires Lawful(lib) && !(same && AnyConflict(lib, r.additional, controlled))
    ensures cleaned.None? <==> Refuses(lib, r, same, controlled, supplied)
    ensures cleaned.Some? ==> Cleans(lib, controlled, supplied, cleaned.value)
  {
    var merged := RemoveResourceHeaders(lib, supplied, [AEP_AUTHORIZATION]);
    RemovedOne(lib, supplied, AEP_AUTHORIZATION);
    hide WithoutHeaders, HasHeader, AnyConflict;
    assert lib.fold(lib.canonical(AUTHORIZATION)) == lib.fold(AUTHORIZATION);
    assert Get(lib, merged, AUTHORIZATION) == Get(lib, supplied, AUTHORIZATION);
    var has := ResourceHasHeader(lib, controlled, AUTHORIZATION);
    if !has {
      if lib.parsesAsAuthorization(Get(lib, merged, AUTHORIZATION)) {
        var extra := ResourceHasHeader(lib, r.additional, AUTHORIZATION);
        if same && extra { return None; }
        RemovedOne(lib, merged, AUTHORIZATION);
        merged := RemoveResourceHeaders(lib, merged, [AUTHORIZATION]);
      }
    }
    return Some(merged);
  }

  /** Refused only if it must be, otherwise merged; with names in one spelling the
      request itself says which. */
  method MergeResourceHeaders(lib: Library, r: Request, target: Url, controlled: Headers) returns (result: Option<Headers>)
    requires Lawful(lib)
    ensures result.None? ==> CannotMerge(lib, r, SameOrigin(lib, target, r.original), controlled)
    ensures result.Some? ==> MergedFor(lib, r, SameOrigin(lib, target, r.original), controlled, result.value)
    ensures OneSpelling(lib, r.headers) && OneSpelling(lib, r.additional) ==>
              (result.None? <==> MustRefuse(lib, r, SameOrigin(lib, target, r.original), controlled))
  {
    hide Supplied, Refuses, Controls, Cleans, Settles, Lawful, OneSpelling, MustRefuse, CannotMerge, MergedFor, AnyConflict, SameOrigin;
    var same := SameOrigin(lib, target, r.original);
    var caller := CallerHeaders(lib, r, same, controlled);
    if caller.None? {
      ConflictRefuses(lib, r, same, controlled);
      return None;
    }
    var cleaned := CleanHeaders(lib, r, same, controlled, caller.value);
    if OneSpelling(lib, r.headers) && OneSpelling(lib, r.additional) {
      RefusedExactly(lib, r, same, controlled, caller.value);
    }
    if cleaned.None? {
      RefusedMerge(lib, r, same, controlled, caller.value);
      return None;
    }
    var merged := ApplyControlled(lib, cleaned.value, controlled);
    MergeIsComplete(lib, controlled, caller.value, cleaned.value, merged);
    SettledMerge(lib, r, same, controlled, caller.value, merged);
    return Some(merged);
  }

  lemma ConflictRefuses(lib: Library, r: Request, same: bool, controlled: Headers)
    requires same && AnyConflict(lib, r.additional, controlled)
    ensures CannotMerge(lib, r, same, controlled) && MustRefuse(lib, r, same, controlled)
  {
  }

  lemma RefusedMerge(lib: Library, r: Request, same: bool, controlled: Headers, supplied: Headers)
    requires Supplied(lib, r, same, supplied) && Refuses(lib, r, same, controlled, supplied)
    ensures CannotMerge(lib, r, same, controlled)
  {
    hide Supplied;
  }

  lemma SettledMerge(lib: Library, r: Request, same: bool, controlled: Headers, supplied: Headers, result: Headers)
    requires Supplied(lib, r, same, supplied) && !Refuses(lib, r, same, controlled, supplied) && Settles(lib, controlled, supplied, result)
    ensures MergedFor(lib, r, same, controlled, result)
  {
    hide Supplied, Refuses, Settles;
  }

  lemma MergeIsComplete(lib: Library, controlled: Headers, supplied: Headers, cleaned: Headers, merged: Headers)
    requires Cleans(lib, controlled, supplied, cleaned) && Controls(lib, cleaned, controlled, {}, merged)
    ensures Settles(lib, controlled, supplied, merged)
  {
    hide Folds, HasHeader, FoldDistinct, Presents;
    FoldsIsHas(lib, controlled);
    forall n | n !in controlled
      ensures n in merged <==> n in supplied && Stays(lib, controlled, supplied, n)
      ensures n in merged ==> merged[n] == supplied[n]
    {
      SpellingsAgree(lib, controlled, n, AUTHORIZATION);
    }
  }

  lemma FoldsIsHas(lib: Library, controlled: Headers)
    ensures forall n :: Folds(lib, controlled, {}, n) <==> HasHeader(lib, controlled, n)
  {
  }

  lemma SpellingsAgree(lib: Library, headers: Headers, a: string, b: string)
    ensures lib.fold(a) == lib.fold(b) ==> (HasHeader(lib, headers, a) <==> HasHeader(lib, headers, b))
  {
  }

  ghost predicate CannotMerge(lib: Library, r: Request, same: bool, controlled: Headers) {
    same && (AnyConflict(lib, r.additional, controlled) ||
             exists supplied :: Supplied(lib, r, same, supplied) && Refuses(lib, r, same, controlled, supplied))
  }

  // ------------------------------------------------ what a merge promises

  /** What an authenticated request carries. */
  ghost predicate MergedFor(lib: Library, r: Request, same: bool, controlled: Headers, result: Headers) {
    exists supplied :: Supplied(lib, r, same, supplied) && !Refuses(lib, r, same, controlled, supplied) && Settles(lib, controlled, supplied, result)
  }

  /** Away from home nothing of the caller's travels. */
  lemma OnlyControlledAway(lib: Library, r: Request, controlled: Headers, result: Headers)
    requires MergedFor(lib, r, false, controlled, result)
    ensures forall n :: n in result ==> n in controlled && result[n] == controlled[n]
    ensures FoldDistinct(lib, controlled) ==> result == controlled
  {
  }

  /** The agent's own headers always travel, with the agent's values only, and nobody else
      fills the dedicated field. */
  lemma ControlledHeadersTravel(lib: Library, r: Request, same: bool, controlled: Headers, result: Headers)
    requires MergedFor(lib, r, same, controlled, result) && FoldDistinct(lib, controlled)
    ensures forall n :: n in controlled ==> n in result && result[n] == controlled[n]
    ensures forall n :: n in result && (HasHeader(lib, controlled, n) || lib.fold(n) == lib.fold("AEP-Authorization")) ==> n in controlled
  {
    hide Supplied, Refuses, HasHeader, Presents;
  }

  /** At home every additional header travels, unless one of its spellings came without
      values: with the values of one of its spellings. */
  lemma AdditionalHeadersTravel(lib: Library, r: Request, controlled: Headers, result: Headers, c: string)
    requires Lawful(lib) && MergedFor(lib, r, true, controlled, result)
    requires c in r.additional && NoneEmpty(lib, r.additional, {}, lib.canonical(c))
    ensures var n := lib.canonical(c);
            n in result && n !in controlled && Holds(lib, r.additional, {}, n, result[n])
  {
    var n := lib.canonical(c);
    var supplied :| Supplied(lib, r, true, supplied) && !Refuses(lib, r, true, controlled, supplied) && Settles(lib, controlled, supplied, result);
    assert lib.fold(n) == lib.fold(c);
    assert !Conflicts(lib, controlled, c);
    assert Names(lib, r.additional, {}, n);
    assert HasHeader(lib, controlled, n) <==> HasHeader(lib, controlled, c);
    assert lib.fold(c) == lib.fold(AUTHORIZATION) ==> HasHeader(lib, r.additional, AUTHORIZATION);
    assert lib.fold(c) == lib.fold(AUTHORIZATION) ==> (HasHeader(lib, controlled, c) <==> HasHeader(lib, controlled, AUTHORIZATION));
    assert n in controlled ==> HasHeader(lib, controlled, n);
    hide Names, NoneEmpty, Holds, HasHeader, IsRequestHeader, AnyConflict, Conflicts, FoldDistinct;
  }

  /** The request's own headers travel at home, unless a rule speaks of them. */
  lemma RequestHeadersTravel(lib: Library, r: Request, controlled: Headers, result: Headers, c: string, v: string)
    requires Lawful(lib) && MergedFor(lib, r, true, controlled, result)
    requires c in r.headers && v in r.headers[c] && !Names(lib, r.additional, {}, lib.canonical(c))
    requires !HasHeader(lib, controlled, c) && lib.fold(c) != lib.fold(AEP_AUTHORIZATION) && lib.fold(c) != lib.fold(AUTHORIZATION)
    ensures lib.canonical(c) in result && v in result[lib.canonical(c)]
  {
    var n := lib.canonical(c);
    assert lib.fold(n) == lib.fold(c);
    assert HasHeader(lib, controlled, n) <==> HasHeader(lib, controlled, c);
    assert n in controlled ==> HasHeader(lib, controlled, n);
    hide Names, NoneEmpty, Holds, HasHeader, IsRequestHeader, Refuses, FoldDistinct;
  }

  /** The Authorization values that the caller supplies, its names in one spelling. */
  ghost function CallerAuthorization(lib: Library, r: Request): seq<string> {
    var n := lib.canonical(AUTHORIZATION);
    if c :| c in r.additional && lib.canonical(c) == n then r.additional[c]
    else if c :| c in r.headers && lib.canonical(c) == n then r.headers[c]
    else []
  }

  lemma SuppliedAuthorization(lib: Library, r: Request, supplied: Headers)
    requires OneSpelling(lib, r.headers) && OneSpelling(lib, r.additional) && Supplied(lib, r, true, supplied)
    ensures Values(supplied, lib.canonical(AUTHORIZATION)) == CallerAuthorization(lib, r)
  {
    var n := lib.canonical(AUTHORIZATION);
    if c :| c in r.additional && lib.canonical(c) == n {
      assert Names(lib, r.additional, {}, n);
      assert r.additional[c] != [] ==> NoneEmpty(lib, r.additional, {}, n);
    } else if c :| c in r.headers && lib.canonical(c) == n {
      assert r.headers[c] != [] ==> r.headers[c][0] in r.headers[c];
    }
  }

  /** The condition on the request under which a merge is refused: at home, if an
      additional header names what the agent controls, or if the caller adds an
      Authorization where the agent has none and the first value supplied parses. */
  ghost predicate MustRefuse(lib: Library, r: Request, same: bool, controlled: Headers) {
    same &&
    (|| AnyConflict(lib, r.additional, controlled)
     || (&& HasHeader(lib, r.additional, AUTHORIZATION) && !HasHeader(lib, controlled, AUTHORIZATION)
         && var values := CallerAuthorization(lib, r);
            lib.parsesAsAuthorization(if values == [] then "" else values[0])))
  }

  lemma RefusedExactly(lib: Library, r: Request, same: bool, controlled: Headers, supplied: Headers)
    requires OneSpelling(lib, r.headers) && OneSpelling(lib, r.additional)
    requires !(same && AnyConflict(lib, r.additional, controlled)) ==> Supplied(lib, r, same, supplied)
    ensures Refuses(lib, r, same, controlled, supplied) <==> MustRefuse(lib, r, same, controlled)
  {
    hide Supplied, OneSpelling, CallerAuthorization, AnyConflict, HasHeader;
    if same && !AnyConflict(lib, r.additional, controlled) {
      SuppliedAuthorization(lib, r, supplied);
    }
  }

  /** A value that parses travels in an Authorization field that the agent does not control. */
  ghost predicate SecondAuthorization(lib: Library, controlled: Headers, result: Headers) {
    exists n, v :: n in result && n !in controlled && lib.fold(n) == lib.fold(AUTHORIZATION) && v in result[n] && lib.parsesAsAuthorization(v)
  }

  predicate HidesAuthorization(lib: Library, values: seq<string>) {
    values != [] && !lib.parsesAsAuthorization(values[0]) && exists v :: v in values && lib.parsesAsAuthorization(v)
  }

  /** Names of the caller's part are canonical. */
  lemma SuppliedNames(lib: Library, r: Request, same: bool, supplied: Headers, n: string)
    requires Lawful(lib) && Supplied(lib, r, same, supplied) && n in supplied && lib.fold(n) == lib.fold(AUTHORIZATION)
    ensures n == lib.canonical(AUTHORIZATION)
  {
    if Names(lib, r.additional, {}, n) {
      var c :| c in r.additional && lib.canonical(c) == n;
      assert lib.fold(c) == lib.fold(AUTHORIZATION);
    } else {
      var v := supplied[n][0];
      assert v in supplied[n];
      var c :| c in r.headers && lib.canonical(c) == n && v in r.headers[c];
      assert lib.fold(c) == lib.fold(AUTHORIZATION);
    }
  }

  /** When a parsed Authorization of the caller's travels beside the agent's field, in
      terms of the caller's part, whatever spellings it came from. */
  lemma SecondAuthorizationIsHidden(lib: Library, r: Request, same: bool, controlled: Headers, supplied: Headers, result: Headers)
    requires Lawful(lib) && Supplied(lib, r, same, supplied) && Settles(lib, controlled, supplied, result)
    ensures SecondAuthorization(lib, controlled, result) <==>
            && !HasHeader(lib, controlled, AUTHORIZATION)
            && HidesAuthorization(lib, Values(supplied, lib.canonical(AUTHORIZATION)))
    ensures same && OneSpelling(lib, r.headers) && OneSpelling(lib, r.additional) ==>
              Values(supplied, lib.canonical(AUTHORIZATION)) == CallerAuthorization(lib, r)
    ensures !same ==> !SecondAuthorization(lib, controlled, result)
  {
    var a := lib.canonical(AUTHORIZATION);
    assert lib.fold(a) == lib.fold(AUTHORIZATION);
    if same && OneSpelling(lib, r.headers) && OneSpelling(lib, r.additional) {
      SuppliedAuthorization(lib, r, supplied);
    }
    forall n | n in supplied && lib.fold(n) == lib.fold(AUTHORIZATION) ensures n == a {
      SuppliedNames(lib, r, same, supplied, n);
    }
    assert HasHeader(lib, controlled, a) <==> HasHeader(lib, controlled, AUTHORIZATION);
    assert a in controlled ==> HasHeader(lib, controlled, a);
    assert a in supplied ==> supplied[a] != [];
    hide Supplied, HasHeader, FoldDistinct, OneSpelling;
    assert SecondAuthorization(lib, controlled, result) <==>
           a in supplied && Stays(lib, controlled, supplied, a) && exists v :: v in supplied[a] && lib.parsesAsAuthorization(v);
  }

  /** Exactly when a parsed Authorization of the caller's travels beside the agent's
      field, names in one spelling: the agent controls none, the origin is the caller's,
      and the caller's first value does not parse, but a later one does.  The merge
      looks at the first value only. */
  lemma SecondAuthorizationExactly(lib: Library, r: Request, same: bool, controlled: Headers, result: Headers)
    requires Lawful(lib) && MergedFor(lib, r, same, controlled, result)
    requires OneSpelling(lib, r.headers) && OneSpelling(lib, r.additional)
    ensures SecondAuthorization(lib, controlled, result) <==>
            same && !HasHeader(lib, controlled, AUTHORIZATION) && HidesAuthorization(lib, CallerAuthorization(lib, r))
  {
    hide Supplied, Refuses, Settles, OneSpelling, CallerAuthorization, HasHeader, SecondAuthorization, HidesAuthorization, Lawful;
    var supplied :| Supplied(lib, r, same, supplied) && !Refuses(lib, r, same, controlled, supplied) && Settles(lib, controlled, supplied, result);
    SecondAuthorizationIsHidden(lib, r, same, controlled, supplied, result);
  }

  /** The smallest such request. */
  lemma SecondAuthorizationExample(lib: Library, r: Request, controlled: Headers, result: Headers)
    requires Lawful(lib) && lib.canonical(AUTHORIZATION) == AUTHORIZATION
    requires !lib.parsesAsAuthorization("Payment x") && lib.parsesAsAuthorization("Bearer t")
    requires r.headers == map[AUTHORIZATION := ["Payment x", "Bearer t"]] && r.additional == map[]
    requires controlled == map[AEP_AUTHORIZATION := ["AEP a.b.c"]]
    requires MergedFor(lib, r, true, controlled, result)
    ensures AUTHORIZATION in result && result[AUTHORIZATION] == ["Payment x", "Bearer t"]
    ensures SecondAuthorization(lib, controlled, result)
  {
    var supplied :| Supplied(lib, r, true, supplied) && !Refuses(lib, r, true, controlled, supplied) && Settles(lib, controlled, supplied, result);
    ExampleAuthorization(lib, r);
    var values := CallerAuthorization(lib, r);
    assert values[1] == "Bearer t" && values[1] in values;
    assert !HasHeader(lib, controlled, AUTHORIZATION);
    hide Supplied, Refuses, CallerAuthorization;
    SuppliedAuthorization(lib, r, supplied);
    SecondAuthorizationExactly(lib, r, true, controlled, result);
  }

  /** Such a merge is not refused. */
  lemma SecondAuthorizationIsMerged(lib: Library, r: Request, controlled: Headers)
    requires Lawful(lib) && lib.canonical(AUTHORIZATION) == AUTHORIZATION
    requires !lib.parsesAsAuthorization("Payment x")
    requires r.headers == map[AUTHORIZATION := ["Payment x", "Bearer t"]] && r.additional == map[]
    requires controlled == map[AEP_AUTHORIZATION := ["AEP a.b.c"]]
    ensures MergedFor(lib, r, true, controlled, r.headers + controlled)
  {
    assert Supplied(lib, r, true, r.headers) by {
      assert Holds(lib, r.headers, {}, AUTHORIZATION, r.headers[AUTHORIZATION]);
      assert IsRequestHeader(lib, r, AUTHORIZATION, r.headers[AUTHORIZATION]);
    }
    assert Settles(lib, controlled, r.headers, r.headers + controlled);
  }

  lemma ExampleAuthorization(lib: Library, r: Request)
    requires lib.canonical(AUTHORIZATION) == AUTHORIZATION
    requires r.headers == map[AUTHORIZATION := ["Payment x", "Bearer t"]] && r.additional == map[]
    ensures OneSpelling(lib, r.headers) && OneSpelling(lib, r.additional)
    ensures CallerAuthorization(lib, r) == ["Payment x", "Bearer t"]
  {
  }
}
