/** DID syntax as the Platform checks it before anything is stored, and what that
syntax buys: a scope key made of a principal and a Service DID can be taken apart
again.  */
module DIDSyntax {
  import opened Prelude

  predicate IsMethodCharacter(c: char) {
    'a' <= c <= 'z' || '0' <= c <= '9'
  }

  predicate IsIdentifierCharacter(c: char) {
    'a' <= c <= 'z' || 'A' <= c <= 'Z' || '0' <= c <= '9' || c in "._:-!$&'()*+,;="
  }

  predicate IsHex(c: char) {
    '0' <= c <= '9' || 'a' <= c <= 'f' || 'A' <= c <= 'F'
  }

  /** method-specific-id: identifier characters and percent-encoded octets. */
  predicate IsIdentifier(s: string) {
    if s == "" then true
    else if IsIdentifierCharacter(s[0]) then IsIdentifier(s[1..])
    else |s| >= 3 && s[0] == '%' && IsHex(s[1]) && IsHex(s[2]) && IsIdentifier(s[3..])
  }

  /** METHOD:IDENTIFIER, cut at the first colon, both parts nonempty. */
  predicate IsDIDTail(rest: string) {
    var cut := IndexOf(rest, ':');
    && 0 < cut < |rest| - 1
    && (forall i :: 0 <= i < cut ==> IsMethodCharacter(rest[i]))
    && IsIdentifier(rest[cut + 1..])
  }

  predicate IsDID(value: string) {
    "did:" <= value && IsDIDTail(value[4..])
  }

  /** The scanner: cut at the first colon, check the method name, then walk the
      identifier with an index that jumps over percent-encoded octets. */
  method ScanDID(value: string) returns (ok: bool)
    ensures ok <==> IsDID(value)
  {
    if !("did:" <= value) { return false; }
    var rest := value[4..];
    var cut := IndexOf(rest, ':');
    if cut == |rest| || cut == 0 || cut + 1 == |rest| { return false; }
    var at := 0;
    while at < cut
      invariant at <= cut
      invariant forall i :: 0 <= i < at ==> IsMethodCharacter(rest[i])
    {
      if !IsMethodCharacter(rest[at]) { return false; }
      at := at + 1;
    }
    var id := rest[cut + 1..];
    var index := 0;
    while index < |id|
      invariant index <= |id|
      invariant IsIdentifier(id) <==> IsIdentifier(id[index..])
    {
      var left := id[index..];
      if IsIdentifierCharacter(id[index]) {
        assert left[1..] == id[index + 1..];
        index := index + 1;
      } else {
        if id[index] != '%' || index + 2 >= |id| || !IsHex(id[index + 1]) || !IsHex(id[index + 2]) {
          return false;
        }
        assert left[3..] == id[index + 3..];
        index := index + 3;
      }
    }
    return true;
  }

  lemma {:induction false} IdentifierCharacters(s: string)
    requires IsIdentifier(s)
    ensures NUL[0] !in s
  {
    if s != "" {
      if IsIdentifierCharacter(s[0]) {
        IdentifierCharacters(s[1..]);
        assert s == [s[0]] + s[1..];
      } else {
        IdentifierCharacters(s[3..]);
        assert s == [s[0], s[1], s[2]] + s[3..];
      }
    }
  }

  lemma DIDHasNoNul(value: string)
    requires IsDID(value)
    ensures NUL[0] !in value
  {
    var rest := value[4..];
    var cut := IndexOf(rest, ':');
    IdentifierCharacters(rest[cut + 1..]);
    assert value == "did:" + rest[..cut] + ":" + rest[cut + 1..];
    assert NUL[0] !in rest[..cut];
  }

  // ------------------------------------------------------------ scope keys

  function ScopeKey(principal: string, serviceDID: string): string {
    principal + NUL + serviceDID
  }

  /** Scope keys of DIDs never collide, whatever octets the principals hold. */
  lemma ScopeKeyInjective(p: string, d: string, q: string, e: string)
    requires IsDID(d) && IsDID(e)
    requires ScopeKey(p, d) == ScopeKey(q, e)
    ensures p == q && d == e
  {
    DIDHasNoNul(d);
    DIDHasNoNul(e);
    var key := ScopeKey(p, d);
    assert key[|p|] == NUL[0] && key[|q|] == NUL[0];
    assert p == key[..|p|] && d == key[|p| + 1..];
    assert q == key[..|q|] && e == key[|q| + 1..];
  }

  /** Without the DID check two scopes can share a key. */
  lemma ScopeKeysCollideWithoutTheCheck()
    ensures exists p: string, d: string, q: string, e: string ::
              ScopeKey(p, d) == ScopeKey(q, e) && p != q && p != "" && q != "" && d != "" && e != ""
  {
    var p, d, q, e := "a", "b" + NUL + "c", "a" + NUL + "b", "c";
    assert ScopeKey(p, d) == ScopeKey(q, e);
    assert p != q;
  }
}
