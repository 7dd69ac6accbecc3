/** did:web identifiers: minting, resolution, and the probe by which a Platform
checks that its URL template agrees with both.

Whether a host is acceptable to net/url is a parameter.  A URL is compared as its
host and its printed path.  */
module DIDWeb {
  import opened Prelude
  import opened OctetText
  import opened URLEscaping

  const SCHEME: Octets := "did:web:"
  const DEFAULT_PREFIX: Octets := "agents"
  const DID_JSON: Octets := "/did.json"
  const WELL_KNOWN: Octets := "/.well-known/did.json"
  const PROBE: Octets := "aep-platform-did-url-probe"

  // --------------------------------------------------------------- minting

  function NonEmpty(pieces: seq<Octets>): seq<Octets> {
    if pieces == [] then [] else (if pieces[0] == [] then [] else [pieces[0]]) + NonEmpty(pieces[1..])
  }

  lemma {:induction false} NonEmptyAppend(pieces: seq<Octets>, piece: Octets)
    ensures NonEmpty(pieces + [piece]) == NonEmpty(pieces) + if piece == [] then [] else [piece]
  {
    if pieces == [] {
      assert pieces + [piece] == [piece];
    } else {
      NonEmptyAppend(pieces[1..], piece);
      var first, last := if pieces[0] == [] then [] else [pieces[0]], if piece == [] then [] else [piece];
      assert (pieces + [piece])[1..] == pieces[1..] + [piece];
      assert NonEmpty(pieces + [piece]) == first + (NonEmpty(pieces[1..]) + last);
    }
  }

  lemma NonEmptyNext(pieces: seq<Octets>, i: nat)
    requires i < |pieces|
    ensures NonEmpty(pieces[..i + 1]) == if pieces[i] == [] then NonEmpty(pieces[..i]) else NonEmpty(pieces[..i]) + [pieces[i]]
  {
    assert pieces[..i + 1] == pieces[..i] + [pieces[i]];
    NonEmptyAppend(pieces[..i], pieces[i]);
  }

  /** The path segments of a configured prefix; empty ones are dropped. */
  function PrefixSegments(pathPrefix: Octets): seq<Octets> {
    NonEmpty(Split(if pathPrefix == [] then DEFAULT_PREFIX else pathPrefix, '/'))
  }

  predicate ArePieces(segments: seq<Octets>) {
    segments != [] && forall i :: 0 <= i < |segments| ==> segments[i] != [] && '/' !in segments[i]
  }

  lemma {:induction false} NonEmptyOfPieces(segments: seq<Octets>)
    requires forall i :: 0 <= i < |segments| ==> segments[i] != []
    ensures NonEmpty(segments) == segments
  {
    if segments != [] {
      NonEmptyOfPieces(segments[1..]);
      assert segments == [segments[0]] + segments[1..];
    }
  }

  /** A configured prefix is the list of its segments with slashes in between; one more at
      either end does not matter. */
  lemma PrefixesAreSegments(segments: seq<Octets>)
    requires ArePieces(segments)
    ensures var plain := segments[0] + Prefixed(segments[1..], '/');
            PrefixSegments(plain) == segments && PrefixSegments(['/'] + plain) == segments && PrefixSegments(plain + ['/']) == segments
  {
    var first, rest := segments[0], segments[1..];
    var plain := first + Prefixed(rest, '/');
    assert segments == [first] + rest;
    NonEmptyOfPieces(segments);
    SplitPrefixed(first, rest, '/');
    SplitPrefixed([], segments, '/');
    PrefixedAppend(rest, [], '/');
    SplitPrefixed(first, rest + [[]], '/');
    NonEmptyAppend(segments, []);
    hide Split, Prefixed, NonEmpty;
    assert [first] + (rest + [[]]) == segments + [[]];
    LeadingSlash(first, rest);
    DropsTheFirst(segments);
    assert first + (Prefixed(rest, '/') + ['/'] + []) == plain + ['/'];
  }

  lemma LeadingSlash(first: Octets, rest: seq<Octets>)
    ensures [] + Prefixed([first] + rest, '/') == ['/'] + (first + Prefixed(rest, '/'))
  {
    assert ([first] + rest)[1..] == rest;
  }

  lemma DropsTheFirst(segments: seq<Octets>)
    ensures NonEmpty([[]] + segments) == NonEmpty(segments)
  {
    assert ([[]] + segments)[1..] == segments;
  }

  /** No prefix at all means "agents". */
  lemma TheDefaultPrefix()
    ensures PrefixSegments([]) == ["agents"]
  {
    var agents: Octets := "agents";
    PrefixesAreSegments([agents]);
    assert agents + Prefixed([agents][1..], '/') == agents;
  }

  function Escaped(mode: Mode, segments: seq<Octets>): (escaped: seq<Octets>)
    ensures |escaped| == |segments|
    ensures forall i :: 0 <= i < |escaped| ==> escaped[i] == Escape(mode, segments[i])
  {
    seq(|segments|, i requires 0 <= i < |segments| => Escape(mode, segments[i]))
  }

  /** A did:web DID for a host and decoded path segments. */
  function Minted(host: Octets, segments: seq<Octets>): Octets {
    SCHEME + Escape(Component, host) + Prefixed(Escaped(Component, segments), ':')
  }

  lemma MintedAppend(host: Octets, segments: seq<Octets>, segment: Octets)
    ensures Minted(host, segments + [segment]) == Minted(host, segments) + [':'] + Escape(Component, segment)
  {
    hide Escape, Prefixed;
    var escaped, last := Escaped(Component, segments), Escape(Component, segment);
    assert Escaped(Component, segments + [segment]) == escaped + [last];
    PrefixedAppend(escaped, last, ':');
  }

  lemma MintedHost(host: Octets)
    ensures Minted(host, []) == SCHEME + Escape(Component, host)
  {
  }

  /** Appends the escaped parts to the DID one after the other. */
  method CreateServiceScopedAgentDID(host: Octets, pathPrefix: Octets, identifier: Octets, validHost: Octets -> bool) returns (did: Option<Octets>)
    ensures did.None? <==> host == [] || identifier == [] || !validHost(host)
    ensures did.Some? ==> did.value == Minted(host, PrefixSegments(pathPrefix) + [identifier])
  {
    if host == [] || identifier == [] || !validHost(host) { return None; }
    var prefix := if pathPrefix == [] then DEFAULT_PREFIX else pathPrefix;
    var pieces := Split(prefix, '/');
    var text: Octets := SCHEME + Escape(Component, host);
    MintedHost(host);
    ghost var segments: seq<Octets> := [];
    assert NonEmpty(pieces[..0]) == [];
    hide SCHEME, Minted, Split, Escape, Escaped, Prefixed, NonEmpty;
    for i := 0 to |pieces|
      invariant segments == NonEmpty(pieces[..i]) && text == Minted(host, segments)
    {
      NonEmptyNext(pieces, i);
      if pieces[i] != [] {
        MintedAppend(host, segments, pieces[i]);
        text := text + [':'] + Escape(Component, pieces[i]);
        segments := segments + [pieces[i]];
      }
    }
    assert pieces[..|pieces|] == pieces;
    MintedAppend(host, segments, identifier);
    return Some(text + [':'] + Escape(Component, identifier));
  }

  // ------------------------------------------------------------ resolution

  predicate IsSegment(s: Octets) {
    s != [] && s != "." && s != ".." &&
    forall c :: c in s ==> c != '/' && c != '\\' && c != '?' && c != '#' && c as int >= 0x21 && c as int != 0x7f
  }

  /** The scan of isDIDWebPathSegment. */
  method IsDIDWebPathSegment(s: Octets) returns (ok: bool)
    ensures ok <==> IsSegment(s)
    ensures ok <==> s !in {"", ".", ".."} && forall c :: c in s ==> ' ' < c != '\U{007f}' && c !in "/\\?#"
  {
    if s == [] || s == "." || s == ".." { return false; }
    for index := 0 to |s|
      invariant forall c :: c in s[..index] ==> c != '/' && c != '\\' && c != '?' && c != '#' && c as int >= 0x21 && c as int != 0x7f
    {
      var c := s[index];
      if c == '/' || c == '\\' || c == '?' || c == '#' || c as int < 0x21 || c as int == 0x7f {
        assert c in s;
        return false;
      }
      assert s[..index + 1] == s[..index] + [c];
    }
    assert s[..|s|] == s;
    return true;
  }

  datatype Location = Location(host: Octets, path: Octets)

  /** The decoded segments, or None when one does not decode to a single segment. */
  function Decoded(parts: seq<Octets>): Option<seq<Octets>> {
    if parts == [] then Some([])
    else
      var first, rest := Unescape(parts[0]), Decoded(parts[1..]);
      if first.None? || !IsSegment(first.value) || rest.None? then None else Some([first.value] + rest.value)
  }

  /** The document's location with its path still decoded. */
  function Resolved(did: Octets, validHost: Octets -> bool): Option<Location> {
    if !(SCHEME <= did) then None
    else
      var parts := Split(did[|SCHEME|..], ':');
      var host, segments := Unescape(parts[0]), Decoded(parts[1..]);
      if parts[0] == [] || host.None? || !validHost(host.value) || segments.None? then None
      else if |parts| == 1 then Some(Location(host.value, WELL_KNOWN))
      else Some(Location(host.value, Prefixed(segments.value, '/') + DID_JSON))
  }

  lemma {:induction false} DecodedAppend(parts: seq<Octets>, part: Octets)
    ensures var all, before, last := Decoded(parts + [part]), Decoded(parts), Unescape(part);
            && (all.Some? <==> before.Some? && last.Some? && IsSegment(last.value))
            && (all.Some? ==> all.value == before.value + [last.value])
  {
    if parts == [] {
      assert parts + [part] == [part];
      assert Decoded([part][1..]) == Some([]);
    } else {
      DecodedAppend(parts[1..], part);
      assert (parts + [part])[1..] == parts[1..] + [part];
    }
  }

  lemma {:induction false} DecodedPrefix(parts: seq<Octets>, n: nat)
    requires n <= |parts| && Decoded(parts).Some?
    ensures Decoded(parts[..n]).Some?
  {
    if n == |parts| {
      assert parts[..n] == parts;
    } else {
      var m := |parts| - 1;
      assert parts == parts[..m] + [parts[m]];
      DecodedAppend(parts[..m], parts[m]);
      DecodedPrefix(parts[..m], n);
      assert parts[..m][..n] == parts[..n];
    }
  }

  method DIDWebDocumentURL(did: Octets, validHost: Octets -> bool) returns (location: Option<Location>)
    ensures location == Resolved(did, validHost)
  {
    if !(SCHEME <= did) { return None; }
    var parts := Split(did[|SCHEME|..], ':');
    if parts[0] == [] { return None; }
    var host := Unescape(parts[0]);
    if host.None? || !validHost(host.value) { return None; }
    if |parts| == 1 {
      assert Decoded(parts[1..]) == Some([]);
      return Some(Location(host.value, WELL_KNOWN));
    }
    var rest := parts[1..];
    var path: Octets := [];
    ghost var decoded := [];
    for i := 0 to |rest|
      invariant Decoded(rest[..i]) == Some(decoded)
      invariant path == Prefixed(decoded, '/')
    {
      assert rest[..i + 1] == rest[..i] + [rest[i]];
      DecodedAppend(rest[..i], rest[i]);
      var component := Unescape(rest[i]);
      if component.None? { RefusedPart(rest, i); return None; }
      var valid := IsDIDWebPathSegment(component.value);
      if !valid { RefusedPart(rest, i); return None; }
      PrefixedAppend(decoded, component.value, '/');
      path := path + ['/'] + component.value;
      decoded := decoded + [component.value];
    }
    assert rest[..|rest|] == rest;
    return Some(Location(host.value, path + DID_JSON));
  }

  lemma RefusedPart(parts: seq<Octets>, i: nat)
    requires i < |parts| && Decoded(parts[..i + 1]).None?
    ensures Decoded(parts).None?
  {
    if Decoded(parts).Some? { DecodedPrefix(parts, i + 1); }
  }

  lemma {:induction false} DecodedEscaped(segments: seq<Octets>)
    ensures Decoded(Escaped(Component, segments)) ==
            if forall i :: 0 <= i < |segments| ==> IsSegment(segments[i]) then Some(segments) else None
  {
    if segments != [] {
      assert Escaped(Component, segments)[1..] == Escaped(Component, segments[1..]);
      UnescapeEscape(Component, segments[0]);
      hide IsSegment;
      DecodedEscaped(segments[1..]);
      assert [segments[0]] + segments[1..] == segments;
      assert (forall i :: 0 <= i < |segments| ==> IsSegment(segments[i])) <==>
             IsSegment(segments[0]) && forall i :: 0 <= i < |segments[1..]| ==> IsSegment(segments[1..][i]);
    }
  }

  lemma NoColonInComponents(s: Octets)
    ensures ':' !in Escape(Component, s)
  {
    EscapedOctets(Component, s);
    hide Escape;
  }

  lemma MintedParts(host: Octets, segments: seq<Octets>)
    ensures SCHEME <= Minted(host, segments)
    ensures Split(Minted(host, segments)[|SCHEME|..], ':') == [Escape(Component, host)] + Escaped(Component, segments)
  {
    hide SCHEME, Escape, Split, Prefixed;
    var first, rest := Escape(Component, host), Escaped(Component, segments);
    NoColonInComponents(host);
    forall i | 0 <= i < |rest| ensures ':' !in rest[i] {
      NoColonInComponents(segments[i]);
    }
    hide Escaped;
    assert Minted(host, segments) == SCHEME + (first + Prefixed(rest, ':'));
    assert Minted(host, segments)[|SCHEME|..] == first + Prefixed(rest, ':');
    SplitPrefixed(first, rest, ':');
  }

  /** Minting and resolution are inverse: resolving a minted DID reaches exactly its
      host and its segments, and fails exactly when one of these is no good.  A DID
      of a host alone has its document at the well-known place. */
  lemma MintedDIDResolves(host: Octets, segments: seq<Octets>, validHost: Octets -> bool)
    requires host != []
    ensures Resolved(Minted(host, segments), validHost) ==
            if validHost(host) && forall i :: 0 <= i < |segments| ==> IsSegment(segments[i])
            then Some(Location(host, if segments == [] then WELL_KNOWN else Prefixed(segments, '/') + DID_JSON)) else None
    ensures SCHEME == "did:web:" && WELL_KNOWN == "/.well-known/did.json" && DID_JSON == "/did.json"
  {
    MintedParts(host, segments);
    UnescapeEscape(Component, host);
    DecodedEscaped(segments);
    assert Escape(Component, host) != [];
    hide Escape, Escaped, Split, Prefixed, Unescape, Decoded, IsSegment, Minted;
    var first, rest := Escape(Component, host), Escaped(Component, segments);
    assert ([first] + rest)[1..] == rest;
  }

  /** Different hosts or segments never share a DID. */
  lemma MintedIsInjective(host: Octets, segments: seq<Octets>, other: Octets, others: seq<Octets>)
    requires Minted(host, segments) == Minted(other, others)
    ensures host == other && segments == others
  {
    hide Minted, Split, Escape;
    MintedParts(host, segments);
    MintedParts(other, others);
    var a, b := [Escape(Component, host)] + Escaped(Component, segments), [Escape(Component, other)] + Escaped(Component, others);
    assert a[0] == Escape(Component, host) && b[0] == Escape(Component, other);
    EscapeInjective(Component, host, other);
    assert a[1..] == Escaped(Component, segments) && b[1..] == Escaped(Component, others);
    forall i | 0 <= i < |segments| ensures segments[i] == others[i] {
      assert Escaped(Component, segments)[i] == Escaped(Component, others)[i];
      EscapeInjective(Component, segments[i], others[i]);
    }
  }
}
