/** What a Platform learns at construction by rendering its URL template for two
identifiers, a sample and a probe: the template then names the right document for
every other identifier, except for an exactly known family.

A template is a host and a path with the placeholder in it.  Two URLs are equal when
their hosts and their printed paths are.  */
module DIDProbe {
  import opened Prelude
  import opened OctetText
  import opened URLEscaping
  import opened DIDWeb

  /** Rendered first of all, when the discovery document is made. */
  const SAMPLE: Octets := "validation"

  /** The path text before and after the placeholder. */
  datatype Template = Template(host: Octets, before: Octets, after: Octets)

  /** The two texts are parts of one path.  Without the leading slash the placeholder
      would stand in the host, and a "?" or "#" would end the path. */
  predicate IsPathTemplate(t: Template) {
    && t.before != [] && t.before[0] == '/'
    && forall c :: c in t.before || c in t.after ==> c != '?' && c != '#'
  }

  predicate HasControl(s: Octets) {
    exists c :: c in s && (c as int < 0x20 || c as int == 0x7f)
  }

  /** The printed URL of an identifier's document, by the template. */
  function Rendered(t: Template, identifier: Octets, validHost: Octets -> bool): Option<Location> {
    var path := Normal(t.before + Escape(Component, identifier) + t.after);
    if !validHost(t.host) || HasControl(t.before) || HasControl(t.after) || path.None? then None
    else Some(Location(t.host, path.value))
  }

  /** The printed URL that resolving the minted DID reaches. */
  function Reached(host: Octets, prefix: seq<Octets>, identifier: Octets, validHost: Octets -> bool): Option<Location> {
    var location := Resolved(Minted(host, prefix + [identifier]), validHost);
    if location.None? then None else Some(Location(location.value.host, Escape(Path, location.value.path)))
  }

  predicate Agrees(t: Template, host: Octets, prefix: seq<Octets>, identifier: Octets, validHost: Octets -> bool) {
    var rendered := Rendered(t, identifier, validHost);
    rendered.Some? && rendered == Reached(host, prefix, identifier, validHost)
  }

  /** validateDIDURLTemplate, for a host that can be minted. */
  predicate ProbePasses(t: Template, host: Octets, prefix: seq<Octets>, validHost: Octets -> bool) {
    host != [] && validHost(host) && Agrees(t, host, prefix, PROBE, validHost)
  }

  method ValidateDIDURLTemplate(t: Template, host: Octets, pathPrefix: Octets, validHost: Octets -> bool) returns (ok: bool)
    ensures ok <==> ProbePasses(t, host, PrefixSegments(pathPrefix), validHost)
  {
    var did := CreateServiceScopedAgentDID(host, pathPrefix, PROBE, validHost);
    if did.None? { return false; }
    var rendered := Rendered(t, PROBE, validHost);
    if rendered.None? { return false; }
    var resolved := DIDWebDocumentURL(did.value, validHost);
    if resolved.None? { return false; }
    ok := rendered.value == Location(resolved.value.host, Escape(Path, resolved.value.path));
  }

  /** What construction accepts: the sample can be rendered, and the probe passes. */
  predicate Constructs(t: Template, host: Octets, prefix: seq<Octets>, validHost: Octets -> bool) {
    Rendered(t, SAMPLE, validHost).Some? && ProbePasses(t, host, prefix, validHost)
  }

  /** The checks of the host, the prefix and the template, in their order. */
  method CheckTemplate(t: Template, host: Octets, pathPrefix: Octets, validHost: Octets -> bool) returns (ok: bool)
    ensures ok <==> Constructs(t, host, PrefixSegments(pathPrefix), validHost)
  {
    var did := CreateServiceScopedAgentDID(host, pathPrefix, SAMPLE, validHost);
    if did.None? { return false; }
    if Rendered(t, SAMPLE, validHost).None? { return false; }
    ok := ValidateDIDURLTemplate(t, host, pathPrefix, validHost);
  }

  /** A template can be rendered exactly if its host is valid, its path holds no control
      octet, and the path with the identifier in it decodes. */
  lemma RendersExactly(t: Template, identifier: Octets, validHost: Octets -> bool)
    ensures Rendered(t, identifier, validHost).Some? <==>
            && validHost(t.host) && Unescape(t.before + Escape(Component, identifier) + t.after).Some?
            && forall c :: c in t.before || c in t.after ==> ' ' <= c != '\U{007f}'
  {
    hide Escape, Unescape, IsValidEncoding;
  }

  // ------------------------------------------------- one occurrence only

  predicate OccursAt(p: Octets, s: Octets, i: nat) {
    i + |p| <= |s| && s[i..i + |p|] == p
  }

  predicate Occurs(p: Octets, s: Octets) {
    exists i :: 0 <= i <= |s| && OccursAt(p, s, i)
  }

  /** The printed prefix of every minted document's path. */
  function PrefixText(prefix: seq<Octets>): Octets {
    Escape(Path, Prefixed(prefix, '/'))
  }

  lemma OccursInFront(p: Octets, front: Octets, rest: Octets, i: nat)
    requires OccursAt(p, front + rest, i) && i + |p| <= |front|
    ensures Occurs(p, front)
  {
    assert (front + rest)[i..i + |p|] == front[i..i + |p|];
    assert OccursAt(p, front, i);
  }

  lemma OctetOfOccurrence(p: Octets, s: Octets, i: nat, k: nat)
    requires OccursAt(p, s, i) && i <= k < i + |p|
    ensures s[k] in p
  {
    assert s[i..i + |p|][k - i] == s[k];
  }

  /** An occurrence cannot reach across an octet that the text does not have. */
  lemma OccursBeside(p: Octets, s: Octets, i: nat, k: nat)
    requires OccursAt(p, s, i) && k < |s| && s[k] !in p
    ensures k < i || i + |p| <= k
  {
    if i <= k < i + |p| {
      OctetOfOccurrence(p, s, i, k);
      assert false;
    }
  }

  lemma ProbeOctets()
    ensures |PROBE| == 26 && |DID_JSON| == 9 && DID_JSON[0] == '/'
    ensures forall c :: c in PROBE ==> Unreserved(c)
  {
  }

  /** In `pre`/PROBE/did.json the probe occurs only where it was put. */
  lemma ProbeOccursOnce(pre: Octets, a: Octets, b: Octets)
    requires !Occurs(PROBE, pre)
    requires a + PROBE + b == pre + ['/'] + PROBE + DID_JSON
    ensures a == pre + ['/'] && b == DID_JSON
  {
    ProbeOctets();
    OnlyOccurrence(PROBE, pre, DID_JSON, a, b);
  }

  lemma OnlyOccurrence(p: Octets, pre: Octets, post: Octets, a: Octets, b: Octets)
    requires !Occurs(p, pre) && '/' !in p && 0 < |post| < |p| && post[0] == '/'
    requires a + p + b == pre + ['/'] + p + post
    ensures a == pre + ['/'] && b == post
  {
    var text := pre + ['/'] + p + post;
    var i, q := |a|, |pre| + 1;
    assert (a + p + b)[i..i + |p|] == p;
    assert OccursAt(p, text, i);
    assert text[q - 1] == '/' && text[q + |p|] == '/';
    OccursBeside(p, text, i, q - 1);
    OccursBeside(p, text, i, q + |p|);
    if i + |p| <= |pre| {
      assert text == pre + (['/'] + p + post);
      OccursInFront(p, pre, ['/'] + p + post, i);
      assert false;
    }
    assert i == q;
    assert a == (a + p + b)[..i] && pre + ['/'] == text[..q];
    assert b == (a + p + b)[i + |p|..] && post == text[q + |p|..];
  }

  lemma ReachedPath(host: Octets, prefix: seq<Octets>, identifier: Octets, validHost: Octets -> bool)
    requires host != [] && validHost(host)
    ensures Reached(host, prefix, identifier, validHost) ==
            if (forall i :: 0 <= i < |prefix| ==> IsSegment(prefix[i])) && IsSegment(identifier)
            then Some(Location(host, PrefixText(prefix) + ['/'] + Escape(Path, identifier) + DID_JSON)) else None
  {
    hide IsSegment, Resolved, Minted, Escape;
    var segments := prefix + [identifier];
    MintedDIDResolves(host, segments, validHost);
    PrefixedAppend(prefix, identifier, '/');
    PathText(Prefixed(prefix, '/'), identifier);
    assert (forall i :: 0 <= i < |segments| ==> IsSegment(segments[i])) <==>
           (forall i :: 0 <= i < |prefix| ==> IsSegment(prefix[i])) && IsSegment(identifier) by {
      assert forall i :: 0 <= i < |prefix| ==> segments[i] == prefix[i];
      assert segments[|prefix|] == identifier;
    }
  }

  lemma PathText(p: Octets, identifier: Octets)
    ensures Escape(Path, p + ['/'] + identifier + DID_JSON) == Escape(Path, p) + ['/'] + Escape(Path, identifier) + DID_JSON
  {
    SlashAndJSONAreKept();
    EscapeAppend(Path, p + ['/'] + identifier, DID_JSON);
    EscapeAppend(Path, p + ['/'], identifier);
    EscapeAppend(Path, p, ['/']);
    hide Escape;
  }

  lemma SlashAndJSONAreKept()
    ensures Escape(Path, ['/']) == ['/'] && Escape(Path, DID_JSON) == DID_JSON
  {
    KeptText(['/']);
    KeptText(DID_JSON);
  }

  lemma {:induction false} KeptText(s: Octets)
    requires forall c :: c in s ==> Keeps(Path, c)
    ensures Escape(Path, s) == s
  {
    if s != [] {
      KeptText(s[1..]);
      assert EscapeOctet(Path, s[0]) == [s[0]];
      assert [s[0]] + s[1..] == s;
    }
  }

  lemma UnreservedText(s: Octets)
    requires forall c :: c in s ==> Unreserved(c)
    ensures Escape(Component, s) == s && Escape(Path, s) == s
    ensures s != [] && s != "." && s != ".." ==> IsSegment(s)
  {
    KeptText(s);
    ComponentAndPathAgree(s);
  }

  lemma ProbeIsKept()
    ensures Escape(Component, PROBE) == PROBE && Escape(Path, PROBE) == PROBE && IsSegment(PROBE)
  {
    ProbeOctets();
    UnreservedText(PROBE);
  }

  // -------------------------------------------------- rendering identifiers

  /** The decoded text around the identifier does not depend on the identifier. */
  lemma RenderedDecodes(t: Template, identifier: Octets)
    requires Unescape(t.before).Some?
    ensures Unescape(t.before + Escape(Component, identifier) + t.after) ==
            if Unescape(t.after).None? then None else Some(Unescape(t.before).value + identifier + Unescape(t.after).value)
  {
    UnescapeEscape(Component, identifier);
    UnescapeAppend(t.before, Escape(Component, identifier));
    UnescapeAppend(t.before + Escape(Component, identifier), t.after);
  }

  lemma RenderedEncoding(t: Template, identifier: Octets)
    ensures IsValidEncoding(t.before + Escape(Component, identifier) + t.after) <==> IsValidEncoding(t.before + t.after)
  {
    EscapedOctets(Component, identifier);
    var text := t.before + Escape(Component, identifier) + t.after;
    assert forall c :: c in text <==> c in t.before || c in Escape(Component, identifier) || c in t.after;
    assert forall c :: c in t.before + t.after <==> c in t.before || c in t.after;
  }

  // ------------------------------------------------ what the sample settles

  /** A percent sign left open before the placeholder swallows the identifier's first
      octet, and decoding fails unless that is a hexadecimal digit. */
  lemma {:induction false} OpenPercentRefuses(before: Octets, rest: Octets)
    requires Unescape(before).None? && rest != [] && Digit(rest[0]).None?
    ensures Unescape(before + rest).None?
    decreases |before|
  {
    var s := before + rest;
    if First(before).Some? {
      var n := First(before).value.0;
      assert First(s) == First(before);
      assert s[n..] == before[n..] + rest;
      OpenPercentRefuses(before[n..], rest);
    } else {
      assert before[0] == '%';
      assert |before| == 1 ==> s[1] == rest[0];
      assert |before| == 2 ==> s[2] == rest[0];
      assert |before| >= 3 ==> s[1] == before[1] && s[2] == before[2];
    }
  }

  lemma SampleIsKept()
    ensures Escape(Component, SAMPLE) == SAMPLE && SAMPLE != [] && Digit(SAMPLE[0]).None?
  {
    assert forall c :: c in SAMPLE ==> Unreserved(c);
    UnreservedText(SAMPLE);
  }

  /** The sample does not begin with a hexadecimal digit, so a template for which it
      can be rendered leaves no percent sign open before the placeholder. */
  lemma SampleClosesPercents(t: Template, validHost: Octets -> bool)
    requires Rendered(t, SAMPLE, validHost).Some?
    ensures Unescape(t.before).Some?
  {
    SampleIsKept();
    hide SAMPLE, Escape, Unescape, Digit, HasControl;
    assert t.before + SAMPLE + t.after == t.before + (SAMPLE + t.after);
    if Unescape(t.before).None? {
      OpenPercentRefuses(t.before, SAMPLE + t.after);
      assert false;
    }
  }

  /** Of the templates that pass the probe, rendering the sample refuses exactly those
      with a percent sign open before the placeholder. */
  lemma SampleRefusesOpenPercents(t: Template, host: Octets, prefix: seq<Octets>, validHost: Octets -> bool)
    requires ProbePasses(t, host, prefix, validHost)
    ensures Constructs(t, host, prefix, validHost) <==> Unescape(t.before).Some?
  {
    hide SAMPLE, PROBE, Escape, Unescape, HasControl, Reached, IsValidEncoding;
    if Unescape(t.before).Some? {
      RenderedDecodes(t, PROBE);
      RenderedDecodes(t, SAMPLE);
    } else if Rendered(t, SAMPLE, validHost).Some? {
      SampleClosesPercents(t, validHost);
      assert false;
    }
  }

  // ------------------------------------------------------------- theorems

  predicate HasReserved(s: Octets) {
    exists c :: c in s && PathReserved(c)
  }

  /** What acceptance at construction says about the template's text. */
  lemma ProbeReadsTheTemplate(t: Template, host: Octets, prefix: seq<Octets>, validHost: Octets -> bool)
    requires Constructs(t, host, prefix, validHost) && !Occurs(PROBE, PrefixText(prefix))
    ensures host != [] && t.host == host && validHost(host) && (forall i :: 0 <= i < |prefix| ==> IsSegment(prefix[i]))
    ensures !HasControl(t.before) && !HasControl(t.after) && Unescape(t.before).Some? && Unescape(t.after).Some?
    ensures if IsValidEncoding(t.before + t.after)
            then t.before == PrefixText(prefix) + ['/'] && t.after == DID_JSON
            else Escape(Path, Unescape(t.before).value) == PrefixText(prefix) + ['/'] && Escape(Path, Unescape(t.after).value) == DID_JSON
  {
    hide Escape, Unescape, IsValidEncoding, IsSegment, HasControl, PrefixText, Reached, Occurs, PROBE, SAMPLE, DID_JSON;
    SampleClosesPercents(t, validHost);
    ProbeIsKept();
    ReachedPath(host, prefix, PROBE, validHost);
    RenderedDecodes(t, PROBE);
    RenderedEncoding(t, PROBE);
    var pre := PrefixText(prefix);
    if IsValidEncoding(t.before + t.after) {
      ProbeOccursOnce(pre, t.before, t.after);
    } else {
      var b, a := Unescape(t.before).value, Unescape(t.after).value;
      EscapeAppend(Path, b + PROBE, a);
      EscapeAppend(Path, b, PROBE);
      ProbeOccursOnce(pre, Escape(Path, b), Escape(Path, a));
    }
  }

  /** Construction settles every identifier: a template that was accepted and did:web
      resolution agree on an identifier unless the template is printed as it was written
      and the identifier has an octet that a path leaves alone and a component does not.
      This needs that the probe text does not also occur in the printed prefix. */
  lemma ProbeSettlesIdentifiers(t: Template, host: Octets, prefix: seq<Octets>, validHost: Octets -> bool, identifier: Octets)
    requires Constructs(t, host, prefix, validHost) && !Occurs(PROBE, PrefixText(prefix))
    requires IsSegment(identifier)
    ensures Agrees(t, host, prefix, identifier, validHost) <==> !(IsValidEncoding(t.before + t.after) && HasReserved(identifier))
  {
    hide Escape, Unescape, IsValidEncoding, IsSegment, HasControl, PrefixText, Reached, Occurs, HasReserved, Constructs, PROBE, DID_JSON;
    ProbeReadsTheTemplate(t, host, prefix, validHost);
    ReachedPath(host, prefix, identifier, validHost);
    RenderedDecodes(t, identifier);
    RenderedEncoding(t, identifier);
    ReservedIsTheDifference(identifier);
    var pre := PrefixText(prefix);
    if IsValidEncoding(t.before + t.after) {
      MiddleIsUnique(pre + ['/'], Escape(Component, identifier), Escape(Path, identifier), DID_JSON);
    } else {
      var b, a := Unescape(t.before).value, Unescape(t.after).value;
      EscapeAppend(Path, b + identifier, a);
      EscapeAppend(Path, b, identifier);
    }
  }

  lemma ReservedIsTheDifference(identifier: Octets)
    requires IsSegment(identifier)
    ensures HasReserved(identifier) <==> Escape(Component, identifier) != Escape(Path, identifier)
  {
    ComponentAndPathAgree(identifier);
    assert forall c :: c in identifier ==> c != '/';
    hide Escape;
  }

  lemma MiddleIsUnique(a: Octets, x: Octets, y: Octets, b: Octets)
    ensures a + x + b == a + y + b <==> x == y
  {
    if a + x + b == a + y + b {
      assert |x| == |y|;
      assert x == (a + x + b)[|a|..|a| + |x|] && y == (a + y + b)[|a|..|a| + |y|];
    }
  }

  /** Identifiers of unreserved octets that are path segments. */
  predicate IsName(s: Octets) {
    s != [] && s != "." && s != ".." && forall c :: c in s ==> Unreserved(c)
  }

  /** In particular every identifier of unreserved octets is settled. */
  lemma ProbeSettlesUnreserved(t: Template, host: Octets, prefix: seq<Octets>, validHost: Octets -> bool, identifier: Octets)
    requires Constructs(t, host, prefix, validHost) && !Occurs(PROBE, PrefixText(prefix))
    requires IsName(identifier)
    ensures Agrees(t, host, prefix, identifier, validHost)
  {
    hide Agrees, Constructs, Occurs, PrefixText, Escape, Unescape, IsSegment, PROBE;
    UnreservedText(identifier);
    ProbeSettlesIdentifiers(t, host, prefix, validHost, identifier);
  }

  /** The template that spells out the printed prefix is accepted, for every host and prefix. */
  lemma IntendedTemplatePasses(host: Octets, prefix: seq<Octets>, validHost: Octets -> bool)
    requires host != [] && validHost(host) && forall i :: 0 <= i < |prefix| ==> IsSegment(prefix[i])
    ensures var t := Template(host, PrefixText(prefix) + ['/'], DID_JSON);
            IsPathTemplate(t) && Constructs(t, host, prefix, validHost)
  {
    hide Escape, Unescape, IsSegment, Reached, PROBE, SAMPLE, DID_JSON, PrefixText, HasControl, IsValidEncoding, IsPathTemplate;
    var t := Template(host, PrefixText(prefix) + ['/'], DID_JSON);
    ProbeIsKept();
    ReachedPath(host, prefix, PROBE, validHost);
    PrefixTextIsClean(prefix);
    RenderedDecodes(t, PROBE);
    RenderedEncoding(t, PROBE);
    SampleRefusesOpenPercents(t, host, prefix, validHost);
    PrefixTextStartsWithASlash(prefix);
    PrefixTextIsPath(prefix);
    FixedTextsArePaths();
    PathTextParts(PrefixText(prefix), ['/']);
    IsPath(t);
  }

  predicate IsPathText(s: Octets) {
    forall c :: c in s ==> c != '?' && c != '#'
  }

  lemma PathTextParts(x: Octets, y: Octets)
    ensures IsPathText(x + y) <==> IsPathText(x) && IsPathText(y)
  {
    assert forall c :: c in x + y <==> c in x || c in y;
  }

  lemma IsPath(t: Template)
    requires t.before != [] && t.before[0] == '/' && IsPathText(t.before) && IsPathText(t.after)
    ensures IsPathTemplate(t)
  {
  }

  lemma FixedTextsArePaths()
    ensures IsPathText(DID_JSON) && IsPathText(['/']) && IsPathText(PROBE)
  {
    ProbeOctets();
  }

  /** Encoded paths have neither of the two octets. */
  lemma PrefixTextIsPath(prefix: seq<Octets>)
    ensures IsPathText(PrefixText(prefix))
  {
    EscapedOctets(Path, Prefixed(prefix, '/'));
    hide Escape;
  }

  lemma PrefixTextStartsWithASlash(prefix: seq<Octets>)
    ensures PrefixText(prefix) != [] ==> PrefixText(prefix)[0] == '/'
  {
    var d := Prefixed(prefix, '/');
    if d != [] {
      assert d[0] == '/' && EscapeOctet(Path, '/') == ['/'];
    }
  }

  lemma PrefixTextIsClean(prefix: seq<Octets>)
    ensures var before := PrefixText(prefix) + ['/'];
            && !HasControl(before) && !HasControl(DID_JSON) && IsValidEncoding(before + DID_JSON)
            && Unescape(before).Some? && Unescape(DID_JSON).Some?
  {
    hide Escape, Unescape, DID_JSON, HasControl, IsValidEncoding, Keeps;
    JSONOctets();
    EscapedOctets(Path, Prefixed(prefix, '/'));
    UnescapeEscape(Path, Prefixed(prefix, '/'));
    var before := PrefixText(prefix) + ['/'];
    CleanText(before);
    CleanText(DID_JSON);
    CleanText(before + DID_JSON);
    PlainText(['/']);
    PlainText(DID_JSON);
    UnescapeAppend(PrefixText(prefix), ['/']);
    hide PrefixText;
  }

  lemma CleanText(s: Octets)
    requires forall c :: c in s ==> Keeps(Path, c) || c == '%'
    ensures !HasControl(s) && IsValidEncoding(s)
  {
  }

  // -------------------------------------------------- a repeated probe misleads

  lemma {:induction false} PlainText(s: Octets)
    requires '%' !in s
    ensures Unescape(s) == Some(s)
  {
    if s != [] {
      PlainText(s[1..]);
      assert [s[0]] + s[1..] == s;
    }
  }

  /** An encoded text can be cut before a lower-case letter: escapes are upper case. */
  lemma {:induction false} CutBeforeLetter(s: Octets, i: nat)
    requires i < |Escape(Path, s)| && Escape(Path, s)[i] == 'a'
    ensures Unescape(Escape(Path, s)[..i]).Some?
  {
    var text, first, rest := Escape(Path, s), EscapeOctet(Path, s[0]), Escape(Path, s[1..]);
    assert text == first + rest;
    if i == 0 {
      assert text[..i] == [];
    } else {
      EscapeHasNoLetter(s[0], i);
      CutBeforeLetter(s[1..], i - |first|);
      UnescapeOctet(Path, s[0], rest[..i - |first|]);
      assert text[..i] == first + rest[..i - |first|];
    }
  }

  lemma EscapeHasNoLetter(c: Octet, i: nat)
    ensures 0 < i < |EscapeOctet(Path, c)| ==> EscapeOctet(Path, c)[i] != 'a'
  {
  }

  /** The template that puts the identifier where the prefix holds the probe text. */
  function Misplaced(host: Octets, prefix: seq<Octets>, i: nat): Template
    requires OccursAt(PROBE, PrefixText(prefix), i)
  {
    var s := PrefixText(prefix);
    Template(host, s[..i], s[i + |PROBE|..] + ['/'] + PROBE + DID_JSON)
  }

  lemma MisplacedText(host: Octets, prefix: seq<Octets>, i: nat)
    requires OccursAt(PROBE, PrefixText(prefix), i)
    ensures var t := Misplaced(host, prefix, i);
            && t.before + PROBE + t.after == PrefixText(prefix) + ['/'] + PROBE + DID_JSON
            && t.before == PrefixText(prefix)[..i] && i < |PrefixText(prefix)| && PrefixText(prefix)[i] == 'a'
  {
    ProbeOctets();
    assert PROBE[0] == 'a';
    hide PROBE, DID_JSON, PrefixText;
    var s := PrefixText(prefix);
    assert s[i..i + |PROBE|][0] == s[i];
    assert s == s[..i] + PROBE + s[i + |PROBE|..];
  }

  lemma MisplacedIsClean(host: Octets, prefix: seq<Octets>, i: nat)
    requires OccursAt(PROBE, PrefixText(prefix), i)
    ensures var t := Misplaced(host, prefix, i);
            !HasControl(t.before) && !HasControl(t.after) && IsValidEncoding(t.before + t.after)
  {
    hide Escape, DID_JSON, HasControl, IsValidEncoding, Keeps, PROBE;
    JSONOctets();
    ProbeIsKeptInPaths();
    EscapedOctets(Path, Prefixed(prefix, '/'));
    var t := Misplaced(host, prefix, i);
    var s := PrefixText(prefix);
    assert forall c :: c in s[..i] || c in s[i + |PROBE|..] ==> c in s;
    CleanText(t.before);
    CleanText(t.after);
    CleanText(t.before + t.after);
  }

  lemma ProbeIsKeptInPaths()
    ensures forall c :: c in PROBE ==> Keeps(Path, c)
  {
    ProbeOctets();
  }

  /** A prefix starts with a slash, so the probe text stands later in it. */
  lemma MisplacedIsAPath(host: Octets, prefix: seq<Octets>, i: nat)
    requires OccursAt(PROBE, PrefixText(prefix), i)
    ensures IsPathTemplate(Misplaced(host, prefix, i))
  {
    hide PROBE, DID_JSON, PrefixText, OccursAt, Misplaced;
    MisplacedText(host, prefix, i);
    PrefixTextStartsWithASlash(prefix);
    PrefixTextIsPath(prefix);
    FixedTextsArePaths();
    var t, s := Misplaced(host, prefix, i), PrefixText(prefix);
    PathTextParts(s, ['/']);
    PathTextParts(s + ['/'], PROBE);
    PathTextParts(s + ['/'] + PROBE, DID_JSON);
    PathTextParts(t.before + PROBE, t.after);
    PathTextParts(t.before, PROBE);
  }

  lemma MisplacedPasses(host: Octets, prefix: seq<Octets>, validHost: Octets -> bool, i: nat)
    requires host != [] && validHost(host) && forall k :: 0 <= k < |prefix| ==> IsSegment(prefix[k])
    requires OccursAt(PROBE, PrefixText(prefix), i)
    ensures ProbePasses(Misplaced(host, prefix, i), host, prefix, validHost)
  {
    hide Escape, Unescape, IsSegment, Reached, PROBE, DID_JSON, PrefixText, HasControl, IsValidEncoding, Misplaced, OccursAt;
    var t := Misplaced(host, prefix, i);
    ProbeIsKept();
    ReachedPath(host, prefix, PROBE, validHost);
    MisplacedText(host, prefix, i);
    MisplacedIsClean(host, prefix, i);
    MisplacedHost(host, prefix, i);
    RenderedEncoding(t, PROBE);
    PrefixTextIsClean(prefix);
    RenderedDecodes(Template(host, PrefixText(prefix) + ['/'], DID_JSON), PROBE);
  }

  lemma MisplacedHost(host: Octets, prefix: seq<Octets>, i: nat)
    requires OccursAt(PROBE, PrefixText(prefix), i)
    ensures Misplaced(host, prefix, i).host == host
  {
  }

  /** It goes wrong on every identifier that does not begin like the probe. */
  lemma MisplacedDisagrees(host: Octets, prefix: seq<Octets>, validHost: Octets -> bool, i: nat, identifier: Octets)
    requires host != [] && validHost(host)
    requires OccursAt(PROBE, PrefixText(prefix), i)
    requires IsName(identifier) && identifier[0] != 'a'
    ensures !Agrees(Misplaced(host, prefix, i), host, prefix, identifier, validHost)
  {
    hide Escape, Unescape, IsSegment, Reached, PROBE, DID_JSON, PrefixText, HasControl, IsValidEncoding, Misplaced, OccursAt, Unreserved;
    var t := Misplaced(host, prefix, i);
    DotsAside(identifier);
    ReachedPath(host, prefix, identifier, validHost);
    MisplacedText(host, prefix, i);
    MisplacedIsClean(host, prefix, i);
    RenderedEncoding(t, identifier);
    var s := PrefixText(prefix);
    assert (t.before + identifier + t.after)[i] == identifier[0];
    assert (s + ['/'] + identifier + DID_JSON)[i] == s[i];
  }

  lemma DotsAside(identifier: Octets)
    requires forall c :: c in identifier ==> Unreserved(c)
    ensures Escape(Component, identifier) == identifier && Escape(Path, identifier) == identifier
  {
    UnreservedText(identifier);
  }

  /** Where the printed prefix holds the probe text, construction settles nothing: for
      every host and every such prefix some template is accepted and goes wrong on every
      identifier that does not begin like the probe. */
  lemma RepeatedProbeMisleads(host: Octets, prefix: seq<Octets>, validHost: Octets -> bool) returns (t: Template)
    requires host != [] && validHost(host) && forall i :: 0 <= i < |prefix| ==> IsSegment(prefix[i])
    requires Occurs(PROBE, PrefixText(prefix))
    ensures IsPathTemplate(t) && Constructs(t, host, prefix, validHost)
    ensures forall identifier :: IsName(identifier) && identifier[0] != 'a' ==> !Agrees(t, host, prefix, identifier, validHost)
  {
    hide Unescape, IsSegment, PROBE, SAMPLE, ProbePasses, Constructs, Agrees, Misplaced, OccursAt, Unreserved, Escape, IsPathTemplate;
    var i :| 0 <= i <= |PrefixText(prefix)| && OccursAt(PROBE, PrefixText(prefix), i);
    t := Misplaced(host, prefix, i);
    MisplacedPasses(host, prefix, validHost, i);
    MisplacedText(host, prefix, i);
    MisplacedIsAPath(host, prefix, i);
    CutBeforeLetter(Prefixed(prefix, '/'), i);
    SampleRefusesOpenPercents(t, host, prefix, validHost);
    forall identifier | IsName(identifier) && identifier[0] != 'a'
      ensures !Agrees(t, host, prefix, identifier, validHost)
    {
      MisplacedDisagrees(host, prefix, validHost, i, identifier);
    }
  }

  /** Every template that construction accepts is right about every identifier of
      unreserved octets. */
  ghost predicate ConstructionSettles(host: Octets, prefix: seq<Octets>, validHost: Octets -> bool) {
    forall t, identifier | IsPathTemplate(t) && Constructs(t, host, prefix, validHost) && IsName(identifier) ::
      Agrees(t, host, prefix, identifier, validHost)
  }

  /** Construction settles the templates of a host and a prefix exactly when the probe
      text does not occur in the printed prefix. */
  lemma ProbeSettlesExactly(host: Octets, prefix: seq<Octets>, validHost: Octets -> bool)
    requires host != [] && validHost(host) && forall i :: 0 <= i < |prefix| ==> IsSegment(prefix[i])
    ensures ConstructionSettles(host, prefix, validHost) <==> !Occurs(PROBE, PrefixText(prefix))
  {
    hide Unescape, IsSegment, PROBE, SAMPLE, Constructs, Agrees, Occurs, PrefixText, Escape, Unreserved, IsPathTemplate;
    if Occurs(PROBE, PrefixText(prefix)) {
      var t := RepeatedProbeMisleads(host, prefix, validHost);
      LetterIsAName();
      assert !Agrees(t, host, prefix, ['x'], validHost);
    } else {
      forall t, identifier | IsPathTemplate(t) && Constructs(t, host, prefix, validHost) && IsName(identifier)
        ensures Agrees(t, host, prefix, identifier, validHost)
      {
        ProbeSettlesUnreserved(t, host, prefix, validHost, identifier);
      }
    }
  }

  lemma LetterIsAName()
    ensures var x: Octets := ['x']; IsName(x) && x[0] != 'a'
  {
  }

  // ------------------------------------------------- the sample is needed

  /** A template that passes the probe with a percent sign open: the probe's first
      letter completes an escape that stands for the prefix's first letter. */
  function OpenTemplate(host: Octets): Template {
    Template(host, ['/', '%', '4'], ['/', '"', '/'] + PROBE + DID_JSON)
  }

  function OpenPrefix(p: Octets): seq<Octets>
    requires p != []
  {
    [['J'] + p[1..], ['"']]
  }

  lemma OpenPrefixText(p: Octets)
    requires p != [] && forall c :: c in p ==> Unreserved(c)
    ensures forall i :: 0 <= i < |OpenPrefix(p)| ==> IsSegment(OpenPrefix(p)[i])
    ensures Prefixed(OpenPrefix(p), '/') == ['/', 'J'] + p[1..] + ['/', '"']
  {
    var s := OpenPrefix(p);
    JoinedSegment(p[1..]);
    assert s[0] == ['J'] + p[1..] && s[1] == ['"'] && IsSegment(['"']);
    hide IsSegment;
    var rest := s[1..];
    assert |rest| == 1 && rest[0] == ['"'] && |rest[1..]| == 0;
    assert Prefixed(rest, '/') == ['/'] + rest[0] + Prefixed(rest[1..], '/');
    assert Prefixed(s, '/') == ['/'] + s[0] + Prefixed(s[1..], '/');
  }

  lemma JoinedSegment(rest: Octets)
    requires forall c :: c in rest ==> Unreserved(c)
    ensures IsSegment(['J'] + rest)
  {
    assert (['J'] + rest)[0] == 'J';
  }

  lemma OpenTemplateText(host: Octets)
    ensures var t := OpenTemplate(host);
            && PROBE != [] && Unescape(t.before).None? && !IsValidEncoding(t.before + PROBE + t.after)
            && Unescape(t.before + PROBE + t.after) == Some(Prefixed(OpenPrefix(PROBE), '/') + ['/'] + PROBE + DID_JSON)
  {
    ProbeOctets();
    JSONOctets();
    assert PROBE[0] == 'a';
    hide PROBE, DID_JSON, Prefixed, OpenPrefix, Unescape, Unreserved, Keeps;
    assert '%' !in PROBE by { ProbeHasNoPercent(); }
    OpenPrefixText(PROBE);
    var t := OpenTemplate(host);
    OpenTemplateDecodes(PROBE, t.after);
    assert ['/', 'J'] + PROBE[1..] + t.after == ['/', 'J'] + PROBE[1..] + ['/', '"'] + ['/'] + PROBE + DID_JSON;
    assert t.after[1] == '"' && t.after[1] in t.before + PROBE + t.after;
    QuoteIsNoPathOctet(t.before + PROBE + t.after);
  }

  lemma ProbeHasNoPercent()
    ensures '%' !in PROBE
  {
    ProbeOctets();
  }

  lemma QuoteIsNoPathOctet(s: Octets)
    requires '"' in s
    ensures !IsValidEncoding(s)
  {
  }

  lemma OpenTemplateDecodes(p: Octets, after: Octets)
    requires p != [] && p[0] == 'a' && '%' !in p && '%' !in after
    ensures Unescape(['/', '%', '4']).None?
    ensures Unescape(['/', '%', '4'] + p + after) == Some(['/', 'J'] + p[1..] + after)
  {
    OpenTextDecodes();
    hide Unescape;
    var front: Octets := ['/', '%', '4', 'a'];
    PlainText(p[1..] + after);
    UnescapeAppend(front, p[1..] + after);
    assert ['/', '%', '4'] + p + after == front + (p[1..] + after);
    assert ['/', 'J'] + (p[1..] + after) == ['/', 'J'] + p[1..] + after;
  }

  lemma OpenTextDecodes()
    ensures Unescape(['/', '%', '4']).None? && Unescape(['/', '%', '4', 'a']) == Some(['/', 'J'])
  {
    var front: Octets := ['/', '%', '4', 'a'];
    var letter: Octets := ['J'];
    UnescapeLetter();
    assert front[1..] == ['%', '4', 'a'];
    assert ['/'] + letter == ['/', 'J'];
    var open: Octets := ['/', '%', '4'];
    assert open[1..] == ['%', '4'];
  }

  lemma UnescapeLetter()
    ensures Unescape(['%', '4', 'a']) == Some(['J'])
  {
    var escape: Octets := ['%', '4', 'a'];
    assert First(escape) == Some((3, 'J'));
    assert escape[3..] == [];
    var letter: Octets := ['J'];
    assert letter + [] == letter;
  }

  /** Rendering the sample is not idle: the probe alone lets this template pass, and
      the sample refuses it. */
  lemma SampleIsNeeded(host: Octets, validHost: Octets -> bool)
    requires host != [] && validHost(host)
    ensures var t := OpenTemplate(host);
            && PROBE != [] && ProbePasses(t, host, OpenPrefix(PROBE), validHost)
            && Rendered(t, SAMPLE, validHost).None?
  {
    hide PROBE, DID_JSON, SAMPLE, Escape, Unescape, IsSegment, Reached, HasControl, IsValidEncoding, Prefixed, OpenTemplate, OpenPrefix;
    ProbeOctets();
    OpenTemplateText(host);
    var t, prefix := OpenTemplate(host), OpenPrefix(PROBE);
    OpenPrefixText(PROBE);
    OpenTemplateIsClean(host);
    ProbeIsKept();
    ReachedPath(host, prefix, PROBE, validHost);
    PathText(Prefixed(prefix, '/'), PROBE);
    SampleRefusesOpenPercents(t, host, prefix, validHost);
  }

  lemma OpenTemplateIsClean(host: Octets)
    ensures var t := OpenTemplate(host); t.host == host && !HasControl(t.before) && !HasControl(t.after)
  {
    ProbeOctets();
    JSONOctets();
    hide PROBE, DID_JSON;
    var t := OpenTemplate(host);
    assert forall c :: c in t.after ==> c == '/' || c == '"' || c in PROBE || c in DID_JSON;
  }

  lemma JSONOctets()
    ensures forall c :: c in DID_JSON ==> c != '%' && Keeps(Path, c)
    ensures Keeps(Path, '/')
  {
  }
}
