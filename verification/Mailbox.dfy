/** E-mail mailboxes, against section 4.1.2 of RFC 5321 and the size limits of its
section 4.5.3.1.

The grammar is stated by its productions; the scanners work with indexes and flags.
Whether a text is an IP address is a parameter.  */
module Mailbox {
  import opened Prelude
  import opened OctetText

  const QUOTE: Octet := '"'
  const BACKSLASH: Octet := '\\'

  // --------------------------------------------------------------- grammar

  predicate IsLetterOrDigit(c: Octet) {
    'a' <= c <= 'z' || 'A' <= c <= 'Z' || '0' <= c <= '9'
  }

  predicate IsAtomOctet(c: Octet) {
    || IsLetterOrDigit(c)
    || c == '!' || c == '#' || c == '$' || c == '%' || c == '&' || c == '\'' || c == '*' || c == '+' || c == '-'
    || c == '/' || c == '=' || c == '?' || c == '^' || c == '_' || c == '`' || c == '{' || c == '|' || c == '}' || c == '~'
  }

  predicate IsAtom(s: Octets) {
    s != [] && forall c :: c in s ==> IsAtomOctet(c)
  }

  /** One or more pieces with dots between them. */
  predicate DotList(s: Octets, piece: Octets -> bool) {
    || ('.' !in s && piece(s))
    || exists i :: 0 <= i < |s| && DotCut(s, i, piece) && DotList(s[i + 1..], piece)
  }

  predicate DotCut(s: Octets, i: nat, piece: Octets -> bool)
    requires i < |s|
  {
    s[i] == '.' && '.' !in s[..i] && piece(s[..i])
  }

  predicate IsDotString(s: Octets) {
    DotList(s, IsAtom)
  }

  predicate IsQuotedText(c: Octet) {
    32 <= c as int <= 33 || 35 <= c as int <= 91 || 93 <= c as int <= 126
  }

  /** *QcontentSMTP: quoted text and quoted pairs. */
  predicate IsQuotedContent(s: Octets) {
    if s == [] then true
    else if s[0] == BACKSLASH then |s| > 1 && 32 <= s[1] as int <= 126 && IsQuotedContent(s[2..])
    else IsQuotedText(s[0]) && IsQuotedContent(s[1..])
  }

  predicate IsQuotedString(s: Octets) {
    |s| >= 2 && s[0] == QUOTE && s[|s| - 1] == QUOTE && IsQuotedContent(s[1..|s| - 1])
  }

  predicate IsLocalPart(s: Octets) {
    IsDotString(s) || IsQuotedString(s)
  }

  /** sub-domain, at most 63 octets long. */
  predicate IsLabel(s: Octets) {
    0 < |s| <= 63 && IsLetterOrDigit(s[0]) && IsLetterOrDigit(s[|s| - 1]) && forall c :: c in s ==> IsLetterOrDigit(c) || c == '-'
  }

  predicate IsTag(s: Octets) {
    s != [] && IsLetterOrDigit(s[|s| - 1]) && forall c :: c in s ==> IsLetterOrDigit(c) || c == '-'
  }

  predicate IsLiteralOctet(c: Octet) {
    33 <= c as int <= 90 || 94 <= c as int <= 126
  }

  /** Standardized-tag ":" 1*dcontent. */
  predicate IsGeneralLiteral(s: Octets) {
    exists i :: 0 < i < |s| - 1 && s[i] == ':' && IsTag(s[..i]) && forall k :: i < k < |s| ==> IsLiteralOctet(s[k])
  }

  /** The tag of IPv6 literals, in either case. */
  predicate HasIPv6Tag(s: Octets) {
    |s| >= 5 && (s[0] == 'I' || s[0] == 'i') && (s[1] == 'P' || s[1] == 'p') && (s[2] == 'V' || s[2] == 'v') && s[3] == '6' && s[4] == ':'
  }

  /** What an IP address is; only the octets that addresses are made of matter here. */
  datatype Addresses = Addresses(isIPv4: Octets -> bool, isIPv6: Octets -> bool)

  ghost predicate Lawful(ip: Addresses) {
    && (forall s :: ip.isIPv4(s) ==> '.' in s)
    && (forall s :: ip.isIPv6(s) ==> s != [] && forall c :: c in s ==> IsLiteralOctet(c))
  }

  /** An IPv4 address, or a tagged literal; after the IPv6 tag, an IPv6 address. */
  predicate IsLiteralContent(s: Octets, ip: Addresses) {
    ip.isIPv4(s) || if HasIPv6Tag(s) then ip.isIPv6(s[5..]) else IsGeneralLiteral(s)
  }

  /** What the code takes as well: an untagged IPv6 address with a dotted tail, an IPv4
      address with the IPv6 tag, and anything that follows the tag spelled otherwise. */
  predicate IsLooseContent(s: Octets, ip: Addresses) {
    || ('.' in s && ip.isIPv6(s))
    || ("IPv6:" <= s && ip.isIPv4(s[5..]))
    || (HasIPv6Tag(s) && !("IPv6:" <= s) && IsGeneralLiteral(s) && !ip.isIPv6(s[5..]))
  }

  predicate IsBracketed(s: Octets) {
    |s| >= 2 && s[0] == '[' && s[|s| - 1] == ']'
  }

  predicate IsAddressLiteral(s: Octets, ip: Addresses) {
    IsBracketed(s) && IsLiteralContent(s[1..|s| - 1], ip)
  }

  predicate IsLooseLiteral(s: Octets, ip: Addresses) {
    IsBracketed(s) && IsLooseContent(s[1..|s| - 1], ip)
  }

  predicate IsDomain(s: Octets, ip: Addresses) {
    DotList(s, IsLabel) || IsAddressLiteral(s, ip)
  }

  /** `value` has a local part before an "@" at `i`, within the size limits. */
  predicate CutsLocal(value: Octets, i: nat) {
    && i < |value| && value[i] == '@'
    && 1 <= i <= 64 && IsLocalPart(value[..i])
    && 1 <= |value| - i - 1 <= 255
  }

  /** `value` is local@domain, cut at `i`. */
  predicate CutsAt(value: Octets, i: nat, ip: Addresses) {
    CutsLocal(value, i) && IsDomain(value[i + 1..], ip)
  }

  /** The code's reading: a domain or a loose literal after the "@", and no other "@"
      behind an unquoted local part. */
  predicate IsTaken(value: Octets, i: nat, ip: Addresses) {
    && CutsLocal(value, i)
    && (IsDomain(value[i + 1..], ip) || IsLooseLiteral(value[i + 1..], ip))
    && (value[0] == QUOTE || '@' !in value[i + 1..])
  }

  // ------------------------------------------------------ lists with dots

  lemma {:induction false} DotListIsSplit(s: Octets, piece: Octets -> bool)
    ensures DotList(s, piece) <==> forall i :: 0 <= i < |Split(s, '.')| ==> piece(Split(s, '.')[i])
    decreases |s|
  {
    if '.' !in s {
      SplitPiece(s, [], '.');
      assert Split(s, '.') == [s] && [s][0] == s;
      assert forall i :: 0 <= i < |s| ==> s[i] in s;
    } else {
      var i := IndexOf(s, '.');
      var rest := s[i + 1..];
      DotListIsSplit(rest, piece);
      SplitPiece(s[..i], rest, '.');
      assert s == s[..i] + ['.'] + rest;
      AllOfCons(s[..i], Split(rest, '.'), piece);
      DotListCut(s, i, piece);
    }
  }

  lemma DotListCut(s: Octets, i: nat, piece: Octets -> bool)
    requires i < |s| && s[i] == '.' && '.' !in s[..i]
    ensures DotList(s, piece) <==> piece(s[..i]) && DotList(s[i + 1..], piece)
  {
    forall k | 0 <= k < |s| && DotCut(s, k, piece) ensures k == i {
      CutsAtTheFirstDot(s, k, i, piece);
    }
    assert DotCut(s, i, piece) <==> piece(s[..i]);
  }

  lemma CutsAtTheFirstDot(s: Octets, k: nat, i: nat, piece: Octets -> bool)
    requires k < |s| && DotCut(s, k, piece) && i < |s| && s[i] == '.' && '.' !in s[..i]
    ensures k == i
  {
    forall m | 0 <= m < i ensures s[m] != '.' { assert s[..i][m] == s[m]; }
    forall m | 0 <= m < k ensures s[m] != '.' { assert s[..k][m] == s[m]; }
  }

  lemma AllOfCons(first: Octets, pieces: seq<Octets>, piece: Octets -> bool)
    ensures (forall k :: 0 <= k < |[first] + pieces| ==> piece(([first] + pieces)[k])) <==>
            piece(first) && forall k :: 0 <= k < |pieces| ==> piece(pieces[k])
  {
    var all := [first] + pieces;
    assert all[0] == first;
    assert forall k :: 0 <= k < |pieces| ==> all[k + 1] == pieces[k];
  }

  method CheckDotList(s: Octets, piece: Octets -> bool) returns (ok: bool)
    ensures ok <==> DotList(s, piece)
  {
    DotListIsSplit(s, piece);
    var parts := Split(s, '.');
    for i := 0 to |parts|
      invariant forall k :: 0 <= k < i ==> piece(parts[k])
    {
      if !piece(parts[i]) { return false; }
    }
    return true;
  }

  // -------------------------------------------------------------- scanners

  /** The scan of isQuotedLocalPart, with an index that jumps over quoted pairs. */
  method IsQuotedLocalPart(value: Octets) returns (ok: bool)
    requires value != [] && value[0] == QUOTE
    ensures ok <==> IsQuotedString(value)
  {
    if |value| < 2 || value[|value| - 1] != QUOTE { return false; }
    var end := |value| - 1;
    ghost var content := value[1..end];
    var index := 1;
    while index < end
      invariant 1 <= index <= end
      invariant IsQuotedContent(content) <==> IsQuotedContent(value[index..end])
    {
      var code := value[index];
      ghost var left := value[index..end];
      if code == BACKSLASH {
        index := index + 1;
        if index >= end || value[index] as int < 32 || value[index] as int > 126 { return false; }
        assert left[2..] == value[index + 1..end];
        index := index + 1;
        continue;
      }
      if !((code as int >= 32 && code as int <= 33) || (code as int >= 35 && code as int <= 91) || (code as int >= 93 && code as int <= 126)) {
        return false;
      }
      assert left[1..] == value[index + 1..end];
      index := index + 1;
    }
    return true;
  }

  /** Index of the quote that closes what was opened before `i`, or at least |s|. */
  function Closing(s: Octets, i: nat): nat
    decreases |s| - i
  {
    if i >= |s| then |s|
    else if s[i] == BACKSLASH then Closing(s, i + 2)
    else if s[i] == QUOTE then i
    else Closing(s, i + 1)
  }

  /** What mailboxSeparator looks for; None is its -1. */
  function Separator(value: Octets): Option<nat> {
    if value == [] || value[0] != QUOTE then
      var i := IndexOf(value, '@');
      if i == |value| || '@' in value[i + 1..] then None else Some(i)
    else
      var c := Closing(value, 1);
      if c + 1 < |value| && value[c + 1] == '@' then Some(c + 1) else None
  }

  method MailboxSeparator(value: Octets) returns (separator: Option<nat>)
    ensures separator == Separator(value)
    ensures separator.Some? ==> separator.value < |value| && value[separator.value] == '@'
  {
    if value == [] || value[0] != QUOTE {
      var first := IndexOf(value, '@');
      if first == |value| || '@' in value[first + 1..] { return None; }
      return Some(first);
    }
    var escaped := false;
    var index := 1;
    while index < |value|
      invariant 1 <= index <= |value|
      invariant Closing(value, 1) == Closing(value, if escaped then index + 1 else index)
    {
      if escaped {
        escaped := false;
      } else if value[index] == BACKSLASH {
        escaped := true;
      } else if value[index] == QUOTE {
        if index + 1 < |value| && value[index + 1] == '@' { return Some(index + 1); }
        return None;
      }
      index := index + 1;
    }
    return None;
  }

  method CheckLocalPart(value: Octets) returns (ok: bool)
    ensures ok <==> IsLocalPart(value)
  {
    if value != [] && value[0] == QUOTE {
      QuotesAreNotAtoms(value);
      ok := IsQuotedLocalPart(value);
    } else {
      ok := CheckDotList(value, IsAtom);
    }
  }

  lemma QuotesAreNotAtoms(s: Octets)
    requires s != [] && s[0] == QUOTE
    ensures !IsDotString(s)
  {
    assert s[0] in s;
    forall i | 0 <= i < |s| ensures !DotCut(s, i, IsAtom) {
      if i > 0 {
        assert s[0] == s[..i][0] && s[..i][0] in s[..i];
      }
    }
  }

  method CheckAddressLiteral(value: Octets, ip: Addresses) returns (ok: bool)
    requires Lawful(ip)
    ensures ok <==> IsAddressLiteral(value, ip) || IsLooseLiteral(value, ip)
  {
    if |value| < 2 || value[0] != '[' || value[|value| - 1] != ']' { return false; }
    var content := value[1..|value| - 1];
    LiteralsAsTheCodeTakesThem(content, ip);
    if '.' in content && (ip.isIPv4(content) || ip.isIPv6(content)) { return true; }
    if "IPv6:" <= content { return ip.isIPv4(content[5..]) || ip.isIPv6(content[5..]); }
    ok := CheckGeneralLiteral(content);
  }

  /** The three branches of the code against the grammar and its loose extension. */
  lemma LiteralsAsTheCodeTakesThem(s: Octets, ip: Addresses)
    requires Lawful(ip)
    ensures IsLiteralContent(s, ip) || IsLooseContent(s, ip) <==>
            || ('.' in s && (ip.isIPv4(s) || ip.isIPv6(s)))
            || (if "IPv6:" <= s then ip.isIPv4(s[5..]) || ip.isIPv6(s[5..]) else IsGeneralLiteral(s))
  {
    if HasIPv6Tag(s) && ip.isIPv6(s[5..]) {
      TaggedIsGeneral(s);
    }
  }

  lemma TaggedIsGeneral(s: Octets)
    requires HasIPv6Tag(s) && s[5..] != [] && forall c :: c in s[5..] ==> IsLiteralOctet(c)
    ensures IsGeneralLiteral(s)
  {
    assert s[..4] == [s[0], s[1], s[2], s[3]];
    assert IsTag(s[..4]);
    forall k | 4 < k < |s| ensures IsLiteralOctet(s[k]) {
      assert s[5..][k - 5] == s[k];
    }
    assert s[4] == ':';
  }

  method CheckGeneralLiteral(content: Octets) returns (ok: bool)
    ensures ok <==> IsGeneralLiteral(content)
  {
    var separator := 0;
    while separator < |content| && content[separator] != ':'
      invariant separator <= |content| && forall k :: 0 <= k < separator ==> content[k] != ':'
    {
      separator := separator + 1;
    }
    TagsHaveNoColon(content);
    if separator < 1 || separator >= |content| - 1 { return false; }
    if !IsTag(content[..separator]) { return false; }
    var index := separator + 1;
    while index < |content|
      invariant separator < index <= |content|
      invariant forall k :: separator < k < index ==> IsLiteralOctet(content[k])
    {
      if !IsLiteralOctet(content[index]) { return false; }
      index := index + 1;
    }
    return true;
  }

  lemma TagsHaveNoColon(s: Octets)
    ensures forall i :: 0 < i < |s| && IsTag(s[..i]) ==> forall k :: 0 <= k < i ==> s[k] != ':'
  {
    forall i, k | 0 < i < |s| && IsTag(s[..i]) && 0 <= k < i ensures s[k] != ':' {
      assert s[..i][k] == s[k] && s[k] in s[..i];
    }
  }

  method CheckDomain(value: Octets, ip: Addresses) returns (ok: bool)
    requires Lawful(ip)
    ensures ok <==> IsDomain(value, ip) || IsLooseLiteral(value, ip)
  {
    if value != [] && (value[0] == '[' || value[|value| - 1] == ']') {
      BracketsAreNotLabels(value);
      ok := CheckAddressLiteral(value, ip);
    } else {
      ok := CheckDotList(value, IsLabel);
    }
  }

  lemma {:induction false} BracketsAreNotLabels(s: Octets)
    requires s != [] && (s[0] == '[' || s[|s| - 1] == ']')
    ensures !DotList(s, IsLabel)
    decreases |s|
  {
    if i :| 0 <= i < |s| && DotCut(s, i, IsLabel) && DotList(s[i + 1..], IsLabel) {
      assert i > 0 ==> s[..i][0] == s[0];
      if s[|s| - 1] == ']' && s[i + 1..] != [] {
        BracketsAreNotLabels(s[i + 1..]);
      }
    }
  }

  // ------------------------------------------- scanners against the grammar

  /** Quoted content ends exactly where the scanner sees the closing quote, whatever
      follows: an "@" or an escaped quote inside does not end it. */
  lemma {:induction false} ClosingAfterContent(value: Octets, i: nat, end: nat)
    requires i <= end < |value| && value[end] == QUOTE && IsQuotedContent(value[i..end])
    ensures Closing(value, i) == end
    decreases end - i
  {
    if i < end {
      var content := value[i..end];
      if content[0] == BACKSLASH {
        assert content[2..] == value[i + 2..end];
        ClosingAfterContent(value, i + 2, end);
      } else {
        assert content[1..] == value[i + 1..end];
        ClosingAfterContent(value, i + 1, end);
      }
    }
  }

  lemma QuotedStringIsFound(value: Octets, i: nat)
    requires i < |value| && value[i] == '@' && IsQuotedString(value[..i])
    ensures Separator(value) == Some(i)
  {
    assert value[..i][0] == value[0] && value[..i][i - 1] == value[i - 1];
    assert value[..i][1..i - 1] == value[1..i - 1];
    ClosingAfterContent(value, 1, i - 1);
  }

  lemma {:induction false} DotListHasNoAt(s: Octets, piece: Octets -> bool)
    requires DotList(s, piece) && forall p :: piece(p) ==> '@' !in p
    ensures '@' !in s
    decreases |s|
  {
    if '.' in s {
      var i :| 0 <= i < |s| && DotCut(s, i, piece) && DotList(s[i + 1..], piece);
      DotListHasNoAt(s[i + 1..], piece);
      assert s == s[..i] + ['.'] + s[i + 1..];
    }
  }

  lemma DotStringsHaveNoAt(s: Octets)
    requires IsDotString(s)
    ensures '@' !in s && s != []
  {
    DotListHasNoAt(s, IsAtom);
  }

  /** Where the grammar can cut a mailbox, the scanner cuts it, except that it gives
      up on an unquoted local part when the domain holds another "@". */
  lemma GrammarCutIsFound(value: Octets, i: nat)
    requires CutsLocal(value, i)
    ensures Separator(value) == if value[0] == QUOTE || '@' !in value[i + 1..] then Some(i) else None
  {
    var local := value[..i];
    assert local[0] == value[0];
    if value[0] == QUOTE {
      QuotesAreNotAtoms(local);
      QuotedStringIsFound(value, i);
    } else {
      assert IsDotString(local);
      DotStringsHaveNoAt(local);
      IndexOfFirst(value, '@', i);
    }
  }

  /** A mailbox has one reading: the grammar cuts it in at most one place. */
  lemma CutIsUnique(value: Octets, i: nat, j: nat)
    requires CutsLocal(value, i) && CutsLocal(value, j)
    ensures i == j
  {
    GrammarCutIsFound(value, i);
    GrammarCutIsFound(value, j);
    if value[0] != QUOTE {
      assert value[..i][0] == value[0] && value[..j][0] == value[0];
      assert IsDotString(value[..i]) && IsDotString(value[..j]);
      DotStringsHaveNoAt(value[..i]);
      DotStringsHaveNoAt(value[..j]);
      IndexOfFirst(value, '@', i);
      IndexOfFirst(value, '@', j);
    }
  }

  /** Accepted exactly: the grammar's mailboxes within the limits, and those with a
      loose literal, less those with an unquoted local part and an "@" in the domain. */
  method IsEmailMailbox(value: Octets, ip: Addresses) returns (ok: bool)
    requires Lawful(ip)
    ensures ok <==> exists i: nat :: IsTaken(value, i, ip)
  {
    hide IsLocalPart, IsDomain, IsLooseLiteral;
    var separator := MailboxSeparator(value);
    forall i: nat | IsTaken(value, i, ip) ensures separator == Some(i) {
      GrammarCutIsFound(value, i);
    }
    if separator.None? || separator.value < 1 || separator.value == |value| - 1 { return false; }
    var at := separator.value;
    var local, domain := value[..at], value[at + 1..];
    if |local| > 64 || |domain| > 255 { return false; }
    var localOK := CheckLocalPart(local);
    if !localOK { return false; }
    GrammarCutIsFound(value, at);
    ok := CheckDomain(domain, ip);
    assert ok ==> IsTaken(value, at, ip);
  }

  /** Where the code and the grammar part: on a text that the grammar cuts, the code
      says no exactly if the local part is unquoted and the domain holds an "@"; on any
      other text it says yes exactly if the domain is a loose literal. */
  lemma CodeAgainstGrammar(value: Octets, ip: Addresses)
    ensures forall i: nat :: CutsAt(value, i, ip) ==>
              ((exists j: nat :: IsTaken(value, j, ip)) <==> (value[0] == QUOTE || '@' !in value[i + 1..]))
    ensures (forall i: nat :: !CutsAt(value, i, ip)) ==>
              ((exists j: nat :: IsTaken(value, j, ip)) <==>
               exists j: nat :: IsTaken(value, j, ip) && IsLooseLiteral(value[j + 1..], ip))
  {
    hide IsLocalPart, IsDomain, IsLooseLiteral;
    forall i: nat | CutsAt(value, i, ip)
      ensures (exists j: nat :: IsTaken(value, j, ip)) <==> (value[0] == QUOTE || '@' !in value[i + 1..])
    {
      forall j: nat | IsTaken(value, j, ip) ensures j == i {
        CutIsUnique(value, i, j);
      }
      assert value[0] == QUOTE || '@' !in value[i + 1..] ==> IsTaken(value, i, ip);
    }
    forall j: nat | IsTaken(value, j, ip) && !CutsAt(value, j, ip) ensures IsLooseLiteral(value[j + 1..], ip) {
    }
  }

  /** A loose literal that is none by the grammar. */
  lemma TaggedIPv4IsLoose(ip: Addresses)
    requires ip.isIPv4("1.2.3.4") && !ip.isIPv6("1.2.3.4") && !ip.isIPv4("IPv6:1.2.3.4")
    ensures var literal: Octets := ['['] + "IPv6:1.2.3.4" + [']'];
            IsLooseLiteral(literal, ip) && !IsAddressLiteral(literal, ip)
  {
    var content: Octets := "IPv6:1.2.3.4";
    var literal: Octets := ['['] + content + [']'];
    assert literal[1..|literal| - 1] == content;
    assert HasIPv6Tag(content) && "IPv6:" <= content;
    assert content[5..] == "1.2.3.4";
  }

  /** An "@" in the domain only ever stands in an address literal. */
  lemma AtMeansLiteral(s: Octets, ip: Addresses)
    requires IsDomain(s, ip) && '@' in s
    ensures IsAddressLiteral(s, ip)
  {
    if DotList(s, IsLabel) {
      LabelsHaveNoAt(s);
      assert false;
    }
  }

  lemma LabelsHaveNoAt(s: Octets)
    requires DotList(s, IsLabel)
    ensures '@' !in s
  {
    DotListHasNoAt(s, IsLabel);
  }

  /** Such mailboxes exist. */
  lemma AtInALiteral(ip: Addresses)
    ensures var value: Octets := ['a', '@', '[', 'x', ':', 'b', '@', 'c', ']'];
            CutsAt(value, 1, ip) && forall i: nat :: CutsAt(value, i, ip) ==> value[0] != QUOTE && '@' in value[i + 1..]
  {
    var value: Octets := ['a', '@', '[', 'x', ':', 'b', '@', 'c', ']'];
    var content: Octets := ['x', ':', 'b', '@', 'c'];
    assert value[..1] == ['a'] && IsAtom(['a']);
    assert value[2..][1..6] == content;
    assert content[..1] == ['x'] && IsTag(['x']);
    assert IsGeneralLiteral(content) by { assert content[1] == ':' && IsTag(content[..1]); }
    assert !("IPv6:" <= content);
    assert IsAddressLiteral(value[2..], ip);
    assert CutsAt(value, 1, ip);
    assert value[2..][4] == '@';
    forall i: nat | CutsAt(value, i, ip) ensures i == 1 {
      CutIsUnique(value, i, 1);
    }
  }
}
