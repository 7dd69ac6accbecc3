/** Percent-encoding, octet by octet, as net/url does it.  */
module URLEscaping {
  import opened Prelude
  import opened OctetText

  /** A component keeps only unreserved octets; a path also keeps the reserved ones
      that net/url leaves alone there. */
  datatype Mode = Component | Path

  predicate Unreserved(c: Octet) {
    'a' <= c <= 'z' || 'A' <= c <= 'Z' || '0' <= c <= '9' || c == '-' || c == '_' || c == '.' || c == '~'
  }

  predicate PathReserved(c: Octet) {
    c == '$' || c == '&' || c == '+' || c == ',' || c == ':' || c == ';' || c == '=' || c == '@'
  }

  predicate Keeps(mode: Mode, c: Octet) {
    Unreserved(c) || (mode.Path? && (c == '/' || PathReserved(c)))
  }

  function HexDigit(n: nat): Octet
    requires n < 16
  {
    if n < 10 then ('0' as int + n) as char else ('A' as int + n - 10) as char
  }

  /** The value of a hexadecimal digit, None for another octet. */
  function Digit(c: Octet): (value: Option<nat>)
    ensures value.Some? ==> value.value < 16
  {
    if '0' <= c <= '9' then Some(c as int - '0' as int)
    else if 'a' <= c <= 'f' then Some(c as int - 'a' as int + 10)
    else if 'A' <= c <= 'F' then Some(c as int - 'A' as int + 10)
    else None
  }

  lemma DigitOfHexDigit(n: nat)
    requires n < 16
    ensures Digit(HexDigit(n)) == Some(n)
  {
  }

  function EscapeOctet(mode: Mode, c: Octet): (text: Octets)
    ensures text != []
  {
    if Keeps(mode, c) then [c] else ['%', HexDigit(c as int / 16), HexDigit(c as int % 16)]
  }

  function Escape(mode: Mode, s: Octets): Octets {
    if s == [] then [] else EscapeOctet(mode, s[0]) + Escape(mode, s[1..])
  }

  lemma {:induction false} EscapeAppend(mode: Mode, a: Octets, b: Octets)
    ensures Escape(mode, a + b) == Escape(mode, a) + Escape(mode, b)
  {
    hide EscapeOctet;
    if a == [] {
      assert a + b == b;
    } else {
      EscapeAppend(mode, a[1..], b);
      assert (a + b)[1..] == a[1..] + b;
      assert Escape(mode, a + b) == EscapeOctet(mode, a[0]) + (Escape(mode, a[1..]) + Escape(mode, b));
    }
  }

  /** Decoding one octet off the front: how long its text is, and what it stands for. */
  function First(s: Octets): (first: Option<(nat, Octet)>)
    requires s != []
    ensures first.Some? ==> 1 <= first.value.0 <= |s|
  {
    if s[0] != '%' then Some((1, s[0]))
    else if |s| < 3 || Digit(s[1]).None? || Digit(s[2]).None? then None
    else Some((3, (Digit(s[1]).value * 16 + Digit(s[2]).value) as char))
  }

  function Unescape(s: Octets): Option<Octets>
    decreases |s|
  {
    if s == [] then Some([])
    else
      var first := First(s);
      if first.None? then None else Joined(Some([first.value.1]), Unescape(s[first.value.0..]))
  }

  function Joined(a: Option<Octets>, b: Option<Octets>): Option<Octets> {
    if a.None? || b.None? then None else Some(a.value + b.value)
  }

  lemma JoinedAssociates(a: Option<Octets>, b: Option<Octets>, c: Option<Octets>)
    ensures Joined(Joined(a, b), c) == Joined(a, Joined(b, c))
  {
    if a.Some? && b.Some? && c.Some? {
      assert (a.value + b.value) + c.value == a.value + (b.value + c.value);
    }
  }

  /** Decoding stops at the end of a text that is itself well-formed. */
  lemma {:induction false} UnescapeAppend(a: Octets, b: Octets)
    requires Unescape(a).Some?
    ensures Unescape(a + b) == Joined(Unescape(a), Unescape(b))
    decreases |a|
  {
    if a == [] {
      assert a + b == b;
      if Unescape(b).Some? { assert [] + Unescape(b).value == Unescape(b).value; }
    } else {
      assert First(a + b) == First(a);
      hide First, Joined;
      var n, c := First(a).value.0, First(a).value.1;
      JoinedIsSome(Some([c]), Unescape(a[n..]));
      UnescapeAppend(a[n..], b);
      assert (a + b)[n..] == a[n..] + b;
      JoinedAssociates(Some([c]), Unescape(a[n..]), Unescape(b));
    }
  }

  lemma JoinedIsSome(a: Option<Octets>, b: Option<Octets>)
    ensures Joined(a, b).Some? <==> a.Some? && b.Some?
  {
  }

  lemma UnescapeOctet(mode: Mode, c: Octet, rest: Octets)
    ensures Unescape(EscapeOctet(mode, c) + rest) == Joined(Some([c]), Unescape(rest))
  {
    var text := EscapeOctet(mode, c) + rest;
    if Keeps(mode, c) {
      assert text[1..] == rest;
    } else {
      DigitOfHexDigit(c as int / 16);
      DigitOfHexDigit(c as int % 16);
      assert text[3..] == rest;
    }
  }

  /** Decoding undoes either encoding. */
  lemma {:induction false} UnescapeEscape(mode: Mode, s: Octets)
    ensures Unescape(Escape(mode, s)) == Some(s)
  {
    if s != [] {
      UnescapeEscape(mode, s[1..]);
      UnescapeOctet(mode, s[0], Escape(mode, s[1..]));
      assert [s[0]] + s[1..] == s;
    }
  }

  lemma EscapeInjective(mode: Mode, a: Octets, b: Octets)
    requires Escape(mode, a) == Escape(mode, b)
    ensures a == b
  {
    UnescapeEscape(mode, a);
    UnescapeEscape(mode, b);
  }

  /** What an encoded text is made of. */
  lemma {:induction false} EscapedOctets(mode: Mode, s: Octets)
    ensures forall c :: c in Escape(mode, s) ==> Keeps(mode, c) || c == '%'
  {
    if s != [] {
      EscapedOctets(mode, s[1..]);
    }
  }

  /** The two encodings agree exactly on texts without the octets they treat differently. */
  lemma {:induction false} ComponentAndPathAgree(s: Octets)
    ensures Escape(Component, s) == Escape(Path, s) <==> forall c :: c in s ==> c != '/' && !PathReserved(c)
  {
    if s != [] {
      ComponentAndPathAgree(s[1..]);
      assert forall c :: c in s <==> c == s[0] || c in s[1..];
      var a, b := Escape(Component, s[1..]), Escape(Path, s[1..]);
      if s[0] != '/' && !PathReserved(s[0]) {
        var first := EscapeOctet(Path, s[0]);
        assert EscapeOctet(Component, s[0]) == first;
        assert Escape(Component, s) == first + a && Escape(Path, s) == first + b;
        assert (first + a)[|first|..] == a && (first + b)[|first|..] == b;
      } else {
        assert Escape(Component, s)[0] == '%' && Escape(Path, s)[0] == s[0] && s[0] in s;
      }
    }
  }

  // ------------------------------------------- url.QueryEscape and spaces

  function QueryEscape(s: Octets): Octets {
    if s == [] then []
    else (if s[0] == ' ' then ['+'] else EscapeOctet(Component, s[0])) + QueryEscape(s[1..])
  }

  function PlusText(c: Octet): Octets {
    if c == '+' then ['%', '2', '0'] else [c]
  }

  function ReplacePlus(s: Octets): Octets {
    if s == [] then [] else PlusText(s[0]) + ReplacePlus(s[1..])
  }

  lemma {:induction false} ReplacePlusAppend(a: Octets, b: Octets)
    ensures ReplacePlus(a + b) == ReplacePlus(a) + ReplacePlus(b)
  {
    hide PlusText;
    if a == [] {
      assert a + b == b;
    } else {
      ReplacePlusAppend(a[1..], b);
      assert (a + b)[1..] == a[1..] + b;
      assert ReplacePlus(a + b) == PlusText(a[0]) + (ReplacePlus(a[1..]) + ReplacePlus(b));
    }
  }

  /** Query escaping with its plus signs rewritten is component escaping. */
  lemma {:induction false} EscapeDIDComponent(s: Octets)
    ensures ReplacePlus(QueryEscape(s)) == Escape(Component, s)
  {
    if s != [] {
      EscapeDIDComponent(s[1..]);
      var first: Octets := if s[0] == ' ' then ['+'] else EscapeOctet(Component, s[0]);
      ReplacePlusAppend(first, QueryEscape(s[1..]));
      if |first| == 3 {
        assert first == [first[0]] + [first[1]] + [first[2]];
        ReplacePlusAppend([first[0]], [first[1]] + [first[2]]);
        ReplacePlusAppend([first[1]], [first[2]]);
      }
    }
  }

  // ------------------------------------- how net/url prints a parsed path

  /** Octets that net/url accepts in a path as it was written. */
  predicate MayStandInPath(c: Octet) {
    Keeps(Path, c) || c == '!' || c == '\'' || c == '(' || c == ')' || c == '*' || c == '[' || c == ']' || c == '%'
  }

  predicate IsValidEncoding(path: Octets) {
    forall c :: c in path ==> MayStandInPath(c)
  }

  /** Parse a path and print it: as written when every octet may stand in a path,
      otherwise decoded and encoded again. */
  function Normal(path: Octets): Option<Octets> {
    var decoded := Unescape(path);
    if decoded.None? then None
    else if IsValidEncoding(path) then Some(path)
    else Some(Escape(Path, decoded.value))
  }
}
