/** Strings as Go sees them, octet by octet, and how they are split and joined.  */
module OctetText {

  type Octet = c: char | c as int < 256 witness 'a'

  type Octets = seq<Octet>

  /** The pieces between separators; never none. */
  function Split(s: Octets, separator: Octet): (pieces: seq<Octets>)
    ensures pieces != []
  {
    if s == [] then [[]]
    else if s[0] == separator then [[]] + Split(s[1..], separator)
    else
      var rest := Split(s[1..], separator);
      [[s[0]] + rest[0]] + rest[1..]
  }

  /** Each piece with the separator before it. */
  function Prefixed(pieces: seq<Octets>, separator: Octet): Octets {
    if pieces == [] then [] else [separator] + pieces[0] + Prefixed(pieces[1..], separator)
  }

  lemma {:induction false} SplitPiece(piece: Octets, rest: Octets, separator: Octet)
    requires separator !in piece
    ensures Split(piece + [separator] + rest, separator) == [piece] + Split(rest, separator)
    ensures Split(piece, separator) == [piece]
  {
    var s := piece + [separator] + rest;
    if piece == [] {
      assert s[1..] == rest;
    } else {
      SplitPiece(piece[1..], rest, separator);
      assert s[1..] == piece[1..] + [separator] + rest;
      assert [piece[0]] + piece[1..] == piece;
    }
  }

  /** Splitting a joined list gives the list back. */
  lemma {:induction false} SplitPrefixed(first: Octets, rest: seq<Octets>, separator: Octet)
    requires separator !in first && forall i :: 0 <= i < |rest| ==> separator !in rest[i]
    ensures Split(first + Prefixed(rest, separator), separator) == [first] + rest
    decreases |rest|
  {
    hide Split;
    if rest == [] {
      SplitPiece(first, [], separator);
      assert first + Prefixed(rest, separator) == first;
    } else {
      var tail := rest[0] + Prefixed(rest[1..], separator);
      SplitPrefixed(rest[0], rest[1..], separator);
      SplitPiece(first, tail, separator);
      hide Prefixed;
      PrefixedFirst(first, rest, separator);
      assert [rest[0]] + rest[1..] == rest;
    }
  }

  lemma PrefixedFirst(first: Octets, rest: seq<Octets>, separator: Octet)
    requires rest != []
    ensures first + Prefixed(rest, separator) == first + [separator] + (rest[0] + Prefixed(rest[1..], separator))
  {
  }

  lemma {:induction false} PrefixedAppend(pieces: seq<Octets>, piece: Octets, separator: Octet)
    ensures Prefixed(pieces + [piece], separator) == Prefixed(pieces, separator) + [separator] + piece
  {
    if pieces == [] {
      assert pieces + [piece] == [piece];
      assert Prefixed([piece], separator) == [separator] + piece + Prefixed([], separator);
    } else {
      PrefixedAppend(pieces[1..], piece, separator);
      assert (pieces + [piece])[1..] == pieces[1..] + [piece];
    }
  }
}
