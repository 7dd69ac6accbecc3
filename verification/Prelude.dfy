/** Shared vocabulary: optional values, instants, assertion operations, the byte order
of strings, and a counter passed by reference.  */
module Prelude {

  datatype Option<+T> = None | Some(value: T)

  datatype Result<+T> = Ok(value: T) | Err(error: string)

  /** An instant in nanoseconds.  Go's zero `time.Time` is ZERO_TIME. */
  type Time = int

  const ZERO_TIME: Time := 0
  const HOUR: Time := 3_600_000_000_000

  const NUL := "\U{0000}"

  const AUTHENTICATE := "authenticate"

  predicate IsAssertionOperation(operation: string) {
    operation == "enroll" || operation == "grant" || operation == "revoke" || operation == "status" || operation == AUTHENTICATE
  }

  /** First index of `c` in `s`, or |s| when it does not occur. */
  function IndexOf(s: string, c: char): (i: nat)
    ensures i <= |s|
    ensures c !in s[..i]
    ensures i < |s| ==> s[i] == c
  {
    if s == "" || s[0] == c then 0
    else
      assert s == [s[0]] + s[1..];
      var rest := IndexOf(s[1..], c);
      assert s[..1 + rest] == [s[0]] + s[1..][..rest];
      1 + rest
  }

  lemma IndexOfFirst(s: string, c: char, i: nat)
    requires i < |s| && s[i] == c && c !in s[..i]
    ensures IndexOf(s, c) == i
  {
    var j := IndexOf(s, c);
    forall m | 0 <= m < i ensures s[m] != c { assert s[..i][m] == s[m]; }
    forall m | 0 <= m < j ensures s[m] != c { assert s[..j][m] == s[m]; }
  }

  /** Go's byte-wise `<` on strings. */
  predicate Less(a: string, b: string) {
    b != "" && (a == "" || a[0] < b[0] || (a[0] == b[0] && Less(a[1..], b[1..])))
  }

  lemma {:induction false} LessTrichotomy(a: string, b: string)
    ensures Less(a, b) || a == b || Less(b, a)
    ensures !(Less(a, b) && Less(b, a)) && (Less(a, b) ==> a != b)
  {
    if a != "" && b != "" && a[0] == b[0] {
      LessTrichotomy(a[1..], b[1..]);
      assert a == [a[0]] + a[1..] && b == [b[0]] + b[1..];
    }
  }

  lemma {:induction false} LessTransitive(a: string, b: string, c: string)
    requires Less(a, b) && Less(b, c)
    ensures Less(a, c)
  {
    if a != "" && a[0] == b[0] == c[0] {
      LessTransitive(a[1..], b[1..], c[1..]);
    }
  }

  /** An int passed by reference through a recursion. */
  class Counter {
    var n: nat

    constructor ()
      ensures n == 0
    {
      n := 0;
    }
  }
}
