/** The Service's limits on Claim Values.

The check walks a decoded JSON value with one shared member counter and stops at the
first excess.  It visits the members of an object in map order; the limits it
enforces do not depend on that order.  */
module ClaimLimits {
  import opened Prelude

  datatype Value =
    | Text(text: string)
    | Null
    | Boolean
    | Number
    | Array(items: seq<Value>)
    | Object(members: map<string, Value>)

  datatype Limits = Limits(encodedBytes: nat, memberCount: nat, objectDepth: nat, stringLength: nat)

  const DEFAULT := Limits(65_536, 128, 8, 4_096)

  /** Zero means the default; a negative limit is refused. */
  method ResolveClaimValueLimits(encodedBytes: int, memberCount: int, objectDepth: int, stringLength: int) returns (limits: Option<Limits>)
    ensures limits.None? <==> encodedBytes < 0 || memberCount < 0 || objectDepth < 0 || stringLength < 0
    ensures limits.Some? ==>
              && limits.value.encodedBytes > 0 && limits.value.memberCount > 0 && limits.value.objectDepth > 0 && limits.value.stringLength > 0
              && limits.value == Limits(if encodedBytes == 0 then 65_536 else encodedBytes, if memberCount == 0 then 128 else memberCount,
                                        if objectDepth == 0 then 8 else objectDepth, if stringLength == 0 then 4_096 else stringLength)
  {
    if encodedBytes < 0 || memberCount < 0 || objectDepth < 0 || stringLength < 0 { return None; }
    var resolved := DEFAULT;
    if encodedBytes != 0 { resolved := resolved.(encodedBytes := encodedBytes); }
    if memberCount != 0 { resolved := resolved.(memberCount := memberCount); }
    if objectDepth != 0 { resolved := resolved.(objectDepth := objectDepth); }
    if stringLength != 0 { resolved := resolved.(stringLength := stringLength); }
    return Some(resolved);
  }

  // ------------------------------------------------ what the limits bound

  /** Members of all objects inside a value, at every level. */
  ghost function Members(v: Value): nat
    decreases v, 1, 0
  {
    match v
    case Array(items) => MembersOfItems(items)
    case Object(members) => MembersUnder(v, members.Keys)
    case _ => 0
  }

  ghost function MembersOfItems(items: seq<Value>): nat
    decreases items, 0, 0
  {
    if items == [] then 0 else Members(items[0]) + MembersOfItems(items[1..])
  }

  /** The members with these names, and what is inside them. */
  ghost function MembersUnder(v: Value, names: set<string>): nat
    requires v.Object? && names <= v.members.Keys
    decreases v, 0, |names|
  {
    if names == {} then 0
    else
      var name :| name in names;
      1 + Members(v.members[name]) + MembersUnder(v, names - {name})
  }

  /** Strings, names and nesting are within the limits; the outermost container is at depth 1. */
  predicate Fits(v: Value, depth: nat, limits: Limits, runes: string -> nat) {
    match v
    case Text(text) => runes(text) <= limits.stringLength
    case Array(items) => depth <= limits.objectDepth && forall i :: 0 <= i < |items| ==> Fits(items[i], depth + 1, limits, runes)
    case Object(members) =>
      depth <= limits.objectDepth &&
      forall name :: name in members ==> runes(name) <= limits.stringLength && Fits(members[name], depth + 1, limits, runes)
    case _ => true
  }

  /** Any member may be counted first. */
  lemma {:induction false} MembersInAnyOrder(v: Value, names: set<string>, name: string)
    requires v.Object? && names <= v.members.Keys && name in names
    ensures MembersUnder(v, names) == 1 + Members(v.members[name]) + MembersUnder(v, names - {name})
    decreases |names|
  {
    var other :| other in names && MembersUnder(v, names) == 1 + Members(v.members[other]) + MembersUnder(v, names - {other});
    if other != name {
      MembersInAnyOrder(v, names - {other}, name);
      MembersInAnyOrder(v, names - {name}, other);
      assert names - {other} - {name} == names - {name} - {other};
    }
  }

  lemma {:induction false} MembersOfItemsAppend(a: seq<Value>, b: seq<Value>)
    ensures MembersOfItems(a + b) == MembersOfItems(a) + MembersOfItems(b)
  {
    if a == [] {
      assert a + b == b;
    } else {
      MembersOfItemsAppend(a[1..], b);
      assert (a + b)[1..] == a[1..] + b;
    }
  }

  lemma ItemsSplit(items: seq<Value>, i: nat)
    requires i < |items|
    ensures MembersOfItems(items) == MembersOfItems(items[..i]) + Members(items[i]) + MembersOfItems(items[i + 1..])
    ensures MembersOfItems(items[..i + 1]) == MembersOfItems(items[..i]) + Members(items[i])
  {
    assert items == items[..i] + ([items[i]] + items[i + 1..]);
    MembersOfItemsAppend(items[..i], [items[i]] + items[i + 1..]);
    assert ([items[i]] + items[i + 1..])[1..] == items[i + 1..];
    assert items[..i + 1] == items[..i] + [items[i]];
    MembersOfItemsAppend(items[..i], [items[i]]);
    assert MembersOfItems([items[i]]) == Members(items[i]) + MembersOfItems([]);
  }

  // ------------------------------------------------------------- the check

  /** Accepts exactly the values that fit and whose members, together with those
      counted before, are within the limit. */
  method ClaimValueWithinLimits(v: Value, depth: nat, limits: Limits, runes: string -> nat, counter: Counter) returns (ok: bool)
    requires counter.n <= limits.memberCount
    modifies counter
    ensures ok <==> Fits(v, depth, limits, runes) && old(counter.n) + Members(v) <= limits.memberCount
    ensures ok ==> counter.n == old(counter.n) + Members(v)
    decreases v
  {
    match v
    case Text(text) => return runes(text) <= limits.stringLength;
    case Null => return true;
    case Boolean => return true;
    case Number => return true;
    case Array(items) =>
      if depth > limits.objectDepth { return false; }
      for i := 0 to |items|
        invariant counter.n == old(counter.n) + MembersOfItems(items[..i]) <= limits.memberCount
        invariant forall k :: 0 <= k < i ==> Fits(items[k], depth + 1, limits, runes)
      {
        ItemsSplit(items, i);
        var fits := ClaimValueWithinLimits(items[i], depth + 1, limits, runes, counter);
        if !fits { return false; }
      }
      assert items[..|items|] == items;
      return true;
    case Object(members) =>
      if depth > limits.objectDepth { return false; }
      var left := members.Keys;
      while left != {}
        invariant left <= members.Keys
        invariant counter.n == old(counter.n) + Members(v) - MembersUnder(v, left)
        invariant counter.n <= limits.memberCount
        invariant forall name :: name in members && name !in left ==>
                    runes(name) <= limits.stringLength && Fits(members[name], depth + 1, limits, runes)
      {
        var name :| name in left;
        MembersInAnyOrder(v, left, name);
        counter.n := counter.n + 1;
        if counter.n > limits.memberCount || runes(name) > limits.stringLength { return false; }
        var fits := ClaimValueWithinLimits(members[name], depth + 1, limits, runes, counter);
        if !fits { return false; }
        left := left - {name};
      }
      return true;
  }

  /** `encoded` is the length of the value's JSON text, None when it has none. */
  method ClaimValuesWithinLimits(v: Option<Value>, encoded: Option<nat>, limits: Limits, runes: string -> nat) returns (ok: bool)
    ensures ok <==>
            v.None? || (&& encoded.Some? && encoded.value <= limits.encodedBytes
                        && Fits(v.value, 1, limits, runes) && Members(v.value) <= limits.memberCount)
  {
    if v.None? { return true; }
    if encoded.None? || encoded.value > limits.encodedBytes { return false; }
    var counter := new Counter();
    ok := ClaimValueWithinLimits(v.value, 1, limits, runes, counter);
  }

  // ------------------------------------------------- depth, by another road

  /** Containers nested inside one another. */
  ghost predicate NestsAtMost(v: Value, n: nat) {
    match v
    case Array(items) => n > 0 && forall i :: 0 <= i < |items| ==> NestsAtMost(items[i], n - 1)
    case Object(members) => n > 0 && forall name :: name in members ==> NestsAtMost(members[name], n - 1)
    case _ => true
  }

  /** Every text and every member name, at any level. */
  ghost predicate TextsFit(v: Value, n: nat, runes: string -> nat) {
    match v
    case Text(text) => runes(text) <= n
    case Array(items) => forall i :: 0 <= i < |items| ==> TextsFit(items[i], n, runes)
    case Object(members) => forall name :: name in members ==> runes(name) <= n && TextsFit(members[name], n, runes)
    case _ => true
  }

  /** What the walk enforces with its depth argument is exactly a bound on nesting. */
  lemma {:induction false} FitsBoundsNesting(v: Value, depth: nat, limits: Limits, runes: string -> nat)
    requires depth <= limits.objectDepth + 1
    ensures Fits(v, depth, limits, runes) <==>
            NestsAtMost(v, limits.objectDepth + 1 - depth) && TextsFit(v, limits.stringLength, runes)
    decreases v
  {
    if depth <= limits.objectDepth {
      match v
      case Array(items) =>
        forall i | 0 <= i < |items|
          ensures Fits(items[i], depth + 1, limits, runes) <==>
                  NestsAtMost(items[i], limits.objectDepth - depth) && TextsFit(items[i], limits.stringLength, runes)
        {
          FitsBoundsNesting(items[i], depth + 1, limits, runes);
        }
      case Object(members) =>
        forall name | name in members
          ensures Fits(members[name], depth + 1, limits, runes) <==>
                  NestsAtMost(members[name], limits.objectDepth - depth) && TextsFit(members[name], limits.stringLength, runes)
        {
          FitsBoundsNesting(members[name], depth + 1, limits, runes);
        }
      case _ =>
    }
  }
}
