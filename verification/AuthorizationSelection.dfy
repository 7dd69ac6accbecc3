/** Which of a request's authorization values the Service acts on.

The dedicated AEP field and the standard Authorization field may both be present,
repeated, or hold foreign schemes; at most one AEP presentation may survive.  */
module AuthorizationSelection {
  import opened Prelude
  import opened Credentials

  const DEDICATED := "AEP-Authorization"

  /** The grammar of the two fields; only whether a value parses matters here. */
  datatype Grammar = Grammar(standard: string -> Option<Authorization>, dedicated: string -> Option<Authorization>)

  type Headers = string -> seq<string>

  /** The values that parse as standard authorizations, in order. */
  function Recognized(grammar: Grammar, values: seq<string>): (recognized: seq<string>)
    ensures |recognized| <= |values|
    ensures recognized == [] <==> forall v :: v in values ==> grammar.standard(v).None?
  {
    if values == [] then []
    else
      var rest := Recognized(grammar, values[1..]);
      assert forall v :: v in values <==> v == values[0] || v in values[1..];
      if grammar.standard(values[0]).Some? then [values[0]] + rest else rest
  }

  lemma {:induction false} RecognizedAppend(grammar: Grammar, values: seq<string>, v: string)
    ensures Recognized(grammar, values + [v]) == Recognized(grammar, values) + if grammar.standard(v).Some? then [v] else []
  {
    if values == [] {
      assert values + [v] == [v];
    } else {
      assert (values + [v])[1..] == values[1..] + [v];
      RecognizedAppend(grammar, values[1..], v);
    }
  }

  /** None when the presentation is ambiguous, Some("") when there is none. */
  function Select(grammar: Grammar, headers: Headers): Option<string> {
    var dedicated, standard := headers(DEDICATED), headers(AUTHORIZATION);
    var recognized := Recognized(grammar, standard);
    if dedicated == [] then
      if |recognized| > 1 || (|recognized| == 1 && |standard| > 1) then None
      else if |recognized| == 1 then Some(recognized[0])
      else Some("")
    else if |dedicated| == 1 && grammar.dedicated(dedicated[0]).Some? && recognized == [] then Some(dedicated[0])
    else None
  }

  /** No Authorization value parses. */
  predicate NoneStandard(grammar: Grammar, headers: Headers) {
    forall v :: v in headers("Authorization") ==> grammar.standard(v).None?
  }

  /** The request presents `v`: as its only Authorization value, without the dedicated
      field, or in its only dedicated field, beside Authorization values none of which parses. */
  predicate PresentsAlone(grammar: Grammar, headers: Headers, v: string) {
    || (headers("AEP-Authorization") == [] && headers("Authorization") == [v] && grammar.standard(v).Some?)
    || (headers("AEP-Authorization") == [v] && grammar.dedicated(v).Some? && NoneStandard(grammar, headers))
  }

  /** What is selected is what is presented alone, and "" if nothing is presented; any
      other request is ambiguous. */
  lemma SelectsExactly(grammar: Grammar, headers: Headers)
    requires grammar.standard("").None? && grammar.dedicated("").None?
    ensures forall v :: v != "" ==> (Select(grammar, headers) == Some(v) <==> PresentsAlone(grammar, headers, v))
    ensures Select(grammar, headers) == Some("") <==> headers("AEP-Authorization") == [] && NoneStandard(grammar, headers)
  {
    var standard := headers(AUTHORIZATION);
    var recognized := Recognized(grammar, standard);
    RecognizedComeFrom(grammar, standard);
    if |recognized| == 1 {
      assert recognized[0] in standard;
      assert |standard| == 1 ==> standard == [recognized[0]];
    }
    forall v | standard == [v] && grammar.standard(v).Some? ensures recognized == [v] {
      assert Recognized(grammar, [v][1..]) == [];
    }
  }

  method SelectAuthorizationPresentation(grammar: Grammar, headers: Headers) returns (selected: Option<string>)
    ensures selected == Select(grammar, headers)
  {
    var dedicated, standard := headers(DEDICATED), headers(AUTHORIZATION);
    if |dedicated| == 0 {
      var recognized := [];
      for i := 0 to |standard|
        invariant recognized == Recognized(grammar, standard[..i])
      {
        assert standard[..i + 1] == standard[..i] + [standard[i]];
        RecognizedAppend(grammar, standard[..i], standard[i]);
        if grammar.standard(standard[i]).Some? {
          recognized := recognized + [standard[i]];
        }
      }
      assert standard[..|standard|] == standard;
      if |recognized| > 1 || (|recognized| == 1 && |standard| > 1) { return None; }
      if |recognized| == 1 { return Some(recognized[0]); }
      return Some("");
    }
    if |dedicated| != 1 { return None; }
    if grammar.dedicated(dedicated[0]).None? { return None; }
    for i := 0 to |standard|
      invariant forall k :: 0 <= k < i ==> grammar.standard(standard[k]).None?
    {
      if grammar.standard(standard[i]).Some? {
        assert standard[i] in standard;
        return None;
      }
    }
    return Some(dedicated[0]);
  }

  /** The headers that the credential handlers see. */
  function Effective(headers: Headers, presentation: string): Headers {
    if presentation == "" then headers
    else name => if name == AUTHORIZATION then [presentation] else if name == DEDICATED then [] else headers(name)
  }

  function FirstValue(values: seq<string>): string {
    if values == [] then "" else values[0]
  }

  /** After a selection the handlers see no dedicated field and at most one
      authorization that parses; when one does, it is the only value of its field and
      it came with the request.  A nonempty presentation is a parsed one. */
  lemma AtMostOnePresentation(grammar: Grammar, headers: Headers)
    requires grammar.standard("").None? && grammar.dedicated("").None?
    requires Select(grammar, headers).Some?
    ensures var presentation := Select(grammar, headers).value;
            var seen := Effective(headers, presentation);
            && seen(DEDICATED) == []
            && (forall name :: name != DEDICATED && (name != AUTHORIZATION || presentation == "") ==> seen(name) == headers(name))
            && (presentation != "" ==> seen(AUTHORIZATION) == [presentation])
            && |Recognized(grammar, seen(AUTHORIZATION))| <= 1
            && (Recognized(grammar, seen(AUTHORIZATION)) != [] ==>
                  |seen(AUTHORIZATION)| == 1 && seen(AUTHORIZATION)[0] in headers(AUTHORIZATION) + headers(DEDICATED))
            && (presentation == "" <==> headers(DEDICATED) == [] && Recognized(grammar, headers(AUTHORIZATION)) == [])
  {
    var standard := headers(AUTHORIZATION);
    var presentation := Select(grammar, headers).value;
    assert Recognized(grammar, [presentation]) == if grammar.standard(presentation).Some? then [presentation] else [];
    RecognizedComeFrom(grammar, standard);
  }

  lemma {:induction false} RecognizedComeFrom(grammar: Grammar, values: seq<string>)
    ensures forall v :: v in Recognized(grammar, values) ==> v in values && grammar.standard(v).Some?
  {
    if values != [] {
      RecognizedComeFrom(grammar, values[1..]);
    }
  }

  /** A request that carries the dedicated field and, anywhere among its Authorization
      values, one that parses is ambiguous. */
  lemma StandardBesideDedicatedIsAmbiguous(grammar: Grammar, headers: Headers, v: string)
    requires headers(DEDICATED) != [] && v in headers(AUTHORIZATION) && grammar.standard(v).Some?
    ensures Select(grammar, headers).None?
  {
  }
}
