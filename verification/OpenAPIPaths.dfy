/** Selection of an OpenAPI path template.

The templates come from a map whose iteration order is random, so what matters is
that the outcome depends on which templates there are and not on their order.  */
module OpenAPIPaths {
  import opened Prelude
  import opened OctetText

  datatype Options = Options(httpMethod: Octets, path: Octets, trailingSlash: Octets)

  /** A target after validation: the segments of the requested path. */
  datatype Target = Target(segments: seq<Octets>, equivalent: bool)

  datatype Outcome =
    | Invalid
    | NotDocumented
    | Ambiguous
    | Match(httpMethod: Octets, template: Octets)

  // ------------------------------------------------------------- segments

  function TrimSlashSuffix(s: Octets): Octets {
    if s != "" && s[|s| - 1] == '/' then s[..|s| - 1] else s
  }

  function TrimSlashPrefix(s: Octets): Octets {
    if s != "" && s[0] == '/' then s[1..] else s
  }

  function Segments(path: Octets, equivalent: bool): (segments: seq<Octets>)
    ensures |segments| > 0
  {
    var trimmed := if equivalent && path != "/" then TrimSlashSuffix(path) else path;
    Split(TrimSlashPrefix(trimmed), '/')
  }

  predicate IsParameter(segment: Octets) {
    |segment| > 2 && segment[0] == '{' && segment[|segment| - 1] == '}'
  }

  /** A parameter takes any nonempty segment, a literal only itself. */
  predicate Fits(target: Target, template: Octets) {
    var segments := Segments(template, target.equivalent);
    && |segments| == |target.segments|
    && forall i :: 0 <= i < |segments| ==>
         if IsParameter(segments[i]) then target.segments[i] != "" else segments[i] == target.segments[i]
  }

  /** One digit a segment: '1' for a literal, '0' for a parameter. */
  function Specificity(segments: seq<Octets>): (digits: Octets)
    ensures |digits| == |segments|
  {
    seq(|segments|, i requires 0 <= i < |segments| => if IsParameter(segments[i]) then '0' else '1')
  }

  function Score(target: Target, template: Octets): Octets {
    Specificity(Segments(template, target.equivalent))
  }

  /** What the byte order of two scores means: where the templates first differ in
      kind, the greater one has the literal. */
  lemma {:induction false} LessMeansLaterParameter(a: Octets, b: Octets)
    requires |a| == |b| && forall i :: 0 <= i < |a| ==> a[i] in "01" && b[i] in "01"
    ensures Less(a, b) <==> exists i :: 0 <= i < |a| && a[i] == '0' && b[i] == '1' && a[..i] == b[..i]
  {
    if a != "" {
      var x, y := a[1..], b[1..];
      LessMeansLaterParameter(x, y);
      if Less(a, b) {
        if a[0] == b[0] {
          var i :| 0 <= i < |x| && x[i] == '0' && y[i] == '1' && x[..i] == y[..i];
          assert a[..i + 1] == [a[0]] + x[..i] && b[..i + 1] == [b[0]] + y[..i];
          assert a[i + 1] == '0';
        } else {
          assert a[..0] == b[..0];
        }
      }
      if i :| 0 <= i < |a| && a[i] == '0' && b[i] == '1' && a[..i] == b[..i] {
        if i > 0 {
          assert a[..i][0] == b[..i][0];
          assert x[..i - 1] == a[..i][1..] && y[..i - 1] == b[..i][1..];
          assert x[i - 1] == '0';
        }
      }
    }
  }

  // --------------------------------------------- what segments and fits mean

  lemma PrefixedCons(piece: Octets, pieces: seq<Octets>, separator: Octet)
    ensures Prefixed([piece] + pieces, separator) == [separator] + piece + Prefixed(pieces, separator)
  {
    assert ([piece] + pieces)[1..] == pieces;
  }

  lemma {:induction false} SplitSpells(s: Octets, separator: Octet)
    ensures Prefixed(Split(s, separator), separator) == [separator] + s
  {
    if s == [] {
      PrefixedCons([], [], separator);
    } else {
      SplitSpells(s[1..], separator);
      var rest := Split(s[1..], separator);
      hide Prefixed;
      assert s == [s[0]] + s[1..];
      if s[0] == separator {
        PrefixedCons([], rest, separator);
      } else {
        PrefixedCons(rest[0], rest[1..], separator);
        PrefixedCons([s[0]] + rest[0], rest[1..], separator);
        assert rest == [rest[0]] + rest[1..];
        var tail := Prefixed(rest[1..], separator);
        assert [separator] + rest[0] + tail == [separator] + (rest[0] + tail);
        SameTail(separator, s[1..], rest[0] + tail);
      }
    }
  }

  lemma SameTail(c: Octet, a: Octets, b: Octets)
    requires [c] + a == [c] + b
    ensures a == b
  {
    assert ([c] + a)[1..] == a && ([c] + b)[1..] == b;
  }

  /** The segments of a path spell it out, with a slash before each; a slash at the end is
      told apart from none exactly if trailing slashes are strict. */
  lemma SegmentsSpellThePath(path: Octets)
    ensures Prefixed(Segments(path, false), '/') == if path != [] && path[0] == '/' then path else ['/'] + path
    ensures path != [] && path[|path| - 1] != '/' ==>
              && Segments(path + ['/'], true) == Segments(path, true)
              && Segments(path + ['/'], false) != Segments(path, false)
  {
    StrictSegmentsSpell(path);
    if path != [] && path[|path| - 1] != '/' {
      var slashed := path + ['/'];
      StrictSegmentsSpell(slashed);
      hide Split, Prefixed;
      assert |slashed| > 1 && slashed[|slashed| - 1] == '/' && slashed[..|slashed| - 1] == path;
      assert TrimSlashSuffix(slashed) == path && TrimSlashSuffix(path) == path;
    }
  }

  lemma StrictSegmentsSpell(path: Octets)
    ensures Prefixed(Segments(path, false), '/') == if path != [] && path[0] == '/' then path else ['/'] + path
  {
    SplitSpells(TrimSlashPrefix(path), '/');
    if path != [] {
      assert [path[0]] + path[1..] == path;
    }
  }

  predicate IsBraced(segment: Octets) {
    |segment| >= 3 && '{' == segment[0] && '}' == segment[|segment| - 1]
  }

  /** Templates fit segment by segment: a braced name takes any text but the empty one. */
  lemma FitsSegmentwise(target: Target, template: Octets)
    ensures Fits(target, template) <==>
            && |target.segments| == |Segments(template, target.equivalent)|
            && forall i :: 0 <= i < |target.segments| ==>
                 var own, asked := Segments(template, target.equivalent)[i], target.segments[i];
                 (IsBraced(own) ==> asked != "") && (!IsBraced(own) ==> own == asked)
  {
  }

  /** In the first segment where the kinds differ, `a` has a parameter and `b` a literal. */
  ghost predicate HasLaterLiteral(a: seq<Octets>, b: seq<Octets>) {
    exists i :: 0 <= i < |a| && i < |b| && IsBraced(a[i]) && !IsBraced(b[i]) && forall j :: 0 <= j < i ==> (IsBraced(a[j]) <==> IsBraced(b[j]))
  }

  /** The score prefers the template with the earlier literal. */
  lemma LiteralsComeFirst(target: Target, t: Octets, u: Octets)
    requires Fits(target, t) && Fits(target, u)
    ensures Less(Score(target, t), Score(target, u)) <==> HasLaterLiteral(Segments(t, target.equivalent), Segments(u, target.equivalent))
  {
    hide Less, Segments, Specificity, HasLaterLiteral;
    DigitsDecide(Segments(t, target.equivalent), Segments(u, target.equivalent));
  }

  lemma DigitsDecide(a: seq<Octets>, b: seq<Octets>)
    requires |a| == |b|
    ensures Less(Specificity(a), Specificity(b)) <==> HasLaterLiteral(a, b)
  {
    var x, y := Specificity(a), Specificity(b);
    DigitsTell(a);
    DigitsTell(b);
    hide Less, Specificity, IsBraced;
    LessMeansLaterParameter(x, y);
    forall i | 0 <= i < |a| ensures x[..i] == y[..i] <==> forall j :: 0 <= j < i ==> (IsBraced(a[j]) <==> IsBraced(b[j])) {
      SamePrefix(x, y, i);
    }
  }

  lemma DigitsTell(a: seq<Octets>)
    ensures var x := Specificity(a); forall i :: 0 <= i < |a| ==> x[i] in "01" && (x[i] == '0' <==> IsBraced(a[i]))
  {
  }

  lemma SamePrefix(x: Octets, y: Octets, i: nat)
    requires i <= |x| && i <= |y|
    ensures x[..i] == y[..i] <==> forall j :: 0 <= j < i ==> x[j] == y[j]
  {
    if x[..i] == y[..i] {
      assert forall j :: 0 <= j < i ==> x[j] == x[..i][j] && y[j] == y[..i][j];
    }
  }

  // ------------------------------------------------------------ selection

  /** The loop's variables. */
  datatype Standing = Standing(best: Octets, score: Octets, ambiguous: bool)

  const NOBODY := Standing("", "", false)

  function Judge(target: Target, s: Standing, template: Octets): Standing {
    var score := Score(target, template);
    if !Fits(target, template) then s
    else if s.best == "" || Less(s.score, score) then Standing(template, score, false)
    else if score == s.score then s.(ambiguous := true)
    else s
  }

  function Judged(target: Target, templates: seq<Octets>): Standing {
    if templates == [] then NOBODY
    else Judge(target, Judged(target, templates[..|templates| - 1]), templates[|templates| - 1])
  }

  /** The body of the outer loop: the score of a template, or None. */
  method ScoreTemplate(target: Target, template: Octets) returns (score: Option<Octets>)
    ensures score == if Fits(target, template) then Some(Score(target, template)) else None
  {
    var segments := Segments(template, target.equivalent);
    if |segments| != |target.segments| { return None; }
    var specificity := new char[|segments|];
    var index := 0;
    while index < |segments|
      invariant index <= |segments|
      invariant forall i :: 0 <= i < index ==>
                  && specificity[i] == Specificity(segments)[i]
                  && if IsParameter(segments[i]) then target.segments[i] != "" else segments[i] == target.segments[i]
    {
      var segment := segments[index];
      if |segment| > 2 && segment[0] == '{' && segment[|segment| - 1] == '}' {
        if target.segments[index] == "" { return None; }
        specificity[index] := '0';
      } else {
        specificity[index] := '1';
        if segment != target.segments[index] { return None; }
      }
      index := index + 1;
    }
    assert specificity[..] == Specificity(segments);
    return Some(specificity[..]);
  }

  predicate ValidOptions(o: Options, upper: Octets -> Octets) {
    upper(o.httpMethod) != "" && o.path != "" && '?' !in o.path && (o.trailingSlash == "strict" || o.trailingSlash == "equivalent")
  }

  function TargetOf(o: Options): Target {
    var equivalent := o.trailingSlash == "equivalent";
    Target(Segments(o.path, equivalent), equivalent)
  }

  function Verdict(s: Standing, httpMethod: Octets): Outcome {
    if s.best == "" then NotDocumented
    else if s.ambiguous then Ambiguous
    else Match(httpMethod, s.best)
  }

  function Select(templates: seq<Octets>, o: Options, upper: Octets -> Octets): Outcome {
    if !ValidOptions(o, upper) then Invalid else Verdict(Judged(TargetOf(o), templates), upper(o.httpMethod))
  }

  /** MatchOpenAPIPath; `upper` is the upper-casing of method names. */
  method MatchOpenAPIPath(templates: seq<Octets>, o: Options, upper: Octets -> Octets) returns (outcome: Outcome)
    ensures outcome == Select(templates, o, upper)
    ensures outcome.Invalid? <==> upper(o.httpMethod) == "" || o.path == "" || '?' in o.path || !(o.trailingSlash == "strict" || o.trailingSlash == "equivalent")
  {
    var httpMethod := upper(o.httpMethod);
    if httpMethod == "" || o.path == "" || '?' in o.path { return Invalid; }
    if o.trailingSlash != "strict" && o.trailingSlash != "equivalent" { return Invalid; }
    var target := TargetOf(o);
    var best: Octets, bestSpecificity: Octets, ambiguous := "", "", false;
    for i := 0 to |templates|
      invariant Standing(best, bestSpecificity, ambiguous) == Judged(target, templates[..i])
    {
      assert templates[..i + 1][..i] == templates[..i];
      var score := ScoreTemplate(target, templates[i]);
      if score.None? { continue; }
      if best == "" || Less(bestSpecificity, score.value) {
        best, bestSpecificity := templates[i], score.value;
        ambiguous := false;
        continue;
      }
      if score.value == bestSpecificity {
        ambiguous := true;
      }
    }
    assert templates[..|templates|] == templates;
    if best == "" { return NotDocumented; }
    if ambiguous { return Ambiguous; }
    return Match(httpMethod, best);
  }

  // --------------------------------------- what the outcome says, order-free

  predicate Offers(target: Target, m: multiset<Octets>, t: Octets) {
    t in m && Fits(target, t)
  }

  /** No fitting template is more specific. */
  ghost predicate IsTop(target: Target, m: multiset<Octets>, t: Octets) {
    Offers(target, m, t) && forall u :: Offers(target, m, u) ==> !Less(Score(target, t), Score(target, u))
  }

  /** Two occurrences share the top. */
  ghost predicate IsShared(target: Target, m: multiset<Octets>) {
    exists t, u :: IsTop(target, m, t) && IsTop(target, m, u) && (t != u || m[t] >= 2)
  }

  /** A standing that says no more and no less than the multiset of templates does. */
  ghost predicate Describes(target: Target, m: multiset<Octets>, s: Standing) {
    && (s.best == "" <==> forall t :: !Offers(target, m, t))
    && (s.best == "" ==> s == NOBODY)
    && (s.best != "" ==> IsTop(target, m, s.best) && s.score == Score(target, s.best))
    && (s.best != "" ==> (s.ambiguous <==> IsShared(target, m)))
  }

  lemma MisfitChangesNothing(target: Target, m: multiset<Octets>, t: Octets, s: Standing)
    requires Describes(target, m, s) && !Fits(target, t)
    ensures Describes(target, m + multiset{t}, s)
  {
    hide Fits, Score, Less;
    var n := m + multiset{t};
    assert forall u :: Offers(target, n, u) <==> Offers(target, m, u);
    assert forall u :: IsTop(target, n, u) <==> IsTop(target, m, u);
    assert forall u :: Offers(target, m, u) ==> n[u] == m[u];
  }

  lemma LeaderTakesOver(target: Target, m: multiset<Octets>, t: Octets, s: Standing)
    requires Describes(target, m, s) && Fits(target, t) && t != ""
    requires s.best == "" || Less(s.score, Score(target, t))
    ensures Describes(target, m + multiset{t}, Standing(t, Score(target, t), false))
  {
    hide Fits, Score, Less;
    var n := m + multiset{t};
    var score := Score(target, t);
    assert Offers(target, n, t);
    LessTrichotomy(score, score);
    forall u | Offers(target, m, u) ensures Less(Score(target, u), score) {
      LessTrichotomy(Score(target, u), s.score);
      if Less(Score(target, u), s.score) { LessTransitive(Score(target, u), s.score, score); }
    }
    forall u | Offers(target, n, u) ensures !Less(score, Score(target, u)) {
      LessTrichotomy(score, Score(target, u));
    }
    assert IsTop(target, n, t);
    assert t in m ==> Offers(target, m, t);
    forall u | IsTop(target, n, u) ensures u == t {
      assert Offers(target, n, u);
    }
  }

  lemma ChallengerSettles(target: Target, m: multiset<Octets>, t: Octets, s: Standing)
    requires Describes(target, m, s) && Fits(target, t) && s.best != ""
    requires !Less(s.score, Score(target, t))
    ensures Describes(target, m + multiset{t}, if Score(target, t) == s.score then s.(ambiguous := true) else s)
  {
    hide Fits, Score, Less;
    var n := m + multiset{t};
    assert forall u :: Offers(target, n, u) <==> Offers(target, m, u) || u == t;
    assert IsTop(target, n, s.best);
    LessTrichotomy(s.score, Score(target, t));
    forall u | Offers(target, m, u) ensures IsTop(target, n, u) <==> IsTop(target, m, u) {
      LessTrichotomy(Score(target, u), s.score);
    }
    if Score(target, t) == s.score {
      assert IsTop(target, n, t);
      assert IsShared(target, n) by { if t == s.best { assert n[t] >= 2; } }
    } else {
      assert !IsTop(target, n, t);
      forall u | IsTop(target, n, u) ensures IsTop(target, m, u) && n[u] == m[u] {
      }
      if IsShared(target, m) {
        var u, v :| IsTop(target, m, u) && IsTop(target, m, v) && (u != v || m[u] >= 2);
        assert IsTop(target, n, u) && IsTop(target, n, v);
      }
    }
  }

  lemma JudgedLast(target: Target, templates: seq<Octets>, t: Octets)
    ensures Judged(target, templates + [t]) == Judge(target, Judged(target, templates), t)
  {
    assert (templates + [t])[..|templates + [t]| - 1] == templates;
  }

  lemma ByLast(templates: seq<Octets>)
    requires templates != []
    ensures var n := |templates| - 1;
            && templates == templates[..n] + [templates[n]]
            && multiset(templates) == multiset(templates[..n]) + multiset{templates[n]}
            && (forall x :: x in templates[..n] ==> x in templates)
  {
    var n := |templates| - 1;
    assert templates == templates[..n] + [templates[n]];
  }

  /** The empty template is the only one that can spoil the standing. */
  lemma {:induction false} StandingDescribes(target: Target, templates: seq<Octets>)
    requires "" !in templates || !Fits(target, "")
    ensures Describes(target, multiset(templates), Judged(target, templates))
  {
    hide Fits, Score, Less;
    if templates != [] {
      var n := |templates| - 1;
      var t, s := templates[n], Judged(target, templates[..n]);
      ByLast(templates);
      StandingDescribes(target, templates[..n]);
      JudgedLast(target, templates[..n], t);
      hide Describes, Judged;
      if !Fits(target, t) {
        MisfitChangesNothing(target, multiset(templates[..n]), t, s);
      } else if s.best == "" || Less(s.score, Score(target, t)) {
        LeaderTakesOver(target, multiset(templates[..n]), t, s);
      } else {
        ChallengerSettles(target, multiset(templates[..n]), t, s);
      }
    }
  }

  /** The three outcomes, for every list in which the empty template does not fit. */
  lemma OutcomeMeans(templates: seq<Octets>, o: Options, upper: Octets -> Octets)
    requires ValidOptions(o, upper) && ("" !in templates || !Fits(TargetOf(o), ""))
    ensures var m, outcome := multiset(templates), Select(templates, o, upper);
            var equivalent := o.trailingSlash == "equivalent";
            var target := Target(Segments(o.path, equivalent), equivalent);
            && (outcome.NotDocumented? <==> forall t :: !Offers(target, m, t))
            && (outcome.Ambiguous? <==> IsShared(target, m))
            && (forall t :: outcome == Match(upper(o.httpMethod), t) <==>
                  IsTop(target, m, t) && m[t] == 1 && forall u :: IsTop(target, m, u) ==> u == t)
  {
    var m, target := multiset(templates), TargetOf(o);
    StandingDescribes(target, templates);
    var s := Judged(target, templates);
    hide Fits, Score;
    if s.best != "" && !IsShared(target, m) {
      assert forall u :: IsTop(target, m, u) ==> u == s.best;
    }
  }

  /** The templates at the top, in terms of their segments. */
  lemma TopsHaveTheLiterals(target: Target, m: multiset<Octets>, t: Octets)
    ensures IsTop(target, m, t) <==>
            && Offers(target, m, t)
            && forall u :: Offers(target, m, u) ==> !HasLaterLiteral(Segments(t, target.equivalent), Segments(u, target.equivalent))
  {
    hide Fits, Score, Less, HasLaterLiteral, Segments;
    if Offers(target, m, t) {
      forall u | Offers(target, m, u)
        ensures Less(Score(target, t), Score(target, u)) <==> HasLaterLiteral(Segments(t, target.equivalent), Segments(u, target.equivalent))
      {
        LiteralsComeFirst(target, t, u);
      }
    }
  }

  // ----------------------------------------------- where order does matter

  /** Exactly one fitting template is not empty, and it occurs once. */
  ghost predicate HasOneRealFit(target: Target, m: multiset<Octets>) {
    exists t :: IsOneRealFit(target, m, t)
  }

  ghost predicate IsOneRealFit(target: Target, m: multiset<Octets>, t: Octets) {
    t != "" && Offers(target, m, t) && m[t] == 1 && forall u :: Offers(target, m, u) && u != "" ==> u == t
  }

  ghost predicate OrderMatters(target: Target, m: multiset<Octets>) {
    Offers(target, m, "") && HasOneRealFit(target, m)
  }

  /** The empty template fits only the root, and then every fit is a lone empty segment. */
  lemma FitsTheRoot(target: Target, t: Octets)
    requires Fits(target, "") && Fits(target, t)
    ensures Score(target, t) == "1"
  {
    assert Segments("", target.equivalent) == [""];
    assert target.segments == [""];
    var segments := Segments(t, target.equivalent);
    assert segments == [segments[0]];
    assert Specificity(segments) == ['1'];
  }

  /** The standing when the empty template fits: it counts the first other fit as
      the best one, and anything fitting after that as a rival. */
  ghost predicate DescribesRoot(target: Target, m: multiset<Octets>, s: Standing) {
    && (s.best == "" <==> forall t :: Offers(target, m, t) ==> t == "")
    && (s.best == "" ==> !s.ambiguous)
    && (s.best != "" ==> s.score == "1" && Offers(target, m, s.best))
    && (s.best != "" && !s.ambiguous ==> m[s.best] == 1 && forall t :: Offers(target, m, t) && t != "" ==> t == s.best)
  }

  /** At the root every score is "1". */
  lemma JudgeAtTheRoot(target: Target, s: Standing, t: Octets)
    requires Fits(target, "") && (s.best != "" ==> s.score == "1")
    ensures Judge(target, s, t) ==
            if !Fits(target, t) then s
            else if s.best == "" then Standing(t, "1", false)
            else s.(ambiguous := true)
  {
    if Fits(target, t) { FitsTheRoot(target, t); }
    LessTrichotomy("1", "1");
  }

  lemma RootStep(target: Target, m: multiset<Octets>, s: Standing, t: Octets)
    requires Fits(target, "") && DescribesRoot(target, m, s)
    ensures DescribesRoot(target, m + multiset{t}, Judge(target, s, t))
  {
    JudgeAtTheRoot(target, s, t);
    hide Fits, Judge;
    var n := m + multiset{t};
    assert forall u :: Offers(target, n, u) <==> Offers(target, m, u) || (u == t && Fits(target, t));
    assert Offers(target, n, t) <==> Fits(target, t);
    assert Offers(target, m, t) <==> t in m && Fits(target, t);
    assert s.best != "" ==> Offers(target, n, s.best);
  }

  lemma {:induction false} StandingAtTheRoot(target: Target, templates: seq<Octets>)
    requires Fits(target, "")
    ensures DescribesRoot(target, multiset(templates), Judged(target, templates))
  {
    hide Fits, Judge;
    if templates != [] {
      var n := |templates| - 1;
      hide DescribesRoot;
      ByLast(templates);
      StandingAtTheRoot(target, templates[..n]);
      JudgedLast(target, templates[..n], templates[n]);
      RootStep(target, multiset(templates[..n]), Judged(target, templates[..n]), templates[n]);
    }
  }

  lemma {:induction false} RivalsStay(target: Target, front: seq<Octets>, back: seq<Octets>)
    requires Fits(target, "") && Judged(target, front).best != ""
    ensures Judged(target, front + back).best == Judged(target, front).best
    ensures Judged(target, front + back).score == "1"
    ensures Judged(target, front).ambiguous || (exists t :: t in back && Fits(target, t)) ==> Judged(target, front + back).ambiguous
  {
    hide Fits, Judge;
    if back == [] {
      assert front + back == front;
      StandingAtTheRoot(target, front);
    } else {
      hide Judged;
      var n := |back| - 1;
      RivalsStay(target, front, back[..n]);
      assert back == back[..n] + [back[n]];
      assert front + back == (front + back[..n]) + [back[n]];
      JudgedLast(target, front + back[..n], back[n]);
      JudgeAtTheRoot(target, Judged(target, front + back[..n]), back[n]);
    }
  }

  /** Order decides the outcome exactly when the empty template fits and exactly one
      other template does. */
  lemma OrderMattersExactly(templates: seq<Octets>, o: Options, upper: Octets -> Octets)
    requires ValidOptions(o, upper)
    ensures OrderMatters(TargetOf(o), multiset(templates)) <==>
            exists permuted: seq<Octets> :: multiset(permuted) == multiset(templates) &&
                                            Select(permuted, o, upper) != Select(templates, o, upper)
  {
    if OrderMatters(TargetOf(o), multiset(templates)) {
      TwoOrdersDiffer(templates, o, upper);
    } else {
      forall permuted: seq<Octets> | multiset(permuted) == multiset(templates)
        ensures Select(permuted, o, upper) == Select(templates, o, upper)
      {
        OrderDoesNotMatter(templates, permuted, o, upper);
      }
    }
  }

  lemma OrderDoesNotMatter(a: seq<Octets>, b: seq<Octets>, o: Options, upper: Octets -> Octets)
    requires ValidOptions(o, upper) && multiset(a) == multiset(b) && !OrderMatters(TargetOf(o), multiset(a))
    ensures Select(a, o, upper) == Select(b, o, upper)
  {
    hide Fits, TargetOf, Judged, IsTop, IsShared, HasOneRealFit;
    var target := TargetOf(o);
    var m := multiset(a);
    assert "" in a <==> "" in m;
    assert "" in b <==> "" in m;
    if Offers(target, m, "") {
      StandingAtTheRoot(target, a);
      StandingAtTheRoot(target, b);
      NoLoneRealFit(target, m, Judged(target, a), upper(o.httpMethod));
      NoLoneRealFit(target, m, Judged(target, b), upper(o.httpMethod));
    } else {
      OutcomeMeans(a, o, upper);
      OutcomeMeans(b, o, upper);
      var outcome := Select(a, o, upper);
      assert outcome.Match? ==> outcome == Match(upper(o.httpMethod), outcome.template);
    }
  }

  lemma NoLoneRealFit(target: Target, m: multiset<Octets>, s: Standing, httpMethod: Octets)
    requires DescribesRoot(target, m, s) && !HasOneRealFit(target, m)
    ensures Verdict(s, httpMethod) == if forall t :: Offers(target, m, t) ==> t == "" then NotDocumented else Ambiguous
  {
    assert s.best != "" && !s.ambiguous ==> IsOneRealFit(target, m, s.best);
  }

  lemma TwoOrdersDiffer(templates: seq<Octets>, o: Options, upper: Octets -> Octets)
    requires ValidOptions(o, upper) && OrderMatters(TargetOf(o), multiset(templates))
    ensures exists permuted: seq<Octets> :: multiset(permuted) == multiset(templates) &&
                                            Select(permuted, o, upper) != Select(templates, o, upper)
  {
    hide Fits, Select, TargetOf, IsOneRealFit;
    var m := multiset(templates);
    var t :| IsOneRealFit(TargetOf(o), m, t);
    RealFitOccurs(TargetOf(o), templates, t);
    var rest := PullOut(templates, t);
    FirstAndLastDiffer(m, rest, t, o, upper);
    assert multiset([t] + rest) == m && multiset(rest + [t]) == m;
  }

  lemma RealFitOccurs(target: Target, templates: seq<Octets>, t: Octets)
    requires IsOneRealFit(target, multiset(templates), t)
    ensures t in templates
  {
  }

  lemma PullOut(templates: seq<Octets>, t: Octets) returns (rest: seq<Octets>)
    requires t in templates
    ensures multiset(rest) + multiset{t} == multiset(templates)
  {
    var i :| 0 <= i < |templates| && templates[i] == t;
    rest := templates[..i] + templates[i + 1..];
    assert templates == templates[..i] + [t] + templates[i + 1..];
  }

  lemma FirstAndLastDiffer(m: multiset<Octets>, rest: seq<Octets>, t: Octets, o: Options, upper: Octets -> Octets)
    requires ValidOptions(o, upper) && m == multiset(rest) + multiset{t}
    requires IsOneRealFit(TargetOf(o), m, t) && Offers(TargetOf(o), m, "")
    ensures Select([t] + rest, o, upper) == Ambiguous
    ensures Select(rest + [t], o, upper) == Match(upper(o.httpMethod), t)
  {
    hide Fits, Judged, TargetOf;
    OthersAreEmpty(TargetOf(o), rest, t);
    RealFitFirst(TargetOf(o), rest, t);
    RealFitLast(TargetOf(o), rest, t);
  }

  lemma OthersAreEmpty(target: Target, rest: seq<Octets>, t: Octets)
    requires var m := multiset(rest) + multiset{t};
             t != "" && m[t] == 1 && Offers(target, m, "") && forall u :: Offers(target, m, u) && u != "" ==> u == t
    ensures "" in rest && forall u :: u in rest && Fits(target, u) ==> u == ""
  {
    hide Fits;
    var m := multiset(rest) + multiset{t};
    assert multiset(rest)[t] == 0 && multiset(rest)[""] == m[""];
    forall u | u in rest && Fits(target, u) ensures u == "" {
      assert u in multiset(rest);
      assert Offers(target, m, u);
    }
  }

  lemma RealFitFirst(target: Target, rest: seq<Octets>, t: Octets)
    requires Fits(target, "") && Fits(target, t) && t != "" && "" in rest
    ensures Judged(target, [t] + rest).best != "" && Judged(target, [t] + rest).ambiguous
  {
    hide Fits, Judge;
    assert [] + [t] == [t];
    JudgedLast(target, [], t);
    JudgeAtTheRoot(target, NOBODY, t);
    RivalsStay(target, [t], rest);
  }

  lemma RealFitLast(target: Target, rest: seq<Octets>, t: Octets)
    requires Fits(target, "") && Fits(target, t) && t != ""
    requires forall u :: u in rest && Fits(target, u) ==> u == ""
    ensures Judged(target, rest + [t]) == Standing(t, "1", false)
  {
    hide Fits, Judge;
    StandingAtTheRoot(target, rest);
    JudgedLast(target, rest, t);
    JudgeAtTheRoot(target, Judged(target, rest), t);
  }

  /** The smallest such list. */
  lemma EmptyTemplateExample(upper: Octets -> Octets)
    requires upper("get") != ""
    ensures var o := Options("get", "/", "strict");
            && Select(["", "/"], o, upper) == Match(upper("get"), "/")
            && Select(["/", ""], o, upper) == Ambiguous
  {
    var o := Options("get", "/", "strict");
    var target := TargetOf(o);
    assert Segments("/", false) == [""] && Segments("", false) == [""];
    assert Fits(target, "") && Fits(target, "/");
    FitsTheRoot(target, "");
    FitsTheRoot(target, "/");
    assert ["", "/"][..1] == [""] && ["/", ""][..1] == ["/"];
    assert [""][..0] == [] && ["/"][..0] == [];
    assert Judged(target, [""]) == Standing("", "1", false);
    assert Judged(target, ["/"]) == Standing("/", "1", false);
    assert Judged(target, ["", "/"]) == Standing("/", "1", false);
    LessTrichotomy("1", "1");
    assert Judged(target, ["/", ""]) == Standing("/", "1", true);
  }
}
