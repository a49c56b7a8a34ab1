/** Redirect rules that ignore case (syte/main.py, `re.IGNORECASE`), over the ASCII letters. */
module RedirectCase {
  import opened Wrappers
  import opened RedirectPattern
  import opened RedirectEngine
  import opened Domains

  /** The same character, or a letter and its capital, by their code points. */
  predicate CaseChar(a: char, b: char) {
    var x, y := a as int, b as int;
    x == y || (65 <= x <= 90 && y == x + 32) || (65 <= y <= 90 && x == y + 32)
  }

  /** The texts differ at most in the case of letters. */
  predicate CaseEqual(s: string, t: string) {
    |s| == |t| && forall i :: 0 <= i < |s| ==> CaseChar(s[i], t[i])
  }

  /** Two characters agree exactly when they are the same, or the rule ignores case and they are the
      same letter. */
  lemma SameIs(cs: bool, a: char, b: char)
    ensures Same(cs, a, b) <==> if cs then a == b else CaseChar(a, b)
  {
  }

  lemma SameTextIs(cs: bool, a: string, b: string)
    ensures SameText(cs, a, b) <==> if cs then a == b else CaseEqual(a, b)
  {
    forall i | 0 <= i < |a| && i < |b|
      ensures Same(cs, a[i], b[i]) <==> if cs then a[i] == b[i] else CaseChar(a[i], b[i])
    {
      SameIs(cs, a[i], b[i]);
    }
  }

  lemma CaseReflexive(s: string)
    ensures CaseEqual(s, s)
  {
  }

  lemma CaseTransitive(s: string, t: string, u: string)
    requires CaseEqual(s, t) && CaseEqual(t, u)
    ensures CaseEqual(s, u)
  {
    forall i | 0 <= i < |s|
      ensures CaseChar(s[i], u[i])
    {
      assert CaseChar(s[i], t[i]) && CaseChar(t[i], u[i]);
    }
  }

  lemma CaseSymmetric(s: string, t: string)
    requires CaseEqual(s, t)
    ensures CaseEqual(t, s)
  {
    forall i | 0 <= i < |s|
      ensures CaseChar(t[i], s[i])
    {
      assert CaseChar(s[i], t[i]);
    }
  }

  lemma CaseSplits(s: string, t: string, k: nat)
    requires CaseEqual(s, t) && k <= |s|
    ensures CaseEqual(s[..k], t[..k]) && CaseEqual(s[k..], t[k..])
  {
  }

  lemma CaseJoins(a: string, b: string, c: string, d: string)
    requires CaseEqual(a, c) && CaseEqual(b, d)
    ensures CaseEqual(a + b, c + d)
  {
  }

  /** A slash has no case. */
  lemma SlashesStay(s: string, t: string)
    requires CaseEqual(s, t)
    ensures '/' in s <==> '/' in t
  {
    if '/' in s {
      var i :| 0 <= i < |s| && s[i] == '/';
      assert CaseChar(s[i], t[i]) && t[i] in t;
    }
    if '/' in t {
      var i :| 0 <= i < |t| && t[i] == '/';
      assert CaseChar(s[i], t[i]) && s[i] in s;
    }
  }

  lemma HeadOfFits(token: Token, rest: seq<Token>, values: seq<string>, s: string)
    requires values != [] && values[0] <= s
    ensures s == values[0] + s[|values[0]|..]
  {
  }

  /** Whatever fits a rule that ignores case, fits it exactly in the case in which the rule is written,
      with the same values. */
  lemma {:induction false} FitsInRuleCase(tokens: seq<Token>, values: seq<string>, s: string) returns (t: string)
    requires Fits(false, tokens, values, s)
    ensures CaseEqual(s, t) && Fits(true, tokens, values, t) && t == Fill(tokens, values)
  {
    if tokens == [] {
      t := "";
    } else if tokens[0].Lit? {
      var rest := FitsInRuleCase(tokens[1..], values, s[1..]);
      t := [tokens[0].c] + rest;
      SameIs(false, tokens[0].c, s[0]);
      CaseJoins([s[0]], s[1..], [tokens[0].c], rest);
      assert s == [s[0]] + s[1..] && t[1..] == rest;
    } else {
      var v := values[0];
      var rest := FitsInRuleCase(tokens[1..], values[1..], s[|v|..]);
      t := v + rest;
      CaseReflexive(v);
      CaseJoins(v, s[|v|..], v, rest);
      assert s == v + s[|v|..] && t[|v|..] == rest && v <= t;
    }
  }

  /** Whatever fits a rule exactly, fits it in any case when the rule ignores case. */
  lemma {:induction false} FitsInAnyCase(tokens: seq<Token>, values: seq<string>, s: string, t: string)
    returns (slices: seq<string>)
    requires Fits(true, tokens, values, t) && CaseEqual(s, t)
    ensures Fits(false, tokens, slices, s)
  {
    if tokens == [] {
      slices := [];
    } else if tokens[0].Lit? {
      CaseSplits(s, t, 1);
      slices := FitsInAnyCase(tokens[1..], values, s[1..], t[1..]);
      assert CaseChar(s[0], t[0]);
      SameIs(true, tokens[0].c, t[0]);
      SameIs(false, tokens[0].c, s[0]);
    } else {
      var k := |values[0]|;
      CaseSplits(s, t, k);
      assert t[..k] == values[0];
      SlashesStay(s[..k], t[..k]);
      var rest := FitsInAnyCase(tokens[1..], values[1..], s[k..], t[k..]);
      slices := [s[..k]] + rest;
      assert slices[1..] == rest && slices[0] == s[..k];
      if tokens[0].MaybeSlash? && k == 1 {
        assert CaseChar(s[0], t[0]) && t[0] == values[0][0] == '/';
        assert s[..1] == "/";
      }
    }
  }

  /** A rule that ignores case matches a path exactly when it would match the path in some case with
      case counting; and what is captured are pieces of the path that rebuild it up to case. */
  lemma IgnoreCaseIff(tokens: seq<Token>, s: string)
    ensures Match(false, tokens, s).Some? <==> exists t :: CaseEqual(s, t) && Match(true, tokens, t).Some?
    ensures Match(false, tokens, s).Some? ==>
      Fits(false, tokens, Match(false, tokens, s).value, s) && CaseEqual(s, Fill(tokens, Match(false, tokens, s).value))
  {
    MatchSound(false, tokens, s);
    if Match(false, tokens, s).Some? {
      var t := FitsInRuleCase(tokens, Match(false, tokens, s).value, s);
      MatchComplete(true, tokens, t, Match(false, tokens, s).value);
    }
    forall t | CaseEqual(s, t) && Match(true, tokens, t).Some?
      ensures Match(false, tokens, s).Some?
    {
      MatchSound(true, tokens, t);
      var slices := FitsInAnyCase(tokens, Match(true, tokens, t).value, s, t);
      MatchComplete(false, tokens, s, slices);
    }
  }

  lemma MatchInAnyCase(tokens: seq<Token>, s: string, t: string)
    requires CaseEqual(s, t) && Match(false, tokens, s).Some?
    ensures Match(false, tokens, t).Some?
  {
    IgnoreCaseIff(tokens, s);
    IgnoreCaseIff(tokens, t);
    var u :| CaseEqual(s, u) && Match(true, tokens, u).Some?;
    CaseSymmetric(s, t);
    CaseTransitive(t, s, u);
  }

  /** Changing the case of any letters of the path makes no difference to a rule that ignores case,
      whatever kind of rule it is. */
  lemma CaseMakesNoDifference(r: Rule, path: string, other: string)
    requires !r.caseSensitive && CaseEqual(path, other)
    ensures Matches(r, path) <==> Matches(r, other)
  {
    CaseSymmetric(path, other);
    var pattern := Compile(r.source, r.ignoreSlash);
    if pattern.Tokens? {
      if Match(false, pattern.tokens, path).Some? {
        MatchInAnyCase(pattern.tokens, path, other);
      }
      if Match(false, pattern.tokens, other).Some? {
        MatchInAnyCase(pattern.tokens, other, path);
      }
    }
  }

  /** A rule that ignores case matches exactly the paths that it would match in some case. */
  lemma RuleIgnoresCaseIff(r: Rule, path: string)
    requires !r.caseSensitive
    ensures Matches(r, path) <==> exists other :: CaseEqual(path, other) && Matches(r.(caseSensitive := true), other)
  {
    var pattern := Compile(r.source, r.ignoreSlash);
    if pattern.Tokens? {
      IgnoreCaseIff(pattern.tokens, path);
      forall other | CaseEqual(path, other)
        ensures Matches(r.(caseSensitive := true), other) <==> Match(true, pattern.tokens, other).Some?
      {
      }
    }
  }

  /** Rules without parameters and stars, by code points. */
  lemma LiteralRuleInAnyCase(r: Rule, path: string)
    requires ':' !in SourceOf(r.source) && '*' !in SourceOf(r.source)
    ensures var base := if r.ignoreSlash then RStripSlash(SourceOf(r.source)) else SourceOf(r.source);
      var bare := if r.ignoreSlash && path != "" && path[|path| - 1] == '/' then path[..|path| - 1] else path;
      Matches(r, path) <==>
        if r.caseSensitive then path == base || bare == base else CaseEqual(path, base) || CaseEqual(bare, base)
  {
    var base := if r.ignoreSlash then RStripSlash(SourceOf(r.source)) else SourceOf(r.source);
    LiteralRuleMatchesIff(r.caseSensitive, r.source, r.ignoreSlash, path);
    var bare := if r.ignoreSlash && path != "" && path[|path| - 1] == '/' then path[..|path| - 1] else path;
    BothCases(r.caseSensitive, base, path);
    BothCases(r.caseSensitive, base, bare);
  }

  lemma BothCases(cs: bool, base: string, path: string)
    ensures SameText(cs, base, path) <==> if cs then path == base else CaseEqual(path, base)
  {
    SameTextIs(cs, base, path);
    if CaseEqual(base, path) {
      CaseSymmetric(base, path);
    }
    if CaseEqual(path, base) {
      CaseSymmetric(path, base);
    }
  }
}
