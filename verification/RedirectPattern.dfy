/** Redirect rules (syte/main.py, `_simulate_redirect`): how a source path is compiled, what it
    matches, and what is captured.

    The regular expression that the code builds has only four kinds of parts, so it is kept as a
    list of tokens; Match is the engine's greedy backtracking over them.  A request path has no
    line breaks, since URL splitting removes them.
  */
module RedirectPattern {
  import opened Wrappers
  import opened Domains

  datatype Token =
    | Lit(c: char)          // an escaped character
    | Param(name: string)   // (?P<name>[^/]+)
    | Star                  // (?P<wildcard>.*)
    | MaybeSlash            // /?

  /** `Broken` is a pattern the engine rejects, which then matches nothing. */
  datatype Pattern = Tokens(tokens: seq<Token>) | Broken

  // ----- compiling a source path

  predicate NameChar(c: char) {
    'a' <= c <= 'z' || 'A' <= c <= 'Z' || '0' <= c <= '9' || c == '_'
  }

  /** How many name characters the text starts with. */
  function NameLength(s: string): (k: nat)
    ensures k <= |s|
    ensures forall i :: 0 <= i < k ==> NameChar(s[i])
    ensures k < |s| ==> !NameChar(s[k])
  {
    if s == [] || !NameChar(s[0]) then 0 else 1 + NameLength(s[1..])
  }

  /** The tokens of a source with a colon in it.  A backslash just before a colon is lost when the
      escapes of colons are undone; before a parameter that unbalances the pattern. */
  function ParamTokens(src: string): Option<seq<Token>> {
    if src == [] then Some([])
    else if src[0] == '\\' && |src| > 1 && src[1] == ':' then
      if NameLength(src[2..]) > 0 then None else ParamTokens(src[1..])
    else if src[0] == ':' && NameLength(src[1..]) > 0 then
      var k := 1 + NameLength(src[1..]);
      var rest := ParamTokens(src[k..]);
      if rest.None? then None else Some([Param(src[1..k])] + rest.value)
    else
      var rest := ParamTokens(src[1..]);
      if rest.None? then None else Some([Lit(src[0])] + rest.value)
  }

  function StarTokens(src: string): (r: seq<Token>)
    ensures |r| == |src|
  {
    if src == [] then [] else [if src[0] == '*' then Star else Lit(src[0])] + StarTokens(src[1..])
  }

  /** Group names must not start with a digit, and none may be used twice. */
  predicate ValidNames(tokens: seq<Token>) {
    && (forall i :: 0 <= i < |tokens| && tokens[i].Param? ==>
      |tokens[i].name| > 0 && !('0' <= tokens[i].name[0] <= '9'))
    && (forall i, j :: 0 <= i < j < |tokens| && tokens[i].Param? ==> tokens[i] != tokens[j])
    && (forall i, j :: 0 <= i < j < |tokens| && tokens[i].Star? ==> tokens[i] != tokens[j])
  }

  function RStripSlash(s: string): (r: string)
    ensures r <= s
    ensures r == [] || r[|r| - 1] != '/'
    ensures forall i :: |r| <= i < |s| ==> s[i] == '/'
  {
    if s != [] && s[|s| - 1] == '/' then RStripSlash(s[..|s| - 1]) else s
  }

  function SourceOf(path: string): string {
    var src := Strip(path);
    if src != [] && src[0] == '/' then src else "/" + src
  }

  function Compile(path: string, ignoreSlash: bool): Pattern {
    var src := SourceOf(path);
    if ':' in src then
      var tokens := ParamTokens(src);
      if tokens.Some? && ValidNames(tokens.value) then Tokens(tokens.value) else Broken
    else if '*' in src then
      if ValidNames(StarTokens(src)) then Tokens(StarTokens(src)) else Broken
    else if ignoreSlash then Tokens(StarTokens(RStripSlash(src)) + [MaybeSlash])
    else Tokens(StarTokens(src))
  }

  // ----- matching

  /** Two characters agree, up to ASCII case when the rule ignores case. */
  predicate Same(caseSensitive: bool, a: char, b: char) {
    a == b || (!caseSensitive && LowerChar(a) == LowerChar(b))
  }

  predicate SameText(caseSensitive: bool, a: string, b: string) {
    |a| == |b| && forall i :: 0 <= i < |a| ==> Same(caseSensitive, a[i], b[i])
  }

  /** The longest slash-free prefix. */
  function Segment(s: string): (k: nat)
    ensures k <= |s| && '/' !in s[..k]
    ensures k < |s| ==> s[k] == '/'
  {
    if s == [] || s[0] == '/' then 0 else
      var k := 1 + Segment(s[1..]);
      assert s[..k] == [s[0]] + s[1..][..k - 1];
      k
  }

  /** Greedy backtracking: every group first takes as much as it can. */
  function Match(cs: bool, tokens: seq<Token>, s: string): Option<seq<string>>
    decreases |tokens|, |s| + 1
  {
    if tokens == [] then if s == [] then Some([]) else None
    else
      match tokens[0]
      case Lit(c) => if s != [] && Same(cs, c, s[0]) then Match(cs, tokens[1..], s[1..]) else None
      case Param(_) => Take(cs, tokens, s, Segment(s), 1)
      case Star => Take(cs, tokens, s, |s|, 0)
      case MaybeSlash => Take(cs, tokens, s, SlashLength(s), 0)
  }

  function SlashLength(s: string): nat {
    if s != [] && s[0] == '/' then 1 else 0
  }

  /** The part takes k characters, or failing that fewer, but no fewer than `least`. */
  function Take(cs: bool, tokens: seq<Token>, s: string, k: nat, least: nat): Option<seq<string>>
    requires tokens != [] && k <= |s|
    decreases |tokens|, k
  {
    if k < least then None
    else
      var rest := Match(cs, tokens[1..], s[k..]);
      if rest.Some? then Some([s[..k]] + rest.value)
      else if k == 0 then None
      else Take(cs, tokens, s, k - 1, least)
  }

  /** What it means for a path to be the rule with these values in its groups and for its optional
      slash. */
  ghost predicate Fits(cs: bool, tokens: seq<Token>, values: seq<string>, s: string) {
    if tokens == [] then values == [] && s == []
    else
      match tokens[0]
      case Lit(c) => s != [] && Same(cs, c, s[0]) && Fits(cs, tokens[1..], values, s[1..])
      case Param(_) =>
        && values != [] && values[0] != [] && '/' !in values[0] && values[0] <= s
        && Fits(cs, tokens[1..], values[1..], s[|values[0]|..])
      case Star => values != [] && values[0] <= s && Fits(cs, tokens[1..], values[1..], s[|values[0]|..])
      case MaybeSlash =>
        && values != [] && (values[0] == "/" || values[0] == "") && values[0] <= s
        && Fits(cs, tokens[1..], values[1..], s[|values[0]|..])
  }

  /** The first difference between the two lists of values is a longer value on the left. */
  ghost predicate Longer(vs: seq<string>, ws: seq<string>) {
    vs == ws ||
    (vs != [] && ws != [] && (|vs[0]| > |ws[0]| || (vs[0] == ws[0] && Longer(vs[1..], ws[1..]))))
  }

  /** Whatever the engine captures fits the rule. */
  lemma {:induction false} MatchSound(cs: bool, tokens: seq<Token>, s: string)
    ensures Match(cs, tokens, s).Some? ==> Fits(cs, tokens, Match(cs, tokens, s).value, s)
    decreases |tokens|, |s| + 1
  {
    if tokens != [] {
      match tokens[0]
      case Lit(_) => if s != [] { MatchSound(cs, tokens[1..], s[1..]); }
      case Param(_) => TakeSound(cs, tokens, s, Segment(s), 1);
      case Star => TakeSound(cs, tokens, s, |s|, 0);
      case MaybeSlash => TakeSound(cs, tokens, s, SlashLength(s), 0);
    }
  }

  lemma {:induction false} TakeSound(cs: bool, tokens: seq<Token>, s: string, k: nat, least: nat)
    requires tokens != [] && k <= |s|
    requires tokens[0].Star? || (tokens[0].Param? && k <= Segment(s) && least == 1)
        || (tokens[0].MaybeSlash? && k <= SlashLength(s))
    ensures Take(cs, tokens, s, k, least).Some? ==> Fits(cs, tokens, Take(cs, tokens, s, k, least).value, s)
    decreases |tokens|, k
  {
    if k >= least {
      var rest := Match(cs, tokens[1..], s[k..]);
      if rest.Some? {
        MatchSound(cs, tokens[1..], s[k..]);
        assert ([s[..k]] + rest.value)[1..] == rest.value;
        assert tokens[0].Param? ==> s[..k] <= s[..Segment(s)];
      } else if k > 0 {
        TakeSound(cs, tokens, s, k - 1, least);
      }
    }
  }

  /** If the rule fits with any values at all then the engine matches, and what it captures is the
      leftmost-longest choice. */
  lemma {:induction false} MatchComplete(cs: bool, tokens: seq<Token>, s: string, values: seq<string>)
    requires Fits(cs, tokens, values, s)
    ensures Match(cs, tokens, s).Some? && Longer(Match(cs, tokens, s).value, values)
    decreases |tokens|, |s| + 1
  {
    if tokens != [] {
      match tokens[0]
      case Lit(_) => MatchComplete(cs, tokens[1..], s[1..], values);
      case Param(_) =>
        SegmentIsLongest(s, values[0]);
        TakeComplete(cs, tokens, s, Segment(s), 1, values);
      case Star => TakeComplete(cs, tokens, s, |s|, 0, values);
      case MaybeSlash => TakeComplete(cs, tokens, s, SlashLength(s), 0, values);
    }
  }

  lemma {:induction false} SegmentIsLongest(s: string, v: string)
    requires v <= s && '/' !in v
    ensures |v| <= Segment(s)
  {
    if v != [] {
      SegmentIsLongest(s[1..], v[1..]);
    }
  }

  lemma {:induction false} TakeComplete(cs: bool, tokens: seq<Token>, s: string, k: nat, least: nat,
                                        values: seq<string>)
    requires tokens != [] && !tokens[0].Lit? && k <= |s| && Fits(cs, tokens, values, s)
    requires least <= |values[0]| <= k
    ensures Take(cs, tokens, s, k, least).Some? && Longer(Take(cs, tokens, s, k, least).value, values)
    decreases |tokens|, k
  {
    var rest := Match(cs, tokens[1..], s[k..]);
    if k == |values[0]| {
      MatchComplete(cs, tokens[1..], s[k..], values[1..]);
      assert ([s[..k]] + rest.value)[1..] == rest.value;
      assert values == [values[0]] + values[1..];
    } else if rest.None? {
      TakeComplete(cs, tokens, s, k - 1, least, values);
    }
  }

  // ----- the meaning of a rule, without the engine

  /** Put values back into the rule. */
  function Fill(tokens: seq<Token>, values: seq<string>): string {
    if tokens == [] then []
    else if tokens[0].Lit? then [tokens[0].c] + Fill(tokens[1..], values)
    else if values == [] then Fill(tokens[1..], [])
    else values[0] + Fill(tokens[1..], values[1..])
  }

  /** One value for each group and for an optional slash; parameters get non-empty values without
      slashes. */
  ghost predicate GoodValues(tokens: seq<Token>, values: seq<string>) {
    if tokens == [] then values == []
    else if tokens[0].Lit? then GoodValues(tokens[1..], values)
    else
      && values != [] && (tokens[0].Param? ==> values[0] != [] && '/' !in values[0])
      && (tokens[0].MaybeSlash? ==> values[0] == "/" || values[0] == "")
      && GoodValues(tokens[1..], values[1..])
  }

  lemma {:induction false} FitsIffFilled(tokens: seq<Token>, values: seq<string>, s: string)
    ensures Fits(true, tokens, values, s) <==> GoodValues(tokens, values) && Fill(tokens, values) == s
  {
    if tokens != [] {
      if tokens[0].Lit? {
        if s != [] {
          FitsIffFilled(tokens[1..], values, s[1..]);
          assert s == [s[0]] + s[1..];
        }
      } else if values != [] {
        if values[0] <= s {
          FitsIffFilled(tokens[1..], values[1..], s[|values[0]|..]);
          assert s == values[0] + s[|values[0]|..];
        }
        var filled := values[0] + Fill(tokens[1..], values[1..]);
        assert filled == s ==> values[0] <= s && s[|values[0]|..] == Fill(tokens[1..], values[1..]);
      }
    }
  }

  /** A case-sensitive rule matches a path exactly when the path is the rule with some values put in
      for its groups; and putting the captured values back rebuilds the path. */
  lemma MatchIff(tokens: seq<Token>, s: string)
    ensures Match(true, tokens, s).Some? <==> exists values :: GoodValues(tokens, values) && Fill(tokens, values) == s
    ensures Match(true, tokens, s).Some? ==>
      GoodValues(tokens, Match(true, tokens, s).value) && Fill(tokens, Match(true, tokens, s).value) == s
  {
    MatchSound(true, tokens, s);
    if Match(true, tokens, s).Some? {
      FitsIffFilled(tokens, Match(true, tokens, s).value, s);
    }
    forall values | GoodValues(tokens, values) && Fill(tokens, values) == s
      ensures Match(true, tokens, s).Some?
    {
      FitsIffFilled(tokens, values, s);
      MatchComplete(true, tokens, s, values);
    }
  }

  // ----- what each kind of source text matches

  /** The text of a rule, from its tokens. */
  function Render(tokens: seq<Token>): string {
    if tokens == [] then []
    else
      (match tokens[0] case Lit(c) => [c] case Param(name) => ":" + name case Star => "*" case MaybeSlash => "")
        + Render(tokens[1..])
  }

  /** Names are non-empty runs of name characters, as long as they can be, and there are only
      parameters and characters. */
  ghost predicate WellSpelled(tokens: seq<Token>) {
    tokens == [] ||
    (&& !tokens[0].Star? && !tokens[0].MaybeSlash?
     && (tokens[0].Param? ==>
           && NameLength(tokens[0].name) == |tokens[0].name| > 0
           && !StartsWithNameChar(tokens[1..]))
     && WellSpelled(tokens[1..]))
  }

  ghost predicate StartsWithNameChar(tokens: seq<Token>) {
    tokens != [] && tokens[0].Lit? && NameChar(tokens[0].c)
  }

  /** No backslash stands just before a colon. */
  ghost predicate NoEscapedColon(src: string) {
    forall i :: 0 <= i < |src| - 1 ==> !(src[i] == '\\' && src[i + 1] == ':')
  }

  /** Compiling a source with parameters loses nothing, unless a backslash stands just before a
      colon: the tokens spell the source, and every name in them is as long as it can be. */
  lemma {:induction false} ParamTokensSpellSource(src: string)
    requires NoEscapedColon(src)
    ensures ParamTokens(src).Some?
    ensures Render(ParamTokens(src).value) == src && WellSpelled(ParamTokens(src).value)
    ensures StartsWithNameChar(ParamTokens(src).value) ==> src != [] && NameChar(src[0])
  {
    if src != [] {
      if src[0] == ':' && NameLength(src[1..]) > 0 {
        var k := 1 + NameLength(src[1..]);
        ParamTokensSpellSource(src[k..]);
        ParamSplits(src, k);
        AllNameChars(src[1..k]);
        TokenFirst(Param(src[1..k]), ParamTokens(src[k..]).value);
      } else {
        assert src == [src[0]] + src[1..];
        ParamTokensSpellSource(src[1..]);
        TokenFirst(Lit(src[0]), ParamTokens(src[1..]).value);
      }
    }
  }

  lemma ParamSplits(src: string, k: nat)
    requires 1 <= k <= |src| && src[0] == ':'
    ensures src == ":" + src[1..k] + src[k..] && src[1..][..k - 1] == src[1..k]
  {
  }

  lemma TokenFirst(token: Token, rest: seq<Token>)
    requires token.Lit? || token.Param?
    ensures Render([token] + rest) == (if token.Lit? then [token.c] else ":" + token.name) + Render(rest)
    ensures ([token] + rest)[0] == token && ([token] + rest)[1..] == rest
  {
  }

  lemma {:induction false} EscapedColonIsLost(src: string)
    requires ParamTokens(src).Some?
    ensures |Render(ParamTokens(src).value)| <= |src|
    ensures !NoEscapedColon(src) ==> |Render(ParamTokens(src).value)| < |src|
  {
    if src != [] {
      if src[0] == '\\' && |src| > 1 && src[1] == ':' {
        EscapedColonIsLost(src[1..]);
      } else if src[0] == ':' && NameLength(src[1..]) > 0 {
        var k := 1 + NameLength(src[1..]);
        EscapedColonIsLost(src[k..]);
        EscapedLater(src, k);
      } else {
        EscapedColonIsLost(src[1..]);
        EscapedLater(src, 1);
      }
    }
  }

  lemma EscapedLater(src: string, k: nat)
    requires k <= |src| && forall i :: 0 <= i < k && i + 1 < |src| ==> !(src[i] == '\\' && src[i + 1] == ':')
    ensures NoEscapedColon(src[k..]) ==> NoEscapedColon(src)
  {
    if NoEscapedColon(src[k..]) {
      forall i | 0 <= i < |src| - 1
        ensures !(src[i] == '\\' && src[i + 1] == ':')
      {
        assert i >= k ==> !(src[k..][i - k] == '\\' && src[k..][i - k + 1] == ':');
      }
    }
  }

  /** So a source is compiled to tokens that spell it exactly when no backslash stands just before a
      colon. */
  lemma SpellsSourceIff(src: string)
    ensures ParamTokens(src).Some? && Render(ParamTokens(src).value) == src <==> NoEscapedColon(src)
  {
    if NoEscapedColon(src) {
      ParamTokensSpellSource(src);
    } else if ParamTokens(src).Some? {
      EscapedColonIsLost(src);
    }
  }

  lemma {:induction false} AllNameChars(s: string)
    requires forall i :: 0 <= i < |s| ==> NameChar(s[i])
    ensures NameLength(s) == |s|
  {
    if s != [] {
      AllNameChars(s[1..]);
    }
  }

  lemma {:induction false} LiteralFits(cs: bool, text: string, values: seq<string>, s: string)
    requires '*' !in text
    ensures Fits(cs, StarTokens(text), values, s) <==> values == [] && SameText(cs, text, s)
  {
    if text != [] && s != [] {
      LiteralFits(cs, text[1..], values, s[1..]);
      assert SameText(cs, text, s) <==> Same(cs, text[0], s[0]) && SameText(cs, text[1..], s[1..]);
    }
  }

  /** A rule with one star fits exactly the paths with its prefix and its suffix, and its value is
      everything in between. */
  lemma {:induction false} StarFits(cs: bool, pre: string, suf: string, values: seq<string>, s: string)
    requires '*' !in pre && '*' !in suf
    ensures Fits(cs, StarTokens(pre + "*" + suf), values, s) <==>
      && |pre| + |suf| <= |s| && SameText(cs, pre, s[..|pre|]) && SameText(cs, suf, s[|s| - |suf|..])
      && values == [s[|pre|..|s| - |suf|]]
    decreases |pre|
  {
    var src := pre + "*" + suf;
    if pre == [] {
      assert src == "*" + suf;
      LeadingStarFits(cs, suf, values, s);
    } else {
      assert src[0] == pre[0] && src[1..] == pre[1..] + "*" + suf;
      assert StarTokens(src)[0] == Lit(pre[0]) && StarTokens(src)[1..] == StarTokens(src[1..]);
      if s != [] {
        StarFits(cs, pre[1..], suf, values, s[1..]);
        if |pre| + |suf| <= |s| {
          SlicesAfterHead(cs, pre, suf, s);
        }
      }
    }
  }

  lemma LeadingStarFits(cs: bool, suf: string, values: seq<string>, s: string)
    requires '*' !in suf
    ensures Fits(cs, StarTokens("*" + suf), values, s) <==>
      |suf| <= |s| && SameText(cs, suf, s[|s| - |suf|..]) && values == [s[..|s| - |suf|]]
  {
    assert ("*" + suf)[1..] == suf;
    assert StarTokens("*" + suf)[0] == Star && StarTokens("*" + suf)[1..] == StarTokens(suf);
    if values != [] && values[0] <= s {
      var k := |values[0]|;
      LiteralFits(cs, suf, values[1..], s[k..]);
      assert values == [values[0]] + values[1..] && values[0] == s[..k];
      if |suf| <= |s| && k != |s| - |suf| {
        assert |s[k..]| != |suf| && |s[..|s| - |suf|]| != k;
      }
    }
  }

  lemma SlicesAfterHead(cs: bool, pre: string, suf: string, s: string)
    requires pre != [] && |pre| + |suf| <= |s|
    ensures SameText(cs, pre, s[..|pre|]) <==> Same(cs, pre[0], s[0]) && SameText(cs, pre[1..], s[1..][..|pre| - 1])
    ensures s[1..][|s| - 1 - |suf|..] == s[|s| - |suf|..]
    ensures s[1..][|pre| - 1..|s| - 1 - |suf|] == s[|pre|..|s| - |suf|]
  {
    assert forall i :: 0 < i < |pre| ==> pre[i] == pre[1..][i - 1] && s[..|pre|][i] == s[1..][..|pre| - 1][i - 1];
  }

  /** So the engine matches it exactly by prefix and suffix. */
  lemma StarMatchIff(cs: bool, pre: string, suf: string, s: string)
    requires '*' !in pre && '*' !in suf
    ensures var m := Match(cs, StarTokens(pre + "*" + suf), s);
      && (m.Some? <==> |pre| + |suf| <= |s| && SameText(cs, pre, s[..|pre|]) && SameText(cs, suf, s[|s| - |suf|..]))
      && (m.Some? ==> m.value == [s[|pre|..|s| - |suf|]])
  {
    var tokens := StarTokens(pre + "*" + suf);
    MatchSound(cs, tokens, s);
    if Match(cs, tokens, s).Some? {
      StarFits(cs, pre, suf, Match(cs, tokens, s).value, s);
    }
    if |pre| + |suf| <= |s| && SameText(cs, pre, s[..|pre|]) && SameText(cs, suf, s[|s| - |suf|..]) {
      StarFits(cs, pre, suf, [s[|pre|..|s| - |suf|]], s);
      MatchComplete(cs, tokens, s, [s[|pre|..|s| - |suf|]]);
    }
  }

  /** A literal and an optional slash fit exactly the literal, and the literal with a slash. */
  lemma {:induction false} SlashFits(cs: bool, base: string, values: seq<string>, s: string)
    requires '*' !in base
    ensures Fits(cs, StarTokens(base) + [MaybeSlash], values, s) <==>
      || (values == [""] && SameText(cs, base, s))
      || (values == ["/"] && |s| == |base| + 1 && s[|base|] == '/' && SameText(cs, base, s[..|base|]))
  {
    var tokens := StarTokens(base) + [MaybeSlash];
    if base == [] {
      assert tokens[1..] == [] && StarTokens(base) == [];
      assert values != [] ==> values == [values[0]] + values[1..];
    } else {
      assert tokens[0] == Lit(base[0]) && tokens[1..] == StarTokens(base[1..]) + [MaybeSlash];
      if s != [] {
        SlashFits(cs, base[1..], values, s[1..]);
        assert SameText(cs, base, s) <==> Same(cs, base[0], s[0]) && SameText(cs, base[1..], s[1..]);
        if |s| == |base| + 1 {
          assert s[..|base|][1..] == s[1..][..|base| - 1];
          assert SameText(cs, base, s[..|base|]) <==>
            Same(cs, base[0], s[0]) && SameText(cs, base[1..], s[1..][..|base| - 1]);
        }
      }
    }
  }

  /** A path without a slash at its end. */
  function Without(s: string): string {
    if s != [] && s[|s| - 1] == '/' then s[..|s| - 1] else s
  }

  lemma SlashMatchIff(cs: bool, base: string, s: string)
    requires '*' !in base
    ensures Match(cs, StarTokens(base) + [MaybeSlash], s).Some? <==>
      SameText(cs, base, s) || (|s| == |base| + 1 && s[|base|] == '/' && SameText(cs, base, s[..|base|]))
  {
    var tokens := StarTokens(base) + [MaybeSlash];
    MatchSound(cs, tokens, s);
    if Match(cs, tokens, s).Some? {
      SlashFits(cs, base, Match(cs, tokens, s).value, s);
    }
    if SameText(cs, base, s) {
      SlashFits(cs, base, [""], s);
      MatchComplete(cs, tokens, s, [""]);
    }
    if |s| == |base| + 1 && s[|base|] == '/' && SameText(cs, base, s[..|base|]) {
      SlashFits(cs, base, ["/"], s);
      MatchComplete(cs, tokens, s, ["/"]);
    }
  }

  lemma LiteralMatchIff(cs: bool, text: string, s: string)
    requires '*' !in text
    ensures Match(cs, StarTokens(text), s).Some? <==> SameText(cs, text, s)
  {
    MatchSound(cs, StarTokens(text), s);
    if Match(cs, StarTokens(text), s).Some? {
      LiteralFits(cs, text, Match(cs, StarTokens(text), s).value, s);
    }
    if SameText(cs, text, s) {
      LiteralFits(cs, text, [], s);
      MatchComplete(cs, StarTokens(text), s, []);
    }
  }

  // ----- a rule against a path

  /** The named values of a match, in group order; the star is the group "wildcard", and the optional
      slash is no group. */
  function Bind(tokens: seq<Token>, values: seq<string>): seq<(string, string)> {
    if tokens == [] then []
    else if tokens[0].Lit? then Bind(tokens[1..], values)
    else if values == [] then []
    else
      (match tokens[0] case Param(name) => [(name, values[0])] case Star => [("wildcard", values[0])] case _ => [])
      + Bind(tokens[1..], values[1..])
  }

  /** re.match of the compiled source: the groups, or None. */
  function MatchPath(cs: bool, pattern: Pattern, path: string): Option<seq<(string, string)>> {
    match pattern
    case Broken => None
    case Tokens(tokens) =>
      var m := Match(cs, tokens, path);
      if m.None? then None else Some(Bind(tokens, m.value))
  }

  /** The whole path from the stored source to the verdict: a case-sensitive rule with parameters
      matches exactly when its names are valid and distinct and the path is the rule with non-empty
      slash-free values in place of its parameters; and the rule is the source as it is spelled,
      unless a backslash stands just before a colon in it. */
  lemma ParamRuleMatchesIff(source: string, ignoreSlash: bool, path: string)
    requires ':' in SourceOf(source)
    ensures var parsed := ParamTokens(SourceOf(source));
      && (MatchPath(true, Compile(source, ignoreSlash), path).Some? <==>
            parsed.Some? && ValidNames(parsed.value)
            && exists values :: GoodValues(parsed.value, values) && Fill(parsed.value, values) == path)
      && (NoEscapedColon(SourceOf(source)) ==>
            parsed.Some? && Render(parsed.value) == SourceOf(source) && WellSpelled(parsed.value))
  {
    if NoEscapedColon(SourceOf(source)) {
      ParamTokensSpellSource(SourceOf(source));
    }
    if ParamTokens(SourceOf(source)).Some? {
      MatchIff(ParamTokens(SourceOf(source)).value, path);
    }
  }

  lemma {:induction false} NothingBound(base: string, values: seq<string>)
    requires '*' !in base
    ensures Bind(StarTokens(base), values) == []
    ensures Bind(StarTokens(base) + [MaybeSlash], values) == []
  {
    if base == [] {
      assert (StarTokens(base) + [MaybeSlash])[1..] == [] && Bind([], values) == [];
    } else {
      assert (StarTokens(base) + [MaybeSlash])[1..] == StarTokens(base[1..]) + [MaybeSlash];
      NothingBound(base[1..], values);
    }
  }

  /** A rule without parameters and stars captures nothing.  Ignoring the trailing slash it matches
      exactly its base, with or without one slash behind it; else exactly its source. */
  lemma LiteralRuleMatchesIff(cs: bool, source: string, ignoreSlash: bool, path: string)
    requires ':' !in SourceOf(source) && '*' !in SourceOf(source)
    ensures var src, base := SourceOf(source), RStripSlash(SourceOf(source));
      MatchPath(cs, Compile(source, ignoreSlash), path) ==
      if if ignoreSlash then SameText(cs, base, path) || (Without(path) != path && SameText(cs, base, Without(path)))
         else SameText(cs, src, path)
      then Some([]) else None
  {
    var src := SourceOf(source);
    if ignoreSlash {
      var tokens := StarTokens(RStripSlash(src)) + [MaybeSlash];
      SlashMatchIff(cs, RStripSlash(src), path);
      if Match(cs, tokens, path).Some? {
        NothingBound(RStripSlash(src), Match(cs, tokens, path).value);
      }
    } else {
      LiteralMatchIff(cs, src, path);
      if Match(cs, StarTokens(src), path).Some? {
        NothingBound(src, Match(cs, StarTokens(src), path).value);
      }
    }
  }

  /** So one slash at the end of a path makes no difference to it. */
  lemma TrailingSlashIgnored(cs: bool, source: string, path: string)
    requires ':' !in SourceOf(source) && '*' !in SourceOf(source) && Without(path) == path
    ensures MatchPath(cs, Compile(source, true), path + "/") == MatchPath(cs, Compile(source, true), path)
  {
    var base := RStripSlash(SourceOf(source));
    LiteralRuleMatchesIff(cs, source, true, path);
    LiteralRuleMatchesIff(cs, source, true, path + "/");
    SlashAtEnd(cs, base, path);
  }

  /** A text without a slash at its end is not the text of a path with one. */
  lemma SlashAtEnd(cs: bool, base: string, path: string)
    requires base == [] || base[|base| - 1] != '/'
    ensures Without(path + "/") == path && path + "/" != path && !SameText(cs, base, path + "/")
  {
    assert (path + "/")[|path|] == '/' && (path + "/")[..|path|] == path;
    if |base| == |path| + 1 {
      assert !Same(cs, base[|path|], (path + "/")[|path|]);
    }
  }

  lemma {:induction false} OneStar(pre: string, suf: string, values: seq<string>)
    requires '*' !in pre && '*' !in suf
    ensures ValidNames(StarTokens(pre + "*" + suf))
    ensures values != [] ==> Bind(StarTokens(pre + "*" + suf), values) == [("wildcard", values[0])]
  {
    StarAt(pre, suf);
    if pre == [] {
      assert pre + "*" + suf == "*" + suf && ("*" + suf)[1..] == suf;
      if values != [] {
        NothingBound(suf, values[1..]);
      }
    } else {
      assert (pre + "*" + suf)[1..] == pre[1..] + "*" + suf;
      OneStar(pre[1..], suf, values);
    }
  }

  lemma StarAt(pre: string, suf: string)
    requires '*' !in pre && '*' !in suf
    ensures ValidNames(StarTokens(pre + "*" + suf))
  {
    var src := pre + "*" + suf;
    forall i | 0 <= i < |src|
      ensures StarTokens(src)[i] == if i == |pre| then Star else Lit(src[i])
    {
      StarTokenAt(src, i);
      assert i < |pre| ==> src[i] in pre;
      assert i > |pre| ==> src[i] == suf[i - |pre| - 1] && suf[i - |pre| - 1] in suf;
    }
  }

  lemma {:induction false} StarTokenAt(src: string, i: nat)
    requires i < |src|
    ensures StarTokens(src)[i] == if src[i] == '*' then Star else Lit(src[i])
  {
    if i > 0 {
      StarTokenAt(src[1..], i - 1);
    }
  }

  /** A rule with one star matches exactly by its prefix and its suffix, and captures what is between. */
  lemma StarRuleMatchesIff(cs: bool, source: string, ignoreSlash: bool, path: string, pre: string, suf: string)
    requires SourceOf(source) == pre + "*" + suf && ':' !in SourceOf(source) && '*' !in pre && '*' !in suf
    ensures MatchPath(cs, Compile(source, ignoreSlash), path) ==
      if |pre| + |suf| <= |path| && SameText(cs, pre, path[..|pre|]) && SameText(cs, suf, path[|path| - |suf|..])
      then Some([("wildcard", path[|pre|..|path| - |suf|])]) else None
  {
    var src := pre + "*" + suf;
    assert src[|pre|] == '*';
    StarMatchIff(cs, pre, suf, path);
    var m := Match(cs, StarTokens(src), path);
    OneStar(pre, suf, if m.Some? then m.value else []);
  }

  // ----- what sources compile to

  lemma NameCharIs(c: char)
    ensures var u := c as int;
      NameChar(c) <==> 48 <= u <= 57 || 65 <= u <= 90 || u == 95 || 97 <= u <= 122
  {
  }

  /** A source path is trimmed, and starts with a slash. */
  lemma SourceOfIs(path: string)
    ensures var s := Strip(path); SourceOf(path) == if s != "" && s[0] == '/' then s else "/" + s
  {
  }

  /** Names are valid when none starts with a digit, none is used twice, and there is at most one star. */
  lemma ValidNamesIff(tokens: seq<Token>)
    ensures ValidNames(tokens) <==>
      && (forall i :: 0 <= i < |tokens| && tokens[i].Param? ==>
            tokens[i].name != "" && !(48 <= tokens[i].name[0] as int <= 57))
      && (forall i, j :: 0 <= i < j < |tokens| && tokens[i].Param? && tokens[j].Param? ==>
            tokens[i].name != tokens[j].name)
      && (forall i, j :: 0 <= i < j < |tokens| && tokens[i].Star? ==> !tokens[j].Star?)
  {
  }

  /** A source with two stars is not a valid pattern, and matches nothing. */
  lemma TwoStarsNeverMatch(cs: bool, source: string, ignoreSlash: bool, path: string, i: nat, j: nat)
    requires ':' !in SourceOf(source) && i < j < |SourceOf(source)|
    requires SourceOf(source)[i] == '*' && SourceOf(source)[j] == '*'
    ensures MatchPath(cs, Compile(source, ignoreSlash), path) == None
  {
    var src := SourceOf(source);
    StarTokenAt(src, i);
    StarTokenAt(src, j);
    ValidNamesIff(StarTokens(src));
  }

  /** What is captured is what is bound: the values of the parameters by their names, in order. */
  lemma {:induction false} BoundByName(tokens: seq<Token>, values: seq<string>)
    requires GoodValues(tokens, values) && forall i :: 0 <= i < |tokens| ==> tokens[i].Lit? || tokens[i].Param?
    ensures |Bind(tokens, values)| == |values|
    ensures forall i :: 0 <= i < |values| ==>
      Bind(tokens, values)[i].1 == values[i] && Param(Bind(tokens, values)[i].0) in tokens
  {
    if tokens != [] {
      assert tokens == [tokens[0]] + tokens[1..];
      BoundByName(tokens[1..], if tokens[0].Lit? then values else values[1..]);
    }
  }
}
