/** Redirect simulation (syte/main.py, `_simulate_redirect`): which rule wins, and where it leads. */
module RedirectEngine {
  import opened Wrappers
  import opened RedirectPattern

  datatype Rule = Rule(id: nat, source: string, target: string, active: bool, caseSensitive: bool,
                       ignoreSlash: bool, preserveQuery: bool)

  /** A query string as parse_qs reads it: keys with their values, in order. */
  type Query = seq<(string, seq<string>)>

  // ----- substitution

  /** `s.replace(pattern, value)`: leftmost occurrences, not overlapping. */
  function Replace(s: string, pattern: string, value: string): string
    requires pattern != []
  {
    if s == [] then []
    else if pattern <= s then value + Replace(s[|pattern|..], pattern, value)
    else [s[0]] + Replace(s[1..], pattern, value)
  }

  /** How a group is written in a target. */
  function Mark(name: string): (r: string)
    ensures r != []
  {
    if name == "wildcard" then "*" else ":" + name
  }

  /** The groups are substituted one after the other, each into the result of the one before. */
  function SubstituteAll(dest: string, groups: seq<(string, string)>): string
    decreases |groups|
  {
    if groups == [] then dest
    else SubstituteAll(Replace(dest, Mark(groups[0].0), groups[0].1), groups[1..])
  }

  /** A target as text and references to parameters. */
  datatype Piece = Text(c: char) | Ref(name: string)

  function Spell(pieces: seq<Piece>): string {
    if pieces == [] then []
    else (if pieces[0].Text? then [pieces[0].c] else ":" + pieces[0].name) + Spell(pieces[1..])
  }

  function Lookup(groups: seq<(string, string)>, name: string): Option<string> {
    if groups == [] then None
    else if groups[0].0 == name then Some(groups[0].1)
    else Lookup(groups[1..], name)
  }

  /** What a reader expects of a target: every reference stands for its own group's value. */
  function Expected(pieces: seq<Piece>, groups: seq<(string, string)>): string {
    if pieces == [] then []
    else
      (match pieces[0]
       case Text(c) => [c]
       case Ref(name) => if Lookup(groups, name).Some? then Lookup(groups, name).value else ":" + name)
      + Expected(pieces[1..], groups)
  }

  function Texts(s: string): (r: seq<Piece>)
    ensures |r| == |s| && forall i :: 0 <= i < |s| ==> r[i] == Text(s[i])
  {
    if s == [] then [] else [Text(s[0])] + Texts(s[1..])
  }

  /** The pieces after one group's value has been put in. */
  function PutIn(pieces: seq<Piece>, name: string, value: string): seq<Piece> {
    if pieces == [] then []
    else (if pieces[0] == Ref(name) then Texts(value) else [pieces[0]]) + PutIn(pieces[1..], name, value)
  }

  lemma {:induction false} SpellTexts(s: string, rest: seq<Piece>)
    ensures Spell(Texts(s) + rest) == s + Spell(rest)
  {
    if s == [] {
      assert Texts(s) + rest == rest;
    } else {
      assert (Texts(s) + rest)[1..] == Texts(s[1..]) + rest;
      SpellTexts(s[1..], rest);
    }
  }

  /** Text without a colon is passed over. */
  lemma {:induction false} ReplaceSkips(text: string, rest: string, name: string, value: string)
    requires ':' !in text
    ensures Replace(text + rest, ":" + name, value) == text + Replace(rest, ":" + name, value)
  {
    if text == [] {
      assert text + rest == rest;
    } else {
      assert (text + rest)[0] == text[0] && text[0] in text;
      assert (text + rest)[1..] == text[1..] + rest;
      ReplaceSkips(text[1..], rest, name, value);
    }
  }

  /** Colons only introduce references. */
  ghost predicate PlainPieces(pieces: seq<Piece>) {
    && (forall i :: 0 <= i < |pieces| && pieces[i].Text? ==> pieces[i].c != ':')
    && (forall i :: 0 <= i < |pieces| && pieces[i].Ref? ==> ':' !in pieces[i].name)
  }

  /** Wherever the group's mark can be read, a reference to that group is meant. */
  ghost predicate Clear(pieces: seq<Piece>, name: string) {
    pieces == [] ||
    (&& (pieces[0].Ref? && name <= pieces[0].name + Spell(pieces[1..]) ==> pieces[0].name == name)
     && Clear(pieces[1..], name))
  }

  /** A reference whose mark is not read is passed over. */
  lemma ReplacePasses(n: string, rest: string, name: string, value: string)
    requires ':' !in n && !(name <= n + rest)
    ensures Replace(":" + n + rest, ":" + name, value) == ":" + n + Replace(rest, ":" + name, value)
  {
    var s := ":" + n + rest;
    assert s == ":" + (n + rest) && s[1..] == n + rest;
    MarkAhead(name, n + rest);
    ReplaceSkips(n, rest, name, value);
  }

  /** A reference whose mark is read is replaced. */
  lemma ReplaceTakes(rest: string, name: string, value: string)
    ensures Replace(":" + name + rest, ":" + name, value) == value + Replace(rest, ":" + name, value)
  {
    var s := ":" + name + rest;
    assert s[|":" + name|..] == rest && ":" + name <= s;
  }

  /** One replacement puts in exactly the references to its group, if the marks are clear. */
  lemma {:induction false} ReplaceIsPutIn(pieces: seq<Piece>, name: string, value: string)
    requires PlainPieces(pieces) && Clear(pieces, name)
    ensures Replace(Spell(pieces), ":" + name, value) == Spell(PutIn(pieces, name, value))
  {
    if pieces != [] {
      var rest := Spell(pieces[1..]);
      ReplaceIsPutIn(pieces[1..], name, value);
      match pieces[0]
      case Text(c) =>
        ReplaceSkips([c], rest, name, value);
        assert PutIn(pieces, name, value)[1..] == PutIn(pieces[1..], name, value);
      case Ref(n) =>
        if n == name {
          ReplaceTakes(rest, name, value);
          SpellTexts(value, PutIn(pieces[1..], name, value));
        } else {
          ReplacePasses(n, rest, name, value);
          assert PutIn(pieces, name, value)[1..] == PutIn(pieces[1..], name, value);
        }
    }
  }

  lemma MarkAhead(name: string, t: string)
    ensures ":" + name <= ":" + t <==> name <= t
  {
    assert (":" + t)[1..] == t && (":" + name)[1..] == name;
  }

  function Colons(s: string): nat {
    if s == [] then 0 else (if s[0] == ':' then 1 else 0) + Colons(s[1..])
  }

  lemma {:induction false} ColonsConcat(a: string, b: string)
    ensures Colons(a + b) == Colons(a) + Colons(b)
    ensures ':' !in a ==> Colons(a) == 0
  {
    if a == [] {
      assert a + b == b;
    } else {
      assert (a + b)[1..] == a[1..] + b && a[0] in a;
      ColonsConcat(a[1..], b);
    }
  }

  /** The references that a replacement of the group's mark leaves alone. */
  function Unread(pieces: seq<Piece>, name: string): nat {
    if pieces == [] then 0
    else (if pieces[0].Ref? && !(name <= pieces[0].name + Spell(pieces[1..])) then 1 else 0) + Unread(pieces[1..], name)
  }

  function OtherRefs(pieces: seq<Piece>, name: string): nat {
    if pieces == [] then 0
    else (if pieces[0].Ref? && pieces[0].name != name then 1 else 0) + OtherRefs(pieces[1..], name)
  }

  /** Passing over text without a colon keeps the colons of the result. */
  lemma SkipKeepsColons(text: string, rest: string, name: string, value: string)
    requires ':' !in text
    ensures Colons(Replace(text + rest, ":" + name, value)) == Colons(Replace(rest, ":" + name, value))
  {
    ReplaceSkips(text, rest, name, value);
    ColonsConcat(text, Replace(rest, ":" + name, value));
  }

  /** Replacing a mark takes its colon away; passing over one leaves it. */
  lemma MarkColons(t: string, name: string, value: string)
    requires ':' !in name && ':' !in value
    ensures Colons(Replace(":" + t, ":" + name, value))
            == Colons(Replace(t, ":" + name, value)) + if name <= t then 0 else 1
  {
    assert (":" + t)[1..] == t;
    MarkAhead(name, t);
    if name <= t {
      var after := t[|name|..];
      assert t == name + after && (":" + t)[|":" + name|..] == after;
      SkipKeepsColons(name, after, name, value);
      ColonsConcat(value, Replace(after, ":" + name, value));
    } else {
      ColonsConcat(":", Replace(t, ":" + name, value));
    }
  }

  lemma {:induction false} ReplaceColons(pieces: seq<Piece>, name: string, value: string)
    requires PlainPieces(pieces) && ':' !in name && ':' !in value
    ensures Colons(Replace(Spell(pieces), ":" + name, value)) == Unread(pieces, name)
  {
    if pieces != [] {
      var rest := Spell(pieces[1..]);
      ReplaceColons(pieces[1..], name, value);
      match pieces[0]
      case Text(c) => SkipKeepsColons([c], rest, name, value);
      case Ref(n) =>
        assert Spell(pieces) == ":" + (n + rest);
        SkipKeepsColons(n, rest, name, value);
        MarkColons(n + rest, name, value);
    }
  }

  lemma {:induction false} PutInColons(pieces: seq<Piece>, name: string, value: string)
    requires PlainPieces(pieces) && ':' !in value
    ensures Colons(Spell(PutIn(pieces, name, value))) == OtherRefs(pieces, name)
  {
    if pieces != [] {
      var after := PutIn(pieces[1..], name, value);
      PutInColons(pieces[1..], name, value);
      if pieces[0] == Ref(name) {
        SpellTexts(value, after);
        ColonsConcat(value, Spell(after));
      } else {
        assert ([pieces[0]] + after)[1..] == after;
        if pieces[0].Ref? {
          ColonsConcat(":" + pieces[0].name, Spell(after));
          ColonsConcat(":", pieces[0].name);
          ColonsConcat(pieces[0].name, "");
        }
      }
    }
  }

  lemma {:induction false} UnreadIsOtherIff(pieces: seq<Piece>, name: string)
    ensures Unread(pieces, name) <= OtherRefs(pieces, name)
    ensures Unread(pieces, name) == OtherRefs(pieces, name) <==> Clear(pieces, name)
  {
    if pieces != [] {
      UnreadIsOtherIff(pieces[1..], name);
    }
  }

  /** The replacement of one group is right if and only if no other reference begins with its mark. */
  lemma ReplaceRightIff(pieces: seq<Piece>, name: string, value: string)
    requires PlainPieces(pieces) && ':' !in name && ':' !in value
    ensures Replace(Spell(pieces), ":" + name, value) == Spell(PutIn(pieces, name, value)) <==> Clear(pieces, name)
  {
    UnreadIsOtherIff(pieces, name);
    ReplaceColons(pieces, name, value);
    PutInColons(pieces, name, value);
    if Clear(pieces, name) {
      ReplaceIsPutIn(pieces, name, value);
    }
  }

  /** Over all values, colons or not, the same condition is exact. */
  lemma ReplaceAlwaysRightIff(pieces: seq<Piece>, name: string)
    requires PlainPieces(pieces) && ':' !in name
    ensures (forall value :: Replace(Spell(pieces), ":" + name, value) == Spell(PutIn(pieces, name, value))) <==>
        Clear(pieces, name)
  {
    ReplaceRightIff(pieces, name, "");
    if Clear(pieces, name) {
      forall value
        ensures Replace(Spell(pieces), ":" + name, value) == Spell(PutIn(pieces, name, value))
      {
        ReplaceIsPutIn(pieces, name, value);
      }
    }
  }

  lemma {:induction false} ExpectedTexts(s: string, rest: seq<Piece>, groups: seq<(string, string)>)
    ensures Expected(Texts(s) + rest, groups) == s + Expected(rest, groups)
  {
    if s == [] {
      assert Texts(s) + rest == rest;
    } else {
      assert (Texts(s) + rest)[1..] == Texts(s[1..]) + rest;
      ExpectedTexts(s[1..], rest, groups);
    }
  }

  lemma {:induction false} ExpectedPutIn(pieces: seq<Piece>, groups: seq<(string, string)>)
    requires groups != []
    ensures Expected(PutIn(pieces, groups[0].0, groups[0].1), groups[1..]) == Expected(pieces, groups)
  {
    if pieces != [] {
      var after := PutIn(pieces[1..], groups[0].0, groups[0].1);
      ExpectedPutIn(pieces[1..], groups);
      if pieces[0] == Ref(groups[0].0) {
        ExpectedTexts(groups[0].1, after, groups[1..]);
      } else {
        assert ([pieces[0]] + after)[1..] == after;
      }
    }
  }

  lemma {:induction false} NothingExpected(pieces: seq<Piece>)
    ensures Expected(pieces, []) == Spell(pieces)
  {
    if pieces != [] {
      NothingExpected(pieces[1..]);
    }
  }

  /** Without the provisos the result can differ: ":id" is replaced inside ":id2", and a captured
      ":b" is taken for a reference. */
  lemma SubstitutionCanDiffer()
    ensures SubstituteAll(":i2", [("i", "7"), ("i2", "x")]) == "72"
    ensures Expected([Ref("i2")], [("i", "7"), ("i2", "x")]) == "x"
    ensures SubstituteAll(":a", [("a", ":b"), ("b", "1")]) == "1"
    ensures Expected([Ref("a")], [("a", ":b"), ("b", "1")]) == ":b"
  {
    assert ":i2"[2..] == "2" && "2"[1..] == "";
    assert Replace("2", ":i", "7") == "2";
    assert Replace(":i2", ":i", "7") == "72";
    assert "72"[1..] == "2";
    assert Replace("2", ":i2", "x") == "2";
    assert Replace("72", ":i2", "x") == "72";
    assert Mark("i") == ":i" && Mark("i2") == ":i2";
    TwoGroups(":i2", ("i", "7"), ("i2", "x"));
    assert ":a"[2..] == "" && ":b"[2..] == "";
    assert Replace(":a", ":a", ":b") == ":b";
    assert Replace(":b", ":b", "1") == "1";
    TwoGroups(":a", ("a", ":b"), ("b", "1"));
    assert [("i", "7"), ("i2", "x")][1..] == [("i2", "x")];
  }

  lemma TwoGroups(dest: string, g: (string, string), h: (string, string))
    ensures SubstituteAll(dest, [g, h]) == Replace(Replace(dest, Mark(g.0), g.1), Mark(h.0), h.1)
  {
    var once := Replace(dest, Mark(g.0), g.1);
    assert [g, h][1..] == [h] && [h][1..] == [];
    assert SubstituteAll(once, [h]) == SubstituteAll(Replace(once, Mark(h.0), h.1), []);
  }

  // ----- queries

  predicate HasKey(q: Query, k: string) {
    exists i :: 0 <= i < |q| && q[i].0 == k
  }

  /** The request's parameters that the target does not set itself. */
  function Added(own: Query, request: Query): Query {
    if request == [] then []
    else
      var before, last := Added(own, request[..|request| - 1]), request[|request| - 1];
      if HasKey(own, last.0) || HasKey(before, last.0) then before else before + [last]
  }

  /** The merge loop: the target's own parameters keep their values and their place, every other
      parameter of the request is added behind them, once. */
  method MergeQuery(own: Query, request: Query) returns (merged: Query)
    ensures merged == own + Added(own, request)
  {
    merged := own;
    for i := 0 to |request|
      invariant merged == own + Added(own, request[..i])
    {
      var (k, v) := request[i];
      assert request[..i + 1][..i] == request[..i];
      HasKeyConcat(own, Added(own, request[..i]), k);
      if !HasKey(merged, k) {
        merged := merged + [(k, v)];
      }
    }
    assert request[..|request|] == request;
  }

  lemma HasKeyConcat(a: Query, b: Query, k: string)
    ensures HasKey(a + b, k) <==> HasKey(a, k) || HasKey(b, k)
  {
    if HasKey(a, k) {
      var i :| 0 <= i < |a| && a[i].0 == k;
      assert (a + b)[i].0 == k;
    }
    if HasKey(b, k) {
      var i :| 0 <= i < |b| && b[i].0 == k;
      assert (a + b)[|a| + i].0 == k;
    }
  }

  /** No parameter of the request is lost, and what is added comes from the request. */
  lemma {:induction false} AddedKeys(own: Query, request: Query, k: string)
    ensures HasKey(Added(own, request), k) <==> HasKey(request, k) && !HasKey(own, k)
    ensures forall p :: p in Added(own, request) ==> p in request
  {
    if request != [] {
      var before, last := request[..|request| - 1], request[|request| - 1];
      AddedKeys(own, before, k);
      AddedKeys(own, before, last.0);
      assert request == before + [last];
      HasKeyConcat(before, [last], k);
      HasKeyConcat(Added(own, before), [last], k);
      assert HasKey([last], k) <==> [last][0].0 == k;
    }
  }

  /** Where the added parameters stand in the request: in order, and each at its first occurrence. */
  ghost predicate FirstOnes(own: Query, request: Query, at: seq<nat>) {
    && (forall i :: 0 <= i < |at| ==> at[i] < |request| && !HasKey(own, request[at[i]].0))
    && (forall i, j :: 0 <= i < j < |at| ==> at[i] < at[j])
    && (forall i, j :: 0 <= i < |at| && 0 <= j < at[i] ==> request[j].0 != request[at[i]].0)
  }

  /** What is added are the first occurrences of the parameters, in their order: so each comes once. */
  lemma {:induction false} AddedInOrder(own: Query, request: Query) returns (at: seq<nat>)
    ensures FirstOnes(own, request, at) && |Added(own, request)| == |at|
    ensures forall i :: 0 <= i < |at| ==> Added(own, request)[i] == request[at[i]]
  {
    if request == [] {
      return [];
    }
    var front, last := request[..|request| - 1], request[|request| - 1];
    at := AddedInOrder(own, front);
    AddedKeys(own, front, last.0);
    if !HasKey(own, last.0) && !HasKey(Added(own, front), last.0) {
      forall j | 0 <= j < |front|
        ensures request[j].0 != last.0
      {
        assert front[j] == request[j];
      }
      at := at + [|front|];
    }
  }

  // ----- the loop over the rules

  predicate Matches(r: Rule, path: string) {
    MatchPath(r.caseSensitive, Compile(r.source, r.ignoreSlash), path).Some?
  }

  predicate Wins(rules: seq<Rule>, path: string, w: nat) {
    && w < |rules| && rules[w].active && Matches(rules[w], path)
    && forall i :: 0 <= i < w ==> !(rules[i].active && Matches(rules[i], path))
  }

  datatype Outcome =
    | NoMatch
    | Redirect(winner: nat, destination: string, query: Option<Query>, isLoop: bool)

  /** The simulation.  Splitting a URL into its parts is left to `pathOf` and `queryOf`; `query` is
      the merged query of the destination when the request's query is to be preserved. */
  method Simulate(rules: seq<Rule>, path: string, query: Query, pathOf: string -> string, queryOf: string -> Query)
    returns (outcome: Outcome)
    ensures outcome.Redirect? ==>
      && Wins(rules, path, outcome.winner)
      && var r := rules[outcome.winner];
      var dest := SubstituteAll(Domains.Strip(r.target),
                                MatchPath(r.caseSensitive, Compile(r.source, r.ignoreSlash), path).value);
      && outcome.destination == dest
      && outcome.query
        == (if r.preserveQuery && query != [] then Some(queryOf(dest) + Added(queryOf(dest), query)) else None)
      && (outcome.isLoop <==> path == if pathOf(dest) == "" then "/" else pathOf(dest))
    ensures outcome.NoMatch? ==> forall i :: 0 <= i < |rules| ==> !(rules[i].active && Matches(rules[i], path))
  {
    for i := 0 to |rules|
      invariant forall j :: 0 <= j < i ==> !(rules[j].active && Matches(rules[j], path))
    {
      var r := rules[i];
      if !r.active {
        continue;
      }
      var groups := MatchPath(r.caseSensitive, Compile(r.source, r.ignoreSlash), path);
      if groups.Some? {
        var dest := Domains.Strip(r.target);
        for g := 0 to |groups.value|
          invariant SubstituteAll(dest, groups.value[g..]) == SubstituteAll(Domains.Strip(r.target), groups.value)
        {
          assert groups.value[g..][0] == groups.value[g] && groups.value[g..][1..] == groups.value[g + 1..];
          dest := Replace(dest, Mark(groups.value[g].0), groups.value[g].1);
        }
        var merged: Option<Query> := None;
        if r.preserveQuery && query != [] {
          var m := MergeQuery(queryOf(dest), query);
          merged := Some(m);
        }
        var destPath := if pathOf(dest) == "" then "/" else pathOf(dest);
        return Redirect(i, dest, merged, destPath == path);
      }
    }
    return NoMatch;
  }
}
