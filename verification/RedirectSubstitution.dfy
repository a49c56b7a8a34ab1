/** When substitution is right whatever was captured.

    The groups are substituted one after the other, each into the result of the one before.  So the
    mark of a group can be read where another reference was meant: inside a longer name, where a value
    that was put in earlier happens to complete a shorter name, or inside a value with a colon.
  */
module RedirectSubstitution {
  import opened Wrappers
  import opened RedirectPattern
  import opened RedirectEngine

  type Groups = seq<(string, string)>

  // ----- every target is made of pieces

  /** A target as pieces: after a colon comes a reference to as long a name as there is, maybe none. */
  function Parse(target: string): seq<Piece>
    decreases |target|
  {
    if target == "" then []
    else if target[0] == ':' then
      var k := 1 + NameLength(target[1..]);
      [Ref(target[1..k])] + Parse(target[k..])
    else [Text(target[0])] + Parse(target[1..])
  }

  lemma NameHasNoColon(s: string, k: nat)
    requires k <= NameLength(s)
    ensures ':' !in s[..k]
  {
  }

  lemma MarkSplits(target: string, k: nat)
    requires 1 <= k <= |target| && target[0] == ':'
    ensures target == ":" + target[1..k] + target[k..] && target[1..k] == target[1..][..k - 1]
  {
  }

  lemma OnePieceFirst(piece: Piece, rest: seq<Piece>)
    requires PlainPieces(rest) && (if piece.Ref? then ':' !in piece.name else piece.c != ':')
    ensures PlainPieces([piece] + rest)
    ensures Spell([piece] + rest) == (if piece.Ref? then ":" + piece.name else [piece.c]) + Spell(rest)
  {
    assert ([piece] + rest)[1..] == rest;
  }

  lemma TextSplits(target: string)
    requires target != ""
    ensures target == [target[0]] + target[1..]
  {
  }

  lemma {:induction false} ParseSpells(target: string)
    ensures Spell(Parse(target)) == target && PlainPieces(Parse(target))
    decreases |target|
  {
    if target != "" {
      if target[0] == ':' {
        var k := 1 + NameLength(target[1..]);
        ParseSpells(target[k..]);
        ParseMark(target, k);
      } else {
        ParseSpells(target[1..]);
        OnePieceFirst(Text(target[0]), Parse(target[1..]));
        TextSplits(target);
      }
    }
  }

  lemma ParseMark(target: string, k: nat)
    requires target != "" && target[0] == ':' && k == 1 + NameLength(target[1..])
    requires Spell(Parse(target[k..])) == target[k..] && PlainPieces(Parse(target[k..]))
    ensures Spell(Parse(target)) == target && PlainPieces(Parse(target))
  {
    MarkSplits(target, k);
    NameHasNoColon(target[1..], k - 1);
    OnePieceFirst(Ref(target[1..k]), Parse(target[k..]));
  }

  // ----- pieces with values put in

  function NamesOf(groups: Groups): (names: seq<string>)
    ensures |names| == |groups|
  {
    seq(|groups|, i requires 0 <= i < |groups| => groups[i].0)
  }

  function PieceFilled(piece: Piece, groups: Groups): seq<Piece> {
    if piece.Ref? && Lookup(groups, piece.name).Some? then Texts(Lookup(groups, piece.name).value) else [piece]
  }

  function Filled(pieces: seq<Piece>, groups: Groups): seq<Piece> {
    if pieces == [] then [] else PieceFilled(pieces[0], groups) + Filled(pieces[1..], groups)
  }

  lemma {:induction false} LookupNames(groups: Groups, name: string)
    ensures Lookup(groups, name).Some? <==> name in NamesOf(groups)
  {
    if groups != [] {
      LookupNames(groups[1..], name);
      assert NamesOf(groups) == [groups[0].0] + NamesOf(groups[1..]);
    }
  }

  lemma {:induction false} LookupSnoc(groups: Groups, g: (string, string), name: string)
    ensures Lookup(groups + [g], name)
            == if Lookup(groups, name).Some? then Lookup(groups, name) else if g.0 == name then Some(g.1) else None
  {
    if groups == [] {
      assert [] + [g] == [g] && [g][1..] == [];
    } else {
      assert (groups + [g])[1..] == groups[1..] + [g];
      LookupSnoc(groups[1..], g, name);
    }
  }

  lemma {:induction false} PutInTexts(s: string, rest: seq<Piece>, name: string, value: string)
    ensures PutIn(Texts(s) + rest, name, value) == Texts(s) + PutIn(rest, name, value)
  {
    if s == "" {
      assert Texts(s) + rest == rest;
    } else {
      assert (Texts(s) + rest)[1..] == Texts(s[1..]) + rest;
      PutInTexts(s[1..], rest, name, value);
    }
  }

  lemma PutInPiece(piece: Piece, rest: seq<Piece>, name: string, value: string)
    ensures PutIn([piece] + rest, name, value)
            == (if piece == Ref(name) then Texts(value) else [piece]) + PutIn(rest, name, value)
  {
    assert ([piece] + rest)[1..] == rest;
  }

  /** Putting in one more group. */
  lemma {:induction false} FilledSnoc(pieces: seq<Piece>, groups: Groups, g: (string, string))
    ensures Filled(pieces, groups + [g]) == PutIn(Filled(pieces, groups), g.0, g.1)
  {
    if pieces != [] {
      var rest := Filled(pieces[1..], groups);
      FilledSnoc(pieces[1..], groups, g);
      if pieces[0].Ref? {
        LookupSnoc(groups, g, pieces[0].name);
        if Lookup(groups, pieces[0].name).Some? {
          PutInTexts(Lookup(groups, pieces[0].name).value, rest, g.0, g.1);
        } else {
          PutInPiece(pieces[0], rest, g.0, g.1);
        }
      } else {
        PutInPiece(pieces[0], rest, g.0, g.1);
      }
    }
  }

  lemma {:induction false} FilledNothing(pieces: seq<Piece>)
    ensures Filled(pieces, []) == pieces
  {
    if pieces != [] {
      FilledNothing(pieces[1..]);
    }
  }

  ghost predicate Colonless(groups: Groups) {
    forall i :: 0 <= i < |groups| ==> ':' !in groups[i].1
  }

  lemma {:induction false} LookupColonless(groups: Groups, name: string)
    requires Colonless(groups) && Lookup(groups, name).Some?
    ensures ':' !in Lookup(groups, name).value
  {
    if groups[0].0 != name {
      LookupColonless(groups[1..], name);
    }
  }

  lemma TextsArePlain(s: string)
    requires ':' !in s
    ensures PlainPieces(Texts(s))
  {
    forall i | 0 <= i < |s|
      ensures Texts(s)[i].Text? && Texts(s)[i].c != ':'
    {
      assert s[i] in s;
    }
  }

  lemma PlainConcat(a: seq<Piece>, b: seq<Piece>)
    requires PlainPieces(a) && PlainPieces(b)
    ensures PlainPieces(a + b)
  {
  }

  lemma {:induction false} FilledIsPlain(pieces: seq<Piece>, groups: Groups)
    requires PlainPieces(pieces) && Colonless(groups)
    ensures PlainPieces(Filled(pieces, groups))
  {
    if pieces != [] {
      FilledIsPlain(pieces[1..], groups);
      if pieces[0].Ref? && Lookup(groups, pieces[0].name).Some? {
        LookupColonless(groups, pieces[0].name);
        TextsArePlain(Lookup(groups, pieces[0].name).value);
      }
      PlainConcat(PieceFilled(pieces[0], groups), Filled(pieces[1..], groups));
    }
  }

  // ----- when a mark can be read in the wrong place

  /** Can the text of these pieces begin with x, for some values of the groups put in so far? */
  predicate CanBegin(x: string, pieces: seq<Piece>, put: seq<string>) {
    x == "" ||
    (pieces != [] &&
     match pieces[0]
     case Text(c) => c == x[0] && CanBegin(x[1..], pieces[1..], put)
     case Ref(n) => n in put)
  }

  /** Can the group's mark be read at a reference to something else? */
  predicate MayMistake(pieces: seq<Piece>, name: string, put: seq<string>) {
    && pieces != []
    && (MistakeAt(pieces[0], pieces[1..], name, put) || MayMistake(pieces[1..], name, put))
  }

  predicate MistakeAt(piece: Piece, rest: seq<Piece>, name: string, put: seq<string>) {
    && piece.Ref? && piece.name !in put && piece.name != name
    && (name <= piece.name || (piece.name <= name && CanBegin(name[|piece.name|..], rest, put)))
  }

  /** No group's mark can be read in the wrong place when its turn comes. */
  predicate Safe(pieces: seq<Piece>, names: seq<string>) {
    forall j :: 0 <= j < |names| ==> !MayMistake(pieces, names[j], names[..j])
  }

  lemma UnfilledStartsWithColon(n: string, rest: seq<Piece>)
    ensures Spell([Ref(n)] + rest)[..1] == ":"
  {
    assert ([Ref(n)] + rest)[0] == Ref(n);
  }

  lemma TailOfPrefix(x: string, c: char, t: string)
    requires x != "" && x <= [c] + t
    ensures x[0] == c && x[1..] <= t && forall d :: d in x[1..] ==> d in x
  {
    assert ([c] + t)[0] == c && ([c] + t)[1..] == t;
  }

  lemma {:induction false} BeginsOnlyIfItCan(x: string, pieces: seq<Piece>, groups: Groups)
    requires ':' !in x && x <= Spell(Filled(pieces, groups))
    ensures CanBegin(x, pieces, NamesOf(groups))
  {
    if x != "" && pieces != [] {
      var rest := Filled(pieces[1..], groups);
      match pieces[0]
      case Text(c) =>
        assert ([Text(c)] + rest)[1..] == rest;
        TailOfPrefix(x, c, Spell(rest));
        BeginsOnlyIfItCan(x[1..], pieces[1..], groups);
      case Ref(n) =>
        assert x[0] in x;
        LookupNames(groups, n);
        UnfilledStartsWithColon(n, rest);
    }
  }

  lemma {:induction false} ClearTexts(s: string, rest: seq<Piece>, name: string)
    ensures Clear(Texts(s) + rest, name) <==> Clear(rest, name)
  {
    if s == "" {
      assert Texts(s) + rest == rest;
    } else {
      assert (Texts(s) + rest)[1..] == Texts(s[1..]) + rest;
      ClearTexts(s[1..], rest, name);
    }
  }

  lemma ClearPiece(piece: Piece, rest: seq<Piece>, name: string)
    ensures Clear([piece] + rest, name) <==>
      (piece.Ref? && name <= piece.name + Spell(rest) ==> piece.name == name) && Clear(rest, name)
  {
    assert ([piece] + rest)[1..] == rest;
  }

  lemma PrefixSplits(x: string, a: string, b: string)
    ensures x <= a + b <==> x <= a || (a <= x && x[|a|..] <= b)
  {
    if x <= a + b {
      if |x| <= |a| {
        assert x == (a + b)[..|x|] == a[..|x|];
      } else {
        assert x == (a + b)[..|x|];
        assert a == x[..|a|] && x[|a|..] == b[..|x| - |a|];
      }
    }
    if a <= x && x[|a|..] <= b {
      assert x == a + x[|a|..];
    }
  }

  lemma {:induction false} UnmistakenIsClear(pieces: seq<Piece>, name: string, groups: Groups)
    requires ':' !in name && !MayMistake(pieces, name, NamesOf(groups))
    ensures Clear(Filled(pieces, groups), name)
  {
    if pieces != [] {
      var rest := Filled(pieces[1..], groups);
      UnmistakenIsClear(pieces[1..], name, groups);
      if pieces[0].Ref? {
        var n := pieces[0].name;
        LookupNames(groups, n);
        if Lookup(groups, n).Some? {
          ClearTexts(Lookup(groups, n).value, rest, name);
        } else {
          ClearPiece(pieces[0], rest, name);
          PrefixSplits(name, n, Spell(rest));
          if n <= name && name[|n|..] <= Spell(rest) {
            assert forall d :: d in name[|n|..] ==> d in name;
            BeginsOnlyIfItCan(name[|n|..], pieces[1..], groups);
          }
        }
      } else {
        ClearPiece(pieces[0], rest, name);
      }
    }
  }

  // ----- if nothing can be mistaken, everything is right

  lemma NamesFront(groups: Groups, j: nat)
    requires j <= |groups|
    ensures NamesOf(groups[..j]) == NamesOf(groups)[..j]
  {
  }

  /** The group's mark is clear when its turn comes. */
  ghost predicate Ready(pieces: seq<Piece>, groups: Groups, k: nat)
    requires k < |groups|
  {
    Clear(Filled(pieces, groups[..k]), groups[k].0) && groups[k].0 != "wildcard"
  }

  lemma NoGroupYet(pieces: seq<Piece>, groups: Groups)
    ensures SubstituteAll(Spell(pieces), groups) == SubstituteAll(Spell(Filled(pieces, groups[..0])), groups[0..])
    ensures Expected(pieces, groups) == Expected(Filled(pieces, groups[..0]), groups[0..])
  {
    FilledNothing(pieces);
    assert groups[..0] == [] && groups[0..] == groups;
  }

  /** As long as the marks are clear, substituting group after group is putting them in. */
  lemma {:induction false} FirstGroups(pieces: seq<Piece>, groups: Groups, j: nat)
    requires PlainPieces(pieces) && Colonless(groups) && j <= |groups|
    requires forall k :: 0 <= k < j ==> Ready(pieces, groups, k)
    ensures SubstituteAll(Spell(pieces), groups) == SubstituteAll(Spell(Filled(pieces, groups[..j])), groups[j..])
    ensures Expected(pieces, groups) == Expected(Filled(pieces, groups[..j]), groups[j..])
  {
    if j == 0 {
      NoGroupYet(pieces, groups);
    } else {
      FirstGroups(pieces, groups, j - 1);
      OneGroup(pieces, groups, j - 1);
    }
  }

  lemma OneGroup(pieces: seq<Piece>, groups: Groups, k: nat)
    requires PlainPieces(pieces) && Colonless(groups) && k < |groups|
    requires Ready(pieces, groups, k)
    ensures SubstituteAll(Spell(Filled(pieces, groups[..k])), groups[k..])
            == SubstituteAll(Spell(Filled(pieces, groups[..k + 1])), groups[k + 1..])
    ensures Expected(Filled(pieces, groups[..k]), groups[k..])
        == Expected(Filled(pieces, groups[..k + 1]), groups[k + 1..])
  {
    var before := Filled(pieces, groups[..k]);
    FilledIsPlain(pieces, groups[..k]);
    FilledSnoc(pieces, groups[..k], groups[k]);
    assert groups[..k + 1] == groups[..k] + [groups[k]];
    ReplaceIsPutIn(before, groups[k].0, groups[k].1);
    assert groups[k..][0] == groups[k] && groups[k..][1..] == groups[k + 1..];
    ExpectedPutIn(before, groups[k..]);
  }

  ghost predicate GroupNames(names: seq<string>) {
    forall i :: 0 <= i < |names| ==> GroupName(names[i])
  }

  /** What the compiler makes groups of, but for the name that is written as a star. */
  predicate GroupName(s: string) {
    s != "wildcard" && forall i :: 0 <= i < |s| ==> NameChar(s[i])
  }

  lemma NamesAreColonless(name: string)
    requires GroupName(name)
    ensures ':' !in name && '!' !in name
  {
  }

  lemma SafeIsRight(pieces: seq<Piece>, groups: Groups)
    requires PlainPieces(pieces) && Colonless(groups) && GroupNames(NamesOf(groups)) && Safe(pieces, NamesOf(groups))
    ensures SubstituteAll(Spell(pieces), groups) == Expected(pieces, groups)
  {
    forall k | 0 <= k < |groups|
      ensures Ready(pieces, groups, k)
    {
      assert GroupName(NamesOf(groups)[k]);
      SafeIsClear(pieces, groups, k);
    }
    FirstGroups(pieces, groups, |groups|);
    assert groups[|groups|..] == [];
    NothingExpected(Filled(pieces, groups[..|groups|]));
  }

  lemma SafeIsClear(pieces: seq<Piece>, groups: Groups, k: nat)
    requires k < |groups| && GroupName(groups[k].0) && !MayMistake(pieces, NamesOf(groups)[k], NamesOf(groups)[..k])
    ensures Clear(Filled(pieces, groups[..k]), groups[k].0)
  {
    NamesAreColonless(groups[k].0);
    NamesFront(groups, k);
    UnmistakenIsClear(pieces, groups[k].0, groups[..k]);
  }

  // ----- if something can be mistaken, some values make it wrong

  const FILLER := "~"
  const MARK := "!"

  /** One group has a chosen value, all others a filler. */
  function Chosen(names: seq<string>, h: string, v: string): (groups: Groups)
    ensures |groups| == |names| && NamesOf(groups) == names
    ensures forall i :: 0 <= i < |names| ==> groups[i] == (names[i], if names[i] == h then v else FILLER)
  {
    seq(|names|, i requires 0 <= i < |names| => (names[i], if names[i] == h then v else FILLER))
  }

  lemma {:induction false} LookupChosen(groups: Groups, h: string, v: string)
    requires h in NamesOf(groups) && forall i :: 0 <= i < |groups| && groups[i].0 == h ==> groups[i].1 == v
    ensures Lookup(groups, h) == Some(v)
  {
    if groups[0].0 != h {
      assert NamesOf(groups) == [groups[0].0] + NamesOf(groups[1..]);
      LookupChosen(groups[1..], h, v);
    }
  }

  lemma {:induction false} SpellConcat(a: seq<Piece>, b: seq<Piece>)
    ensures Spell(a + b) == Spell(a) + Spell(b)
  {
    if a == [] {
      assert a + b == b;
    } else {
      assert (a + b)[1..] == a[1..] + b;
      SpellConcat(a[1..], b);
    }
  }

  lemma {:induction false} ItCanBegin(x: string, pieces: seq<Piece>, names: seq<string>) returns (h: string, v: string)
    requires CanBegin(x, pieces, names)
    ensures v == FILLER || (v != "" && forall c :: c in v ==> c in x)
    ensures x <= Spell(Filled(pieces, Chosen(names, h, v)))
  {
    if x == "" {
      return "", FILLER;
    }
    match pieces[0]
    case Text(c) =>
      h, v := ItCanBegin(x[1..], pieces[1..], names);
      var rest := Filled(pieces[1..], Chosen(names, h, v));
      assert ([Text(c)] + rest)[1..] == rest;
      assert x == [c] + x[1..] && forall d :: d in x[1..] ==> d in x;
    case Ref(n) =>
      h, v := n, x;
      var groups := Chosen(names, n, x);
      LookupChosen(groups, n, x);
      SpellTexts(x, Filled(pieces[1..], groups));
  }

  lemma {:induction false} MistakeHappens(pieces: seq<Piece>, name: string, names: seq<string>)
    returns (h: string, v: string)
    requires MayMistake(pieces, name, names)
    ensures v == FILLER || (v != "" && forall c :: c in v ==> c in name)
    ensures !Clear(Filled(pieces, Chosen(names, h, v)), name)
  {
    if MistakeAt(pieces[0], pieces[1..], name, names) {
      var n := pieces[0].name;
      if name <= n {
        h, v := "", FILLER;
      } else {
        h, v := ItCanBegin(name[|n|..], pieces[1..], names);
        assert forall c :: c in name[|n|..] ==> c in name;
      }
      var groups := Chosen(names, h, v);
      var rest := Filled(pieces[1..], groups);
      LookupNames(groups, n);
      PrefixSplits(name, n, Spell(rest));
      ClearPiece(pieces[0], rest, name);
    } else {
      h, v := MistakeHappens(pieces[1..], name, names);
      var groups := Chosen(names, h, v);
      StaysUnclear(pieces[0], groups, Filled(pieces[1..], groups), name);
    }
  }

  lemma StaysUnclear(piece: Piece, groups: Groups, rest: seq<Piece>, name: string)
    requires !Clear(rest, name)
    ensures !Clear(PieceFilled(piece, groups) + rest, name)
  {
    if piece.Ref? && Lookup(groups, piece.name).Some? {
      ClearTexts(Lookup(groups, piece.name).value, rest, name);
    } else {
      ClearPiece(piece, rest, name);
    }
  }

  // ----- the mark counts the wrong readings

  function Marks(s: string): nat {
    if s == "" then 0 else (if s[0] == '!' then 1 else 0) + Marks(s[1..])
  }

  lemma {:induction false} MarksConcat(a: string, b: string)
    ensures Marks(a + b) == Marks(a) + Marks(b)
    ensures '!' !in a ==> Marks(a) == 0
  {
    if a == "" {
      assert a + b == b;
    } else {
      assert (a + b)[1..] == a[1..] + b && a[0] in a;
      MarksConcat(a[1..], b);
    }
  }

  /** Replacing a pattern by a value, none of them with a mark in it, keeps the marks. */
  lemma {:induction false} MarksKept(s: string, pattern: string, value: string)
    requires pattern != "" && '!' !in pattern && '!' !in value
    ensures Marks(Replace(s, pattern, value)) == Marks(s)
    decreases |s|
  {
    if s != "" {
      if pattern <= s {
        MarksKept(s[|pattern|..], pattern, value);
        assert s == pattern + s[|pattern|..];
        MarksConcat(pattern, s[|pattern|..]);
        MarksConcat(value, Replace(s[|pattern|..], pattern, value));
      } else {
        MarksKept(s[1..], pattern, value);
        MarksConcat([s[0]], Replace(s[1..], pattern, value));
        assert s == [s[0]] + s[1..];
        MarksConcat([s[0]], s[1..]);
      }
    }
  }

  lemma {:induction false} MarksKeptByAll(s: string, groups: Groups)
    requires forall i :: 0 <= i < |groups| ==> GroupName(groups[i].0) && groups[i].1 == FILLER
    ensures Marks(SubstituteAll(s, groups)) == Marks(s)
    decreases |groups|
  {
    if groups != [] {
      NamesAreColonless(groups[0].0);
      MarksKept(s, Mark(groups[0].0), FILLER);
      MarksKeptByAll(Replace(s, Mark(groups[0].0), FILLER), groups[1..]);
    }
  }

  /** Where a name's mark is read, a colon goes and a mark comes. */
  lemma {:induction false} MarksForColons(s: string, name: string)
    requires ':' !in name && '!' !in name
    ensures Marks(Replace(s, ":" + name, MARK)) + Colons(Replace(s, ":" + name, MARK)) == Marks(s) + Colons(s)
    decreases |s|
  {
    var pattern := ":" + name;
    if s != "" {
      if pattern <= s {
        var after := s[|pattern|..];
        MarksForColons(after, name);
        assert s == pattern + after;
        MarksConcat(pattern, after);
        ColonsConcat(pattern, after);
        ColonsConcat(":", name);
        ColonsConcat(name, "");
        MarksConcat(MARK, Replace(after, pattern, MARK));
        ColonsConcat(MARK, Replace(after, pattern, MARK));
      } else {
        MarksForColons(s[1..], name);
        MarksConcat([s[0]], Replace(s[1..], pattern, MARK));
        ColonsConcat([s[0]], Replace(s[1..], pattern, MARK));
        assert s == [s[0]] + s[1..];
      }
    }
  }

  function Refs(pieces: seq<Piece>): nat {
    if pieces == [] then 0 else (if pieces[0].Ref? then 1 else 0) + Refs(pieces[1..])
  }

  lemma {:induction false} SpellColons(pieces: seq<Piece>)
    requires PlainPieces(pieces)
    ensures Colons(Spell(pieces)) == Refs(pieces)
  {
    if pieces != [] {
      SpellColons(pieces[1..]);
      if pieces[0].Ref? {
        ColonsConcat(":" + pieces[0].name, Spell(pieces[1..]));
        ColonsConcat(":", pieces[0].name);
        ColonsConcat(pieces[0].name, "");
      }
    }
  }

  /** A group with the mark for its value, and fillers for the others. */
  ghost predicate MarkFirst(groups: Groups) {
    && groups != [] && groups[0].1 == MARK
    && (forall i :: 0 <= i < |groups| ==> GroupName(groups[i].0))
    && (forall i :: 0 < i < |groups| ==> groups[i].1 == FILLER)
  }

  lemma {:induction false} LookupFiller(groups: Groups, name: string)
    requires forall i :: 0 <= i < |groups| ==> GroupName(groups[i].0) && groups[i].1 == FILLER
    requires Lookup(groups, name).Some?
    ensures Lookup(groups, name).value == FILLER && GroupName(name)
  {
    if groups[0].0 != name {
      LookupFiller(groups[1..], name);
    }
  }

  lemma OneExpected(n: string, groups: Groups)
    requires MarkFirst(groups)
    ensures Marks(if Lookup(groups, n).Some? then Lookup(groups, n).value else ":" + n)
            == Marks(":" + n) + if n == groups[0].0 then 1 else 0
  {
    MarksConcat(":", n);
    MarksConcat(n, "");
    if n == groups[0].0 {
      NamesAreColonless(n);
      MarksConcat(MARK, "");
    } else if Lookup(groups[1..], n).Some? {
      LookupFiller(groups[1..], n);
      NamesAreColonless(n);
      MarksConcat(FILLER, "");
    }
  }

  /** What is expected has one more mark for each reference to the marked group. */
  lemma {:induction false} ExpectedMarks(pieces: seq<Piece>, groups: Groups)
    requires MarkFirst(groups)
    ensures Marks(Expected(pieces, groups)) + OtherRefs(pieces, groups[0].0) == Marks(Spell(pieces)) + Refs(pieces)
  {
    if pieces != [] {
      var rest := Expected(pieces[1..], groups);
      ExpectedMarks(pieces[1..], groups);
      match pieces[0]
      case Text(c) =>
        MarksConcat([c], rest);
        MarksConcat([c], Spell(pieces[1..]));
      case Ref(n) =>
        OneExpected(n, groups);
        MarksConcat(if Lookup(groups, n).Some? then Lookup(groups, n).value else ":" + n, rest);
        MarksConcat(":" + n, Spell(pieces[1..]));
    }
  }

  /** What comes out has one more mark for each reading of the marked group. */
  lemma ResultMarks(pieces: seq<Piece>, groups: Groups)
    requires PlainPieces(pieces) && MarkFirst(groups)
    ensures Marks(SubstituteAll(Spell(pieces), groups)) + Unread(pieces, groups[0].0) == Marks(Spell(pieces))
        + Refs(pieces)
  {
    var name := groups[0].0;
    NamesAreColonless(name);
    MarksForColons(Spell(pieces), name);
    SpellColons(pieces);
    ReplaceColons(pieces, name, MARK);
    MarksKeptByAll(Replace(Spell(pieces), ":" + name, MARK), groups[1..]);
  }

  lemma UnclearDiffers(pieces: seq<Piece>, groups: Groups)
    requires PlainPieces(pieces) && MarkFirst(groups) && !Clear(pieces, groups[0].0)
    ensures SubstituteAll(Spell(pieces), groups) != Expected(pieces, groups)
  {
    ExpectedMarks(pieces, groups);
    ResultMarks(pieces, groups);
    UnreadIsOtherIff(pieces, groups[0].0);
  }

  // ----- exactly when

  /** What a parameter can capture, if no colon is in it. */
  predicate Capture(v: string) {
    v != "" && '/' !in v && ':' !in v
  }

  ghost predicate Captures(groups: Groups) {
    forall i :: 0 <= i < |groups| ==> Capture(groups[i].1)
  }

  /** Substitution is right for all such captures of these groups. */
  ghost predicate AlwaysRight(pieces: seq<Piece>, names: seq<string>) {
    forall groups: Groups :: NamesOf(groups) == names && Captures(groups) ==>
      SubstituteAll(Spell(pieces), groups) == Expected(pieces, groups)
  }

  lemma FirstUnsafe(pieces: seq<Piece>, names: seq<string>) returns (j: nat)
    requires !Safe(pieces, names)
    ensures j < |names| && MayMistake(pieces, names[j], names[..j]) && Safe(pieces, names[..j])
  {
    j := 0;
    while !MayMistake(pieces, names[j], names[..j])
      invariant j < |names| && forall k :: 0 <= k < j ==> !MayMistake(pieces, names[k], names[..k])
      invariant exists k :: j <= k < |names| && MayMistake(pieces, names[k], names[..k])
      decreases |names| - j
    {
      j := j + 1;
    }
    forall k | 0 <= k < j
      ensures !MayMistake(pieces, names[..j][k], names[..j][..k])
    {
      assert names[..j][..k] == names[..k];
    }
  }

  /** The values for an unsafe group: they make its mark be read wrongly, and show it. */
  function Telling(names: seq<string>, j: nat, h: string, v: string): (groups: Groups)
    requires j < |names|
    ensures |groups| == |names|
  {
    Chosen(names[..j], h, v) + ([(names[j], MARK)] + Chosen(names[j + 1..], "", FILLER))
  }

  lemma TellingShape(names: seq<string>, j: nat, h: string, v: string)
    requires j < |names| && GroupNames(names)
    ensures NamesOf(Telling(names, j, h, v)) == names
    ensures Telling(names, j, h, v)[..j] == Chosen(names[..j], h, v)
    ensures MarkFirst(Telling(names, j, h, v)[j..]) && Telling(names, j, h, v)[j].0 == names[j]
  {
    var groups := Telling(names, j, h, v);
    assert groups[j..] == [(names[j], MARK)] + Chosen(names[j + 1..], "", FILLER);
  }

  lemma TellingCaptures(names: seq<string>, j: nat, h: string, v: string)
    requires j < |names| && (v == FILLER || (v != "" && forall i :: 0 <= i < |v| ==> NameChar(v[i])))
    ensures Captures(Telling(names, j, h, v)) && Colonless(Telling(names, j, h, v))
  {
    assert Capture(MARK) && Capture(FILLER) && Capture(v);
  }

  lemma CharsOfName(v: string, name: string)
    requires GroupName(name) && forall c :: c in v ==> c in name
    ensures forall i :: 0 <= i < |v| ==> NameChar(v[i])
  {
    forall i | 0 <= i < |v|
      ensures NameChar(v[i])
    {
      assert v[i] in v;
    }
  }

  lemma UnsafeIsWrong(pieces: seq<Piece>, names: seq<string>) returns (groups: Groups)
    requires PlainPieces(pieces) && GroupNames(names) && !Safe(pieces, names)
    ensures NamesOf(groups) == names && Captures(groups)
    ensures SubstituteAll(Spell(pieces), groups) != Expected(pieces, groups)
  {
    var j := FirstUnsafe(pieces, names);
    var h, v := MistakeHappens(pieces, names[j], names[..j]);
    if v != FILLER {
      CharsOfName(v, names[j]);
    }
    groups := Telling(names, j, h, v);
    TellingShape(names, j, h, v);
    TellingCaptures(names, j, h, v);
    ClearBefore(pieces, groups, j);
    FirstGroups(pieces, groups, j);
    FilledIsPlain(pieces, groups[..j]);
    UnclearDiffers(Filled(pieces, groups[..j]), groups[j..]);
  }

  lemma ClearBefore(pieces: seq<Piece>, groups: Groups, j: nat)
    requires j <= |groups| && GroupNames(NamesOf(groups)) && Safe(pieces, NamesOf(groups)[..j])
    ensures forall k :: 0 <= k < j ==> Ready(pieces, groups, k)
  {
    var names := NamesOf(groups);
    forall k | 0 <= k < j
      ensures Ready(pieces, groups, k)
    {
      assert names[..j][..k] == names[..k] && names[..j][k] == names[k];
      assert GroupName(names[k]);
      SafeIsClear(pieces, groups, k);
    }
  }

  /** Substitution is right for all captures without a colon if and only if no group's mark can be
      read in the wrong place when its turn comes. */
  lemma SubstitutionRightIff(pieces: seq<Piece>, names: seq<string>)
    requires PlainPieces(pieces) && GroupNames(names)
    ensures AlwaysRight(pieces, names) <==> Safe(pieces, names)
  {
    if Safe(pieces, names) {
      forall groups: Groups | NamesOf(groups) == names && Captures(groups)
        ensures SubstituteAll(Spell(pieces), groups) == Expected(pieces, groups)
      {
        SafeIsRight(pieces, groups);
      }
    } else {
      var groups := UnsafeIsWrong(pieces, names);
    }
  }

  // ----- captures with colons

  predicate AnyCapture(v: string) {
    v != "" && '/' !in v
  }

  ghost predicate AnyCaptures(groups: Groups) {
    forall i :: 0 <= i < |groups| ==> AnyCapture(groups[i].1)
  }

  /** Substitution is right for whatever these groups can capture. */
  ghost predicate AlwaysRightForAny(pieces: seq<Piece>, names: seq<string>) {
    forall groups: Groups :: NamesOf(groups) == names && AnyCaptures(groups) ==>
      SubstituteAll(Spell(pieces), groups) == Expected(pieces, groups)
  }

  /** No group but the last is referred to. */
  predicate OnlyLastUsed(pieces: seq<Piece>, names: seq<string>) {
    forall j :: 0 <= j < |names| - 1 ==> Ref(names[j]) !in pieces
  }

  ghost predicate DistinctNames(names: seq<string>) {
    forall i, j :: 0 <= i < j < |names| ==> names[i] != names[j]
  }

  lemma {:induction false} UnusedChangesNothing(pieces: seq<Piece>, name: string, value: string)
    requires Ref(name) !in pieces
    ensures PutIn(pieces, name, value) == pieces
  {
    if pieces != [] {
      assert pieces == [pieces[0]] + pieces[1..];
      UnusedChangesNothing(pieces[1..], name, value);
    }
  }

  /** A group that is not referred to, and whose mark is not read, has no effect. */
  lemma UnusedGroup(pieces: seq<Piece>, groups: Groups)
    requires PlainPieces(pieces) && groups != [] && GroupName(groups[0].0)
    requires Ref(groups[0].0) !in pieces && Clear(pieces, groups[0].0)
    ensures SubstituteAll(Spell(pieces), groups) == SubstituteAll(Spell(pieces), groups[1..])
    ensures Expected(pieces, groups) == Expected(pieces, groups[1..])
  {
    UnusedChangesNothing(pieces, groups[0].0, groups[0].1);
    ReplaceIsPutIn(pieces, groups[0].0, groups[0].1);
    ExpectedPutIn(pieces, groups);
  }

  /** Leading groups that are not referred to have no effect. */
  lemma {:induction false} UnusedGroups(pieces: seq<Piece>, groups: Groups, j: nat)
    requires PlainPieces(pieces) && j <= |groups|
    requires forall i :: 0 <= i < j ==>
      GroupName(groups[i].0) && Ref(groups[i].0) !in pieces && Clear(pieces, groups[i].0)
    ensures SubstituteAll(Spell(pieces), groups) == SubstituteAll(Spell(pieces), groups[j..])
    ensures Expected(pieces, groups) == Expected(pieces, groups[j..])
    decreases |groups|
  {
    if j == 0 {
      assert groups[0..] == groups;
    } else {
      UnusedGroup(pieces, groups);
      UnusedGroups(pieces, groups[1..], j - 1);
      assert groups[1..][j - 1..] == groups[j..];
    }
  }

  lemma {:induction false} UnusedNotFilled(pieces: seq<Piece>, groups: Groups)
    requires forall i :: 0 <= i < |groups| ==> Ref(groups[i].0) !in pieces
    ensures Filled(pieces, groups) == pieces
  {
    if pieces != [] {
      assert pieces == [pieces[0]] + pieces[1..];
      UnusedNotFilled(pieces[1..], groups);
      if pieces[0].Ref? {
        LookupNames(groups, pieces[0].name);
      }
    }
  }

  /** Up to the first group that is referred to, a safe target's marks are clear as they stand. */
  lemma SafeClearAsIs(pieces: seq<Piece>, groups: Groups, k: nat)
    requires k < |groups| && GroupNames(NamesOf(groups)) && Safe(pieces, NamesOf(groups))
    requires forall i :: 0 <= i < k ==> Ref(groups[i].0) !in pieces
    ensures GroupName(groups[k].0) && Clear(pieces, groups[k].0)
  {
    assert GroupName(NamesOf(groups)[k]);
    SafeIsClear(pieces, groups, k);
    UnusedNotFilled(pieces, groups[..k]);
  }

  lemma OnlyLastIsRight(pieces: seq<Piece>, groups: Groups)
    requires PlainPieces(pieces) && GroupNames(NamesOf(groups))
    requires Safe(pieces, NamesOf(groups)) && OnlyLastUsed(pieces, NamesOf(groups))
    ensures SubstituteAll(Spell(pieces), groups) == Expected(pieces, groups)
  {
    if groups == [] {
      NothingExpected(pieces);
    } else {
      var last := |groups| - 1;
      forall i | 0 <= i < last
        ensures Ref(groups[i].0) !in pieces
      {
        assert Ref(NamesOf(groups)[i]) !in pieces;
      }
      forall i | 0 <= i <= last
        ensures GroupName(groups[i].0) && Clear(pieces, groups[i].0)
      {
        SafeClearAsIs(pieces, groups, i);
      }
      UnusedGroups(pieces, groups, last);
      OneGroupIsRight(pieces, groups[last]);
      assert groups[last..] == [groups[last]];
    }
  }

  lemma OneGroupIsRight(pieces: seq<Piece>, g: (string, string))
    requires PlainPieces(pieces) && GroupName(g.0) && Clear(pieces, g.0)
    ensures SubstituteAll(Spell(pieces), [g]) == Expected(pieces, [g])
  {
    ReplaceIsPutIn(pieces, g.0, g.1);
    ExpectedPutIn(pieces, [g]);
    NothingExpected(PutIn(pieces, g.0, g.1));
    assert [g][1..] == [];
  }

  // ----- a capture that is itself a mark

  /** The first group's value is the mark of the second, whose value shows it. */
  ghost predicate Passing(groups: Groups) {
    && |groups| >= 2 && GroupName(groups[0].0) && groups[0].0 != groups[1].0
    && groups[0].1 == ":" + groups[1].0 && MarkFirst(groups[1..])
  }

  /** The pieces with references to one group turned into references to another. */
  function Renamed(pieces: seq<Piece>, name: string, other: string): seq<Piece> {
    if pieces == [] then []
    else [if pieces[0] == Ref(name) then Ref(other) else pieces[0]] + Renamed(pieces[1..], name, other)
  }

  lemma {:induction false} RenamedSpells(pieces: seq<Piece>, name: string, other: string)
    requires PlainPieces(pieces) && ':' !in other
    ensures Spell(Renamed(pieces, name, other)) == Spell(PutIn(pieces, name, ":" + other))
    ensures PlainPieces(Renamed(pieces, name, other))
  {
    if pieces != [] {
      var renamed, put := Renamed(pieces[1..], name, other), PutIn(pieces[1..], name, ":" + other);
      RenamedSpells(pieces[1..], name, other);
      var piece := if pieces[0] == Ref(name) then Ref(other) else pieces[0];
      PlainConcat([piece], renamed);
      SpellConcat([piece], renamed);
      assert [piece][1..] == [];
      if pieces[0] == Ref(name) {
        SpellTexts(":" + other, put);
      } else {
        SpellConcat([piece], put);
      }
    }
  }

  function RefsTo(pieces: seq<Piece>, name: string): nat {
    if pieces == [] then 0 else (if pieces[0] == Ref(name) then 1 else 0) + RefsTo(pieces[1..], name)
  }

  lemma {:induction false} RefsToSome(pieces: seq<Piece>, name: string)
    requires Ref(name) in pieces
    ensures RefsTo(pieces, name) > 0
  {
    if pieces[0] != Ref(name) {
      assert pieces == [pieces[0]] + pieces[1..];
      RefsToSome(pieces[1..], name);
    }
  }

  lemma {:induction false} RenamedCounts(pieces: seq<Piece>, name: string, other: string)
    requires GroupName(name) && GroupName(other) && name != other
    ensures Refs(Renamed(pieces, name, other)) == Refs(pieces)
    ensures OtherRefs(Renamed(pieces, name, other), other) + RefsTo(pieces, name) == OtherRefs(pieces, other)
    ensures Marks(Spell(Renamed(pieces, name, other))) == Marks(Spell(pieces))
  {
    if pieces != [] {
      RenamedCounts(pieces[1..], name, other);
      var piece := if pieces[0] == Ref(name) then Ref(other) else pieces[0];
      MarksOfPiece(piece, Renamed(pieces[1..], name, other));
      MarksOfPiece(pieces[0], pieces[1..]);
      assert pieces == [pieces[0]] + pieces[1..];
      NamesAreColonless(name);
      NamesAreColonless(other);
      MarksConcat(":", name);
      MarksConcat(":", other);
      MarksConcat(name, "");
      MarksConcat(other, "");
    }
  }

  lemma MarksOfPiece(piece: Piece, rest: seq<Piece>)
    ensures Marks(Spell([piece] + rest))
            == Marks(if piece.Ref? then ":" + piece.name else [piece.c]) + Marks(Spell(rest))
  {
    assert ([piece] + rest)[1..] == rest;
    MarksConcat(if piece.Ref? then ":" + piece.name else [piece.c], Spell(rest));
  }

  lemma OnePassed(n: string, groups: Groups)
    requires Passing(groups)
    ensures Marks(if Lookup(groups, n).Some? then Lookup(groups, n).value else ":" + n)
            == Marks(":" + n) + if n == groups[1].0 then 1 else 0
  {
    if n == groups[0].0 {
      assert groups[1..][0] == groups[1];
      NamesAreColonless(n);
      NamesAreColonless(groups[1].0);
      MarksConcat(":", n);
      MarksConcat(n, "");
      MarksConcat(":", groups[1].0);
      MarksConcat(groups[1].0, "");
    } else {
      OneExpected(n, groups[1..]);
    }
  }

  lemma {:induction false} ExpectedPassed(pieces: seq<Piece>, groups: Groups)
    requires Passing(groups)
    ensures Marks(Expected(pieces, groups)) + OtherRefs(pieces, groups[1].0) == Marks(Spell(pieces)) + Refs(pieces)
  {
    if pieces != [] {
      var rest := Expected(pieces[1..], groups);
      ExpectedPassed(pieces[1..], groups);
      match pieces[0]
      case Text(c) =>
        MarksConcat([c], rest);
        MarksConcat([c], Spell(pieces[1..]));
      case Ref(n) =>
        OnePassed(n, groups);
        MarksConcat(if Lookup(groups, n).Some? then Lookup(groups, n).value else ":" + n, rest);
        MarksConcat(":" + n, Spell(pieces[1..]));
    }
  }

  /** The value that is itself a mark is substituted once more. */
  lemma PassingDiffers(pieces: seq<Piece>, groups: Groups)
    requires PlainPieces(pieces) && Passing(groups) && Ref(groups[0].0) in pieces && Clear(pieces, groups[0].0)
    ensures SubstituteAll(Spell(pieces), groups) != Expected(pieces, groups)
  {
    var name, other := groups[0].0, groups[1].0;
    assert groups[1..][0] == groups[1];
    NamesAreColonless(other);
    ReplaceIsPutIn(pieces, name, ":" + other);
    RenamedSpells(pieces, name, other);
    RenamedCounts(pieces, name, other);
    RefsToSome(pieces, name);
    UnreadIsOtherIff(Renamed(pieces, name, other), other);
    ResultMarks(Renamed(pieces, name, other), groups[1..]);
    ExpectedPassed(pieces, groups);
  }

  /** Values for groups of which one is the first that is referred to. */
  function Handing(names: seq<string>, j: nat): (groups: Groups)
    requires j + 1 < |names|
    ensures |groups| == |names|
  {
    Chosen(names[..j], "", FILLER)
    + ([(names[j], ":" + names[j + 1])] + ([(names[j + 1], MARK)] + Chosen(names[j + 2..], "", FILLER)))
  }

  lemma HandingShape(names: seq<string>, j: nat)
    requires j + 1 < |names| && GroupNames(names) && DistinctNames(names)
    ensures NamesOf(Handing(names, j)) == names && Passing(Handing(names, j)[j..])
  {
    var tail := [(names[j + 1], MARK)] + Chosen(names[j + 2..], "", FILLER);
    assert Handing(names, j)[j..] == [(names[j], ":" + names[j + 1])] + tail;
    assert Handing(names, j)[j..][1..] == tail;
  }

  lemma HandingCaptures(names: seq<string>, j: nat)
    requires j + 1 < |names| && GroupNames(names)
    ensures AnyCaptures(Handing(names, j))
  {
    assert GroupName(names[j + 1]);
    NamesAreSlashless(names[j + 1]);
    assert AnyCapture(":" + names[j + 1]) && AnyCapture(MARK) && AnyCapture(FILLER);
  }

  lemma NamesAreSlashless(name: string)
    requires GroupName(name)
    ensures '/' !in name
  {
  }

  lemma {:induction false} FirstUsed(pieces: seq<Piece>, names: seq<string>, n: nat) returns (j: nat)
    requires n <= |names| && exists i :: 0 <= i < n && Ref(names[i]) in pieces
    ensures j < n && Ref(names[j]) in pieces && forall i :: 0 <= i < j ==> Ref(names[i]) !in pieces
  {
    if i :| 0 <= i < n - 1 && Ref(names[i]) in pieces {
      j := FirstUsed(pieces, names, n - 1);
    } else {
      j := n - 1;
    }
  }

  lemma UsedEarlierIsWrong(pieces: seq<Piece>, names: seq<string>) returns (groups: Groups)
    requires PlainPieces(pieces) && GroupNames(names) && DistinctNames(names)
    requires Safe(pieces, names) && !OnlyLastUsed(pieces, names)
    ensures NamesOf(groups) == names && AnyCaptures(groups)
    ensures SubstituteAll(Spell(pieces), groups) != Expected(pieces, groups)
  {
    var j := FirstUsed(pieces, names, |names| - 1);
    groups := Handing(names, j);
    HandingShape(names, j);
    HandingCaptures(names, j);
    forall i | 0 <= i < |groups|
      ensures groups[i].0 == names[i]
    {
      assert NamesOf(groups)[i] == names[i];
    }
    forall i | 0 <= i <= j
      ensures GroupName(groups[i].0) && Clear(pieces, groups[i].0)
    {
      SafeClearAsIs(pieces, groups, i);
    }
    UnusedGroups(pieces, groups, j);
    assert groups[j..][0] == groups[j];
    PassingDiffers(pieces, groups[j..]);
  }

  /** Substitution is right for everything that the groups can capture if and only if no group's mark
      can be read in the wrong place, and no group but the last is referred to: what an earlier one
      captures can itself be a later one's mark. */
  lemma AnySubstitutionRightIff(pieces: seq<Piece>, names: seq<string>)
    requires PlainPieces(pieces) && GroupNames(names) && DistinctNames(names)
    ensures AlwaysRightForAny(pieces, names) <==> Safe(pieces, names) && OnlyLastUsed(pieces, names)
  {
    if !Safe(pieces, names) {
      var groups := UnsafeIsWrong(pieces, names);
      assert AnyCaptures(groups);
    } else if !OnlyLastUsed(pieces, names) {
      var groups := UsedEarlierIsWrong(pieces, names);
    } else {
      forall groups: Groups | NamesOf(groups) == names && AnyCaptures(groups)
        ensures SubstituteAll(Spell(pieces), groups) == Expected(pieces, groups)
      {
        OnlyLastIsRight(pieces, groups);
      }
    }
  }

  // ----- the star group

  /** Every star of a target stands for the captured text. */
  function StarsFilled(target: string, value: string): string {
    if target == "" then "" else (if target[0] == '*' then value else [target[0]]) + StarsFilled(target[1..], value)
  }

  /** A rule with a star has no other group, and its substitution is right for every capture. */
  lemma {:induction false} StarSubstitution(target: string, value: string)
    ensures SubstituteAll(target, [("wildcard", value)]) == StarsFilled(target, value)
  {
    StarReplaced(target, value);
    assert [("wildcard", value)][1..] == [];
  }

  lemma {:induction false} StarReplaced(target: string, value: string)
    ensures Replace(target, "*", value) == StarsFilled(target, value)
  {
    if target != "" {
      assert "*" <= target <==> target[0] == '*';
      StarReplaced(target[1..], value);
    }
  }
}
