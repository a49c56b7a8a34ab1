/** Importing redirect rules (syte/main.py, `api_import_project_redirects`). */
module RedirectImport {
  import opened Wrappers
  import opened RedirectStore
  import opened RedirectPattern
  import RedirectEngine
  import Domains

  /** One entry of the request; `code` is None when `int` cannot read the status code. */
  datatype Incoming = Incoming(source: string, target: string, code: Option<int>, active: bool, preserveQuery: bool)

  datatype Refusal = NoSource | NoTarget | Duplicate

  /** The store and the loop's variables; `raised` ends the loop. */
  datatype Progress = Progress(rows: Table, seen: set<string>, imported: nat, errors: seq<(nat, Refusal)>, raised: bool)

  function WithSlash(s: string): string {
    if s != "" && s[0] == '/' then s else "/" + s
  }

  function LStripSlashes(s: string): (r: string)
    ensures r == "" || r[0] != '/'
    ensures s == "" || s[0] != '/' ==> r == s
    ensures |r| <= |s| && (s != "" && s[0] == '/' ==> |r| < |s|)
  {
    if s != "" && s[0] == '/' then LStripSlashes(s[1..]) else s
  }

  /** How create_project_redirect stores a source path. */
  function CleanSource(s: string): string {
    "/" + LStripSlashes(Domains.Strip(s))
  }

  /** A source path as the import loop looks it up. */
  function Spelling(rule: Incoming): string {
    WithSlash(Domains.Strip(rule.source))
  }

  function Refused(rule: Incoming, seen: set<string>): Option<Refusal> {
    if Domains.Strip(rule.source) == "" then Some(NoSource)
    else if Domains.Strip(rule.target) == "" then Some(NoTarget)
    else if Domains.Lower(Spelling(rule)) in seen then Some(Duplicate)
    else None
  }

  function Stored(rule: Incoming, id: RuleId): RedirectEngine.Rule {
    RedirectEngine.Rule(id, CleanSource(Spelling(rule)), Domains.Strip(Domains.Strip(rule.target)),
                        rule.active, false, true, rule.preserveQuery)
  }

  /** One turn of the loop, with the number of the rule. */
  function Turn(s: Progress, p: ProjectId, rule: Incoming, number: nat, id: RuleId, now: int): Progress {
    var refusal := Refused(rule, s.seen);
    if s.raised then s
    else if refusal.Some? then s.(errors := s.errors + [(number, refusal.value)])
    else if rule.code.None? then s.(raised := true)
    else s.(rows := Created(s.rows, p, id, now, Stored(rule, id)),
            seen := s.seen + {Domains.Lower(Spelling(rule))}, imported := s.imported + 1)
  }

  function LowerSources(rows: Table, p: ProjectId): set<string> {
    set i | 0 <= i < |rows| && rows[i].project == p :: Domains.Lower(rows[i].rule.source)
  }

  function After(rows: Table, p: ProjectId, rules: seq<Incoming>, uuid: nat -> RuleId, now: int): Progress {
    if rules == [] then Progress(rows, LowerSources(rows, p), 0, [], false)
    else
      var n := |rules| - 1;
      Turn(After(rows, p, rules[..n], uuid, now), p, rules[n], n + 1, uuid(n), now)
  }

  /** The ids handed out from some turn on are new. */
  ghost predicate NewIds(rows: Table, uuid: nat -> RuleId, from: nat) {
    && (forall i, k :: 0 <= i < |rows| && from <= k ==> rows[i].id != uuid(k))
    && (forall k, l :: 0 <= k < l ==> uuid(k) != uuid(l))
  }

  /** The later rows are the earlier ones with rules of one project added, which its listing shows
      last and in this order; the other listings are the same. */
  ghost predicate Appended(rows: Table, rows': Table, p: ProjectId) {
    && rows <= rows' && Good(rows')
    && Listing(rows', p) == Listing(rows, p) + rows'[|rows|..]
    && forall q :: q != p ==> Listing(rows', q) == Listing(rows, q)
  }

  lemma CreateAppends(rows: Table, mid: Table, p: ProjectId, id: RuleId, now: int, rule: RedirectEngine.Rule)
    requires Appended(rows, mid, p) && forall r :: r in mid ==> r.id != id
    ensures Appended(rows, Created(mid, p, id, now, rule), p)
  {
    var rows' := Created(mid, p, id, now, rule);
    CreateKeepsGood(mid, p, id, now, rule);
    CreateGoesLast(mid, p, id, now, rule);
    forall q | q != p
      ensures Listing(rows', q) == Listing(rows, q)
    {
      CreateLeavesOthers(mid, p, id, now, rule, q);
    }
    assert rows'[|rows|..] == mid[|rows|..] + [rows'[|mid|]];
  }

  lemma TurnAppends(rows: Table, s: Progress, p: ProjectId, rule: Incoming, number: nat, id: RuleId, now: int)
    requires Appended(rows, s.rows, p) && forall r :: r in s.rows ==> r.id != id
    ensures Appended(rows, Turn(s, p, rule, number, id, now).rows, p)
  {
    CreateAppends(rows, s.rows, p, id, now, Stored(rule, id));
  }

  lemma NothingAppended(rows: Table, p: ProjectId)
    requires Good(rows)
    ensures Appended(rows, rows, p)
  {
    assert rows[|rows|..] == [];
  }

  /** Only ids that have been handed out are used. */
  lemma {:induction false} LaterIdsStayNew(rows: Table, p: ProjectId, rules: seq<Incoming>, uuid: nat -> RuleId,
                                           now: int)
    requires NewIds(rows, uuid, 0)
    ensures NewIds(After(rows, p, rules, uuid, now).rows, uuid, |rules|)
  {
    if rules != [] {
      LaterIdsStayNew(rows, p, rules[..|rules| - 1], uuid, now);
    }
  }

  /** An import appends to the project's listing, in the order of the request, and changes nothing
      else, even when it raises halfway. */
  lemma {:induction false} ImportAppends(rows: Table, p: ProjectId, rules: seq<Incoming>, uuid: nat -> RuleId, now: int)
    requires Good(rows) && NewIds(rows, uuid, 0)
    ensures Appended(rows, After(rows, p, rules, uuid, now).rows, p)
  {
    if rules == [] {
      NothingAppended(rows, p);
    } else {
      var k := |rules| - 1;
      var s := After(rows, p, rules[..k], uuid, now);
      LaterIdsStayNew(rows, p, rules[..k], uuid, now);
      ImportAppends(rows, p, rules[..k], uuid, now);
      TurnAppends(rows, s, p, rules[k], k + 1, uuid(k), now);
    }
  }

  /** The numbered rule was refused for this reason when its turn came. */
  ghost predicate RightlyRefused(rows: Table, p: ProjectId, rules: seq<Incoming>, uuid: nat -> RuleId, now: int,
                                 error: (nat, Refusal)) {
    && 1 <= error.0 <= |rules|
    && IsReason(rules[error.0 - 1], After(rows, p, rules[..error.0 - 1], uuid, now).seen, error.1)
  }

  /** What each reason means. */
  predicate IsReason(rule: Incoming, seen: set<string>, why: Refusal) {
    match why
    case NoSource => Domains.Strip(rule.source) == ""
    case NoTarget => Domains.Strip(rule.source) != "" && Domains.Strip(rule.target) == ""
    case Duplicate =>
      && Domains.Strip(rule.source) != "" && Domains.Strip(rule.target) != ""
      && Domains.Lower(Spelling(rule)) in seen
  }

  lemma StillRefused(rows: Table, p: ProjectId, rules: seq<Incoming>, uuid: nat -> RuleId, now: int,
                     error: (nat, Refusal))
    requires rules != [] && RightlyRefused(rows, p, rules[..|rules| - 1], uuid, now, error)
    ensures RightlyRefused(rows, p, rules, uuid, now, error)
  {
    assert rules[..|rules| - 1][..error.0 - 1] == rules[..error.0 - 1];
  }

  /** Every rule that is reached is either stored or refused with its number and for its own reason. */
  lemma {:induction false} EveryRuleAccountedFor(rows: Table, p: ProjectId, rules: seq<Incoming>, uuid: nat -> RuleId,
                                                 now: int)
    ensures var s := After(rows, p, rules, uuid, now);
      && |s.rows| == |rows| + s.imported
      && (if s.raised then s.imported + |s.errors| < |rules| else s.imported + |s.errors| == |rules|)
      && (forall i, j :: 0 <= i < j < |s.errors| ==> s.errors[i].0 < s.errors[j].0)
      && (forall i :: 0 <= i < |s.errors| ==> RightlyRefused(rows, p, rules, uuid, now, s.errors[i]))
  {
    if rules != [] {
      var front := rules[..|rules| - 1];
      EveryRuleAccountedFor(rows, p, front, uuid, now);
      var before := After(rows, p, front, uuid, now);
      forall i | 0 <= i < |before.errors|
        ensures RightlyRefused(rows, p, rules, uuid, now, before.errors[i])
      {
        StillRefused(rows, p, rules, uuid, now, before.errors[i]);
      }
    }
  }

  /** Every rule is accounted for; or the one after those that are has a source and a target, but no
      readable code. */
  ghost predicate RaisedRightly(s: Progress, rules: seq<Incoming>) {
    if !s.raised then s.imported + |s.errors| == |rules|
    else
      && s.imported + |s.errors| < |rules|
      && var last := rules[s.imported + |s.errors|];
         last.code == None && Domains.Strip(last.source) != "" && Domains.Strip(last.target) != ""
  }

  lemma TurnRaisesRightly(s: Progress, p: ProjectId, front: seq<Incoming>, rule: Incoming, number: nat, id: RuleId,
                          now: int)
    requires RaisedRightly(s, front)
    ensures RaisedRightly(Turn(s, p, rule, number, id, now), front + [rule])
  {
  }

  /** What raises is the rule after those accounted for. */
  lemma {:induction false} RaisesAtUnreadable(rows: Table, p: ProjectId, rules: seq<Incoming>, uuid: nat -> RuleId,
                                              now: int)
    ensures RaisedRightly(After(rows, p, rules, uuid, now), rules)
  {
    if rules != [] {
      var n := |rules| - 1;
      RaisesAtUnreadable(rows, p, rules[..n], uuid, now);
      TurnRaisesRightly(After(rows, p, rules[..n], uuid, now), p, rules[..n], rules[n], n + 1, uuid(n), now);
      assert rules == rules[..n] + [rules[n]];
    }
  }

  /** How a rule of the request appears in the store. */
  ghost predicate IsStoredAs(row: Row, p: ProjectId, rule: Incoming, id: RuleId, now: int) {
    && row.project == p && row.id == id && row.created == now
    && row.rule.id == id
    && row.rule.source == CleanSource(Spelling(rule))
    && row.rule.target == Domains.Strip(rule.target)
    && row.rule.active == rule.active && row.rule.preserveQuery == rule.preserveQuery
    && !row.rule.caseSensitive && row.rule.ignoreSlash
  }

  ghost predicate FromRequest(row: Row, p: ProjectId, rules: seq<Incoming>, uuid: nat -> RuleId, now: int) {
    exists k :: 0 <= k < |rules| && IsStoredAs(row, p, rules[k], uuid(k), now)
  }

  lemma StillFromRequest(row: Row, p: ProjectId, rules: seq<Incoming>, uuid: nat -> RuleId, now: int)
    requires rules != [] && FromRequest(row, p, rules[..|rules| - 1], uuid, now)
    ensures FromRequest(row, p, rules, uuid, now)
  {
    var k :| 0 <= k < |rules| - 1 && IsStoredAs(row, p, rules[..|rules| - 1][k], uuid(k), now);
    assert rules[..|rules| - 1][k] == rules[k];
  }

  lemma TurnStoresRule(s: Progress, p: ProjectId, rule: Incoming, number: nat, id: RuleId, now: int)
    ensures var s' := Turn(s, p, rule, number, id, now);
      s'.rows == s.rows ||
      (|s'.rows| == |s.rows| + 1 && s.rows <= s'.rows && IsStoredAs(s'.rows[|s.rows|], p, rule, id, now))
  {
    Domains.StripTrims(rule.target);
    Domains.StripTrims(Domains.Strip(rule.target));
  }

  /** Every row that an import adds is a rule of the request, with its target, activity and query flag;
      it ignores case and trailing slashes. */
  lemma {:induction false} AddedAreRequested(rows: Table, p: ProjectId, rules: seq<Incoming>, uuid: nat -> RuleId,
                                             now: int, i: nat)
    requires |rows| <= i < |After(rows, p, rules, uuid, now).rows|
    ensures FromRequest(After(rows, p, rules, uuid, now).rows[i], p, rules, uuid, now)
  {
    if rules != [] {
      var k := |rules| - 1;
      var s := After(rows, p, rules[..k], uuid, now);
      TurnStoresRule(s, p, rules[k], k + 1, uuid(k), now);
      if i < |s.rows| {
        AddedAreRequested(rows, p, rules[..k], uuid, now, i);
        StillFromRequest(s.rows[i], p, rules, uuid, now);
      }
    }
  }

  // ----- duplicates

  predicate DoubleSlash(s: string) {
    |s| > 1 && s[0] == '/' && s[1] == '/'
  }

  /** A path that starts with one slash and has no white space around it is stored as it is. */
  lemma StoredAsSpelledIff(s: string)
    requires Domains.Trimmed(s) && s != "" && s[0] == '/'
    ensures CleanSource(s) == s <==> !DoubleSlash(s)
  {
    Domains.StripTrims(s);
    assert s == [s[0]] + s[1..];
  }

  /** The stored path is the trimmed path with its leading slashes, if any, merged into one. */
  lemma {:induction false} CleanSourceIs(s: string)
    ensures var clean, t := CleanSource(s), Domains.Strip(s);
      && clean != "" && clean[0] == '/' && !DoubleSlash(clean)
      && |clean| - 1 <= |t| && t[|t| - (|clean| - 1)..] == clean[1..]
      && forall i :: 0 <= i < |t| - (|clean| - 1) ==> t[i] == '/'
  {
    StrippedSlashes(Domains.Strip(s));
  }

  lemma {:induction false} StrippedSlashes(t: string)
    ensures var r := LStripSlashes(t);
      t[|t| - |r|..] == r && forall i :: 0 <= i < |t| - |r| ==> t[i] == '/'
  {
    if t != "" && t[0] == '/' {
      StrippedSlashes(t[1..]);
    }
  }

  lemma SpellingIsTrimmed(rule: Incoming)
    requires Domains.Strip(rule.source) != ""
    ensures Domains.Trimmed(Spelling(rule)) && Spelling(rule) != "" && Spelling(rule)[0] == '/'
    ensures var s := Domains.Strip(rule.source); Spelling(rule) == if s[0] == '/' then s else "/" + s
  {
    Domains.StripTrims(rule.source);
  }

  /** Is the path that would be stored new to these (lower-case) sources? */
  predicate IsNew(rule: Incoming, sources: set<string>) {
    Domains.Lower(CleanSource(Spelling(rule))) !in sources
  }

  /** The look-up decides rightly whether the path to be stored is new, for every set of stored
      sources, exactly when the path does not start with two slashes: it is looked up as spelled, but
      stored with its leading slashes merged into one. */
  lemma LookUpRightIff(rule: Incoming)
    requires Domains.Strip(rule.source) != "" && Domains.Strip(rule.target) != ""
    ensures (forall sources :: Refused(rule, sources).None? <==> IsNew(rule, sources)) <==> !DoubleSlash(Spelling(rule))
  {
    SpellingIsTrimmed(rule);
    StoredAsSpelledIff(Spelling(rule));
    if DoubleSlash(Spelling(rule)) {
      var sources := {Domains.Lower(CleanSource(Spelling(rule)))};
      Domains.StripTrims(Spelling(rule));
      Domains.LowerIsLower(Spelling(rule));
      Domains.LowerIsLower(CleanSource(Spelling(rule)));
      assert |CleanSource(Spelling(rule))| < |Spelling(rule)| by {
        var t := Spelling(rule);
        assert LStripSlashes(t) == LStripSlashes(t[1..]);
      }
      assert Refused(rule, sources).None? && !IsNew(rule, sources);
    }
  }

  ghost predicate DistinctSources(rows: Table, p: ProjectId) {
    forall i, j :: 0 <= i < j < |rows| && rows[i].project == p && rows[j].project == p ==>
      Domains.Lower(rows[i].rule.source) != Domains.Lower(rows[j].rule.source)
  }

  /** What has been seen is what the store holds, and it holds nothing twice. */
  ghost predicate SeenIsStored(s: Progress, p: ProjectId) {
    && DistinctSources(s.rows, p)
    && (forall i :: 0 <= i < |s.rows| && s.rows[i].project == p ==> Domains.Lower(s.rows[i].rule.source) in s.seen)
    && (forall x :: x in s.seen ==> Holds(s.rows, p, x))
  }

  ghost predicate Holds(rows: Table, p: ProjectId, x: string) {
    exists i :: 0 <= i < |rows| && rows[i].project == p && Domains.Lower(rows[i].rule.source) == x
  }

  lemma HoldsMore(rows: Table, p: ProjectId, x: string, row: Row)
    requires Holds(rows, p, x) || (row.project == p && Domains.Lower(row.rule.source) == x)
    ensures Holds(rows + [row], p, x)
  {
    if Holds(rows, p, x) {
      var i :| 0 <= i < |rows| && rows[i].project == p && Domains.Lower(rows[i].rule.source) == x;
      assert (rows + [row])[i] == rows[i];
    } else {
      assert (rows + [row])[|rows|] == row;
    }
  }

  /** The rule is not refused for want of a source or a target. */
  predicate Complete(rule: Incoming) {
    Domains.Strip(rule.source) != "" && Domains.Strip(rule.target) != ""
  }

  /** The rule ends the import, unless it is passed over as a duplicate. */
  predicate Unreadable(rule: Incoming) {
    Complete(rule) && rule.code.None?
  }

  /** The rule is complete and readable, and no earlier rule of the same spelling stands in its way:
      an unreadable one either ends the import, or is a duplicate, and then so is this one. */
  predicate Storable(rules: seq<Incoming>, k: nat)
    requires k < |rules|
  {
    && Complete(rules[k]) && rules[k].code.Some?
    && forall j :: 0 <= j < k && Unreadable(rules[j]) ==>
         Domains.Lower(Spelling(rules[j])) != Domains.Lower(Spelling(rules[k]))
  }

  /** No rule that can be stored starts with two slashes. */
  ghost predicate NoDoubleSlashes(rules: seq<Incoming>) {
    forall k :: 0 <= k < |rules| && Storable(rules, k) ==> !DoubleSlash(Spelling(rules[k]))
  }

  lemma FewerDoubleSlashes(rules: seq<Incoming>, k: nat)
    requires NoDoubleSlashes(rules) && k <= |rules|
    ensures NoDoubleSlashes(rules[..k])
  {
    forall i | 0 <= i < k && Storable(rules[..k], i)
      ensures !DoubleSlash(Spelling(rules[..k][i]))
    {
      assert Storable(rules, i) by {
        assert forall j :: 0 <= j < i ==> rules[..k][j] == rules[j];
      }
    }
  }

  /** Does this turn store the rule? */
  predicate Stores(s: Progress, rule: Incoming) {
    !s.raised && Refused(rule, s.seen).None? && rule.code.Some?
  }

  lemma TurnKeepsSeen(s: Progress, p: ProjectId, rule: Incoming, number: nat, id: RuleId, now: int)
    requires SeenIsStored(s, p) && (Stores(s, rule) ==> !DoubleSlash(Spelling(rule)))
    ensures SeenIsStored(Turn(s, p, rule, number, id, now), p)
  {
    if Stores(s, rule) {
      var s' := Turn(s, p, rule, number, id, now);
      SpellingIsTrimmed(rule);
      StoredAsSpelledIff(Spelling(rule));
      var row := s'.rows[|s.rows|];
      assert row.rule.source == Spelling(rule) && s'.rows == s.rows + [row];
      forall x | x in s'.seen
        ensures Holds(s'.rows, p, x)
      {
        HoldsMore(s.rows, p, x, row);
      }
    }
  }

  ghost predicate AllSeen(rules: seq<Incoming>, seen: set<string>) {
    forall j :: 0 <= j < |rules| && Unreadable(rules[j]) ==> Domains.Lower(Spelling(rules[j])) in seen
  }

  lemma TurnSees(s: Progress, p: ProjectId, rule: Incoming, number: nat, id: RuleId, now: int)
    ensures s.seen <= Turn(s, p, rule, number, id, now).seen
    ensures !Turn(s, p, rule, number, id, now).raised && Unreadable(rule) ==> Domains.Lower(Spelling(rule)) in s.seen
  {
  }

  lemma AllSeenSnoc(front: seq<Incoming>, last: Incoming, seen: set<string>)
    requires AllSeen(front, seen) && (Unreadable(last) ==> Domains.Lower(Spelling(last)) in seen)
    ensures AllSeen(front + [last], seen)
  {
  }

  /** An import that has not raised has seen the spelling of every unreadable rule. */
  lemma {:induction false} PassedAreSeen(rows: Table, p: ProjectId, rules: seq<Incoming>, uuid: nat -> RuleId, now: int)
    requires !After(rows, p, rules, uuid, now).raised
    ensures AllSeen(rules, After(rows, p, rules, uuid, now).seen)
  {
    if rules != [] {
      var k := |rules| - 1;
      PassedAreSeen(rows, p, rules[..k], uuid, now);
      TurnSees(After(rows, p, rules[..k], uuid, now), p, rules[k], k + 1, uuid(k), now);
      AllSeenSnoc(rules[..k], rules[k], After(rows, p, rules, uuid, now).seen);
      assert rules == rules[..k] + [rules[k]];
    }
  }

  lemma StoresOnlyStorable(rows: Table, p: ProjectId, rules: seq<Incoming>, uuid: nat -> RuleId, now: int, k: nat)
    requires k < |rules| && Stores(After(rows, p, rules[..k], uuid, now), rules[k])
    ensures Storable(rules, k)
  {
    PassedAreSeen(rows, p, rules[..k], uuid, now);
    forall j | 0 <= j < k && Unreadable(rules[j])
      ensures Domains.Lower(Spelling(rules[j])) != Domains.Lower(Spelling(rules[k]))
    {
      assert rules[..k][j] == rules[j];
    }
  }

  /** So an import without such paths never stores a source twice, whatever else it is given. */
  lemma {:induction false} ImportKeepsSourcesDistinct(rows: Table, p: ProjectId, rules: seq<Incoming>,
                                                      uuid: nat -> RuleId, now: int)
    requires DistinctSources(rows, p) && NoDoubleSlashes(rules)
    ensures SeenIsStored(After(rows, p, rules, uuid, now), p)
  {
    if rules != [] {
      var k := |rules| - 1;
      FewerDoubleSlashes(rules, k);
      ImportKeepsSourcesDistinct(rows, p, rules[..k], uuid, now);
      if Stores(After(rows, p, rules[..k], uuid, now), rules[k]) {
        StoresOnlyStorable(rows, p, rules, uuid, now, k);
      }
      TurnKeepsSeen(After(rows, p, rules[..k], uuid, now), p, rules[k], k + 1, uuid(k), now);
    }
  }

  lemma LowerKeepsSlashes(s: string)
    ensures DoubleSlash(Domains.Lower(s)) <==> DoubleSlash(s)
  {
    Domains.LowerIsLower(s);
    if |s| > 1 {
      assert Domains.Lower(s)[0] == Domains.LowerChar(s[0]) && Domains.Lower(s)[1] == Domains.LowerChar(s[1]);
    }
  }

  /** A spelling with two slashes that is not yet stored, and that no unreadable rule has, stays unseen
      as long as no rule with two slashes can be stored. */
  lemma {:induction false} StaysUnseen(rows: Table, p: ProjectId, rules: seq<Incoming>, uuid: nat -> RuleId, now: int,
                                       x: string)
    requires NoDoubleSlashes(rules) && DoubleSlash(x) && x !in LowerSources(rows, p)
    ensures x !in After(rows, p, rules, uuid, now).seen
  {
    if rules != [] {
      var k := |rules| - 1;
      FewerDoubleSlashes(rules, k);
      StaysUnseen(rows, p, rules[..k], uuid, now, x);
      if Stores(After(rows, p, rules[..k], uuid, now), rules[k]) {
        StoresOnlyStorable(rows, p, rules, uuid, now, k);
        LowerKeepsSlashes(Spelling(rules[k]));
      }
    }
  }

  lemma TurnKeepsRows(s: Progress, p: ProjectId, rule: Incoming, number: nat, id: RuleId, now: int)
    ensures s.rows <= Turn(s, p, rule, number, id, now).rows
  {
  }

  lemma PrefixTransitive(a: Table, b: Table, c: Table)
    requires a <= b && b <= c
    ensures a <= c
  {
  }

  lemma LastKeepsRows(rows: Table, p: ProjectId, rules: seq<Incoming>, uuid: nat -> RuleId, now: int)
    requires rules != []
    ensures After(rows, p, rules[..|rules| - 1], uuid, now).rows <= After(rows, p, rules, uuid, now).rows
  {
    var last := |rules| - 1;
    TurnKeepsRows(After(rows, p, rules[..last], uuid, now), p, rules[last], last + 1, uuid(last), now);
  }

  lemma {:induction false} ImportKeepsRows(rows: Table, p: ProjectId, rules: seq<Incoming>, uuid: nat -> RuleId,
                                           now: int, k: nat)
    requires k <= |rules|
    ensures After(rows, p, rules[..k], uuid, now).rows <= After(rows, p, rules, uuid, now).rows
  {
    if k < |rules| {
      var front := rules[..|rules| - 1];
      assert front[..k] == rules[..k];
      ImportKeepsRows(rows, p, front, uuid, now, k);
      LastKeepsRows(rows, p, rules, uuid, now);
      PrefixTransitive(After(rows, p, front[..k], uuid, now).rows, After(rows, p, front, uuid, now).rows,
                       After(rows, p, rules, uuid, now).rows);
    } else {
      assert rules[..k] == rules;
    }
  }

  /** When the store holds the spelling of every unreadable rule, every one of them is a duplicate, and
      the import does not raise. */
  lemma {:induction false} GuardedNeverRaises(rows: Table, p: ProjectId, rules: seq<Incoming>,
                                              uuid: nat -> RuleId, now: int)
    requires AllSeen(rules, LowerSources(rows, p))
    ensures !After(rows, p, rules, uuid, now).raised
    ensures LowerSources(rows, p) <= After(rows, p, rules, uuid, now).seen
  {
    if rules != [] {
      GuardedNeverRaises(rows, p, rules[..|rules| - 1], uuid, now);
    }
  }

  function RowOf(p: ProjectId, source: string): Row {
    Row(0, p, 1, 0, RedirectEngine.Rule(0, source, "", true, false, true, true))
  }

  lemma MoreSources(rows: Table, p: ProjectId, source: string)
    ensures LowerSources(rows + [RowOf(p, source)], p) == LowerSources(rows, p) + {Domains.Lower(source)}
    ensures DistinctSources(rows, p) && Domains.Lower(source) !in LowerSources(rows, p) ==>
      DistinctSources(rows + [RowOf(p, source)], p)
  {
    var rows' := rows + [RowOf(p, source)];
    assert rows'[|rows|] == RowOf(p, source);
    forall x | x in LowerSources(rows, p)
      ensures x in LowerSources(rows', p)
    {
      var i :| 0 <= i < |rows| && rows[i].project == p && x == Domains.Lower(rows[i].rule.source);
      assert rows'[i] == rows[i];
    }
    assert Domains.Lower(rows'[|rows|].rule.source) in LowerSources(rows', p);
  }

  /** A store with a given first source that holds the spelling of every unreadable rule, and nothing
      else. */
  ghost predicate Guards(rows: Table, p: ProjectId, first: string, rules: seq<Incoming>) {
    && rows != [] && rows[0] == RowOf(p, first)
    && DistinctSources(rows, p) && AllSeen(rules, LowerSources(rows, p))
    && forall x :: x in LowerSources(rows, p) ==> x == Domains.Lower(first) || SpelledUnreadable(rules, x)
  }

  lemma NothingToGuard(p: ProjectId, first: string)
    ensures Guards([] + [RowOf(p, first)], p, first, [])
  {
    MoreSources([], p, first);
  }

  lemma NextGuarded(rows: Table, p: ProjectId, first: string, front: seq<Incoming>, last: Incoming)
    requires Guards(rows, p, first, front)
    requires Unreadable(last) ==> Domains.Lower(Spelling(last)) in LowerSources(rows, p)
    ensures Guards(rows, p, first, front + [last])
  {
    AllSeenSnoc(front, last, LowerSources(rows, p));
    forall x | SpelledUnreadable(front, x)
      ensures SpelledUnreadable(front + [last], x)
    {
      SpelledMore(front, last, x);
    }
  }

  lemma GuardAdded(rows: Table, p: ProjectId, first: string, front: seq<Incoming>, last: Incoming)
    requires Guards(rows, p, first, front) && Unreadable(last)
    requires Domains.Lower(Spelling(last)) !in LowerSources(rows, p)
    ensures Guards(rows + [RowOf(p, Spelling(last))], p, first, front + [last])
  {
    var rows' := rows + [RowOf(p, Spelling(last))];
    MoreSources(rows, p, Spelling(last));
    AllSeenSnoc(front, last, LowerSources(rows', p));
    assert (front + [last])[|front|] == last;
    forall x | x in LowerSources(rows', p)
      ensures x == Domains.Lower(first) || SpelledUnreadable(front + [last], x)
    {
      if SpelledUnreadable(front, x) {
        SpelledMore(front, last, x);
      }
    }
  }

  lemma {:induction false} GuardingStore(p: ProjectId, first: string, rules: seq<Incoming>) returns (rows: Table)
    ensures Guards(rows, p, first, rules)
  {
    if rules == [] {
      rows := [] + [RowOf(p, first)];
      NothingToGuard(p, first);
    } else {
      var front, last := rules[..|rules| - 1], rules[|rules| - 1];
      assert rules == front + [last];
      rows := GuardingStore(p, first, front);
      if Unreadable(last) && Domains.Lower(Spelling(last)) !in LowerSources(rows, p) {
        GuardAdded(rows, p, first, front, last);
        rows := rows + [RowOf(p, Spelling(last))];
      } else {
        NextGuarded(rows, p, first, front, last);
      }
    }
  }

  ghost predicate SpelledUnreadable(rules: seq<Incoming>, x: string) {
    exists j :: 0 <= j < |rules| && Unreadable(rules[j]) && Domains.Lower(Spelling(rules[j])) == x
  }

  lemma SpelledMore(front: seq<Incoming>, last: Incoming, x: string)
    requires SpelledUnreadable(front, x)
    ensures SpelledUnreadable(front + [last], x)
  {
    var j :| 0 <= j < |front| && Unreadable(front[j]) && Domains.Lower(Spelling(front[j])) == x;
    assert (front + [last])[j] == front[j];
  }

  ghost predicate AlwaysKeepsDistinct(p: ProjectId, rules: seq<Incoming>, uuid: nat -> RuleId, now: int) {
    forall rows: Table :: DistinctSources(rows, p) ==> DistinctSources(After(rows, p, rules, uuid, now).rows, p)
  }

  /** The first rule with two slashes that can be stored. */
  lemma {:induction false} FirstDoubleSlash(rules: seq<Incoming>) returns (k: nat)
    requires !NoDoubleSlashes(rules)
    ensures k < |rules| && Storable(rules, k) && DoubleSlash(Spelling(rules[k])) && NoDoubleSlashes(rules[..k])
  {
    var front, last := rules[..|rules| - 1], |rules| - 1;
    if !NoDoubleSlashes(front) {
      k := FirstDoubleSlash(front);
      assert front[..k] == rules[..k];
      assert forall j :: 0 <= j <= k ==> front[j] == rules[j];
    } else {
      k := last;
      OneMoreRule(rules);
    }
  }

  lemma OneMoreRule(rules: seq<Incoming>)
    requires rules != [] && NoDoubleSlashes(rules[..|rules| - 1])
    ensures (Storable(rules, |rules| - 1) ==> !DoubleSlash(Spelling(rules[|rules| - 1]))) ==> NoDoubleSlashes(rules)
  {
    var front := rules[..|rules| - 1];
    forall i | 0 <= i < |front| && Storable(rules, i)
      ensures !DoubleSlash(Spelling(rules[i]))
    {
      assert forall j :: 0 <= j <= i ==> front[j] == rules[j];
      assert Storable(front, i);
    }
  }

  /** Given a store that holds the merged path already, and makes every unreadable rule a duplicate,
      the path is stored once more. */
  lemma DoubleSlashRepeats(p: ProjectId, rules: seq<Incoming>, uuid: nat -> RuleId, now: int, k: nat)
    returns (rows: Table)
    requires k < |rules| && Storable(rules, k) && DoubleSlash(Spelling(rules[k])) && NoDoubleSlashes(rules[..k])
    ensures DistinctSources(rows, p) && !DistinctSources(After(rows, p, rules, uuid, now).rows, p)
  {
    var x := Domains.Lower(Spelling(rules[k]));
    rows := GuardingStore(p, CleanSource(Spelling(rules[k])), rules[..k]);
    NotAmongGuards(rules, k, LowerSources(rows, p));
    StaysUnseen(rows, p, rules[..k], uuid, now, x);
    GuardedNeverRaises(rows, p, rules[..k], uuid, now);
    StoredAgain(rows, p, rules, uuid, now, k);
  }

  lemma NotAmongGuards(rules: seq<Incoming>, k: nat, sources: set<string>)
    requires k < |rules| && Storable(rules, k) && DoubleSlash(Spelling(rules[k]))
    requires forall x :: x in sources ==>
      x == Domains.Lower(CleanSource(Spelling(rules[k]))) || SpelledUnreadable(rules[..k], x)
    ensures Domains.Lower(Spelling(rules[k])) !in sources && DoubleSlash(Domains.Lower(Spelling(rules[k])))
  {
    LowerKeepsSlashes(Spelling(rules[k]));
    LowerKeepsSlashes(CleanSource(Spelling(rules[k])));
    forall j | 0 <= j < k && Unreadable(rules[..k][j])
      ensures Domains.Lower(Spelling(rules[..k][j])) != Domains.Lower(Spelling(rules[k]))
    {
      assert rules[..k][j] == rules[j];
    }
  }

  /** The turn that stores a rule adds a row with its clean source. */
  lemma TurnStores(s: Progress, p: ProjectId, rule: Incoming, number: nat, id: RuleId, now: int)
    requires Stores(s, rule)
    ensures var s' := Turn(s, p, rule, number, id, now);
      && |s'.rows| == |s.rows| + 1 && s.rows <= s'.rows
      && s'.rows[|s.rows|].project == p && s'.rows[|s.rows|].rule.source == CleanSource(Spelling(rule))
  {
  }

  lemma FirstRowStays(rows: Table, p: ProjectId, rules: seq<Incoming>, uuid: nat -> RuleId, now: int)
    requires rows != []
    ensures After(rows, p, rules, uuid, now).rows != [] && After(rows, p, rules, uuid, now).rows[0] == rows[0]
  {
    assert rules[..0] == [];
    ImportKeepsRows(rows, p, rules, uuid, now, 0);
  }

  /** When its turn comes, the rule is stored as the first row is. */
  lemma StoredAgain(rows: Table, p: ProjectId, rules: seq<Incoming>, uuid: nat -> RuleId, now: int, k: nat)
    requires k < |rules| && rows != [] && rows[0] == RowOf(p, CleanSource(Spelling(rules[k])))
    requires Stores(After(rows, p, rules[..k], uuid, now), rules[k])
    ensures !DistinctSources(After(rows, p, rules, uuid, now).rows, p)
  {
    var s := After(rows, p, rules[..k], uuid, now);
    assert rules[..k + 1][..k] == rules[..k];
    var s' := After(rows, p, rules[..k + 1], uuid, now);
    assert s' == Turn(s, p, rules[k], k + 1, uuid(k), now);
    TurnStores(s, p, rules[k], k + 1, uuid(k), now);
    FirstRowStays(rows, p, rules[..k], uuid, now);
    ImportKeepsRows(rows, p, rules, uuid, now, k + 1);
    StaysRepeated(s'.rows, After(rows, p, rules, uuid, now).rows, p, 0, |s.rows|);
  }

  lemma StaysRepeated(rows: Table, rows': Table, p: ProjectId, i: nat, j: nat)
    requires rows <= rows' && i < j < |rows| && rows[i].project == p && rows[j].project == p
    requires Domains.Lower(rows[i].rule.source) == Domains.Lower(rows[j].rule.source)
    ensures !DistinctSources(rows', p)
  {
    assert rows'[i] == rows[i] && rows'[j] == rows[j];
  }

  /** An import keeps the sources of every store distinct if and only if none of its rules that can be
      stored starts with two slashes. */
  lemma ImportSafeIff(p: ProjectId, rules: seq<Incoming>, uuid: nat -> RuleId, now: int)
    ensures AlwaysKeepsDistinct(p, rules, uuid, now) <==> NoDoubleSlashes(rules)
  {
    if NoDoubleSlashes(rules) {
      forall rows: Table | DistinctSources(rows, p)
        ensures DistinctSources(After(rows, p, rules, uuid, now).rows, p)
      {
        ImportKeepsSourcesDistinct(rows, p, rules, uuid, now);
      }
    } else {
      var k := FirstDoubleSlash(rules);
      var rows := DoubleSlashRepeats(p, rules, uuid, now, k);
    }
  }

  /** The import loop, on the store itself. */
  method ImportRules(store: Store, p: ProjectId, rules: seq<Incoming>, uuid: nat -> RuleId, now: int)
    returns (imported: nat, errors: seq<(nat, Refusal)>, raised: bool)
    modifies store
    ensures var s := After(old(store.rows), p, rules, uuid, now);
      store.rows == s.rows && raised == s.raised && imported == s.imported && errors == s.errors
  {
    var seen := LowerSources(store.rows, p);
    imported, errors := 0, [];
    for k := 0 to |rules|
      invariant After(old(store.rows), p, rules[..k], uuid, now) == Progress(store.rows, seen, imported, errors, false)
    {
      assert rules[..k + 1][..k] == rules[..k];
      var rule := rules[k];
      var source, target := Domains.Strip(rule.source), Domains.Strip(rule.target);
      if source == "" {
        errors := errors + [(k + 1, NoSource)];
        continue;
      }
      if target == "" {
        errors := errors + [(k + 1, NoTarget)];
        continue;
      }
      source := WithSlash(source);
      if Domains.Lower(source) in seen {
        errors := errors + [(k + 1, Duplicate)];
        continue;
      }
      if rule.code.None? {
        RaisedStays(old(store.rows), p, rules, uuid, now, k + 1);
        return imported, errors, true;
      }
      store.CreateRule(p, uuid(k), now, Stored(rule, uuid(k)));
      seen := seen + {Domains.Lower(source)};
      imported := imported + 1;
    }
    assert rules[..|rules|] == rules;
    return imported, errors, false;
  }

  lemma {:induction false} RaisedStays(rows: Table, p: ProjectId, rules: seq<Incoming>, uuid: nat -> RuleId, now: int,
                                       k: nat)
    requires k <= |rules| && After(rows, p, rules[..k], uuid, now).raised
    ensures After(rows, p, rules, uuid, now) == After(rows, p, rules[..k], uuid, now)
  {
    if k < |rules| {
      assert rules[..|rules| - 1][..k] == rules[..k];
      RaisedStays(rows, p, rules[..|rules| - 1], uuid, now, k);
    } else {
      assert rules[..k] == rules;
    }
  }
}
