/** Automatic redeploys (syte/branch_deploy.py): one poller looks at a branch head, and issues a
    deploy when the head is a commit it has not yet recorded.

    The poller reads the project row, awaits the branch head, awaits issue_deploy and awaits the
    write of the recorded commit.  Between these, the head may move, a new opt-in may reset the
    recorded commit, other runs may change the deployed commit, and the project may be deleted and
    created again.
  */
module BranchPolling {
  import opened Wrappers

  type Commit = string

  datatype Phase =
    | Idle
    | Listed(seen: Commit, deployed: Commit)                  // awaiting branch_head
    | Fetched(seen: Commit, deployed: Commit, head: Commit)   // awaiting issue_deploy, if at all
    | Recording(head: Commit, queued: bool)                   // awaiting update_project

  datatype Result = Skipped | Unconfigured | Unavailable | Current | Recorded | Deferred | Queued

  /** What issue_deploy comes to: "already in progress", "Project not found", a deploy, or a deploy
      whose notification raises afterwards. */
  datatype Answer = Busy | Missing | Accepted | Raises

  /** The branch head, the project row, the poller, and counts of what has happened so far: moves of
      the head, resets of the recorded commit, deploys issued, those among them that raised, answers
      that the project is missing, and results "queued". */
  datatype State = State(head: Commit, present: bool, seen: Commit, deployed: Commit, phase: Phase,
                         moves: nat, resets: nat, issued: nat, raised: nat, missed: nat, queued: nat)

  datatype Step =
    | HeadMoves(head: Commit)
    | Reset                       // auto_deploy enabled afresh
    | DeployedChanges(deployed: Commit)
    | Delete
    | Recreate                    // a new row has no recorded commit
    | List
    | FetchHead
    | FetchFails
    | Decide(answer: Answer)
    | Record

  predicate Enabled(s: State, e: Step) {
    match e
    case HeadMoves(h) => h != s.head
    case Reset => s.present
    case DeployedChanges(_) => s.present
    case Delete => s.present
    case Recreate => !s.present
    case List => s.phase.Idle? && s.present
    case FetchHead => s.phase.Listed?
    case FetchFails => s.phase.Listed?
    case Decide(answer) => s.phase.Fetched? && (answer.Missing? <==> !s.present)
    case Record => s.phase.Recording?
  }

  function Apply(s: State, e: Step): State
    requires Enabled(s, e)
  {
    match e
    case HeadMoves(h) => s.(head := h, moves := s.moves + 1)
    case Reset => s.(seen := "", resets := s.resets + 1)
    case DeployedChanges(d) => s.(deployed := d)
    case Delete => s.(present := false)
    case Recreate => s.(present := true, seen := "", deployed := "", resets := s.resets + 1)
    case List => s.(phase := Listed(s.seen, s.deployed))
    case FetchHead => s.(phase := Fetched(s.phase.seen, s.phase.deployed, s.head))
    case FetchFails => s.(phase := Idle)
    case Decide(answer) =>
      var h := s.phase.head;
      if h == s.phase.seen then s.(phase := Idle)
      else if h == s.phase.deployed then s.(phase := Recording(h, false))
      else
        (match answer
         case Busy => s.(phase := Idle)
         case Missing => s.(phase := Recording(h, true), missed := s.missed + 1)
         case Accepted => s.(phase := Recording(h, true), issued := s.issued + 1)
         case Raises => s.(phase := Idle, issued := s.issued + 1, raised := s.raised + 1))
    case Record =>
      s.(seen := if s.present then s.phase.head else s.seen, phase := Idle,
         queued := s.queued + if s.phase.queued then 1 else 0)
  }

  function Exec(s: State, es: seq<Step>): Option<State> {
    if es == [] then Some(s)
    else
      var before := Exec(s, es[..|es| - 1]);
      if before.Some? && Enabled(before.value, es[|es| - 1]) then Some(Apply(before.value, es[|es| - 1])) else None
  }

  lemma ExecSnoc(s: State, es: seq<Step>, e: Step)
    requires Exec(s, es).Some? && Enabled(Exec(s, es).value, e)
    ensures Exec(s, es + [e]) == Some(Apply(Exec(s, es).value, e))
  {
    assert (es + [e])[..|es|] == es;
  }

  /** The results "queued" so far, and the one that is about to be returned. */
  function QueuedSoFar(s: State): nat {
    s.queued + if s.phase.Recording? && s.phase.queued then 1 else 0
  }

  /** How many results "queued" there may still be if the head stays and nobody resets. */
  function Credit(s: State): nat {
    var unseen := s.present && s.seen != s.head;
    match s.phase
    case Idle => if unseen then 1 else 0
    case Listed(seen, _) => if seen != s.head || unseen then 1 else 0
    case Fetched(seen, _, h) => if h != seen then 1 + (if h != s.head then 1 else 0) else if unseen then 1 else 0
    case Recording(h, _) => if s.present && h != s.head then 1 else 0
  }

  /** Only a move of the head or a reset earns credit, and every result "queued" spends one. */
  lemma StepSpendsCredit(s: State, e: Step)
    requires Enabled(s, e)
    ensures var s' := Apply(s, e);
      QueuedSoFar(s') - QueuedSoFar(s) + Credit(s') <= Credit(s) + (s'.moves - s.moves) + (s'.resets - s.resets)
  {
  }

  /** Over any run of checks, from an idle poller, the results "queued" for a project number at most
      one plus the moves of the head plus the resets of the recorded commit. */
  lemma {:induction false} QueuedBounded(s: State, es: seq<Step>, s': State)
    requires s.phase.Idle? && Exec(s, es) == Some(s')
    ensures QueuedSoFar(s') - QueuedSoFar(s) + Credit(s') <= 1 + (s'.moves - s.moves) + (s'.resets - s.resets)
  {
    if es != [] {
      var before := Exec(s, es[..|es| - 1]).value;
      QueuedBounded(s, es[..|es| - 1], before);
      StepSpendsCredit(before, es[|es| - 1]);
    }
  }

  /** Every result "queued" stands for a deploy that was issued without an exception, or for a project
      that was missing. */
  lemma {:induction false} QueuedIsIssuedOrMissed(s: State, es: seq<Step>, s': State)
    requires s.phase.Idle? && Exec(s, es) == Some(s')
    ensures QueuedSoFar(s') - QueuedSoFar(s) == (s'.issued - s.issued) - (s'.raised - s.raised) + (s'.missed - s.missed)
  {
    if es != [] {
      QueuedIsIssuedOrMissed(s, es[..|es| - 1], Exec(s, es[..|es| - 1]).value);
    }
  }

  /** So the deploys themselves number at most that many plus those that raised. */
  lemma IssuedBounded(s: State, es: seq<Step>, s': State)
    requires s.phase.Idle? && Exec(s, es) == Some(s')
    ensures s'.issued - s.issued <= 1 + (s'.moves - s.moves) + (s'.resets - s.resets) + (s'.raised - s.raised)
  {
    QueuedBounded(s, es, s');
    QueuedIsIssuedOrMissed(s, es, s');
    CountsGrow(s, es, s');
  }

  /** A deploy that raises is not recorded, so every later check may issue it again: without a move
      or a reset there can be any number of deploys of one head. */
  lemma {:induction false} RaisingRepeats(s: State, n: nat) returns (es: seq<Step>)
    requires s.phase.Idle? && s.present && s.head != s.seen && s.head != s.deployed
    ensures Exec(s, es) == Some(s.(issued := s.issued + n, raised := s.raised + n))
  {
    if n == 0 {
      return [];
    }
    es := RaisingRepeats(s, n - 1);
    var before := Exec(s, es).value;
    ExecSnoc(s, es, List);
    ExecSnoc(s, es + [List], FetchHead);
    ExecSnoc(s, es + [List] + [FetchHead], Decide(Raises));
    es := es + [List] + [FetchHead] + [Decide(Raises)];
  }

  predicate NeverRaises(es: seq<Step>) {
    forall i :: 0 <= i < |es| ==> es[i] != Decide(Raises)
  }

  lemma {:induction false} NeverRaisedCount(s: State, es: seq<Step>, s': State)
    requires Exec(s, es) == Some(s') && NeverRaises(es)
    ensures s'.raised == s.raised
  {
    if es != [] {
      NeverRaisedCount(s, es[..|es| - 1], Exec(s, es[..|es| - 1]).value);
    }
  }

  /** The bound on the deploys: at most one plus the moves plus the resets. */
  ghost predicate IssuesFew(s: State, s': State) {
    s'.issued - s.issued <= 1 + (s'.moves - s.moves) + (s'.resets - s.resets)
  }

  ghost predicate AllIssueFew(s: State, mayRaise: bool) {
    forall es, s' :: Exec(s, es) == Some(s') && (mayRaise || NeverRaises(es)) ==> IssuesFew(s, s')
  }

  lemma NewCommit(a: Commit, b: Commit, c: Commit) returns (d: Commit)
    ensures d != a && d != b && d != c
  {
    d := a + b + c + "+";
    assert |d| > |a| && |d| > |b| && |d| > |c|;
  }

  /** From every idle poller three deploys can be issued for one new head. */
  lemma RaisingBreaksBound(s: State) returns (es: seq<Step>, s': State)
    requires s.phase.Idle? && s.present
    ensures Exec(s, es) == Some(s') && !IssuesFew(s, s')
  {
    var head := NewCommit(s.head, s.seen, s.deployed);
    ExecSnoc(s, [], HeadMoves(head));
    var moved := Apply(s, HeadMoves(head));
    var more := RaisingRepeats(moved, 3);
    ExecAfter(s, [] + [HeadMoves(head)], more);
    es, s' := [] + [HeadMoves(head)] + more, moved.(issued := moved.issued + 3, raised := moved.raised + 3);
  }

  lemma WithoutRaisingBounded(s: State, es: seq<Step>, s': State)
    requires s.phase.Idle? && Exec(s, es) == Some(s') && NeverRaises(es)
    ensures IssuesFew(s, s')
  {
    IssuedBounded(s, es, s');
    NeverRaisedCount(s, es, s');
  }

  /** That bound holds over all runs from an idle poller if and only if issue_deploy cannot raise
      once it has registered its task. */
  lemma IssuedBoundIff(s: State, mayRaise: bool)
    requires s.phase.Idle? && s.present
    ensures AllIssueFew(s, mayRaise) <==> !mayRaise
  {
    if mayRaise {
      var es, s' := RaisingBreaksBound(s);
    } else {
      forall es, s' | Exec(s, es) == Some(s') && NeverRaises(es)
        ensures IssuesFew(s, s')
      {
        WithoutRaisingBounded(s, es, s');
      }
    }
  }

  lemma {:induction false} ExecAfter(s: State, es: seq<Step>, more: seq<Step>)
    requires Exec(s, es).Some? && Exec(Exec(s, es).value, more).Some?
    ensures Exec(s, es + more) == Exec(Exec(s, es).value, more)
    decreases |more|
  {
    if more == [] {
      assert es + more == es;
    } else {
      ExecAfter(s, es, more[..|more| - 1]);
      assert (es + more)[..|es + more| - 1] == es + more[..|more| - 1];
    }
  }

  /** The recorded head shields a rollback: while the head stays recorded and is not reset, no run
      of checks issues a deploy or changes the record, whatever commit is deployed meanwhile. */
  lemma {:induction false} RecordedHeadIssuesNothing(s: State, es: seq<Step>, s': State)
    requires s.phase.Idle? && s.seen == s.head && Exec(s, es) == Some(s')
    requires s'.moves == s.moves && s'.resets == s.resets
    ensures s'.issued == s.issued && s'.queued == s.queued && s'.seen == s.seen && s'.head == s.head
    ensures !s'.phase.Recording?
    ensures s'.phase.Listed? || s'.phase.Fetched? ==> s'.phase.seen == s.head
    ensures s'.phase.Fetched? ==> s'.phase.head == s.head
  {
    if es != [] {
      CountsGrow(s, es[..|es| - 1], Exec(s, es[..|es| - 1]).value);
      RecordedHeadIssuesNothing(s, es[..|es| - 1], Exec(s, es[..|es| - 1]).value);
    }
  }

  lemma {:induction false} CountsGrow(s: State, es: seq<Step>, s': State)
    requires Exec(s, es) == Some(s')
    ensures s.moves <= s'.moves && s.resets <= s'.resets && s.missed <= s'.missed && s.raised <= s'.raised
  {
    if es != [] {
      CountsGrow(s, es[..|es| - 1], Exec(s, es[..|es| - 1]).value);
    }
  }

  /** A deferred check changes nothing in the project row, so the next check that is not refused
      issues the deploy, unless the head moves or the row changes in between. */
  lemma DeferredIsRetried(s: State)
    requires s.present && s.phase.Fetched?
    requires s.phase.head == s.head && s.phase.seen == s.seen && s.phase.deployed == s.deployed
    requires s.head != s.seen && s.head != s.deployed
    ensures var deferred := Apply(s, Decide(Busy));
      && deferred == s.(phase := Idle)
      && Exec(deferred, [] + [List] + [FetchHead] + [Decide(Accepted)] + [Record])
         == Some(deferred.(seen := s.head, issued := s.issued + 1, queued := s.queued + 1))
  {
    var deferred := Apply(s, Decide(Busy));
    ExecSnoc(deferred, [], List);
    ExecSnoc(deferred, [] + [List], FetchHead);
    ExecSnoc(deferred, [] + [List] + [FetchHead], Decide(Accepted));
    ExecSnoc(deferred, [] + [List] + [FetchHead] + [Decide(Accepted)], Record);
  }

  /** What became of one listed project in a pass. */
  datatype Checked = NotOptedIn | Raised | Returned(result: Result)

  /** The steps that one uninterrupted check takes, by what becomes of it. */
  function StepsOf(c: Checked, answer: Answer): seq<Step> {
    var fetch := [] + [List] + [FetchHead];
    match c
    case Raised => fetch + [Decide(Raises)]
    case Returned(Current) => fetch + [Decide(Busy)]
    case Returned(Deferred) => fetch + [Decide(Busy)]
    case Returned(Recorded) => fetch + [Decide(Busy)] + [Record]
    case _ =>
      if answer.Missing? then fetch + [Delete] + [Decide(Missing)] + [Record] else fetch + [Decide(Accepted)] + [Record]
  }

  lemma FetchRuns(s: State)
    requires s.phase.Idle? && s.present
    ensures Exec(s, [] + [List] + [FetchHead]) == Some(s.(phase := Fetched(s.seen, s.deployed, s.head)))
  {
    ExecSnoc(s, [], List);
    ExecSnoc(s, [] + [List], FetchHead);
  }

  lemma OneMore(s: State, es: seq<Step>, mid: State, e: Step, s': State)
    requires Exec(s, es) == Some(mid) && Enabled(mid, e) && Apply(mid, e) == s'
    ensures Exec(s, es + [e]) == Some(s')
  {
    ExecSnoc(s, es, e);
  }

  /** The commit fields of one opted-in project row, as check_project_branch updates them. */
  class ProjectRow {
    var present: bool
    var seen: Commit
    var deployed: Commit

    constructor (seen: Commit, deployed: Commit)
      ensures present && this.seen == seen && this.deployed == deployed
    {
      present := true;
      this.seen, this.deployed := seen, deployed;
    }

    ghost function View(head: Commit): State
      reads this
    {
      State(head, present, seen, deployed, Idle, 0, 0, 0, 0, 0, 0)
    }

    /** One uninterrupted check is one run of the poller's own steps.  `head` is None when the branch
        head cannot be read; `answer` is what issue_deploy comes to, where a missing project has
        just been deleted. */
    method Check(head: Option<Commit>, answer: Answer) returns (c: Checked)
      requires present
      modifies this
      ensures head.None? ==> c == Returned(Unavailable) && present && seen == old(seen) && deployed == old(deployed)
      ensures head.Some? ==>
        var asked := head.value != old(seen) && head.value != old(deployed);
        && c == (if head.value == old(seen) then Returned(Current)
                 else if head.value == old(deployed) then Returned(Recorded)
                 else match answer case Busy => Returned(Deferred) case Raises => Raised case _ => Returned(Queued))
        && (seen == head.value <==>
          c == Returned(Current) || c == Returned(Recorded) || (c == Returned(Queued) && present))
        && Exec(old(View(head.value)), StepsOf(c, answer))
           == Some(View(head.value).(issued := if asked && (answer.Accepted? || answer.Raises?) then 1 else 0,
                                     raised := if asked && answer.Raises? then 1 else 0,
                                     missed := if asked && answer.Missing? then 1 else 0,
                                     queued := if c == Returned(Queued) then 1 else 0))
      ensures c != Returned(Current) && c != Returned(Recorded) && !(c == Returned(Queued) && present) ==>
          seen == old(seen)
      ensures present <==> !(c == Returned(Queued) && answer.Missing?)
      ensures deployed == old(deployed)
    {
      if head.None? {
        return Returned(Unavailable);
      }
      var commit := head.value;
      ghost var s0 := View(commit);
      ghost var fetched := s0.(phase := Fetched(seen, deployed, commit));
      ghost var fetch := [] + [List] + [FetchHead];
      FetchRuns(s0);
      if commit == seen {
        OneMore(s0, fetch, fetched, Decide(Busy), s0);
        return Returned(Current);
      }
      if commit == deployed {
        OneMore(s0, fetch, fetched, Decide(Busy), s0.(phase := Recording(commit, false)));
        seen := commit;
        OneMore(s0, fetch + [Decide(Busy)], s0.(phase := Recording(commit, false)), Record, s0.(seen := commit));
        return Returned(Recorded);
      }
      match answer
      case Busy =>
        OneMore(s0, fetch, fetched, Decide(Busy), s0);
        return Returned(Deferred);
      case Raises =>
        OneMore(s0, fetch, fetched, Decide(Raises), s0.(issued := 1, raised := 1));
        return Raised;
      case Missing =>
        present := false;
        MissingRuns(s0, fetched);
        return Returned(Queued);
      case Accepted =>
        seen := commit;
        AcceptedRuns(s0, fetched);
        return Returned(Queued);
    }
  }

  lemma AcceptedRuns(s: State, fetched: State)
    requires Exec(s, [] + [List] + [FetchHead]) == Some(fetched)
    requires fetched == s.(phase := Fetched(s.seen, s.deployed, s.head))
    requires s.phase.Idle? && s.present && s.head != s.seen && s.head != s.deployed
    ensures Exec(s, [] + [List] + [FetchHead] + [Decide(Accepted)] + [Record])
            == Some(s.(seen := s.head, issued := s.issued + 1, queued := s.queued + 1))
  {
    var decided := s.(phase := Recording(s.head, true), issued := s.issued + 1);
    OneMore(s, [] + [List] + [FetchHead], fetched, Decide(Accepted), decided);
    OneMore(s, [] + [List] + [FetchHead] + [Decide(Accepted)], decided, Record,
            s.(seen := s.head, issued := s.issued + 1, queued := s.queued + 1));
  }

  lemma MissingRuns(s: State, fetched: State)
    requires Exec(s, [] + [List] + [FetchHead]) == Some(fetched)
    requires fetched == s.(phase := Fetched(s.seen, s.deployed, s.head))
    requires s.phase.Idle? && s.present && s.head != s.seen && s.head != s.deployed
    ensures Exec(s, [] + [List] + [FetchHead] + [Delete] + [Decide(Missing)] + [Record])
            == Some(s.(present := false, missed := s.missed + 1, queued := s.queued + 1))
  {
    var gone := fetched.(present := false);
    var decided := s.(present := false, phase := Recording(s.head, true), missed := s.missed + 1);
    OneMore(s, [] + [List] + [FetchHead], fetched, Delete, gone);
    OneMore(s, [] + [List] + [FetchHead] + [Delete], gone, Decide(Missing), decided);
    OneMore(s, [] + [List] + [FetchHead] + [Delete] + [Decide(Missing)], decided, Record,
            s.(present := false, missed := s.missed + 1, queued := s.queued + 1));
  }

  // ----- one pass over all projects

  datatype Tally = Tally(checked: nat, queued: nat, deferred: nat, current: nat, unconfigured: nat, unavailable: nat)

  /** How many of the checks came out in one of these ways. */
  function CountOf(checks: seq<Checked>, ways: set<Checked>): nat {
    |set i | 0 <= i < |checks| && checks[i] in ways|
  }

  lemma CountSnoc(checks: seq<Checked>, i: nat, ways: set<Checked>)
    requires i < |checks|
    ensures CountOf(checks[..i + 1], ways) == CountOf(checks[..i], ways) + if checks[i] in ways then 1 else 0
  {
    var fewer, more := checks[..i], checks[..i + 1];
    var before := set k | 0 <= k < |fewer| && fewer[k] in ways;
    var later := set k | 0 <= k < |more| && more[k] in ways;
    assert later == if checks[i] in ways then before + {i} else before;
  }

  /** The ways that go into no tally. */
  const UNTALLIED := {Returned(Skipped), Returned(Recorded)}

  ghost predicate Tallied(t: Tally, checks: seq<Checked>) {
    && t.checked == |checks| - CountOf(checks, {NotOptedIn})
    && t.queued == CountOf(checks, {Returned(Queued)})
    && t.deferred == CountOf(checks, {Returned(Deferred)})
    && t.current == CountOf(checks, {Returned(Current)})
    && t.unconfigured == CountOf(checks, {Returned(Unconfigured)})
    && t.unavailable == CountOf(checks, {Raised, Returned(Unavailable)})
  }

  /** check_enabled_project_branches.  A check that raises counts as unavailable.  The tallies miss the
      checks that recorded a deployed head, so they add up to the number checked exactly when there
      were none. */
  method Pass(checks: seq<Checked>) returns (t: Tally)
    ensures Tallied(t, checks)
    ensures t.checked == t.queued + t.deferred + t.current + t.unconfigured + t.unavailable + CountOf(checks, UNTALLIED)
  {
    t := Tally(0, 0, 0, 0, 0, 0);
    for i := 0 to |checks|
      invariant Tallied(t, checks[..i])
      invariant t.checked == t.queued + t.deferred + t.current + t.unconfigured + t.unavailable
          + CountOf(checks[..i], UNTALLIED)
    {
      CountSnoc(checks, i, {NotOptedIn});
      CountSnoc(checks, i, {Returned(Queued)});
      CountSnoc(checks, i, {Returned(Deferred)});
      CountSnoc(checks, i, {Returned(Current)});
      CountSnoc(checks, i, {Returned(Unconfigured)});
      CountSnoc(checks, i, {Raised, Returned(Unavailable)});
      CountSnoc(checks, i, UNTALLIED);
      if checks[i].NotOptedIn? {
        continue;
      }
      t := t.(checked := t.checked + 1);
      var result := if checks[i].Raised? then Unavailable else checks[i].result;
      match result
      case Queued => t := t.(queued := t.queued + 1);
      case Deferred => t := t.(deferred := t.deferred + 1);
      case Current => t := t.(current := t.current + 1);
      case Unconfigured => t := t.(unconfigured := t.unconfigured + 1);
      case Unavailable => t := t.(unavailable := t.unavailable + 1);
      case Skipped =>
      case Recorded =>
    }
    assert checks[..|checks|] == checks;
  }
}
