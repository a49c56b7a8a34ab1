/** What holds over every run of deploy control. */
module DeployTheorems {
  import opened Wrappers
  import opened DeployControl

  lemma {:induction false} ReachableInv(es: seq<Step>, s: State)
    requires Exec(Start, es) == Some(s)
    ensures Inv(s)
  {
    if es != [] {
      var before, e := Exec(Start, es[..|es| - 1]).value, es[|es| - 1];
      ReachableInv(es[..|es| - 1], before);
      LocksKept(before, e);
      RowsKept(before, e);
      RegistryKept(before, e);
      CommitsKept(before, e);
    }
  }

  /** In every interleaving at most one task per project is inside the deploy job, and a lock is
      only ever held by a task that is. */
  lemma MutualExclusion(es: seq<Step>, s: State, t: TaskId, u: TaskId)
    requires Exec(Start, es) == Some(s)
    requires t in s.tasks && u in s.tasks && s.tasks[t].project == s.tasks[u].project
    ensures s.tasks[t].at.InJob? && s.tasks[u].at.InJob? ==> t == u
    ensures s.tasks[t].at.InJob? <==> s.tasks[t].project in s.locks && s.locks[s.tasks[t].project] == t
  {
    ReachableInv(es, s);
  }

  // ----- the registry

  /** The task registered last for the project, read off the run alone. */
  ghost function LastRegistered(es: seq<Step>, p: ProjectId): Option<TaskId>
    requires Exec(Start, es).Some?
  {
    if es == [] then None
    else
      var before, e := Exec(Start, es[..|es| - 1]).value, es[|es| - 1];
      if e.Register? && before.callers[e.c].project == p then Some(e.t) else LastRegistered(es[..|es| - 1], p)
  }

  ghost predicate NamesLatest(s: State, latest: Option<TaskId>, p: ProjectId) {
    match latest
    case None => p !in s.registry
    case Some(t) => t in s.tasks && (if p in s.registry then s.registry[p] == t else s.tasks[t].at.Done?)
  }

  lemma NamesLatestKept(s: State, e: Step, latest: Option<TaskId>, p: ProjectId)
    requires RegistryMatches(s) && Enabled(s, e) && NamesLatest(s, latest, p)
    ensures NamesLatest(Apply(s, e), if e.Register? && s.callers[e.c].project == p then Some(e.t) else latest, p)
  {
    if Actor(s, e).Some? {
      EffectsAreDecent(s, e);
    }
  }

  /** A finishing task removes only its own entry: after every run the registry either names the
      task registered last, or names nothing and that task is done. */
  lemma {:induction false} RegistryNamesLatest(es: seq<Step>, s: State, p: ProjectId)
    requires Exec(Start, es) == Some(s)
    ensures NamesLatest(s, LastRegistered(es, p), p)
  {
    if es != [] {
      var before := Exec(Start, es[..|es| - 1]).value;
      ReachableInv(es[..|es| - 1], before);
      RegistryNamesLatest(es[..|es| - 1], before, p);
      NamesLatestKept(before, es[|es| - 1], LastRegistered(es[..|es| - 1], p), p);
    }
  }

  // ----- one unfinished issued task, if the check and the registration are not interleaved

  /** A caller that has passed the in-progress check and not yet registered its task. */
  ghost predicate Pending(s: State, c: CallerId, p: ProjectId) {
    c in s.callers && s.callers[c].project == p && (s.callers[c].at.Passed? || s.callers[c].at.Inserted?)
  }

  ghost predicate Unfinished(s: State, t: TaskId, p: ProjectId) {
    t in s.tasks && s.tasks[t].project == p && s.tasks[t].run.Some? && !s.tasks[t].at.Done?
  }

  ghost predicate OnePending(s: State, p: ProjectId) {
    forall c, d :: Pending(s, c, p) && Pending(s, d, p) ==> c == d
  }

  /** At every point of the run at most one caller is between its check and its registration. */
  ghost predicate Serialised(es: seq<Step>, p: ProjectId)
    requires Exec(Start, es).Some?
  {
    OnePending(Exec(Start, es).value, p) && (es == [] || Serialised(es[..|es| - 1], p))
  }

  ghost predicate OneInFlight(s: State, p: ProjectId) {
    && (forall t :: Unfinished(s, t, p) ==> p in s.registry && s.registry[p] == t)
    && (forall t, c :: !(Unfinished(s, t, p) && Pending(s, c, p)))
  }

  lemma TaskStepInFlight(s: State, e: Step, p: ProjectId)
    requires Enabled(s, e) && Actor(s, e).Some? && OneInFlight(s, p)
    ensures OneInFlight(Apply(s, e), p)
  {
    var s' := Apply(s, e);
    EffectsAreDecent(s, e);
    assert s'.registry == s.registry && s'.callers == s.callers;
    assert forall t :: Unfinished(s', t, p) ==> Unfinished(s, t, p);
    assert forall c :: Pending(s', c, p) ==> Pending(s, c, p);
  }

  lemma RegisterInFlight(s: State, e: Step, p: ProjectId)
    requires Enabled(s, e) && e.Register? && OneInFlight(s, p) && OnePending(s, p)
    ensures OneInFlight(Apply(s, e), p)
  {
    var s' := Apply(s, e);
    assert Pending(s, e.c, s.callers[e.c].project);
    assert forall t :: Unfinished(s', t, p) ==> t == e.t || Unfinished(s, t, p);
    assert forall c :: Pending(s', c, p) ==> Pending(s, c, p) && c != e.c;
  }

  lemma OneInFlightKept(s: State, e: Step, p: ProjectId)
    requires RegistryMatches(s) && Enabled(s, e) && OneInFlight(s, p) && OnePending(s, p)
    ensures OneInFlight(Apply(s, e), p)
  {
    var s' := Apply(s, e);
    if Actor(s, e).Some? {
      TaskStepInFlight(s, e, p);
    } else if e.Register? {
      RegisterInFlight(s, e, p);
    } else {
      assert forall t :: Unfinished(s', t, p) ==> Unfinished(s, t, p);
      if e.Insert? {
        assert Pending(s, e.c, s.callers[e.c].project);
      }
      assert forall c :: Pending(s', c, p) ==> Pending(s, c, p) || (e.Check? && e.c == c && !InProgress(s, p));
    }
  }

  lemma {:induction false} SerialisedInFlight(es: seq<Step>, s: State, p: ProjectId)
    requires Exec(Start, es) == Some(s) && Serialised(es, p)
    ensures OneInFlight(s, p)
  {
    if es != [] {
      var before := Exec(Start, es[..|es| - 1]).value;
      ReachableInv(es[..|es| - 1], before);
      SerialisedInFlight(es[..|es| - 1], before, p);
      OneInFlightKept(before, es[|es| - 1], p);
    }
  }

  /** If check and registration are never interleaved for a project, it never has two unfinished
      issued tasks. */
  lemma OneIssuedTask(es: seq<Step>, s: State, p: ProjectId, t: TaskId, u: TaskId)
    requires Exec(Start, es) == Some(s) && Serialised(es, p)
    requires Unfinished(s, t, p) && Unfinished(s, u, p)
    ensures t == u
  {
    SerialisedInFlight(es, s, p);
  }

  lemma TwoSteps(s: State, e: Step, f: Step)
    requires Enabled(s, e) && Enabled(Apply(s, e), f)
    ensures Exec(s, [e, f]) == Some(Apply(Apply(s, e), f))
  {
    ExecStep(s, [], e);
    assert [] + [e] == [e] && [e] + [f] == [e, f];
    ExecStep(s, [e], f);
  }

  /** A caller past the check gets to the point where its row is inserted. */
  lemma ToInserted(s: State, p: ProjectId, c: CallerId, r: RunId) returns (es: seq<Step>, s': State)
    requires Pending(s, c, p) && r !in s.rows
    ensures Exec(s, es) == Some(s') && Pending(s', c, p) && s'.callers[c].at.Inserted?
    ensures s'.tasks == s.tasks && (forall q :: q in s'.rows ==> q in s.rows || q == r)
    ensures forall d :: d in s.callers && d != c ==> d in s'.callers && s'.callers[d] == s.callers[d]
  {
    if s.callers[c].at.Inserted? {
      es, s' := [], s;
    } else {
      ExecStep(s, [], Insert(c, r));
      es, s' := [] + [Insert(c, r)], Apply(s, Insert(c, r));
    }
  }

  lemma BothRegister(s: State, p: ProjectId, c: CallerId, d: CallerId, t: TaskId, u: TaskId)
    requires c != d && Pending(s, c, p) && s.callers[c].at.Inserted? && t !in s.tasks
    requires Pending(s, d, p) && s.callers[d].at.Inserted? && u !in s.tasks && t != u
    ensures Enabled(s, Register(c, t)) && Enabled(Apply(s, Register(c, t)), Register(d, u))
    ensures var s' := Apply(Apply(s, Register(c, t)), Register(d, u)); Unfinished(s', t, p) && Unfinished(s', u, p)
  {
  }

  /** From there both go on to register. */
  lemma BothGoOn(s: State, p: ProjectId, c: CallerId, d: CallerId, r: RunId, q: RunId, t: TaskId, u: TaskId)
    returns (es: seq<Step>, s': State)
    requires c != d && Pending(s, c, p) && Pending(s, d, p)
    requires r != q && r !in s.rows && q !in s.rows && t != u && t !in s.tasks && u !in s.tasks
    ensures Exec(s, es) == Some(s') && Unfinished(s', t, p) && Unfinished(s', u, p)
  {
    var es1, s1 := ToInserted(s, p, c, r);
    var es2, s2 := ToInserted(s1, p, d, q);
    ExecJoin(s, es1, es2);
    BothRegister(s2, p, c, d, t, u);
    TwoSteps(s2, Register(c, t), Register(d, u));
    ExecJoin(s, es1 + es2, [Register(c, t), Register(d, u)]);
    es, s' := es1 + es2 + [Register(c, t), Register(d, u)], Apply(Apply(s2, Register(c, t)), Register(d, u));
  }

  /** The condition cannot be dropped: whenever two callers are between their check and their
      registration at once, wherever they are, the system can go on to a state with two unfinished
      issued tasks of the project. */
  lemma InterleavedCheckIssuesTwo(s: State, p: ProjectId, c: CallerId, d: CallerId,
                                  r: RunId, q: RunId, t: TaskId, u: TaskId)
    requires c != d && Pending(s, c, p) && Pending(s, d, p)
    requires r != q && r !in s.rows && q !in s.rows && t != u && t !in s.tasks && u !in s.tasks
    ensures exists es, s' :: Exec(s, es) == Some(s') && Unfinished(s', t, p) && Unfinished(s', u, p)
  {
    var es, s' := BothGoOn(s, p, c, d, r, q, t, u);
  }

  lemma ExecStep(s: State, es: seq<Step>, e: Step)
    requires Exec(s, es).Some? && Enabled(Exec(s, es).value, e)
    ensures Exec(s, es + [e]) == Some(Apply(Exec(s, es).value, e))
  {
    assert (es + [e])[..|es|] == es;
  }

  // ----- deployment rows

  /** A deployment row is written only by its own task. */
  lemma RowWrittenByItsTask(es: seq<Step>, s: State, e: Step, run: RunId)
    requires Exec(Start, es) == Some(s) && Enabled(s, e) && run in s.rows
    ensures run in Apply(s, e).rows
    ensures Apply(s, e).rows[run] != s.rows[run] ==>
      Actor(s, e).Some? && s.tasks[Actor(s, e).value].run == Some(run)
    ensures forall t, u :: t in s.tasks && u in s.tasks && s.tasks[t].run == Some(run) == s.tasks[u].run ==> t == u
    ensures Apply(s, e).rows[run].project == s.rows[run].project && Apply(s, e).rows[run].commit == s.rows[run].commit
    ensures s.rows[run].status.Rank() <= Apply(s, e).rows[run].status.Rank()
    ensures s.rows[run] != Apply(s, e).rows[run] ==> Apply(s, e).rows[run].status.Rank() > 0
  {
    ReachableInv(es, s);
    if Actor(s, e).Some? {
      EffectsAreDecent(s, e);
      if s.tasks[Actor(s, e).value].run.Some? {
        EffectFitsRow(s, e, s.rows[s.tasks[Actor(s, e).value].run.value]);
      }
    }
  }

  /** Over any continuation of any run a row keeps its project and commit, never goes back to
      queued, never goes back to running once terminal, and stays finished once it is. */
  lemma {:induction false} RowsOnlyAdvance(es: seq<Step>, s: State, more: seq<Step>, s': State, run: RunId)
    requires Exec(Start, es) == Some(s) && Exec(s, more) == Some(s') && run in s.rows
    ensures run in s'.rows
    ensures s'.rows[run].project == s.rows[run].project && s'.rows[run].commit == s.rows[run].commit
    ensures s.rows[run].status.Rank() <= s'.rows[run].status.Rank()
    ensures s.rows[run].finished ==> s'.rows[run].finished
    decreases more
  {
    ReachableInv(es, s);
    if more != [] {
      var before, e := Exec(s, more[..|more| - 1]).value, more[|more| - 1];
      RowsOnlyAdvance(es, s, more[..|more| - 1], before, run);
      ExecJoin(Start, es, more[..|more| - 1]);
      RowWrittenByItsTask(es + more[..|more| - 1], before, e, run);
      ExecJoin(Start, es, more);
      ReachableInv(es + more, s');
    }
  }

  lemma {:induction false} ExecJoin(s: State, es: seq<Step>, more: seq<Step>)
    requires Exec(s, es).Some? && Exec(Exec(s, es).value, more).Some?
    ensures Exec(s, es + more) == Exec(Exec(s, es).value, more)
    decreases more
  {
    if more == [] {
      assert es + more == es;
    } else {
      ExecJoin(s, es, more[..|more| - 1]);
      assert (es + more)[..|es + more| - 1] == es + more[..|more| - 1];
    }
  }

  /** When a task whose body started is done, its row is terminal, with a finish time, exactly when
      no cancellation cut off an except handler before its write, or the outcome had been written
      before the handler was entered.  A task cancelled before its body started leaves its row
      queued. */
  lemma EndIsTerminalIff(es: seq<Step>, s: State, t: TaskId)
    requires Exec(Start, es) == Some(s) && t in s.tasks && s.tasks[t].run.Some? && s.tasks[t].at.Done?
    ensures s.tasks[t].run.value in s.rows
    ensures var row := s.rows[s.tasks[t].run.value];
      && (row.finished <==> row.status.Terminal())
      && (s.tasks[t].started ==> (row.status.Terminal() <==> !s.tasks[t].cut || s.tasks[t].settled))
      && (!s.tasks[t].started ==> row.status.Queued?)
  {
    ReachableInv(es, s);
  }

  /** last_deployed_commit is only ever the non-empty commit of a run of that project that had read
      the project back as running. */
  lemma CommitProvenance(es: seq<Step>, s: State, p: ProjectId)
    requires Exec(Start, es) == Some(s) && p in s.projects && s.projects[p].lastDeployed != ""
    ensures exists t :: t in s.tasks && DeployedBy(s.tasks[t], p, s.projects[p].lastDeployed)
  {
    ReachableInv(es, s);
  }

  /** ... and the step that sets it is that run's own project write. */
  lemma CommitSetByItsRun(es: seq<Step>, s: State, e: Step, p: ProjectId)
    requires Exec(Start, es) == Some(s) && Enabled(s, e) && p in s.projects && p in Apply(s, e).projects
    requires Apply(s, e).projects[p].lastDeployed != s.projects[p].lastDeployed
    ensures Actor(s, e).Some?
    ensures var task := s.tasks[Actor(s, e).value];
      task.at == WriteProject(true) && DeployedBy(task, p, Apply(s, e).projects[p].lastDeployed) && task.commit != ""
  {
    ReachableInv(es, s);
    if Actor(s, e).Some? {
      EffectsAreDecent(s, e);
      EffectCommit(s, e);
    }
  }

  // ----- a run's outcome and its own job

  /** Steps that leave the project's row to the task in flight: no deploy-now task, and nobody
      else writes the row while an issued task of the project is unfinished. */
  ghost predicate Calm(s: State, e: Step, p: ProjectId) {
    && (e.DeployNow? ==> e.project != p)
    && (e.Outside? && e.project == p ==> forall t :: !Unfinished(s, t, p))
  }

  ghost predicate CalmRun(es: seq<Step>, p: ProjectId)
    requires Exec(Start, es).Some?
  {
    es == [] || (CalmRun(es[..|es| - 1], p) && Calm(Exec(Start, es[..|es| - 1]).value, es[|es| - 1], p))
  }

  /** The task in flight sees what its own job wrote, in its project's row and in its own. */
  ghost predicate SeesOwnIn(task: Task, project: Option<Project>, row: Option<Row>) {
    && (task.at.Fresh? || task.at.MarkRunning? || task.at.AwaitLock? ==> task.wrote.None?)
    && (task.wrote.Some? ==>
          && (task.at.InJob? || task.at.ReadBack? ==> project.Some? && project.value.status == task.wrote.value)
          && (task.at.WriteProject? || task.at.WriteOutcome? ==> task.at.ok == task.wrote.value.Up?)
          && (task.at.Announce? && row.Some? ==> row.value.status == Outcome(task.wrote.value.Up?)))
  }

  function RowOf(s: State, task: Task): Option<Row> {
    if task.run.Some? && task.run.value in s.rows then Some(s.rows[task.run.value]) else None
  }

  ghost predicate SeesOwn(s: State, task: Task) {
    SeesOwnIn(task, ProjectOf(s, task), RowOf(s, task))
  }

  ghost predicate OwnOnly(s: State, p: ProjectId) {
    && (forall t :: t in s.tasks && s.tasks[t].project == p ==> s.tasks[t].run.Some?)
    && (forall t :: Unfinished(s, t, p) ==> SeesOwn(s, s.tasks[t]))
  }

  /** The two rows after an effect. */
  function ProjectAfter(f: Effect, project: Option<Project>): Option<Project> {
    if f.project.Some? then f.project else project
  }

  function RowAfter(f: Effect, row: Option<Row>): Option<Row> {
    if f.row.None? || row.None? then row
    else Some(row.value.(status := f.row.value, finished := f.row.value.Terminal()))
  }

  ghost predicate KeepsSight(task: Task, project: Option<Project>, row: Option<Row>, f: Effect) {
    SeesOwnIn(task, project, row) ==> SeesOwnIn(f.task, ProjectAfter(f, project), RowAfter(f, row))
  }

  /** Up to the end of the job ... */
  lemma EarlyKeepsSight(task: Task, project: Option<Project>, row: Option<Row>)
    requires task.at.Fresh? || task.at.MarkRunning? || task.at.AwaitLock? || task.at.InJob?
    ensures KeepsSight(task, project, row, Resumed(task, project))
  {
  }

  /** ... and after it. */
  lemma LateKeepsSight(task: Task, project: Option<Project>, row: Option<Row>)
    requires task.at.ReadBack? || task.at.WriteProject? || task.at.WriteOutcome?
    ensures KeepsSight(task, project, row, Resumed(task, project))
  {
  }

  /** In a handler there is nothing left to see. */
  predicate Past(task: Task) {
    task.at.HandlerWrite? || task.at.HandlerAnnounce? || task.at.Done?
  }

  lemma InterruptedIsPast(task: Task, landed: bool, project: Option<Project>)
    requires !task.at.Done?
    ensures Past(Interrupted(task, landed, project).task)
  {
  }

  lemma PastSeesOwn(task: Task, project: Option<Project>, row: Option<Row>)
    requires Past(task)
    ensures SeesOwnIn(task, project, row)
  {
  }

  lemma EffectKeepsSight(s: State, e: Step)
    requires Enabled(s, e) && Actor(s, e).Some?
    ensures var task := s.tasks[Actor(s, e).value];
      KeepsSight(task, ProjectOf(s, task), RowOf(s, task), EffectOf(s, e))
  {
    var task, f := s.tasks[Actor(s, e).value], EffectOf(s, e);
    match e
    case Deliver(_, landed) => InterruptedIsPast(task, landed, ProjectOf(s, task));
    case _ =>
    if Past(f.task) {
      PastSeesOwn(f.task, ProjectAfter(f, ProjectOf(s, task)), RowAfter(f, RowOf(s, task)));
    } else if e.Resume? {
      ResumeKeepsSight(task, ProjectOf(s, task), RowOf(s, task));
    }
  }

  lemma ResumeKeepsSight(task: Task, project: Option<Project>, row: Option<Row>)
    requires !task.at.Done? && !Past(Resumed(task, project).task)
    ensures KeepsSight(task, project, row, Resumed(task, project))
  {
    if task.at.ReadBack? || task.at.WriteProject? || task.at.WriteOutcome? {
      LateKeepsSight(task, project, row);
    } else {
      EarlyKeepsSight(task, project, row);
    }
  }

  lemma PerformSeesOwn(s: State, e: Step)
    requires Enabled(s, e) && Actor(s, e).Some? && SeesOwn(s, s.tasks[Actor(s, e).value])
    ensures SeesOwn(Apply(s, e), EffectOf(s, e).task)
  {
    EffectsAreDecent(s, e);
    EffectKeepsSight(s, e);
    PerformShows(s, Actor(s, e).value, EffectOf(s, e));
  }

  lemma PerformShows(s: State, t: TaskId, f: Effect)
    requires t in s.tasks && f.task.project == s.tasks[t].project && f.task.run == s.tasks[t].run
    ensures ProjectOf(Perform(s, t, f), f.task) == ProjectAfter(f, ProjectOf(s, s.tasks[t]))
    ensures RowOf(Perform(s, t, f), f.task) == RowAfter(f, RowOf(s, s.tasks[t]))
  {
  }

  lemma OthersSeeOwn(s: State, e: Step, t: TaskId)
    requires RowsMatch(s) && WritersDistinct(s) && Enabled(s, e) && Actor(s, e).Some? && t in s.tasks
    requires SeesOwn(s, s.tasks[t])
    requires t != Actor(s, e).value && s.tasks[t].project != s.tasks[Actor(s, e).value].project
    ensures SeesOwn(Apply(s, e), Apply(s, e).tasks[t])
  {
    EffectsAreDecent(s, e);
  }

  lemma TaskStepOwnOnly(s: State, e: Step, p: ProjectId)
    requires Inv(s) && Enabled(s, e) && Actor(s, e).Some? && OwnOnly(s, p) && OneInFlight(s, p)
    ensures OwnOnly(Apply(s, e), p)
  {
    var s', a := Apply(s, e), Actor(s, e).value;
    EffectsAreDecent(s, e);
    assert s'.tasks == s.tasks[a := EffectOf(s, e).task];
    forall t | Unfinished(s', t, p)
      ensures SeesOwn(s', s'.tasks[t])
    {
      assert Unfinished(s, t, p);
      if t == a {
        PerformSeesOwn(s, e);
      } else {
        assert !Unfinished(s, a, p);
        OthersSeeOwn(s, e, t);
      }
    }
  }

  lemma RegisterOwnOnly(s: State, e: Step, p: ProjectId)
    requires Inv(s) && Enabled(s, e) && e.Register? && OwnOnly(s, p)
    ensures OwnOnly(Apply(s, e), p)
  {
    var s' := Apply(s, e);
    assert s'.projects == s.projects && s'.rows == s.rows;
    forall t | Unfinished(s', t, p)
      ensures SeesOwn(s', s'.tasks[t])
    {
      assert t == e.t || Unfinished(s, t, p);
    }
  }

  lemma OutsideOwnOnly(s: State, e: Step, p: ProjectId)
    requires Inv(s) && Enabled(s, e) && Actor(s, e).None? && !e.Register? && OwnOnly(s, p) && Calm(s, e, p)
    ensures OwnOnly(Apply(s, e), p)
  {
    var s' := Apply(s, e);
    forall t | Unfinished(s', t, p)
      ensures SeesOwn(s', s'.tasks[t])
    {
      assert Unfinished(s, t, p);
    }
  }

  lemma OwnOnlyKept(s: State, e: Step, p: ProjectId)
    requires Inv(s) && Enabled(s, e) && OwnOnly(s, p) && OneInFlight(s, p) && Calm(s, e, p)
    ensures OwnOnly(Apply(s, e), p)
  {
    if Actor(s, e).Some? {
      TaskStepOwnOnly(s, e, p);
    } else if e.Register? {
      RegisterOwnOnly(s, e, p);
    } else {
      OutsideOwnOnly(s, e, p);
    }
  }

  lemma {:induction false} CalmRunSeesOwn(es: seq<Step>, s: State, p: ProjectId)
    requires Exec(Start, es) == Some(s) && Serialised(es, p) && CalmRun(es, p)
    ensures OwnOnly(s, p)
  {
    if es != [] {
      var before := Exec(Start, es[..|es| - 1]).value;
      ReachableInv(es[..|es| - 1], before);
      SerialisedInFlight(es[..|es| - 1], before, p);
      CalmRunSeesOwn(es[..|es| - 1], before, p);
      OwnOnlyKept(before, es[|es| - 1], p);
    }
  }

  /** A run is recorded as succeeded exactly when its own job left the project running, provided
      checks are not interleaved with registrations and nobody else writes the project row. */
  lemma OutcomeIsOwn(es: seq<Step>, s: State, p: ProjectId, t: TaskId)
    requires Exec(Start, es) == Some(s) && Serialised(es, p) && CalmRun(es, p)
    requires Unfinished(s, t, p) && s.tasks[t].at.Announce? && s.tasks[t].wrote.Some?
    ensures s.tasks[t].run.value in s.rows
    ensures s.rows[s.tasks[t].run.value].status == if s.tasks[t].wrote == Some(Up) then Succeeded else Failed
  {
    ReachableInv(es, s);
    CalmRunSeesOwn(es, s, p);
  }

  /** In every run whatsoever, the record is right exactly when the project was read back as the
      run's own job had left it. */
  lemma OutcomeRightIff(es: seq<Step>, s: State, t: TaskId)
    requires Exec(Start, es) == Some(s) && t in s.tasks && s.tasks[t].run.Some?
    requires s.tasks[t].at.Announce? && s.tasks[t].wrote.Some?
    ensures s.tasks[t].run.value in s.rows
    ensures s.rows[s.tasks[t].run.value].status == Outcome(s.tasks[t].wrote.value.Up?)
            <==> s.tasks[t].sawUp == s.tasks[t].wrote.value.Up?
  {
    ReachableInv(es, s);
  }

  lemma Do(es: seq<Step>, s: State, e: Step) returns (es': seq<Step>, s': State)
    requires Exec(Start, es) == Some(s) && Enabled(s, e)
    ensures es' == es + [e] && s' == Apply(s, e) && Exec(Start, es') == Some(s')
  {
    es', s' := es + [e], Apply(s, e);
    ExecStep(Start, es, e);
  }

  /** A run that is about to read its project back. */
  ghost predicate AboutToRead(s: State, t: TaskId) {
    && t in s.tasks && s.tasks[t].run.Some? && s.tasks[t].run.value in s.rows && s.tasks[t].project in s.projects
    && s.tasks[t].at.ReadBack? && !s.tasks[t].cancelRequested && s.tasks[t].wrote.Some?
  }

  /** Somebody else's write of the project's status. */
  function ForeignWrite(s: State, p: ProjectId, status: ProjectStatus): Step
    requires p in s.projects
  {
    Outside(p, Some(s.projects[p].(status := status)))
  }

  /** The task keeps its run and its history, and the rows are untouched. */
  ghost predicate SameRun(s: State, s': State, t: TaskId) {
    && t in s.tasks && t in s'.tasks && s'.rows == s.rows && !s'.tasks[t].cancelRequested
    && s'.tasks[t].run == s.tasks[t].run && s'.tasks[t].wrote == s.tasks[t].wrote
  }

  lemma ReadsBack(s: State, t: TaskId)
    requires AboutToRead(s, t)
    ensures Enabled(s, Resume(t)) && SameRun(s, Apply(s, Resume(t)), t)
    ensures var up, at := s.projects[s.tasks[t].project].status.Up?, Apply(s, Resume(t)).tasks[t].at;
      at == WriteProject(up) || at == WriteOutcome(up)
  {
  }

  lemma WritesProject(s: State, t: TaskId)
    requires t in s.tasks && s.tasks[t].at.WriteProject? && !s.tasks[t].cancelRequested
    ensures Enabled(s, Resume(t)) && SameRun(s, Apply(s, Resume(t)), t)
    ensures Apply(s, Resume(t)).tasks[t].at == WriteOutcome(s.tasks[t].at.ok)
  {
  }

  lemma WritesOutcome(s: State, t: TaskId)
    requires t in s.tasks && s.tasks[t].at.WriteOutcome? && !s.tasks[t].cancelRequested
    requires s.tasks[t].run.Some? && s.tasks[t].run.value in s.rows
    ensures Enabled(s, Resume(t))
    ensures var s' := Apply(s, Resume(t));
      && s'.tasks[t].at.Announce? && s'.tasks[t].run == s.tasks[t].run && s'.tasks[t].wrote == s.tasks[t].wrote
      && s.tasks[t].run.value in s'.rows && s'.rows[s.tasks[t].run.value].status == Outcome(s.tasks[t].at.ok)
  {
  }

  /** From the read-back on a task goes through its own steps to the announcement, and records what
      it has read. */
  lemma RunsToRecord(s: State, t: TaskId) returns (es: seq<Step>, s': State)
    requires AboutToRead(s, t)
    ensures Exec(s, es) == Some(s') && t in s'.tasks && s'.tasks[t].at.Announce?
    ensures s'.tasks[t].run == s.tasks[t].run && s'.tasks[t].wrote == s.tasks[t].wrote
    ensures s.tasks[t].run.value in s'.rows
    ensures s'.rows[s.tasks[t].run.value].status == Outcome(s.projects[s.tasks[t].project].status.Up?)
  {
    ReadsBack(s, t);
    ExecStep(s, [], Resume(t));
    var s1 := Apply(s, Resume(t));
    es := [] + [Resume(t)];
    if s1.tasks[t].at.WriteProject? {
      WritesProject(s1, t);
      ExecStep(s, es, Resume(t));
      es, s1 := es + [Resume(t)], Apply(s1, Resume(t));
    }
    WritesOutcome(s1, t);
    ExecStep(s, es, Resume(t));
    es, s' := es + [Resume(t)], Apply(s1, Resume(t));
  }

  /** The proviso of the calm run is needed everywhere: from any state in which a run is about to
      read its project back, one write by somebody else leads to a wrong record. */
  lemma ForeignWriteSpoils(s: State, t: TaskId) returns (e: Step, es: seq<Step>, s': State)
    requires AboutToRead(s, t)
    ensures e == ForeignWrite(s, s.tasks[t].project, if s.tasks[t].wrote.value.Up? then Stopped else Up)
    ensures Enabled(s, e) && Exec(Apply(s, e), es) == Some(s')
    ensures t in s'.tasks && s'.tasks[t].at.Announce? && s'.tasks[t].run == s.tasks[t].run
    ensures s'.tasks[t].wrote == s.tasks[t].wrote
    ensures s.tasks[t].run.value in s'.rows
    ensures s'.rows[s.tasks[t].run.value].status != Outcome(s.tasks[t].wrote.value.Up?)
  {
    e := ForeignWrite(s, s.tasks[t].project, if s.tasks[t].wrote.value.Up? then Stopped else Up);
    es, s' := RunsToRecord(Apply(s, e), t);
  }

  /** Without that proviso the record can be wrong: the lock is released before the project is read
      back, so a run whose own job stopped the project is recorded as succeeded, and its commit as
      deployed, when a deploy-now task brings the project up in between. */
  lemma OutcomeCanBeBorrowed()
    ensures exists es, s, t :: Exec(Start, es) == Some(s) && t in s.tasks && BorrowedSuccess(s, s.tasks[t])
  {
    var es, s, t := BorrowingRun();
  }

  ghost predicate BorrowedSuccess(s: State, task: Task) {
    && task.wrote == Some(Stopped) && task.run.Some? && task.run.value in s.rows
    && s.rows[task.run.value].status == Succeeded
    && task.project in s.projects && s.projects[task.project].lastDeployed == task.commit != ""
  }

  /** One issued run of project 1, with nothing else going on: its task has just been created ... */
  lemma IssuedFresh() returns (es: seq<Step>, s: State)
    ensures Exec(Start, es) == Some(s)
    ensures s == State(map[1 := Project(Created, "")], map[10 := Row(1, "c", Queued, false)],
                       map[1 := Caller(1, "c", Returned)], map[100 := NewTask(1, Some(10), "c")],
                       map[1 := 100], map[], {100})
  {
    es, s := Do([], Start, Outside(1, Some(Project(Created, ""))));
    es, s := Do(es, s, Enter(1, 1, "c"));
    es, s := Do(es, s, Check(1));
    assert s.callers == map[1 := Caller(1, "c", Passed)];
    es, s := Do(es, s, Insert(1, 10));
    assert s.callers == map[1 := Caller(1, "c", Inserted(10))];
    es, s := Do(es, s, Register(1, 100));
    assert s.callers == map[1 := Caller(1, "c", Returned)];
  }

  /** ... here it is about to say that it runs ... */
  lemma IssuedAwake() returns (es: seq<Step>, s: State, task: Task)
    ensures Exec(Start, es) == Some(s)
    ensures task == NewTask(1, Some(10), "c").(at := MarkRunning, started := true)
    ensures s == State(map[1 := Project(Created, "")], map[10 := Row(1, "c", Queued, false)],
                       map[1 := Caller(1, "c", Returned)], map[100 := task], map[1 := 100], map[], {100})
  {
    task := NewTask(1, Some(10), "c").(at := MarkRunning, started := true);
    es, s := IssuedFresh();
    es, s := Do(es, s, Resume(100));
    assert s.tasks == map[100 := task];
  }

  /** ... and here it is inside its job. */
  lemma IssuedIntoJob() returns (es: seq<Step>, s: State, task: Task)
    ensures Exec(Start, es) == Some(s)
    ensures task == NewTask(1, Some(10), "c").(at := InJob, started := true)
    ensures s == State(map[1 := Project(Created, "")], map[10 := Row(1, "c", Running, false)],
                       map[1 := Caller(1, "c", Returned)], map[100 := task], map[1 := 100], map[1 := 100], {100})
  {
    es, s, task := IssuedAwake();
    es, s := Do(es, s, Resume(100));
    assert s.tasks == map[100 := task.(at := AwaitLock)];
    assert s.rows == map[10 := Row(1, "c", Running, false)];
    es, s := Do(es, s, Resume(100));
    task := task.(at := InJob);
    assert s.tasks == map[100 := task];
  }

  /** The job stops the project, and the lock is free again before the project is read back. */
  lemma StoppedAndUnlocked() returns (es: seq<Step>, s: State, task: Task)
    ensures Exec(Start, es) == Some(s)
    ensures task == NewTask(1, Some(10), "c").(at := ReadBack, started := true, wrote := Some(Stopped))
    ensures s == State(map[1 := Project(Stopped, "")], map[10 := Row(1, "c", Running, false)],
                       map[1 := Caller(1, "c", Returned)], map[100 := task], map[1 := 100], map[], {100})
  {
    es, s, task := IssuedIntoJob();
    es, s := Do(es, s, JobWrites(100, Stopped));
    task := task.(wrote := Some(Stopped));
    assert s.projects == map[1 := Project(Stopped, "")] && s.tasks == map[100 := task];
    es, s := Do(es, s, Resume(100));
    task := task.(at := ReadBack);
    assert s.tasks == map[100 := task] && s.locks == map[];
  }

  /** A deploy-now task now brings the project up. */
  lemma BroughtUpByOther() returns (es: seq<Step>, s: State, task: Task)
    ensures Exec(Start, es) == Some(s)
    ensures task == NewTask(1, Some(10), "c").(at := ReadBack, started := true, wrote := Some(Stopped))
    ensures 100 in s.tasks && s.tasks[100] == task
    ensures s.projects == map[1 := Project(Up, "")] && s.rows == map[10 := Row(1, "c", Running, false)]
  {
    es, s, task := StoppedAndUnlocked();
    var other := NewTask(1, None, "");
    es, s := Do(es, s, DeployNow(200, 1));
    assert s.tasks == map[100 := task, 200 := other];
    es, s := Do(es, s, Resume(200));
    other := other.(at := AwaitLock, started := true);
    assert s.tasks == map[100 := task, 200 := other];
    es, s := Do(es, s, Resume(200));
    other := other.(at := InJob);
    assert s.tasks == map[100 := task, 200 := other];
    es, s := Do(es, s, JobWrites(200, Up));
    assert s.projects == map[1 := Project(Up, "")];
  }

  /** The first run reads this back, and sets its commit. */
  lemma BorrowedCommit() returns (es: seq<Step>, s: State, task: Task)
    ensures Exec(Start, es) == Some(s)
    ensures task
        == NewTask(1, Some(10), "c").(at := WriteOutcome(true), started := true, sawUp := true, wrote := Some(Stopped))
    ensures 100 in s.tasks && s.tasks[100] == task
    ensures s.projects == map[1 := Project(Up, "c")] && s.rows == map[10 := Row(1, "c", Running, false)]
  {
    es, s, task := BroughtUpByOther();
    es, s := Do(es, s, Resume(100));
    task := task.(at := WriteProject(true), sawUp := true);
    assert s.tasks[100] == task;
    es, s := Do(es, s, Resume(100));
    task := task.(at := WriteOutcome(true));
    assert s.tasks[100] == task && s.projects == map[1 := Project(Up, "c")];
  }

  lemma BorrowingRun() returns (es: seq<Step>, s: State, t: TaskId)
    ensures Exec(Start, es) == Some(s) && t in s.tasks && BorrowedSuccess(s, s.tasks[t])
  {
    var task;
    es, s, task := BorrowedCommit();
    t := 100;
    es, s := Do(es, s, Resume(100));
  }

  /** A cancellation that lands while an except handler is writing can leave a finished task with a
      row that still says running. */
  lemma CutHandlerLeavesRunning()
    ensures exists es, s, t :: Exec(Start, es) == Some(s) && t in s.tasks && LeftRunning(s, s.tasks[t])
  {
    var es, s, task := IssuedIntoJob();
    es, s := Do(es, s, CancelRequest(1));
    assert s.tasks == map[100 := task.(cancelRequested := true)];
    es, s := Do(es, s, Deliver(100, false));
    assert s.tasks == map[100 := task.(at := HandlerWrite(Cancelled))];
    es, s := Do(es, s, CancelRequest(1));
    es, s := Do(es, s, Deliver(100, false));
    assert LeftRunning(s, s.tasks[100]);
  }

  ghost predicate LeftRunning(s: State, task: Task) {
    && task.at.Done? && task.started && task.run.Some? && task.run.value in s.rows
    && s.rows[task.run.value].status == Running
  }
}
