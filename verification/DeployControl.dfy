/** Deploy control (syte/deployment.py) as a transition system.

    Everything runs on one event loop, so a step of the system is what one coroutine does between
    two awaits.  A run is any sequence of enabled steps: callers of `issue_deploy`, deploy-now
    tasks, cancellation, other endpoints that write the project row, and the loop's own
    done-callbacks may interleave in every possible way.  A woken waiter of the per-project lock is
    chosen freely here, which covers the first-in-first-out order of the real lock.
  */
module DeployControl {
  import opened Wrappers

  type ProjectId = nat
  type RunId = nat
  type TaskId = nat
  type CallerId = nat
  type Commit = string

  datatype ProjectStatus = Created | Deploying | Up | Stopped | Broken
  datatype Project = Project(status: ProjectStatus, lastDeployed: Commit)

  datatype RunStatus = Queued | Running | Succeeded | Failed | Cancelled {
    /** How far a deployment row has come. */
    function Rank(): nat {
      match this
      case Queued => 0
      case Running => 1
      case _ => 2
    }

    predicate Terminal() {
      Rank() == 2
    }
  }

  /** A row of deployment_runs; `finished` says that finished_at is set. */
  datatype Row = Row(project: ProjectId, commit: Commit, status: RunStatus, finished: bool)

  /** A caller of issue_deploy, by the await it is suspended at. */
  datatype CallerAt =
    | Entered               // get_project
    | Passed                // create_deployment_run, row not yet inserted
    | Inserted(run: RunId)  // create_deployment_run, row inserted
    | Returned

  datatype Caller = Caller(project: ProjectId, commit: Commit, at: CallerAt)

  /** A task, by the await it is suspended at. */
  datatype TaskAt =
    | Fresh                              // create_task done, body not started
    | MarkRunning                        // update_deployment_run(status=running)
    | AwaitLock                          // async with _deploy_locks[project_id]
    | InJob                              // inside the deploy job, lock held
    | ReadBack                           // get_project after the job
    | WriteProject(ok: bool)             // update_project: failed, or last_deployed_commit
    | WriteOutcome(ok: bool)             // update_deployment_run(status, finished_at)
    | Announce                           // publish_project_event
    | HandlerWrite(outcome: RunStatus)   // an except handler's update_deployment_run
    | HandlerAnnounce                    // an except handler's publish_project_event
    | Done

  /** `run` is None for a deploy-now task, which calls run_deploy_job directly.
      The last five fields record history and steer nothing:
      `started` the body has begun, `sawUp` the project was read back as running,
      `wrote` the last status this task's own job wrote, `settled` the outcome has been written,
      `cut` a cancellation landed inside an except handler before its row was written. */
  datatype Task = Task(project: ProjectId, run: Option<RunId>, commit: Commit, at: TaskAt, cancelRequested: bool,
                       started: bool, sawUp: bool, wrote: Option<ProjectStatus>, settled: bool, cut: bool)

  datatype State = State(
    projects: map<ProjectId, Project>,
    rows: map<RunId, Row>,
    callers: map<CallerId, Caller>,
    tasks: map<TaskId, Task>,
    registry: map<ProjectId, TaskId>,   // _deploy_running
    locks: map<ProjectId, TaskId>,      // holders of _deploy_locks
    callbacks: set<TaskId>)             // tasks whose _clear has not run yet

  datatype Step =
    | Enter(c: CallerId, project: ProjectId, commit: Commit)
    | Check(c: CallerId)
    | Insert(c: CallerId, run: RunId)
    | Register(c: CallerId, t: TaskId)
    | DeployNow(t: TaskId, project: ProjectId)
    | CancelRequest(project: ProjectId)
    | Resume(t: TaskId)
    | JobWrites(t: TaskId, status: ProjectStatus)
    | Deliver(t: TaskId, landed: bool)
    | Raise(t: TaskId)
    | Clear(t: TaskId)
    | Outside(project: ProjectId, row: Option<Project>)

  const Start := State(map[], map[], map[], map[], map[], map[], {})

  // ----- steps

  /** What a task does to its project's lock, its own row and its project row in one step. */
  datatype LockMove = Keep | Take | Release
  datatype Effect = Effect(task: Task, lock: LockMove, row: Option<RunStatus>, project: Option<Project>)

  function Move(task: Task, at: TaskAt): Effect {
    Effect(task.(at := at), Keep, None, None)
  }

  /** The project write after the read-back: status failed, or the commit when there is one.
      update_project on a missing row changes nothing. */
  function Written(task: Task, ok: bool, project: Option<Project>): Option<Project> {
    if project.None? then None
    else if !ok then Some(project.value.(status := Broken))
    else if task.commit != "" then Some(project.value.(lastDeployed := task.commit))
    else None
  }

  function Outcome(ok: bool): RunStatus {
    if ok then Succeeded else Failed
  }

  /** A task goes on from its await to the next one; `project` is its project's row, if any. */
  function Resumed(task: Task, project: Option<Project>): Effect
    requires !task.at.Done?
  {
    match task.at
    case Fresh => Move(task.(started := true), if task.run.Some? then MarkRunning else AwaitLock)
    case MarkRunning => Move(task, AwaitLock).(row := Some(Running))
    case AwaitLock => Move(task, InJob).(lock := Take)
    case InJob => Move(task, if task.run.Some? then ReadBack else Done).(lock := Release)
    case ReadBack =>
      var up := project.Some? && project.value.status.Up?;
      Effect(task.(at := if up && task.commit == "" then WriteOutcome(true) else WriteProject(up), sawUp := up),
             Keep, None, None)
    case WriteProject(ok) => Move(task, WriteOutcome(ok)).(project := Written(task, ok, project))
    case WriteOutcome(ok) => Move(task.(settled := true), Announce).(row := Some(Outcome(ok)))
    case Announce => Move(task, Done)
    case HandlerWrite(outcome) => Move(task, HandlerAnnounce).(row := Some(outcome))
    case HandlerAnnounce => Move(task, Done)
  }

  /** CancelledError is thrown into the task at its await.  A database write it was waiting for may
      or may not have landed. */
  function Interrupted(task: Task, landed: bool, project: Option<Project>): Effect
    requires !task.at.Done?
  {
    var hit := task.(cancelRequested := false);
    var caught := Move(hit, if task.run.Some? then HandlerWrite(Cancelled) else Done);
    match task.at
    case Fresh => Move(hit, Done)
    case MarkRunning => if landed then caught.(row := Some(Running)) else caught
    case InJob => caught.(lock := Release)
    case WriteProject(ok) => if landed then caught.(project := Written(task, ok, project)) else caught
    case WriteOutcome(ok) =>
      if landed then caught.(row := Some(Outcome(ok)), task := caught.task.(settled := true)) else caught
    case HandlerWrite(outcome) =>
      if landed then Move(hit, Done).(row := Some(outcome)) else Move(hit.(cut := true), Done)
    case HandlerAnnounce => Move(hit, Done)
    case _ => caught
  }

  /** Some other exception is raised at an await of the job or of a notification. */
  function Raised(task: Task): Effect {
    Move(task, if task.at.HandlerAnnounce? || task.run.None? then Done else HandlerWrite(Failed)).(
      lock := if task.at.InJob? then Release else Keep)
  }

  /** The job writes the status of its project row. */
  function JobWrote(task: Task, status: ProjectStatus, project: Option<Project>): Effect {
    if project.None? then Move(task, task.at)
    else Effect(task.(wrote := Some(status)), Keep, None, Some(project.value.(status := status)))
  }

  /** Is there a registered task of the project that is not done? */
  predicate InProgress(s: State, p: ProjectId) {
    p in s.registry && s.registry[p] in s.tasks && !s.tasks[s.registry[p]].at.Done?
  }

  function ProjectOf(s: State, task: Task): Option<Project> {
    if task.project in s.projects then Some(s.projects[task.project]) else None
  }

  predicate Enabled(s: State, e: Step) {
    match e
    case Enter(c, _, _) => c !in s.callers
    case Check(c) => c in s.callers && s.callers[c].at.Entered?
    case Insert(c, run) => c in s.callers && s.callers[c].at.Passed? && run !in s.rows
    case Register(c, t) => c in s.callers && s.callers[c].at.Inserted? && t !in s.tasks
    case DeployNow(t, _) => t !in s.tasks
    case CancelRequest(p) => InProgress(s, p)
    case Resume(t) =>
      && t in s.tasks && !s.tasks[t].cancelRequested && !s.tasks[t].at.Done?
      && (s.tasks[t].at.AwaitLock? ==> s.tasks[t].project !in s.locks)
    case JobWrites(t, _) => t in s.tasks && !s.tasks[t].cancelRequested && s.tasks[t].at.InJob?
    case Deliver(t, _) => t in s.tasks && s.tasks[t].cancelRequested && !s.tasks[t].at.Done?
    case Raise(t) =>
      && t in s.tasks && !s.tasks[t].cancelRequested
      && (s.tasks[t].at.InJob? || s.tasks[t].at.Announce? || s.tasks[t].at.HandlerAnnounce?)
    case Clear(t) => t in s.callbacks && t in s.tasks && s.tasks[t].at.Done?
    case Outside(p, row) =>
      row.Some? ==> row.value.lastDeployed == if p in s.projects then s.projects[p].lastDeployed else ""
  }

  /** The task that takes the step, if the step is one of a task. */
  function Actor(s: State, e: Step): Option<TaskId>
    requires Enabled(s, e)
    ensures Actor(s, e).Some? ==> Actor(s, e).value in s.tasks && !s.tasks[Actor(s, e).value].at.Done?
  {
    match e
    case CancelRequest(p) => Some(s.registry[p])
    case Resume(t) => Some(t)
    case JobWrites(t, _) => Some(t)
    case Deliver(t, _) => Some(t)
    case Raise(t) => Some(t)
    case _ => None
  }

  function EffectOf(s: State, e: Step): Effect
    requires Enabled(s, e) && Actor(s, e).Some?
  {
    var task := s.tasks[Actor(s, e).value];
    match e
    case CancelRequest(_) => Effect(task.(cancelRequested := true), Keep, None, None)
    case Resume(_) => Resumed(task, ProjectOf(s, task))
    case JobWrites(_, status) => JobWrote(task, status, ProjectOf(s, task))
    case Deliver(_, landed) => Interrupted(task, landed, ProjectOf(s, task))
    case _ => Raised(task)
  }

  /** A task's step: its own record, its project's lock, its own row, its project's row. */
  function Perform(s: State, t: TaskId, f: Effect): State
    requires t in s.tasks
  {
    var p, run := f.task.project, f.task.run;
    s.(tasks := s.tasks[t := f.task],
       locks := match f.lock case Keep => s.locks case Take => s.locks[p := t] case Release => s.locks - {p},
       rows := if f.row.Some? && run.Some? && run.value in s.rows
               then s.rows[run.value := s.rows[run.value].(status := f.row.value, finished := f.row.value.Terminal())]
               else s.rows,
       projects := if f.project.Some? then s.projects[p := f.project.value] else s.projects)
  }

  function Apply(s: State, e: Step): State
    requires Enabled(s, e)
  {
    if Actor(s, e).Some? then Perform(s, Actor(s, e).value, EffectOf(s, e)) else
    match e
    case Enter(c, p, commit) => s.(callers := s.callers[c := Caller(p, commit, Entered)])
    case Check(c) =>
      var p := s.callers[c].project;
      Advance(s, c, if p !in s.projects || InProgress(s, p) then Returned else Passed)
    case Insert(c, run) =>
      var caller := s.callers[c];
      Advance(s, c, Inserted(run)).(rows := s.rows[run := Row(caller.project, caller.commit, Queued, false)])
    case Register(c, t) =>
      var caller := s.callers[c];
      Advance(s, c, Returned).(
        tasks := s.tasks[t := NewTask(caller.project, Some(caller.at.run), caller.commit)],
        registry := s.registry[caller.project := t],
        callbacks := s.callbacks + {t})
    case DeployNow(t, p) => s.(tasks := s.tasks[t := NewTask(p, None, "")])
    case Clear(t) =>
      var p := s.tasks[t].project;
      s.(callbacks := s.callbacks - {t},
         registry := if p in s.registry && s.registry[p] == t then s.registry - {p} else s.registry)
    case Outside(p, row) =>
      s.(projects := if row.None? then s.projects - {p} else s.projects[p := row.value])
  }

  function NewTask(p: ProjectId, run: Option<RunId>, commit: Commit): Task {
    Task(p, run, commit, Fresh, false, false, false, None, false, false)
  }

  function Advance(s: State, c: CallerId, at: CallerAt): State
    requires c in s.callers
  {
    s.(callers := s.callers[c := s.callers[c].(at := at)])
  }

  // ----- runs

  /** The state after a run of steps, or None when some step of it is not enabled. */
  function Exec(s: State, es: seq<Step>): Option<State> {
    if es == [] then Some(s)
    else
      var before := Exec(s, es[..|es| - 1]);
      if before.Some? && Enabled(before.value, es[|es| - 1]) then Some(Apply(before.value, es[|es| - 1])) else None
  }

  // ----- invariants

  /** A task is inside the deploy job exactly when it holds its project's lock. */
  ghost predicate LocksMatch(s: State) {
    && (forall t :: t in s.tasks && s.tasks[t].at.InJob? ==>
          s.tasks[t].project in s.locks && s.locks[s.tasks[t].project] == t)
    && (forall p :: p in s.locks ==>
          s.locks[p] in s.tasks && s.tasks[s.locks[p]].at.InJob? && s.tasks[s.locks[p]].project == p)
  }

  /** What the row of a task says, by where the task is. */
  ghost predicate RowFits(task: Task, row: Row) {
    && task.project == row.project
    && task.commit == row.commit
    && (task.at.Fresh? ==> !task.started && !task.cut && !task.settled)
    && (task.at.Fresh? || (task.at.Done? && !task.started) || task.at.MarkRunning? ==> row.status.Queued?)
    && (task.at.AwaitLock? || task.at.InJob? || task.at.ReadBack? || task.at.WriteProject? || task.at.WriteOutcome?
        ==> row.status.Running? && !task.settled)
    && (task.at.MarkRunning? ==> !task.settled)
    && (task.at.WriteProject? || task.at.WriteOutcome? ==> task.at.ok == task.sawUp)
    && (task.at.Announce? ==> task.settled && row.status == Outcome(task.sawUp))
    && (task.at.HandlerWrite? ==> task.at.outcome.Terminal() && (row.status.Terminal() <==> task.settled))
    && (task.at.HandlerAnnounce? ==> row.status.Terminal())
    && (!task.at.Fresh? && !task.at.Done? ==> task.started && !task.cut)
    && (task.at.Done? && task.started ==> (row.status.Terminal() <==> !task.cut || task.settled))
  }

  /** Every row says what its writer has got to, and has its finish time once it is terminal. */
  ghost predicate RowsMatch(s: State) {
    && (forall run :: run in s.rows ==> (s.rows[run].finished <==> s.rows[run].status.Terminal()))
    && (forall t :: t in s.tasks && s.tasks[t].run.Some? ==>
          s.tasks[t].run.value in s.rows && RowFits(s.tasks[t], s.rows[s.tasks[t].run.value]))
    && (forall c :: c in s.callers && s.callers[c].at.Inserted? ==>
          var run := s.callers[c].at.run;
          run in s.rows && s.rows[run] == Row(s.callers[c].project, s.callers[c].commit, Queued, false))
  }

  /** No two tasks, no two callers, and no task and caller share a row. */
  ghost predicate WritersDistinct(s: State) {
    && (forall t, u :: t in s.tasks && u in s.tasks && s.tasks[t].run.Some? && s.tasks[t].run == s.tasks[u].run
          ==> t == u)
    && (forall c, t :: c in s.callers && t in s.tasks && s.callers[c].at.Inserted?
          ==> s.tasks[t].run != Some(s.callers[c].at.run))
    && (forall c, d :: c in s.callers && d in s.callers && s.callers[c].at.Inserted? ==>
          s.callers[c].at == s.callers[d].at ==> c == d)
  }

  /** The registry names issued tasks of the right project whose callback has not run. */
  ghost predicate RegistryMatches(s: State) {
    && (forall p :: p in s.registry ==>
          && s.registry[p] in s.tasks && s.tasks[s.registry[p]].project == p
          && s.registry[p] in s.callbacks)
    && (forall t :: t in s.callbacks ==> t in s.tasks && s.tasks[t].run.Some?)
    && (forall t :: t in s.tasks && s.tasks[t].run.Some? && !s.tasks[t].at.Done? ==> t in s.callbacks)
  }

  ghost predicate CommitReady(task: Task) {
    && (task.at.Fresh? || task.at.MarkRunning? || task.at.AwaitLock? || task.at.InJob? || task.at.ReadBack? ==>
      !task.sawUp)
    && (task.at == WriteProject(true) ==> task.sawUp && task.commit != "")
  }

  /** A commit on a project row came from a run of that commit which read the project as running. */
  ghost predicate CommitsMatch(s: State) {
    && (forall t :: t in s.tasks ==> CommitReady(s.tasks[t]))
    && (forall p :: p in s.projects && s.projects[p].lastDeployed != "" ==>
          exists t :: t in s.tasks && DeployedBy(s.tasks[t], p, s.projects[p].lastDeployed))
  }

  ghost predicate DeployedBy(task: Task, p: ProjectId, commit: Commit) {
    task.project == p && task.commit == commit && task.sawUp
  }

  ghost predicate Inv(s: State) {
    LocksMatch(s) && RowsMatch(s) && WritersDistinct(s) && RegistryMatches(s) && CommitsMatch(s)
  }

  /** What every effect keeps to. */
  ghost predicate Decent(task: Task, f: Effect) {
    && f.task.project == task.project && f.task.run == task.run && f.task.commit == task.commit
    && (f.lock.Take? <==> task.at.AwaitLock? && f.task.at.InJob?)
    && (f.lock.Release? <==> task.at.InJob? && !f.task.at.InJob?)
    && (f.lock.Keep? ==> (task.at.InJob? <==> f.task.at.InJob?))
    && (CommitReady(task) ==> CommitReady(f.task) && (task.sawUp ==> f.task.sawUp))
  }

  lemma EarlyIsDecent(task: Task, project: Option<Project>)
    requires task.at.Fresh? || task.at.MarkRunning? || task.at.AwaitLock? || task.at.InJob?
    ensures Decent(task, Resumed(task, project))
  {
  }

  lemma LateIsDecent(task: Task, project: Option<Project>)
    requires task.at.ReadBack? || task.at.WriteProject? || task.at.WriteOutcome?
    ensures Decent(task, Resumed(task, project))
  {
  }

  lemma ResumedIsDecent(task: Task, project: Option<Project>)
    requires !task.at.Done?
    ensures Decent(task, Resumed(task, project))
  {
    if task.at.Fresh? || task.at.MarkRunning? || task.at.AwaitLock? || task.at.InJob? {
      EarlyIsDecent(task, project);
    } else if task.at.ReadBack? || task.at.WriteProject? || task.at.WriteOutcome? {
      LateIsDecent(task, project);
    }
  }

  lemma InterruptedIsDecent(task: Task, landed: bool, project: Option<Project>)
    requires !task.at.Done?
    ensures Decent(task, Interrupted(task, landed, project))
  {
  }

  /** At an await that writes nothing and holds nothing, a cancellation only moves the task. */
  lemma InterruptedQuietly(task: Task, landed: bool, project: Option<Project>)
    requires task.at.AwaitLock? || task.at.ReadBack? || task.at.Announce?
    ensures Interrupted(task, landed, project)
            == Move(task.(cancelRequested := false), if task.run.Some? then HandlerWrite(Cancelled) else Done)
  {
  }

  lemma EffectsAreDecent(s: State, e: Step)
    requires Enabled(s, e) && Actor(s, e).Some?
    ensures Decent(s.tasks[Actor(s, e).value], EffectOf(s, e))
  {
    var task := s.tasks[Actor(s, e).value];
    match e
    case Resume(_) => ResumedIsDecent(task, ProjectOf(s, task));
    case Deliver(_, landed) => InterruptedIsDecent(task, landed, ProjectOf(s, task));
    case _ =>
  }

  lemma EarlyFitsRow(task: Task, row: Row, project: Option<Project>)
    requires task.at.Fresh? || task.at.MarkRunning? || task.at.AwaitLock? || task.at.InJob?
    requires RowFits(task, row) && task.run.Some?
    ensures FitsAfter(task, row, Resumed(task, project))
  {
  }

  lemma LateFitsRow(task: Task, row: Row, project: Option<Project>)
    requires !(task.at.Fresh? || task.at.MarkRunning? || task.at.AwaitLock? || task.at.InJob? || task.at.Done?)
    requires RowFits(task, row) && task.run.Some?
    ensures FitsAfter(task, row, Resumed(task, project))
  {
  }

  lemma InterruptedFitsRow(task: Task, row: Row, landed: bool, project: Option<Project>)
    requires !task.at.Done? && RowFits(task, row) && task.run.Some?
    ensures FitsAfter(task, row, Interrupted(task, landed, project))
  {
  }

  lemma EffectFitsRow(s: State, e: Step, row: Row)
    requires Enabled(s, e) && Actor(s, e).Some?
    requires RowFits(s.tasks[Actor(s, e).value], row) && s.tasks[Actor(s, e).value].run.Some?
    ensures FitsAfter(s.tasks[Actor(s, e).value], row, EffectOf(s, e))
  {
    var task := s.tasks[Actor(s, e).value];
    if e.Resume? {
      if task.at.Fresh? || task.at.MarkRunning? || task.at.AwaitLock? || task.at.InJob? {
        EarlyFitsRow(task, row, ProjectOf(s, task));
      } else {
        LateFitsRow(task, row, ProjectOf(s, task));
      }
    } else if e.Deliver? {
      InterruptedFitsRow(task, row, e.landed, ProjectOf(s, task));
    }
  }

  lemma PerformKeepsLocks(s: State, t: TaskId, f: Effect)
    requires LocksMatch(s) && t in s.tasks && Decent(s.tasks[t], f)
    requires f.lock.Take? ==> f.task.project !in s.locks
    ensures LocksMatch(Perform(s, t, f))
  {
  }

  lemma LocksKept(s: State, e: Step)
    requires LocksMatch(s) && Enabled(s, e)
    ensures LocksMatch(Apply(s, e))
  {
    if Actor(s, e).Some? {
      EffectsAreDecent(s, e);
      OnlyFreeLocksTaken(s, e);
      PerformKeepsLocks(s, Actor(s, e).value, EffectOf(s, e));
    }
  }

  lemma OnlyFreeLocksTaken(s: State, e: Step)
    requires Enabled(s, e) && Actor(s, e).Some?
    ensures EffectOf(s, e).lock.Take? ==> EffectOf(s, e).task.project !in s.locks
  {
  }

  ghost predicate FitsAfter(task: Task, row: Row, f: Effect) {
    && RowFits(f.task, if f.row.Some? then row.(status := f.row.value, finished := f.row.value.Terminal()) else row)
    && (f.row.Some? ==> 0 < f.row.value.Rank() && row.status.Rank() <= f.row.value.Rank())
  }

  lemma PerformKeepsWriters(s: State, t: TaskId, f: Effect)
    requires WritersDistinct(s) && t in s.tasks && Decent(s.tasks[t], f)
    ensures WritersDistinct(Perform(s, t, f))
  {
    var s' := Perform(s, t, f);
    assert forall u :: u in s.tasks ==> s'.tasks[u].run == s.tasks[u].run;
  }

  lemma PerformKeepsRows(s: State, t: TaskId, f: Effect)
    requires RowsMatch(s) && WritersDistinct(s) && t in s.tasks && Decent(s.tasks[t], f)
    requires f.task.run.Some? ==> FitsAfter(s.tasks[t], s.rows[f.task.run.value], f)
    ensures RowsMatch(Perform(s, t, f))
  {
    var s' := Perform(s, t, f);
    assert forall u :: u in s.tasks ==> s'.tasks[u].run == s.tasks[u].run;
    assert s'.callers == s.callers;
  }

  lemma RowsKept(s: State, e: Step)
    requires RowsMatch(s) && WritersDistinct(s) && Enabled(s, e)
    ensures RowsMatch(Apply(s, e)) && WritersDistinct(Apply(s, e))
  {
    if Actor(s, e).Some? {
      var t := Actor(s, e).value;
      EffectsAreDecent(s, e);
      if s.tasks[t].run.Some? {
        EffectFitsRow(s, e, s.rows[s.tasks[t].run.value]);
      }
      PerformKeepsWriters(s, t, EffectOf(s, e));
      PerformKeepsRows(s, t, EffectOf(s, e));
    } else if e.Insert? {
      InsertKeepsRows(s, e);
    } else if e.Register? {
      RegisterKeepsRows(s, e);
    }
  }

  lemma InsertKeepsRows(s: State, e: Step)
    requires RowsMatch(s) && WritersDistinct(s) && Enabled(s, e) && e.Insert?
    ensures RowsMatch(Apply(s, e)) && WritersDistinct(Apply(s, e))
  {
  }

  lemma RegisterKeepsRows(s: State, e: Step)
    requires RowsMatch(s) && WritersDistinct(s) && Enabled(s, e) && e.Register?
    ensures RowsMatch(Apply(s, e)) && WritersDistinct(Apply(s, e))
  {
    var run := s.callers[e.c].at.run;
    assert Apply(s, e).rows == s.rows;
    assert RowFits(Apply(s, e).tasks[e.t], s.rows[run]);
  }

  lemma PerformKeepsRegistry(s: State, t: TaskId, f: Effect)
    requires RegistryMatches(s) && t in s.tasks && Decent(s.tasks[t], f) && !s.tasks[t].at.Done?
    ensures RegistryMatches(Perform(s, t, f))
  {
  }

  lemma RegistryKept(s: State, e: Step)
    requires RegistryMatches(s) && Enabled(s, e)
    ensures RegistryMatches(Apply(s, e))
  {
    if Actor(s, e).Some? {
      EffectsAreDecent(s, e);
      PerformKeepsRegistry(s, Actor(s, e).value, EffectOf(s, e));
    }
  }

  lemma CommitsKept(s: State, e: Step)
    requires CommitsMatch(s) && Enabled(s, e)
    ensures CommitsMatch(Apply(s, e))
  {
    var s' := Apply(s, e);
    if Actor(s, e).Some? {
      EffectsAreDecent(s, e);
      EffectCommit(s, e);
    }
    forall p | p in s'.projects && s'.projects[p].lastDeployed != ""
      ensures exists t :: t in s'.tasks && DeployedBy(s'.tasks[t], p, s'.projects[p].lastDeployed)
    {
      if p in s.projects && s.projects[p].lastDeployed == s'.projects[p].lastDeployed {
        var t :| t in s.tasks && DeployedBy(s.tasks[t], p, s.projects[p].lastDeployed);
        assert t in s'.tasks && DeployedBy(s'.tasks[t], p, s'.projects[p].lastDeployed);
      } else {
        var t := Actor(s, e).value;
        assert t in s'.tasks && DeployedBy(s'.tasks[t], p, s'.projects[p].lastDeployed);
      }
    }
  }

  /** Only the project write of a successful run of a commit changes last_deployed_commit. */
  lemma EffectCommit(s: State, e: Step)
    requires Enabled(s, e) && Actor(s, e).Some?
    ensures var task, f := s.tasks[Actor(s, e).value], EffectOf(s, e);
      f.project.Some? ==>
        && task.project in s.projects
        && (f.project.value.lastDeployed == s.projects[task.project].lastDeployed
            || (task.at == WriteProject(true) && f.project.value.lastDeployed == task.commit))
  {
  }
}
