/** What a finished deploy leaves in its row, by what happened in the run.

    The history is read off the steps of the run and the awaits they found the task at.  It does not
    go by the fields that the tasks carry along, nor by what the system does in a step.
  */
module DeployOutcomes {
  import opened Wrappers
  import opened DeployControl
  import opened DeployTheorems

  /** What decided a task's end last. */
  datatype Cause = Nothing | Exception | Cancellation | OwnOutcome

  /** `up`: the project was read back as running.  `began`: the body has started.  `cut`: a
      cancellation kept a handler from writing. */
  datatype History = History(cause: Cause, up: bool, began: bool, cut: bool)

  const Blank := History(Nothing, false, false, false)

  /** What one step adds to the history of a task that it finds at an await; `up` says whether the
      project is running. */
  function Noted(h: History, e: Step, t: TaskId, at: TaskAt, up: bool): History {
    match e
    case Raise(u) => if u == t && !at.HandlerAnnounce? then h.(cause := Exception) else h
    case Deliver(u, landed) =>
      if u != t || at.Fresh? || at.HandlerAnnounce? then h
      else if at.HandlerWrite? then h.(cut := !landed)
      else h.(cause := Cancellation)
    case Resume(u) =>
      if u != t then h
      else if at.Fresh? then h.(began := true)
      else if at.ReadBack? then h.(up := up)
      else if at.WriteOutcome? then h.(cause := OwnOutcome)
      else h
    case _ => h
  }

  ghost function HistoryOf(es: seq<Step>, t: TaskId): History
    requires Exec(Start, es).Some?
  {
    if es == [] then Blank
    else
      var before, h := Exec(Start, es[..|es| - 1]).value, HistoryOf(es[..|es| - 1], t);
      if t !in before.tasks then h
      else
        var p := before.tasks[t].project;
        Noted(h, es[|es| - 1], t, before.tasks[t].at, p in before.projects && before.projects[p].status == Up)
  }

  /** What the row has to say in the end. */
  function Verdict(h: History): RunStatus {
    match h.cause
    case Nothing => Queued
    case Exception => Failed
    case Cancellation => Cancelled
    case OwnOutcome => if h.up then Succeeded else Failed
  }

  /** How the history, the task and its row go together at every await. */
  ghost predicate Agrees(task: Task, row: Row, h: History) {
    && h.began == task.started && h.cut == task.cut
    && (task.at.Fresh? || task.at.MarkRunning? || task.at.AwaitLock? || task.at.InJob? ==> h.cause == Nothing)
    && (task.at.ReadBack? || task.at.WriteProject? || task.at.WriteOutcome? ==> h.cause == Nothing)
    && (task.at.WriteProject? || task.at.WriteOutcome? ==> task.at.ok == h.up)
    && (task.at.Announce? ==> h.cause == OwnOutcome && row.status == Verdict(h))
    && (task.at.HandlerWrite? ==> h.cause != Nothing && task.at.outcome == Verdict(h))
    && (task.at.HandlerAnnounce? ==> h.cause != Nothing && row.status == Verdict(h))
    && (task.at.Done? && h.began && !h.cut ==> h.cause != Nothing && row.status == Verdict(h))
  }

  ghost predicate ProjectUp(project: Option<Project>) {
    project.Some? && project.value.status == Up
  }

  /** One effect keeps them together. */
  ghost predicate KeepsAgreeing(task: Task, row: Row, project: Option<Project>, h: History, e: Step, t: TaskId,
                                f: Effect) {
    Agrees(task, row, h) && RowFits(task, row) ==>
      Agrees(f.task, RowAfter(f, Some(row)).value, Noted(h, e, t, task.at, ProjectUp(project)))
  }

  lemma EarlyAgrees(task: Task, row: Row, project: Option<Project>, h: History, t: TaskId)
    requires task.at.Fresh? || task.at.MarkRunning? || task.at.AwaitLock? || task.at.InJob?
    requires task.run.Some?
    ensures KeepsAgreeing(task, row, project, h, Resume(t), t, Resumed(task, project))
  {
  }

  lemma LateAgrees(task: Task, row: Row, project: Option<Project>, h: History, t: TaskId)
    requires task.at.ReadBack? || task.at.WriteProject? || task.at.WriteOutcome?
    requires task.run.Some?
    ensures KeepsAgreeing(task, row, project, h, Resume(t), t, Resumed(task, project))
  {
  }

  lemma EndAgrees(task: Task, row: Row, project: Option<Project>, h: History, t: TaskId)
    requires task.at.Announce? || task.at.HandlerWrite? || task.at.HandlerAnnounce?
    requires task.run.Some?
    ensures KeepsAgreeing(task, row, project, h, Resume(t), t, Resumed(task, project))
  {
  }

  lemma InterruptAgrees(task: Task, row: Row, project: Option<Project>, h: History, t: TaskId, landed: bool)
    requires !task.at.Done? && !task.at.HandlerWrite? && !task.at.HandlerAnnounce? && task.run.Some?
    ensures KeepsAgreeing(task, row, project, h, Deliver(t, landed), t, Interrupted(task, landed, project))
  {
  }

  lemma HandlerInterruptAgrees(task: Task, row: Row, project: Option<Project>, h: History, t: TaskId, landed: bool)
    requires (task.at.HandlerWrite? || task.at.HandlerAnnounce?) && task.run.Some?
    ensures KeepsAgreeing(task, row, project, h, Deliver(t, landed), t, Interrupted(task, landed, project))
  {
  }

  lemma RaiseAgrees(task: Task, row: Row, project: Option<Project>, h: History, t: TaskId)
    requires (task.at.InJob? || task.at.Announce? || task.at.HandlerAnnounce?) && task.run.Some?
    ensures KeepsAgreeing(task, row, project, h, Raise(t), t, Raised(task))
  {
  }

  lemma EffectAgrees(s: State, e: Step, row: Row, h: History)
    requires Enabled(s, e) && Actor(s, e).Some? && s.tasks[Actor(s, e).value].run.Some?
    ensures var t := Actor(s, e).value;
      KeepsAgreeing(s.tasks[t], row, ProjectOf(s, s.tasks[t]), h, e, t, EffectOf(s, e))
  {
    var t := Actor(s, e).value;
    var task := s.tasks[t];
    var project := ProjectOf(s, task);
    if e.Resume? {
      if task.at.Fresh? || task.at.MarkRunning? || task.at.AwaitLock? || task.at.InJob? {
        EarlyAgrees(task, row, project, h, t);
      } else if task.at.ReadBack? || task.at.WriteProject? || task.at.WriteOutcome? {
        LateAgrees(task, row, project, h, t);
      } else {
        EndAgrees(task, row, project, h, t);
      }
    } else if e.Deliver? {
      if task.at.HandlerWrite? || task.at.HandlerAnnounce? {
        HandlerInterruptAgrees(task, row, project, h, t, e.landed);
      } else {
        InterruptAgrees(task, row, project, h, t, e.landed);
      }
    } else if e.Raise? {
      RaiseAgrees(task, row, project, h, t);
    }
  }

  /** A task's step, as its own row and record see it. */
  lemma ActorAgrees(s: State, e: Step, h: History)
    requires RowsMatch(s) && Enabled(s, e) && Actor(s, e).Some? && s.tasks[Actor(s, e).value].run.Some?
    requires var t := Actor(s, e).value; Agrees(s.tasks[t], s.rows[s.tasks[t].run.value], h)
    ensures var t, s' := Actor(s, e).value, Apply(s, e);
      && t in s'.tasks && s'.tasks[t].run == s.tasks[t].run && s.tasks[t].run.value in s'.rows
      && Agrees(s'.tasks[t], s'.rows[s.tasks[t].run.value],
                Noted(h, e, t, s.tasks[t].at, ProjectUp(ProjectOf(s, s.tasks[t]))))
  {
    var t := Actor(s, e).value;
    EffectsAreDecent(s, e);
    EffectAgrees(s, e, s.rows[s.tasks[t].run.value], h);
    PerformShows(s, t, EffectOf(s, e));
  }

  /** A step of somebody else touches neither the task nor its row, and adds nothing. */
  lemma OthersAgree(s: State, e: Step, t: TaskId, h: History, up: bool)
    requires RowsMatch(s) && WritersDistinct(s) && Enabled(s, e) && t in s.tasks && s.tasks[t].run.Some?
    requires Actor(s, e) != Some(t)
    ensures t in Apply(s, e).tasks && Apply(s, e).tasks[t] == s.tasks[t]
    ensures s.tasks[t].run.value in Apply(s, e).rows
    ensures Apply(s, e).rows[s.tasks[t].run.value] == s.rows[s.tasks[t].run.value]
    ensures Noted(h, e, t, s.tasks[t].at, up) == h
  {
    if Actor(s, e).Some? {
      EffectsAreDecent(s, e);
    }
  }

  lemma {:induction false} UnbornIsBlank(es: seq<Step>, s: State, t: TaskId)
    requires Exec(Start, es) == Some(s) && t !in s.tasks
    ensures HistoryOf(es, t) == Blank
  {
    if es != [] {
      UnbornIsBlank(es[..|es| - 1], Exec(Start, es[..|es| - 1]).value, t);
    }
  }

  lemma BornAgrees(s: State, e: Step, t: TaskId)
    requires RowsMatch(s) && Enabled(s, e) && t !in s.tasks && t in Apply(s, e).tasks && Apply(s, e).tasks[t].run.Some?
    ensures var s' := Apply(s, e);
      s'.tasks[t].run.value in s'.rows && Agrees(s'.tasks[t], s'.rows[s'.tasks[t].run.value], Blank)
  {
    if Actor(s, e).Some? {
      EffectsAreDecent(s, e);
    }
  }

  /** In every run the history and the row of a recorded task agree. */
  lemma {:induction false} HistoryAgrees(es: seq<Step>, s: State, t: TaskId)
    requires Exec(Start, es) == Some(s) && t in s.tasks && s.tasks[t].run.Some?
    ensures s.tasks[t].run.value in s.rows
    ensures Agrees(s.tasks[t], s.rows[s.tasks[t].run.value], HistoryOf(es, t))
  {
    if es != [] {
      var front, e := es[..|es| - 1], es[|es| - 1];
      var before := Exec(Start, front).value;
      ReachableInv(front, before);
      if t !in before.tasks {
        UnbornIsBlank(front, before, t);
        BornAgrees(before, e, t);
      } else {
        RunStays(before, e, t);
        HistoryAgrees(front, before, t);
        if Actor(before, e) == Some(t) {
          ActorAgrees(before, e, HistoryOf(front, t));
        } else {
          OthersAgree(before, e, t, HistoryOf(front, t), ProjectUp(ProjectOf(before, before.tasks[t])));
        }
      }
    }
  }

  lemma RunStays(s: State, e: Step, t: TaskId)
    requires Enabled(s, e) && t in s.tasks
    ensures t in Apply(s, e).tasks && Apply(s, e).tasks[t].run == s.tasks[t].run
    ensures Apply(s, e).tasks[t].project == s.tasks[t].project && Apply(s, e).tasks[t].commit == s.tasks[t].commit
  {
    if Actor(s, e).Some? {
      EffectsAreDecent(s, e);
    }
  }

  /** In every run: when a task whose body began is done, and no handler was kept from writing, its row
      says failed after an exception, cancelled after a cancellation, and else what was read back; and
      it is finished.  When the body never began, the row is queued. */
  lemma FinalRow(es: seq<Step>, s: State, t: TaskId)
    requires Exec(Start, es) == Some(s) && t in s.tasks && s.tasks[t].run.Some? && s.tasks[t].at.Done?
    ensures s.tasks[t].run.value in s.rows
    ensures var row, h := s.rows[s.tasks[t].run.value], HistoryOf(es, t);
      && (h.began && !h.cut ==> h.cause != Nothing && row.status == Verdict(h) && row.finished)
      && (!h.began ==> row.status == Queued && !row.finished)
  {
    ReachableInv(es, s);
    HistoryAgrees(es, s, t);
  }

  /** The project write says what was read back: the commit of a project that was running, failed for
      any other. */
  lemma ProjectSaysWhatWasRead(es: seq<Step>, s: State, t: TaskId)
    requires Exec(Start, es) == Some(s) && t in s.tasks && s.tasks[t].run.Some? && s.tasks[t].at.WriteProject?
    requires Enabled(s, Resume(t)) && s.tasks[t].project in s.projects
    ensures var p, s' := s.tasks[t].project, Apply(s, Resume(t));
      s'.projects == s.projects[p := if HistoryOf(es, t).up then s.projects[p].(lastDeployed := s.tasks[t].commit)
                                     else s.projects[p].(status := Broken)]
  {
    ReachableInv(es, s);
    HistoryAgrees(es, s, t);
  }

  /** A run that was read back as running comes to that write exactly when it has a commit. */
  lemma CommitIsWritten(es: seq<Step>, s: State, t: TaskId)
    requires Exec(Start, es) == Some(s) && t in s.tasks && s.tasks[t].run.Some? && s.tasks[t].at.ReadBack?
    requires Enabled(s, Resume(t))
    ensures var p, s' := s.tasks[t].project, Apply(s, Resume(t));
      var up := p in s.projects && s.projects[p].status == Up;
      t in s'.tasks && (s'.tasks[t].at.WriteProject? <==> !up || s.tasks[t].commit != "")
  {
  }

  /** The state as it would be had nobody asked to cancel the task. */
  function Uncancelled(s: State, t: TaskId): State
    requires t in s.tasks
  {
    s.(tasks := s.tasks[t := s.tasks[t].(cancelRequested := false)])
  }

  predicate Writing(at: TaskAt) {
    at.MarkRunning? || at.WriteProject? || at.WriteOutcome? || at.HandlerWrite?
  }

  /** Two effects write the same. */
  predicate WriteAlike(f: Effect, g: Effect) {
    f.row == g.row && f.project == g.project && f.task.run == g.task.run && f.task.project == g.task.project
  }

  lemma LandedWrites(task: Task, project: Option<Project>)
    requires Writing(task.at)
    ensures WriteAlike(Interrupted(task, true, project), Resumed(task.(cancelRequested := false), project))
  {
  }

  lemma PerformedAlike(s: State, s0: State, t: TaskId, f: Effect, g: Effect)
    requires t in s.tasks && t in s0.tasks && s.rows == s0.rows && s.projects == s0.projects && WriteAlike(f, g)
    ensures Perform(s, t, f).rows == Perform(s0, t, g).rows
    ensures Perform(s, t, f).projects == Perform(s0, t, g).projects
  {
  }

  /** A cancellation that finds the task at a database write leaves the rows as that write would have
      left them if it had landed. */
  lemma LandedWriteStands(s: State, t: TaskId)
    requires Enabled(s, Deliver(t, true)) && Writing(s.tasks[t].at)
    ensures Apply(s, Deliver(t, true)).rows == Apply(Uncancelled(s, t), Resume(t)).rows
    ensures Apply(s, Deliver(t, true)).projects == Apply(Uncancelled(s, t), Resume(t)).projects
  {
    LandedWrites(s.tasks[t], ProjectOf(s, s.tasks[t]));
    PerformedAlike(s, Uncancelled(s, t), t, EffectOf(s, Deliver(t, true)), EffectOf(Uncancelled(s, t), Resume(t)));
  }

  /** Any other cancellation, and every exception, leaves them as they were. */
  lemma NothingElseIsWritten(s: State, e: Step)
    requires Enabled(s, e) && (e.Raise? || (e.Deliver? && !(e.landed && Writing(s.tasks[e.t].at))))
    ensures Apply(s, e).rows == s.rows && Apply(s, e).projects == s.projects
  {
    var f := EffectOf(s, e);
    assert f.row == None && f.project == None;
  }

  /** Either gives up the task's lock, and no other. */
  lemma LockIsGivenUp(s: State, e: Step)
    requires Enabled(s, e) && (e.Deliver? || e.Raise?) && LocksMatch(s)
    ensures forall p :: p in Apply(s, e).locks <==> p in s.locks && s.locks[p] != e.t
    ensures forall p :: p in Apply(s, e).locks ==> Apply(s, e).locks[p] == s.locks[p]
  {
    var f := EffectOf(s, e);
    assert f.lock == if s.tasks[e.t].at.InJob? then Release else Keep;
    assert f.task.project == s.tasks[e.t].project;
  }

  // ----- what was asked for

  /** The caller entered with its project and its commit, and any row it holds it has inserted. */
  ghost predicate CallerTold(es: seq<Step>, s: State, c: CallerId) {
    c in s.callers ==>
      && Enter(c, s.callers[c].project, s.callers[c].commit) in es
      && (s.callers[c].at.Inserted? ==> Insert(c, s.callers[c].at.run) in es)
  }

  ghost predicate InsertedBy(es: seq<Step>, s: State, run: RunId, c: CallerId) {
    && c in s.callers && run in s.rows && Insert(c, run) in es
    && s.rows[run].project == s.callers[c].project && s.rows[run].commit == s.callers[c].commit
  }

  ghost predicate RegisteredBy(es: seq<Step>, s: State, t: TaskId, c: CallerId) {
    && c in s.callers && t in s.tasks && s.tasks[t].run.Some?
    && Register(c, t) in es && Insert(c, s.tasks[t].run.value) in es
    && s.tasks[t].project == s.callers[c].project && s.tasks[t].commit == s.callers[c].commit
  }

  lemma CallersStay(s: State, e: Step, c: CallerId)
    requires Enabled(s, e) && c in s.callers
    ensures c in Apply(s, e).callers
    ensures Apply(s, e).callers[c].project == s.callers[c].project
    ensures Apply(s, e).callers[c].commit == s.callers[c].commit
    ensures Apply(s, e).callers[c].at.Inserted? && s.callers[c].at != Apply(s, e).callers[c].at ==>
        e == Insert(c, Apply(s, e).callers[c].at.run)
  {
  }

  lemma RowStays(s: State, e: Step, run: RunId)
    requires Enabled(s, e) && run in s.rows
    ensures run in Apply(s, e).rows
    ensures Apply(s, e).rows[run].project == s.rows[run].project && Apply(s, e).rows[run].commit == s.rows[run].commit
  {
  }

  /** In every run each caller is after what it entered with; */
  lemma {:induction false} CallersAsk(es: seq<Step>, s: State, c: CallerId)
    requires Exec(Start, es) == Some(s)
    ensures CallerTold(es, s, c)
  {
    if es != [] && c in s.callers {
      var front, e := es[..|es| - 1], es[|es| - 1];
      var before := Exec(Start, front).value;
      assert es == front + [e];
      CallersAsk(front, before, c);
      if c in before.callers {
        CallersStay(before, e, c);
      }
    }
  }

  /** each row is for the project and the commit of the caller that inserted it; */
  lemma {:induction false} RowIsItsCallers(es: seq<Step>, s: State, run: RunId) returns (c: CallerId)
    requires Exec(Start, es) == Some(s) && run in s.rows
    ensures InsertedBy(es, s, run, c)
  {
    var front, e := es[..|es| - 1], es[|es| - 1];
    var before := Exec(Start, front).value;
    assert es == front + [e];
    if run in before.rows {
      c := RowIsItsCallers(front, before, run);
      CallersStay(before, e, c);
      RowStays(before, e, run);
    } else {
      c := e.c;
    }
  }

  /** and so is each recorded task, which has the row that its caller inserted. */
  lemma {:induction false} TaskIsItsCallers(es: seq<Step>, s: State, t: TaskId) returns (c: CallerId)
    requires Exec(Start, es) == Some(s) && t in s.tasks && s.tasks[t].run.Some?
    ensures RegisteredBy(es, s, t, c)
  {
    var front, e := es[..|es| - 1], es[|es| - 1];
    var before := Exec(Start, front).value;
    assert es == front + [e];
    if t in before.tasks {
      RunStays(before, e, t);
      c := TaskIsItsCallers(front, before, t);
      CallersStay(before, e, c);
    } else {
      c := e.c;
      CallersAsk(front, before, c);
    }
  }
}
