/** The synchronous stretches of deploy control, as they update the process's own tables.

    Each method is the code between two awaits: it changes the tables in place and is proved to
    take exactly one step of the transition system.
  */
module DeployHost {
  import opened Wrappers
  import opened DeployControl

  class Host {
    var projects: map<ProjectId, Project>
    var rows: map<RunId, Row>
    var callers: map<CallerId, Caller>
    var tasks: map<TaskId, Task>
    var registry: map<ProjectId, TaskId>
    var locks: map<ProjectId, TaskId>
    var callbacks: set<TaskId>

    ghost function View(): State
      reads this
    {
      State(projects, rows, callers, tasks, registry, locks, callbacks)
    }

    constructor ()
      ensures View() == Start
    {
      projects, rows, callers, tasks, registry, locks, callbacks := map[], map[], map[], map[], map[], map[], {};
    }

    /** issue_deploy after get_project: refuse, or go on to create the deployment row. */
    method CheckCaller(c: CallerId) returns (accepted: bool)
      requires Enabled(View(), Check(c))
      modifies this
      ensures View() == Apply(old(View()), Check(c))
      ensures accepted <==> old(callers[c].project in projects && !InProgress(View(), callers[c].project))
      ensures c in callers && callers[c].at == if accepted then Passed else Returned
    {
      var caller := callers[c];
      accepted := false;
      if caller.project in projects {
        var existing := if caller.project in registry && registry[caller.project] in tasks
                        then Some(tasks[registry[caller.project]]) else None;
        accepted := existing.None? || existing.value.at.Done?;
      }
      callers := callers[c := caller.(at := if accepted then Passed else Returned)];
    }

    /** issue_deploy after create_deployment_run: create the task, register it, add its callback. */
    method RegisterTask(c: CallerId, t: TaskId)
      requires Enabled(View(), Register(c, t))
      modifies this
      ensures View() == Apply(old(View()), Register(c, t))
    {
      var caller := callers[c];
      tasks := tasks[t := NewTask(caller.project, Some(caller.at.run), caller.commit)];
      registry := registry[caller.project := t];
      callbacks := callbacks + {t};
      callers := callers[c := caller.(at := Returned)];
    }

    /** The done-callback _clear. */
    method ClearEntry(t: TaskId)
      requires Enabled(View(), Clear(t))
      modifies this
      ensures View() == Apply(old(View()), Clear(t))
    {
      var p := tasks[t].project;
      if p in registry && registry[p] == t {
        registry := registry - {p};
      }
      callbacks := callbacks - {t};
    }

    /** cancel_deploy: it reaches the registered task, and only while that one is not done. */
    method CancelDeploy(p: ProjectId) returns (ok: bool)
      requires RegistryMatches(View())
      modifies this
      ensures ok <==> Enabled(old(View()), CancelRequest(p))
      ensures View() == if ok then Apply(old(View()), CancelRequest(p)) else old(View())
    {
      if p !in registry || tasks[registry[p]].at.Done? {
        return false;
      }
      var t := registry[p];
      tasks := tasks[t := tasks[t].(cancelRequested := true)];
      return true;
    }

    /** update_deployment_run: a terminal status comes with a finish time. */
    method UpdateRun(run: Option<RunId>, status: RunStatus)
      modifies this`rows
      ensures rows == if run.Some? && run.value in old(rows)
                      then var row := old(rows)[run.value];
                           old(rows)[run.value := row.(status := status, finished := status.Terminal())]
                      else old(rows)
    {
      if run.Some? && run.value in rows {
        rows := rows[run.value := rows[run.value].(status := status, finished := status.Terminal())];
      }
    }

    /** The project write after the read-back: a failure, or the commit if there is one. */
    method UpdateProject(p: ProjectId, ok: bool, commit: Commit)
      modifies this`projects
      ensures projects == if p !in old(projects) then old(projects)
                          else if !ok then old(projects)[p := old(projects)[p].(status := Broken)]
                          else if commit != "" then old(projects)[p := old(projects)[p].(lastDeployed := commit)]
                          else old(projects)
    {
      if p in projects {
        if !ok {
          projects := projects[p := projects[p].(status := Broken)];
        } else if commit != "" {
          projects := projects[p := projects[p].(lastDeployed := commit)];
        }
      }
    }

    /** From the start of a task's body to the end of the deploy job: say that the run is running,
        take the lock, give it back. */
    method RunUpToJob(t: TaskId)
      requires Enabled(View(), Resume(t))
      requires tasks[t].at.Fresh? || tasks[t].at.MarkRunning? || tasks[t].at.AwaitLock? || tasks[t].at.InJob?
      modifies this
      ensures View() == Apply(old(View()), Resume(t))
    {
      var task := tasks[t];
      match task.at {
      case Fresh =>
        task := task.(started := true);
        if task.run.Some? {
          task := task.(at := MarkRunning);
        } else {
          task := task.(at := AwaitLock);
        }
      case MarkRunning =>
        UpdateRun(task.run, Running);
        task := task.(at := AwaitLock);
      case AwaitLock =>
        locks := locks[task.project := t];
        task := task.(at := InJob);
      case InJob =>
        locks := locks - {task.project};
        if task.run.Some? {
          task := task.(at := ReadBack);
        } else {
          task := task.(at := Done);
        }
      }
      tasks := tasks[t := task];
    }

    /** _run_recorded_deploy after the job: read the project back, write the project, write the
        outcome. */
    method RunAfterJob(t: TaskId)
      requires Enabled(View(), Resume(t))
      requires tasks[t].at.ReadBack? || tasks[t].at.WriteProject? || tasks[t].at.WriteOutcome?
      modifies this
      ensures View() == Apply(old(View()), Resume(t))
    {
      var task := tasks[t];
      if task.at.ReadBack? {
        var up := task.project in projects && projects[task.project].status.Up?;
        task := task.(sawUp := up);
        if !up {
          task := task.(at := WriteProject(false));
        } else if task.commit != "" {
          task := task.(at := WriteProject(true));
        } else {
          task := task.(at := WriteOutcome(true));
        }
      } else if task.at.WriteProject? {
        UpdateProject(task.project, task.at.ok, task.commit);
        task := task.(at := WriteOutcome(task.at.ok));
      } else {
        UpdateRun(task.run, if task.at.ok then Succeeded else Failed);
        task := task.(settled := true, at := Announce);
      }
      tasks := tasks[t := task];
    }

    /** The announcement, and the handlers' own write and announcement. */
    method RunToEnd(t: TaskId)
      requires Enabled(View(), Resume(t))
      requires tasks[t].at.Announce? || tasks[t].at.HandlerWrite? || tasks[t].at.HandlerAnnounce?
      modifies this
      ensures View() == Apply(old(View()), Resume(t))
    {
      var task := tasks[t];
      if task.at.HandlerWrite? {
        UpdateRun(task.run, task.at.outcome);
        task := task.(at := HandlerAnnounce);
      } else {
        task := task.(at := Done);
      }
      tasks := tasks[t := task];
    }

    /** One stretch of a task, between two of its awaits. */
    method RunTask(t: TaskId)
      requires Enabled(View(), Resume(t))
      modifies this
      ensures View() == Apply(old(View()), Resume(t))
    {
      if tasks[t].at.Fresh? || tasks[t].at.MarkRunning? || tasks[t].at.AwaitLock? || tasks[t].at.InJob? {
        RunUpToJob(t);
      } else if tasks[t].at.ReadBack? || tasks[t].at.WriteProject? || tasks[t].at.WriteOutcome? {
        RunAfterJob(t);
      } else {
        RunToEnd(t);
      }
    }

    /** A cancellation before the body has started, or inside a handler: the task ends. */
    method CancelOutside(t: TaskId, landed: bool)
      requires Enabled(View(), Deliver(t, landed))
      requires tasks[t].at.Fresh? || tasks[t].at.HandlerWrite? || tasks[t].at.HandlerAnnounce?
      modifies this
      ensures View() == Apply(old(View()), Deliver(t, landed))
    {
      var task := tasks[t].(cancelRequested := false);
      if task.at.HandlerWrite? {
        if landed {
          UpdateRun(task.run, task.at.outcome);
        } else {
          task := task.(cut := true);
        }
      }
      tasks := tasks[t := task.(at := Done)];
    }

    /** A cancellation at a write of the task's own row, which may have landed. */
    method CancelRowWrite(t: TaskId, landed: bool)
      requires Enabled(View(), Deliver(t, landed)) && (tasks[t].at.MarkRunning? || tasks[t].at.WriteOutcome?)
      modifies this
      ensures View() == Apply(old(View()), Deliver(t, landed))
    {
      var task := tasks[t].(cancelRequested := false);
      if landed {
        if task.at.MarkRunning? {
          UpdateRun(task.run, Running);
        } else {
          UpdateRun(task.run, if task.at.ok then Succeeded else Failed);
          task := task.(settled := true);
        }
      }
      tasks := tasks[t := task.(at := if task.run.Some? then HandlerWrite(Cancelled) else Done)];
    }

    /** A cancellation at the project write, which may have landed. */
    method CancelProjectWrite(t: TaskId, landed: bool)
      requires Enabled(View(), Deliver(t, landed)) && tasks[t].at.WriteProject?
      modifies this
      ensures View() == Apply(old(View()), Deliver(t, landed))
    {
      var task := tasks[t].(cancelRequested := false);
      if landed {
        UpdateProject(task.project, task.at.ok, task.commit);
      }
      tasks := tasks[t := task.(at := if task.run.Some? then HandlerWrite(Cancelled) else Done)];
    }

    /** A cancellation inside the job, which gives the lock back. */
    method CancelJob(t: TaskId, landed: bool)
      requires Enabled(View(), Deliver(t, landed)) && tasks[t].at.InJob?
      modifies this
      ensures View() == Apply(old(View()), Deliver(t, landed))
    {
      var task := tasks[t];
      locks := locks - {task.project};
      task := task.(cancelRequested := false);
      tasks := tasks[t := task.(at := if task.run.Some? then HandlerWrite(Cancelled) else Done)];
    }

    /** A cancellation at an await that writes nothing. */
    method CancelElsewhere(t: TaskId, landed: bool)
      requires Enabled(View(), Deliver(t, landed))
      requires tasks[t].at.AwaitLock? || tasks[t].at.ReadBack? || tasks[t].at.Announce?
      modifies this
      ensures View() == Apply(old(View()), Deliver(t, landed))
    {
      var task := tasks[t];
      InterruptedQuietly(task, landed, ProjectOf(View(), task));
      task := task.(cancelRequested := false);
      tasks := tasks[t := task.(at := if task.run.Some? then HandlerWrite(Cancelled) else Done)];
    }

    /** A cancellation arrives at a task's await: the lock is given back, a write that the task was
        waiting for may have landed, and a recorded run goes on in its handler. */
    method CancelTask(t: TaskId, landed: bool)
      requires Enabled(View(), Deliver(t, landed))
      modifies this
      ensures View() == Apply(old(View()), Deliver(t, landed))
    {
      if tasks[t].at.AwaitLock? || tasks[t].at.ReadBack? || tasks[t].at.Announce? {
        CancelElsewhere(t, landed);
      } else if tasks[t].at.InJob? {
        CancelJob(t, landed);
      } else if tasks[t].at.MarkRunning? || tasks[t].at.WriteOutcome? {
        CancelRowWrite(t, landed);
      } else if tasks[t].at.WriteProject? {
        CancelProjectWrite(t, landed);
      } else {
        CancelOutside(t, landed);
      }
    }
  }
}
