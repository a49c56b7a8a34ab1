/** Preview servers (syte/preview_manager.py): addresses, start, stop, status and expiry.

    What the operating system would say is a parameter: which process ids are alive, which ports
    are listening, what time it is.  Operations run one after the other.
  */
module Previews {
  import opened Wrappers
  import opened Domains

  const PREVIEW_PORT_START := 4000
  const PREVIEW_PORT_END := 4999
  const PREVIEW_START_GRACE_SEC := 45
  const PREVIEW_MAX_RUNTIME_SEC := 3600

  type ProjectId = nat

  datatype Status = Running | Starting | Stopped

  /** The preview columns of a project row; no domain is "", no port is 0. */
  datatype Row = Row(domain: string, port: nat, status: Status, startedAt: Option<int>, updatedAt: Option<int>)

  /** A row with its pid file, if there is one. */
  datatype Entry = Entry(row: Row, pid: Option<nat>)

  datatype World = World(alive: set<nat>, listening: set<nat>, now: int)

  predicate IsPreviewHostname(domain: string) {
    var d := NormalizeDomain(domain);
    d != "" && "preview" <= d && '.' in d
  }

  /** A preview host name begins with "preview" and has a dot. */
  lemma PreviewHostnameIff(domain: string)
    ensures IsPreviewHostname(domain) <==>
        exists rest: string :: NormalizeDomain(domain) == "preview" + rest && '.' in rest
  {
    var d := NormalizeDomain(domain);
    if "preview" <= d {
      assert d == "preview" + d[7..];
    }
  }

  /** What resolve_preview_domain makes up for a project without a preview host name: nothing when
      there is no zone, else a name in normal form. */
  ghost predicate Assignable(offered: string) {
    offered == "" || (IsPreviewHostname(offered) && NormalizeDomain(offered) == offered)
  }

  predicate GraceElapsed(row: Row, now: int) {
    row.updatedAt.None? || now - row.updatedAt.value > PREVIEW_START_GRACE_SEC
  }

  /** is_preview_running: a live pid counts; a pid file of a dead process is removed. */
  predicate Alive(e: Entry, w: World) {
    e.pid.Some? && e.pid.value in w.alive
  }

  function Probed(e: Entry, w: World): Entry {
    if Alive(e, w) then e else e.(pid := None)
  }

  /** update_project also stamps the row. */
  function WithStatus(e: Entry, status: Status, now: int): Entry {
    if e.row.status == status then e else e.(row := e.row.(status := status, updatedAt := Some(now)))
  }

  /** ensure_preview_address; None when it raises because no preview port is left. */
  function Ensured(e: Entry, offered: string, free: Option<nat>, now: int): Option<Entry> {
    var newDomain := !IsPreviewHostname(NormalizeDomain(e.row.domain)) && offered != "";
    if e.row.port == 0 && free.None? then None
    else if !newDomain && e.row.port != 0 then Some(e)
    else Some(e.(row := e.row.(domain := if newDomain then offered else e.row.domain,
                               port := if e.row.port == 0 then free.value else e.row.port,
                               updatedAt := Some(now))))
  }

  /** get_preview_status after the address has been ensured. */
  function Reconciled(e: Entry, w: World): Entry {
    var p := Probed(e, w);
    if Alive(e, w) && p.row.port != 0 then WithStatus(p, if p.row.port in w.listening then Running else Starting, w.now)
    else if !Alive(e, w) && p.row.status != Stopped then
      if p.row.port != 0 && p.row.port in w.listening then WithStatus(p, Running, w.now)
      else if p.row.status == Starting && !GraceElapsed(p.row, w.now) then p
      else WithStatus(p, Stopped, w.now)
    else p
  }

  function StatusStep(e: Entry, offered: string, free: Option<nat>, w: World): Option<Entry> {
    var a := Ensured(e, offered, free, w.now);
    if a.None? then None else Some(Reconciled(a.value, w))
  }

  /** With the same observations a second status call changes nothing at all. */
  lemma StatusIsFixedPoint(e: Entry, offered: string, free: Option<nat>, free': Option<nat>, w: World)
    requires Assignable(offered) && (free.Some? ==> free.value != 0)
    requires StatusStep(e, offered, free, w).Some?
    ensures var once := StatusStep(e, offered, free, w).value;
      StatusStep(once, offered, free', w) == Some(once)
  {
    var a := Ensured(e, offered, free, w.now).value;
    assert Ensured(a, offered, free', w.now) == Some(a);
    var once := Reconciled(a, w);
    assert once.row.domain == a.row.domain && once.row.port == a.row.port;
    assert Reconciled(once, w) == once;
  }

  /** Later, with the same processes and ports, it changes something exactly when a start that is
      still waiting for its process has used up its grace. */
  lemma LaterStatusChangesIff(e: Entry, w: World, later: int)
    requires w.now <= later
    ensures var once := Reconciled(e, w);
      Reconciled(once, w.(now := later)) != once <==>
        once.row.status == Starting && !Alive(once, w) && GraceElapsed(once.row, later)
        && (once.row.port == 0 || once.row.port !in w.listening)
  {
  }

  /** An assigned port and an assigned (normalised) preview host name stay.  A start stores the host
      name in normal form, which keeps it when the stored text has no inner white space. */
  ghost predicate AddressKept(before: Row, after: Row) {
    && (before.port != 0 ==> after.port == before.port)
    && (IsPreviewHostname(NormalizeDomain(before.domain)) && Trimmed(NormalizeDomain(before.domain)) ==>
          NormalizeDomain(after.domain) == NormalizeDomain(before.domain))
  }

  lemma AddressKeptTransitive(a: Row, b: Row, c: Row)
    requires AddressKept(a, b) && AddressKept(b, c)
    ensures AddressKept(a, c)
  {
  }

  lemma EnsureKeepsAddress(e: Entry, offered: string, free: Option<nat>, now: int)
    requires Ensured(e, offered, free, now).Some?
    ensures AddressKept(e.row, Ensured(e, offered, free, now).value.row)
  {
  }

  // ----- starting

  /** How far start_preview gets once it has an address and no preview is running yet. */
  datatype StartOutcome = NoCommand | DepsFailed | Exited | Up(pid: nat, listening: bool)

  /** start_preview after the address has been ensured. */
  function Started(e: Entry, offered: string, outcome: StartOutcome, w: World): Entry {
    if Alive(e, w) && e.row.port != 0 && e.row.port in w.listening then WithStatus(e, Running, w.now)
    else
      var halted := e.(pid := None);
      match outcome
      case NoCommand => halted
      case Up(pid, listening) =>
        var name := NormalizeDomain(e.row.domain);
        Entry(Row(if IsPreviewHostname(name) then name else offered, e.row.port,
                  if listening then Running else Starting, Some(w.now), Some(w.now)), Some(pid))
      case _ => halted.(row := e.row.(status := Stopped, updatedAt := Some(w.now)))
  }

  lemma StartKeepsAddress(e: Entry, offered: string, outcome: StartOutcome, w: World)
    ensures AddressKept(e.row, Started(e, offered, outcome, w).row)
  {
    NormalizeIdempotentIff(e.row.domain);
  }

  /** For a preview that is brought up, that is exactly when the host name's normal form has no white
      space around it. */
  lemma StartKeepsNameIff(e: Entry, offered: string, outcome: StartOutcome, w: World)
    requires outcome.Up? && !(Alive(e, w) && e.row.port != 0 && e.row.port in w.listening)
    requires IsPreviewHostname(NormalizeDomain(e.row.domain))
    ensures NormalizeDomain(Started(e, offered, outcome, w).row.domain) == NormalizeDomain(e.row.domain)
            <==> Trimmed(NormalizeDomain(e.row.domain))
  {
    NormalizeIdempotentIff(e.row.domain);
  }

  // ----- expiry

  /** Over age: running for more than an hour since its recorded start. */
  predicate OverAge(row: Row, now: int) {
    row.startedAt.Some? && now - row.startedAt.value > PREVIEW_MAX_RUNTIME_SEC
  }

  /** Dead, with nothing on its port, and past the grace that a starting preview is given. */
  predicate DeadPastGrace(e: Entry, w: World) {
    && !Alive(e, w)
    && !(e.row.port != 0 && e.row.port in w.listening)
    && (e.row.status == Starting ==> GraceElapsed(e.row, w.now))
  }

  predicate Expired(e: Entry, w: World) {
    e.row.status != Stopped && (OverAge(e.row, w.now) || DeadPastGrace(e, w))
  }

  function StoppedEntry(e: Entry, now: int): Entry {
    Entry(e.row.(status := Stopped, startedAt := None, updatedAt := Some(now)), None)
  }

  /** One project of an expire pass.  Probing the process of a preview that is kept drops its pid
      file when the process is gone. */
  function ExpiredEntry(e: Entry, w: World): Entry {
    if Expired(e, w) then StoppedEntry(e, w.now)
    else if e.row.status != Stopped then Probed(e, w)
    else e
  }

  // ----- whole runs for one project

  datatype Op =
    | EnsureOp(offered: string, free: Option<nat>, now: int)
    | StartOp(offered: string, free: Option<nat>, outcome: StartOutcome, w: World)
    | StopOp(now: int)
    | StatusOp(offered: string, free: Option<nat>, w: World)
    | ExpireOp(w: World)

  /** An operation that raises because no port is left changes nothing. */
  function Act(e: Entry, op: Op): Entry {
    match op
    case EnsureOp(offered, free, now) =>
      var a := Ensured(e, offered, free, now);
      if a.Some? then a.value else e
    case StartOp(offered, free, outcome, w) =>
      var a := Ensured(e, offered, free, w.now);
      if a.Some? then Started(a.value, offered, outcome, w) else e
    case StopOp(now) => StoppedEntry(e, now)
    case StatusOp(offered, free, w) =>
      var a := StatusStep(e, offered, free, w);
      if a.Some? then a.value else e
    case ExpireOp(w) => ExpiredEntry(e, w)
  }

  function ActAll(e: Entry, ops: seq<Op>): Entry {
    if ops == [] then e else Act(ActAll(e, ops[..|ops| - 1]), ops[|ops| - 1])
  }

  /** Over any serial run an assigned port and an assigned host name never change. */
  lemma {:induction false} RunKeepsAddress(e: Entry, ops: seq<Op>)
    ensures AddressKept(e.row, ActAll(e, ops).row)
  {
    if ops != [] {
      var before, op := ActAll(e, ops[..|ops| - 1]), ops[|ops| - 1];
      RunKeepsAddress(e, ops[..|ops| - 1]);
      ActKeepsAddress(before, op);
      AddressKeptTransitive(e.row, before.row, Act(before, op).row);
    }
  }

  lemma ActKeepsAddress(e: Entry, op: Op)
    ensures AddressKept(e.row, Act(e, op).row)
  {
    if op.StartOp? && Ensured(e, op.offered, op.free, op.w.now).Some? {
      var a := Ensured(e, op.offered, op.free, op.w.now).value;
      StartKeepsAddress(a, op.offered, op.outcome, op.w);
      AddressKeptTransitive(e.row, a.row, Act(e, op).row);
    }
  }

  // ----- the host

  predicate InRange(port: int) {
    PREVIEW_PORT_START <= port <= PREVIEW_PORT_END
  }

  ghost predicate Taken(entries: map<ProjectId, Entry>, w: World, port: int) {
    port in w.listening || exists k :: k in entries && entries[k].row.port == port
  }

  /** The least port of the range that no project has and nothing listens on, or None. */
  ghost predicate LeastFree(entries: map<ProjectId, Entry>, w: World, free: Option<nat>) {
    match free
    case None => forall q :: InRange(q) ==> Taken(entries, w, q)
    case Some(port) =>
      && InRange(port) && !Taken(entries, w, port)
      && forall q :: InRange(q) && q < port ==> Taken(entries, w, q)
  }

  /** The entry with an address: what was missing has been assigned, and nothing else changed. */
  ghost predicate EnsuredFrom(entries: map<ProjectId, Entry>, id: ProjectId, offered: string, w: World,
                              ensured: Entry) {
    && id in entries
    && exists free: Option<nat> :: (entries[id].row.port == 0 ==> LeastFree(entries, w, free))
                                   && Ensured(entries[id], offered, free, w.now) == Some(ensured)
  }

  // ----- what an operation tells, in plain terms

  /** The process of the pid file lives. */
  predicate Lives(e: Entry, w: World) {
    e.pid.Some? && e.pid.value in w.alive
  }

  /** A host name that is not a preview's is replaced by the one that is offered, if any; a missing port
      is filled in; nothing else changes but the stamp. */
  ghost predicate AddressGiven(before: Entry, offered: string, after: Entry) {
    && after.row.domain ==
       (if IsPreviewHostname(NormalizeDomain(before.row.domain)) || offered == "" then before.row.domain else offered)
    && (before.row.port != 0 ==> after.row.port == before.row.port)
    && after.row.status == before.row.status && after.row.startedAt == before.row.startedAt
    && after.pid == before.pid
  }

  /** The row lacks a port, or a preview host name that can be made up. */
  predicate NeedsAddress(e: Entry, offered: string) {
    e.row.port == 0 || (offered != "" && !IsPreviewHostname(NormalizeDomain(e.row.domain)))
  }

  /** The row is stamped exactly when the call has changed it, or found it in need of an address. */
  predicate Stamped(before: Entry, offered: string, changed: bool, now: int, after: Entry) {
    after.row.updatedAt == if changed || NeedsAddress(before, offered) then Some(now) else before.row.updatedAt
  }

  /** A start is still within its 45 seconds of grace, counted from the last change of its row; giving
      the row an address is a change. */
  predicate Waiting(before: Entry, offered: string, w: World) {
    && before.row.status == Starting
    && (|| NeedsAddress(before, offered)
        || (before.row.updatedAt.Some? && w.now - before.row.updatedAt.value <= 45))
  }

  /** A preview that lives, or was not stopped, is running exactly when its port is listening; else it is
      starting exactly when it lives or is still waiting; else it is stopped.  A stopped preview without
      a process stays stopped, and a dead process loses its pid file. */
  ghost predicate StatusTold(before: Entry, offered: string, w: World, after: Entry) {
    && after.row.status ==
       (if !Lives(before, w) && before.row.status == Stopped then Stopped
        else if after.row.port in w.listening then Running
        else if Lives(before, w) || Waiting(before, offered, w) then Starting
        else Stopped)
    && after.pid == (if Lives(before, w) then before.pid else None)
    && after.row.startedAt == before.row.startedAt
    && Stamped(before, offered, after.row.status != before.row.status, w.now, after)
  }

  /** A preview that lives and listens is running, and keeps its process.  Any other is halted: without a
      command its status stays, after a failure it is stopped, and one that comes up has the new pid and
      start time, and is running exactly when its port is listening. */
  ghost predicate StartTold(before: Entry, offered: string, w: World, outcome: StartOutcome, after: Entry) {
    if Lives(before, w) && after.row.port in w.listening then
      && after.row.status == Running && after.pid == before.pid && after.row.startedAt == before.row.startedAt
      && Stamped(before, offered, before.row.status != Running, w.now, after)
    else
      && Stamped(before, offered, !outcome.NoCommand?, w.now, after)
      &&
      match outcome
      case NoCommand =>
        after.row.status == before.row.status && after.pid == None && after.row.startedAt == before.row.startedAt
      case DepsFailed =>
        after.row.status == Stopped && after.pid == None && after.row.startedAt == before.row.startedAt
      case Exited =>
        after.row.status == Stopped && after.pid == None && after.row.startedAt == before.row.startedAt
      case Up(pid, listening) =>
        && after.row.status == (if listening then Running else Starting)
        && after.pid == Some(pid) && after.row.startedAt == Some(w.now)
  }

  /** A preview that is not stopped has to stop when it was started more than an hour ago; or when it is
      dead, its port is silent, and it is not a start that changed within the last 45 seconds. */
  predicate HasToStop(e: Entry, w: World) {
    && e.row.status != Stopped
    && (|| (e.row.startedAt.Some? && w.now - e.row.startedAt.value > 3600)
        || (&& !Lives(e, w) && (e.row.port == 0 || e.row.port !in w.listening)
            && !(e.row.status == Starting && e.row.updatedAt.Some? && w.now - e.row.updatedAt.value <= 45)))
  }

  lemma EnsuredGives(before: Entry, offered: string, free: Option<nat>, now: int)
    requires Ensured(before, offered, free, now).Some?
    ensures AddressGiven(before, offered, Ensured(before, offered, free, now).value)
  {
  }

  lemma ReconciledTells(before: Entry, offered: string, free: Option<nat>, w: World)
    requires Ensured(before, offered, free, w.now).Some? && (free.Some? ==> free.value != 0)
    ensures StatusTold(before, offered, w, Reconciled(Ensured(before, offered, free, w.now).value, w))
  {
  }

  lemma StartedTells(before: Entry, offered: string, free: Option<nat>, outcome: StartOutcome, w: World)
    requires Ensured(before, offered, free, w.now).Some? && (free.Some? ==> free.value != 0)
    ensures var ensured := Ensured(before, offered, free, w.now).value;
      StartTold(before, offered, w, outcome, Started(ensured, offered, outcome, w))
  {
  }

  /** The same from the ensured entry. */
  lemma TellsStatus(entries: map<ProjectId, Entry>, id: ProjectId, offered: string, w: World, ensured: Entry)
    requires EnsuredFrom(entries, id, offered, w, ensured)
    ensures StatusTold(entries[id], offered, w, Reconciled(ensured, w))
  {
    var free: Option<nat> :| (entries[id].row.port == 0 ==> LeastFree(entries, w, free))
                             && Ensured(entries[id], offered, free, w.now) == Some(ensured);
    var used := if entries[id].row.port == 0 then free else None;
    assert Ensured(entries[id], offered, used, w.now) == Some(ensured);
    ReconciledTells(entries[id], offered, used, w);
  }

  lemma TellsStart(entries: map<ProjectId, Entry>, id: ProjectId, offered: string, w: World, ensured: Entry,
                   outcome: StartOutcome)
    requires EnsuredFrom(entries, id, offered, w, ensured)
    ensures StartTold(entries[id], offered, w, outcome, Started(ensured, offered, outcome, w))
  {
    var free: Option<nat> :| (entries[id].row.port == 0 ==> LeastFree(entries, w, free))
                             && Ensured(entries[id], offered, free, w.now) == Some(ensured);
    var used := if entries[id].row.port == 0 then free else None;
    assert Ensured(entries[id], offered, used, w.now) == Some(ensured);
    StartedTells(entries[id], offered, used, outcome, w);
  }

  lemma ExpiredIff(e: Entry, w: World)
    ensures Expired(e, w) <==> HasToStop(e, w)
  {
  }

  class Host {
    var entries: map<ProjectId, Entry>
    var reloads: nat

    constructor ()
      ensures entries == map[] && reloads == 0
    {
      entries, reloads := map[], 0;
    }

    /** next_preview_port; None when it raises. */
    method NextPreviewPort(w: World) returns (free: Option<nat>)
      ensures LeastFree(entries, w, free)
    {
      var used := set k | k in entries :: entries[k].row.port;
      for port := PREVIEW_PORT_START to PREVIEW_PORT_END + 1
        invariant forall q :: InRange(q) && q < port ==> Taken(entries, w, q)
      {
        if port !in used && port !in w.listening {
          return Some(port);
        }
      }
      return None;
    }

    /** ensure_preview_address; `ok` is false when it raises, which leaves everything as it was. */
    method EnsureAddress(id: ProjectId, offered: string, w: World) returns (ok: bool)
      requires id in entries
      modifies this
      ensures id in entries && entries == old(entries)[id := entries[id]] && reloads == old(reloads)
      ensures ok ==> EnsuredFrom(old(entries), id, offered, w, entries[id]) && entries[id].row.port != 0
      ensures ok <==> old(entries)[id].row.port != 0 || !LeastFree(old(entries), w, None)
      ensures ok ==> AddressGiven(old(entries)[id], offered, entries[id])
      ensures ok && old(entries)[id].row.port == 0 ==> LeastFree(old(entries), w, Some(entries[id].row.port))
      ensures !ok ==> entries == old(entries)
      ensures AddressKept(old(entries)[id].row, entries[id].row)
    {
      ghost var start := entries;
      var free: Option<nat> := None;
      if entries[id].row.port == 0 {
        free := NextPreviewPort(w);
      }
      var ensured := Ensured(entries[id], offered, free, w.now);
      ok := ensured.Some?;
      if ok {
        EnsureKeepsAddress(entries[id], offered, free, w.now);
        EnsuredGives(entries[id], offered, free, w.now);
        entries := entries[id := ensured.value];
        assert EnsuredFrom(start, id, offered, w, entries[id]);
      }
    }

    /** stop_preview_async. */
    method Stop(id: ProjectId, reloadProxy: bool, now: int)
      requires id in entries
      modifies this
      ensures entries == old(entries)[id := StoppedEntry(old(entries)[id], now)]
      ensures entries[id].row.status == Stopped && entries[id].row.startedAt == None && entries[id].pid == None
      ensures reloads == old(reloads) + if reloadProxy then 1 else 0
      ensures AddressKept(old(entries)[id].row, entries[id].row)
    {
      entries := entries[id := StoppedEntry(entries[id], now)];
      if reloadProxy {
        reloads := reloads + 1;
      }
    }

    /** get_preview_status; `ok` is false when the address could not be ensured. */
    method GetStatus(id: ProjectId, offered: string, w: World) returns (ok: bool)
      requires id in entries
      modifies this
      ensures id in entries && entries == old(entries)[id := entries[id]] && reloads == old(reloads)
      ensures ok ==> exists a :: EnsuredFrom(old(entries), id, offered, w, a) && entries[id] == Reconciled(a, w)
      ensures ok <==> old(entries)[id].row.port != 0 || !LeastFree(old(entries), w, None)
      ensures ok ==> StatusTold(old(entries)[id], offered, w, entries[id])
      ensures !ok ==> entries == old(entries)
      ensures AddressKept(old(entries)[id].row, entries[id].row)
    {
      ghost var before, start := entries[id], entries;
      ok := EnsureAddress(id, offered, w);
      if !ok {
        return;
      }
      TellsStatus(start, id, offered, w, entries[id]);
      var e := entries[id];
      var running := Alive(e, w);
      e := Probed(e, w);
      var port := e.row.port;
      if running && port != 0 {
        e := WithStatus(e, if port in w.listening then Running else Starting, w.now);
      } else if !running && e.row.status != Stopped {
        if port != 0 && port in w.listening {
          e := WithStatus(e, Running, w.now);
        } else if e.row.status != Starting || GraceElapsed(e.row, w.now) {
          e := WithStatus(e, Stopped, w.now);
        }
      }
      assert e == Reconciled(entries[id], w);
      entries := entries[id := e];
    }

    /** start_preview; `started` is false when it reports failure or raises. */
    method Start(id: ProjectId, offered: string, w: World, outcome: StartOutcome) returns (started: bool)
      requires id in entries
      modifies this
      ensures id in entries && entries == old(entries)[id := entries[id]]
      ensures old(entries)[id].row.port != 0 || !LeastFree(old(entries), w, None) ==>
        exists a :: EnsuredFrom(old(entries), id, offered, w, a) && entries[id] == Started(a, offered, outcome, w)
      ensures old(entries)[id].row.port == 0 && LeastFree(old(entries), w, None) ==> entries == old(entries)
      ensures AddressKept(old(entries)[id].row, entries[id].row)
      ensures var up := Alive(old(entries)[id], w) && entries[id].row.port in w.listening;
        started <==> entries[id].row.port != 0 && (outcome.Up? || up)
      ensures started ==> entries[id].row.status != Stopped && entries[id].pid.Some?
      ensures entries[id].row.port != 0 ==> StartTold(old(entries)[id], offered, w, outcome, entries[id])
      ensures var up := Alive(old(entries)[id], w) && entries[id].row.port in w.listening;
        reloads == old(reloads) + if started && !up then 1 else 0
    {
      ghost var before, start := entries[id].row, entries;
      started := EnsureAddress(id, offered, w);
      if !started {
        return;
      }
      var e := entries[id];
      StartKeepsAddress(e, offered, outcome, w);
      AddressKeptTransitive(before, e.row, Started(e, offered, outcome, w).row);
      TellsStart(start, id, offered, w, e, outcome);
      ghost var wanted := Started(e, offered, outcome, w);
      if Alive(e, w) && e.row.port in w.listening {
        entries := entries[id := WithStatus(e, Running, w.now)];
        return true;
      }
      e := e.(pid := None);
      match outcome {
      case NoCommand =>
        started := false;
      case Up(pid, listening) =>
        var name := NormalizeDomain(e.row.domain);
        if !IsPreviewHostname(name) {
          name := offered;
        }
        e := e.(row := e.row.(domain := name, status := if listening then Running else Starting,
                              startedAt := Some(w.now), updatedAt := Some(w.now)), pid := Some(pid));
        reloads := reloads + 1;
      case _ =>
        e := e.(row := e.row.(status := Stopped, updatedAt := Some(w.now)));
        started := false;
      }
      assert e == wanted;
      entries := entries[id := e];
    }

    /** The body of the expire loop for one project. */
    method ExpireOne(id: ProjectId, w: World) returns (stopped: bool)
      requires id in entries
      modifies this
      ensures entries == old(entries)[id := ExpiredEntry(old(entries)[id], w)]
      ensures stopped <==> Expired(old(entries)[id], w)
      ensures stopped <==> HasToStop(old(entries)[id], w)
      ensures stopped ==> entries[id].pid == None
      ensures stopped ==> entries[id].row.status == Stopped && entries[id].row.startedAt == None
      ensures !stopped ==> entries[id].row == old(entries)[id].row
      ensures reloads == old(reloads)
    {
      ExpiredIff(entries[id], w);
      var e := entries[id];
      if e.row.status == Stopped {
        return false;
      }
      if !(e.row.startedAt.Some? && w.now - e.row.startedAt.value > PREVIEW_MAX_RUNTIME_SEC) {
        if Alive(e, w) {
          return false;
        }
        entries := entries[id := Probed(e, w)];
        if e.row.port != 0 && e.row.port in w.listening {
          return false;
        }
        if e.row.status == Starting && !GraceElapsed(e.row, w.now) {
          return false;
        }
      }
      Stop(id, false, w.now);
      return true;
    }

    /** expire_stale_previews: stops exactly the expired previews and reloads the proxy at most once. */
    method ExpireStale(ids: seq<ProjectId>, w: World)
      requires forall i, j :: 0 <= i < j < |ids| ==> ids[i] != ids[j]
      requires forall k :: k in ids <==> k in entries
      modifies this
      ensures entries.Keys == old(entries.Keys)
      ensures forall k :: k in entries ==> entries[k] == ExpiredEntry(old(entries)[k], w)
      ensures forall k :: k in entries ==>
        if HasToStop(old(entries)[k], w) then entries[k].row.status == Stopped && entries[k].pid == None
        else entries[k].row == old(entries)[k].row
      ensures forall k :: k in entries ==> AddressKept(old(entries)[k].row, entries[k].row)
      ensures reloads == old(reloads) + if exists k :: k in old(entries) && Expired(old(entries)[k], w) then 1 else 0
    {
      var stoppedAny := false;
      ghost var start := entries;
      for i := 0 to |ids|
        invariant entries.Keys == start.Keys && reloads == old(reloads)
        invariant forall j :: 0 <= j < i ==> entries[ids[j]] == ExpiredEntry(start[ids[j]], w)
        invariant forall j :: i <= j < |ids| ==> entries[ids[j]] == start[ids[j]]
        invariant stoppedAny <==> exists j :: 0 <= j < i && Expired(start[ids[j]], w)
      {
        var stopped := ExpireOne(ids[i], w);
        stoppedAny := stoppedAny || stopped;
      }
      forall k | k in entries
        ensures Expired(start[k], w) <==> HasToStop(start[k], w)
      {
        ExpiredIff(start[k], w);
      }
      if stoppedAny {
        reloads := reloads + 1;
      }
    }
  }
}
