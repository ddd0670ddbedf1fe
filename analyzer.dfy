/**
  The plugin's command handlers over the task registry: `handleAnalyze` (check
  the request, register the task), `runAnalysis` (the background work of one
  task, with the execution reduced to its outcome) and `handleStatus`.
*/
module Analyzer {
  import opened Wrappers
  import opened GoStrings
  import opened Tasks
  import opened TextUtil
  import opened Execution
  import opened Finalize

  /** An accepted request: the new task's id and the log text sent for analysis. */
  datatype Accepted = Accepted(taskId: Bytes, logContent: Bytes)

  /**
    `handleAnalyze`: a request rejected by the configuration checks creates no
    task; an accepted one is stored as a pending task under the short id drawn
    from `uuidText` before any background work starts.
  */
  method HandleAnalyze(reg: TaskRegistry, cfg: Config, args: seq<Bytes>, uuidText: Bytes,
                       userId: int, groupId: int, now: int) returns (r: Result<Accepted, Rejection>)
    requires reg.Valid() && |uuidText| >= 8
    modifies reg
    ensures reg.Valid()
    ensures r.Failure? <==> Validate(cfg, args).Failure?
    ensures r.Failure? ==> r.error == Validate(cfg, args).error && reg.tasks == old(reg.tasks)
    ensures r.Success? ==>
              && r.value.taskId == ShortId(uuidText)
              && r.value.logContent == Join(args, Space)
              && reg.tasks == old(reg.tasks)[r.value.taskId := NewTask(r.value.taskId, userId, groupId, now)]
  {
    var checked := Validate(cfg, args);
    if checked.Failure? {
      return Failure(checked.error);
    }
    var taskId := ShortId(uuidText);
    reg.Create(taskId, userId, groupId, now);
    r := Success(Accepted(taskId, checked.value));
  }

  /** The error of a run under the configured strategy, if it failed. */
  function RunError(cfg: Config, direct: DirectRun, proxy: ProxyRun): Option<Bytes> {
    if UsesProxy(cfg) then ProxyError(proxy, cfg.timeout) else DirectError(direct, cfg.timeout)
  }

  /**
    The duration a finished task records: the one the remote service reported
    (when positive) for a remote completion, otherwise the time since the start.
  */
  function RecordedDuration(t: Task, cfg: Config, proxy: ProxyRun, now: int): Duration {
    if UsesProxy(cfg) && t.status == Completed && proxy.Submitted? && FirstDecision(proxy.responses).Finished? then
      ChooseDuration(FirstDecision(proxy.responses).durationSeconds, t.startTime, now)
    else Elapsed(now - t.startTime)
  }

  /** What task `id` and the reply look like once the task has finished after a run with these outcomes. */
  predicate FinishedAs(t: Task, cfg: Config, id: Bytes, direct: DirectRun, proxy: ProxyRun,
                       artifact: Result<Bytes, Bytes>, now: int, reply: Reply)
  {
    && t.status.Terminal() && t.endTime == Some(now)
    && t.duration == Some(RecordedDuration(t, cfg, proxy, now))
    && (t.status == Failed <==> RunError(cfg, direct, proxy).Some?)
    && (t.status == Failed ==>
          t.error == RunError(cfg, direct, proxy).value && reply == FailureReport(id, t.duration.value, t.error))
    && (t.status == Completed ==>
          if !UsesProxy(cfg) && artifact.Failure? then
            reply == ReadFailureReport(id, ArtifactPath(cfg.sharedDataPath, id), artifact.error)
          else
            var result := if UsesProxy(cfg) then FirstDecision(proxy.responses).content else artifact.value;
            reply == SendResult(id, t.duration.value, ArtifactPath(cfg.sharedDataPath, id), result, t.userId, t.groupId))
  }

  /**
    `runAnalysis` once a concurrency slot is held: the task becomes running, then
    finishes according to the outcome of the strategy the mode selects. `direct`
    and `proxy` stand for what the subprocess or the remote service did,
    `artifact` for reading the output file back after a local run, and `now` for
    the clock when the task finishes. No other task changes, and the status only
    moves forward.
  */
  method RunAnalysis(reg: TaskRegistry, cfg: Config, id: Bytes, direct: DirectRun, proxy: ProxyRun,
                     artifact: Result<Bytes, Bytes>, now: int) returns (reply: Reply)
    requires reg.Valid() && id in reg.tasks && reg.tasks[id].status == Pending
    modifies reg
    ensures reg.Valid()
    ensures id in reg.tasks && reg.tasks == old(reg.tasks)[id := reg.tasks[id]]
    ensures SameTask(reg.tasks[id], old(reg.tasks)[id])
    ensures Evolves(old(reg.tasks), reg.tasks)
    ensures FinishedAs(reg.tasks[id], cfg, id, direct, proxy, artifact, now, reply)
  {
    ghost var initial := reg.tasks;
    reg.MarkRunning(id);
    ghost var running := reg.tasks;
    if UsesProxy(cfg) {
      reply := FinishViaProxy(reg, cfg, id, direct, proxy, artifact, now);
    } else {
      reply := FinishDirect(reg, cfg, id, direct, proxy, artifact, now);
    }
    TwoStepsEvolve(initial, running, reg.tasks);
    UpdateTwice(initial, id, running[id], reg.tasks[id]);
  }

  lemma UpdateTwice(m: map<Bytes, Task>, id: Bytes, a: Task, b: Task)
    ensures m[id := a][id := b] == m[id := b]
  {
  }

  lemma TwoStepsEvolve(a: map<Bytes, Task>, b: map<Bytes, Task>, c: map<Bytes, Task>)
    requires StepsAll(a, b) && StepsAll(b, c)
    ensures Evolves(a, c)
  {
    StepsAllEvolves(a, b);
    StepsAllEvolves(b, c);
    EvolvesTransitive(a, b, c);
  }

  /** The end of `runAnalysisViaProxy`: the first decisive poll, or the timeout, settles the task. */
  method FinishViaProxy(reg: TaskRegistry, cfg: Config, id: Bytes, direct: DirectRun, proxy: ProxyRun,
                        artifact: Result<Bytes, Bytes>, now: int) returns (reply: Reply)
    requires UsesProxy(cfg)
    requires reg.Valid() && id in reg.tasks && reg.tasks[id].status == Running
    modifies reg
    ensures reg.Valid()
    ensures id in reg.tasks && reg.tasks == old(reg.tasks)[id := reg.tasks[id]]
    ensures SameTask(reg.tasks[id], old(reg.tasks)[id])
    ensures StepsAll(old(reg.tasks), reg.tasks)
    ensures FinishedAs(reg.tasks[id], cfg, id, direct, proxy, artifact, now, reply)
  {
    var outputPath := ArtifactPath(cfg.sharedDataPath, id);
    var decision := KeepPolling;
    if proxy.Submitted? {
      decision := PollUntilDecided(proxy.responses);
    }
    assert RunError(cfg, direct, proxy) == ProxyError(proxy, cfg.timeout);
    if decision.Finished? {
      assert FirstDecision(proxy.responses) == decision;
      reg.CompleteWithResult(id, decision.durationSeconds, now);
      var done := reg.tasks[id];
      assert done.duration == Some(RecordedDuration(done, cfg, proxy, now));
      reply := SendResult(id, done.duration.value, outputPath, decision.content, done.userId, done.groupId);
    } else {
      assert ProxyError(proxy, cfg.timeout).Some?;
      ghost var start := reg.tasks[id].startTime;
      reg.CompleteTask(id, ProxyError(proxy, cfg.timeout), now);
      var failed := reg.tasks[id];
      assert failed.status == Failed && failed.startTime == start;
      assert failed.duration == Some(Elapsed(now - start));
      assert RecordedDuration(failed, cfg, proxy, now) == Elapsed(now - start);
      reply := FailureReport(id, failed.duration.value, failed.error);
    }
  }

  /**
    The end of `runAnalysisDirect`: a failed run fails the task; a clean exit
    completes it, and the reply then depends on reading the artifact back.
  */
  method FinishDirect(reg: TaskRegistry, cfg: Config, id: Bytes, direct: DirectRun, proxy: ProxyRun,
                      artifact: Result<Bytes, Bytes>, now: int) returns (reply: Reply)
    requires !UsesProxy(cfg)
    requires reg.Valid() && id in reg.tasks && reg.tasks[id].status == Running
    modifies reg
    ensures reg.Valid()
    ensures id in reg.tasks && reg.tasks == old(reg.tasks)[id := reg.tasks[id]]
    ensures SameTask(reg.tasks[id], old(reg.tasks)[id])
    ensures StepsAll(old(reg.tasks), reg.tasks)
    ensures FinishedAs(reg.tasks[id], cfg, id, direct, proxy, artifact, now, reply)
  {
    var outputPath := ArtifactPath(cfg.sharedDataPath, id);
    var err := DirectError(direct, cfg.timeout);
    assert RunError(cfg, direct, proxy) == err;
    ghost var start := reg.tasks[id].startTime;
    reg.CompleteTask(id, err, now);
    var done := reg.tasks[id];
    assert done.startTime == start && done.duration == Some(Elapsed(now - start));
    assert RecordedDuration(done, cfg, proxy, now) == Elapsed(now - start);
    if err.Some? {
      reply := FailureReport(id, done.duration.value, done.error);
    } else if artifact.Failure? {
      reply := ReadFailureReport(id, outputPath, artifact.error);
    } else {
      reply := SendResult(id, done.duration.value, outputPath, artifact.value, done.userId, done.groupId);
    }
  }

  // ---------------------------------------------------------------------------
  // handleStatus

  datatype Timing = Took(duration: Duration) | RunningFor(ticks: int)

  datatype StatusLine = StatusLine(icon: Bytes, taskId: Bytes, status: Bytes)

  datatype StatusReply =
    | NotFound(taskId: Bytes)
    | TaskReport(taskId: Bytes, icon: Bytes, status: Bytes, timing: Timing, error: Bytes)
    | NoTasks
    | TaskList(lines: seq<StatusLine>)

  /** The one-task report: icon and status, the duration once finished or the time so far, and the error. */
  function ReportOf(t: Task, now: int): (r: StatusReply)
    requires WellFormed(t)
    ensures r.TaskReport? && r.taskId == t.id && r.status == t.status.Name() && r.error == t.error
    ensures r.icon == StatusIcon(t.status.Name()) && r.icon != QuestionIcon
    ensures r.timing.Took? <==> t.status.Terminal()
    ensures r.timing.Took? ==> Some(r.timing.duration) == t.duration
    ensures r.timing.RunningFor? ==> r.timing.ticks == now - t.startTime
  {
    IconsTellStatusesApart(t.status, t.status);
    var timing := if t.status.Terminal() then Took(t.duration.value) else RunningFor(now - t.startTime);
    TaskReport(t.id, StatusIcon(t.status.Name()), t.status.Name(), timing, t.error)
  }

  /** The listing line of one task: its icon, id and status. */
  function LineFor(t: Task): (line: StatusLine)
    ensures line.taskId == t.id && line.status == t.status.Name()
    ensures line.icon == StatusIcon(t.status.Name()) && line.icon != QuestionIcon
  {
    IconsTellStatusesApart(t.status, t.status);
    StatusLine(StatusIcon(t.status.Name()), t.id, t.status.Name())
  }

  /** Lines made one per task of a list without repeated ids repeat no id either. */
  lemma LineIdsDistinct(owned: seq<Task>, lines: seq<StatusLine>)
    requires |lines| == |owned|
    requires forall k :: 0 <= k < |owned| ==> lines[k].taskId == owned[k].id
    requires forall i, j :: 0 <= i < j < |owned| ==> owned[i].id != owned[j].id
    ensures forall i, j :: 0 <= i < j < |lines| ==> lines[i].taskId != lines[j].taskId
  {
  }

  /** Lines made one per task carry exactly the tasks' ids. */
  lemma {:induction false} LineIdsAreTaskIds(owned: seq<Task>, lines: seq<StatusLine>)
    requires |lines| == |owned|
    requires forall k :: 0 <= k < |owned| ==> lines[k].taskId == owned[k].id
    ensures (set k | 0 <= k < |lines| :: lines[k].taskId) == IdsOf(owned)
  {
    forall x | x in IdsOf(owned) ensures x in (set k | 0 <= k < |lines| :: lines[k].taskId) {
      var k :| 0 <= k < |owned| && owned[k].id == x;
      assert lines[k].taskId == x;
    }
  }

  /**
    `handleStatus`: with an argument, the report of that task or "not found";
    without one, a line for each of the requester's tasks, or "no tasks" when
    there are none (an empty listing is not an error).
  */
  method HandleStatus(reg: TaskRegistry, args: seq<Bytes>, userId: int, now: int) returns (reply: StatusReply)
    requires reg.Valid()
    ensures args != [] ==> (reply == NotFound(args[0]) <==> args[0] !in reg.tasks)
    ensures args != [] && args[0] in reg.tasks ==> reply == ReportOf(reg.tasks[args[0]], now)
    ensures args == [] ==> (reply == NoTasks <==> OwnedBy(reg.tasks, userId) == {})
    ensures args == [] && OwnedBy(reg.tasks, userId) != {} ==> reply.TaskList?
    ensures args == [] && reply.TaskList? ==>
              && (set k | 0 <= k < |reply.lines| :: reply.lines[k].taskId) == OwnedBy(reg.tasks, userId)
              && (forall k :: 0 <= k < |reply.lines| ==>
                    reply.lines[k].taskId in reg.tasks && reply.lines[k] == LineFor(reg.tasks[reply.lines[k].taskId]))
              && forall i, j :: 0 <= i < j < |reply.lines| ==> reply.lines[i].taskId != reply.lines[j].taskId
  {
    if args != [] {
      var found := reg.Get(args[0]);
      if found.None? {
        return NotFound(args[0]);
      }
      return ReportOf(found.value, now);
    }
    var owned := reg.ListByUser(userId);
    if owned == [] {
      assert IdsOf(owned) == {};
      return NoTasks;
    }
    assert owned[0].id in IdsOf(owned);
    var lines: seq<StatusLine> := [];
    var i := 0;
    while i < |owned|
      invariant 0 <= i <= |owned| && |lines| == i
      invariant forall k :: 0 <= k < i ==> lines[k] == LineFor(owned[k])
    {
      lines := lines + [LineFor(owned[i])];
      i := i + 1;
    }
    LineIdsAreTaskIds(owned, lines);
    LineIdsDistinct(owned, lines);
    reply := TaskList(lines);
  }
}
