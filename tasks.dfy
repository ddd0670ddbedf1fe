/**
  The task record (`TaskStatus`) and the task registry (the `tasks` map of
  `LogAnalyzerPlugin`), with the lifecycle pending -> running -> completed | failed.
*/
module Tasks {
  import opened Wrappers
  import opened GoStrings

  datatype Status = Pending | Running | Completed | Failed {

    /** The string the plugin stores in `TaskStatus.Status`. */
    function Name(): Bytes {
      match this
      case Pending => Ascii("pending")
      case Running => Ascii("running")
      case Completed => Ascii("completed")
      case Failed => Ascii("failed")
    }

    predicate Terminal() {
      this == Completed || this == Failed
    }
  }

  /** Different states are stored as different strings. */
  lemma NamesDistinct(a: Status, b: Status)
    requires a != b
    ensures a.Name() != b.Name()
  {
    assert Pending.Name()[0] == 112 && Running.Name()[0] == 114;
    assert |Pending.Name()| == 7 && |Completed.Name()| == 9 && |Failed.Name()| == 6;
  }

  /** Position in the lifecycle; both terminal states share the last position. */
  function Rank(s: Status): nat {
    match s
    case Pending => 0
    case Running => 1
    case Completed => 2
    case Failed => 2
  }

  /** One lifecycle step: stay, start running, or finish a running task. No step skips `running`. */
  predicate Step(a: Status, b: Status) {
    a == b || (a == Pending && b == Running) || (a == Running && b.Terminal())
  }

  /** Any number of steps: the status never goes back, and a terminal status never changes. */
  predicate Advances(a: Status, b: Status) {
    a == b || Rank(a) < Rank(b)
  }

  /**
    How long a task took: the wall-clock difference between its end and start
    instants, or the number of seconds the remote service reported.
  */
  datatype Duration = Elapsed(ticks: int) | ReportedSeconds(seconds: real)

  datatype Task = Task(
    id: Bytes,
    status: Status,
    startTime: int,
    endTime: Option<int>,
    duration: Option<Duration>,
    error: Bytes,
    userId: int,
    groupId: int)

  /** End time and duration exist exactly for finished tasks; only a failed task carries an error. */
  predicate WellFormed(t: Task) {
    && (t.endTime.Some? <==> t.status.Terminal())
    && (t.duration.Some? <==> t.status.Terminal())
    && (t.error != [] ==> t.status == Failed)
  }

  /** The record stored when a request is accepted. */
  function NewTask(id: Bytes, userId: int, groupId: int, now: int): (t: Task)
    ensures t.id == id && t.userId == userId && t.groupId == groupId && t.startTime == now
    ensures t.status == Pending && t.error == []
    ensures WellFormed(t)
  {
    Task(id, Pending, now, None, None, [], userId, groupId)
  }

  /**
    The duration recorded by `completeTaskWithResult`: the reported one when it is
    positive, otherwise the time elapsed since the task was created.
  */
  function ChooseDuration(reportedSeconds: real, startTime: int, now: int): (d: Duration)
    ensures d.ReportedSeconds? <==> reportedSeconds > 0.0
    ensures d.ReportedSeconds? ==> d.seconds == reportedSeconds
    ensures d.Elapsed? ==> d.ticks == now - startTime
  {
    if reportedSeconds > 0.0 then ReportedSeconds(reportedSeconds) else Elapsed(now - startTime)
  }

  /** `u` is a later version of `t`: same identity, same owner, status moved forward by at most one step. */
  predicate StepsTo(t: Task, u: Task) {
    && u.id == t.id && u.userId == t.userId && u.groupId == t.groupId && u.startTime == t.startTime
    && Step(t.status, u.status)
    && (t.status.Terminal() ==> u == t)
  }

  /** As StepsTo, with any number of steps. */
  predicate AdvancesTo(t: Task, u: Task) {
    && u.id == t.id && u.userId == t.userId && u.groupId == t.groupId && u.startTime == t.startTime
    && Advances(t.status, u.status)
    && (t.status.Terminal() ==> u == t)
  }

  /** Every task of `before` is still present in `after`, moved forward by at most one step. */
  ghost predicate StepsAll(before: map<Bytes, Task>, after: map<Bytes, Task>) {
    forall id :: id in before ==> id in after && StepsTo(before[id], after[id])
  }

  /** Every task of `before` is still present in `after`, moved forward by any number of steps. */
  ghost predicate Evolves(before: map<Bytes, Task>, after: map<Bytes, Task>) {
    forall id :: id in before ==> id in after && AdvancesTo(before[id], after[id])
  }

  lemma StepIsAdvance(a: Status, b: Status)
    requires Step(a, b)
    ensures Advances(a, b)
  {
  }

  /** A registry history made of single steps is monotonic. */
  lemma StepsAllEvolves(before: map<Bytes, Task>, after: map<Bytes, Task>)
    requires StepsAll(before, after)
    ensures Evolves(before, after)
  {
    forall id | id in before
      ensures id in after && AdvancesTo(before[id], after[id])
    {
      StepIsAdvance(before[id].status, after[id].status);
    }
  }

  /** Monotonic histories compose: status never goes back across any sequence of operations. */
  lemma {:induction false} EvolvesTransitive(a: map<Bytes, Task>, b: map<Bytes, Task>, c: map<Bytes, Task>)
    requires Evolves(a, b) && Evolves(b, c)
    ensures Evolves(a, c)
  {
    forall id | id in a
      ensures id in c && AdvancesTo(a[id], c[id])
    {
      assert id in b && AdvancesTo(a[id], b[id]);
      assert AdvancesTo(b[id], c[id]);
    }
  }

  /** The ids of a list of tasks. */
  function IdsOf(ts: seq<Task>): set<Bytes> {
    set k | 0 <= k < |ts| :: ts[k].id
  }

  lemma IdsOfSnoc(ts: seq<Task>, t: Task)
    ensures IdsOf(ts + [t]) == IdsOf(ts) + {t.id}
  {
    var ext := ts + [t];
    assert ext[|ts|] == t;
    assert forall k :: 0 <= k < |ts| ==> ext[k] == ts[k];
  }

  /** The ids of the stored tasks that belong to `userId`. */
  function OwnedBy(tasks: map<Bytes, Task>, userId: int): set<Bytes> {
    set id | id in tasks && tasks[id].userId == userId
  }

  /** The same task: its id, owner, group and start time agree; only its lifecycle fields may differ. */
  predicate SameTask(a: Task, b: Task) {
    a.id == b.id && a.userId == b.userId && a.groupId == b.groupId && a.startTime == b.startTime
  }

  /**
    The plugin's registry of analysis tasks. Each mutating method is modelled as
    one update of the stored record, made by the goroutine that runs the task.
  */
  class TaskRegistry {
    var tasks: map<Bytes, Task>

    /** Each record is stored under its own id and is well formed. */
    ghost predicate Valid()
      reads this
    {
      forall id :: id in tasks ==> tasks[id].id == id && WellFormed(tasks[id])
    }

    constructor ()
      ensures Valid() && tasks == map[]
    {
      tasks := map[];
    }

    /**
      Stores a new pending task under `id` before any background work starts,
      so a status query finds it at once. An id already in use is overwritten,
      as the map assignment in the plugin does; ids are never checked for collisions.
    */
    method Create(id: Bytes, userId: int, groupId: int, now: int)
      requires Valid()
      modifies this
      ensures Valid()
      ensures tasks == old(tasks)[id := NewTask(id, userId, groupId, now)]
      ensures id !in old(tasks) ==> StepsAll(old(tasks), tasks)
    {
      tasks := tasks[id := NewTask(id, userId, groupId, now)];
    }

    /** The task starts running; it is called only once its concurrency slot is held. */
    method MarkRunning(id: Bytes)
      requires Valid() && id in tasks && tasks[id].status == Pending
      modifies this
      ensures Valid()
      ensures tasks == old(tasks)[id := old(tasks)[id].(status := Running)]
      ensures StepsAll(old(tasks), tasks)
    {
      tasks := tasks[id := tasks[id].(status := Running)];
    }

    /**
      `completeTask`: with an error the task fails and records the error's text;
      without one it completes with no error. Either way the end time and the
      elapsed duration are recorded.
    */
    method CompleteTask(id: Bytes, err: Option<Bytes>, now: int)
      requires Valid() && id in tasks && tasks[id].status == Running
      modifies this
      ensures Valid()
      ensures id in tasks && tasks == old(tasks)[id := tasks[id]]
      ensures SameTask(tasks[id], old(tasks)[id])
      ensures tasks[id].status == (if err.Some? then Failed else Completed)
      ensures tasks[id].error == (if err.Some? then err.value else [])
      ensures tasks[id].endTime == Some(now)
      ensures tasks[id].duration == Some(Elapsed(now - old(tasks)[id].startTime))
      ensures StepsAll(old(tasks), tasks)
    {
      var t := tasks[id];
      var finished := t.(endTime := Some(now), duration := Some(Elapsed(now - t.startTime)));
      if err.Some? {
        finished := finished.(status := Failed, error := err.value);
      } else {
        finished := finished.(status := Completed);
      }
      tasks := tasks[id := finished];
    }

    /**
      `completeTaskWithResult`: the task always completes; its duration is the
      reported one when positive, otherwise the elapsed time.
    */
    method CompleteWithResult(id: Bytes, reportedSeconds: real, now: int)
      requires Valid() && id in tasks && tasks[id].status == Running
      modifies this
      ensures Valid()
      ensures id in tasks && tasks == old(tasks)[id := tasks[id]]
      ensures SameTask(tasks[id], old(tasks)[id])
      ensures tasks[id].status == Completed && tasks[id].error == []
      ensures tasks[id].endTime == Some(now)
      ensures tasks[id].duration == Some(ChooseDuration(reportedSeconds, old(tasks)[id].startTime, now))
      ensures StepsAll(old(tasks), tasks)
    {
      var t := tasks[id];
      tasks := tasks[id := t.(status := Completed, endTime := Some(now),
                              duration := Some(ChooseDuration(reportedSeconds, t.startTime, now)))];
    }

    /** Looks a task up by id; an unknown id is not found. */
    method Get(id: Bytes) returns (found: Option<Task>)
      requires Valid()
      ensures found.None? <==> id !in tasks
      ensures found.Some? ==> found.value == tasks[id] && found.value.id == id
    {
      if id in tasks {
        found := Some(tasks[id]);
      } else {
        found := None;
      }
    }

    /**
      The tasks of one user, each once, in no particular order (the plugin ranges
      over the map). A user without tasks gets the empty list.
    */
    method ListByUser(userId: int) returns (owned: seq<Task>)
      requires Valid()
      ensures IdsOf(owned) == OwnedBy(tasks, userId)
      ensures forall k :: 0 <= k < |owned| ==> owned[k].id in tasks && tasks[owned[k].id] == owned[k]
      ensures forall i, j :: 0 <= i < j < |owned| ==> owned[i].id != owned[j].id
    {
      owned := [];
      var remaining := tasks.Keys;
      while remaining != {}
        invariant remaining <= tasks.Keys
        invariant forall k :: 0 <= k < |owned| ==>
                    owned[k].id in tasks && tasks[owned[k].id] == owned[k] && owned[k].id !in remaining
        invariant forall i, j :: 0 <= i < j < |owned| ==> owned[i].id != owned[j].id
        invariant IdsOf(owned) == OwnedBy(tasks, userId) - remaining
        decreases remaining
      {
        var id :| id in remaining;
        if tasks[id].userId == userId {
          IdsOfSnoc(owned, tasks[id]);
          owned := owned + [tasks[id]];
        }
        remaining := remaining - {id};
      }
    }
  }
}
