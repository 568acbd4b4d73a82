/** The task registry and one scheduler iteration (lib/tasks.go).

    The source keeps two slices of `*Task`: an unbounded work queue and a history of at most 20
    entries, both pointing at the same records, which the scheduler later updates in place. The
    model keeps the records in a store indexed by creation number and the two slices as
    sequences of those numbers, so the sharing stays visible. */
module Tasks {
  import opened Common
  import Video
  import Conversion

  /** `lib.Task`. A Go `error` is modelled by its message. */
  datatype Task = Task(
    url: string, slug: string, thumbnail: string, title: string, artist: string, album: string,
    isPending: bool, result: string, error: Option<string>)

  /** The history keeps at most this many tasks. */
  const HistoryLimit := 20

  /** Tasks are identified by the order in which they were created. */
  type Id = nat

  /** The package state: every task ever created, the queue and the history. */
  datatype Registry = Registry(store: map<Id, Task>, queue: seq<Id>, history: seq<Id>, nextId: Id)

  /** The state at start-up: both slices empty. */
  const Empty := Registry(map[], [], [], 0)

  /** The consecutive ids `lo`, ..., `hi - 1`. */
  function Range(lo: nat, hi: nat): (r: seq<nat>)
    requires lo <= hi
    ensures |r| == hi - lo
    ensures forall i :: 0 <= i < |r| ==> r[i] == lo + i
  {
    seq(hi - lo, i requires 0 <= i < hi - lo => lo + i)
  }

  lemma RangeMembership(lo: nat, hi: nat, x: nat)
    requires lo <= hi
    ensures x in Range(lo, hi) <==> lo <= x < hi
  {
    if lo <= x < hi {
      assert Range(lo, hi)[x - lo] == x;
    }
  }

  lemma RangeAppend(lo: nat, hi: nat)
    requires lo <= hi
    ensures Range(lo, hi) + [hi] == Range(lo, hi + 1)
  {
  }

  lemma RangeTail(lo: nat, hi: nat)
    requires lo < hi
    ensures Range(lo, hi)[1..] == Range(lo + 1, hi)
  {
  }

  /** The id of the oldest task still in the history once `n` tasks have been created. */
  function HistoryStart(n: nat): nat {
    if n > HistoryLimit then n - HistoryLimit else 0
  }

  /** The reachable states: ids are handed out in order; the history is the last twenty of
      them; the queue is the not-yet-started suffix of them; and a task is pending exactly when
      it is still queued. */
  ghost predicate Valid(r: Registry) {
    && (forall id: Id :: id in r.store <==> id < r.nextId)
    && |r.queue| <= r.nextId
    && r.queue == Range(r.nextId - |r.queue|, r.nextId)
    && r.history == Range(HistoryStart(r.nextId), r.nextId)
    && (forall id: Id :: id in r.store ==> (r.store[id].isPending <==> r.nextId - |r.queue| <= id))
  }

  /** The result of `NewTask`: the new state, the new task's id and the task as stored. */
  datatype Created = Created(registry: Registry, id: Id, task: Task)

  /** `NewTask`: force the task pending, append it to the queue and to the history, and drop the
      oldest history entry when the history grows past twenty. */
  function NewTask(r: Registry, t: Task): (c: Created)
    ensures c.task.isPending && c.task.(isPending := t.isPending) == t
    ensures c.id == r.nextId && c.registry.nextId == r.nextId + 1
    ensures c.registry.store == r.store[c.id := c.task]
    ensures c.registry.queue == r.queue + [c.id]
    ensures |c.registry.history| >= 1 && c.registry.history[|c.registry.history| - 1] == c.id
    ensures |c.registry.history| == if |r.history| + 1 > HistoryLimit then |r.history| else |r.history| + 1
    ensures c.registry.history == (r.history + [c.id])[|r.history| + 1 - |c.registry.history|..]
  {
    var task := t.(isPending := true);
    var id := r.nextId;
    var history := r.history + [id];
    var history' := if |history| > HistoryLimit then history[1..] else history;
    Created(Registry(r.store[id := task], r.queue + [id], history', id + 1), id, task)
  }

  lemma EmptyIsValid()
    ensures Valid(Empty)
  {
  }

  /** NewTask keeps the registry valid and hands out an id no task had. */
  lemma NewTaskPreservesValid(r: Registry, t: Task)
    requires Valid(r)
    ensures Valid(NewTask(r, t).registry)
    ensures NewTask(r, t).id !in r.store
  {
    var n := r.nextId;
    var c := NewTask(r, t);
    RangeAppend(n - |r.queue|, n);
    RangeAppend(HistoryStart(n), n);
    if n + 1 > HistoryLimit {
      RangeTail(HistoryStart(n), n + 1);
    }
  }

  /** `GetTasks`: the history's tasks, oldest first. */
  function GetTasks(r: Registry): (ts: seq<Task>)
    requires forall i :: 0 <= i < |r.history| ==> r.history[i] in r.store
    ensures |ts| == |r.history|
    ensures forall i :: 0 <= i < |ts| ==> ts[i] == r.store[r.history[i]]
  {
    seq(|r.history|, i requires 0 <= i < |r.history| => r.store[r.history[i]])
  }

  /** In a valid registry every history entry is stored and the history lists tasks in the
      order they were created, at most twenty of them. */
  lemma HistoryFacts(r: Registry)
    requires Valid(r)
    ensures |r.history| <= HistoryLimit
    ensures |r.history| == if r.nextId > HistoryLimit then HistoryLimit else r.nextId
    ensures forall i :: 0 <= i < |r.history| ==> r.history[i] in r.store
    ensures forall i, j :: 0 <= i < j < |r.history| ==> r.history[i] < r.history[j]
  {
  }

  /** After NewTask the listing is the old listing plus the new task, minus the oldest entry
      when that pushes it past twenty. */
  lemma NewTaskListing(r: Registry, t: Task)
    requires Valid(r)
    ensures var c := NewTask(r, t);
      var before := GetTasks(r) + [c.task];
      var after := GetTasks(c.registry);
      |after| <= |before| && after == before[|before| - |after|..]
  {
    var c := NewTask(r, t);
    HistoryFacts(r);
    NewTaskPreservesValid(r, t);
    HistoryFacts(c.registry);
    var before := GetTasks(r) + [c.task];
    var after := GetTasks(c.registry);
    var k := |before| - |after|;
    forall i | 0 <= i < |after|
      ensures after[i] == before[k + i]
    {
      var id := c.registry.history[i];
      assert id == (r.history + [c.id])[k + i];
      if k + i < |r.history| {
        assert id in r.store && id != c.id;
      }
    }
  }

  /** In a valid registry a stored task is pending exactly when it is still in the queue. */
  lemma PendingIffQueued(r: Registry, id: Id)
    requires Valid(r) && id in r.store
    ensures r.store[id].isPending <==> id in r.queue
  {
    RangeMembership(r.nextId - |r.queue|, r.nextId, id);
  }

  /** Eviction from the history never removes a task from the queue: once more than twenty
      tasks wait, the oldest waiting task is pending, queued, and no longer listed. */
  lemma QueuedAfterEviction(r: Registry)
    requires Valid(r) && |r.queue| > HistoryLimit
    ensures r.queue[0] in r.store && r.store[r.queue[0]].isPending
    ensures r.queue[0] !in r.history
  {
    RangeMembership(HistoryStart(r.nextId), r.nextId, r.queue[0]);
  }

  /** Create the tasks one after another, as successive `POST /api/tasks/` requests do. */
  function NewTasks(r: Registry, ts: seq<Task>): (r': Registry)
    decreases |ts|
  {
    if |ts| == 0 then r else NewTasks(NewTask(r, ts[0]).registry, ts[1..])
  }

  /** Creating tasks keeps the registry valid and lengthens the queue by one per task. */
  lemma {:induction false} NewTasksPreservesValid(r: Registry, ts: seq<Task>)
    requires Valid(r)
    ensures Valid(NewTasks(r, ts))
    ensures |NewTasks(r, ts).queue| == |r.queue| + |ts|
    ensures NewTasks(r, ts).nextId == r.nextId + |ts|
    decreases |ts|
  {
    if |ts| > 0 {
      NewTaskPreservesValid(r, ts[0]);
      NewTasksPreservesValid(NewTask(r, ts[0]).registry, ts[1..]);
    }
  }

  /** The state QueuedAfterEviction describes is reached: after twenty-one tasks and no
      scheduler step, the first task is queued but gone from the history. */
  lemma EvictedTaskStaysQueued(ts: seq<Task>)
    requires |ts| == HistoryLimit + 1
    ensures var r := NewTasks(Empty, ts);
      && |r.queue| == HistoryLimit + 1 && r.queue[0] == 0
      && r.queue[0] !in r.history && r.queue[0] in r.store && r.store[r.queue[0]].isPending
  {
    EmptyIsValid();
    NewTasksPreservesValid(Empty, ts);
    QueuedAfterEviction(NewTasks(Empty, ts));
  }

  /** What one iteration learns about the head task: the lookup failed, or `Yt2Mp3` returned. */
  datatype Outcome = LookupFailed(reason: string) | Converted(result: string, err: Option<string>)

  /** One iteration of the scheduler loop: nothing on an empty queue; otherwise pop the head and
      record the outcome on that task. A failed lookup leaves `Result` as it was. */
  function Step(r: Registry, outcome: Outcome): (r': Registry)
    requires |r.queue| > 0 ==> r.queue[0] in r.store
    ensures |r.queue| == 0 ==> r' == r
    ensures |r.queue| > 0 ==> r'.queue == r.queue[1..] && r'.history == r.history && r'.nextId == r.nextId
    ensures |r.queue| > 0 ==> r'.store.Keys == r.store.Keys
    ensures |r.queue| > 0 ==>
      forall id :: id in r.store && id != r.queue[0] ==> r'.store[id] == r.store[id]
    ensures |r.queue| > 0 ==>
      var before := r.store[r.queue[0]];
      var after := r'.store[r.queue[0]];
      && !after.isPending
      && after.(isPending := before.isPending, result := before.result, error := before.error) == before
      && (outcome.LookupFailed? ==> after.error == Some(outcome.reason) && after.result == before.result)
      && (outcome.Converted? ==> after.error == outcome.err && after.result == outcome.result)
  {
    if |r.queue| == 0 then r
    else
      var id := r.queue[0];
      var t := r.store[id];
      var t' := match outcome
        case LookupFailed(reason) => t.(isPending := false, error := Some(reason))
        case Converted(result, err) => t.(isPending := false, error := err, result := result);
      r.(store := r.store[id := t'], queue := r.queue[1..])
  }

  /** A step keeps the registry valid. */
  lemma StepPreservesValid(r: Registry, outcome: Outcome)
    requires Valid(r)
    ensures Valid(Step(r, outcome))
  {
    if |r.queue| > 0 {
      RangeTail(r.nextId - |r.queue|, r.nextId);
    }
  }

  /** Steps are first-in first-out: the head task is the oldest pending one, and after the
      step it is no longer queued while every other pending task still is. */
  lemma StepIsFifo(r: Registry, outcome: Outcome)
    requires Valid(r) && |r.queue| > 0
    ensures forall id :: id in r.store && r.store[id].isPending ==> r.queue[0] <= id
    ensures var r' := Step(r, outcome);
      && r.queue[0] !in r'.queue
      && forall id :: id in r.queue && id != r.queue[0] ==> id in r'.queue
  {
    var r' := Step(r, outcome);
    forall id | id in r.queue && id != r.queue[0]
      ensures id in r'.queue
    {
      var i :| 0 <= i < |r.queue| && r.queue[i] == id;
      assert r'.queue[i - 1] == id;
    }
  }

  /** The updates a step makes are seen through the history only while the task is still
      listed: finishing a task already evicted leaves the listing unchanged. */
  lemma StepOnEvictedTaskIsInvisible(r: Registry, outcome: Outcome)
    requires Valid(r) && |r.queue| > 0 && r.queue[0] !in r.history
    ensures GetTasks(Step(r, outcome)) == GetTasks(r)
  {
    HistoryFacts(r);
    StepPreservesValid(r, outcome);
    HistoryFacts(Step(r, outcome));
  }

  /** Tasks enter the registry from the create handler with no result and no error: that stays
      true of every pending task. */
  ghost predicate PendingTasksUnfinished(r: Registry) {
    forall id :: id in r.store && r.store[id].isPending ==>
      r.store[id].result == "" && r.store[id].error.None?
  }

  lemma NewTaskKeepsUnfinished(r: Registry, t: Task)
    requires PendingTasksUnfinished(r)
    requires t.result == "" && t.error.None?
    ensures PendingTasksUnfinished(NewTask(r, t).registry)
  {
  }

  lemma StepKeepsUnfinished(r: Registry, outcome: Outcome)
    requires Valid(r) && PendingTasksUnfinished(r)
    ensures PendingTasksUnfinished(Step(r, outcome))
  {
  }

  /** So a task whose lookup failed ends with the lookup's error and an empty result. */
  lemma LookupFailureLeavesNoResult(r: Registry, err: string)
    requires Valid(r) && PendingTasksUnfinished(r) && |r.queue| > 0
    ensures var t := Step(r, LookupFailed(err)).store[r.queue[0]];
      !t.isPending && t.error == Some(err) && t.result == ""
  {
    PendingIffQueued(r, r.queue[0]);
  }

  /** The options the scheduler passes to `Yt2Mp3`: the task's fields and `OUT_DIR`. */
  function ConversionOptions(t: Task, outDir: string): (o: Conversion.Options)
    ensures o.outDir == outDir && o.slug == t.slug && o.thumbnail == t.thumbnail
    ensures o.title == t.title && o.artist == t.artist && o.album == t.album
  {
    Conversion.Options(outDir, t.slug, t.thumbnail, t.title, t.artist, t.album)
  }

  /** What the loop body records for a task, given the lookup's outcome and the conversion's
      effects; `None` when the conversion panics and takes the process down. */
  function StepOutcome(
    t: Task, lookup: Result<Video.VideoInfo, string>, outDir: string,
    env: Conversion.Env, fx: Conversion.Effects): (o: Option<Outcome>)
    ensures lookup.Err? ==> o == Some(LookupFailed(lookup.error))
    ensures o.Some? && o.value.Converted? && o.value.err.None? ==>
      lookup.Ok? && o.value.result == Conversion.PlanAsWritten(lookup.value, ConversionOptions(t, outDir), env).out
    ensures o.Some? && o.value.Converted? && o.value.err.Some? ==> o.value.result == ""
  {
    match lookup
    case Err(e) => Some(LookupFailed(e))
    case Ok(info) =>
      match Conversion.Yt2Mp3(Some(info), ConversionOptions(t, outDir), env, fx)
      case Crashed => None
      case Finished(path, err, _) => Some(Converted(path, err))
  }
}
