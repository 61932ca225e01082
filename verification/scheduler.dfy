/** The bounded-concurrency FIFO scheduler (src/scheduler/scheduler.ts) as a
    pure state machine.

    The source starts executions, calls `executor.cancel` and invokes the
    `onComplete` callbacks; here each operation returns the new state together
    with the list of those calls, in order (`Effect`). Promise settlement is an
    explicit `Settle` event naming one started, not yet settled execution
    (`inflight`): cancelling a running task forgets it in `running`, but its
    execution stays in flight and may still settle later. */
module Scheduler {
  import opened Wrappers
  import opened Types

  /** One executor instance: the class it was built from and its identity.
      The scheduler only ever hands it back. */
  datatype ExecutorRef = ExecutorRef(kind: ExecutionMode, id: nat)

  /** A unit of work: task id, resolved parameters and the executor to use.
      The completion callback is represented by the `Complete` effect. */
  datatype QueuedTask = QueuedTask(taskId: string, params: ExecuteParams, executor: ExecutorRef)

  /** A call the scheduler makes into the outside world. */
  datatype Effect =
    | Execute(task: QueuedTask)
    | ExecutorCancel(executor: ExecutorRef, taskId: string)
    | Complete(taskId: string, result: ExecutorResult)

  /** How an `execute` promise settles. */
  datatype Outcome = Fulfilled(result: ExecutorResult) | Rejected(message: string)

  datatype State = State(
    maxConcurrency: nat,
    queue: seq<QueuedTask>,
    running: map<string, ExecutorRef>,
    inflight: seq<QueuedTask>)

  datatype Step = Step(state: State, effects: seq<Effect>)

  datatype SchedulerStatus = SchedulerStatus(running: nat, queued: nat, maxConcurrency: nat)

  /** The capacity bound and work conservation: never more running entries
      than slots, and a task waits only while every slot is taken. */
  ghost predicate Valid(s: State) {
    && |s.running| <= s.maxConcurrency
    && (|s.queue| == 0 || |s.running| == s.maxConcurrency)
  }

  function New(maxConcurrency: nat): (s: State)
    ensures Valid(s)
    ensures s.queue == [] && s.running == map[] && s.inflight == []
  {
    State(maxConcurrency, [], map[], [])
  }

  /** The tasks started by a list of effects, in order. */
  function Started(effects: seq<Effect>): seq<QueuedTask>
  {
    if |effects| == 0 then []
    else if effects[0].Execute? then [effects[0].task] + Started(effects[1..])
    else Started(effects[1..])
  }

  /** The ids whose completion callback a list of effects invokes, in order. */
  function Completed(effects: seq<Effect>): seq<string>
  {
    if |effects| == 0 then []
    else if effects[0].Complete? then [effects[0].taskId] + Completed(effects[1..])
    else Completed(effects[1..])
  }

  lemma {:induction false} StartedAppend(a: seq<Effect>, b: seq<Effect>)
    ensures Started(a + b) == Started(a) + Started(b)
    decreases |a|
  {
    if |a| > 0 {
      assert (a + b)[1..] == a[1..] + b;
      StartedAppend(a[1..], b);
    } else {
      assert a + b == b;
    }
  }

  lemma {:induction false} CompletedAppend(a: seq<Effect>, b: seq<Effect>)
    ensures Completed(a + b) == Completed(a) + Completed(b)
    decreases |a|
  {
    if |a| > 0 {
      assert (a + b)[1..] == a[1..] + b;
      CompletedAppend(a[1..], b);
    } else {
      assert a + b == b;
    }
  }

  /** `run`: mark the task running and start its execution. */
  function Run(s: State, t: QueuedTask): (r: Step)
  {
    Step(s.(running := s.running[t.taskId := t.executor], inflight := s.inflight + [t]), [Execute(t)])
  }

  /** `drainQueue`: while a slot is free and the queue is non-empty, start the
      head of the queue. The started tasks are a prefix of the queue, in queue
      order, and afterwards either the queue is empty or every slot is taken. */
  function Drain(s: State): (r: Step)
    requires |s.running| <= s.maxConcurrency
    ensures Drained(s, r)
    ensures RunsUnder(r.state.running, s.running, Started(r.effects))
    ensures |s.running| == s.maxConcurrency ==> r == Step(s, [])
    decreases |s.queue|
  {
    if |s.running| < s.maxConcurrency && |s.queue| > 0 then
      var head := s.queue[0];
      var s1 := Run(s.(queue := s.queue[1..]), head);
      var r := Drain(s1.state);
      DrainCons(s, r);
      RunsMeans(s.running, Started(s1.effects + r.effects));
      Step(r.state, s1.effects + r.effects)
    else
      RunsMeans(s.running, []);
      Step(s, [])
  }

  /** What draining `s` into `r` promises: the slots are respected, the
      queue is empty or every slot is taken, the started tasks are a prefix
      of the queue, and each is in flight and running. */
  ghost predicate Drained(s: State, r: Step) {
    && |r.state.running| <= r.state.maxConcurrency
    && (|r.state.queue| == 0 || |r.state.running| == r.state.maxConcurrency)
    && r.state.maxConcurrency == s.maxConcurrency
    && s.queue == Started(r.effects) + r.state.queue
    && r.state.inflight == s.inflight + Started(r.effects)
    && (forall e :: e in r.effects ==> e.Execute?)
    && r.state.running.Keys == s.running.Keys + Ids(Started(r.effects))
    && r.state.running == Runs(s.running, Started(r.effects))
  }

  /** Starting the head and then draining the rest drains the whole. */
  lemma {:induction false} DrainCons(s: State, r: Step)
    requires |s.running| < s.maxConcurrency && |s.queue| > 0
    requires Drained(Run(s.(queue := s.queue[1..]), s.queue[0]).state, r)
    ensures Drained(s, Step(r.state, [Execute(s.queue[0])] + r.effects))
  {
    var head := s.queue[0];
    var es := [Execute(head)] + r.effects;
    StartedCons(head, r.effects);
    QueueSplits(s.queue, Started(r.effects), r.state.queue);
    InflightCons(s.inflight, head, Started(r.effects), r.state.inflight);
    ExecutesCons(head, r.effects);
    IdsCons(head, Started(r.effects));
    KeysCons(s.running, head, Ids(Started(r.effects)), r.state.running.Keys);
    RunsCons(s.running, head, Started(r.effects));
  }

  lemma {:induction false} InflightCons(inflight: seq<QueuedTask>, head: QueuedTask, st: seq<QueuedTask>, after: seq<QueuedTask>)
    requires after == (inflight + [head]) + st
    ensures after == inflight + ([head] + st)
  {
  }

  lemma {:induction false} ExecutesCons(head: QueuedTask, es: seq<Effect>)
    requires forall e :: e in es ==> e.Execute?
    ensures forall e :: e in [Execute(head)] + es ==> e.Execute?
  {
  }

  lemma {:induction false} KeysCons(running: map<string, ExecutorRef>, head: QueuedTask, ids: set<string>, after: set<string>)
    requires after == running[head.taskId := head.executor].Keys + ids
    ensures after == running.Keys + ({head.taskId} + ids)
  {
  }

  lemma {:induction false} StartedCons(t: QueuedTask, es: seq<Effect>)
    ensures Started([Execute(t)] + es) == [t] + Started(es)
  {
    assert ([Execute(t)] + es)[1..] == es;
  }

  lemma {:induction false} QueueSplits(q: seq<QueuedTask>, a: seq<QueuedTask>, b: seq<QueuedTask>)
    requires |q| > 0 && q[1..] == a + b
    ensures q == ([q[0]] + a) + b
  {
    assert q == [q[0]] + q[1..];
  }

  /** The ids of a list of tasks. */
  function Ids(ts: seq<QueuedTask>): set<string> {
    set t | t in ts :: t.taskId
  }

  lemma {:induction false} IdsCons(h: QueuedTask, ts: seq<QueuedTask>)
    ensures Ids([h] + ts) == {h.taskId} + Ids(ts)
  {
    assert forall t :: t in [h] + ts <==> t == h || t in ts;
  }

  /** The running map after `run` has been called for each of `ts` in order:
      one `running.set(taskId, executor)` per task, so a later task with the
      same id overwrites an earlier one. */
  function Runs(m: map<string, ExecutorRef>, ts: seq<QueuedTask>): map<string, ExecutorRef>
    decreases |ts|
  {
    if |ts| == 0 then m else Runs(m[ts[0].taskId := ts[0].executor], ts[1..])
  }

  /** `after` is `before` with the tasks `ts` started: the ids are the old
      ones plus the started ones, an id that was not started keeps its
      executor, and a started task whose id is not started again later runs
      under its own executor. */
  ghost predicate RunsUnder(after: map<string, ExecutorRef>, before: map<string, ExecutorRef>, ts: seq<QueuedTask>) {
    && after.Keys == before.Keys + Ids(ts)
    && (forall x :: x in before && x !in Ids(ts) ==> after[x] == before[x])
    && (forall i :: 0 <= i < |ts| && ts[i].taskId !in Ids(ts[i + 1..]) ==> after[ts[i].taskId] == ts[i].executor)
  }

  lemma {:induction false} RunsCons(m: map<string, ExecutorRef>, h: QueuedTask, ts: seq<QueuedTask>)
    ensures Runs(m, [h] + ts) == Runs(m[h.taskId := h.executor], ts)
  {
    assert ([h] + ts)[1..] == ts;
  }

  /** Entry by entry, `Runs` keeps the untouched executors and gives each
      last-started task its own. */
  lemma {:induction false} RunsMeans(m: map<string, ExecutorRef>, ts: seq<QueuedTask>)
    ensures RunsUnder(Runs(m, ts), m, ts)
  {
    RunsKeys(m, ts);
    forall x | x in m && x !in Ids(ts) ensures Runs(m, ts)[x] == m[x] {
      RunsKeeps(m, ts, x);
    }
    forall i | 0 <= i < |ts| && ts[i].taskId !in Ids(ts[i + 1..])
      ensures Runs(m, ts)[ts[i].taskId] == ts[i].executor
    {
      RunsLast(m, ts, i);
    }
  }

  lemma {:induction false} RunsKeys(m: map<string, ExecutorRef>, ts: seq<QueuedTask>)
    ensures Runs(m, ts).Keys == m.Keys + Ids(ts)
    decreases |ts|
  {
    if |ts| == 0 {
      assert Ids(ts) == {};
    } else {
      RunsKeys(m[ts[0].taskId := ts[0].executor], ts[1..]);
      assert ts == [ts[0]] + ts[1..];
      IdsCons(ts[0], ts[1..]);
    }
  }

  lemma {:induction false} RunsKeeps(m: map<string, ExecutorRef>, ts: seq<QueuedTask>, x: string)
    requires x in m && x !in Ids(ts)
    ensures x in Runs(m, ts) && Runs(m, ts)[x] == m[x]
    decreases |ts|
  {
    if |ts| > 0 {
      assert ts == [ts[0]] + ts[1..];
      IdsCons(ts[0], ts[1..]);
      RunsKeeps(m[ts[0].taskId := ts[0].executor], ts[1..], x);
    }
  }

  lemma {:induction false} RunsLast(m: map<string, ExecutorRef>, ts: seq<QueuedTask>, i: nat)
    requires i < |ts| && ts[i].taskId !in Ids(ts[i + 1..])
    ensures ts[i].taskId in Runs(m, ts) && Runs(m, ts)[ts[i].taskId] == ts[i].executor
    decreases |ts|
  {
    var m1 := m[ts[0].taskId := ts[0].executor];
    if i == 0 {
      RunsKeeps(m1, ts[1..], ts[0].taskId);
    } else {
      assert ts[i] == ts[1..][i - 1];
      assert ts[i + 1..] == ts[1..][i - 1 + 1..];
      RunsLast(m1, ts[1..], i - 1);
    }
  }

  /** `enqueue`: start the task at once if a slot is free, else append it to
      the tail of the queue. */
  function Enqueue(s: State, t: QueuedTask): (r: Step)
    requires Valid(s)
    ensures Valid(r.state)
    ensures r.state.maxConcurrency == s.maxConcurrency
    ensures |s.running| < s.maxConcurrency ==> r.effects == [Execute(t)] && r.state.queue == s.queue
    ensures |s.running| < s.maxConcurrency ==> r.state.running == s.running[t.taskId := t.executor]
    ensures |s.running| == s.maxConcurrency ==> r.effects == [] && r.state.queue == s.queue + [t]
    ensures |s.running| == s.maxConcurrency ==> r.state.running == s.running
    ensures r.state.inflight == s.inflight + Started(r.effects)
  {
    if |s.running| < s.maxConcurrency then Run(s, t)
    else Step(s.(queue := s.queue + [t]), [])
  }

  /** The first queue position holding `id`, or `|queue|` when there is none
      (`findIndex`). */
  function QueueIndex(q: seq<QueuedTask>, id: string): (k: nat)
    ensures k <= |q|
    ensures k < |q| ==> q[k].taskId == id
    ensures forall j :: 0 <= j < k ==> q[j].taskId != id
  {
    if |q| == 0 then 0
    else if q[0].taskId == id then 0
    else 1 + QueueIndex(q[1..], id)
  }

  predicate InQueue(s: State, id: string) {
    exists j :: 0 <= j < |s.queue| && s.queue[j].taskId == id
  }

  /** `cancel(taskId)`: a queued task is dropped from the queue (first match)
      without calling anything; a running task has its executor's `cancel`
      called, loses its slot and the queue is drained; otherwise nothing
      happens and the answer is false. */
  function Cancel(s: State, id: string): (r: (Step, bool))
    requires Valid(s)
    ensures Valid(r.0.state)
    ensures r.0.state.maxConcurrency == s.maxConcurrency
    ensures r.1 <==> InQueue(s, id) || id in s.running
    ensures InQueue(s, id) ==>
      var k := QueueIndex(s.queue, id);
      && r.0.effects == []
      && r.0.state == s.(queue := s.queue[..k] + s.queue[k + 1..])
    ensures !InQueue(s, id) && id in s.running ==>
      && |r.0.effects| >= 1
      && r.0.effects[0] == ExecutorCancel(s.running[id], id)
      && (forall i :: 1 <= i < |r.0.effects| ==> r.0.effects[i].Execute?)
      && id !in r.0.state.running
      && s.queue == Started(r.0.effects) + r.0.state.queue
      && r.0.state.running.Keys == (s.running.Keys - {id}) + Ids(Started(r.0.effects))
      && r.0.state.running == Runs(s.running - {id}, Started(r.0.effects))
      && RunsUnder(r.0.state.running, s.running - {id}, Started(r.0.effects))
      && r.0.state.inflight == s.inflight + Started(r.0.effects)
    ensures !r.1 ==> r.0 == Step(s, [])
  {
    var k := QueueIndex(s.queue, id);
    if k < |s.queue| then
      (Step(s.(queue := s.queue[..k] + s.queue[k + 1..]), []), true)
    else if id in s.running then
      (CancelRunning(s, id), true)
    else
      (Step(s, []), false)
  }

  /** Cancelling a running task that is not also queued: its executor's
      `cancel` is called first, then the freed slot is refilled. */
  function CancelRunning(s: State, id: string): (r: Step)
    requires Valid(s) && id in s.running && !InQueue(s, id)
    ensures Valid(r.state) && r.state.maxConcurrency == s.maxConcurrency
    ensures |r.effects| >= 1 && r.effects[0] == ExecutorCancel(s.running[id], id)
    ensures forall i :: 1 <= i < |r.effects| ==> r.effects[i].Execute?
    ensures id !in r.state.running
    ensures s.queue == Started(r.effects) + r.state.queue
    ensures r.state.running.Keys == (s.running.Keys - {id}) + Ids(Started(r.effects))
    ensures r.state.running == Runs(s.running - {id}, Started(r.effects))
    ensures RunsUnder(r.state.running, s.running - {id}, Started(r.effects))
    ensures r.state.inflight == s.inflight + Started(r.effects)
  {
    var s1 := s.(running := s.running - {id});
    var d := Drain(s1);
    assert id !in Ids(Started(d.effects)) by {
      forall t | t in Started(d.effects) ensures t.taskId != id {
        assert s1.queue == Started(d.effects) + d.state.queue;
        assert t in s.queue;
      }
    }
    StartedAppend([ExecutorCancel(s.running[id], id)], d.effects);
    Step(d.state, [ExecutorCancel(s.running[id], id)] + d.effects)
  }

  /** The result handed to `onComplete` when an execution rejects. */
  function SchedulerErrorResult(message: string): (r: ExecutorResult)
    ensures !r.success && r.duration == 0 && r.logs == message && r.artifacts == []
    ensures r.error == Some(ErrorInfo("SCHEDULER_ERROR", message))
  {
    Failure("SCHEDULER_ERROR", message, message, 0)
  }

  function OutcomeResult(o: Outcome): ExecutorResult {
    match o
    case Fulfilled(res) => res
    case Rejected(msg) => SchedulerErrorResult(msg)
  }

  /** The execution `inflight[k]` settles: its id leaves `running`, its
      completion callback receives the result (a rejection becomes a
      `SCHEDULER_ERROR` result), then the queue is drained. */
  function Settle(s: State, k: nat, o: Outcome): (r: Step)
    requires Valid(s)
    requires k < |s.inflight|
    ensures Valid(r.state)
    ensures r.state.maxConcurrency == s.maxConcurrency
    ensures |r.effects| >= 1
    ensures r.effects[0] == Complete(s.inflight[k].taskId, OutcomeResult(o))
    ensures forall i :: 1 <= i < |r.effects| ==> r.effects[i].Execute?
    ensures s.queue == Started(r.effects) + r.state.queue
    ensures r.state.running.Keys == (s.running.Keys - {s.inflight[k].taskId}) + Ids(Started(r.effects))
    ensures r.state.running == Runs(s.running - {s.inflight[k].taskId}, Started(r.effects))
    ensures RunsUnder(r.state.running, s.running - {s.inflight[k].taskId}, Started(r.effects))
    ensures r.state.inflight == s.inflight[..k] + s.inflight[k + 1..] + Started(r.effects)
  {
    var t := s.inflight[k];
    var s1 := s.(running := s.running - {t.taskId}, inflight := s.inflight[..k] + s.inflight[k + 1..]);
    var d := Drain(s1);
    StartedAppend([Complete(t.taskId, OutcomeResult(o))], d.effects);
    Step(d.state, [Complete(t.taskId, OutcomeResult(o))] + d.effects)
  }

  /** `getStatus`: a read of the counters. */
  function GetStatus(s: State): (st: SchedulerStatus)
    ensures st.running == |s.running| && st.queued == |s.queue| && st.maxConcurrency == s.maxConcurrency
  {
    SchedulerStatus(|s.running|, |s.queue|, s.maxConcurrency)
  }

  // ---------------------------------------------------------------------------
  // Runs of events
  // ---------------------------------------------------------------------------

  datatype Event = EvEnqueue(task: QueuedTask) | EvCancel(id: string) | EvSettle(k: nat, outcome: Outcome)

  /** Applies one event; a settlement of an execution that is not in flight
      cannot happen, so it yields `None`. */
  function Apply(s: State, e: Event): (r: Option<Step>)
    requires Valid(s)
    ensures r.Some? ==> Valid(r.value.state) && r.value.state.maxConcurrency == s.maxConcurrency
  {
    match e
    case EvEnqueue(t) => Some(Enqueue(s, t))
    case EvCancel(id) => Some(Cancel(s, id).0)
    case EvSettle(k, o) => if k < |s.inflight| then Some(Settle(s, k, o)) else None
  }

  /** Applies events in order, collecting the effects. */
  function Replay(s: State, es: seq<Event>): (r: Option<Step>)
    requires Valid(s)
    decreases |es|
  {
    if |es| == 0 then Some(Step(s, []))
    else
      match Apply(s, es[0])
      case None => None
      case Some(st) =>
        match Replay(st.state, es[1..])
        case None => None
        case Some(rest) => Some(Step(rest.state, st.effects + rest.effects))
  }

  /** Whatever happens, the number of running entries never exceeds
      `maxConcurrency` and a task waits only while all slots are taken. */
  lemma {:induction false} ReplayValid(s: State, es: seq<Event>)
    requires Valid(s)
    requires Replay(s, es).Some?
    ensures Valid(Replay(s, es).value.state)
    ensures Replay(s, es).value.state.maxConcurrency == s.maxConcurrency
    decreases |es|
  {
    if |es| > 0 {
      var st := Apply(s, es[0]).value;
      ReplayValid(st.state, es[1..]);
    }
  }

  function Min(a: nat, b: nat): nat {
    if a <= b then a else b
  }

  ghost predicate DistinctIds(ts: seq<QueuedTask>) {
    forall i, j :: 0 <= i < j < |ts| ==> ts[i].taskId != ts[j].taskId
  }

  /** Enqueuing tasks with distinct ids into a fresh scheduler runs exactly
      the first `min(n, max)` of them. */
  lemma {:induction false} EnqueueDistinctRunning(m: nat, ts: seq<QueuedTask>)
    requires DistinctIds(ts)
    ensures EnqueueAll(New(m), ts).running.Keys == Ids(ts[..Min(|ts|, m)])
    ensures |EnqueueAll(New(m), ts).running| == Min(|ts|, m)
    decreases |ts|
  {
    if |ts| > 0 {
      var init := ts[..|ts| - 1];
      EnqueueDistinctRunning(m, init);
      if |init| < m {
        EnqueueRunsLast(m, ts);
      } else {
        EnqueueQueuesLast(m, ts);
      }
    } else {
      assert ts[..0] == [];
    }
  }

  /** With a slot free the last task runs, next to the earlier ones. */
  lemma {:induction false} EnqueueRunsLast(m: nat, ts: seq<QueuedTask>)
    requires DistinctIds(ts) && 0 < |ts| <= m
    requires var init := ts[..|ts| - 1];
      && EnqueueAll(New(m), init).running.Keys == Ids(init[..|init|])
      && |EnqueueAll(New(m), init).running| == |init|
    ensures EnqueueAll(New(m), ts).running.Keys == Ids(ts[..|ts|])
    ensures |EnqueueAll(New(m), ts).running| == |ts|
  {
    var init := ts[..|ts| - 1];
    var last := ts[|ts| - 1];
    var s := EnqueueAll(New(m), init);
    assert EnqueueAll(New(m), ts) == Enqueue(s, last).state;
    assert Enqueue(s, last).state.running == s.running[last.taskId := last.executor];
    assert init[..|init|] == init && ts[..|ts|] == ts;
    LastIsNew(ts);
    SnocIds(ts);
    AddKey(s.running, last.taskId, last.executor);
  }

  lemma {:induction false} LastIsNew(ts: seq<QueuedTask>)
    requires DistinctIds(ts) && |ts| > 0
    ensures ts[|ts| - 1].taskId !in Ids(ts[..|ts| - 1])
  {
    var init := ts[..|ts| - 1];
    forall t | t in init ensures t.taskId != ts[|ts| - 1].taskId {
      var i :| 0 <= i < |init| && init[i] == t;
      assert ts[i] == t;
    }
  }

  lemma {:induction false} SnocIds(ts: seq<QueuedTask>)
    requires |ts| > 0
    ensures Ids(ts) == Ids(ts[..|ts| - 1]) + {ts[|ts| - 1].taskId}
  {
    assert ts == ts[..|ts| - 1] + [ts[|ts| - 1]];
    IdsSnoc(ts[..|ts| - 1], ts[|ts| - 1]);
  }

  lemma {:induction false} AddKey<V>(mp: map<string, V>, k: string, v: V)
    requires k !in mp
    ensures mp[k := v].Keys == mp.Keys + {k}
    ensures |mp[k := v]| == |mp| + 1
  {
  }

  lemma {:induction false} IdsSnoc(ts: seq<QueuedTask>, t: QueuedTask)
    ensures Ids(ts + [t]) == Ids(ts) + {t.taskId}
  {
    assert forall x :: x in ts + [t] <==> x in ts || x == t;
  }

  /** With every slot taken the last task waits and `running` stays. */
  lemma {:induction false} EnqueueQueuesLast(m: nat, ts: seq<QueuedTask>)
    requires m < |ts|
    requires var init := ts[..|ts| - 1];
      && EnqueueAll(New(m), init).running.Keys == Ids(init[..m])
      && |EnqueueAll(New(m), init).running| == m
    ensures EnqueueAll(New(m), ts).running.Keys == Ids(ts[..m])
    ensures |EnqueueAll(New(m), ts).running| == m
  {
    var init := ts[..|ts| - 1];
    var s := EnqueueAll(New(m), init);
    assert EnqueueAll(New(m), ts) == Enqueue(s, ts[|ts| - 1]).state;
    assert init[..m] == ts[..m];
  }

  lemma {:induction false} SliceSnoc<T>(xs: seq<T>, x: T, k: nat)
    requires k <= |xs|
    ensures (xs + [x])[k..] == xs[k..] + [x]
  {
  }

  /** ... and queues the rest, in enqueue order. */
  lemma {:induction false} EnqueueDistinctQueue(m: nat, ts: seq<QueuedTask>)
    requires DistinctIds(ts)
    ensures EnqueueAll(New(m), ts).queue == ts[Min(|ts|, m)..]
    decreases |ts|
  {
    if |ts| > 0 {
      var init := ts[..|ts| - 1];
      EnqueueDistinctQueue(m, init);
      EnqueueDistinctRunning(m, init);
      QueueAfterLast(m, ts);
    }
  }

  /** One more enqueue: the last task runs while a slot is free, and joins
      the queue's tail otherwise. */
  lemma {:induction false} QueueAfterLast(m: nat, ts: seq<QueuedTask>)
    requires |ts| > 0
    requires var init := ts[..|ts| - 1];
      && EnqueueAll(New(m), init).queue == init[Min(|init|, m)..]
      && |EnqueueAll(New(m), init).running| == Min(|init|, m)
    ensures EnqueueAll(New(m), ts).queue == ts[Min(|ts|, m)..]
  {
    if |ts| - 1 < m {
      QueueAfterLastRuns(m, ts);
    } else {
      QueueAfterLastWaits(m, ts);
    }
  }

  lemma {:induction false} QueueAfterLastRuns(m: nat, ts: seq<QueuedTask>)
    requires 0 < |ts| <= m
    requires var init := ts[..|ts| - 1];
      && EnqueueAll(New(m), init).queue == init[|init|..]
      && |EnqueueAll(New(m), init).running| == |init|
    ensures EnqueueAll(New(m), ts).queue == ts[Min(|ts|, m)..]
  {
    var init := ts[..|ts| - 1];
    var s := EnqueueAll(New(m), init);
    EnqueueAllSnoc(m, ts);
    assert s.queue == [];
    RunsLastQueue(s, ts[|ts| - 1], ts);
  }

  lemma {:induction false} QueueAfterLastWaits(m: nat, ts: seq<QueuedTask>)
    requires m < |ts|
    requires var init := ts[..|ts| - 1];
      && EnqueueAll(New(m), init).queue == init[m..]
      && |EnqueueAll(New(m), init).running| == m
    ensures EnqueueAll(New(m), ts).queue == ts[Min(|ts|, m)..]
  {
    var init := ts[..|ts| - 1];
    var s := EnqueueAll(New(m), init);
    EnqueueAllSnoc(m, ts);
    assert ts == init + [ts[|ts| - 1]];
    WaitsLastQueue(s, ts[|ts| - 1], init, ts, m);
  }

  lemma {:induction false} EnqueueAllSnoc(m: nat, ts: seq<QueuedTask>)
    requires |ts| > 0
    ensures EnqueueAll(New(m), ts) == Enqueue(EnqueueAll(New(m), ts[..|ts| - 1]), ts[|ts| - 1]).state
  {
  }

  lemma {:induction false} RunsLastQueue(s: State, last: QueuedTask, ts: seq<QueuedTask>)
    requires Valid(s) && |s.running| < s.maxConcurrency && s.queue == []
    requires |ts| <= s.maxConcurrency
    ensures Enqueue(s, last).state.queue == ts[Min(|ts|, s.maxConcurrency)..]
  {
    assert ts[|ts|..] == [];
  }

  lemma {:induction false} WaitsLastQueue(s: State, last: QueuedTask, init: seq<QueuedTask>, ts: seq<QueuedTask>, m: nat)
    requires Valid(s) && |s.running| == s.maxConcurrency == m <= |init|
    requires s.queue == init[m..] && ts == init + [last]
    ensures Enqueue(s, last).state.queue == ts[Min(|ts|, m)..]
  {
    SliceSnoc(init, last, m);
  }

  /** `getStatus` after enqueuing `n > max` distinct tasks reports
      `running = max` and `queued = n - max`. */
  lemma {:induction false} GetStatusAfterEnqueues(m: nat, ts: seq<QueuedTask>)
    requires DistinctIds(ts)
    requires |ts| > m
    ensures GetStatus(EnqueueAll(New(m), ts)) == SchedulerStatus(m, |ts| - m, m)
  {
    EnqueueDistinctRunning(m, ts);
    EnqueueDistinctQueue(m, ts);
  }

  /** A sequence of enqueues, last task last. */
  function EnqueueAll(s: State, ts: seq<QueuedTask>): (r: State)
    requires Valid(s)
    ensures Valid(r) && r.maxConcurrency == s.maxConcurrency
    decreases |ts|
  {
    if |ts| == 0 then s else Enqueue(EnqueueAll(s, ts[..|ts| - 1]), ts[|ts| - 1]).state
  }

  /** With one slot, two enqueued tasks run one after the other: the second is
      started only when the first settles, and the completion callbacks fire
      in enqueue order. */
  lemma {:induction false} OneSlotRunsInOrder(t1: QueuedTask, t2: QueuedTask, r1: ExecutorResult, r2: ExecutorResult)
    requires t1.taskId != t2.taskId
    ensures var s0 := New(1);
      var a := Enqueue(s0, t1);
      var b := Enqueue(a.state, t2);
      && Started(a.effects + b.effects) == [t1]
      && GetStatus(b.state) == SchedulerStatus(1, 1, 1)
      && var c := Settle(b.state, 0, Fulfilled(r1));
         && c.effects == [Complete(t1.taskId, r1), Execute(t2)]
         && var d := Settle(c.state, 0, Fulfilled(r2));
            && d.effects == [Complete(t2.taskId, r2)]
            && Completed(c.effects + d.effects) == [t1.taskId, t2.taskId]
  {
    var b := OneSlotQueues(t1, t2);
    OneSlotSettles(t1, t2, r1, r2);
  }

  lemma {:induction false} OneSlotQueues(t1: QueuedTask, t2: QueuedTask) returns (b: Step)
    requires t1.taskId != t2.taskId
    ensures var a := Enqueue(New(1), t1);
      && b == Enqueue(a.state, t2)
      && Started(a.effects + b.effects) == [t1]
      && b.state == State(1, [t2], map[t1.taskId := t1.executor], [t1])
  {
    var a := Enqueue(New(1), t1);
    assert a.effects == [Execute(t1)];
    b := Enqueue(a.state, t2);
    assert b.effects == [];
    assert a.effects + b.effects == [Execute(t1)];
  }

  lemma {:induction false} OneSlotSettles(t1: QueuedTask, t2: QueuedTask, r1: ExecutorResult, r2: ExecutorResult)
    requires t1.taskId != t2.taskId
    ensures var b := State(1, [t2], map[t1.taskId := t1.executor], [t1]);
      && Valid(b)
      && var c := Settle(b, 0, Fulfilled(r1));
         && c.effects == [Complete(t1.taskId, r1), Execute(t2)]
         && var d := Settle(c.state, 0, Fulfilled(r2));
            && d.effects == [Complete(t2.taskId, r2)]
            && Completed(c.effects + d.effects) == [t1.taskId, t2.taskId]
  {
    var c := SettleFirst(t1, t2, r1);
    var d := SettleOnly(t2, r2);
    CompletedAppend(c.effects, d.effects);
    assert Completed(c.effects) == [t1.taskId] by {
      assert c.effects[1..] == [Execute(t2)];
      assert c.effects[1..][1..] == [];
    }
    assert Completed(d.effects) == [t2.taskId] by {
      assert d.effects[1..] == [];
    }
  }

  /** The first task settles: the second starts in its place. */
  lemma {:induction false} SettleFirst(t1: QueuedTask, t2: QueuedTask, r1: ExecutorResult) returns (c: Step)
    requires t1.taskId != t2.taskId
    ensures Valid(State(1, [t2], map[t1.taskId := t1.executor], [t1]))
    ensures c == Settle(State(1, [t2], map[t1.taskId := t1.executor], [t1]), 0, Fulfilled(r1))
    ensures c.effects == [Complete(t1.taskId, r1), Execute(t2)]
    ensures c.state == State(1, [], map[t2.taskId := t2.executor], [t2])
  {
    var b := State(1, [t2], map[t1.taskId := t1.executor], [t1]);
    c := Settle(b, 0, Fulfilled(r1));
    var m := b.(running := b.running - {t1.taskId}, inflight := []);
    assert m.running == map[];
    DrainOne(m);
  }

  /** The only task settles and nothing else starts. */
  lemma {:induction false} SettleOnly(t: QueuedTask, r: ExecutorResult) returns (d: Step)
    ensures Valid(State(1, [], map[t.taskId := t.executor], [t]))
    ensures d == Settle(State(1, [], map[t.taskId := t.executor], [t]), 0, Fulfilled(r))
    ensures d.effects == [Complete(t.taskId, r)]
  {
    var c := State(1, [], map[t.taskId := t.executor], [t]);
    d := Settle(c, 0, Fulfilled(r));
    var m := c.(running := c.running - {t.taskId}, inflight := []);
    assert Drain(m) == Step(m, []);
  }

  /** Draining one queued task into a free slot starts it and stops. */
  lemma {:induction false} DrainOne(s: State)
    requires s.maxConcurrency == 1 && s.running == map[] && |s.queue| == 1
    ensures Drain(s).effects == [Execute(s.queue[0])] && Drain(s).state.queue == []
  {
    var s1 := Run(s.(queue := []), s.queue[0]);
    assert s.queue[1..] == [];
    assert |s1.state.running| == 1;
  }

  /** Cancelling a running task frees its slot, but its execution is still in
      flight: when it settles later, its completion callback still fires. */
  lemma {:induction false} CancelledRunningTaskStillCompletes(t: QueuedTask, r: ExecutorResult)
    ensures var a := Enqueue(New(1), t);
      var c := Cancel(a.state, t.taskId);
      && c.1
      && c.0.effects == [ExecutorCancel(t.executor, t.taskId)]
      && c.0.state.running == map[]
      && c.0.state.inflight == [t]
      && Settle(c.0.state, 0, Fulfilled(r)).effects == [Complete(t.taskId, r)]
  {
  }

  /** So the bound is on `running`, not on executions: after cancelling a
      running task, a new task starts while the cancelled execution may still
      be going, and two executions are in flight with one slot. */
  lemma {:induction false} InflightCanExceedSlots(a: QueuedTask, b: QueuedTask)
    ensures var s1 := Enqueue(New(1), a).state;
      var s2 := Cancel(s1, a.taskId).0.state;
      var s3 := Enqueue(s2, b).state;
      && s3.inflight == [a, b]
      && |s3.inflight| > s3.maxConcurrency
      && |s3.running| <= s3.maxConcurrency
  {
  }

  /** Cancelling the second of two tasks behind a single slot: it leaves
      the queue and is not among the executions in flight. */
  lemma {:induction false} CancelSecondOfTwo(t1: QueuedTask, t2: QueuedTask)
    requires t1.taskId != t2.taskId
    ensures var s1 := Enqueue(Enqueue(New(1), t1).state, t2).state;
      var c := Cancel(s1, t2.taskId);
      && c.1 && c.0.effects == []
      && c.0.state.queue == []
      && c.0.state.inflight == [t1]
  {
    var s1 := Enqueue(Enqueue(New(1), t1).state, t2).state;
    assert s1.queue == [t2];
    assert QueueIndex(s1.queue, t2.taskId) == 0;
  }

  /** `id` is queued at most once. */
  ghost predicate QueuedAtMostOnce(q: seq<QueuedTask>, id: string) {
    forall i, j :: 0 <= i < j < |q| && q[i].taskId == id ==> q[j].taskId != id
  }

  /** Cancelling a task queued once takes it out of the queue, and starts
      and calls nothing. */
  lemma {:induction false} CancelQueuedLeavesQueue(s: State, id: string)
    requires Valid(s) && InQueue(s, id) && QueuedAtMostOnce(s.queue, id)
    ensures Cancel(s, id).1 && Cancel(s, id).0.effects == []
    ensures !InQueue(Cancel(s, id).0.state, id)
  {
    var k := QueueIndex(s.queue, id);
    var q := s.queue[..k] + s.queue[k + 1..];
    assert Cancel(s, id).0.state.queue == q;
    forall j | 0 <= j < |q| ensures q[j].taskId != id {
      if j < k {
        assert q[j] == s.queue[j];
      } else {
        assert q[j] == s.queue[j + 1];
      }
    }
  }

  /** A task that is not queued is not started by one event that does not
      enqueue it, and stays out of the queue: every start takes the task
      being enqueued or the head of the queue. */
  lemma {:induction false} ApplyNeverStarts(s: State, e: Event, id: string)
    requires Valid(s) && !InQueue(s, id)
    requires !(e.EvEnqueue? && e.task.taskId == id)
    requires Apply(s, e).Some?
    ensures !InQueue(Apply(s, e).value.state, id)
    ensures id !in Ids(Started(Apply(s, e).value.effects))
  {
    var r := Apply(s, e).value;
    match e
    case EvEnqueue(t) =>
      if |s.running| < s.maxConcurrency {
        assert Started(r.effects) == [t];
      } else {
        assert r.state.queue == s.queue + [t];
        assert Started(r.effects) == [];
      }
    case EvCancel(x) =>
      if !InQueue(s, x) && x in s.running {
        QueueSplitsFree(s.queue, Started(r.effects), r.state.queue, id);
      } else if InQueue(s, x) {
        var k := QueueIndex(s.queue, x);
        forall j | 0 <= j < |r.state.queue| ensures r.state.queue[j].taskId != id {
          if j < k {
            assert r.state.queue[j] == s.queue[j];
          } else {
            assert r.state.queue[j] == s.queue[j + 1];
          }
        }
        assert Started(r.effects) == [];
      } else {
        assert Started(r.effects) == [];
      }
    case EvSettle(k, o) =>
      QueueSplitsFree(s.queue, Started(r.effects), r.state.queue, id);
  }

  /** When a queue without `id` is split into started tasks and the rest,
      neither part holds `id`. */
  lemma {:induction false} QueueSplitsFree(q: seq<QueuedTask>, started: seq<QueuedTask>, rest: seq<QueuedTask>, id: string)
    requires q == started + rest
    requires forall j :: 0 <= j < |q| ==> q[j].taskId != id
    ensures id !in Ids(started)
    ensures forall j :: 0 <= j < |rest| ==> rest[j].taskId != id
  {
    forall j | 0 <= j < |rest| ensures rest[j].taskId != id {
      assert rest[j] == q[|started| + j];
    }
    forall t | t in started ensures t.taskId != id {
      var j :| 0 <= j < |started| && started[j] == t;
      assert q[j] == t;
    }
  }

  /** A task that is not queued is never started by a run of events that
      does not enqueue it again. */
  lemma {:induction false} ReplayNeverStarts(s: State, es: seq<Event>, id: string)
    requires Valid(s) && !InQueue(s, id)
    requires forall i :: 0 <= i < |es| ==> !(es[i].EvEnqueue? && es[i].task.taskId == id)
    requires Replay(s, es).Some?
    ensures !InQueue(Replay(s, es).value.state, id)
    ensures id !in Ids(Started(Replay(s, es).value.effects))
    decreases |es|
  {
    if |es| > 0 {
      var st := Apply(s, es[0]).value;
      ApplyNeverStarts(s, es[0], id);
      ReplayNeverStarts(st.state, es[1..], id);
      var rest := Replay(st.state, es[1..]).value;
      StartedAppend(st.effects, rest.effects);
      assert Ids(Started(st.effects) + Started(rest.effects)) == Ids(Started(st.effects)) + Ids(Started(rest.effects));
    } else {
      assert Started([]) == [];
    }
  }

  /** A task cancelled while queued (and queued once) is never started:
      the cancel calls nothing, and no run of later events that does not
      enqueue the id again starts an execution with it. */
  lemma {:induction false} CancelQueuedNeverStarts(s: State, id: string, es: seq<Event>)
    requires Valid(s) && InQueue(s, id) && QueuedAtMostOnce(s.queue, id)
    requires forall i :: 0 <= i < |es| ==> !(es[i].EvEnqueue? && es[i].task.taskId == id)
    requires Replay(s, [EvCancel(id)] + es).Some?
    ensures Cancel(s, id).1 && Cancel(s, id).0.effects == []
    ensures id !in Ids(Started(Replay(s, [EvCancel(id)] + es).value.effects))
  {
    CancelQueuedLeavesQueue(s, id);
    var c := Cancel(s, id).0;
    assert ([EvCancel(id)] + es)[1..] == es;
    assert Apply(s, EvCancel(id)) == Some(c);
    ReplayNeverStarts(c.state, es, id);
    var rest := Replay(c.state, es).value;
    assert Replay(s, [EvCancel(id)] + es).value.effects == c.effects + rest.effects;
    assert c.effects + rest.effects == rest.effects;
  }
}
