/**
 The group message coalescer as a state machine over the steps the event loop
 can take. A step is one stretch of code between two suspension points; the
 busy probe, the timeout callback and the order of steps are free choices.
 */
module CoalescerModel {
  import opened Common
  import opened BatchMerge

  type Key = string
  type TaskId = nat

  datatype Config = Config(idleMs: nat, maxWaitMs: nat, pollMs: nat, busyTimeoutMs: Option<nat>)

  /** A queued message with the time it arrived and the idle delay it asked for. */
  datatype Arrival = Arrival(message: InboundMessage, at: nat, delay: nat)

  /** A merged message passed to the dispatch callback for a chat. */
  datatype Dispatch = Dispatch(key: Key, message: InboundMessage)

  datatype Kind = IdleTimer | MaxWaitTimer | BusyWaiter | Caller

  datatype Deadline = Unset | Never | At(time: nat)

  /** What a task of the event loop is suspended in. */
  datatype Phase =
    | Sleeping(due: nat)
    | Polling(next: nat, deadline: Deadline)
    | Gathering(first: Option<TaskId>, second: Option<TaskId>)
    | Dispatching(batch: seq<Arrival>)
    | Cancelled

  datatype Task = Task(kind: Kind, key: Key, phase: Phase)

  datatype State = State(
    now: nat,
    pending: map<Key, seq<Arrival>>,
    idle: map<Key, TaskId>,
    maxWait: map<Key, TaskId>,
    waiters: map<Key, TaskId>,
    tasks: map<TaskId, Task>,
    nextTask: TaskId,
    handed: map<Key, seq<seq<Arrival>>>,
    dispatched: seq<Dispatch>)

  datatype Event =
    | Elapse(ms: nat)
    | Enqueue(key: Key, message: InboundMessage, idleOverride: Option<nat>)
    | FlushNow(key: Key, busy: bool)
    | FlushNowResumes(caller: TaskId, busy: bool)
    | TimerFires(timer: TaskId, busy: bool)
    | WaiterPolls(waiter: TaskId, busy: bool, keepWaiting: bool, busyAgain: bool)
    | CancelledTaskEnds(task: TaskId)
    | DispatchEnds(task: TaskId)

  const INITIAL := State(0, map[], map[], map[], map[], map[], 0, map[], [])

  // --- Pieces of a step -------------------------------------------------------

  function CancelTask(tasks: map<TaskId, Task>, id: TaskId): map<TaskId, Task> {
    if id in tasks then tasks[id := tasks[id].(phase := Cancelled)] else tasks
  }

  /** Cancels whichever task is registered under a key, if there is one and it is not `self`. */
  function CancelRegistered(tasks: map<TaskId, Task>, registry: map<Key, TaskId>, key: Key, self: Option<TaskId>)
    : map<TaskId, Task>
  {
    if key in registry && self != Some(registry[key]) then CancelTask(tasks, registry[key]) else tasks
  }

  function ResetIdle(s: State, key: Key, delay: nat): State {
    var timer := Task(IdleTimer, key, Sleeping(s.now + delay));
    s.(tasks := CancelRegistered(s.tasks, s.idle, key, None)[s.nextTask := timer],
       nextTask := s.nextTask + 1,
       idle := s.idle[key := s.nextTask])
  }

  function Lookup(registry: map<Key, TaskId>, key: Key): Option<TaskId> {
    if key in registry then Some(registry[key]) else None
  }

  function DelayOf(c: Config, idleOverride: Option<nat>): nat {
    match idleOverride case Some(d) => d case None => c.idleMs
  }

  function Pending(s: State, key: Key): seq<Arrival> {
    if key in s.pending then s.pending[key] else []
  }

  function Handed(s: State, key: Key): seq<seq<Arrival>> {
    if key in s.handed then s.handed[key] else []
  }

  function StartMaxWait(s: State, key: Key, delay: nat): State {
    s.(tasks := s.tasks[s.nextTask := Task(MaxWaitTimer, key, Sleeping(s.now + delay))],
       nextTask := s.nextTask + 1,
       maxWait := s.maxWait[key := s.nextTask])
  }

  function EnqueueStep(c: Config, s: State, key: Key, message: InboundMessage, idleOverride: Option<nat>): State {
    var delay := DelayOf(c, idleOverride);
    var s1 := s.(pending := s.pending[key := Pending(s, key) + [Arrival(message, s.now, delay)]]);
    var s2 := ResetIdle(s1, key, delay);
    if key in s2.maxWait then s2 else StartMaxWait(s2, key, Max(c.maxWaitMs, delay))
  }

  function Hold(s: State, key: Key): State {
    if key in s.waiters then s
    else
      s.(tasks := s.tasks[s.nextTask := Task(BusyWaiter, key, Polling(s.now, Unset))],
         nextTask := s.nextTask + 1,
         waiters := s.waiters[key := s.nextTask])
  }

  function Unregister(registry: map<Key, TaskId>, key: Key, id: TaskId): map<Key, TaskId> {
    if key in registry && registry[key] == id then registry - {key} else registry
  }

  /** A task finishes: its `finally` clause drops its own registration. */
  function EndTask(s: State, id: TaskId): State
    requires id in s.tasks
  {
    var task := s.tasks[id];
    s.(tasks := s.tasks - {id},
       idle := if task.kind == IdleTimer then Unregister(s.idle, task.key, id) else s.idle,
       maxWait := if task.kind == MaxWaitTimer then Unregister(s.maxWait, task.key, id) else s.maxWait,
       waiters := if task.kind == BusyWaiter then Unregister(s.waiters, task.key, id) else s.waiters)
  }

  function MessagesOf(batch: seq<Arrival>): seq<InboundMessage> {
    seq(|batch|, i requires 0 <= i < |batch| => batch[i].message)
  }

  /** The batch leaves the queue as one merged message; both timers are dropped, the others cancelled. */
  function Take(s: State, id: TaskId, key: Key): State
    requires id in s.tasks && key in s.pending && s.pending[key] != []
  {
    var batch := s.pending[key];
    var tasks1 := s.tasks[id := s.tasks[id].(phase := Dispatching(batch))];
    var tasks2 := CancelRegistered(tasks1, s.idle, key, Some(id));
    var tasks3 := CancelRegistered(tasks2, s.maxWait, key, Some(id));
    s.(pending := s.pending - {key},
       idle := s.idle - {key},
       maxWait := s.maxWait - {key},
       tasks := tasks3,
       handed := s.handed[key := Handed(s, key) + [batch]],
       dispatched := s.dispatched + [Dispatch(key, Merge(MessagesOf(batch)))])
  }

  /** `flush`, run by task `id`. */
  function Flush(s: State, id: TaskId, busy: bool, force: bool): State
    requires id in s.tasks
  {
    var key := s.tasks[id].key;
    if !force && key in s.pending && busy then EndTask(Hold(s, key), id)
    else if Pending(s, key) == [] then EndTask(s.(pending := s.pending - {key}), id)
    else Take(s, id, key)
  }

  // --- Steps ----------------------------------------------------------------------

  /** First half: both timers are dropped and cancelled, the caller waits for them. */
  function OpenFlushNow(s: State, key: Key): State {
    var first, second := Lookup(s.idle, key), Lookup(s.maxWait, key);
    var tasks := CancelRegistered(CancelRegistered(s.tasks, s.idle, key, None), s.maxWait, key, None);
    s.(tasks := tasks[s.nextTask := Task(Caller, key, Gathering(first, second))],
       nextTask := s.nextTask + 1,
       idle := s.idle - {key},
       maxWait := s.maxWait - {key})
  }

  /** With no timer to wait for, the caller flushes in the same step. */
  function FlushNowStep(s: State, key: Key, busy: bool): State {
    var s1 := OpenFlushNow(s, key);
    if key in s.idle || key in s.maxWait then s1 else Flush(s1, s.nextTask, busy, false)
  }

  predicate Gone(s: State, id: Option<TaskId>) {
    id.None? || id.value !in s.tasks
  }

  function BeginDeadline(c: Config, now: nat, deadline: Deadline): Deadline {
    if deadline != Unset then deadline
    else match c.busyTimeoutMs case Some(t) => At(now + t) case None => Never
  }

  /** A waiter done with polling drops its own registration before it flushes. */
  function StopWaiting(s: State, id: TaskId): State
    requires id in s.tasks
  {
    s.(waiters := Unregister(s.waiters, s.tasks[id].key, id))
  }

  function PollDeadline(c: Config, s: State, id: TaskId): Deadline
    requires id in s.tasks && s.tasks[id].phase.Polling?
  {
    BeginDeadline(c, s.now, s.tasks[id].phase.deadline)
  }

  predicate Late(c: Config, s: State, id: TaskId)
    requires id in s.tasks && s.tasks[id].phase.Polling?
  {
    var deadline := PollDeadline(c, s, id);
    deadline.At? && s.now >= deadline.time
  }

  /** Still busy: sleep until the next poll, with a new deadline if the old one
      passed and the timeout callback asked to keep waiting. */
  function PollAgain(c: Config, s: State, id: TaskId): State
    requires id in s.tasks && s.tasks[id].phase.Polling?
  {
    var deadline := match c.busyTimeoutMs
      case Some(timeout) => if Late(c, s, id) then At(s.now + timeout) else PollDeadline(c, s, id)
      case None => PollDeadline(c, s, id);
    s.(tasks := s.tasks[id := s.tasks[id].(phase := Polling(s.now + c.pollMs, deadline))])
  }

  /** The waiter flushes when the chat is free, or by force when it timed out. */
  function WaiterStep(c: Config, s: State, id: TaskId, busy: bool, keepWaiting: bool, busyAgain: bool): State
    requires id in s.tasks && s.tasks[id].phase.Polling?
  {
    if busy && (keepWaiting || !Late(c, s, id)) then PollAgain(c, s, id)
    else Flush(StopWaiting(s, id), id, busyAgain, busy)
  }

  predicate Enabled(s: State, e: Event) {
    match e
    case Elapse(_) => true
    case Enqueue(_, _, _) => true
    case FlushNow(_, _) => true
    case FlushNowResumes(id, _) =>
      id in s.tasks && s.tasks[id].phase.Gathering?
      && Gone(s, s.tasks[id].phase.first) && Gone(s, s.tasks[id].phase.second)
    case TimerFires(id, _) => id in s.tasks && s.tasks[id].phase.Sleeping? && s.now >= s.tasks[id].phase.due
    case WaiterPolls(id, _, _, _) => id in s.tasks && s.tasks[id].phase.Polling? && s.now >= s.tasks[id].phase.next
    case CancelledTaskEnds(id) => id in s.tasks && s.tasks[id].phase.Cancelled?
    case DispatchEnds(id) => id in s.tasks && s.tasks[id].phase.Dispatching?
  }

  /** One step; an event that is not possible now changes nothing. */
  function Step(c: Config, s: State, e: Event): State {
    if !Enabled(s, e) then s
    else
      match e
      case Elapse(ms) => s.(now := s.now + ms)
      case Enqueue(key, message, idleOverride) => EnqueueStep(c, s, key, message, idleOverride)
      case FlushNow(key, busy) => FlushNowStep(s, key, busy)
      case FlushNowResumes(id, busy) => Flush(s, id, busy, false)
      case TimerFires(id, busy) => Flush(s, id, busy, false)
      case WaiterPolls(id, busy, keepWaiting, busyAgain) => WaiterStep(c, s, id, busy, keepWaiting, busyAgain)
      case CancelledTaskEnds(id) => EndTask(s, id)
      case DispatchEnds(id) => EndTask(s, id)
  }

  function Run(c: Config, events: seq<Event>): State {
    if events == [] then INITIAL else Step(c, Run(c, events[..|events| - 1]), Last(events))
  }

  function CancelAll(tasks: map<TaskId, Task>, ids: set<TaskId>): map<TaskId, Task> {
    map id | id in tasks :: if id in ids then tasks[id].(phase := Cancelled) else tasks[id]
  }

  /** `cancel`: every registered task is cancelled. */
  function Shutdown(s: State): State {
    s.(pending := map[], idle := map[], maxWait := map[], waiters := map[],
       tasks := CancelAll(s.tasks, s.idle.Values + s.maxWait.Values + s.waiters.Values))
  }
}
