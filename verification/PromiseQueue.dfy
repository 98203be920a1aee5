/**
 * The promise queue: `add` pushes a task and asks a FIFO mutex to run a callback that shifts one
 * task and awaits it. Callbacks run later, in any interleaving with further `add` calls.
 */
module PromiseQueue {
  import opened Wrappers
  import opened FifoMutex

  datatype Task = Task(id: nat)

  /**
   * `queue` and `lock` are the fields of the source's class and `inFlight` is the promise its
   * callback awaits. The rest is history: `added` and `finished` in the order of the events, and
   * how often a callback found nothing to shift.
   */
  datatype State = State(
    queue: seq<Task>, lock: Mutex<nat>, inFlight: Option<Task>,
    added: seq<Task>, finished: seq<Task>, emptyShifts: nat)

  const INITIAL: State := State([], FREE, None, [], [], 0)

  /** The callback of the ticket that holds the lock starts, or the promise it awaits settles. */
  datatype Event = Add(task: Task) | Start | Settle(rejected: bool)

  predicate Enabled(s: State, e: Event) {
    match e
    case Add(_) => true
    case Start => s.lock.holder.Some? && s.inFlight.None?
    case Settle(_) => s.inFlight.Some?
  }

  function Step(s: State, e: Event): State
    requires Enabled(s, e)
  {
    match e
    case Add(task) =>
      s.(queue := s.queue + [task], lock := s.lock.Request(|s.added|), added := s.added + [task])
    case Start =>
      // shift() of an empty queue is undefined, and calling that rejects the callback at once
      if s.queue == [] then s.(lock := s.lock.Release(), emptyShifts := s.emptyShifts + 1)
      else s.(queue := s.queue[1..], inFlight := Some(s.queue[0]))
    case Settle(_) =>
      s.(inFlight := None, finished := s.finished + [s.inFlight.value], lock := s.lock.Release())
  }

  ghost predicate IsRun(states: seq<State>, events: seq<Event>) {
    && |states| == |events| + 1 && states[0] == INITIAL
    && forall i :: 0 <= i < |events| ==> Enabled(states[i], events[i]) && states[i + 1] == Step(states[i], events[i])
  }

  function Running(s: State): seq<Task> {
    if s.inFlight.Some? then [s.inFlight.value] else []
  }

  /** The tickets whose callback has not started yet. */
  function Unstarted(s: State): nat {
    |s.lock.waiters| + if s.lock.holder.Some? && s.inFlight.None? then 1 else 0
  }

  function Upto(low: nat, high: nat): seq<nat>
    requires low <= high
  {
    seq(high - low, i => low + i)
  }

  /**
   * Tasks are neither lost, duplicated nor reordered; tickets and queued tasks match one to one;
   * the tickets in line are those of the unfinished adds, so each callback runs its own task.
   */
  predicate Consistent(s: State) {
    && s.finished + Running(s) + s.queue == s.added
    && |s.queue| == Unstarted(s)
    && s.lock.Valid()
    && s.lock.Line() == Upto(|s.finished|, |s.added|)
    && s.emptyShifts == 0
  }

  lemma {:induction false} StepKeepsConsistent(s: State, e: Event)
    requires Consistent(s) && Enabled(s, e)
    ensures Consistent(Step(s, e))
  {
    hide Consistent, Step;
    match e
    case Add(task) => AddKeeps(s, task);
    case Start => StartKeeps(s);
    case Settle(rejected) => SettleKeeps(s, rejected);
  }

  lemma AddKeeps(s: State, task: Task)
    requires Consistent(s)
    ensures Consistent(Step(s, Event.Add(task)))
  {
    var t := Step(s, Event.Add(task));
    RequestJoinsLine(s.lock, |s.added|);
    OneMoreTicket(|s.finished|, |s.added|);
    assert t.finished + Running(t) + t.queue == (s.finished + Running(s) + s.queue) + [task];
    hide Mutex.Line, Upto;
  }

  lemma StartKeeps(s: State)
    requires Consistent(s) && Enabled(s, Start)
    ensures Consistent(Step(s, Start))
  {
    hide Mutex.Line, Mutex.Valid, Upto;
    var t := Step(s, Start);
    assert s.queue == [s.queue[0]] + s.queue[1..];
    assert t.finished + Running(t) + t.queue == s.finished + Running(s) + s.queue;
  }

  lemma SettleKeeps(s: State, rejected: bool)
    requires Consistent(s) && Enabled(s, Settle(rejected))
    ensures Consistent(Step(s, Settle(rejected)))
  {
    var t := Step(s, Settle(rejected));
    LockHeldInFlight(s);
    ReleaseLeavesLine(s.lock);
    FirstTicket(|s.finished|, |s.added|);
    hide Mutex.Line, Upto;
    assert t.finished + Running(t) + t.queue == s.finished + Running(s) + s.queue;
    assert s.lock.Line()[1..] == t.lock.Line();
  }

  lemma OneMoreTicket(low: nat, high: nat)
    requires low <= high
    ensures Upto(low, high + 1) == Upto(low, high) + [high]
  {
  }

  lemma FirstTicket(low: nat, high: nat)
    requires low < high
    ensures Upto(low, high)[1..] == Upto(low + 1, high)
  {
  }

  lemma LockHeldInFlight(s: State)
    requires Consistent(s) && s.inFlight.Some?
    ensures s.lock.holder.Some?
  {
    assert |s.added| > |s.finished|;
    assert s.lock.Line() != [];
  }

  /** Safety over every run, with any interleaving of adds, starts, completions and rejections. */
  lemma {:induction false} RunsAreConsistent(states: seq<State>, events: seq<Event>, i: nat)
    requires IsRun(states, events) && i < |states|
    ensures Consistent(states[i])
  {
    if i == 0 {
      assert Consistent(INITIAL);
    } else {
      RunsAreConsistent(states, events, i - 1);
      StepKeepsConsistent(states[i - 1], events[i - 1]);
    }
  }

  /** The tasks of the adds among some events, in order. */
  function TasksAdded(events: seq<Event>): seq<Task> {
    if events == [] then []
    else
      var last := events[|events| - 1];
      TasksAdded(events[..|events| - 1]) + if last.Add? then [last.task] else []
  }

  function Starts(events: seq<Event>): nat {
    if events == [] then 0
    else Starts(events[..|events| - 1]) + if events[|events| - 1].Start? then 1 else 0
  }

  function Settlements(events: seq<Event>): nat {
    if events == [] then 0
    else Settlements(events[..|events| - 1]) + if events[|events| - 1].Settle? then 1 else 0
  }

  /** What has become of the tasks after some events: those settled, the one started since, and the rest. */
  ghost predicate Follows(s: State, events: seq<Event>) {
    var tasks := TasksAdded(events);
    && Settlements(events) <= Starts(events) <= |tasks| && Starts(events) <= Settlements(events) + 1
    && s.added == tasks
    && s.finished == tasks[..Settlements(events)]
    && Running(s) == tasks[Settlements(events)..Starts(events)]
    && s.queue == tasks[Starts(events)..]
  }

  lemma RunStep(states: seq<State>, events: seq<Event>, i: nat)
    requires IsRun(states, events) && i < |events|
    ensures |states| == |events| + 1
    ensures Enabled(states[i], events[i]) && states[i + 1] == Step(states[i], events[i])
  {
    hide Enabled, Step;
  }

  lemma NothingYet(states: seq<State>, events: seq<Event>)
    requires IsRun(states, events)
    ensures |states| == |events| + 1 && Follows(states[0], [])
  {
  }

  /**
   * In every run the events alone say where every task is: nothing that was added is lost, the first
   * ones added are the first ones run, and each start and settlement moves exactly one.
   */
  lemma {:induction false} EventsDecideTasks(states: seq<State>, events: seq<Event>, i: nat)
    requires IsRun(states, events) && i <= |events|
    ensures |states| == |events| + 1 && Follows(states[i], events[..i])
  {
    hide *;
    NothingYet(states, events);
    if i == 0 {
      assert events[..0] == [];
    } else {
      var past, e := events[..i - 1], events[i - 1];
      EventsDecideTasks(states, events, i - 1);
      RunStep(states, events, i - 1);
      RunsAreConsistent(states, events, i - 1);
      RunsAreConsistent(states, events, i);
      assert events[..i] == past + [e];
      OneMoreEvent(states[i - 1], past, e);
    }
  }

  lemma OneMoreEvent(s: State, past: seq<Event>, e: Event)
    requires Consistent(s) && Enabled(s, e) && Follows(s, past) && Consistent(Step(s, e))
    ensures Follows(Step(s, e), past + [e])
  {
    CountOneMore(past, e);
    StepMovesOne(s, e);
    hide TasksAdded, Starts, Settlements, Step, Enabled, Running, Mutex.Line, Mutex.Valid, Upto;
    var t := Step(s, e);
    Slices(t.finished, Running(t), t.queue);
  }

  /** What an event does to the lengths of the three lists, and to the tasks added. */
  lemma StepMovesOne(s: State, e: Event)
    requires Consistent(s) && Enabled(s, e)
    ensures var t := Step(s, e);
            && t.added == s.added + (if e.Add? then [e.task] else [])
            && |t.finished| == |s.finished| + (if e.Settle? then 1 else 0)
            && |t.finished| + |Running(t)| == |s.finished| + |Running(s)| + (if e.Start? then 1 else 0)
            && |Running(t)| <= 1
  {
    assert s.added + [] == s.added;
    hide Mutex.Line, Upto;
  }

  lemma Slices(a: seq<Task>, b: seq<Task>, c: seq<Task>)
    ensures var all := a + b + c;
            a == all[..|a|] && b == all[|a|..|a| + |b|] && c == all[|a| + |b|..]
  {
  }

  lemma CountOneMore(past: seq<Event>, e: Event)
    ensures TasksAdded(past + [e]) == TasksAdded(past) + if e.Add? then [e.task] else []
    ensures Starts(past + [e]) == Starts(past) + if e.Start? then 1 else 0
    ensures Settlements(past + [e]) == Settlements(past) + if e.Settle? then 1 else 0
  {
    assert (past + [e])[..|past|] == past;
  }

  /** The callback that starts is given the very task whose `add` asked for its ticket. */
  lemma TicketRunsItsOwnTask(s: State)
    requires Consistent(s) && Enabled(s, Start)
    ensures var ticket := s.lock.holder.value;
            ticket == |s.finished| < |s.added| && Step(s, Start).inFlight == Some(s.added[ticket])
  {
    assert s.lock.Line()[0] == s.lock.holder.value;
    assert s.added[|s.finished|] == s.queue[0];
  }

  function Unfinished(s: State): nat
    requires Consistent(s)
  {
    2 * |s.queue| + |Running(s)|
  }

  /** While a task is unfinished the queue can move, so no rejection or order of events stalls it. */
  lemma NeverStuck(s: State)
    requires Consistent(s) && s.finished != s.added
    ensures Enabled(s, Start) || Enabled(s, Settle(false))
  {
    if s.inFlight.None? {
      assert |s.queue| > 0;
      assert s.lock.holder.Some?;
    }
  }

  /** Whether the events can happen one after the other, without a new task among them. */
  predicate AllHappen(s: State, events: seq<Event>)
    decreases |events|
  {
    events != [] ==> !events[0].Add? && Enabled(s, events[0]) && AllHappen(Step(s, events[0]), events[1..])
  }

  /**
   * Left alone, each event brings the queue one closer to its end, whatever the schedule and the
   * rejections: no schedule is longer than the work left, and those that are as long finish every task.
   */
  lemma {:induction false} EveryScheduleDrains(s: State, events: seq<Event>)
    requires Consistent(s) && AllHappen(s, events)
    ensures var end := After(s, events);
            && Consistent(end) && end.added == s.added
            && |events| + Unfinished(end) == Unfinished(s)
            && (|events| == Unfinished(s) <==> end.finished == s.added)
    decreases |events|
  {
    if events != [] {
      StepKeepsConsistent(s, events[0]);
      OneEventLess(s, events[0]);
      EveryScheduleDrains(Step(s, events[0]), events[1..]);
    }
    NothingUnfinished(After(s, events));
    hide Consistent, Step, Enabled;
  }

  lemma OneEventLess(s: State, e: Event)
    requires Consistent(s) && !e.Add? && Enabled(s, e) && Consistent(Step(s, e))
    ensures Unfinished(Step(s, e)) == Unfinished(s) - 1 && Step(s, e).added == s.added
  {
  }

  lemma NothingUnfinished(s: State)
    requires Consistent(s)
    ensures Unfinished(s) == 0 <==> s.finished == s.added
  {
  }

  /** Left alone, it finishes every task in a known number of events, whichever of them reject. */
  lemma {:induction false} Drains(s: State, rejects: Task -> bool) returns (events: seq<Event>, end: State)
    requires Consistent(s)
    ensures |events| == Unfinished(s) && end == After(s, events) && Consistent(end)
    ensures end.finished == end.added == s.added && end.queue == [] && end.lock == FREE
    decreases Unfinished(s)
  {
    if s.finished == s.added {
      assert s.lock.Line() == [];
      return [], s;
    }
    NeverStuck(s);
    var e := if s.inFlight.Some? then Settle(rejects(s.inFlight.value)) else Start;
    StepKeepsConsistent(s, e);
    var more;
    more, end := Drains(Step(s, e), rejects);
    events := [e] + more;
  }

  /** The state after a list of events, up to the first one that cannot happen. */
  function After(s: State, events: seq<Event>): State
    decreases |events|
  {
    if events == [] then s
    else if Enabled(s, events[0]) then After(Step(s, events[0]), events[1..])
    else s
  }

  /** The class itself; its methods are the events. */
  class PromiseQueue {
    var queue: seq<Task>
    var lock: Mutex<nat>
    var inFlight: Option<Task>
    ghost var added: seq<Task>
    ghost var finished: seq<Task>
    ghost var emptyShifts: nat
    var tickets: nat

    ghost function Current(): State
      reads this
    {
      State(queue, lock, inFlight, added, finished, emptyShifts)
    }

    ghost predicate Valid()
      reads this
    {
      tickets == |added| && Consistent(Current())
    }

    constructor ()
      ensures Valid() && Current() == INITIAL
    {
      queue, lock, inFlight, tickets := [], FREE, None, 0;
      added, finished, emptyShifts := [], [], 0;
    }

    method Add(task: Task)
      requires Valid()
      modifies this
      ensures Valid() && Current() == Step(old(Current()), Event.Add(task))
      ensures queue == old(queue) + [task] && added == old(added) + [task]
      ensures tickets == old(tickets) + 1 && lock.Line() == old(lock.Line()) + [old(tickets)]
      ensures inFlight == old(inFlight) && finished == old(finished)
    {
      StepKeepsConsistent(Current(), Event.Add(task));
      RequestJoinsLine(lock, tickets);
      queue := queue + [task];
      added := added + [task];
      Run();
    }

    /** Asks for the lock; the callback runs once it is granted. */
    method Run()
      modifies this`lock, this`tickets
      ensures lock == old(lock).Request(old(tickets)) && tickets == old(tickets) + 1
    {
      lock := lock.Request(tickets);
      tickets := tickets + 1;
    }

    /** Never undefined: the lock is granted only to tickets whose task is still queued. */
    method Granted() returns (promise: Task)
      requires Valid() && lock.holder.Some? && inFlight.None?
      modifies this`queue, this`inFlight
      ensures Valid() && Current() == Step(old(Current()), Start)
      ensures [promise] + queue == old(queue) && inFlight == Some(promise)
      ensures lock == old(lock)
    {
      StepKeepsConsistent(Current(), Start);
      promise := queue[0];
      queue := queue[1..];
      inFlight := Some(promise);
    }

    /** The awaited promise settles; the mutex is released whether or not it rejected. */
    method Settled(rejected: bool)
      requires Valid() && inFlight.Some?
      modifies this
      ensures Valid() && Current() == Step(old(Current()), Settle(rejected))
      ensures inFlight.None? && finished == old(finished) + [old(inFlight).value] && queue == old(queue)
      ensures old(lock.Line()) == [old(|finished|)] + lock.Line()
    {
      StepKeepsConsistent(Current(), Settle(rejected));
      LockHeldInFlight(Current());
      ReleaseLeavesLine(lock);
      assert lock.Line()[0] == |finished|;
      finished := finished + [inFlight.value];
      inFlight := None;
      lock := lock.Release();
    }

    method Size() returns (size: nat)
      requires Valid()
      ensures size == Unstarted(Current()) == |added| - |finished| - |Running(Current())|
    {
      size := |queue|;
    }
  }
}
