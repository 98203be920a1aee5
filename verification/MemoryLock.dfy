/**
 * Per-key locks in memory: a map from keys to lock objects, filled on first use, and a section that
 * acquires, runs a body and releases in `finally`. A lock object made with a timeout rejects waiters
 * whose time is up; the ticket they leave behind is handed on as soon as it is granted.
 */
module MemoryLock {
  import opened Wrappers
  import opened FifoMutex

  type Key = string
  type Caller = nat

  datatype Outcome = Returned(value: int) | Threw(error: int)

  /** Where a call of `runExclusive` is. */
  datatype Phase =
    | Waiting
    | InBody
    | Leaving(outcome: Outcome)
    | Settled(outcome: Outcome)
    | TimedOut(passedOn: bool)

  datatype Call = Call(phase: Phase, releases: nat)

  /** One lock object with the calls that use it, in the order they asked for it and released it. */
  datatype Lock = Lock(
    timed: bool, mutex: Mutex<Caller>,
    calls: map<Caller, Call>, asked: seq<Caller>, released: seq<Caller>)

  // ---------------------------------------------------------------- one lock object

  datatype Event =
    | Acquire(caller: Caller)
    | BodyEnds(caller: Caller, outcome: Outcome)
    | Finally(caller: Caller)
    | TimeUp(caller: Caller)
    | PassOn(caller: Caller)

  predicate Enabled(l: Lock, e: Event) {
    if e.Acquire? then e.caller !in l.calls
    else
      && e.caller in l.calls
      && var phase := l.calls[e.caller].phase;
         match e
         case BodyEnds(_, _) => phase.InBody?
         case Finally(_) => phase.Leaving?
         case TimeUp(_) => phase.Waiting? && l.timed
         case PassOn(_) => phase == TimedOut(false) && l.mutex.holder == Some(e.caller)
  }

  /** A mutex's new holder enters its body, unless its time was up while it waited. */
  function Admit(calls: map<Caller, Call>, holder: Option<Caller>): map<Caller, Call> {
    if holder.Some? && holder.value in calls && calls[holder.value].phase.Waiting? then
      calls[holder.value := calls[holder.value].(phase := InBody)]
    else calls
  }

  function Join(l: Lock, caller: Caller): Lock {
    var mutex := l.mutex.Request(caller);
    l.(mutex := mutex, asked := l.asked + [caller],
       calls := Admit(l.calls[caller := Call(Waiting, 0)], mutex.holder))
  }

  function Rephase(l: Lock, caller: Caller, phase: Phase): Lock
    requires caller in l.calls
  {
    l.(calls := l.calls[caller := l.calls[caller].(phase := phase)])
  }

  function GiveUp(l: Lock, caller: Caller, phase: Phase): Lock
    requires caller in l.calls
  {
    var mutex := l.mutex.Release();
    l.(mutex := mutex, released := l.released + [caller],
       calls := Admit(l.calls[caller := Call(phase, l.calls[caller].releases + 1)], mutex.holder))
  }

  function Step(l: Lock, e: Event): Lock
    requires Enabled(l, e)
  {
    match e
    case Acquire(caller) => Join(l, caller)
    case BodyEnds(caller, outcome) => Rephase(l, caller, Leaving(outcome))
    case Finally(caller) => GiveUp(l, caller, Settled(l.calls[caller].phase.outcome))
    case TimeUp(caller) => Rephase(l, caller, TimedOut(false))
    case PassOn(caller) => GiveUp(l, caller, TimedOut(true))
  }

  /** Whether a call has been granted the lock and has not given it back. */
  predicate Owns(call: Call) {
    call.phase.InBody? || call.phase.Leaving?
  }

  predicate InLine(call: Call) {
    call.phase.Waiting? || Owns(call) || call.phase == TimedOut(false)
  }

  predicate Distinct(callers: seq<Caller>) {
    forall j, k :: 0 <= j < k < |callers| ==> callers[j] != callers[k]
  }

  /** The lock is served in the order of asking, everyone asks once, and the line is the unfinished calls. */
  ghost predicate Served(l: Lock) {
    && l.mutex.Valid()
    && l.asked == l.released + l.mutex.Line()
    && Distinct(l.asked)
    && (forall c :: c in l.calls <==> c in l.asked)
    && (forall c :: c in l.calls ==> (InLine(l.calls[c]) <==> c in l.mutex.Line()))
  }

  predicate CallConsistent(l: Lock, c: Caller)
    requires c in l.calls
  {
    var call := l.calls[c];
    && (Owns(call) ==> l.mutex.holder == Some(c))
    && (call.phase.Waiting? ==> l.mutex.holder != Some(c))
    && (call.phase.TimedOut? ==> l.timed)
    && call.releases == if InLine(call) then 0 else 1
  }

  ghost predicate LockConsistent(l: Lock) {
    Served(l) && forall c :: c in l.calls ==> CallConsistent(l, c)
  }

  lemma DisjointParts(before: seq<Caller>, after: seq<Caller>)
    requires Distinct(before + after)
    ensures forall x :: x in before ==> x !in after
  {
    var all := before + after;
    forall i, j | 0 <= i < |before| && 0 <= j < |after|
      ensures before[i] != after[j]
    {
      assert all[i] == before[i] && all[|before| + j] == after[j];
    }
  }

  lemma DistinctParts(before: seq<Caller>, c: Caller, after: seq<Caller>)
    requires Distinct(before + [c] + after)
    ensures c !in before && c !in after
    ensures forall x :: x in before ==> x !in after
  {
    assert before + [c] + after == before + ([c] + after);
    DisjointParts(before, [c] + after);
    DisjointParts(before + [c], after);
    assert c in [c] + after && c in before + [c];
    assert forall x :: x in after ==> x in [c] + after;
  }

  lemma JoinKeeps(l: Lock, caller: Caller)
    requires LockConsistent(l) && caller !in l.calls
    ensures LockConsistent(Join(l, caller))
  {
    var t := Join(l, caller);
    var phase := if l.mutex.holder.None? then InBody else Waiting;
    RequestJoinsLine(l.mutex, caller);
    assert l.mutex.holder.Some? ==> l.mutex.holder.value in l.mutex.Line();
    assert t.calls == l.calls[caller := Call(phase, 0)];
    assert t.asked == t.released + t.mutex.Line();
    forall c | c in t.calls
      ensures CallConsistent(t, c)
    {
      assert c != caller ==> CallConsistent(l, c);
    }
  }

  lemma RephaseKeeps(l: Lock, caller: Caller, phase: Phase)
    requires LockConsistent(l) && caller in l.calls
    requires if phase.Leaving? then l.calls[caller].phase.InBody?
             else phase == TimedOut(false) && l.calls[caller].phase.Waiting? && l.timed
    ensures LockConsistent(Rephase(l, caller, phase))
  {
    var t := Rephase(l, caller, phase);
    forall c | c in t.calls
      ensures CallConsistent(t, c)
    {
      assert CallConsistent(l, c);
    }
  }

  lemma GiveUpKeeps(l: Lock, caller: Caller, phase: Phase)
    requires LockConsistent(l) && caller in l.calls && l.mutex.holder == Some(caller)
    requires InLine(l.calls[caller])
    requires phase.Settled? || (phase == TimedOut(true) && l.calls[caller].phase.TimedOut?)
    ensures LockConsistent(GiveUp(l, caller, phase))
  {
    GiveUpServed(l, caller, phase);
    hide Served, GiveUp, Distinct, InLine, CallConsistent;
    forall c | c in l.calls
      ensures c in GiveUp(l, caller, phase).calls && CallConsistent(GiveUp(l, caller, phase), c)
    {
      GiveUpKeepsCall(l, caller, phase, c);
    }
    OnlyCallerLeaves(l, caller, phase);
  }

  lemma GiveUpKeepsCall(l: Lock, caller: Caller, phase: Phase, c: Caller)
    requires caller in l.calls && c in l.calls && l.mutex.holder == Some(caller)
    requires InLine(l.calls[caller]) && CallConsistent(l, caller) && CallConsistent(l, c)
    requires phase.Settled? || (phase == TimedOut(true) && l.calls[caller].phase.TimedOut?)
    ensures c in GiveUp(l, caller, phase).calls && CallConsistent(GiveUp(l, caller, phase), c)
  {
  }

  lemma GiveUpServed(l: Lock, caller: Caller, phase: Phase)
    requires Served(l) && caller in l.calls && l.mutex.holder == Some(caller)
    requires phase.Settled? || phase == TimedOut(true)
    ensures Served(GiveUp(l, caller, phase))
    ensures caller !in GiveUp(l, caller, phase).mutex.Line()
  {
    LineAfterGiveUp(l, caller, phase);
    OnlyCallerLeaves(l, caller, phase);
    hide InLine, GiveUp, Distinct, Mutex.Line, Mutex.Valid;
  }

  /** The line loses its head, which joins those who have released. */
  lemma LineAfterGiveUp(l: Lock, caller: Caller, phase: Phase)
    requires l.mutex.Valid() && l.asked == l.released + l.mutex.Line() && Distinct(l.asked)
    requires caller in l.calls && l.mutex.holder == Some(caller)
    ensures var t := GiveUp(l, caller, phase);
            && t.mutex.Valid() && t.asked == l.asked == t.released + t.mutex.Line()
            && caller !in t.mutex.Line()
            && forall c :: c in l.mutex.Line() <==> c == caller || c in t.mutex.Line()
  {
    var line := GiveUp(l, caller, phase).mutex.Line();
    ReleaseLeavesLine(l.mutex);
    assert l.asked == l.released + [caller] + line;
    DistinctParts(l.released, caller, line);
  }

  lemma OnlyCallerLeaves(l: Lock, caller: Caller, phase: Phase)
    requires caller in l.calls && (phase.Settled? || phase == TimedOut(true))
    ensures var t := GiveUp(l, caller, phase);
            && t.calls.Keys == l.calls.Keys
            && forall c :: c in l.calls ==> (InLine(t.calls[c]) <==> c != caller && InLine(l.calls[c]))
  {
  }

  lemma StepKeepsLock(l: Lock, e: Event)
    requires LockConsistent(l) && Enabled(l, e)
    ensures LockConsistent(Step(l, e))
  {
    if e.caller in l.calls {
      assert CallConsistent(l, e.caller);
    }
    hide LockConsistent, Join, Rephase, GiveUp;
    match e
    case Acquire(caller) => JoinKeeps(l, caller);
    case BodyEnds(caller, outcome) => RephaseKeeps(l, caller, Leaving(outcome));
    case Finally(caller) => GiveUpKeeps(l, caller, Settled(l.calls[caller].phase.outcome));
    case TimeUp(caller) => RephaseKeeps(l, caller, TimedOut(false));
    case PassOn(caller) => GiveUpKeeps(l, caller, TimedOut(true));
  }

  // ---------------------------------------------------------------- how long a line lasts

  /** The events a call still has to go through. */
  function Remaining(phase: Phase): nat {
    match phase
    case Waiting => 2
    case InBody => 2
    case Leaving(_) => 1
    case Settled(_) => 0
    case TimedOut(passedOn) => if passedOn then 0 else 1
  }

  function Work(calls: map<Caller, Call>, callers: seq<Caller>): nat
    requires forall c :: c in callers ==> c in calls
  {
    if callers == [] then 0 else Remaining(calls[callers[0]].phase) + Work(calls, callers[1..])
  }

  /** All that is left to do on a lock object if nobody else asks for it. */
  ghost function WorkLeft(l: Lock): nat
    requires LockConsistent(l)
  {
    Work(l.calls, l.asked)
  }

  lemma {:induction false} WorkStays(calls: map<Caller, Call>, after: map<Caller, Call>, callers: seq<Caller>)
    requires forall c :: c in callers ==>
               c in calls && c in after && Remaining(after[c].phase) == Remaining(calls[c].phase)
    ensures Work(after, callers) == Work(calls, callers)
  {
    hide Remaining;
    if callers != [] {
      WorkStays(calls, after, callers[1..]);
    }
  }

  lemma {:induction false} WorkDrops(calls: map<Caller, Call>, after: map<Caller, Call>, callers: seq<Caller>, caller: Caller)
    requires Distinct(callers) && caller in callers
    requires forall c :: c in callers ==> c in calls && c in after
    requires forall c :: c in callers && c != caller ==> Remaining(after[c].phase) == Remaining(calls[c].phase)
    requires Remaining(after[caller].phase) == Remaining(calls[caller].phase) - 1
    ensures Work(after, callers) == Work(calls, callers) - 1
  {
    hide Remaining;
    if callers[0] == caller {
      WorkStays(calls, after, callers[1..]);
    } else {
      WorkDrops(calls, after, callers[1..], caller);
    }
  }

  /** Each event of one call uses up one of its own remaining events and none of another call's. */
  lemma StepRemaining(l: Lock, e: Event)
    requires Enabled(l, e) && !e.Acquire?
    ensures var t := Step(l, e);
            && t.asked == l.asked && t.calls.Keys == l.calls.Keys && e.caller in l.calls
            && Remaining(t.calls[e.caller].phase) == Remaining(l.calls[e.caller].phase) - 1
            && forall c :: c in l.calls && c != e.caller ==> Remaining(t.calls[c].phase) == Remaining(l.calls[c].phase)
  {
  }

  predicate AllHappen(l: Lock, events: seq<Event>)
    decreases |events|
  {
    events != [] ==> !events[0].Acquire? && Enabled(l, events[0]) && AllHappen(Step(l, events[0]), events[1..])
  }

  /** The lock after a list of events, up to the first one that cannot happen. */
  function After(l: Lock, events: seq<Event>): Lock
    decreases |events|
  {
    if events == [] then l
    else if Enabled(l, events[0]) then After(Step(l, events[0]), events[1..])
    else l
  }

  lemma OneEventLess(l: Lock, e: Event)
    requires LockConsistent(l) && Enabled(l, e) && !e.Acquire? && LockConsistent(Step(l, e))
    ensures WorkLeft(Step(l, e)) == WorkLeft(l) - 1
  {
    StepRemaining(l, e);
    hide Step, Enabled, CallConsistent, Remaining;
    WorkDrops(l.calls, Step(l, e).calls, l.asked, e.caller);
  }

  lemma {:induction false} NoWork(calls: map<Caller, Call>, callers: seq<Caller>)
    requires forall c :: c in callers ==> c in calls
    ensures Work(calls, callers) == 0 <==> forall c :: c in callers ==> Remaining(calls[c].phase) == 0
  {
    hide Remaining;
    if callers != [] {
      NoWork(calls, callers[1..]);
      assert callers == [callers[0]] + callers[1..];
    }
  }

  lemma NothingLeft(l: Lock)
    requires LockConsistent(l)
    ensures WorkLeft(l) == 0 <==> l.mutex == Mutex(None, [])
  {
    NoWork(l.calls, l.asked);
    if l.mutex.holder.Some? {
      assert l.mutex.holder.value in l.mutex.Line();
    }
    assert forall c :: c in l.calls ==> (InLine(l.calls[c]) <==> Remaining(l.calls[c].phase) > 0);
    hide CallConsistent, Distinct, Work, Remaining, InLine;
  }

  /**
   * While nobody else asks for the lock, no schedule of its events is longer than the work left, and
   * those that are as long have served every call and leave the lock free. So a waiting call is
   * granted or times out within a bounded number of events of its own key.
   */
  lemma {:induction false} EveryScheduleEnds(l: Lock, events: seq<Event>)
    requires LockConsistent(l) && AllHappen(l, events)
    ensures LockConsistent(After(l, events))
    ensures |events| + WorkLeft(After(l, events)) == WorkLeft(l)
    ensures |events| == WorkLeft(l) <==> After(l, events).mutex == Mutex(None, [])
    decreases |events|
  {
    if events != [] {
      StepKeepsLock(l, events[0]);
      OneEventLess(l, events[0]);
      EveryScheduleEnds(Step(l, events[0]), events[1..]);
    }
    hide LockConsistent, Step, Enabled, WorkLeft;
    NothingLeft(After(l, events));
  }

  // ---------------------------------------------------------------- all keys

  datatype State = State(memoryLocks: map<Key, nat>, locks: seq<Lock>)

  const INITIAL: State := State(map[], [])

  datatype GlobalEvent =
    | Request(caller: Caller, key: Key, timeout: Option<nat>)
    | At(key: Key, event: Event)

  /** `if (timeout)`: a timeout of zero is none. */
  function NewLock(timeout: Option<nat>): Lock {
    Lock(timeout.Some? && timeout.value != 0, Mutex(None, []), map[], [], [])
  }

  predicate Bound(s: State, key: Key) {
    key in s.memoryLocks && s.memoryLocks[key] < |s.locks|
  }

  function LockOf(s: State, key: Key): Lock
    requires Bound(s, key)
  {
    s.locks[s.memoryLocks[key]]
  }

  function WithLock(s: State, key: Key, timeout: Option<nat>): State {
    if key in s.memoryLocks then s
    else State(s.memoryLocks[key := |s.locks|], s.locks + [NewLock(timeout)])
  }

  function Update(s: State, key: Key, l: Lock): State
    requires Bound(s, key)
  {
    s.(locks := s.locks[s.memoryLocks[key] := l])
  }

  predicate CanHappen(s: State, g: GlobalEvent) {
    match g
    case Request(caller, key, timeout) =>
      (key in s.memoryLocks ==> Bound(s, key) && Enabled(LockOf(s, key), Acquire(caller)))
    case At(key, event) =>
      Bound(s, key) && !event.Acquire? && Enabled(LockOf(s, key), event)
  }

  function GlobalStep(s: State, g: GlobalEvent): State
    requires CanHappen(s, g)
  {
    match g
    case Request(caller, key, timeout) =>
      var t := WithLock(s, key, timeout);
      Update(t, key, Step(LockOf(t, key), Acquire(caller)))
    case At(key, event) =>
      Update(s, key, Step(LockOf(s, key), event))
  }

  /** Keys and lock objects match one to one. */
  ghost predicate OneToOne(s: State) {
    && (forall key :: key in s.memoryLocks ==> s.memoryLocks[key] < |s.locks|)
    && (forall k, k' :: k in s.memoryLocks && k' in s.memoryLocks && s.memoryLocks[k] == s.memoryLocks[k'] ==> k == k')
  }

  ghost predicate Consistent(s: State) {
    OneToOne(s) && forall i :: 0 <= i < |s.locks| ==> LockConsistent(s.locks[i])
  }

  lemma GlobalStepKeeps(s: State, g: GlobalEvent)
    requires Consistent(s) && CanHappen(s, g)
    ensures Consistent(GlobalStep(s, g))
  {
    hide LockConsistent, Step;
    match g
    case Request(caller, key, timeout) =>
      var t := WithLock(s, key, timeout);
      assert LockConsistent(NewLock(timeout)) by { NewLockConsistent(timeout); }
      assert forall i :: 0 <= i < |t.locks| ==> LockConsistent(t.locks[i]);
      StepKeepsLock(LockOf(t, key), Acquire(caller));
    case At(key, event) =>
      StepKeepsLock(LockOf(s, key), event);
  }

  lemma NewLockConsistent(timeout: Option<nat>)
    ensures LockConsistent(NewLock(timeout))
  {
  }

  ghost predicate IsRun(states: seq<State>, events: seq<GlobalEvent>) {
    && |states| == |events| + 1 && states[0] == INITIAL
    && forall i :: 0 <= i < |events| ==> CanHappen(states[i], events[i]) && states[i + 1] == GlobalStep(states[i], events[i])
  }

  /** Every state of every interleaving is consistent. */
  lemma {:induction false} RunsAreConsistent(states: seq<State>, events: seq<GlobalEvent>, i: nat)
    requires IsRun(states, events) && i < |states|
    ensures Consistent(states[i])
  {
    if i > 0 {
      RunsAreConsistent(states, events, i - 1);
      GlobalStepKeeps(states[i - 1], events[i - 1]);
    }
  }

  /** Mutual exclusion: two calls of one key that own its lock are the same call. */
  lemma AtMostOneBody(s: State, key: Key, c: Caller, c': Caller)
    requires Consistent(s) && key in s.memoryLocks
    requires c in LockOf(s, key).calls && c' in LockOf(s, key).calls
    requires Owns(LockOf(s, key).calls[c]) && Owns(LockOf(s, key).calls[c'])
    ensures c == c'
  {
    var l := LockOf(s, key);
    assert LockConsistent(l);
    assert CallConsistent(l, c) && CallConsistent(l, c');
  }

  /**
   * A call has released its lock exactly once when it is over, returned or threw, and not before;
   * a call whose time was up releases once too, on behalf of the ticket it left.
   */
  lemma ReleasedExactlyOnce(s: State, key: Key, c: Caller)
    requires Consistent(s) && key in s.memoryLocks && c in LockOf(s, key).calls
    ensures var l := LockOf(s, key);
            && l.calls[c].releases <= 1
            && (l.calls[c].releases == 1 <==> l.calls[c].phase.Settled? || l.calls[c].phase == TimedOut(true))
            && (l.calls[c].releases == 1 <==> c in l.released)
  {
    var l := LockOf(s, key);
    assert LockConsistent(l);
    assert CallConsistent(l, c);
    assert c in l.asked;
    DisjointParts(l.released, l.mutex.Line());
  }

  /** An event of one key leaves the lock, the calls and the possible events of every other key alone. */
  lemma OtherKeysUnaffected(s: State, g: GlobalEvent, other: Key, e: Event)
    requires Consistent(s) && CanHappen(s, g) && g.key != other && other in s.memoryLocks
    ensures var t := GlobalStep(s, g);
            && Bound(t, other) && LockOf(t, other) == LockOf(s, other)
            && (CanHappen(t, At(other, e)) <==> CanHappen(s, At(other, e)))
  {
    hide LockConsistent, Step, Enabled;
  }

  /** While a key has unfinished calls, one of them can go on, whatever happens under other keys. */
  lemma NeverStuck(s: State, key: Key) returns (e: Event)
    requires Consistent(s) && key in s.memoryLocks && LockOf(s, key).asked != LockOf(s, key).released
    ensures CanHappen(s, At(key, e)) && LockOf(s, key).mutex.holder == Some(e.caller)
  {
    var l := LockOf(s, key);
    assert LockConsistent(l);
    assert l.mutex.Line() != [];
    var c := l.mutex.holder.value;
    assert c == l.mutex.Line()[0];
    assert c in l.mutex.Line();
    assert c in l.asked;
    assert CallConsistent(l, c);
    e := match l.calls[c].phase
         case InBody => BodyEnds(c, Returned(0))
         case Leaving(_) => Finally(c)
         case _ => PassOn(c);
  }

  /**
   * A key keeps its lock object for ever, and whether its waiters can time out was settled by the
   * first call that asked for the key.
   */
  lemma {:induction false} BoundForEver(states: seq<State>, events: seq<GlobalEvent>, key: Key, i: nat, j: nat)
    requires IsRun(states, events) && i <= j < |states| && Bound(states[i], key)
    ensures Bound(states[j], key) && states[j].memoryLocks[key] == states[i].memoryLocks[key]
    ensures LockOf(states[j], key).timed == LockOf(states[i], key).timed
    decreases j
  {
    hide LockConsistent, GlobalStep, CanHappen, OneToOne;
    if i < j {
      BoundForEver(states, events, key, i, j - 1);
      RunsAreConsistent(states, events, j - 1);
      assert CanHappen(states[j - 1], events[j - 1]) && states[j] == GlobalStep(states[j - 1], events[j - 1]);
      StepKeepsBinding(states[j - 1], events[j - 1], key);
    }
  }

  lemma StepKeepsBinding(s: State, g: GlobalEvent, key: Key)
    requires Consistent(s) && CanHappen(s, g) && Bound(s, key)
    ensures var t := GlobalStep(s, g);
            && Bound(t, key) && t.memoryLocks[key] == s.memoryLocks[key]
            && LockOf(t, key).timed == LockOf(s, key).timed
  {
    hide LockConsistent, Served, Admit;
  }

  lemma {:induction false} FirstCallDecidesTimeout(states: seq<State>, events: seq<GlobalEvent>, key: Key, j: nat)
    returns (i: nat)
    requires IsRun(states, events) && j < |states| && Bound(states[j], key)
    ensures i < j && key !in states[i].memoryLocks && events[i].Request? && events[i].key == key
    ensures LockOf(states[j], key).timed <==> events[i].timeout.Some? && events[i].timeout.value != 0
    decreases j
  {
    i := j - 1;
    if key in states[i].memoryLocks {
      RunsAreConsistent(states, events, i);
      i := FirstCallDecidesTimeout(states, events, key, i);
      BoundForEver(states, events, key, j - 1, j);
    }
  }

  // ---------------------------------------------------------------- what the events alone decide

  /** Who asked for a key, in order. */
  function Requests(events: seq<GlobalEvent>, key: Key): seq<Caller> {
    if events == [] then []
    else
      var last := events[|events| - 1];
      Requests(events[..|events| - 1], key) + if last.Request? && last.key == key then [last.caller] else []
  }

  /** Who gave a key's lock back, in order. */
  function Releases(events: seq<GlobalEvent>, key: Key): seq<Caller> {
    if events == [] then []
    else
      var last := events[|events| - 1];
      Releases(events[..|events| - 1], key)
      + if last.At? && last.key == key && (last.event.Finally? || last.event.PassOn?) then [last.event.caller] else []
  }

  lemma CountOneMore(past: seq<GlobalEvent>, g: GlobalEvent, key: Key)
    ensures Requests(past + [g], key) == Requests(past, key) + if g.Request? && g.key == key then [g.caller] else []
    ensures Releases(past + [g], key)
         == Releases(past, key)
          + if g.At? && g.key == key && (g.event.Finally? || g.event.PassOn?) then [g.event.caller] else []
  {
    assert (past + [g])[..|past|] == past;
  }

  /** What an event does to the lock of a key: nothing, unless it is an event of that key. */
  lemma LockAfter(s: State, g: GlobalEvent, key: Key)
    requires Consistent(s) && CanHappen(s, g)
    ensures var t := GlobalStep(s, g);
            if g.key != key then (key in t.memoryLocks <==> key in s.memoryLocks) && (key in s.memoryLocks ==> LockOf(t, key) == LockOf(s, key))
            else
              && key in t.memoryLocks && t.memoryLocks[key] < |t.locks|
              && (g.At? ==> key in s.memoryLocks && !g.event.Acquire? && Enabled(LockOf(s, key), g.event) && LockOf(t, key) == Step(LockOf(s, key), g.event))
              && (g.Request? ==>
                    LockOf(t, key) == Join(if key in s.memoryLocks then LockOf(s, key) else NewLock(g.timeout), g.caller))
  {
    hide LockConsistent, Served, Join, Rephase, GiveUp;
  }

  lemma LineAfterEvent(l: Lock, e: Event)
    requires Enabled(l, e)
    ensures var t := Step(l, e);
            && t.asked == l.asked + (if e.Acquire? then [e.caller] else [])
            && t.released == l.released + (if e.Finally? || e.PassOn? then [e.caller] else [])
  {
    assert l.asked + [] == l.asked && l.released + [] == l.released;
  }

  lemma RunStep(states: seq<State>, events: seq<GlobalEvent>, i: nat)
    requires IsRun(states, events) && i < |events|
    ensures |states| == |events| + 1
    ensures CanHappen(states[i], events[i]) && states[i + 1] == GlobalStep(states[i], events[i])
  {
    hide CanHappen, GlobalStep;
  }

  /** The calls in line for a key are those that asked for it, in order, less those that gave it back. */
  ghost predicate LineFollows(s: State, past: seq<GlobalEvent>, key: Key) {
    && (Bound(s, key) <==> Requests(past, key) != [])
    && (Bound(s, key) ==>
          var l := LockOf(s, key);
          && l.asked == Requests(past, key) && l.released == Releases(past, key)
          && Requests(past, key) == Releases(past, key) + l.mutex.Line())
    && (!Bound(s, key) ==> Releases(past, key) == [])
  }

  lemma NothingYet(states: seq<State>, events: seq<GlobalEvent>, key: Key)
    requires IsRun(states, events)
    ensures |states| == |events| + 1 && LineFollows(states[0], [], key)
  {
  }

  /** In every run the events alone decide the line of every key. */
  lemma {:induction false} EventsDecideLine(states: seq<State>, events: seq<GlobalEvent>, key: Key, i: nat)
    requires IsRun(states, events) && i <= |events|
    ensures |states| == |events| + 1 && LineFollows(states[i], events[..i], key)
  {
    hide *;
    NothingYet(states, events, key);
    if i == 0 {
      assert events[..0] == [];
    } else {
      EventsDecideLine(states, events, key, i - 1);
      RunStep(states, events, i - 1);
      RunsAreConsistent(states, events, i - 1);
      GlobalStepKeeps(states[i - 1], events[i - 1]);
      LineOneMore(states[i - 1], events[..i - 1], events[i - 1], key);
      assert events[..i] == events[..i - 1] + [events[i - 1]];
    }
  }

  lemma LineIsServed(s: State, key: Key)
    requires Consistent(s)
    ensures key in s.memoryLocks <==> Bound(s, key)
    ensures Bound(s, key) ==> LockOf(s, key).asked == LockOf(s, key).released + LockOf(s, key).mutex.Line()
  {
    if Bound(s, key) {
      assert LockConsistent(LockOf(s, key));
    }
  }

  lemma LineOneMore(s: State, past: seq<GlobalEvent>, g: GlobalEvent, key: Key)
    requires Consistent(s) && CanHappen(s, g) && Consistent(GlobalStep(s, g)) && LineFollows(s, past, key)
    ensures LineFollows(GlobalStep(s, g), past + [g], key)
  {
    hide GlobalStep, CanHappen, Consistent, Requests, Releases, Mutex.Line;
    LineIsServed(s, key);
    LineIsServed(GlobalStep(s, g), key);
    LockAfter(s, g, key);
    CountOneMore(past, g, key);
    if g.At? && g.key == key {
      LineAfterEvent(LockOf(s, key), g.event);
    }
    assert Requests(past, key) + [] == Requests(past, key) && Releases(past, key) + [] == Releases(past, key);
  }

  /** How far a call has come. */
  predicate EndedWith(phase: Phase, outcome: Outcome) {
    phase == Leaving(outcome) || phase == Settled(outcome)
  }

  /** A call ends with the outcome of its own body, then and only then. */
  lemma {:induction false} SettlesAsItsBodyEnds(states: seq<State>, events: seq<GlobalEvent>, key: Key, c: Caller, outcome: Outcome, i: nat)
    requires IsRun(states, events) && i <= |events| && i < |states|
    requires Bound(states[i], key) && c in LockOf(states[i], key).calls
    ensures EndedWith(LockOf(states[i], key).calls[c].phase, outcome)
            <==> exists j :: 0 <= j < i && events[j] == At(key, BodyEnds(c, outcome))
  {
    hide GlobalStep, CanHappen, Consistent, Step, Enabled, Join, IsRun, EndedWith;
    NothingYet(states, events, key);
    if i == 0 {
      NothingBound(states, events, key);
    } else {
      var s, g := states[i - 1], events[i - 1];
      RunStep(states, events, i - 1);
      RunsAreConsistent(states, events, i - 1);
      LockAfter(s, g, key);
      LineIsServed(s, key);
      var e := if g.At? then g.event else Acquire(g.caller);
      if Bound(s, key) && c in LockOf(s, key).calls {
        SettlesAsItsBodyEnds(states, events, key, c, outcome, i - 1);
        if g.key == key {
          RequestIsAcquire(s, g);
          EndOneMore(LockOf(s, key), e, c, outcome);
        }
      } else {
        NoEventBefore(states, events, key, c, outcome, i - 1);
        RequestIsAcquire(s, g);
        NewCallWaits(if Bound(s, key) then LockOf(s, key) else NewLock(if g.Request? then g.timeout else None), e, c, outcome);
      }
    }
  }

  lemma NothingBound(states: seq<State>, events: seq<GlobalEvent>, key: Key)
    requires IsRun(states, events)
    ensures |states| > 0 && !Bound(states[0], key)
  {
  }

  /** A request is an acquisition on the lock of its key, a new one if need be. */
  lemma RequestIsAcquire(s: State, g: GlobalEvent)
    requires CanHappen(s, g)
    ensures g.Request? ==>
              var l := if Bound(s, g.key) then LockOf(s, g.key) else NewLock(g.timeout);
              && (g.key in s.memoryLocks ==> Bound(s, g.key))
              && Enabled(l, Acquire(g.caller)) && Step(l, Acquire(g.caller)) == Join(l, g.caller)
  {
  }

  lemma EndOneMore(l: Lock, e: Event, c: Caller, outcome: Outcome)
    requires Enabled(l, e) && c in l.calls
    ensures c in Step(l, e).calls
    ensures EndedWith(Step(l, e).calls[c].phase, outcome)
            <==> EndedWith(l.calls[c].phase, outcome) || e == BodyEnds(c, outcome)
  {
  }

  /** A call that has just asked has not ended. */
  lemma NewCallWaits(l: Lock, e: Event, c: Caller, outcome: Outcome)
    requires c !in l.calls && Enabled(l, e)
    ensures c in Step(l, e).calls ==> e == Acquire(c) && !EndedWith(Step(l, e).calls[c].phase, outcome)
  {
  }

  /** No body has ended of a call that has not asked. */
  lemma {:induction false} NoEventBefore(states: seq<State>, events: seq<GlobalEvent>, key: Key, c: Caller, outcome: Outcome, i: nat)
    requires IsRun(states, events) && i <= |events| && i < |states|
    requires Bound(states[i], key) ==> c !in LockOf(states[i], key).calls
    ensures forall j :: 0 <= j < i ==> events[j] != At(key, BodyEnds(c, outcome))
  {
    hide *;
    if i > 0 {
      RunStep(states, events, i - 1);
      RunsAreConsistent(states, events, i - 1);
      CallsStay(states[i - 1], events[i - 1], key, c);
      NotItsEnd(states[i - 1], events[i - 1], key, c, outcome);
      NoEventBefore(states, events, key, c, outcome, i - 1);
    }
  }

  /** Only a call that has asked can end. */
  lemma NotItsEnd(s: State, g: GlobalEvent, key: Key, c: Caller, outcome: Outcome)
    requires CanHappen(s, g)
    ensures g == At(key, BodyEnds(c, outcome)) ==> Bound(s, key) && c in LockOf(s, key).calls
  {
  }

  /** A call is never forgotten. */
  lemma CallsStay(s: State, g: GlobalEvent, key: Key, c: Caller)
    requires Consistent(s) && CanHappen(s, g)
    ensures Bound(s, key) && c in LockOf(s, key).calls ==>
              Bound(GlobalStep(s, g), key) && c in LockOf(GlobalStep(s, g), key).calls
  {
    hide LockConsistent, Served;
  }

  /** The lock map; its methods are the events. */
  class MemoryLocks {
    var memoryLocks: map<Key, nat>
    var locks: seq<Lock>

    ghost function Current(): State
      reads this
    {
      State(memoryLocks, locks)
    }

    ghost predicate Valid()
      reads this
    {
      Consistent(Current())
    }

    constructor ()
      ensures Valid() && Current() == INITIAL
    {
      memoryLocks, locks := map[], [];
    }

    method Acquire(caller: Caller, key: Key, timeout: Option<nat>) returns (granted: bool)
      requires Valid() && CanHappen(Current(), Request(caller, key, timeout))
      modifies this
      ensures Valid() && Current() == GlobalStep(old(Current()), Request(caller, key, timeout))
      ensures granted <==> LockOf(Current(), key).mutex.holder == Some(caller)
    {
      GlobalStepKeeps(Current(), Request(caller, key, timeout));
      if key !in memoryLocks {
        var lock := Lock(false, Mutex(None, []), map[], [], []);
        if timeout.Some? && timeout.value != 0 {
          lock := lock.(timed := true);
        }
        memoryLocks := memoryLocks[key := |locks|];
        locks := locks + [lock];
      }
      var id := memoryLocks[key];
      locks := locks[id := Join(locks[id], caller)];
      granted := locks[id].mutex.holder == Some(caller);
    }

    method BodyEnds(caller: Caller, key: Key, outcome: Outcome)
      requires Valid() && CanHappen(Current(), At(key, Event.BodyEnds(caller, outcome)))
      modifies this`locks
      ensures Valid() && Current() == GlobalStep(old(Current()), At(key, Event.BodyEnds(caller, outcome)))
    {
      GlobalStepKeeps(Current(), At(key, Event.BodyEnds(caller, outcome)));
      var id := memoryLocks[key];
      locks := locks[id := Rephase(locks[id], caller, Leaving(outcome))];
    }

    /** The `finally` of a section; the section then settles as its body did. */
    method Release(caller: Caller, key: Key) returns (outcome: Outcome)
      requires Valid() && CanHappen(Current(), At(key, Finally(caller)))
      modifies this`locks
      ensures Valid() && Current() == GlobalStep(old(Current()), At(key, Finally(caller)))
      ensures old(LockOf(Current(), key)).calls[caller].phase == Leaving(outcome)
      ensures LockOf(Current(), key).calls[caller].phase == Settled(outcome)
    {
      GlobalStepKeeps(Current(), At(key, Finally(caller)));
      ghost var before := LockOf(Current(), key);
      assert LockConsistent(before);
      SettledAfterFinally(before, caller);
      var id := memoryLocks[key];
      outcome := locks[id].calls[caller].phase.outcome;
      locks := locks[id := GiveUp(locks[id], caller, Settled(outcome))];
    }
  }

  lemma SettledAfterFinally(l: Lock, caller: Caller)
    requires LockConsistent(l) && Enabled(l, Finally(caller))
    ensures var t := Step(l, Finally(caller));
            caller in t.calls && t.calls[caller].phase == Settled(l.calls[caller].phase.outcome)
  {
  }
}
