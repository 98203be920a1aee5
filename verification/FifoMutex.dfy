/** The mutex the queue and the lock map rest on: tickets are served in the order they ask. */
module FifoMutex {
  import opened Wrappers

  datatype Mutex<T> = Mutex(holder: Option<T>, waiters: seq<T>) {

    /** Nobody waits for a free mutex. */
    predicate Valid() {
      holder.None? ==> waiters == []
    }

    function Request(ticket: T): Mutex<T> {
      if holder.None? then Mutex(Some(ticket), []) else Mutex(holder, waiters + [ticket])
    }

    function Release(): Mutex<T> {
      if waiters == [] then Mutex(None, []) else Mutex(Some(waiters[0]), waiters[1..])
    }

    /** Everyone who has asked and not yet released, in the order of asking. */
    function Line(): seq<T> {
      (if holder.Some? then [holder.value] else []) + waiters
    }
  }

  const FREE: Mutex<nat> := Mutex(None, [])

  lemma RequestJoinsLine<T>(m: Mutex<T>, ticket: T)
    requires m.Valid()
    ensures m.Request(ticket).Valid() && m.Request(ticket).Line() == m.Line() + [ticket]
  {
    if m.holder.None? {
      assert m.Line() == [];
    }
  }

  lemma ReleaseLeavesLine<T>(m: Mutex<T>)
    requires m.Valid() && m.holder.Some?
    ensures m.Release().Valid() && m.Line() == [m.holder.value] + m.Release().Line()
  {
  }
}
