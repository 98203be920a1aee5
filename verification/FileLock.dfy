/**
 * Sections guarded by a lock file, and the programs that nest them. The lock library is an oracle:
 * each section says whether its lock was granted, whether it was reported compromised, and how its
 * release went.
 */
module FileLock {
  import opened Wrappers

  type Path = string

  /** The timeout error has its own class; everything else is told apart by its code. */
  datatype Error = LockTimeout(path: Path) | Coded(code: string)

  predicate HasErrorCode(error: Error, code: string) {
    error == Coded(code)
  }

  predicate IsAcquireTimeout(error: Error, path: Path) {
    error.LockTimeout? && error.path == path
  }

  datatype Acquisition = Granted | Refused(code: string)

  /** `late`: the compromise is reported after the work ended, while the lock is being released. */
  datatype Oracle = Oracle(acquisition: Acquisition, late: bool, releaseError: Option<string>)

  /**
   * What a protected function may do. It cannot make a timeout error itself, but it may run further
   * sections, await a section that runs elsewhere, and fall back when one of them times out. `depth`
   * counts enclosing sections outwards. When it looks at a flag, `reported` says that the lock was
   * reported compromised since the last look.
   */
  datatype Program =
    | Return(value: int)
    | Throw(code: string)
    | Mark(tag: nat)
    | Compromise(depth: nat)
    | Await(path: Path, timedOut: bool)
    | IfCompromised(depth: nat, reported: bool, yes: Program, no: Program)
    | Then(first: Program, next: Program)
    | Fallback(path: Path, attempt: Program, otherwise: Program)
    | Section(path: Path, oracle: Oracle, body: Program)

  /** A held lock and the `compromised` flag its callback and its work share. */
  datatype Frame = Frame(path: Path, compromised: bool)

  datatype Event =
    | Marked(tag: nat)
    | Acquired(path: Path)
    | NotAcquired(path: Path)
    | ReleaseTried(path: Path)
    | CompromiseLogged(path: Path)
    | ReleaseErrorLogged(path: Path)

  datatype Run = Run(outcome: Result<int, Error>, held: seq<Frame>, trace: seq<Event>)

  /** `onCompromised` of one held lock. */
  function Report(held: seq<Frame>, depth: nat): (seq<Frame>, seq<Event>) {
    if depth < |held| then
      (held[depth := held[depth].(compromised := true)], [CompromiseLogged(held[depth].path)])
    else (held, [])
  }

  function Look(held: seq<Frame>, depth: nat, reported: bool): (r: (seq<Frame>, seq<Event>))
    ensures |r.0| == |held|
  {
    if reported then Report(held, depth) else (held, [])
  }

  function AcquireError(path: Path, code: string): Error {
    if HasErrorCode(Coded(code), "ELOCKED") then LockTimeout(path) else Coded(code)
  }

  /** Whether the release of a section fails: an error after a compromise says nothing. */
  function ReleaseFailure(oracle: Oracle, compromised: bool): Option<Error> {
    if oracle.releaseError.Some? && !compromised then Some(Coded(oracle.releaseError.value)) else None
  }

  function Execute(p: Program, held: seq<Frame>): (r: Run)
    ensures |r.held| == |held|
  {
    match p
    case Return(value) => Run(Success(value), held, [])
    case Throw(code) => Run(Failure(Coded(code)), held, [])
    case Mark(tag) => Run(Success(0), held, [Marked(tag)])
    case Compromise(depth) =>
      var (held', logged) := Report(held, depth);
      Run(Success(0), held', logged)
    case Await(path, timedOut) => Run(if timedOut then Failure(LockTimeout(path)) else Success(0), held, [])
    case IfCompromised(depth, reported, yes, no) =>
      var (held', logged) := Look(held, depth, reported);
      var r := if depth < |held| && held'[depth].compromised then Execute(yes, held') else Execute(no, held');
      r.(trace := logged + r.trace)
    case Then(first, next) =>
      var r := Execute(first, held);
      if r.outcome.Failure? then r
      else
        var r' := Execute(next, r.held);
        r'.(trace := r.trace + r'.trace)
    case Fallback(path, attempt, otherwise) =>
      var r := Execute(attempt, held);
      if r.outcome.Failure? && IsAcquireTimeout(r.outcome.error, path) then
        var r' := Execute(otherwise, r.held);
        r'.(trace := r.trace + r'.trace)
      else r
    case Section(path, oracle, body) =>
      match oracle.acquisition
      case Refused(code) => Run(Failure(AcquireError(path, code)), held, [NotAcquired(path)])
      case Granted =>
        var work := Execute(body, [Frame(path, false)] + held);
        var (held', logged) := if oracle.late then Report(work.held, 0) else (work.held, []);
        var released := ReleaseFailure(oracle, held'[0].compromised);
        var both := work.outcome.Failure? && released.Some?;
        Run(if work.outcome.Success? && released.Some? then Failure(released.value) else work.outcome,
            held'[1..],
            [Acquired(path)] + work.trace + logged + [ReleaseTried(path)]
            + if both then [ReleaseErrorLogged(path)] else [])
  }

  lemma SectionEffects(path: Path, oracle: Oracle, body: Program, held: seq<Frame>)
    ensures var r := Execute(Section(path, oracle, body), held);
            match oracle.acquisition
            case Refused(code) => r == Run(Failure(AcquireError(path, code)), held, [NotAcquired(path)])
            case Granted =>
              var work := Execute(body, [Frame(path, false)] + held);
              var failure := ReleaseFailure(oracle, work.held[0].compromised || oracle.late);
              && r.outcome == (if work.outcome.Success? && failure.Some? then Failure(failure.value) else work.outcome)
              && r.held == work.held[1..]
  {
  }

  /** The section as it runs, step by step, sharing one flag between the callback and the work. */
  method RunExclusive(path: Path, oracle: Oracle, fn: Program, held: seq<Frame>) returns (r: Run)
    ensures r == Execute(Section(path, oracle, fn), held)
    ensures oracle.acquisition.Refused? ==>
              var code := oracle.acquisition.code;
              r == Run(Failure(if code == "ELOCKED" then LockTimeout(path) else Coded(code)), held, [NotAcquired(path)])
    ensures oracle.acquisition.Granted? ==>
              var work := Execute(fn, [Frame(path, false)] + held);
              var compromised := work.held[0].compromised || oracle.late;
              var unreleased := oracle.releaseError.Some? && !compromised;
              && r.outcome == (if work.outcome.Success? && unreleased then Failure(Coded(oracle.releaseError.value)) else work.outcome)
              && r.held == work.held[1..]
              && r.trace == [Acquired(path)] + work.trace + (if oracle.late then [CompromiseLogged(path)] else [])
                          + [ReleaseTried(path)]
                          + (if work.outcome.Failure? && unreleased then [ReleaseErrorLogged(path)] else [])
  {
    hide Execute;
    SectionEffects(path, oracle, fn, held);
    var compromised := false;
    var trace: seq<Event> := [];
    if oracle.acquisition.Refused? {
      var error := Coded(oracle.acquisition.code);
      trace := trace + [NotAcquired(path)];
      if HasErrorCode(error, "ELOCKED") {
        error := LockTimeout(path);
      }
      return Run(Failure(error), held, trace);
    }
    trace := trace + [Acquired(path)];
    var work := Execute(fn, [Frame(path, compromised)] + held);
    var result := work.outcome;
    trace := trace + work.trace;
    compromised := work.held[0].compromised;
    if oracle.late {
      compromised := true;
      trace := trace + [CompromiseLogged(path)];
    }
    SectionShape(path, oracle, fn, held);
    trace := trace + [ReleaseTried(path)];
    var releasedError: Option<Error> := None;
    if oracle.releaseError.Some? && !compromised {
      releasedError := Some(Coded(oracle.releaseError.value));
    }
    if result.Failure? {
      if releasedError.Some? {
        trace := trace + [ReleaseErrorLogged(path)];
      }
      return Run(result, work.held[1..], trace);
    }
    if releasedError.Some? {
      return Run(Failure(releasedError.value), work.held[1..], trace);
    }
    return Run(result, work.held[1..], trace);
  }

  // ---------------------------------------------------------------- nesting

  lemma {:induction false} FramesKeepPaths(p: Program, held: seq<Frame>)
    ensures forall i :: 0 <= i < |held| ==> Execute(p, held).held[i].path == held[i].path
  {
    match p
    case IfCompromised(depth, reported, yes, no) =>
      FramesKeepPaths(yes, Look(held, depth, reported).0);
      FramesKeepPaths(no, Look(held, depth, reported).0);
    case Then(first, next) =>
      FramesKeepPaths(first, held);
      FramesKeepPaths(next, Execute(first, held).held);
    case Fallback(_, attempt, otherwise) =>
      FramesKeepPaths(attempt, held);
      FramesKeepPaths(otherwise, Execute(attempt, held).held);
    case Section(path, oracle, body) =>
      FramesKeepPaths(body, [Frame(path, false)] + held);
      SectionKeepsPaths(path, oracle, body, held);
    case _ =>
  }

  lemma SectionKeepsPaths(path: Path, oracle: Oracle, body: Program, held: seq<Frame>)
    requires var held' := [Frame(path, false)] + held;
             forall i :: 0 <= i < |held'| ==> Execute(body, held').held[i].path == held'[i].path
    ensures forall i :: 0 <= i < |held| ==> Execute(Section(path, oracle, body), held).held[i].path == held[i].path
  {
    SectionEffects(path, oracle, body, held);
    hide Execute;
  }

  /** A flag is never cleared, and it is only set together with a logged report for its lock. */
  lemma {:induction false} CompromiseIsLogged(p: Program, held: seq<Frame>, i: nat)
    requires i < |held|
    ensures var r := Execute(p, held);
            && (held[i].compromised ==> r.held[i].compromised)
            && (r.held[i].compromised ==> held[i].compromised || CompromiseLogged(held[i].path) in r.trace)
  {
    match p
    case IfCompromised(depth, reported, yes, no) =>
      CompromiseIsLogged(yes, Look(held, depth, reported).0, i);
      CompromiseIsLogged(no, Look(held, depth, reported).0, i);
    case Then(first, next) =>
      FramesKeepPaths(first, held);
      CompromiseIsLogged(first, held, i);
      CompromiseIsLogged(next, Execute(first, held).held, i);
    case Fallback(_, attempt, otherwise) =>
      FramesKeepPaths(attempt, held);
      CompromiseIsLogged(attempt, held, i);
      CompromiseIsLogged(otherwise, Execute(attempt, held).held, i);
    case Section(path, oracle, body) =>
      CompromiseIsLogged(body, [Frame(path, false)] + held, i + 1);
      SectionLogs(path, oracle, body, held, i);
    case _ =>
  }

  lemma SectionLogs(path: Path, oracle: Oracle, body: Program, held: seq<Frame>, i: nat)
    requires i < |held|
    requires var work := Execute(body, [Frame(path, false)] + held);
             && (held[i].compromised ==> work.held[i + 1].compromised)
             && (work.held[i + 1].compromised ==> held[i].compromised || CompromiseLogged(held[i].path) in work.trace)
    ensures var r := Execute(Section(path, oracle, body), held);
            && (held[i].compromised ==> r.held[i].compromised)
            && (r.held[i].compromised ==> held[i].compromised || CompromiseLogged(held[i].path) in r.trace)
  {
    SectionEffects(path, oracle, body, held);
    if oracle.acquisition.Granted? {
      SectionShape(path, oracle, body, held);
    }
    hide Execute, Closing;
  }

  /** The paths a program may lock or wait for, at any depth. */
  function Locks(p: Program): set<Path> {
    match p
    case Await(path, _) => {path}
    case IfCompromised(_, _, yes, no) => Locks(yes) + Locks(no)
    case Then(first, next) => Locks(first) + Locks(next)
    case Fallback(_, attempt, otherwise) => Locks(attempt) + Locks(otherwise)
    case Section(path, _, body) => {path} + Locks(body)
    case _ => {}
  }

  /** A timeout error that leaves a program comes from a lock the program tried to take or waited for. */
  lemma {:induction false} TimeoutsComeFromLocks(p: Program, held: seq<Frame>)
    ensures var outcome := Execute(p, held).outcome;
            outcome.Failure? && outcome.error.LockTimeout? ==> outcome.error.path in Locks(p)
  {
    match p
    case IfCompromised(depth, reported, yes, no) =>
      TimeoutsComeFromLocks(yes, Look(held, depth, reported).0);
      TimeoutsComeFromLocks(no, Look(held, depth, reported).0);
    case Then(first, next) =>
      TimeoutsComeFromLocks(first, held);
      TimeoutsComeFromLocks(next, Execute(first, held).held);
    case Fallback(_, attempt, otherwise) =>
      TimeoutsComeFromLocks(attempt, held);
      TimeoutsComeFromLocks(otherwise, Execute(attempt, held).held);
    case Section(path, oracle, body) =>
      TimeoutsComeFromLocks(body, [Frame(path, false)] + held);
    case _ =>
  }

  predicate Fails(p: Program, held: seq<Frame>, path: Path) {
    var outcome := Execute(p, held).outcome;
    outcome.Failure? && IsAcquireTimeout(outcome.error, path)
  }

  /** A section fails with a timeout on its own path for its lock, or because its work does. */
  lemma TimeoutOfSection(path: Path, oracle: Oracle, body: Program, held: seq<Frame>)
    ensures Fails(Section(path, oracle, body), held, path)
            <==> || oracle.acquisition == Refused("ELOCKED")
                 || (oracle.acquisition.Granted? && Fails(body, [Frame(path, false)] + held, path))
  {
  }

  // ---------------------------------------------------------------- which timeouts escape

  function Flags(held: seq<Frame>): seq<bool> {
    seq(|held|, i requires 0 <= i < |held| => held[i].compromised)
  }

  /**
   * The ways in which a timeout on `path` can leave a program that starts with these flags: for each,
   * the flags that have to be set by then. It looks at the text of the program only, not at how its
   * locks and steps turn out.
   */
  function Escaping(p: Program, path: Path, flags: seq<bool>): (r: set<seq<bool>>)
    ensures forall g :: g in r ==> |g| == |flags|
  {
    match p
    case Await(q, _) => if q == path then {flags} else {}
    case IfCompromised(depth, _, yes, no) =>
      if depth < |flags| then
        Escaping(yes, path, flags[depth := true]) + if flags[depth] then {} else Escaping(no, path, flags)
      else Escaping(no, path, flags)
    case Then(first, next) => Escaping(first, path, flags) + Escaping(next, path, flags)
    case Fallback(q, attempt, otherwise) =>
      (if q == path then {} else Escaping(attempt, path, flags))
      + (set g, h | g in Escaping(attempt, q, flags) && h in Escaping(otherwise, path, g) :: h)
    case Section(q, _, body) =>
      (if q == path then {flags} else {})
      + (set g | g in Escaping(body, path, [false] + flags) :: g[1..])
    case _ => {}
  }

  predicate Escapes(p: Program, path: Path, flags: seq<bool>) {
    Escaping(p, path, flags) != {}
  }

  /** What the work of a section on `path` lets out, under locks that are `held`. */
  predicate LetsOut(body: Program, path: Path, held: seq<Frame>) {
    Escapes(body, path, [false] + Flags(held))
  }

  predicate Below(a: seq<bool>, b: seq<bool>) {
    |a| == |b| && forall i :: 0 <= i < |a| && a[i] ==> b[i]
  }

  lemma FlagsStay(p: Program, held: seq<Frame>)
    ensures Below(Flags(held), Flags(Execute(p, held).held))
  {
    forall i | 0 <= i < |held|
      ensures held[i].compromised ==> Execute(p, held).held[i].compromised
    {
      CompromiseIsLogged(p, held, i);
    }
    hide Execute;
  }

  lemma FlagsCount(held: seq<Frame>)
    ensures |Flags(held)| == |held| && forall flags :: Below(flags, Flags(held)) ==> |flags| == |held|
  {
  }

  /** Only what escapes leaves: a run that lets a timeout out has set at least the flags of one of the ways. */
  lemma {:induction false} OnlyEscapesLeave(p: Program, path: Path, held: seq<Frame>, flags: seq<bool>) returns (g: seq<bool>)
    requires Below(flags, Flags(held)) && Fails(p, held, path)
    ensures g in Escaping(p, path, flags) && Below(g, Flags(Execute(p, held).held))
    decreases p
  {
    hide Flags, Below, Look;
    FlagsCount(held);
    match p
    case Await(q, _) =>
      g := flags;
    case IfCompromised(depth, reported, yes, no) =>
      var held' := Look(held, depth, reported).0;
      BelowLook(flags, held, depth, reported);
      if depth < |held| && held'[depth].compromised {
        g := OnlyEscapesLeave(yes, path, held', flags[depth := true]);
      } else {
        g := OnlyEscapesLeave(no, path, held', flags);
      }
    case Then(first, next) =>
      var r := Execute(first, held);
      if r.outcome.Failure? {
        g := OnlyEscapesLeave(first, path, held, flags);
      } else {
        FlagsStay(first, held);
        BelowIsTransitive(flags, Flags(held), Flags(r.held));
        g := OnlyEscapesLeave(next, path, r.held, flags);
      }
    case Fallback(q, attempt, otherwise) =>
      var r := Execute(attempt, held);
      if Fails(attempt, held, q) {
        var f := OnlyEscapesLeave(attempt, q, held, flags);
        g := OnlyEscapesLeave(otherwise, path, r.held, f);
      } else {
        g := OnlyEscapesLeave(attempt, path, held, flags);
      }
    case Section(q, oracle, body) =>
      SectionEffects(q, oracle, body, held);
      if oracle.acquisition.Refused? {
        g := flags;
      } else {
        TimeoutInSection(q, oracle, body, held, path);
        BelowInside(q, flags, held);
        var f := OnlyEscapesLeave(body, path, [Frame(q, false)] + held, [false] + flags);
        BelowTail(f, Execute(body, [Frame(q, false)] + held).held);
        g := f[1..];
      }
  }

  /** A granted section fails with a timeout exactly when its work does, and keeps the work's outer flags. */
  lemma TimeoutInSection(q: Path, oracle: Oracle, body: Program, held: seq<Frame>, path: Path)
    requires oracle.acquisition.Granted?
    ensures Fails(Section(q, oracle, body), held, path) <==> Fails(body, [Frame(q, false)] + held, path)
    ensures Flags(Execute(Section(q, oracle, body), held).held) == Flags(Execute(body, [Frame(q, false)] + held).held)[1..]
  {
    SectionEffects(q, oracle, body, held);
    hide Execute;
  }

  lemma BelowLook(flags: seq<bool>, held: seq<Frame>, depth: nat, reported: bool)
    requires Below(flags, Flags(held))
    ensures var held' := Look(held, depth, reported).0;
            && Below(flags, Flags(held'))
            && (depth < |held| && held'[depth].compromised ==> Below(flags[depth := true], Flags(held')))
            && (depth < |held| && !held'[depth].compromised ==> !flags[depth])
  {
  }

  lemma BelowIsTransitive(a: seq<bool>, b: seq<bool>, c: seq<bool>)
    requires Below(a, b) && Below(b, c)
    ensures Below(a, c)
  {
  }

  lemma BelowInside(path: Path, flags: seq<bool>, held: seq<Frame>)
    requires Below(flags, Flags(held))
    ensures Below([false] + flags, Flags([Frame(path, false)] + held))
  {
  }

  lemma BelowTail(f: seq<bool>, held: seq<Frame>)
    requires held != [] && Below(f, Flags(held))
    ensures Below(f[1..], Flags(held)[1..])
  {
  }

  // ---------------------------------------------------------------- every escape is real

  predicate IsStep(p: Program) {
    p.Return? || p.Throw? || p.Mark? || p.Compromise?
  }

  /** The same program with other outcomes of its locks, its waits, its looks and its own steps. */
  predicate SameShape(p: Program, q: Program) {
    match p
    case Await(path, _) => q.Await? && q.path == path
    case IfCompromised(depth, _, yes, no) =>
      q.IfCompromised? && q.depth == depth && SameShape(yes, q.yes) && SameShape(no, q.no)
    case Then(first, next) => q.Then? && SameShape(first, q.first) && SameShape(next, q.next)
    case Fallback(path, attempt, otherwise) =>
      q.Fallback? && q.path == path && SameShape(attempt, q.attempt) && SameShape(otherwise, q.otherwise)
    case Section(path, _, body) => q.Section? && q.path == path && SameShape(body, q.body)
    case _ => IsStep(q)
  }

  lemma {:induction false} ShapeDecidesEscaping(p: Program, q: Program, path: Path, flags: seq<bool>)
    requires SameShape(p, q)
    ensures Escaping(p, path, flags) == Escaping(q, path, flags)
    decreases p
  {
    match p
    case IfCompromised(depth, _, yes, no) =>
      if depth < |flags| {
        ShapeDecidesEscaping(yes, q.yes, path, flags[depth := true]);
      }
      ShapeDecidesEscaping(no, q.no, path, flags);
    case Then(first, next) =>
      ShapeDecidesEscaping(first, q.first, path, flags);
      ShapeDecidesEscaping(next, q.next, path, flags);
    case Fallback(w, attempt, otherwise) =>
      ShapeDecidesEscaping(attempt, q.attempt, path, flags);
      ShapeDecidesEscaping(attempt, q.attempt, w, flags);
      forall g | g in Escaping(attempt, w, flags)
        ensures Escaping(otherwise, path, g) == Escaping(q.otherwise, path, g)
      {
        ShapeDecidesEscaping(otherwise, q.otherwise, path, g);
      }
    case Section(_, _, body) =>
      ShapeDecidesEscaping(body, q.body, path, [false] + flags);
    case _ =>
  }

  const SOUND: Oracle := Oracle(Granted, false, None)

  /** The program when nothing goes wrong in it. */
  function Calm(p: Program): Program {
    match p
    case Await(path, _) => Await(path, false)
    case IfCompromised(depth, _, yes, no) => IfCompromised(depth, false, Calm(yes), Calm(no))
    case Then(first, next) => Then(Calm(first), Calm(next))
    case Fallback(path, attempt, otherwise) => Fallback(path, Calm(attempt), Calm(otherwise))
    case Section(path, _, body) => Section(path, SOUND, Calm(body))
    case _ => Return(0)
  }

  lemma {:induction false} CalmSucceeds(p: Program, held: seq<Frame>)
    ensures SameShape(p, Calm(p))
    ensures var r := Execute(Calm(p), held); r.outcome.Success? && r.held == held
    decreases p
  {
    match p
    case IfCompromised(_, _, yes, no) =>
      CalmSucceeds(yes, held);
      CalmSucceeds(no, held);
    case Then(first, next) =>
      CalmSucceeds(first, held);
      CalmSucceeds(next, held);
    case Fallback(_, attempt, otherwise) =>
      CalmSucceeds(attempt, held);
      CalmSucceeds(otherwise, held);
    case Section(path, _, body) =>
      CalmSucceeds(body, [Frame(path, false)] + held);
      SectionEffects(path, SOUND, Calm(body), held);
      assert ([Frame(path, false)] + held)[1..] == held;
    case _ =>
  }

  lemma {:induction false} ShapeIsReflexive(p: Program)
    ensures SameShape(p, p)
  {
    match p
    case IfCompromised(_, _, yes, no) =>
      ShapeIsReflexive(yes);
      ShapeIsReflexive(no);
    case Then(first, next) =>
      ShapeIsReflexive(first);
      ShapeIsReflexive(next);
    case Fallback(_, attempt, otherwise) =>
      ShapeIsReflexive(attempt);
      ShapeIsReflexive(otherwise);
    case Section(_, _, body) =>
      ShapeIsReflexive(body);
    case _ =>
  }

  /** Each of the ways happens, with exactly its flags, for some outcomes of the same program. */
  lemma {:induction false} EscapeIsReal(p: Program, path: Path, held: seq<Frame>, g: seq<bool>) returns (q: Program)
    requires g in Escaping(p, path, Flags(held))
    ensures SameShape(p, q) && Fails(q, held, path) && Flags(Execute(q, held).held) == g
    decreases p
  {
    match p
    case Await(_, _) =>
      q := Await(path, true);
    case IfCompromised(depth, _, yes, no) =>
      ShapeIsReflexive(yes);
      ShapeIsReflexive(no);
      q := EscapeThroughLook(p, path, held, g);
    case Then(first, next) =>
      ShapeIsReflexive(next);
      if g in Escaping(first, path, Flags(held)) {
        var a := EscapeIsReal(first, path, held, g);
        q := Then(a, next);
      } else {
        CalmSucceeds(first, held);
        var b := EscapeIsReal(next, path, held, g);
        q := Then(Calm(first), b);
      }
    case Fallback(w, attempt, otherwise) =>
      ShapeIsReflexive(otherwise);
      if w != path && g in Escaping(attempt, path, Flags(held)) {
        var a := EscapeIsReal(attempt, path, held, g);
        q := Fallback(w, a, otherwise);
      } else {
        var f :| f in Escaping(attempt, w, Flags(held)) && g in Escaping(otherwise, path, f);
        var a := EscapeIsReal(attempt, w, held, f);
        var b := EscapeIsReal(otherwise, path, Execute(a, held).held, g);
        q := Fallback(w, a, b);
      }
    case Section(w, _, body) =>
      q := EscapeFromSection(p, path, held, g);
  }

  lemma {:induction false} EscapeThroughLook(p: Program, path: Path, held: seq<Frame>, g: seq<bool>) returns (q: Program)
    requires p.IfCompromised? && g in Escaping(p, path, Flags(held))
    ensures SameShape(p, q) && Fails(q, held, path) && Flags(Execute(q, held).held) == g
    decreases p, 0
  {
    ShapeIsReflexive(p.yes);
    ShapeIsReflexive(p.no);
    var flags := Flags(held);
    if p.depth < |held| && g in Escaping(p.yes, path, flags[p.depth := true]) {
      var held' := Look(held, p.depth, true).0;
      assert Flags(held') == flags[p.depth := true];
      var a := EscapeIsReal(p.yes, path, held', g);
      q := IfCompromised(p.depth, true, a, p.no);
    } else {
      var b := EscapeIsReal(p.no, path, held, g);
      q := IfCompromised(p.depth, false, p.yes, b);
    }
  }

  lemma {:induction false} EscapeFromSection(p: Program, path: Path, held: seq<Frame>, g: seq<bool>) returns (q: Program)
    requires p.Section? && g in Escaping(p, path, Flags(held))
    ensures SameShape(p, q) && Fails(q, held, path) && Flags(Execute(q, held).held) == g
    decreases p, 0
  {
    hide Execute;
    ShapeIsReflexive(p.body);
    if p.path == path && g == Flags(held) {
      q := Section(path, Oracle(Refused("ELOCKED"), false, None), p.body);
      SectionEffects(path, q.oracle, p.body, held);
    } else {
      var f :| f in Escaping(p.body, path, [false] + Flags(held)) && g == f[1..];
      FlagsInside(p.path, held);
      var body := EscapeIsReal(p.body, path, [Frame(p.path, false)] + held, f);
      q := Section(p.path, SOUND, body);
      TimeoutInSection(p.path, SOUND, body, held, path);
    }
  }

  lemma FlagsInside(path: Path, held: seq<Frame>)
    ensures Flags([Frame(path, false)] + held) == [false] + Flags(held)
  {
  }

  /**
   * A timeout of a section means that its own lock was not granted, whatever the outcomes of locks
   * and steps in its work, exactly when the work lets no timeout on the same path out.
   */
  lemma TimeoutExactly(path: Path, body: Program, held: seq<Frame>)
    ensures (forall oracle, work :: SameShape(body, work) ==>
               (Fails(Section(path, oracle, work), held, path) <==> oracle.acquisition == Refused("ELOCKED")))
            <==> !LetsOut(body, path, held)
  {
    if LetsOut(body, path, held) {
      var work := EscapeMisleads(path, body, held);
      assert SOUND.acquisition.Granted?;
    } else {
      forall oracle, work | SameShape(body, work)
        ensures Fails(Section(path, oracle, work), held, path) <==> oracle.acquisition == Refused("ELOCKED")
      {
        ShapeDecidesEscaping(body, work, path, [false] + Flags(held));
        TimeoutMeansNotRun(path, oracle, work, held);
      }
    }
  }

  /** While the work lets out no timeout on the outer path, one means that the work never ran. */
  lemma TimeoutMeansNotRun(path: Path, oracle: Oracle, body: Program, held: seq<Frame>)
    requires !LetsOut(body, path, held)
    ensures Fails(Section(path, oracle, body), held, path) <==> oracle.acquisition == Refused("ELOCKED")
    ensures Fails(Section(path, oracle, body), held, path)
            ==> Execute(Section(path, oracle, body), held).trace == [NotAcquired(path)]
  {
    hide Execute, Escaping, Flags, Below;
    SectionEffects(path, oracle, body, held);
    if Fails(body, [Frame(path, false)] + held, path) {
      FlagsInside(path, held);
      BelowItself(Flags([Frame(path, false)] + held));
      var g := OnlyEscapesLeave(body, path, [Frame(path, false)] + held, [false] + Flags(held));
      assert false;
    }
  }

  lemma BelowItself(flags: seq<bool>)
    ensures Below(flags, flags)
  {
  }

  /** Otherwise some outcomes make the work run and its error read as a timeout of the outer lock. */
  lemma EscapeMisleads(path: Path, body: Program, held: seq<Frame>) returns (work: Program)
    requires LetsOut(body, path, held)
    ensures SameShape(body, work) && Fails(Section(path, SOUND, work), held, path)
    ensures Acquired(path) in Execute(Section(path, SOUND, work), held).trace
  {
    var held' := [Frame(path, false)] + held;
    assert Flags(held') == [false] + Flags(held);
    var g :| g in Escaping(body, path, Flags(held'));
    work := EscapeIsReal(body, path, held', g);
    TimeoutOfSection(path, SOUND, work, held);
    SectionShape(path, SOUND, work, held);
  }

  /** What escapes is locked or waited for: a program that never names a path lets no timeout on it out. */
  lemma {:induction false} EscapesAreNamed(p: Program, path: Path, flags: seq<bool>, g: seq<bool>)
    requires g in Escaping(p, path, flags)
    ensures path in Locks(p)
    decreases p
  {
    match p
    case Await(_, _) =>
    case IfCompromised(depth, _, yes, no) =>
      if depth < |flags| && g in Escaping(yes, path, flags[depth := true]) {
        EscapesAreNamed(yes, path, flags[depth := true], g);
      } else {
        EscapesAreNamed(no, path, flags, g);
      }
    case Then(first, next) =>
      if g in Escaping(first, path, flags) {
        EscapesAreNamed(first, path, flags, g);
      } else {
        EscapesAreNamed(next, path, flags, g);
      }
    case Fallback(q, attempt, otherwise) =>
      if q != path && g in Escaping(attempt, path, flags) {
        EscapesAreNamed(attempt, path, flags, g);
      } else {
        var f :| f in Escaping(attempt, q, flags) && g in Escaping(otherwise, path, f);
        EscapesAreNamed(otherwise, path, f, g);
      }
    case Section(q, _, body) =>
      if q != path {
        var f :| f in Escaping(body, path, [false] + flags) && g == f[1..];
        EscapesAreNamed(body, path, [false] + flags, f);
      }
  }

  /**
   * An inner section on the outer path breaks this: whatever the work does first, a timeout inside it
   * reads as a timeout of the outer lock.
   */
  lemma SamePathMisleads(path: Path, first: Program, held: seq<Frame>)
    requires Execute(first, [Frame(path, false)] + held).outcome.Success?
    ensures var inner := Section(path, Oracle(Refused("ELOCKED"), false, None), Return(0));
            var outer := Section(path, Oracle(Granted, false, None), Then(first, inner));
            && Fails(outer, held, path)
            && [Acquired(path)] + Execute(first, [Frame(path, false)] + held).trace <= Execute(outer, held).trace
  {
    var inner := Section(path, Oracle(Refused("ELOCKED"), false, None), Return(0));
    var body := Then(first, inner);
    var begun := Execute(first, [Frame(path, false)] + held);
    assert Execute(inner, begun.held) == Run(Failure(LockTimeout(path)), begun.held, [NotAcquired(path)]);
    var work := Execute(body, [Frame(path, false)] + held);
    assert work == Run(Failure(LockTimeout(path)), begun.held, begun.trace + [NotAcquired(path)]);
    var outer := Execute(Section(path, Oracle(Granted, false, None), body), held);
    assert outer.trace == [Acquired(path)] + begun.trace + ([NotAcquired(path)] + [ReleaseTried(path)]);
  }

  /** What a section records after its work. */
  function Closing(path: Path, oracle: Oracle, failed: bool, compromised: bool): seq<Event> {
    (if oracle.late then [CompromiseLogged(path)] else [])
    + [ReleaseTried(path)]
    + (if failed && ReleaseFailure(oracle, compromised).Some? then [ReleaseErrorLogged(path)] else [])
  }

  lemma SectionShape(path: Path, oracle: Oracle, body: Program, held: seq<Frame>)
    requires oracle.acquisition.Granted?
    ensures var work := Execute(body, [Frame(path, false)] + held);
            Execute(Section(path, oracle, body), held).trace
            == [Acquired(path)] + (work.trace
               + Closing(path, oracle, work.outcome.Failure?, work.held[0].compromised || oracle.late))
  {
    FramesKeepPaths(body, [Frame(path, false)] + held);
    var work := Execute(body, [Frame(path, false)] + held);
    var logged := if oracle.late then [CompromiseLogged(path)] else [];
    var failure := ReleaseFailure(oracle, work.held[0].compromised || oracle.late);
    var last := if work.outcome.Failure? && failure.Some? then [ReleaseErrorLogged(path)] else [];
    assert Execute(Section(path, oracle, body), held).trace == [Acquired(path)] + work.trace + logged + [ReleaseTried(path)] + last;
    hide Execute;
    RegroupTrace([Acquired(path)], work.trace, logged, [ReleaseTried(path)], last);
  }

  lemma RegroupTrace(a: seq<Event>, b: seq<Event>, c: seq<Event>, d: seq<Event>, e: seq<Event>)
    ensures a + b + c + d + e == a + (b + (c + d + e))
  {
  }

  /** The work's own error wins over a release error, and a release error after a compromise is dropped. */
  lemma ErrorPrecedence(path: Path, oracle: Oracle, body: Program, held: seq<Frame>)
    requires oracle.acquisition.Granted?
    ensures var work := Execute(body, [Frame(path, false)] + held);
            var outcome := Execute(Section(path, oracle, body), held).outcome;
            var compromised := work.held[0].compromised || oracle.late;
            && (work.outcome.Failure? ==> outcome == work.outcome)
            && (work.outcome.Success? ==>
                  (outcome == work.outcome <==> oracle.releaseError.None? || compromised)
                  && (outcome.Failure? ==> outcome.error == Coded(oracle.releaseError.value)))
  {
  }

  /** Running `p` under `held` runs `q` under `at`. */
  ghost predicate Reaches(p: Program, held: seq<Frame>, q: Program, at: seq<Frame>) {
    || (p == q && held == at)
    || match p
       case IfCompromised(depth, reported, yes, no) =>
         var held' := Look(held, depth, reported).0;
         if depth < |held| && held'[depth].compromised then Reaches(yes, held', q, at) else Reaches(no, held', q, at)
       case Then(first, next) =>
         var r := Execute(first, held);
         Reaches(first, held, q, at) || (r.outcome.Success? && Reaches(next, r.held, q, at))
       case Fallback(path, attempt, otherwise) =>
         Reaches(attempt, held, q, at)
         || (Fails(attempt, held, path) && Reaches(otherwise, Execute(attempt, held).held, q, at))
       case Section(path, oracle, body) =>
         oracle.acquisition.Granted? && Reaches(body, [Frame(path, false)] + held, q, at)
       case _ => false
  }

  /** Whether `p` itself, and no part of it, makes the error. */
  predicate IsCause(p: Program, held: seq<Frame>, error: Error) {
    match p
    case Throw(code) => error == Coded(code)
    case Await(path, timedOut) => timedOut && error == LockTimeout(path)
    case Section(path, oracle, body) =>
      (match oracle.acquisition
       case Refused(code) => error == AcquireError(path, code)
       case Granted =>
         var work := Execute(body, [Frame(path, false)] + held);
         && work.outcome.Success? && !work.held[0].compromised && !oracle.late
         && oracle.releaseError.Some? && error == Coded(oracle.releaseError.value))
    case _ => false
  }

  /**
   * Every error that leaves a program was thrown in it, came from a wait, was a refused lock, or was
   * the failed release of a lock that was sound and whose work had succeeded. In particular an error
   * of work is never replaced by one of a release.
   */
  lemma {:induction false} ErrorsHaveACause(p: Program, held: seq<Frame>) returns (q: Program, at: seq<Frame>)
    requires Execute(p, held).outcome.Failure?
    ensures Reaches(p, held, q, at) && IsCause(q, at, Execute(p, held).outcome.error)
    decreases p
  {
    q, at := p, held;
    match p
    case IfCompromised(depth, reported, yes, no) =>
      var held' := Look(held, depth, reported).0;
      if depth < |held| && held'[depth].compromised {
        q, at := ErrorsHaveACause(yes, held');
      } else {
        q, at := ErrorsHaveACause(no, held');
      }
    case Then(first, next) =>
      var r := Execute(first, held);
      if r.outcome.Failure? {
        q, at := ErrorsHaveACause(first, held);
      } else {
        q, at := ErrorsHaveACause(next, r.held);
      }
    case Fallback(path, attempt, otherwise) =>
      if Fails(attempt, held, path) {
        q, at := ErrorsHaveACause(otherwise, Execute(attempt, held).held);
      } else {
        q, at := ErrorsHaveACause(attempt, held);
      }
    case Section(path, oracle, body) =>
      SectionEffects(path, oracle, body, held);
      if oracle.acquisition.Granted? && Execute(body, [Frame(path, false)] + held).outcome.Failure? {
        q, at := ErrorsHaveACause(body, [Frame(path, false)] + held);
      }
    case _ =>
  }

  /** The events of a part that a run reaches are events of the run. */
  lemma {:induction false} EventsAreKept(p: Program, held: seq<Frame>, q: Program, at: seq<Frame>, e: Event)
    requires Reaches(p, held, q, at) && e in Execute(q, at).trace
    ensures e in Execute(p, held).trace
    decreases p
  {
    if !(p == q && held == at) {
      match p
      case IfCompromised(depth, reported, yes, no) =>
        var held' := Look(held, depth, reported).0;
        if depth < |held| && held'[depth].compromised {
          EventsAreKept(yes, held', q, at, e);
        } else {
          EventsAreKept(no, held', q, at, e);
        }
      case Then(first, next) =>
        if Reaches(first, held, q, at) {
          EventsAreKept(first, held, q, at, e);
        } else {
          EventsAreKept(next, Execute(first, held).held, q, at, e);
        }
      case Fallback(_, attempt, otherwise) =>
        if Reaches(attempt, held, q, at) {
          EventsAreKept(attempt, held, q, at, e);
        } else {
          EventsAreKept(otherwise, Execute(attempt, held).held, q, at, e);
        }
      case Section(path, oracle, body) =>
        EventsAreKept(body, [Frame(path, false)] + held, q, at, e);
        SectionShape(path, oracle, body, held);
    }
  }

  /**
   * The frames a run starts with lie behind those of the sections entered since, under the same paths,
   * and a flag that a reached part leaves set is set at the end.
   */
  lemma {:induction false} FlagIsKept(p: Program, held: seq<Frame>, q: Program, at: seq<Frame>, i: nat)
    requires Reaches(p, held, q, at) && i < |held|
    ensures |at| >= |held| && at[i + |at| - |held|].path == held[i].path
    ensures Execute(q, at).held[i + |at| - |held|].compromised ==> Execute(p, held).held[i].compromised
    decreases p
  {
    hide Execute, Look, Fails;
    if !(p == q && held == at) {
      match p
      case IfCompromised(depth, reported, yes, no) =>
        var held' := Look(held, depth, reported).0;
        FrameAfterLook(p, held, i);
        if depth < |held| && held'[depth].compromised {
          FlagIsKept(yes, held', q, at, i);
        } else {
          FlagIsKept(no, held', q, at, i);
        }
      case Then(first, next) =>
        FrameAfterParts(p, first, next, held, i);
        if Reaches(first, held, q, at) {
          FlagIsKept(first, held, q, at, i);
        } else {
          FlagIsKept(next, Execute(first, held).held, q, at, i);
        }
      case Fallback(_, attempt, otherwise) =>
        FrameAfterParts(p, attempt, otherwise, held, i);
        if Reaches(attempt, held, q, at) {
          FlagIsKept(attempt, held, q, at, i);
        } else {
          FlagIsKept(otherwise, Execute(attempt, held).held, q, at, i);
        }
      case Section(path, oracle, body) =>
        FlagIsKept(body, [Frame(path, false)] + held, q, at, i + 1);
        FrameAfterSection(path, oracle, body, held, i);
    }
  }

  lemma FrameAfterLook(p: Program, held: seq<Frame>, i: nat)
    requires p.IfCompromised? && i < |held|
    ensures var held' := Look(held, p.depth, p.reported).0;
            && held'[i].path == held[i].path
            && Execute(p, held).held
               == Execute(if p.depth < |held| && held'[p.depth].compromised then p.yes else p.no, held').held
  {
  }

  /** A flag set by the first part stays set; the second part, if it runs, has the last word. */
  lemma FrameAfterParts(p: Program, first: Program, second: Program, held: seq<Frame>, i: nat)
    requires i < |held| && ((p.Then? && p.first == first && p.next == second)
                            || (p.Fallback? && p.attempt == first && p.otherwise == second))
    ensures Execute(first, held).held[i].path == held[i].path
    ensures Execute(first, held).held[i].compromised ==> Execute(p, held).held[i].compromised
    ensures p.Then? && Execute(first, held).outcome.Success? ==>
              Execute(p, held).held == Execute(second, Execute(first, held).held).held
    ensures p.Fallback? && Fails(first, held, p.path) ==>
              Execute(p, held).held == Execute(second, Execute(first, held).held).held
  {
    FramesKeepPaths(first, held);
    CompromiseIsLogged(second, Execute(first, held).held, i);
  }

  lemma FrameAfterSection(path: Path, oracle: Oracle, body: Program, held: seq<Frame>, i: nat)
    requires oracle.acquisition.Granted? && i < |held|
    ensures var held' := [Frame(path, false)] + held;
            held'[i + 1] == held[i] && Execute(Section(path, oracle, body), held).held[i] == Execute(body, held').held[i + 1]
  {
    SectionEffects(path, oracle, body, held);
    hide Execute;
  }

  /** A step at which the lock of the frame `depth` is reported compromised. */
  predicate Reports(q: Program, depth: nat) {
    match q
    case Compromise(d) => d == depth
    case IfCompromised(d, reported, _, _) => reported && d == depth
    case _ => false
  }

  lemma ReportSetsFlag(q: Program, at: seq<Frame>, depth: nat)
    requires Reports(q, depth) && depth < |at|
    ensures Execute(q, at).held[depth].compromised && CompromiseLogged(at[depth].path) in Execute(q, at).trace
  {
    if q.IfCompromised? {
      CompromiseIsLogged(q.yes, Look(at, depth, true).0, depth);
    }
  }

  /** No report is lost: one that any run reaches, however deep, is logged and leaves the flag of its lock set. */
  lemma ReportsAreKept(p: Program, held: seq<Frame>, q: Program, at: seq<Frame>, depth: nat, i: nat)
    requires Reaches(p, held, q, at) && Reports(q, depth)
    requires i < |held| && depth == i + |at| - |held|
    ensures Execute(p, held).held[i].compromised && CompromiseLogged(held[i].path) in Execute(p, held).trace
  {
    hide Execute, Reaches, Reports;
    FlagIsKept(p, held, q, at, i);
    ReportSetsFlag(q, at, depth);
    EventsAreKept(p, held, q, at, CompromiseLogged(held[i].path));
  }

  /** A section whose lock was reported while its work ran ends as its work ended, whatever its release does. */
  lemma ReportedSectionEndsAsItsWork(path: Path, oracle: Oracle, body: Program, held: seq<Frame>, q: Program, at: seq<Frame>)
    requires oracle.acquisition.Granted? && Reaches(body, [Frame(path, false)] + held, q, at)
    requires |at| > |held| && Reports(q, |at| - |held| - 1)
    ensures var r := Execute(Section(path, oracle, body), held);
            && r.outcome == Execute(body, [Frame(path, false)] + held).outcome
            && CompromiseLogged(path) in r.trace
  {
    hide Execute, Reaches, Reports, Closing;
    ReportsAreKept(body, [Frame(path, false)] + held, q, at, |at| - |held| - 1, 0);
    SectionEffects(path, oracle, body, held);
    SectionShape(path, oracle, body, held);
  }

  /** An error that is thrown anywhere leaves every section around it unchanged. */
  lemma {:induction false} ThrownErrorsLeave(p: Program, held: seq<Frame>, code: string, at: seq<Frame>)
    requires Reaches(p, held, Throw(code), at)
    ensures Execute(p, held).outcome == Failure(Coded(code))
    decreases p
  {
    if !p.Throw? {
      match p
      case IfCompromised(depth, reported, yes, no) =>
        var held' := Look(held, depth, reported).0;
        if depth < |held| && held'[depth].compromised {
          ThrownErrorsLeave(yes, held', code, at);
        } else {
          ThrownErrorsLeave(no, held', code, at);
        }
      case Then(first, next) =>
        if Reaches(first, held, Throw(code), at) {
          ThrownErrorsLeave(first, held, code, at);
        } else {
          ThrownErrorsLeave(next, Execute(first, held).held, code, at);
        }
      case Fallback(_, attempt, otherwise) =>
        if Reaches(attempt, held, Throw(code), at) {
          ThrownErrorsLeave(attempt, held, code, at);
        } else {
          ThrownErrorsLeave(otherwise, Execute(attempt, held).held, code, at);
        }
      case Section(path, oracle, body) =>
        ThrownErrorsLeave(body, [Frame(path, false)] + held, code, at);
        SectionEffects(path, oracle, body, held);
    }
  }

  /** A release error is logged exactly when the work's own error hides it and the lock was sound. */
  lemma HiddenReleaseErrorIsLogged(path: Path, oracle: Oracle, body: Program, held: seq<Frame>)
    requires oracle.acquisition.Granted?
    ensures var work := Execute(body, [Frame(path, false)] + held);
            var trace := Execute(Section(path, oracle, body), held).trace;
            var compromised := work.held[0].compromised || oracle.late;
            ReleaseErrorLogged(path) in trace[|work.trace| + 1..]
            <==> work.outcome.Failure? && oracle.releaseError.Some? && !compromised
  {
    hide *;
    var work := Execute(body, [Frame(path, false)] + held);
    var compromised := work.held[0].compromised || oracle.late;
    SectionShape(path, oracle, body, held);
    AfterWork(Acquired(path), work.trace, Closing(path, oracle, work.outcome.Failure?, compromised));
    ClosingLogs(path, oracle, work.outcome.Failure?, compromised);
  }

  lemma AfterWork(first: Event, work: seq<Event>, closing: seq<Event>)
    ensures ([first] + (work + closing))[|work| + 1..] == closing
  {
  }

  lemma ClosingLogs(path: Path, oracle: Oracle, failed: bool, compromised: bool)
    ensures ReleaseErrorLogged(path) in Closing(path, oracle, failed, compromised)
            <==> failed && oracle.releaseError.Some? && !compromised
  {
    var last := if failed && ReleaseFailure(oracle, compromised).Some? then [ReleaseErrorLogged(path)] else [];
    assert ReleaseErrorLogged(path) in last <==> last != [];
  }

  /** Follows the locks through a trace; `None` when a release does not match the lock taken last. */
  function Replay(trace: seq<Event>, held: seq<Path>): Option<seq<Path>> {
    if trace == [] then Some(held)
    else
      match trace[0]
      case Acquired(path) => Replay(trace[1..], [path] + held)
      case ReleaseTried(path) =>
        if held != [] && held[0] == path then Replay(trace[1..], held[1..]) else None
      case _ => Replay(trace[1..], held)
  }

  lemma {:induction false} ReplayParts(a: seq<Event>, b: seq<Event>, held: seq<Path>)
    ensures Replay(a + b, held)
         == match Replay(a, held) { case Some(held') => Replay(b, held') case None => None }
    decreases |a|
  {
    if a == [] {
      assert a + b == b;
    } else {
      assert (a + b)[1..] == a[1..] + b;
      match a[0]
      case Acquired(path) => ReplayParts(a[1..], b, [path] + held);
      case ReleaseTried(path) =>
        if held != [] && held[0] == path {
          ReplayParts(a[1..], b, held[1..]);
        }
      case _ => ReplayParts(a[1..], b, held);
    }
  }

  /** Every lock taken is given back, in reverse order, however the program ends. */
  lemma {:induction false} LocksAreBalanced(p: Program, held: seq<Frame>, paths: seq<Path>)
    ensures Replay(Execute(p, held).trace, paths) == Some(paths)
  {
    match p
    case Return(_) =>
    case Throw(_) =>
    case Mark(tag) =>
      OneQuietEvent(Marked(tag), paths);
    case Compromise(depth) =>
      if depth < |held| {
        OneQuietEvent(CompromiseLogged(held[depth].path), paths);
      }
    case Await(_, _) =>
    case IfCompromised(depth, reported, yes, no) =>
      var (held', logged) := Look(held, depth, reported);
      LocksAreBalanced(yes, held', paths);
      LocksAreBalanced(no, held', paths);
      var r := if depth < |held| && held'[depth].compromised then Execute(yes, held') else Execute(no, held');
      if logged != [] {
        OneQuietEvent(logged[0], paths);
      }
      ReplayParts(logged, r.trace, paths);
    case Then(first, next) =>
      var r := Execute(first, held);
      LocksAreBalanced(first, held, paths);
      LocksAreBalanced(next, r.held, paths);
      ReplayParts(r.trace, Execute(next, r.held).trace, paths);
    case Fallback(_, attempt, otherwise) =>
      var r := Execute(attempt, held);
      LocksAreBalanced(attempt, held, paths);
      LocksAreBalanced(otherwise, r.held, paths);
      ReplayParts(r.trace, Execute(otherwise, r.held).trace, paths);
    case Section(path, oracle, body) =>
      if oracle.acquisition.Refused? {
        OneQuietEvent(NotAcquired(path), paths);
      } else {
        LocksAreBalanced(body, [Frame(path, false)] + held, [path] + paths);
        SectionIsBalanced(path, oracle, body, held, paths);
      }
  }

  lemma OneQuietEvent(e: Event, paths: seq<Path>)
    requires !e.Acquired? && !e.ReleaseTried?
    ensures Replay([e], paths) == Some(paths)
  {
    assert [e][1..] == [];
  }

  lemma {:induction false} SectionIsBalanced(path: Path, oracle: Oracle, body: Program, held: seq<Frame>, paths: seq<Path>)
    requires oracle.acquisition.Granted?
    requires Replay(Execute(body, [Frame(path, false)] + held).trace, [path] + paths) == Some([path] + paths)
    ensures Replay(Execute(Section(path, oracle, body), held).trace, paths) == Some(paths)
  {
    var work := Execute(body, [Frame(path, false)] + held);
    var logged := if oracle.late then [CompromiseLogged(path)] else [];
    var failure := ReleaseFailure(oracle, work.held[0].compromised || oracle.late);
    var last := if work.outcome.Failure? && failure.Some? then [ReleaseErrorLogged(path)] else [];
    var trace := Execute(Section(path, oracle, body), held).trace;
    SectionShape(path, oracle, body, held);
    hide Execute;
    assert trace == [Acquired(path)] + (work.trace + (logged + ([ReleaseTried(path)] + last)));
    if oracle.late {
      OneQuietEvent(logged[0], [path] + paths);
    }
    assert ([path] + paths)[1..] == paths;
    assert ([ReleaseTried(path)] + last)[1..] == last;
    if last != [] {
      OneQuietEvent(last[0], paths);
    }
    assert Replay([ReleaseTried(path)] + last, [path] + paths) == Some(paths);
    ReplayParts(logged, [ReleaseTried(path)] + last, [path] + paths);
    ReplayParts(work.trace, logged + ([ReleaseTried(path)] + last), [path] + paths);
    assert trace[1..] == work.trace + (logged + ([ReleaseTried(path)] + last));
  }

  /**
   * Falling back to unguarded work on a timeout runs the work exactly once when its lock is granted
   * or times out, and not at all on any other acquisition error, if the work lets no timeout on that
   * path out.
   */
  lemma FallbackRunsWorkOnce(path: Path, oracle: Oracle, work: Program, held: seq<Frame>)
    requires !LetsOut(work, path, held)
    ensures var r := Execute(Fallback(path, Section(path, oracle, work), work), held);
            match oracle.acquisition
            case Granted => r == Execute(Section(path, oracle, work), held)
            case Refused(code) =>
              if code == "ELOCKED" then
                var alone := Execute(work, held);
                r == alone.(trace := [NotAcquired(path)] + alone.trace)
              else r == Run(Failure(Coded(code)), held, [NotAcquired(path)])
  {
    TimeoutMeansNotRun(path, oracle, work, held);
  }
}
