/** The bounded worker controller (shared/worker_runtime.py) as interleaved atomic steps: each
    lock region and each effect between two lock regions is one step of one request, and `close`
    may begin between any two steps. */
module WorkerController {
  import opened Foundations

  type Tid = nat

  /** `execute_operation` publishes a bundle; the inspection actions only return data. */
  datatype Kind = Operation | Inspection

  datatype Code = Capacity | Cancelled | Crashed | Timeout | ResourceLimit | ResultLimit | OtherHostFailure

  /** What the caller gets: an exception with a code, a typed operation failure, or success. */
  datatype Outcome = Raised(code: Code) | TypedFailure | Success

  datatype Cleanup = Running | StopOutput | Terminate | Wait | Kill | Close | Done

  /** An `_ActiveWorker`. */
  datatype Worker = Worker(state: Cleanup, closed: bool)

  /** Where a request is. Ending is the entry of the `finally` block, and the outcome from then on is
      that of the `try` block. A clean-up step that raises there ends the request as Lost, before or
      after its worker was unlisted: the caller gets that exception instead of the outcome, and the
      steps after it do not run. */
  datatype Pc =
    | Idle
    | Holding
    | Admitted
    | Prepared
    | Monitoring
    | Stopping(reason: Option<Code>)
    | Reaped(reason: Option<Code>)
    | Succeeded
    | Verified
    | Ending(outcome: Outcome)
    | Unlisted(outcome: Outcome)
    | Tidied(outcome: Outcome)
    | Ended(outcome: Outcome)
    | Lost(outcome: Outcome, unlisted: bool)

  datatype Request = Request(kind: Kind, pc: Pc, worker: Option<Worker>)

  datatype Event =
    | Acquired | Launched | Terminated | Awaited | Killed | ProcessReaped | BundleVerified | Published
    | NativeClosed | Released | CloseRaised | TidyRaised

  /** The log records (request, event) pairs; None in the log is the moment `_closed` is set. */
  datatype Controller = Controller(
    limit: nat, permits: nat, closed: bool, shutdown: bool, allDone: bool,
    active: set<Tid>, requests: map<Tid, Request>, log: seq<Option<(Tid, Event)>>)

  /** The steps; the arguments are what the environment decides. */
  datatype Action =
    | Acquire
    | CheckOpen
    | Prepare(failure: Option<Outcome>)
    | Launch(launched: bool)
    | Monitor(reason: Option<Code>)
    | Abort(code: Code)
    | CleanUp
    | Judge(failure: Option<Outcome>)
    | Verify(verified: bool)
    | Publish(cancelled: bool, renamed: bool)
    | CloseNative(raised: bool)
    | Unlist
    | Tidy(raised: bool)
    | Release

  function Rank(c: Cleanup): nat {
    match c
    case Running => 0 case StopOutput => 1 case Terminate => 2 case Wait => 3
    case Kill => 4 case Close => 5 case Done => 6
  }

  // ----- one step -----

  /** The next cleanup state of a stopping worker, None when `_cleanup_process` is done with it. */
  function NextCleanup(w: Worker, stopOutput: bool): Option<Cleanup> {
    match w.state
    case Running => if stopOutput then Some(StopOutput) else if w.closed then None else Some(Terminate)
    case StopOutput => if w.closed then None else Some(Terminate)
    case Terminate => Some(Wait)
    case Wait => Some(Kill)
    case _ => None
  }

  /** What entering a cleanup state does to the process tree. */
  function CleanupEvent(state: Cleanup): Option<Event> {
    match state
    case Terminate => Some(Terminated)
    case Wait => Some(Awaited)
    case Kill => Some(Killed)
    case _ => None
  }

  /** What a step makes of its request, and the event it records. */
  datatype Effect = Effect(request: Request, event: Option<Event>)

  function Goto(r: Request, pc: Pc): Option<Effect> {
    Some(Effect(r.(pc := pc), None))
  }

  function Emit(r: Request, pc: Pc, e: Event): Option<Effect> {
    Some(Effect(r.(pc := pc), Some(e)))
  }

  /** One step of a request that sees the closed and shutdown flags and whether a permit is free;
      None where the step is not enabled. */
  function Local(r: Request, a: Action, closed: bool, shutdown: bool, free: bool): Option<Effect> {
    match (a, r.pc)
    case (Acquire, Idle) =>
      if free then Emit(r, Holding, Acquired) else Goto(r, Ended(Raised(Capacity)))
    case (CheckOpen, Holding) => Goto(r, if closed then Ending(Raised(Cancelled)) else Admitted)
    case (Prepare(failure), Admitted) =>
      if failure == Some(Success) then None
      else Goto(r, if failure.Some? then Ending(failure.value) else Prepared)
    case (Launch(launched), Prepared) =>
      if closed then Goto(r, Ending(Raised(Cancelled)))
      else if !launched then Goto(r, Ending(Raised(Crashed)))
      else Emit(r.(worker := Some(Worker(Running, false))), Monitoring, Launched)
    case (Monitor(reason), Monitoring) => Goto(r, Stopping(reason))
    case (Abort(code), Monitoring) => Goto(r, Ending(Raised(code)))
    case (Abort(code), Stopping(_)) => Goto(r, Ending(Raised(code)))
    case (CleanUp, Stopping(reason)) =>
      if r.worker.None? then None
      else
        (match NextCleanup(r.worker.value, reason.Some?)
         case Some(state) => Some(Effect(r.(worker := Some(r.worker.value.(state := state))), CleanupEvent(state)))
         case None => Emit(r, Reaped(reason), ProcessReaped))
    case (Judge(failure), Reaped(reason)) =>
      if failure == Some(Success) then None
      else if failure == Some(Raised(ResultLimit)) then Goto(r, Ending(Raised(ResultLimit)))
      else if reason.Some? then Goto(r, Ending(Raised(reason.value)))
      else if shutdown then Goto(r, Ending(Raised(Cancelled)))
      else if failure.Some? then Goto(r, Ending(failure.value))
      else Goto(r, if r.kind.Operation? then Succeeded else Ending(Success))
    case (Verify(verified), Succeeded) =>
      if verified then Emit(r, Verified, BundleVerified) else Goto(r, Ending(TypedFailure))
    case (Publish(cancelled, renamed), Verified) =>
      if closed || cancelled then Goto(r, Ending(Raised(Cancelled)))
      else if !renamed then Goto(r, Ending(TypedFailure))
      else Emit(r, Ending(Success), Published)
    case (CloseNative(raised), Ending(outcome)) =>
      (match r.worker
       case Some(Worker(state, false)) =>
         if state != Close then Some(Effect(r.(worker := Some(Worker(Close, false))), None))
         else
           var done := r.(worker := Some(Worker(Done, true)));
           if raised then Emit(done, Lost(outcome, false), CloseRaised)
           else Some(Effect(done, Some(NativeClosed)))
       case _ => None)
    case (Unlist, Ending(outcome)) =>
      if r.worker.Some? && !r.worker.value.closed then None else Goto(r, Unlisted(outcome))
    case (Tidy(raised), Unlisted(outcome)) =>
      if raised then Emit(r, Lost(outcome, true), TidyRaised) else Goto(r, Tidied(outcome))
    case (Release, Tidied(outcome)) => Emit(r, Ended(outcome), Released)
    case _ => None
  }

  /** The effect on the controller: the semaphore, the active set and its event, and the log. */
  function Update(s: Controller, t: Tid, r: Request, e: Option<Event>): Controller {
    var listed :=
      if e == Some(Launched) then s.active + {t}
      else if r.pc.Unlisted? then s.active - {t} else s.active;
    s.(requests := s.requests[t := r],
       permits := if e == Some(Acquired) && s.permits > 0 then s.permits - 1
                  else if e == Some(Released) then s.permits + 1 else s.permits,
       active := listed,
       allDone := if e == Some(Launched) then false
                  else s.allDone || (r.pc.Unlisted? && r.worker.Some? && listed == {}),
       log := if e.Some? then s.log + [Some((t, e.value))] else s.log)
  }

  function Apply(s: Controller, t: Tid, a: Action): Option<Controller> {
    if t !in s.requests then None
    else
      match Local(s.requests[t], a, s.closed, s.shutdown, s.permits > 0)
      case None => None
      case Some(Effect(r, e)) => Some(Update(s, t, r, e))
  }

  /** The first lock region of `close`; a second call does nothing. */
  function BeginClose(s: Controller): Controller {
    if s.closed then s else s.(closed := true, shutdown := true, log := s.log + [None])
  }

  /** One scheduled step: a request's action, or the start of `close`. */
  datatype Scheduled = ByRequest(t: Tid, action: Action) | ByCloser

  function Next(s: Controller, x: Scheduled): Option<Controller> {
    match x
    case ByRequest(t, a) => Apply(s, t, a)
    case ByCloser => Some(BeginClose(s))
  }

  ghost predicate Initial(s: Controller) {
    && s.limit > 0 && s.permits == s.limit && !s.closed && !s.shutdown && s.allDone
    && s.active == {} && s.log == []
    && forall t :: t in s.requests ==> s.requests[t].pc == Idle && s.requests[t].worker == None
  }

  /** s' is reached from s by the schedule, every step of which is enabled. */
  ghost predicate Reaches(s: Controller, schedule: seq<Scheduled>, s': Controller)
    decreases |schedule|
  {
    if schedule == [] then s' == s
    else
      var last := |schedule| - 1;
      exists m: Controller :: Reaches(s, schedule[..last], m) && Next(m, schedule[last]) == Some(s')
  }

  // ----- what a request's history says -----

  function Project(log: seq<Option<(Tid, Event)>>, t: Tid): seq<Event> {
    if log == [] then []
    else
      var last := log[|log| - 1];
      var before := Project(log[..|log| - 1], t);
      if last.Some? && last.value.0 == t then before + [last.value.1] else before
  }

  ghost predicate Holds(r: Request) {
    !r.pc.Idle? && !r.pc.Ended?
  }

  /** The request has run to its end. */
  predicate Over(r: Request) {
    r.pc.Ended? || r.pc.Lost?
  }

  /** The worker has left the active set. */
  predicate HasLeft(pc: Pc) {
    pc.Unlisted? || pc.Tidied? || pc.Ended? || (pc.Lost? && pc.unlisted)
  }

  ghost predicate Listed(r: Request) {
    r.worker.Some? && !HasLeft(r.pc)
  }

  /** The events of the normal course of an operation, in order. */
  const COURSE: seq<Event> := [
    Acquired, Launched, Terminated, Awaited, Killed, ProcessReaped, BundleVerified, Published]

  /** Whether a request is past its try block. */
  predicate Finishing(r: Request) {
    r.pc.Ending? || r.pc.Unlisted? || r.pc.Tidied? || Over(r)
  }

  /** How many events of the course are behind a request that is still in its try block. */
  function Progress(r: Request): nat {
    match r.pc
    case Idle => 0
    case Holding => 1 case Admitted => 1 case Prepared => 1
    case Monitoring => 2
    case Stopping(_) => 2 + if r.worker.Some? && r.worker.value.state.Terminate? then 1
                            else if r.worker.Some? && r.worker.value.state.Wait? then 2
                            else if r.worker.Some? && r.worker.value.state.Kill? then 3 else 0
    case Reaped(_) => 6 case Succeeded => 6
    case _ => 7
  }

  /** The events that close a request. */
  function Closing(r: Request): seq<Event> {
    if r.pc.Lost? && !r.pc.unlisted then [CloseRaised]
    else
      (if r.worker.Some? && r.worker.value.closed then [NativeClosed] else [])
      + (if r.pc.Ended? then [Released] else if r.pc.Lost? then [TidyRaised] else [])
  }

  /** A request has passed the first n events of the course, launched its worker exactly if n says
      so, and recorded its closing events after them. Success has the whole course behind it, up to
      the reaped process for an inspection; nothing else is ever published. */
  ghost predicate CourseThen(r: Request, h: seq<Event>, n: nat) {
    && 1 <= n <= |COURSE|
    && h == COURSE[..n] + Closing(r)
    && (n >= 2 <==> r.worker.Some?)
    && (if !Finishing(r) then n == Progress(r)
        else if r.pc.outcome.Success? then n == if r.kind.Operation? then 8 else 6
        else n <= 7)
    && (n >= 6 ==> Rank(r.worker.value.state) >= Rank(Kill))
    && (r.pc.Succeeded? || r.pc.Verified? ==> r.kind.Operation?)
  }

  /** The history h of a request: empty before it starts and when it found no capacity. */
  ghost predicate HistoryOf(r: Request, h: seq<Event>) {
    if r.pc.Idle? then h == [] && r.worker.None?
    else (h == [] && r.pc == Ended(Raised(Capacity)) && r.worker.None?) || exists n: nat :: CourseThen(r, h, n)
  }

  /** A worker's cleanup state and closed flag agree, closing starts only in `finally`, and a close
      that raised had a worker to close. */
  ghost predicate WorkerOk(r: Request) {
    && (r.worker.Some? ==>
          && (r.worker.value.closed <==> r.worker.value.state == Done)
          && (r.worker.value.state == Close || r.worker.value.state == Done ==> Finishing(r))
          && (HasLeft(r.pc) || r.pc.Lost? ==> r.worker.value.closed))
    && (r.pc.Lost? && !r.pc.unlisted ==> r.worker.Some?)
    && (r.worker.Some? ==> StoppedInOrder(r.pc, r.worker.value))
  }

  /** Before `finally` a worker runs until it is stopped, its output is cut off only for a reason, and it
      is reaped only after the kill. */
  ghost predicate StoppedInOrder(pc: Pc, w: Worker) {
    match pc
    case Monitoring => w == Worker(Running, false)
    case Stopping(reason) =>
      && w.state in {Running, StopOutput, Terminate, Wait, Kill} && !w.closed
      && (w.state == StopOutput ==> reason.Some?)
    case Reaped(_) => w == Worker(Kill, false)
    case Succeeded => w == Worker(Kill, false)
    case Verified => w == Worker(Kill, false)
    case _ => true
  }

  // ----- the invariant -----

  ghost function Holders(s: Controller): set<Tid> {
    set t | t in s.requests && Holds(s.requests[t])
  }

  ghost predicate CapacityInv(s: Controller) {
    s.permits + |Holders(s)| == s.limit
  }

  ghost predicate ActiveInv(s: Controller) {
    && (s.allDone <==> s.active == {})
    && (forall t :: t in s.active <==> t in s.requests && Listed(s.requests[t]))
  }

  ghost predicate RequestsInv(s: Controller) {
    forall t :: t in s.requests ==> WorkerOk(s.requests[t]) && HistoryOf(s.requests[t], Project(s.log, t))
  }

  predicate IsPublicStep(e: Option<(Tid, Event)>) {
    e.Some? && (e.value.1.Launched? || e.value.1.Published?)
  }

  ghost predicate CloseInv(s: Controller) {
    && s.closed == s.shutdown
    && (s.closed <==> None in s.log)
    && forall i, j :: 0 <= i < j < |s.log| && s.log[i] == None ==> s.log[j] != None && !IsPublicStep(s.log[j])
  }

  ghost predicate Inv(s: Controller) {
    CapacityInv(s) && ActiveInv(s) && RequestsInv(s) && CloseInv(s)
  }

  // ----- every step keeps it -----

  lemma {:induction false} LocalKeepsCloseSafe(r: Request, a: Action, closed: bool, shutdown: bool, free: bool)
    requires Local(r, a, closed, shutdown, free).Some?
    ensures var e := Local(r, a, closed, shutdown, free).value.event;
      closed ==> e != Some(Launched) && e != Some(Published)
  {
  }

  lemma {:induction false} StepKeepsCloseInv(s: Controller, t: Tid, a: Action)
    requires CloseInv(s) && Apply(s, t, a).Some?
    ensures CloseInv(Apply(s, t, a).value)
  {
    LocalKeepsCloseSafe(s.requests[t], a, s.closed, s.shutdown, s.permits > 0);
    var e := Local(s.requests[t], a, s.closed, s.shutdown, s.permits > 0).value.event;
    LogKeepsCloseInv(s.log, t, e, s.closed);
  }

  lemma {:induction false} LogKeepsCloseInv(log: seq<Option<(Tid, Event)>>, t: Tid, e: Option<Event>, closed: bool)
    requires closed <==> None in log
    requires forall i, j :: 0 <= i < j < |log| && log[i] == None ==> log[j] != None && !IsPublicStep(log[j])
    requires closed ==> e != Some(Launched) && e != Some(Published)
    ensures var log' := if e.Some? then log + [Some((t, e.value))] else log;
      && (closed <==> None in log')
      && forall i, j :: 0 <= i < j < |log'| && log'[i] == None ==> log'[j] != None && !IsPublicStep(log'[j])
  {
  }

  lemma {:induction false} LocalKeepsPermits(r: Request, a: Action, closed: bool, shutdown: bool, free: bool)
    requires Local(r, a, closed, shutdown, free).Some?
    ensures var Effect(r', e) := Local(r, a, closed, shutdown, free).value;
      && (e == Some(Acquired) ==> free && !Holds(r) && Holds(r'))
      && (e == Some(Released) ==> Holds(r) && !Holds(r'))
      && (e != Some(Acquired) && e != Some(Released) ==> Holds(r) == Holds(r'))
  {
  }

  lemma {:induction false} StepKeepsCapacityInv(s: Controller, t: Tid, a: Action)
    requires CapacityInv(s) && Apply(s, t, a).Some?
    ensures CapacityInv(Apply(s, t, a).value)
  {
    LocalKeepsPermits(s.requests[t], a, s.closed, s.shutdown, s.permits > 0);
    HoldersAfter(s, t, Apply(s, t, a).value);
  }

  lemma {:induction false} HoldersAfter(s: Controller, t: Tid, s': Controller)
    requires t in s.requests && t in s'.requests && s'.requests == s.requests[t := s'.requests[t]]
    ensures |Holders(s')| + (if Holds(s.requests[t]) then 1 else 0)
         == |Holders(s)| + (if Holds(s'.requests[t]) then 1 else 0)
  {
    var others := Holders(s) - {t};
    assert Holders(s) == if Holds(s.requests[t]) then others + {t} else others;
    assert Holders(s') == if Holds(s'.requests[t]) then others + {t} else others;
  }

  lemma {:induction false} LocalKeepsListing(r: Request, a: Action, closed: bool, shutdown: bool, free: bool)
    requires Local(r, a, closed, shutdown, free).Some? && WorkerOk(r)
    requires r.pc.Idle? || r.pc.Prepared? ==> r.worker.None?
    ensures var Effect(r', e) := Local(r, a, closed, shutdown, free).value;
      && (e == Some(Launched) ==> Listed(r'))
      && (r'.pc.Unlisted? ==> !Listed(r'))
      && (e != Some(Launched) && !r'.pc.Unlisted? ==> Listed(r) == Listed(r'))
      && (e == Some(Launched) ==> !r'.pc.Unlisted?)
      && (r'.pc.Unlisted? && r'.worker.None? ==> !Listed(r))
  {
  }

  lemma {:induction false} HistoryBeforeLaunch(r: Request, h: seq<Event>)
    requires HistoryOf(r, h) && (r.pc.Idle? || r.pc.Holding? || r.pc.Admitted? || r.pc.Prepared?)
    ensures r.worker.None?
  {
  }

  lemma {:induction false} StepKeepsActiveInv(s: Controller, t: Tid, a: Action)
    requires ActiveInv(s) && RequestsInv(s) && Apply(s, t, a).Some?
    ensures ActiveInv(Apply(s, t, a).value)
  {
    var r := s.requests[t];
    assert WorkerOk(r) && HistoryOf(r, Project(s.log, t));
    if r.pc.Idle? || r.pc.Prepared? {
      HistoryBeforeLaunch(r, Project(s.log, t));
    }
    LocalKeepsListing(r, a, s.closed, s.shutdown, s.permits > 0);
    var s' := Apply(s, t, a).value;
    forall u ensures u in s'.active <==> u in s'.requests && Listed(s'.requests[u]) {
      assert u != t && u in s.requests ==> s'.requests[u] == s.requests[u];
    }
    if s'.requests[t].pc.Unlisted? && s'.requests[t].worker.None? {
      assert s.active - {t} == s.active;
    }
  }

  lemma {:induction false} ProjectAppend(log: seq<Option<(Tid, Event)>>, e: Option<(Tid, Event)>, t: Tid)
    ensures Project(log + [e], t) ==
      if e.Some? && e.value.0 == t then Project(log, t) + [e.value.1] else Project(log, t)
  {
    assert (log + [e])[..|log|] == log;
  }

  lemma {:induction false} LocalKeepsWorkerOk(r: Request, a: Action, closed: bool, shutdown: bool, free: bool)
    requires Local(r, a, closed, shutdown, free).Some? && WorkerOk(r)
    requires r.pc.Idle? ==> r.worker.None?
    ensures WorkerOk(Local(r, a, closed, shutdown, free).value.request)
  {
  }

  /** The history of a request after a step: the old one with the step's event. */
  lemma {:induction false} LocalKeepsHistory(r: Request, a: Action, closed: bool, shutdown: bool, free: bool,
                                             h: seq<Event>)
    requires Local(r, a, closed, shutdown, free).Some? && WorkerOk(r) && HistoryOf(r, h)
    ensures var Effect(r', e) := Local(r, a, closed, shutdown, free).value;
      HistoryOf(r', if e.Some? then h + [e.value] else h)
  {
    var Effect(r', e) := Local(r, a, closed, shutdown, free).value;
    var h' := if e.Some? then h + [e.value] else h;
    if r.pc.Idle? {
      if free {
        assert h' == COURSE[..1] + Closing(r');
        assert CourseThen(r', h', 1);
      }
    } else {
      var n: nat :| CourseThen(r, h, n);
      var n' := if e.Some? && e.value in COURSE then n + 1 else n;
      CourseAdvances(r, a, closed, shutdown, free, h, n);
      assert CourseThen(r', h', n');
    }
  }

  lemma {:induction false} CourseAdvances(r: Request, a: Action, closed: bool, shutdown: bool, free: bool,
                                          h: seq<Event>, n: nat)
    requires Local(r, a, closed, shutdown, free).Some? && WorkerOk(r) && CourseThen(r, h, n) && !r.pc.Idle?
    ensures var Effect(r', e) := Local(r, a, closed, shutdown, free).value;
      CourseThen(r', if e.Some? then h + [e.value] else h, if e.Some? && e.value in COURSE then n + 1 else n)
  {
    var Effect(r', e) := Local(r, a, closed, shutdown, free).value;
    if e.Some? && e.value in COURSE {
      if a.CleanUp? {
        CleanupCourseEvent(r, closed, shutdown, free, n);
      } else {
        CourseEvent(r, a, closed, shutdown, free, n);
      }
      CourseGrows(n);
    } else {
      ClosingEvent(r, a, closed, shutdown, free, n);
    }
  }

  lemma {:induction false} CourseGrows(n: nat)
    requires n < |COURSE|
    ensures COURSE[..n] + [] + [COURSE[n]] == COURSE[..n + 1] + []
  {
  }

  /** The next event of the course is recorded while nothing of the closing is. */
  ghost predicate NextOfCourse(r: Request, r': Request, e: Event, n: nat) {
    && n < 8 && e == COURSE[n] && Closing(r) == [] && Closing(r') == []
    && CourseThen(r', COURSE[..n + 1] + Closing(r'), n + 1)
  }

  lemma {:induction false} CleanupCourseEvent(r: Request, closed: bool, shutdown: bool, free: bool, n: nat)
    requires Local(r, CleanUp, closed, shutdown, free).Some? && WorkerOk(r) && !r.pc.Idle?
    requires n <= |COURSE| && CourseThen(r, COURSE[..n] + Closing(r), n)
    requires var e := Local(r, CleanUp, closed, shutdown, free).value.event; e.Some? && e.value in COURSE
    ensures var Effect(r', e) := Local(r, CleanUp, closed, shutdown, free).value; NextOfCourse(r, r', e.value, n)
  {
  }

  lemma {:induction false} CourseEvent(r: Request, a: Action, closed: bool, shutdown: bool, free: bool, n: nat)
    requires Local(r, a, closed, shutdown, free).Some? && WorkerOk(r) && !r.pc.Idle? && !a.CleanUp?
    requires n <= |COURSE| && CourseThen(r, COURSE[..n] + Closing(r), n)
    requires var e := Local(r, a, closed, shutdown, free).value.event; e.Some? && e.value in COURSE
    ensures var Effect(r', e) := Local(r, a, closed, shutdown, free).value; NextOfCourse(r, r', e.value, n)
  {
  }

  lemma {:induction false} ClosingEvent(r: Request, a: Action, closed: bool, shutdown: bool, free: bool, n: nat)
    requires Local(r, a, closed, shutdown, free).Some? && WorkerOk(r) && !r.pc.Idle?
    requires n <= |COURSE| && CourseThen(r, COURSE[..n] + Closing(r), n)
    requires var e := Local(r, a, closed, shutdown, free).value.event; e.None? || e.value !in COURSE
    ensures var Effect(r', e) := Local(r, a, closed, shutdown, free).value;
      && Closing(r') == Closing(r) + (if e.Some? then [e.value] else [])
      && CourseThen(r', COURSE[..n] + Closing(r'), n)
  {
  }

  lemma {:induction false} StepKeepsRequestsInv(s: Controller, t: Tid, a: Action)
    requires RequestsInv(s) && Apply(s, t, a).Some?
    ensures RequestsInv(Apply(s, t, a).value)
  {
    var s' := Apply(s, t, a).value;
    var e := Local(s.requests[t], a, s.closed, s.shutdown, s.permits > 0).value.event;
    forall u | u in s'.requests
      ensures WorkerOk(s'.requests[u]) && HistoryOf(s'.requests[u], Project(s'.log, u))
    {
      assert WorkerOk(s.requests[u]) && HistoryOf(s.requests[u], Project(s.log, u));
      if e.Some? {
        ProjectAppend(s.log, Some((t, e.value)), u);
      }
      if u == t {
        LocalKeepsHistory(s.requests[t], a, s.closed, s.shutdown, s.permits > 0, Project(s.log, t));
        LocalKeepsWorkerOk(s.requests[t], a, s.closed, s.shutdown, s.permits > 0);
      }
    }
  }

  lemma {:induction false} BeginCloseKeepsInv(s: Controller)
    requires Inv(s)
    ensures Inv(BeginClose(s))
  {
    var s' := BeginClose(s);
    if !s.closed {
      forall t | t in s.requests ensures Project(s'.log, t) == Project(s.log, t) {
        ProjectAppend(s.log, None, t);
      }
      assert Holders(s') == Holders(s);
    }
  }

  lemma {:induction false} NextKeepsInv(s: Controller, x: Scheduled)
    requires Inv(s) && Next(s, x).Some?
    ensures Inv(Next(s, x).value)
  {
    match x
    case ByCloser => BeginCloseKeepsInv(s);
    case ByRequest(t, a) =>
      StepKeepsCloseInv(s, t, a);
      StepKeepsCapacityInv(s, t, a);
      StepKeepsActiveInv(s, t, a);
      StepKeepsRequestsInv(s, t, a);
  }

  lemma {:induction false} InitialHasInv(s: Controller)
    requires Initial(s)
    ensures Inv(s)
  {
    assert Holders(s) == {};
  }

  /** The invariant holds after every interleaving. */
  lemma {:induction false} ReachableHasInv(s0: Controller, schedule: seq<Scheduled>, s: Controller)
    requires Initial(s0) && Reaches(s0, schedule, s)
    ensures Inv(s)
    decreases |schedule|
  {
    if schedule == [] {
      InitialHasInv(s0);
    } else {
      var last := |schedule| - 1;
      var m: Controller :| Reaches(s0, schedule[..last], m) && Next(m, schedule[last]) == Some(s);
      ReachableHasInv(s0, schedule[..last], m);
      NextKeepsInv(m, schedule[last]);
    }
  }

  // ----- what holds over every interleaving -----

  /** Requests holding capacity never exceed the limit, the semaphore accounts for every one of
      them, and the all-done event is set exactly while no worker is listed. */
  lemma {:induction false} CapacityIsBounded(s0: Controller, schedule: seq<Scheduled>, s: Controller)
    requires Initial(s0) && Reaches(s0, schedule, s)
    ensures |Holders(s)| <= s.limit && s.permits == s.limit - |Holders(s)|
    ensures s.allDone <==> s.active == {}
  {
    ReachableHasInv(s0, schedule, s);
  }

  /** Once `close` has set the flag, no worker is launched and no bundle is published. */
  lemma {:induction false} NothingStartsAfterClose(s0: Controller, schedule: seq<Scheduled>, s: Controller, i: int,
                                                   j: int)
    requires Initial(s0) && Reaches(s0, schedule, s)
    requires 0 <= i < j < |s.log| && s.log[i] == None
    ensures s.log[j].Some? && !s.log[j].value.1.Launched? && !s.log[j].value.1.Published?
  {
    ReachableHasInv(s0, schedule, s);
  }

  /** How a history ends: with the release, or with the clean-up step that raised. */
  ghost predicate IsEnding(tail: seq<Event>, launched: bool) {
    || tail == (if launched then [NativeClosed] else []) + [Released]
    || tail == (if launched then [NativeClosed] else []) + [TidyRaised]
    || (launched && tail == [CloseRaised])
  }

  /** The first n events of the course and an ending. */
  ghost predicate IsFinishedCourse(h: seq<Event>, n: nat) {
    1 <= n <= 8 && n <= |h| && h[..n] == COURSE[..n] && IsEnding(h[n..], n >= 2)
  }

  /** A finished request that acquired capacity released it exactly if no clean-up step raised, and
      at most once; a launched worker's native handle was closed exactly once, or its close raised; an
      operation's try block succeeded exactly if its bundle was published, which happened once, after
      its process was reaped and its bundle verified. */
  lemma {:induction false} FinishedRequestHistory(s0: Controller, schedule: seq<Scheduled>, s: Controller, t: Tid)
    requires Initial(s0) && Reaches(s0, schedule, s)
    requires t in s.requests && Over(s.requests[t])
    ensures var h, r := Project(s.log, t), s.requests[t];
      && (h == [] ==> r.pc == Ended(Raised(Capacity)))
      && (h != [] ==> exists n: nat :: IsFinishedCourse(h, n))
      && (h != [] ==> (Released in h <==> CloseRaised !in h && TidyRaised !in h))
      && (h != [] ==> (Released in h <==> r.pc.Ended?))
      && (r.pc == Ended(Success) && r.kind.Operation? ==> h == COURSE + [NativeClosed, Released])
      && (r.pc == Ended(Success) && r.kind.Inspection? ==>
            h == [Acquired, Launched, Terminated, Awaited, Killed, ProcessReaped, NativeClosed, Released])
      && (Published in h <==> h != [] && r.pc.outcome.Success? && r.kind.Operation?)
      && (ProcessReaped in h ==> Terminated in h && Awaited in h && Killed in h)
  {
    ReachableHasInv(s0, schedule, s);
    var r, h := s.requests[t], Project(s.log, t);
    assert WorkerOk(r) && HistoryOf(r, h);
    if h != [] {
      var n: nat :| CourseThen(r, h, n);
      FinishedCourse(r, h, n);
    }
  }

  lemma {:induction false} EventsOfFinished(n: nat, tail: seq<Event>)
    requires n <= 8 && Published !in tail && ProcessReaped !in tail
    ensures var h := COURSE[..n] + tail;
      && (Released in h <==> Released in tail)
      && (CloseRaised in h <==> CloseRaised in tail)
      && (TidyRaised in h <==> TidyRaised in tail)
      && (Published in h <==> n == 8)
      && (ProcessReaped in h ==> Terminated in h && Awaited in h && Killed in h)
  {
    CourseHasNoClosing(n);
    KillingComesFirst(n);
    assert forall e :: e in COURSE[..n] + tail <==> e in COURSE[..n] || e in tail;
  }

  lemma {:induction false} WholeCourses(n: nat)
    requires n == 6 || n == 8
    ensures n == 8 ==> COURSE[..n] + [NativeClosed, Released] == COURSE + [NativeClosed, Released]
    ensures n == 6 ==>
              COURSE[..n] + [NativeClosed, Released]
              == [Acquired, Launched, Terminated, Awaited, Killed, ProcessReaped, NativeClosed, Released]
  {
  }

  lemma {:induction false} FinishedCourse(r: Request, h: seq<Event>, n: nat)
    requires Over(r) && WorkerOk(r) && CourseThen(r, h, n)
    ensures IsFinishedCourse(h, n)
    ensures Released in h <==> CloseRaised !in h && TidyRaised !in h
    ensures Released in h <==> r.pc.Ended?
    ensures r.pc.Ended? && n == 8 ==> h == COURSE + [NativeClosed, Released]
    ensures r.pc.Ended? && n == 6 ==>
              h == [Acquired, Launched, Terminated, Awaited, Killed, ProcessReaped, NativeClosed, Released]
    ensures Published in h <==> n == 8
    ensures ProcessReaped in h ==> Terminated in h && Awaited in h && Killed in h
  {
    var tail := Closing(r);
    ClosingOfOver(r);
    EventsOfFinished(n, tail);
    assert h[..n] == COURSE[..n] && h[n..] == tail;
    if r.pc.Ended? && n >= 6 {
      assert tail == [NativeClosed, Released];
      if n == 6 || n == 8 {
        WholeCourses(n);
      }
    }
  }

  lemma {:induction false} KillingComesFirst(n: nat)
    requires n <= 8
    ensures ProcessReaped in COURSE[..n] ==>
              n >= 6 && Terminated in COURSE[..n] && Awaited in COURSE[..n] && Killed in COURSE[..n]
  {
    assert forall i :: 0 <= i < 8 && i != 5 ==> COURSE[i] != ProcessReaped;
    if n >= 6 {
      assert COURSE[..n][2] == Terminated && COURSE[..n][3] == Awaited && COURSE[..n][4] == Killed;
    }
  }

  lemma {:induction false} ClosingOfOver(r: Request)
    requires Over(r) && WorkerOk(r)
    ensures IsEnding(Closing(r), r.worker.Some?)
    ensures Published !in Closing(r) && ProcessReaped !in Closing(r)
    ensures Released in Closing(r) <==> CloseRaised !in Closing(r) && TidyRaised !in Closing(r)
    ensures Released in Closing(r) <==> r.pc.Ended?
  {
  }

  lemma {:induction false} CourseHasNoClosing(n: nat)
    requires n <= 8
    ensures Released !in COURSE[..n] && CloseRaised !in COURSE[..n] && TidyRaised !in COURSE[..n]
    ensures Published in COURSE[..n] <==> n == 8
  {
    assert forall i :: 0 <= i < 7 ==> COURSE[i] != Published;
    assert COURSE[7] == Published;
    if n == 8 {
      assert COURSE[..n][7] == Published;
    }
  }

  /** One step never moves a worker's cleanup state back, forgets a worker or reopens it. */
  lemma {:induction false} CleanupMovesForward(s: Controller, x: Scheduled, t: Tid)
    requires Inv(s) && Next(s, x).Some? && t in s.requests && s.requests[t].worker.Some?
    ensures var s' := Next(s, x).value;
      && t in s'.requests && s'.requests[t].worker.Some?
      && Rank(s.requests[t].worker.value.state) <= Rank(s'.requests[t].worker.value.state)
      && (s.requests[t].worker.value.closed ==> s'.requests[t].worker.value.closed)
  {
    var r := s.requests[t];
    assert WorkerOk(r) && HistoryOf(r, Project(s.log, t));
    if r.pc.Prepared? {
      HistoryBeforeLaunch(r, Project(s.log, t));
    }
    if x.ByRequest? && x.t == t {
      LocalMovesForward(r, x.action, s.closed, s.shutdown, s.permits > 0);
    }
  }

  lemma {:induction false} LocalMovesForward(r: Request, a: Action, closed: bool, shutdown: bool, free: bool)
    requires Local(r, a, closed, shutdown, free).Some? && WorkerOk(r)
    requires r.worker.Some? && !r.pc.Prepared?
    ensures var r' := Local(r, a, closed, shutdown, free).value.request;
      && r'.worker.Some? && Rank(r.worker.value.state) <= Rank(r'.worker.value.state)
      && (r.worker.value.closed ==> r'.worker.value.closed)
  {
  }

  /** Over every interleaving a reaped process was terminated, waited for and killed, in this order and
      before it was reaped, whatever it was stopped for. */
  lemma {:induction false} ReapedWasKilled(s0: Controller, schedule: seq<Scheduled>, s: Controller, t: Tid)
    requires Initial(s0) && Reaches(s0, schedule, s) && t in s.requests
    requires ProcessReaped in Project(s.log, t)
    ensures [Acquired, Launched, Terminated, Awaited, Killed, ProcessReaped] <= Project(s.log, t)
    ensures s.requests[t].worker.Some? && Rank(s.requests[t].worker.value.state) >= Rank(Kill)
  {
    ReachableHasInv(s0, schedule, s);
    var r, h := s.requests[t], Project(s.log, t);
    assert WorkerOk(r) && HistoryOf(r, h);
    var n: nat :| CourseThen(r, h, n);
    ReapedIsLate(n, Closing(r));
  }

  lemma {:induction false} ReapedIsLate(n: nat, tail: seq<Event>)
    requires n <= 8 && ProcessReaped in COURSE[..n] + tail && ProcessReaped !in tail
    ensures n >= 6
    ensures [Acquired, Launched, Terminated, Awaited, Killed, ProcessReaped] <= COURSE[..n] + tail
  {
    KillingComesFirst(n);
    assert COURSE[..6] == [Acquired, Launched, Terminated, Awaited, Killed, ProcessReaped];
    assert (COURSE[..n] + tail)[..6] == COURSE[..6];
  }

  /** A worker that is being stopped goes on one state at a time: its output is cut off first if there is
      a reason, then come termination, waiting and the kill. */
  lemma {:induction false} StoppingStepByStep(s: Controller, t: Tid)
    requires Inv(s) && t in s.requests && s.requests[t].pc.Stopping?
    ensures var r := s.requests[t];
      var next := Apply(s, t, CleanUp);
      && r.worker.Some? && next.Some?
      && var r' := next.value.requests[t];
         match r.worker.value.state
         case Running =>
           r'.pc == r.pc && r'.worker.value.state == if r.pc.reason.Some? then StopOutput else Terminate
         case StopOutput => r'.pc == r.pc && r'.worker.value.state == Terminate
         case Terminate => r'.pc == r.pc && r'.worker.value.state == Wait
         case Wait => r'.pc == r.pc && r'.worker.value.state == Kill
         case Kill => r'.pc == Reaped(r.pc.reason) && r'.worker == r.worker
         case _ => false
  {
    var r := s.requests[t];
    assert WorkerOk(r) && HistoryOf(r, Project(s.log, t));
    StoppingHasWorker(r, Project(s.log, t));
  }

  // ----- outcomes are earned -----

  /** The actions of one request. */
  function OwnActions(schedule: seq<Scheduled>, t: Tid): seq<Action> {
    if schedule == [] then []
    else
      var last := schedule[|schedule| - 1];
      OwnActions(schedule[..|schedule| - 1], t) + if last.ByRequest? && last.t == t then [last.action] else []
  }

  /** What must have gone well for a request to be where it is. */
  ghost predicate Earned(r: Request, acts: seq<Action>, closed: bool) {
    match r.pc
    case Idle => true
    case Holding => true
    case Admitted => true
    case Prepared => Prepare(None) in acts
    case Monitoring => Prepare(None) in acts && Launch(true) in acts
    case Stopping(reason) => Prepare(None) in acts && Launch(true) in acts && Monitor(reason) in acts
    case Reaped(reason) => Prepare(None) in acts && Launch(true) in acts && Monitor(reason) in acts
    case Succeeded =>
      Prepare(None) in acts && Launch(true) in acts && Monitor(None) in acts && Judge(None) in acts
    case Verified =>
      && Prepare(None) in acts && Launch(true) in acts && Monitor(None) in acts && Judge(None) in acts
      && Verify(true) in acts
    case Ended(outcome) => (outcome == Raised(Capacity) && acts == [Acquire]) || Accounts(r.kind, outcome, acts, closed)
    case _ => Accounts(r.kind, r.pc.outcome, acts, closed)
  }

  /** What accounts for the outcome of the `try` block: success takes every step to have gone well, and a
      failure is one that some step reported; a cancellation, if none did, is that of the closed flag. */
  ghost predicate Accounts(kind: Kind, outcome: Outcome, acts: seq<Action>, closed: bool) {
    match outcome
    case Success =>
      && Prepare(None) in acts && Launch(true) in acts && Monitor(None) in acts && Judge(None) in acts
      && (kind.Operation? ==> Verify(true) in acts && Publish(false, true) in acts)
    case TypedFailure =>
      || Prepare(Some(TypedFailure)) in acts || Judge(Some(TypedFailure)) in acts || Verify(false) in acts
      || Publish(false, false) in acts
    case Raised(code) =>
      || (code.Cancelled? && (closed || Publish(true, true) in acts || Publish(true, false) in acts))
      || (code.Crashed? && Launch(false) in acts)
      || Prepare(Some(outcome)) in acts || Abort(code) in acts || Monitor(Some(code)) in acts
      || Judge(Some(outcome)) in acts
  }

  /** A request is monitored once, and a reason to stop it is the one it fails with, unless its result is
      over the limit or its cleanup raised. */
  ghost predicate ReasonIsKept(r: Request, acts: seq<Action>) {
    && (r.pc.Idle? ==> acts == [])
    && (r.pc.Holding? || r.pc.Admitted? || r.pc.Prepared? || r.pc.Monitoring? ==>
          forall reason :: Monitor(reason) !in acts)
    && (r.pc.Stopping? || r.pc.Reaped? ==> forall reason :: Monitor(reason) in acts ==> reason == r.pc.reason)
    && (r.pc.Succeeded? || r.pc.Verified? ==> forall reason :: Monitor(reason) in acts ==> reason == None)
    && (Finishing(r) ==>
          forall code :: Monitor(Some(code)) in acts ==>
            || r.pc.outcome == Raised(code) || r.pc.outcome == Raised(ResultLimit)
            || (r.pc.outcome.Raised? && Abort(r.pc.outcome.code) in acts))
  }

  lemma {:induction false} LocalKeepsEarned(r: Request, a: Action, closed: bool, shutdown: bool, free: bool,
                                            acts: seq<Action>, more: seq<Action>)
    requires Local(r, a, closed, shutdown, free).Some? && Earned(r, acts, closed) && closed == shutdown
    requires r.pc.Idle? ==> acts == []
    requires more == acts + [a]
    ensures Earned(Local(r, a, closed, shutdown, free).value.request, more, closed)
  {
    assert forall x :: x in acts ==> x in more;
    assert a in more;
  }

  lemma {:induction false} LocalKeepsReason(r: Request, a: Action, closed: bool, shutdown: bool, free: bool,
                                            acts: seq<Action>, more: seq<Action>)
    requires Local(r, a, closed, shutdown, free).Some? && ReasonIsKept(r, acts)
    requires forall x :: x in more <==> x in acts || x == a
    requires r.pc.Idle? ==> more == [a]
    ensures ReasonIsKept(Local(r, a, closed, shutdown, free).value.request, more)
  {
    var r' := Local(r, a, closed, shutdown, free).value.request;
    forall reason | Monitor(reason) in more ensures Monitor(reason) in acts || a == Monitor(reason) {
    }
  }

  /** Over every interleaving: success means that every step of the request went well, a failure is one
      that a step reported, and what a worker was stopped for is what its request fails with. */
  lemma {:induction false} OutcomesAreEarned(s0: Controller, schedule: seq<Scheduled>, s: Controller, t: Tid)
    requires Initial(s0) && Reaches(s0, schedule, s) && t in s.requests
    ensures Earned(s.requests[t], OwnActions(schedule, t), s.closed)
    ensures ReasonIsKept(s.requests[t], OwnActions(schedule, t))
    decreases |schedule|
  {
    if schedule != [] {
      var last := |schedule| - 1;
      var m: Controller :| Reaches(s0, schedule[..last], m) && Next(m, schedule[last]) == Some(s);
      OutcomesAreEarned(s0, schedule[..last], m, t);
      var x := schedule[last];
      if x.ByRequest? && x.t == t {
        var acts := OwnActions(schedule[..last], t);
        ReachableHasInv(s0, schedule[..last], m);
        LocalKeepsEarned(m.requests[t], x.action, m.closed, m.shutdown, m.permits > 0, acts, acts + [x.action]);
        LocalKeepsReason(m.requests[t], x.action, m.closed, m.shutdown, m.permits > 0, acts, acts + [x.action]);
      } else {
        assert OwnActions(schedule, t) == OwnActions(schedule[..last], t);
      }
    }
  }

  // ----- no request runs forever or gets stuck -----

  function PcRank(pc: Pc): nat {
    match pc
    case Idle => 12 case Holding => 11 case Admitted => 10 case Prepared => 9
    case Monitoring => 8 case Stopping(_) => 7 case Reaped(_) => 6
    case Succeeded => 5 case Verified => 4 case Ending(_) => 3 case Unlisted(_) => 2 case Tidied(_) => 1
    case _ => 0
  }

  function Measure(r: Request): nat {
    8 * PcRank(r.pc) + match r.worker case None => 7 case Some(w) => 6 - Rank(w.state)
  }

  lemma {:induction false} LocalDecreasesMeasure(r: Request, a: Action, closed: bool, shutdown: bool, free: bool)
    requires Local(r, a, closed, shutdown, free).Some? && WorkerOk(r)
    ensures Measure(Local(r, a, closed, shutdown, free).value.request) < Measure(r)
  {
  }

  function OwnSteps(schedule: seq<Scheduled>, t: Tid): nat {
    if schedule == [] then 0
    else
      var last := schedule[|schedule| - 1];
      OwnSteps(schedule[..|schedule| - 1], t) + if last.ByRequest? && last.t == t then 1 else 0
  }

  /** Under any interleaving a request takes at most 103 steps of its own. */
  lemma {:induction false} RequestsAreBounded(s0: Controller, schedule: seq<Scheduled>, s: Controller, t: Tid)
    requires Initial(s0) && Reaches(s0, schedule, s) && t in s0.requests
    ensures t in s.requests && OwnSteps(schedule, t) + Measure(s.requests[t]) <= 103
    decreases |schedule|
  {
    if schedule != [] {
      var last := |schedule| - 1;
      var m: Controller :| Reaches(s0, schedule[..last], m) && Next(m, schedule[last]) == Some(s);
      RequestsAreBounded(s0, schedule[..last], m, t);
      ReachableHasInv(s0, schedule[..last], m);
      assert WorkerOk(m.requests[t]);
      if schedule[last].ByRequest? && schedule[last].t == t {
        LocalDecreasesMeasure(m.requests[t], schedule[last].action, m.closed, m.shutdown, m.permits > 0);
      }
    }
  }

  lemma {:induction false} LocalIsNeverStuck(r: Request, closed: bool, shutdown: bool, free: bool)
    requires WorkerOk(r) && !Over(r) && (r.pc.Stopping? ==> r.worker.Some?)
    ensures Local(r, GoodAction(r), closed, shutdown, free).Some?
  {
  }

  lemma {:induction false} StoppingHasWorker(r: Request, h: seq<Event>)
    requires HistoryOf(r, h) && r.pc.Stopping?
    ensures r.worker.Some?
  {
  }

  /** Every unfinished request can take a step, whatever the others and the closer have done. */
  lemma {:induction false} NeverStuck(s: Controller, t: Tid)
    requires Inv(s) && t in s.requests && !Over(s.requests[t])
    ensures exists a: Action :: Apply(s, t, a).Some?
  {
    var r := s.requests[t];
    assert WorkerOk(r) && HistoryOf(r, Project(s.log, t));
    if r.pc.Stopping? {
      StoppingHasWorker(r, Project(s.log, t));
    }
    LocalIsNeverStuck(r, s.closed, s.shutdown, s.permits > 0);
    assert Apply(s, t, GoodAction(r)).Some?;
  }

  /** A request on its way to success, in a controller that stays open. */
  ghost predicate OnCourse(r: Request) {
    && r.kind.Operation?
    && match r.pc
       case Idle => r.worker.None?
       case Holding => r.worker.None?
       case Admitted => r.worker.None?
       case Prepared => r.worker.None?
       case Monitoring => r.worker == Some(Worker(Running, false))
       case Stopping(reason) =>
         reason.None? && r.worker.Some? && !r.worker.value.closed
         && r.worker.value.state in {Running, Terminate, Wait, Kill}
       case Reaped(reason) => reason.None? && r.worker == Some(Worker(Kill, false))
       case Succeeded => r.worker == Some(Worker(Kill, false))
       case Verified => r.worker == Some(Worker(Kill, false))
       case Ending(outcome) =>
         outcome.Success? && r.worker.Some?
         && r.worker.value in {Worker(Kill, false), Worker(Close, false), Worker(Done, true)}
       case Unlisted(outcome) => outcome.Success?
       case Tidied(outcome) => outcome.Success?
       case Ended(outcome) => outcome.Success?
       case Lost(_, _) => false
  }

  ghost function StepsLeft(r: Request): nat {
    match r.pc
    case Idle => 21 case Holding => 20 case Admitted => 19 case Prepared => 18 case Monitoring => 17
    case Stopping(_) => if r.worker.Some? then 16 - Rank(r.worker.value.state) else 16
    case Reaped(_) => 9 case Succeeded => 8 case Verified => 7
    case Ending(_) =>
      if r.worker.Some? && r.worker.value.state.Kill? then 6
      else if r.worker.Some? && !r.worker.value.closed then 5 else 4
    case Unlisted(_) => 3 case Tidied(_) => 2 case _ => 1
  }

  ghost function GoodAction(r: Request): Action {
    match r.pc
    case Idle => Acquire
    case Holding => CheckOpen
    case Admitted => Prepare(None)
    case Prepared => Launch(true)
    case Monitoring => Monitor(None)
    case Stopping(_) => CleanUp
    case Reaped(_) => Judge(None)
    case Succeeded => Verify(true)
    case Verified => Publish(false, true)
    case Ending(_) => if r.worker.Some? && !r.worker.value.closed then CloseNative(false) else Unlist
    case Unlisted(_) => Tidy(false)
    case _ => Release
  }

  lemma {:induction false} GoodStep(r: Request, free: bool)
    requires OnCourse(r) && !r.pc.Ended? && (r.pc.Idle? ==> free)
    ensures var effect := Local(r, GoodAction(r), false, false, free);
      && effect.Some? && OnCourse(effect.value.request) && !effect.value.request.pc.Idle?
      && StepsLeft(effect.value.request) < StepsLeft(r)
      && (StepsLeft(r) > 3 ==> StepsLeft(effect.value.request) >= 3)
      && (StepsLeft(r) > 5 ==> StepsLeft(effect.value.request) >= 5)
  {
  }

  /** Following the course to its end, or to one of the last points at which a clean-up step comes next. */
  lemma {:induction false} FollowCourse(s0: Controller, schedule: seq<Scheduled>, s: Controller, t: Tid, left: nat)
      returns (longer: seq<Scheduled>, end: Controller)
    requires Reaches(s0, schedule, s) && t in s.requests && OnCourse(s.requests[t])
    requires !s.closed && !s.shutdown && (s.requests[t].pc.Idle? ==> s.permits > 0)
    requires (left == 1 || left == 3 || left == 5) && left <= StepsLeft(s.requests[t])
    ensures Reaches(s0, longer, end) && t in end.requests && OnCourse(end.requests[t])
    ensures StepsLeft(end.requests[t]) == left
    decreases StepsLeft(s.requests[t])
  {
    longer, end := schedule, s;
    if StepsLeft(s.requests[t]) > left {
      var r := s.requests[t];
      GoodStep(r, s.permits > 0);
      var next := Apply(s, t, GoodAction(r)).value;
      longer := schedule + [ByRequest(t, GoodAction(r))];
      ReachesOneMore(s0, schedule, s, ByRequest(t, GoodAction(r)), next);
      longer, end := FollowCourse(s0, longer, next, t, left);
    }
  }

  lemma {:induction false} ReachesOneMore(s0: Controller, schedule: seq<Scheduled>, s: Controller, x: Scheduled,
                                          next: Controller)
    requires Reaches(s0, schedule, s) && Next(s, x) == Some(next)
    ensures Reaches(s0, schedule + [x], next)
  {
    var longer := schedule + [x];
    assert longer[..|schedule|] == schedule;
  }

  /** While the controller is open, an operation on its course can always be completed: some schedule
      of its own steps takes it to success. */
  lemma {:induction false} OperationsCanSucceed(s: Controller, t: Tid)
    requires t in s.requests && OnCourse(s.requests[t])
    requires !s.closed && !s.shutdown && (s.requests[t].pc.Idle? ==> s.permits > 0)
    ensures exists schedule, end ::
              Reaches(s, schedule, end) && t in end.requests && end.requests[t].pc == Ended(Success)
  {
    var schedule, end := FollowCourse(s, [], s, t, 1);
  }

  /** The requests whose clean-up raised. */
  ghost function LostRequests(s: Controller): set<Tid> {
    set t | t in s.requests && s.requests[t].pc.Lost?
  }

  /** Those of them whose native close raised, so that their worker was never unlisted. */
  ghost function NeverUnlisted(s: Controller): set<Tid> {
    set t | t in s.requests && s.requests[t].pc.Lost? && !s.requests[t].pc.unlisted
  }

  /** When every request is over, the permits still missing are those of the requests whose clean-up
      raised, and the workers still listed are those whose native close raised: all capacity is back and
      `close` finds nothing left exactly if no clean-up step raised. */
  lemma {:induction false} QuiescenceRestoresCapacity(s0: Controller, schedule: seq<Scheduled>, s: Controller)
    requires Initial(s0) && Reaches(s0, schedule, s)
    requires forall t :: t in s.requests ==> Over(s.requests[t])
    ensures s.permits == s.limit - |LostRequests(s)| && s.active == NeverUnlisted(s)
    ensures s.permits == s.limit <==> LostRequests(s) == {}
    ensures s.allDone <==> NeverUnlisted(s) == {}
  {
    ReachableHasInv(s0, schedule, s);
    assert Holders(s) == LostRequests(s);
    forall t ensures t in s.active <==> t in NeverUnlisted(s) {
      assert t in s.requests ==> WorkerOk(s.requests[t]);
    }
  }

  lemma {:induction false} TidyMayRaise(s: Controller, t: Tid)
    requires t in s.requests && OnCourse(s.requests[t]) && StepsLeft(s.requests[t]) == 3
    ensures var next := Apply(s, t, Tidy(true));
      next.Some? && next.value.requests == s.requests[t := s.requests[t].(pc := Lost(Success, true))]
  {
  }

  lemma {:induction false} CloseMayRaise(s: Controller, t: Tid)
    requires t in s.requests && OnCourse(s.requests[t]) && StepsLeft(s.requests[t]) == 5
    ensures var next := Apply(s, t, CloseNative(true));
      && next.Some?
      && next.value.requests
         == s.requests[t := s.requests[t].(pc := Lost(Success, false), worker := Some(Worker(Done, true)))]
  {
  }

  /** Capacity can be lost: any operation can run to success and then fail to look at its work directory;
      its bundle is published and its permit is never released. */
  lemma {:induction false} TidyingCanLosePermit(s0: Controller, t: Tid)
      returns (schedule: seq<Scheduled>, end: Controller)
    requires Initial(s0) && t in s0.requests && s0.requests[t].kind.Operation?
    ensures Reaches(s0, schedule, end) && t in end.requests && end.requests[t].pc == Lost(Success, true)
    ensures end.permits < end.limit && Published in Project(end.log, t) && Released !in Project(end.log, t)
  {
    var before, m := FollowCourse(s0, [], s0, t, 3);
    TidyMayRaise(m, t);
    schedule, end := before + [ByRequest(t, Tidy(true))], Apply(m, t, Tidy(true)).value;
    ReachesOneMore(s0, before, m, ByRequest(t, Tidy(true)), end);
    LostKeepsPermit(s0, schedule, end, t);
  }

  /** So can the listing of a worker: the native close raises and `close` waits for the worker in vain. */
  lemma {:induction false} ClosingCanLosePermit(s0: Controller, t: Tid)
      returns (schedule: seq<Scheduled>, end: Controller)
    requires Initial(s0) && t in s0.requests && s0.requests[t].kind.Operation?
    ensures Reaches(s0, schedule, end) && t in end.requests && end.requests[t].pc == Lost(Success, false)
    ensures end.permits < end.limit && Published in Project(end.log, t) && Released !in Project(end.log, t)
    ensures t in end.active && !end.allDone
  {
    var before, m := FollowCourse(s0, [], s0, t, 5);
    CloseMayRaise(m, t);
    schedule, end := before + [ByRequest(t, CloseNative(true))], Apply(m, t, CloseNative(true)).value;
    ReachesOneMore(s0, before, m, ByRequest(t, CloseNative(true)), end);
    LostKeepsPermit(s0, schedule, end, t);
  }

  lemma {:induction false} LostKeepsPermit(s0: Controller, schedule: seq<Scheduled>, s: Controller, t: Tid)
    requires Initial(s0) && Reaches(s0, schedule, s)
    requires t in s.requests && s.requests[t].pc.Lost? && s.requests[t].pc.outcome.Success?
    requires s.requests[t].kind.Operation?
    ensures s.permits < s.limit && Published in Project(s.log, t) && Released !in Project(s.log, t)
    ensures !s.requests[t].pc.unlisted ==> t in s.active && !s.allDone
  {
    ReachableHasInv(s0, schedule, s);
    assert WorkerOk(s.requests[t]);
    FinishedRequestHistory(s0, schedule, s, t);
    CapacityIsBounded(s0, schedule, s);
    assert t in Holders(s);
    assert Project(s.log, t) != [];
  }

  // ----- the shared fields and the lock regions that update them -----

  /** The fields of the source's class. The ghost controller runs the same step, so that the
      invariants above are invariants of these fields. */
  class SharedState {
    var permits: nat
    var active: set<Tid>
    var closed: bool
    var shutdown: bool
    var allDone: bool
    ghost var model: Controller

    ghost predicate Matches()
      reads this
    {
      && permits == model.permits && active == model.active && closed == model.closed
      && shutdown == model.shutdown && allDone == model.allDone
    }

    constructor (concurrentWorkers: nat, ghost requests: map<Tid, Request>)
      requires concurrentWorkers > 0
      requires forall t :: t in requests ==> requests[t].pc == Idle && requests[t].worker == None
      ensures Matches() && Initial(model) && model.requests == requests && permits == concurrentWorkers
    {
      permits := concurrentWorkers;
      active, closed, shutdown, allDone := {}, false, false, true;
      model := Controller(concurrentWorkers, concurrentWorkers, false, false, true, {}, requests, []);
    }

    /** `acquire(blocking=False)`. */
    method TryAcquire(t: Tid) returns (acquired: bool)
      requires Matches() && t in model.requests && model.requests[t].pc == Idle
      modifies this
      ensures Matches() && Some(model) == Apply(old(model), t, Acquire)
      ensures acquired <==> model.requests[t].pc == Holding
    {
      model := Apply(model, t, Acquire).value;
      acquired := permits > 0;
      if acquired {
        permits := permits - 1;
      }
    }

    /** The launch region: the closed flag is read and the worker listed under one lock. */
    method LaunchRegion(t: Tid, launched: bool) returns (listed: bool)
      requires Matches() && t in model.requests && model.requests[t].pc == Prepared
      modifies this
      ensures Matches() && Some(model) == Apply(old(model), t, Launch(launched))
      ensures listed <==> model.requests[t].pc == Monitoring
    {
      model := Apply(model, t, Launch(launched)).value;
      if closed || !launched {
        return false;
      }
      active := active + {t};
      allDone := false;
      return true;
    }

    /** The publication region: the last cancellation check and the rename under one lock. */
    method PublishRegion(t: Tid, cancelled: bool, renamed: bool) returns (published: bool)
      requires Matches() && t in model.requests && model.requests[t].pc == Verified
      modifies this`model
      ensures Matches() && Some(model) == Apply(old(model), t, Publish(cancelled, renamed))
      ensures published <==> model.log == old(model).log + [Some((t, Published))]
    {
      model := Apply(model, t, Publish(cancelled, renamed)).value;
      published := !closed && !cancelled && renamed;
    }

    /** The end of `_close_active`. */
    method UnlistRegion(t: Tid)
      requires Matches() && t in model.requests && model.requests[t].pc.Ending?
      requires model.requests[t].worker.Some? && model.requests[t].worker.value.closed
      modifies this
      ensures Matches() && Some(model) == Apply(old(model), t, Unlist)
    {
      model := Apply(model, t, Unlist).value;
      active := active - {t};
      if active == {} {
        allDone := true;
      }
    }

    method ReleasePermit(t: Tid)
      requires Matches() && t in model.requests && model.requests[t].pc.Tidied?
      modifies this
      ensures Matches() && Some(model) == Apply(old(model), t, Release)
    {
      model := Apply(model, t, Release).value;
      permits := permits + 1;
    }

    /** The first region of `close`: the workers to terminate, none on a repeated call. */
    method CloseRegion() returns (toTerminate: set<Tid>)
      requires Matches()
      modifies this
      ensures Matches() && closed && model == BeginClose(old(model))
      ensures toTerminate == if old(closed) then {} else active
    {
      model := BeginClose(model);
      if closed {
        return {};
      }
      closed := true;
      shutdown := true;
      return active;
    }
  }

  // ----- bounded output capture -----

  /** One `stream.read`: a chunk, and whether output is still accepted when it arrives. */
  datatype Arrival = Arrival(chunk: Bytes, accepting: bool)

  ghost function AcceptedBytes(arrivals: seq<Arrival>): Bytes {
    if arrivals == [] then []
    else
      var last := arrivals[|arrivals| - 1];
      AcceptedBytes(arrivals[..|arrivals| - 1]) + if last.accepting then last.chunk else []
  }

  class Capture {
    const limit: nat
    var content: Bytes
    var overflow: bool

    constructor (limit: nat)
      ensures this.limit == limit && content == [] && !overflow
    {
      this.limit := limit;
      content := [];
      overflow := false;
    }

    /** Reading to the end of the stream keeps the first limit + 1 accepted bytes and flags
        overflow exactly when more than limit were accepted. */
    method Read(arrivals: seq<Arrival>)
      requires content == [] && !overflow
      modifies this
      ensures var total := AcceptedBytes(arrivals);
        && content == (if |total| <= limit then total else total[..limit + 1])
        && (overflow <==> |total| > limit)
    {
      for i := 0 to |arrivals|
        invariant var total := AcceptedBytes(arrivals[..i]);
          && content == (if |total| <= limit then total else total[..limit + 1])
          && (overflow <==> |total| > limit)
      {
        assert arrivals[..i + 1][..i] == arrivals[..i];
        if arrivals[i].accepting {
          var chunk := arrivals[i].chunk;
          var remaining := limit + 1 - |content|;
          if remaining > 0 {
            content := content + if remaining < |chunk| then chunk[..remaining] else chunk;
          }
          if |content| > limit {
            overflow := true;
          }
        }
      }
      assert arrivals[..|arrivals|] == arrivals;
    }
  }
}
