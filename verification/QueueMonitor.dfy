/** The queue's monitor as interleaved steps of three threads: the interface thread that pushes, the
    worker that pops, and the main thread that shuts both down. The condition variable behaves as
    POSIX.1-2008 describes for `pthread_cond_wait`: releasing the mutex and blocking is one step, and a
    blocked thread may wake without any signal. The signal handler may clear the running flag at any
    moment, without the mutex. The interface thread looks at that flag once a round; a round has one turn
    for each polled descriptor, and a turn may push one request. */
module QueueMonitor {
  import opened Schema

  const MAX_TURNS: nat := 256

  /** Requests are known by number here; what they ask for does not matter to the queue. */
  type Request = nat

  datatype Owner = Nobody | WorkerThread | InterfaceThread | MainThread

  datatype Worker =
    | LoopTest             // `while (g_running)` in worker_main
    | WantsLock
    | Testing              // holds the mutex, about to test head and running flag
    | DecidedToWait        // holds the mutex, the test said wait
    | Waiting              // blocked on the condition, mutex released
    | Woken                // must get the mutex back
    | Popped(r: Request)       // holds the mutex
    | Serving(r: Request)
    | Exited

  datatype Interface =
    | Polling
    | WantsToPush(r: Request)
    | Linking(r: Request)      // holds the mutex
    | Linked               // holds the mutex, the request is in the list
    | Signalled            // holds the mutex
    | Left

  datatype Main =
    | Sleeping
    | JoiningInterface
    | WantsToBroadcast
    | Broadcasting         // holds the mutex
    | Broadcasted          // holds the mutex
    | JoiningWorker
    | Finished

  datatype State = State(
    running: bool,
    owner: Owner,
    queue: seq<Request>,
    worker: Worker,
    interface_: Interface,
    main: Main,
    pushed: seq<Request>,
    served: seq<Request>,
    turns: nat)            // left in the interface thread's round

  datatype Step =
    | StopSignal
    | SpuriousWakeup
    | NewRound(turns: nat)
    | NewRequest(r: Request)
    | QuietTurn
    | InterfaceLeaves
    | WorkerMoves
    | InterfaceMoves
    | MainMoves

  const INITIAL: State := State(true, Nobody, [], LoopTest, Polling, Sleeping, [], [], 0)

  function Wake(w: Worker): Worker {
    if w.Waiting? then Woken else w
  }

  function WorkerStep(s: State): Option<State> {
    match s.worker
    case LoopTest => Some(s.(worker := if s.running then WantsLock else Exited))
    case WantsLock => if s.owner.Nobody? then Some(s.(owner := WorkerThread, worker := Testing)) else None
    case Woken => if s.owner.Nobody? then Some(s.(owner := WorkerThread, worker := Testing)) else None
    case Testing =>
      if s.queue != [] then Some(s.(worker := Popped(s.queue[0]), queue := s.queue[1..]))
      else if s.running then Some(s.(worker := DecidedToWait))
      else Some(s.(worker := Exited, owner := Nobody))
    case DecidedToWait => Some(s.(worker := Waiting, owner := Nobody))
    case Waiting => None
    case Popped(r) => Some(s.(worker := Serving(r), owner := Nobody))
    case Serving(r) => Some(s.(worker := LoopTest, served := s.served + [r]))
    case Exited => None
  }

  function InterfaceStep(s: State): Option<State> {
    match s.interface_
    case WantsToPush(r) =>
      if s.owner.Nobody? then Some(s.(owner := InterfaceThread, interface_ := Linking(r))) else None
    case Linking(r) => Some(s.(interface_ := Linked, queue := s.queue + [r], pushed := s.pushed + [r]))
    case Linked => Some(s.(interface_ := Signalled, worker := Wake(s.worker)))
    case Signalled => Some(s.(interface_ := Polling, owner := Nobody))
    case _ => None
  }

  function MainStep(s: State): Option<State> {
    match s.main
    case Sleeping => if s.running then None else Some(s.(main := JoiningInterface))
    case JoiningInterface => if s.interface_.Left? then Some(s.(main := WantsToBroadcast)) else None
    case WantsToBroadcast => if s.owner.Nobody? then Some(s.(owner := MainThread, main := Broadcasting)) else None
    case Broadcasting => Some(s.(main := Broadcasted, worker := Wake(s.worker)))
    case Broadcasted => Some(s.(main := JoiningWorker, owner := Nobody))
    case JoiningWorker => if s.worker.Exited? then Some(s.(main := Finished)) else None
    case Finished => None
  }

  /** The state after a step, if the step can be taken. */
  function Next(s: State, step: Step): Option<State> {
    match step
    case StopSignal => if s.running then Some(s.(running := false)) else None
    case SpuriousWakeup => if s.worker.Waiting? then Some(s.(worker := Woken)) else None
    case NewRound(n) =>
      if s.interface_.Polling? && s.turns == 0 && s.running && n <= MAX_TURNS then Some(s.(turns := n)) else None
    case NewRequest(r) =>
      if s.interface_.Polling? && s.turns > 0 then Some(s.(interface_ := WantsToPush(r), turns := s.turns - 1)) else None
    case QuietTurn => if s.interface_.Polling? && s.turns > 0 then Some(s.(turns := s.turns - 1)) else None
    case InterfaceLeaves =>
      if s.interface_.Polling? && s.turns == 0 && !s.running then Some(s.(interface_ := Left)) else None
    case WorkerMoves => WorkerStep(s)
    case InterfaceMoves => InterfaceStep(s)
    case MainMoves => MainStep(s)
  }

  /** The state after a run from `s`, if every step of it can be taken. */
  function Run(s: State, steps: seq<Step>): Option<State>
    decreases |steps|
  {
    if steps == [] then Some(s)
    else
      match Next(s, steps[0])
      case None => None
      case Some(t) => Run(t, steps[1..])
  }

  predicate HasBroadcast(s: State) {
    s.main.Broadcasted? || s.main.JoiningWorker? || s.main.Finished?
  }

  function InFlight(w: Worker): seq<Request> {
    match w
    case Popped(r) => [r]
    case Serving(r) => [r]
    case _ => []
  }

  /** Who holds the mutex, and what that rules out for the others. */
  predicate Locked(s: State) {
    && (s.owner.WorkerThread? <==> s.worker.Testing? || s.worker.DecidedToWait? || s.worker.Popped?)
    && (s.owner.InterfaceThread? <==> s.interface_.Linking? || s.interface_.Linked? || s.interface_.Signalled?)
    && (s.owner.MainThread? <==> s.main.Broadcasting? || s.main.Broadcasted?)
    && (!s.main.Sleeping? ==> !s.running)
    && (!s.main.Sleeping? && !s.main.JoiningInterface? ==> s.interface_.Left?)
    && (s.worker.DecidedToWait? ==> s.queue == [] && !HasBroadcast(s))
    && (s.worker.Waiting? ==> (s.queue == [] || s.interface_.Linked?) && !HasBroadcast(s))
    && (s.main.Finished? ==> s.worker.Exited?)
    && s.turns <= MAX_TURNS && (s.interface_.Left? ==> s.turns == 0)
  }

  predicate Conserved(s: State) {
    s.pushed == s.served + InFlight(s.worker) + s.queue
  }

  predicate Inv(s: State) {
    Locked(s) && Conserved(s)
  }

  lemma StepKeepsLocked(s: State, step: Step)
    requires Locked(s) && Next(s, step).Some?
    ensures Locked(Next(s, step).value)
  {
  }

  lemma WorkerKeepsConserved(s: State)
    requires Conserved(s) && WorkerStep(s).Some?
    ensures Conserved(WorkerStep(s).value)
  {
    match s.worker
    case Testing =>
      if s.queue != [] {
        assert s.queue == [s.queue[0]] + s.queue[1..];
      }
    case Serving(r) =>
      assert s.served + [r] + [] == s.served + [r];
    case _ =>
  }

  lemma InterfaceKeepsConserved(s: State)
    requires Conserved(s) && InterfaceStep(s).Some?
    ensures Conserved(InterfaceStep(s).value)
  {
    match s.interface_
    case Linking(r) =>
      var done := s.served + InFlight(s.worker);
      assert done + (s.queue + [r]) == (done + s.queue) + [r];
    case Linked =>
      assert InFlight(Wake(s.worker)) == InFlight(s.worker);
    case _ =>
  }

  lemma StepKeepsConserved(s: State, step: Step)
    requires Conserved(s) && Next(s, step).Some?
    ensures Conserved(Next(s, step).value)
  {
    hide WorkerStep, InterfaceStep;
    match step
    case WorkerMoves => WorkerKeepsConserved(s);
    case InterfaceMoves => InterfaceKeepsConserved(s);
    case _ =>
  }

  lemma {:induction false} RunKeepsInv(s: State, steps: seq<Step>)
    requires Inv(s) && Run(s, steps).Some?
    ensures Inv(Run(s, steps).value)
    decreases |steps|
  {
    if steps != [] {
      StepKeepsLocked(s, steps[0]);
      StepKeepsConserved(s, steps[0]);
      RunKeepsInv(Next(s, steps[0]).value, steps[1..]);
    }
  }

  /** No wakeup is lost: in every reachable state, a worker that is blocked while no signal is about to
      be sent has nothing to do, and the shutdown broadcast is still to come. */
  lemma NoLostWakeup(steps: seq<Step>)
    requires Run(INITIAL, steps).Some?
    ensures var s := Run(INITIAL, steps).value;
            s.worker.Waiting? && !s.interface_.Linked? ==> s.queue == [] && !HasBroadcast(s)
  {
    RunKeepsInv(INITIAL, steps);
  }

  /** The queue is first in, first out in every interleaving: what was pushed is what was served, then
      the request in the worker's hands, then what still waits. */
  lemma PushedAreServedInOrder(steps: seq<Step>)
    requires Run(INITIAL, steps).Some?
    ensures var s := Run(INITIAL, steps).value;
            s.pushed == s.served + InFlight(s.worker) + s.queue
  {
    RunKeepsInv(INITIAL, steps);
  }

  /** At most one thread is between lock and unlock, and the mutex knows which. */
  lemma MutualExclusion(steps: seq<Step>)
    requires Run(INITIAL, steps).Some?
    ensures var s := Run(INITIAL, steps).value;
            var w := s.worker.Testing? || s.worker.DecidedToWait? || s.worker.Popped?;
            var i := s.interface_.Linking? || s.interface_.Linked? || s.interface_.Signalled?;
            var m := s.main.Broadcasting? || s.main.Broadcasted?;
            !(w && i) && !(w && m) && !(i && m)
  {
    RunKeepsInv(INITIAL, steps);
  }

  // ---- Shutdown ----

  // Steps each thread still has to take once the running flag is down, at most.

  function InterfaceLeft(i: Interface, turns: nat): nat {
    5 * turns +
    match i
    case WantsToPush(_) => 5
    case Linking(_) => 4
    case Linked => 3
    case Signalled => 2
    case Polling => 1
    case Left => 0
  }

  function WorkerLeft(w: Worker): nat {
    match w
    case DecidedToWait => 7
    case Waiting => 6
    case Woken => 5
    case WantsLock => 5
    case Testing => 4
    case Popped(_) => 3
    case Serving(_) => 2
    case LoopTest => 1
    case Exited => 0
  }

  function MainLeft(m: Main): nat {
    match m
    case Sleeping => 6
    case JoiningInterface => 5
    case WantsToBroadcast => 4
    case Broadcasting => 3
    case Broadcasted => 2
    case JoiningWorker => 1
    case Finished => 0
  }

  function Remaining(s: State): nat {
    InterfaceLeft(s.interface_, s.turns) + WorkerLeft(s.worker) + MainLeft(s.main)
  }

  lemma WakeShrinks(w: Worker)
    ensures WorkerLeft(Wake(w)) <= WorkerLeft(w)
  {
  }

  lemma WorkerShrinks(s: State)
    requires !s.running && WorkerStep(s).Some?
    ensures !WorkerStep(s).value.running && Remaining(WorkerStep(s).value) < Remaining(s)
  {
    hide InterfaceLeft, MainLeft;
  }

  lemma InterfaceShrinks(s: State)
    requires !s.running && InterfaceStep(s).Some?
    ensures !InterfaceStep(s).value.running && Remaining(InterfaceStep(s).value) < Remaining(s)
  {
    hide WorkerLeft, MainLeft, Wake;
    WakeShrinks(s.worker);
  }

  lemma MainShrinks(s: State)
    requires !s.running && MainStep(s).Some?
    ensures !MainStep(s).value.running && Remaining(MainStep(s).value) < Remaining(s)
  {
    hide WorkerLeft, InterfaceLeft, Wake;
    WakeShrinks(s.worker);
  }

  lemma ShutdownStep(s: State, step: Step)
    requires !s.running && Next(s, step).Some?
    ensures !Next(s, step).value.running && Remaining(Next(s, step).value) < Remaining(s)
  {
    hide WorkerStep, InterfaceStep, MainStep, MainLeft;
    match step
    case WorkerMoves => WorkerShrinks(s);
    case InterfaceMoves => InterfaceShrinks(s);
    case MainMoves => MainShrinks(s);
    case _ =>
  }

  /** Some thread can always move until all three are gone. */
  lemma ShutdownGoesOn(s: State) returns (step: Step)
    requires Inv(s) && !s.running && !s.main.Finished?
    ensures Next(s, step).Some?
  {
    step :=
      match s.owner
      case WorkerThread => WorkerMoves
      case InterfaceThread => InterfaceMoves
      case MainThread => MainMoves
      case Nobody =>
        if s.interface_.Polling? then (if s.turns > 0 then QuietTurn else InterfaceLeaves)
        else if s.interface_.WantsToPush? then InterfaceMoves
        else if s.main.JoiningWorker? && !s.worker.Exited? then WorkerMoves
        else MainMoves;
  }

  lemma {:induction false} ShutdownRun(s: State, steps: seq<Step>)
    requires !s.running && Run(s, steps).Some?
    ensures !Run(s, steps).value.running && |steps| + Remaining(Run(s, steps).value) <= Remaining(s)
    decreases |steps|
  {
    if steps != [] {
      ShutdownStep(s, steps[0]);
      ShutdownRun(Next(s, steps[0]).value, steps[1..]);
    }
  }

  /** From the moment the running flag is down every schedule is bounded by what is left of the
      interface thread's round, and after the broadcast it is very short; a schedule that cannot go on
      has ended with all three threads gone, spurious wakeups or not. */
  lemma ShutdownEnds(before: seq<Step>, after: seq<Step>)
    requires Run(INITIAL, before).Some? && !Run(INITIAL, before).value.running
    requires Run(Run(INITIAL, before).value, after).Some?
    ensures |after| <= 5 * Run(INITIAL, before).value.turns + 18 <= 5 * MAX_TURNS + 18
    ensures HasBroadcast(Run(INITIAL, before).value) ==> |after| <= 7
    ensures var end := Run(Run(INITIAL, before).value, after).value;
            (forall step :: Next(end, step) == None) ==>
              end.worker.Exited? && end.main.Finished? && end.interface_.Left?
  {
    var s := Run(INITIAL, before).value;
    RunKeepsInv(INITIAL, before);
    ShutdownRun(s, after);
    RunKeepsInv(s, after);
    var end := Run(s, after).value;
    if !end.main.Finished? { var step := ShutdownGoesOn(end); }
  }

  // ---- What the threads can do ----

  /** A round may have any number of turns up to MAX_TURNS, it starts when the one before is used up, and
      each request takes one turn. */
  lemma RoundTurns(s: State, n: nat, r: Request)
    requires s.interface_.Polling? && s.running
    ensures Next(s, NewRound(n)).Some? <==> s.turns == 0 && n <= MAX_TURNS
    ensures Next(s, NewRound(n)).Some? ==> Next(s, NewRound(n)).value == s.(turns := n)
    ensures Next(s, NewRequest(r)).Some? <==> s.turns >= 1
    ensures Next(s, NewRequest(r)).Some? ==>
              Next(s, NewRequest(r)).value == s.(interface_ := WantsToPush(r), turns := s.turns - 1)
  {
  }

  lemma RunJoin(s: State, a: seq<Step>, b: seq<Step>)
    requires Run(s, a).Some?
    ensures Run(s, a + b) == Run(Run(s, a).value, b)
    decreases |a|
  {
    if a == [] {
      assert a + b == b;
    } else {
      assert (a + b)[0] == a[0] && (a + b)[1..] == a[1..] + b;
      RunJoin(Next(s, a[0]).value, a[1..], b);
    }
  }

  lemma FourMoves(s: State, step: Step, a: State, b: State, c: State, d: State)
    requires Next(s, step) == Some(a) && Next(a, step) == Some(b) && Next(b, step) == Some(c) && Next(c, step) == Some(d)
    ensures Run(s, [step, step, step, step]) == Some(d)
  {
    hide Next, Run;
    RunFirst(c, step, [], d);
    RunFirst(b, step, [step] + [], c);
    RunFirst(a, step, [step] + ([step] + []), b);
    RunFirst(s, step, [step] + ([step] + ([step] + [])), a);
    assert [step] + ([step] + ([step] + ([step] + []))) == [step, step, step, step];
    assert Run(d, []) == Some(d) by { RunNothing(d); }
  }

  lemma RunFirst(s: State, step: Step, rest: seq<Step>, t: State)
    requires Next(s, step) == Some(t)
    ensures Run(s, [step] + rest) == Run(t, rest)
  {
    hide Next;
    assert ([step] + rest)[1..] == rest;
  }

  lemma RunNothing(s: State)
    ensures Run(s, []) == Some(s)
  {
  }

  /** With nothing to do the worker blocks, and from there only a wakeup moves it. */
  lemma IdleWorkerBlocks()
    ensures Run(INITIAL, [WorkerMoves, WorkerMoves, WorkerMoves, WorkerMoves]) == Some(INITIAL.(worker := Waiting))
    ensures Next(INITIAL.(worker := Waiting), WorkerMoves) == None
  {
    FourMoves(INITIAL, WorkerMoves, INITIAL.(worker := WantsLock),
              INITIAL.(worker := Testing, owner := WorkerThread), INITIAL.(worker := DecidedToWait, owner := WorkerThread),
              INITIAL.(worker := Waiting));
  }

  lemma Begun(s: State, r: Request)
    requires s.interface_.Polling? && s.running && s.turns == 0
    ensures Run(s, [NewRound(1), NewRequest(r)]) == Some(s.(interface_ := WantsToPush(r)))
  {
    hide Run;
    RunNothing(s.(interface_ := WantsToPush(r)));
    RunFirst(s.(turns := 1), NewRequest(r), [], s.(interface_ := WantsToPush(r)));
    RunFirst(s, NewRound(1), [NewRequest(r)] + [], s.(turns := 1));
    assert [NewRound(1)] + ([NewRequest(r)] + []) == [NewRound(1), NewRequest(r)];
  }

  /** A request pushed while the worker is blocked wakes it and is served. */
  lemma PushWakesWorker(r: Request)
    ensures Run(INITIAL.(worker := Waiting), [NewRound(1), NewRequest(r)] +
                [InterfaceMoves, InterfaceMoves, InterfaceMoves, InterfaceMoves] +
                [WorkerMoves, WorkerMoves, WorkerMoves, WorkerMoves]) ==
            Some(INITIAL.(pushed := [r], served := [r]))
  {
    hide Run;
    var s := INITIAL.(worker := Waiting);
    var begun := [NewRound(1), NewRequest(r)];
    var push := [InterfaceMoves, InterfaceMoves, InterfaceMoves, InterfaceMoves];
    var serve := [WorkerMoves, WorkerMoves, WorkerMoves, WorkerMoves];
    var asked := s.(interface_ := WantsToPush(r));
    Begun(s, r);
    var pushed := INITIAL.(worker := Woken, queue := [r], pushed := [r]);
    assert [] + [r] == [r];
    FourMoves(asked, InterfaceMoves, s.(interface_ := Linking(r), owner := InterfaceThread),
              s.(interface_ := Linked, owner := InterfaceThread, queue := [r], pushed := [r]),
              pushed.(interface_ := Signalled, owner := InterfaceThread), pushed);
    var taken := INITIAL.(pushed := [r], queue := []);
    assert [r][1..] == [];
    FourMoves(pushed, WorkerMoves, pushed.(worker := Testing, owner := WorkerThread),
              taken.(worker := Popped(r), owner := WorkerThread), taken.(worker := Serving(r)),
              taken.(served := [r]));
    RunJoin(s, begun, push);
    RunJoin(s, begun + push, serve);
  }

  /** The stop signal takes the running flag down and nothing else; it comes once. */
  lemma StopOnce(s: State)
    ensures Next(s, StopSignal) == if s.running then Some(s.(running := false)) else None
  {
  }
}
