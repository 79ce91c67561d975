/** The queue of the server's runs and the monitor are one queue: both are moved by the same four
    operations, and each `Push` and `Take` of the runs is what one critical section of the monitor does. */
module QueueRefinement {
  import opened Schema
  import ServerRuns
  import QueueMonitor

  /** What both machines say of the requests, each known by its number. */
  datatype View = View(submitting: seq<nat>, queue: seq<nat>, hand: seq<nat>, processed: seq<nat>)

  datatype Move = Stays | Submits(r: nat) | Pushes | Takes | Finishes

  const EMPTY: View := View([], [], [], [])

  function Moved(v: View, move: Move): Option<View> {
    match move
    case Stays => Some(v)
    case Submits(r) => if v.submitting == [] then Some(v.(submitting := [r])) else None
    case Pushes => if v.submitting != [] then Some(v.(queue := v.queue + v.submitting, submitting := [])) else None
    case Takes =>
      if v.hand == [] && v.queue != [] then Some(v.(hand := [v.queue[0]], queue := v.queue[1..])) else None
    case Finishes => if v.hand != [] then Some(v.(processed := v.processed + v.hand, hand := [])) else None
  }

  function AllMoved(v: View, moves: seq<Move>): Option<View>
    decreases |moves|
  {
    if moves == [] then Some(v)
    else
      match Moved(v, moves[0])
      case None => None
      case Some(w) => AllMoved(w, moves[1..])
  }

  // ---- The monitor ----

  function MonitorView(m: QueueMonitor.State): View {
    View(
      match m.interface_
      case WantsToPush(r) => [r]
      case Linking(r) => [r]
      case _ => [],
      m.queue, QueueMonitor.InFlight(m.worker), m.served)
  }

  function MonitorMove(m: QueueMonitor.State, step: QueueMonitor.Step): Move {
    match step
    case NewRequest(r) => Submits(r)
    case InterfaceMoves => if m.interface_.Linking? then Pushes else Stays
    case WorkerMoves =>
      if m.worker.Testing? && m.queue != [] then Takes
      else if m.worker.Serving? then Finishes
      else Stays
    case _ => Stays
  }

  lemma WorkerMoved(m: QueueMonitor.State)
    requires QueueMonitor.WorkerStep(m).Some?
    ensures Moved(MonitorView(m), MonitorMove(m, QueueMonitor.WorkerMoves)) ==
            Some(MonitorView(QueueMonitor.WorkerStep(m).value))
  {
  }

  lemma WakeHolds(w: QueueMonitor.Worker)
    ensures QueueMonitor.InFlight(QueueMonitor.Wake(w)) == QueueMonitor.InFlight(w)
  {
  }

  lemma InterfaceMoved(m: QueueMonitor.State)
    requires QueueMonitor.InterfaceStep(m).Some?
    ensures Moved(MonitorView(m), MonitorMove(m, QueueMonitor.InterfaceMoves)) ==
            Some(MonitorView(QueueMonitor.InterfaceStep(m).value))
  {
    hide QueueMonitor.InFlight, QueueMonitor.Wake;
    WakeHolds(m.worker);
  }

  /** Every step of the monitor moves the view by one operation or not at all. */
  lemma MonitorMoves(m: QueueMonitor.State, step: QueueMonitor.Step)
    requires QueueMonitor.Next(m, step).Some?
    ensures Moved(MonitorView(m), MonitorMove(m, step)) == Some(MonitorView(QueueMonitor.Next(m, step).value))
  {
    hide QueueMonitor.WorkerStep, QueueMonitor.InterfaceStep, QueueMonitor.Wake;
    WakeHolds(m.worker);
    match step
    case WorkerMoves => WorkerMoved(m);
    case InterfaceMoves => InterfaceMoved(m);
    case _ =>
  }

  function MonitorRun(m: QueueMonitor.State, steps: seq<QueueMonitor.Step>): seq<Move>
    requires QueueMonitor.Run(m, steps).Some?
    decreases |steps|
  {
    if steps == [] then []
    else [MonitorMove(m, steps[0])] + MonitorRun(QueueMonitor.Next(m, steps[0]).value, steps[1..])
  }

  lemma {:induction false} MonitorRunMoves(m: QueueMonitor.State, steps: seq<QueueMonitor.Step>)
    requires QueueMonitor.Run(m, steps).Some?
    ensures AllMoved(MonitorView(m), MonitorRun(m, steps)) == Some(MonitorView(QueueMonitor.Run(m, steps).value))
    decreases |steps|
  {
    hide QueueMonitor.Next, MonitorView, MonitorMove, Moved;
    if steps != [] {
      MonitorMoves(m, steps[0]);
      MonitorRunMoves(QueueMonitor.Next(m, steps[0]).value, steps[1..]);
    }
  }

  // ---- The server's runs ----

  /** Requests are numbered in the order in which they are received. */
  ghost function Numbers(requests: seq<ServerRuns.Request>, first: nat): (r: seq<nat>)
    ensures |r| == |requests|
  {
    seq(|requests|, i requires 0 <= i < |requests| => first + i)
  }

  ghost function ServerView(s: ServerRuns.State): View {
    var done, hand, queue := |s.processed|, |ServerRuns.Hand(s.worker)|, |s.queue|;
    View(
      Numbers(s.submitting, done + hand + queue), Numbers(s.queue, done + hand),
      Numbers(ServerRuns.Hand(s.worker), done), Numbers(s.processed, 0))
  }

  function ServerMove(s: ServerRuns.State, step: ServerRuns.Step): Move {
    match step
    case Submit(_, _) => Submits(|s.issued|)
    case Push => Pushes
    case Take => Takes
    case Finish => Finishes
    case _ => Stays
  }

  lemma NumbersJoin(a: seq<ServerRuns.Request>, b: seq<ServerRuns.Request>, first: nat)
    ensures Numbers(a + b, first) == Numbers(a, first) + Numbers(b, first + |a|)
  {
  }

  lemma SubmitMoves(s: ServerRuns.State, c: nat, op: ServerRuns.Op)
    requires ServerRuns.Fifo(s) && s.submitting == []
    ensures Moved(ServerView(s), Submits(|s.issued|)) == Some(ServerView(ServerRuns.Received(s, c, op)))
  {
    assert ServerView(ServerRuns.Received(s, c, op)).submitting == [|s.issued|];
  }

  lemma PushMoves(s: ServerRuns.State)
    requires s.submitting != []
    ensures Moved(ServerView(s), Pushes) == Some(ServerView(s.(queue := s.queue + s.submitting, submitting := [])))
  {
    NumbersJoin(s.queue, s.submitting, |s.processed| + |ServerRuns.Hand(s.worker)|);
  }

  lemma TakeMoves(s: ServerRuns.State)
    requires s.worker.Idle? && s.queue != []
    ensures Moved(ServerView(s), Takes) ==
            Some(ServerView(s.(worker := ServerRuns.Taken(s.queue[0]), queue := s.queue[1..])))
  {
    assert s.queue == [s.queue[0]] + s.queue[1..];
    NumbersJoin([s.queue[0]], s.queue[1..], |s.processed|);
    var v := ServerView(s.(worker := ServerRuns.Taken(s.queue[0]), queue := s.queue[1..]));
    assert v.hand == [ServerView(s).queue[0]] && v.queue == ServerView(s).queue[1..];
  }

  lemma FinishMoves(s: ServerRuns.State, t: ServerRuns.State)
    requires !s.worker.Idle? && t.worker.Idle? && t.processed == s.processed + [s.worker.r]
    requires t.queue == s.queue && t.submitting == s.submitting
    ensures Moved(ServerView(s), Finishes) == Some(ServerView(t))
  {
    NumbersJoin(s.processed, [s.worker.r], 0);
    assert ServerView(t).hand == [];
  }

  /** Every step of the server moves the view by the same operations. */
  lemma ServerMoves(env: ServerRuns.Env, s: ServerRuns.State, step: ServerRuns.Step)
    requires Shape(s.tables) && ServerRuns.Fifo(s) && ServerRuns.Next(env, s, step).Some?
    ensures Moved(ServerView(s), ServerMove(s, step)) == Some(ServerView(ServerRuns.Next(env, s, step).value))
  {
    hide ServerRuns.PerformOp, ServerRuns.ApplyBatch, ServerRuns.SetJob, ServerRuns.Received, Shape, Moved, Numbers;
    if ServerRuns.Works(s, step) {
      ServerRuns.WorkFrame(env, s, step);
      assert ServerView(ServerRuns.Next(env, s, step).value) == ServerView(s);
      StaysPut(ServerView(s));
    } else {
      match step
      case Submit(c, op) => SubmitMoves(s, c, op);
      case Push => PushMoves(s);
      case Take => TakeMoves(s);
      case Finish => FinishMoves(s, ServerRuns.Next(env, s, step).value);
      case _ => StaysPut(ServerView(s));
    }
  }

  lemma StaysPut(v: View)
    ensures Moved(v, Stays) == Some(v)
  {
  }

  /** A push or a take that the view allows is one the server can make: the monitor's critical
      sections never get ahead of the server's steps. */
  lemma PushAndTakeMatch(env: ServerRuns.Env, s: ServerRuns.State)
    requires Shape(s.tables) && ServerRuns.Fifo(s)
    ensures Moved(ServerView(s), Pushes).Some? <==> ServerRuns.Next(env, s, ServerRuns.Push).Some?
    ensures Moved(ServerView(s), Takes).Some? <==> ServerRuns.Next(env, s, ServerRuns.Take).Some?
  {
  }

  function ServerRun(env: ServerRuns.Env, s: ServerRuns.State, steps: seq<ServerRuns.Step>): seq<Move>
    requires ServerRuns.Run(env, s, steps).Some?
    decreases |steps|
  {
    if steps == [] then []
    else [ServerMove(s, steps[0])] + ServerRun(env, ServerRuns.Next(env, s, steps[0]).value, steps[1..])
  }

  lemma {:induction false} ServerRunMoves(env: ServerRuns.Env, s: ServerRuns.State, steps: seq<ServerRuns.Step>)
    requires ServerRuns.Fifo(s) && ServerRuns.Run(env, s, steps).Some?
    ensures AllMoved(ServerView(s), ServerRun(env, s, steps)) == Some(ServerView(ServerRuns.Run(env, s, steps).value))
    ensures ServerRuns.Fifo(ServerRuns.Run(env, s, steps).value)
    decreases |steps|
  {
    hide ServerRuns.Next, ServerView, ServerMove, Moved, ServerRuns.Fifo, Shape;
    if steps != [] {
      ServerMoves(env, s, steps[0]);
      ServerRuns.StepFifo(env, s, steps[0]);
      ServerRunMoves(env, ServerRuns.Next(env, s, steps[0]).value, steps[1..]);
    }
  }

  // ---- The same queue ----

  /** A run's moves, without the steps that leave the queue alone. */
  function Proper(moves: seq<Move>): seq<Move> {
    if moves == [] then []
    else (if moves[0].Stays? then [] else [moves[0]]) + Proper(moves[1..])
  }

  lemma {:induction false} ProperMoves(v: View, moves: seq<Move>)
    ensures AllMoved(v, Proper(moves)) == AllMoved(v, moves)
    decreases |moves|
  {
    if moves != [] {
      var w := Moved(v, moves[0]);
      if moves[0].Stays? {
        assert Proper(moves) == Proper(moves[1..]);
        ProperMoves(v, moves[1..]);
      } else {
        assert Proper(moves)[0] == moves[0] && Proper(moves)[1..] == Proper(moves[1..]);
        if w.Some? { ProperMoves(w.value, moves[1..]); }
      }
    }
  }

  /** However finely the threads interleave on the mutex and the condition, a run of the monitor and a
      run of the server that submit, push, take and finish in the same order hold the same requests in
      the same places. */
  lemma OneQueue(
      env: ServerRuns.Env, uploads: map<nat, string>, fine: seq<QueueMonitor.Step>, coarse: seq<ServerRuns.Step>)
    requires QueueMonitor.Run(QueueMonitor.INITIAL, fine).Some?
    requires ServerRuns.Run(env, ServerRuns.Initial(uploads), coarse).Some?
    requires Proper(MonitorRun(QueueMonitor.INITIAL, fine)) ==
             Proper(ServerRun(env, ServerRuns.Initial(uploads), coarse))
    ensures MonitorView(QueueMonitor.Run(QueueMonitor.INITIAL, fine).value) ==
            ServerView(ServerRuns.Run(env, ServerRuns.Initial(uploads), coarse).value)
  {
    hide ServerRuns.Run, QueueMonitor.Run, MonitorRun, ServerRun, AllMoved, Moved, Proper;
    var s := ServerRuns.Initial(uploads);
    assert MonitorView(QueueMonitor.INITIAL) == EMPTY;
    assert ServerView(s) == EMPTY && ServerRuns.Fifo(s);
    MonitorRunMoves(QueueMonitor.INITIAL, fine);
    ServerRunMoves(env, s, coarse);
    ProperMoves(EMPTY, MonitorRun(QueueMonitor.INITIAL, fine));
    ProperMoves(EMPTY, ServerRun(env, s, coarse));
  }
}
