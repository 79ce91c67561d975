/** What becomes of a request: the final status and result of its job, and how the counters count it, over
    whole runs of the server. */
module JobOutcomes {
  import opened Schema
  import opened SchemaLoad
  import opened ServerRuns
  import InsertSyntax
  import Jobs
  import Store
  import Text

  // ---- Which requests have jobs ----

  /** The operations with a job are 12, 20, 21 and 30: the end of an upload, the two that generate SQL, and
      an INSERT. Its job is the next one, QUEUED, and the client's own. */
  lemma JobGiven(env: Env, s: State, c: nat, op: Op)
    requires Shape(s.tables) && Next(env, s, Submit(c, op)).Some?
    requires op.Unknown? ==> op.code !in {10, 11, 12, 20, 21, 30}
    ensures var t := Next(env, s, Submit(c, op)).value;
            var r := t.issued[|s.issued|];
            && t.issued == s.issued + [r] && r.client == c && r.op == op && t.submitting == [r]
            && if OpCode(op) in {12, 20, 21, 30}
               then r.job == |s.jobs| + 1 && t.jobs == s.jobs + [Jobs.Job(r.job, c, OpCode(op), Jobs.Queued, "queued")]
               else r.job == 0 && t.jobs == s.jobs
  {
  }

  // ---- How a request fares ----

  /** Whether the operation succeeds when it is performed; an INSERT only goes on to its child here. */
  predicate Succeeds(env: Env, s: State, r: Request, io: Io) {
    match r.op
    case UploadEnd =>
      && io.Fine? && r.client in s.uploads && 1 <= |s.uploads[r.client]| <= 1_048_576
      && env.parse(s.uploads[r.client]).Some?
      && LoadSchema(s.tables, env.parse(s.uploads[r.client])).error.None?
    case GenerateSql => true
    case ValidateInsert(_) => false
    case Unknown(_) => false
    case _ => io.Fine?
  }

  /** Unless it is an INSERT that its child accepts, a request that passes the flag is performed at once,
      with the success its calls and its document allow and with its own reply. */
  lemma PerformedOutcome(env: Env, s: State, io: Io, reply: string)
    requires Shape(s.tables) && s.worker.Started? && s.cancel != s.worker.r.client
    requires Next(env, s, Perform(io, reply)).Some?
    ensures var t := Next(env, s, Perform(io, reply)).value;
            || (t.worker == Checked(s.worker.r) && s.worker.r.op.ValidateInsert?)
            || t.worker == Performed(s.worker.r, Succeeds(env, s, s.worker.r, io), false, reply)
  {
    hide InsertSyntax.Batch, Store.ValidInsert, Shape, FileOf;
    if s.worker.r.op.UploadEnd? { DocumentRead(env, s, s.worker.r, io); }
  }

  lemma DocumentRead(env: Env, s: State, r: Request, io: Io)
    ensures LoadSchema(s.tables, Document(env, s.uploads, r.client, io)).error.None? <==>
            && io.Fine? && r.client in s.uploads && 1 <= |s.uploads[r.client]| <= 1_048_576
            && env.parse(s.uploads[r.client]).Some?
            && LoadSchema(s.tables, env.parse(s.uploads[r.client])).error.None?
  {
    hide LoadTables, ApplyRelations, Items;
  }

  /** The program is undefined in a request exactly when an INSERT the grammar accepts lists more columns
      than the column map holds. */
  lemma UndefinedExactly(env: Env, s: State, io: Io, reply: string)
    requires Shape(s.tables) && s.worker.Started? && s.cancel != s.worker.r.client
    ensures Next(env, s, Perform(io, reply)).None? <==>
            && s.worker.r.op.ValidateInsert? && s.worker.r.op.sql != "" && io.Fine?
            && s.tables != [] && env.grammar(s.worker.r.op.sql)
            && InsertSyntax.Batch(s.tables, s.worker.r.op.sql) == InsertSyntax.Err(InsertSyntax.ColumnMapOverrun)
  {
    hide InsertSyntax.Batch, Store.ValidInsert, LoadSchema, Document, Shape, FileOf;
  }

  // ---- The final status ----

  predicate Final(status: Jobs.Status) {
    status.Done? || status.Error?
  }

  /** Starting marks the request's own job RUNNING; finishing records how it was performed. No other job
      changes. */
  lemma OwnJobOnly(env: Env, s: State, step: Step, id: nat)
    requires Shape(s.tables) && Jobs.IsLog(s.jobs) && Next(env, s, step).Some? && 1 <= id <= |s.jobs|
    ensures var t := Next(env, s, step).value;
            && id <= |t.jobs| && t.jobs[id - 1].id == s.jobs[id - 1].id && t.jobs[id - 1].client == s.jobs[id - 1].client
            && (!(step.Start? || step.Finish?) || s.worker.r.job != id || !Jobs.InWindow(s.jobs, id) ==>
                  t.jobs[id - 1] == s.jobs[id - 1])
            && (step.Start? && s.worker.r.job == id && Jobs.InWindow(s.jobs, id) ==>
                  t.jobs[id - 1] == s.jobs[id - 1].(status := Jobs.Running, result := "running"))
            && (step.Finish? && s.worker.r.job == id && Jobs.InWindow(s.jobs, id) ==>
                  t.jobs[id - 1] ==
                  s.jobs[id - 1].(status := if s.worker.ok then Jobs.Done else Jobs.Error,
                                  result := Text.Cap(s.worker.reply, 2048)))
  {
    hide PerformOp, ApplyBatch, Shape;
    if Works(s, step) { WorkFrame(env, s, step); }
  }

  lemma HandNotFinal(s: State)
    requires Lifecycle(s) && |s.processed| < |s.issued| && Jobs.InWindow(s.jobs, s.issued[|s.processed|].job)
    ensures !Final(s.jobs[s.issued[|s.processed|].job - 1].status)
  {
  }

  /** A job that is DONE or ERROR and can be seen belongs to a request that is not in hand. */
  lemma FinishedNotInHand(env: Env, initial: map<nat, string>, s: State, id: nat)
    requires Inv(env, initial, s) && Jobs.InWindow(s.jobs, id) && Final(s.jobs[id - 1].status) && !s.worker.Idle?
    ensures s.worker.r.job != id
  {
    hide VerdictHolds, FilesSeparate, Counters, Store.Good;
    HandPlace(s);
    if s.worker.r.job == id { HandNotFinal(s); }
  }

  /** A finished job never changes again while it can be seen. */
  lemma {:induction false} FinishedStays(env: Env, initial: map<nat, string>, s: State, steps: seq<Step>, id: nat)
    requires Inv(env, initial, s) && Run(env, s, steps).Some?
    requires 1 <= id <= |s.jobs| && Final(s.jobs[id - 1].status) && Jobs.InWindow(Run(env, s, steps).value.jobs, id)
    ensures Run(env, s, steps).value.jobs[id - 1] == s.jobs[id - 1]
    ensures |s.jobs| <= |Run(env, s, steps).value.jobs|
    decreases |steps|
  {
    hide Next, Fifo, Lifecycle, Counters, VerdictHolds, FilesSeparate, Store.Good;
    if steps != [] {
      GoodShape(s.tables);
      var t := Next(env, s, steps[0]).value;
      StepKeepsInv(env, initial, s, steps[0]);
      StepGrows(env, s, steps[0]);
      JobsGrow(env, initial, t, steps[1..]);
      StepLeavesFinished(env, initial, s, steps[0], id);
      FinishedStays(env, initial, t, steps[1..], id);
    }
  }

  lemma {:induction false} JobsGrow(env: Env, initial: map<nat, string>, s: State, steps: seq<Step>)
    requires Inv(env, initial, s) && Run(env, s, steps).Some?
    ensures |s.jobs| <= |Run(env, s, steps).value.jobs|
    decreases |steps|
  {
    hide Next, Inv;
    if steps != [] {
      StepKeepsInv(env, initial, s, steps[0]);
      StepGrows(env, s, steps[0]);
      JobsGrow(env, initial, Next(env, s, steps[0]).value, steps[1..]);
    }
  }

  lemma StepLeavesFinished(env: Env, initial: map<nat, string>, s: State, step: Step, id: nat)
    requires Inv(env, initial, s) && Shape(s.tables) && Next(env, s, step).Some?
    requires Jobs.InWindow(s.jobs, id) && Final(s.jobs[id - 1].status)
    ensures id <= |Next(env, s, step).value.jobs| && Next(env, s, step).value.jobs[id - 1] == s.jobs[id - 1]
  {
    hide Next, Fifo, Lifecycle, Counters, VerdictHolds, FilesSeparate, Store.Good;
    if !s.worker.Idle? { FinishedNotInHand(env, initial, s, id); }
    if step.Start? || step.Finish? { TakenByStep(env, s, step); }
    OwnJobOnly(env, s, step, id);
  }

  lemma TakenByStep(env: Env, s: State, step: Step)
    requires Shape(s.tables) && Next(env, s, step).Some? && (step.Start? || step.Finish?)
    ensures !s.worker.Idle?
  {
  }

  /** The status and the result a client is told of a finished request are those of its performing: DONE
      exactly when it succeeded, with its reply cut to the job's buffer, for as long as the job can be
      seen. */
  lemma StatusTells(env: Env, initial: map<nat, string>, s: State, steps: seq<Step>)
    requires Inv(env, initial, s) && s.worker.Performed? && Jobs.InWindow(s.jobs, s.worker.r.job)
    requires Run(env, s, [Finish] + steps).Some?
    ensures var end := Run(env, s, [Finish] + steps).value;
            Jobs.InWindow(end.jobs, s.worker.r.job) ==>
              && end.jobs[s.worker.r.job - 1].status == (if s.worker.ok then Jobs.Done else Jobs.Error)
              && end.jobs[s.worker.r.job - 1].result == Text.Cap(s.worker.reply, 2048)
              && end.jobs[s.worker.r.job - 1].client == s.jobs[s.worker.r.job - 1].client
  {
    hide Next, Fifo, Lifecycle, Counters, VerdictHolds, FilesSeparate, Store.Good;
    var id := s.worker.r.job;
    GoodShape(s.tables);
    assert ([Finish] + steps)[1..] == steps;
    var t := Next(env, s, Finish).value;
    StepKeepsInv(env, initial, s, Finish);
    OwnJobOnly(env, s, Finish, id);
    if Jobs.InWindow(Run(env, t, steps).value.jobs, id) { FinishedStays(env, initial, t, steps, id); }
  }

  // ---- The counters ----

  /** What a step adds to the counters, seen from outside. */
  datatype Tally = Tally(total: nat, failed: nat, cancelled: nat, inserts: nat, accepted: nat)

  function Count(b: bool): nat {
    if b then 1 else 0
  }

  function StepTally(s: State, step: Step, t: State): Tally {
    Tally(
      Count(step.Finish?),
      Count(step.Finish? && s.worker.Performed? && !s.worker.ok),
      Count(step.Perform? && t.worker.Performed? && t.worker.cancelled),
      Count(step.Perform? && s.worker.Started? && s.worker.r.op.ValidateInsert? && !(t.worker.Performed? && t.worker.cancelled)),
      Count(step.CancelCommand? && step.client > 0 && (step.client == s.active || step.client in s.connected)))
  }

  function Sum(a: Tally, b: Tally): Tally {
    Tally(a.total + b.total, a.failed + b.failed, a.cancelled + b.cancelled, a.inserts + b.inserts, a.accepted + b.accepted)
  }

  function RunTally(env: Env, s: State, steps: seq<Step>): Tally
    requires Run(env, s, steps).Some?
    decreases |steps|
  {
    if steps == [] then Tally(0, 0, 0, 0, 0)
    else
      var t := Next(env, s, steps[0]).value;
      Sum(StepTally(s, steps[0], t), RunTally(env, t, steps[1..]))
  }

  function Counted(s: State): Tally {
    Tally(s.total, s.failed, s.cancelled, s.inserts, s.accepted)
  }

  lemma InsertsCounted(env: Env, s: State, io: Io, reply: string)
    requires Shape(s.tables) && s.worker.Started? && PerformOp(env, s, s.worker.r, io, reply).Some?
    ensures PerformOp(env, s, s.worker.r, io, reply).value.inserts == s.inserts + Count(s.worker.r.op.ValidateInsert?)
  {
  }

  lemma ApplyCounts(env: Env, s: State, reply: string)
    requires Shape(s.tables) && s.worker.Checked? && s.worker.r.op.ValidateInsert?
    requires ApplyBatch(env, s, s.worker.r, reply).Some?
    ensures ApplyBatch(env, s, s.worker.r, reply).value.inserts == s.inserts
  {
  }

  lemma StepCounts(env: Env, s: State, step: Step)
    requires Shape(s.tables) && Next(env, s, step).Some?
    ensures var t := Next(env, s, step).value; Counted(t) == Sum(Counted(s), StepTally(s, step, t))
  {
    hide PerformOp, ApplyBatch, SetJob, Shape;
    if Works(s, step) {
      WorkFrame(env, s, step);
      if step.Apply? { ApplyCounts(env, s, step.reply); } else { InsertsCounted(env, s, step.io, step.reply); }
    }
  }

  /** In every run each counter has counted exactly its own events: every finished request, every one
      that failed, every cancellation, every INSERT that got past the flag, every accepted command. */
  lemma {:induction false} CountersCount(env: Env, s: State, steps: seq<Step>)
    requires Run(env, s, steps).Some?
    ensures Counted(Run(env, s, steps).value) == Sum(Counted(s), RunTally(env, s, steps))
    decreases |steps|
  {
    hide Next, StepTally, Shape;
    if steps != [] {
      StepCounts(env, s, steps[0]);
      CountersCount(env, Next(env, s, steps[0]).value, steps[1..]);
    }
  }

  /** From the start of the server the counters are the whole tally, and no command or client is active
      before the first step. */
  lemma CountersFromStart(env: Env, uploads: map<nat, string>, steps: seq<Step>)
    requires Run(env, Initial(uploads), steps).Some?
    ensures Counted(Run(env, Initial(uploads), steps).value) == RunTally(env, Initial(uploads), steps)
    ensures Initial(uploads).active == 0 && Initial(uploads).cancel == 0
  {
    CountersCount(env, Initial(uploads), steps);
  }
}
