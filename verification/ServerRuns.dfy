/** The server as interleaved steps: the interface thread creates a job and then pushes its request;
    the worker takes, starts, checks, performs and finishes one request at a time; the administrator
    may ask for a cancellation at any moment. Every result is about all runs. */
module ServerRuns {
  import opened Schema
  import opened SchemaLoad
  import opened InsertSyntax
  import Jobs
  import Store
  import Text

  const MAX_FILE: nat := 1_048_576
  const MAX_RESULT: nat := 2048

  /** The libraries the server calls: the JSON reader and the PostgreSQL grammar. */
  datatype Env = Env(parse: string -> Option<Json>, grammar: string -> bool)

  datatype Op =
    | UploadBegin
    | UploadChunk(data: string)
    | UploadEnd
    | GenerateSql
    | DownloadSql
    | ValidateInsert(sql: string)
    | Unknown(code: nat)

  predicate IsProcessing(op: Op) {
    op.UploadEnd? || op.GenerateSql? || op.DownloadSql? || op.ValidateInsert?
  }

  function OpCode(op: Op): nat {
    match op
    case UploadBegin => 10
    case UploadChunk(_) => 11
    case UploadEnd => 12
    case GenerateSql => 20
    case DownloadSql => 21
    case ValidateInsert(_) => 30
    case Unknown(code) => code
  }

  /** `job` is 0 for operations that are not tracked. */
  datatype Request = Request(client: nat, op: Op, job: nat)

  /** How the system calls of one request fare: a failed write may have stored part of its data. */
  datatype Io = Fine | Fails(written: Option<nat>)

  datatype Worker =
    | Idle
    | Taken(r: Request)
    | Started(r: Request)
    | Checked(r: Request)  // the child process has accepted the batch
    | Performed(r: Request, ok: bool, cancelled: bool, reply: string)

  /** What a request did to an upload file. */
  datatype FileEvent = Began(client: nat) | Wrote(client: nat, data: string)

  datatype State = State(
    jobs: seq<Jobs.Job>,
    submitting: seq<Request>,  // at most one: its job exists, it is not pushed yet
    queue: seq<Request>,
    worker: Worker,
    processed: seq<Request>,
    issued: seq<Request>,      // every request in the order the interface thread received it
    connected: set<nat>,
    active: nat,
    cancel: nat,
    accepted: nat,             // cancel commands accepted so far
    total: nat,
    failed: nat,
    cancelled: nat,
    inserts: nat,
    tables: seq<Table>,
    uploads: map<nat, string>,
    files: seq<FileEvent>)

  datatype Step =
    | Connect(client: nat)
    | Disconnect(client: nat)
    | Submit(client: nat, op: Op)
    | Push
    | CancelCommand(client: nat)
    | Take
    | Start
    | Perform(io: Io, reply: string)
    | Apply(reply: string)
    | Finish

  /** Upload files may survive from an earlier run of the server. */
  function Initial(uploads: map<nat, string>): State {
    State([], [], [], Idle, [], [], {}, 0, 0, 0, 0, 0, 0, 0, [], uploads, [])
  }

  function FileOf(uploads: map<nat, string>, client: nat): string {
    if client in uploads then uploads[client] else ""
  }

  /** The document an upload ends with, if the file can be read and parsed. */
  function Document(env: Env, uploads: map<nat, string>, client: nat, io: Io): Option<Json> {
    if io.Fine? && client in uploads && 0 < |uploads[client]| <= MAX_FILE then env.parse(uploads[client]) else None
  }

  function Performs(s: State, r: Request, ok: bool, reply: string): State {
    s.(worker := Performed(r, ok, false, reply))
  }

  /** One operation after the cancellation test. `None` once the C program has overrun a buffer. */
  function PerformOp(env: Env, s: State, r: Request, io: Io, reply: string): Option<State>
    requires Shape(s.tables)
  {
    match r.op
    case UploadBegin =>
      if io.Fine? then
        Some(Performs(s.(uploads := s.uploads[r.client := ""], files := s.files + [Began(r.client)]), r, true, reply))
      else Some(Performs(s, r, false, reply))
    case UploadChunk(data) =>
      if io.Fails? && io.written.None? then Some(Performs(s, r, false, reply))
      else
        var part := if io.Fine? || io.written.value > |data| then data else data[..io.written.value];
        Some(Performs(
          s.(uploads := s.uploads[r.client := FileOf(s.uploads, r.client) + part], files := s.files + [Wrote(r.client, part)]),
          r, io.Fine?, reply))
    case UploadEnd =>
      var loaded := LoadSchema(s.tables, Document(env, s.uploads, r.client, io));
      Some(Performs(s.(tables := loaded.value), r, loaded.error.None?, reply))
    case GenerateSql => Some(Performs(s, r, true, reply))
    case DownloadSql => Some(Performs(s, r, io.Fine?, reply))
    case ValidateInsert(sql) =>
      var t := s.(inserts := s.inserts + 1);
      if sql == "" || io.Fails? then Some(Performs(t, r, false, reply))
      else if Batch(s.tables, sql) == Err(ColumnMapOverrun) && env.grammar(sql) && s.tables != [] then None
      else if Store.ValidInsert(s.tables, env.grammar(sql), sql) then Some(t.(worker := Checked(r)))
      else Some(Performs(t, r, false, reply))
    case Unknown(_) => Some(Performs(s, r, false, reply))
  }

  /** The parent applies what the child accepted. */
  function ApplyBatch(env: Env, s: State, r: Request, reply: string): Option<State>
    requires Shape(s.tables) && r.op.ValidateInsert?
  {
    var o := Store.ApplyInsert(s.tables, env.grammar(r.op.sql), r.op.sql);
    if !o.Defined() then None
    else if o.Inserted? then Some(Performs(s.(tables := o.tables), r, true, reply))
    else Some(Performs(s, r, false, reply))
  }

  function SetJob(jobs: seq<Jobs.Job>, r: Request, status: Jobs.Status, result: string): seq<Jobs.Job> {
    if r.job > 0 then Jobs.Updated(jobs, r.job, status, result) else jobs
  }

  /** The interface thread receives a request and creates its job. */
  function Received(s: State, c: nat, op: Op): State {
    var r := Request(c, op, if IsProcessing(op) then |s.jobs| + 1 else 0);
    s.(
      jobs := if IsProcessing(op) then Jobs.Created(s.jobs, c, OpCode(op)) else s.jobs,
      submitting := [r],
      issued := s.issued + [r])
  }

  function Begins(s: State): State
    requires s.worker.Taken?
  {
    var r := s.worker.r;
    s.(worker := Started(r), active := r.client, jobs := SetJob(s.jobs, r, Jobs.Running, "running"))
  }

  function Ends(s: State): State
    requires s.worker.Performed?
  {
    var r, ok := s.worker.r, s.worker.ok;
    s.(
      worker := Idle, processed := s.processed + [r], active := 0,
      total := s.total + 1, failed := if ok then s.failed else s.failed + 1,
      jobs := SetJob(s.jobs, r, if ok then Jobs.Done else Jobs.Error, Text.Cap(s.worker.reply, MAX_RESULT)))
  }

  function Cancels(s: State): State
    requires s.worker.Started?
  {
    s.(
      worker := Performed(s.worker.r, false, true, "command cancelled by admin"),
      cancel := 0, cancelled := s.cancelled + 1)
  }

  /** The state after a step, if it can be taken and the program stays defined. */
  function Next(env: Env, s: State, step: Step): Option<State>
    requires Shape(s.tables)
  {
    match step
    case Connect(c) => if c > 0 then Some(s.(connected := s.connected + {c})) else None
    case Disconnect(c) => Some(s.(connected := s.connected - {c}))
    case Submit(c, op) => if s.submitting == [] && c in s.connected then Some(Received(s, c, op)) else None
    case Push => if s.submitting == [] then None else Some(s.(queue := s.queue + s.submitting, submitting := []))
    case CancelCommand(c) =>
      if c > 0 && (c == s.active || c in s.connected) then Some(s.(cancel := c, accepted := s.accepted + 1)) else Some(s)
    case Take =>
      if s.worker.Idle? && s.queue != [] then Some(s.(worker := Taken(s.queue[0]), queue := s.queue[1..])) else None
    case Start => if s.worker.Taken? then Some(Begins(s)) else None
    case Perform(io, reply) =>
      if !s.worker.Started? then None
      else if s.cancel == s.worker.r.client then Some(Cancels(s))
      else PerformOp(env, s, s.worker.r, io, reply)
    case Apply(reply) =>
      if s.worker.Checked? && s.worker.r.op.ValidateInsert? then ApplyBatch(env, s, s.worker.r, reply) else None
    case Finish => if s.worker.Performed? then Some(Ends(s)) else None
  }

  // ---- The invariant ----

  function Hand(w: Worker): seq<Request> {
    if w.Idle? then [] else [w.r]
  }

  predicate Begun(w: Worker) {
    w.Started? || w.Checked? || w.Performed?
  }

  /** First in, first out: what was received is what was processed, what is in hand, what waits. */
  predicate Fifo(s: State) {
    |s.submitting| <= 1 && s.issued == s.processed + Hand(s.worker) + s.queue + s.submitting
  }

  /** Jobs are numbered in the order their requests were received, without gaps. */
  predicate Numbered(s: State) {
    && Jobs.IsLog(s.jobs)
    && (forall p :: 0 <= p < |s.issued| ==> s.issued[p].job <= |s.jobs|)
    && (forall p, q :: 0 <= p < q < |s.issued| && s.issued[p].job > 0 && s.issued[q].job > 0 ==>
          s.issued[p].job < s.issued[q].job)
    && (forall id :: 1 <= id <= |s.jobs| ==> HasRequest(s.issued, id))
  }

  predicate HasRequest(issued: seq<Request>, id: nat) {
    exists p :: 0 <= p < |issued| && issued[p].job == id
  }

  /** The status a visible job must have, from the place of its request. */
  predicate StatusFits(s: State, p: nat)
    requires p < |s.issued| && 1 <= s.issued[p].job <= |s.jobs|
  {
    var status := s.jobs[s.issued[p].job - 1].status;
    if p < |s.processed| then status.Done? || status.Error?
    else if p == |s.processed| && Begun(s.worker) then status.Running?
    else status.Queued?
  }

  predicate Lifecycle(s: State) {
    forall p :: 0 <= p < |s.issued| && Jobs.InWindow(s.jobs, s.issued[p].job) ==> StatusFits(s, p)
  }

  predicate Counters(s: State) {
    && s.total == |s.processed|
    && s.failed <= s.total
    && s.cancelled + (if s.cancel > 0 then 1 else 0) <= s.accepted
    && s.cancelled <= s.failed + (if s.worker.Performed? && s.worker.cancelled then 1 else 0)
    && (s.worker.Performed? && s.worker.cancelled ==> !s.worker.ok)
    && 0 !in s.connected && forall p :: 0 <= p < |s.issued| ==> s.issued[p].client > 0
  }

  /** What the child accepted is still acceptable when the parent applies it. */
  predicate VerdictHolds(env: Env, s: State)
    requires Shape(s.tables)
  {
    s.worker.Checked? ==>
      s.worker.r.op.ValidateInsert? && Store.ValidInsert(s.tables, env.grammar(s.worker.r.op.sql), s.worker.r.op.sql)
  }

  // ---- Uploads do not mix ----

  /** The content of a client's file if only that client's events had happened. */
  function Replay(before: string, files: seq<FileEvent>, client: nat): string
    decreases |files|
  {
    if files == [] then before
    else
      var init, last := files[..|files| - 1], files[|files| - 1];
      if last.client != client then Replay(before, init, client)
      else
        match last
        case Began(_) => ""
        case Wrote(_, data) => Replay(before, init, client) + data
  }

  ghost predicate FilesSeparate(initial: map<nat, string>, s: State) {
    forall c :: FileOf(s.uploads, c) == Replay(FileOf(initial, c), s.files, c)
  }

  // ---- Every step keeps the invariant ----

  ghost predicate Inv(env: Env, initial: map<nat, string>, s: State) {
    && Store.Good(s.tables)
    && Fifo(s) && Numbered(s) && Lifecycle(s) && Counters(s)
    && VerdictHolds(env, s)
    && FilesSeparate(initial, s)
  }

  /** The worker's request is the first one not processed. */
  lemma HandPlace(s: State)
    requires Fifo(s) && !s.worker.Idle?
    ensures |s.processed| < |s.issued| && s.issued[|s.processed|] == s.worker.r
  {
    assert s.issued == s.processed + ([s.worker.r] + s.queue + s.submitting);
  }

  /** Performing a request touches neither the queue nor the job log nor the counters of the books. */
  predicate SameBooks(s: State, t: State) {
    && t.jobs == s.jobs && t.submitting == s.submitting && t.queue == s.queue
    && t.processed == s.processed && t.issued == s.issued && t.connected == s.connected
    && t.active == s.active && t.cancel == s.cancel && t.accepted == s.accepted
    && t.total == s.total && t.failed == s.failed && t.cancelled == s.cancelled
    && Begun(t.worker) && Begun(s.worker) && t.worker.r == s.worker.r
    && (t.worker.Performed? ==> !t.worker.cancelled)
  }

  lemma PerformFrame(env: Env, s: State, io: Io, reply: string)
    requires Shape(s.tables) && s.worker.Started? && PerformOp(env, s, s.worker.r, io, reply).Some?
    ensures SameBooks(s, PerformOp(env, s, s.worker.r, io, reply).value)
  {
    hide Batch, Store.ValidInsert, LoadSchema, Document, FileOf, Shape;
  }

  lemma ApplyFrame(env: Env, s: State, reply: string)
    requires Shape(s.tables) && s.worker.Checked? && s.worker.r.op.ValidateInsert?
    requires ApplyBatch(env, s, s.worker.r, reply).Some?
    ensures SameBooks(s, ApplyBatch(env, s, s.worker.r, reply).value)
  {
    hide Store.ApplyInsert;
  }

  /** A step of the performing kind that was not a cancellation. */
  predicate Works(s: State, step: Step) {
    step.Apply? || (step.Perform? && s.worker.Started? && s.cancel != s.worker.r.client)
  }

  lemma WorkFrame(env: Env, s: State, step: Step)
    requires Shape(s.tables) && Works(s, step) && Next(env, s, step).Some?
    ensures SameBooks(s, Next(env, s, step).value)
  {
    hide PerformOp, ApplyBatch, SetJob;
    if step.Apply? { ApplyFrame(env, s, step.reply); } else { PerformFrame(env, s, step.io, step.reply); }
  }

  lemma SubmitFifo(s: State, c: nat, op: Op)
    requires Fifo(s) && s.submitting == []
    ensures Fifo(Received(s, c, op))
  {
    var t := Received(s, c, op);
    var waiting := s.processed + Hand(s.worker) + s.queue;
    assert waiting + s.submitting == waiting;
  }

  lemma PushFifo(s: State)
    requires Fifo(s)
    ensures Fifo(s.(queue := s.queue + s.submitting, submitting := []))
  {
    var done := s.processed + Hand(s.worker);
    assert done + (s.queue + s.submitting) + [] == done + s.queue + s.submitting;
  }

  lemma TakeFifo(s: State)
    requires Fifo(s) && s.worker.Idle? && s.queue != []
    ensures Fifo(s.(worker := Taken(s.queue[0]), queue := s.queue[1..]))
  {
    var first, rest := [s.queue[0]], s.queue[1..];
    assert s.queue == first + rest;
    assert s.processed + [] + (first + rest) + s.submitting == s.processed + first + rest + s.submitting;
  }

  lemma FinishFifo(s: State)
    requires Fifo(s) && s.worker.Performed?
    ensures Fifo(Ends(s))
  {
    assert s.processed + [s.worker.r] + [] == s.processed + [s.worker.r];
  }

  lemma StepFifo(env: Env, s: State, step: Step)
    requires Shape(s.tables) && Fifo(s) && Next(env, s, step).Some?
    ensures Fifo(Next(env, s, step).value)
  {
    hide PerformOp, ApplyBatch, SetJob, Received, Ends, Shape;
    if Works(s, step) {
      WorkFrame(env, s, step);
    } else {
      match step
      case Submit(c, op) => SubmitFifo(s, c, op);
      case Push => PushFifo(s);
      case Take => TakeFifo(s);
      case Finish => FinishFifo(s);
      case _ =>
    }
  }

  lemma SetJobKeepsLog(jobs: seq<Jobs.Job>, r: Request, status: Jobs.Status, result: string)
    requires Jobs.IsLog(jobs)
    ensures Jobs.IsLog(SetJob(jobs, r, status, result)) && |SetJob(jobs, r, status, result)| == |jobs|
  {
  }

  lemma ReceivedNumbered(s: State, c: nat, op: Op)
    requires Numbered(s)
    ensures Numbered(Received(s, c, op))
  {
    var t := Received(s, c, op);
    forall id | 1 <= id <= |t.jobs|
      ensures HasRequest(t.issued, id)
    {
      if id <= |s.jobs| {
        assert HasRequest(s.issued, id);
        var p :| 0 <= p < |s.issued| && s.issued[p].job == id;
        assert t.issued[p].job == id;
      } else {
        assert t.issued[|s.issued|].job == id;
      }
    }
  }

  lemma SameNumbered(s: State, t: State)
    requires Numbered(s) && t.issued == s.issued && |t.jobs| == |s.jobs| && Jobs.IsLog(t.jobs)
    ensures Numbered(t)
  {
  }

  lemma StepNumbered(env: Env, s: State, step: Step)
    requires Shape(s.tables) && Numbered(s) && Next(env, s, step).Some?
    ensures Numbered(Next(env, s, step).value)
  {
    hide PerformOp, ApplyBatch, SetJob, Received, Numbered;
    var t := Next(env, s, step).value;
    LogNumbered(s);
    if Works(s, step) { WorkFrame(env, s, step); }
    match step
    case Submit(c, op) => ReceivedNumbered(s, c, op);
    case Start =>
      SetJobKeepsLog(s.jobs, s.worker.r, Jobs.Running, "running");
      SameNumbered(s, t);
    case Finish =>
      SetJobKeepsLog(s.jobs, s.worker.r, if s.worker.ok then Jobs.Done else Jobs.Error, Text.Cap(s.worker.reply, MAX_RESULT));
      SameNumbered(s, t);
    case _ => SameNumbered(s, t);
  }

  lemma LogNumbered(s: State)
    requires Numbered(s)
    ensures Jobs.IsLog(s.jobs)
  {
  }

  /** Setting the job in hand leaves the jobs of all other requests alone. */
  lemma OtherJobs(s: State, p: nat, status: Jobs.Status, result: string)
    requires Fifo(s) && Numbered(s) && !s.worker.Idle? && p < |s.issued|
    ensures var jobs := SetJob(s.jobs, s.worker.r, status, result);
            |jobs| == |s.jobs| &&
            (1 <= s.issued[p].job ==>
              if p == |s.processed| then
                Jobs.InWindow(s.jobs, s.issued[p].job) ==> jobs[s.issued[p].job - 1].status == status
              else jobs[s.issued[p].job - 1] == s.jobs[s.issued[p].job - 1])
  {
    HandPlace(s);
    var h := |s.processed|;
    if p != h && s.issued[p].job > 0 && s.worker.r.job > 0 {
      assert s.issued[p].job != s.issued[h].job;
    }
  }

  lemma ReceivedLifecycle(s: State, c: nat, op: Op)
    requires Fifo(s) && Numbered(s) && Lifecycle(s)
    ensures Lifecycle(Received(s, c, op))
  {
    var t := Received(s, c, op);
    if !s.worker.Idle? { HandPlace(s); }
    forall p | 0 <= p < |t.issued| && Jobs.InWindow(t.jobs, t.issued[p].job)
      ensures StatusFits(t, p)
    {
      if p < |s.issued| {
        assert Jobs.InWindow(s.jobs, s.issued[p].job);
        assert StatusFits(s, p);
      }
    }
  }

  lemma BeginsLifecycle(s: State)
    requires Fifo(s) && Numbered(s) && Lifecycle(s) && s.worker.Taken?
    ensures Lifecycle(Begins(s))
  {
    hide SetJob;
    var t := Begins(s);
    forall p | 0 <= p < |t.issued| && Jobs.InWindow(t.jobs, t.issued[p].job)
      ensures StatusFits(t, p)
    {
      OtherJobs(s, p, Jobs.Running, "running");
      assert StatusFits(s, p);
    }
  }

  lemma EndsLifecycle(s: State)
    requires Fifo(s) && Numbered(s) && Lifecycle(s) && s.worker.Performed?
    ensures Lifecycle(Ends(s))
  {
    hide SetJob;
    var t := Ends(s);
    forall p | 0 <= p < |t.issued| && Jobs.InWindow(t.jobs, t.issued[p].job)
      ensures StatusFits(t, p)
    {
      OtherJobs(s, p, if s.worker.ok then Jobs.Done else Jobs.Error, Text.Cap(s.worker.reply, MAX_RESULT));
      assert StatusFits(s, p);
    }
  }

  lemma SameLifecycle(s: State, t: State)
    requires Lifecycle(s) && t.issued == s.issued && t.jobs == s.jobs && t.processed == s.processed
    requires Begun(t.worker) == Begun(s.worker)
    ensures Lifecycle(t)
  {
    forall p | 0 <= p < |t.issued| && Jobs.InWindow(t.jobs, t.issued[p].job)
      ensures StatusFits(t, p)
    {
      assert StatusFits(s, p);
    }
  }

  lemma StepLifecycle(env: Env, s: State, step: Step)
    requires Shape(s.tables) && Fifo(s) && Numbered(s) && Lifecycle(s) && Next(env, s, step).Some?
    ensures Lifecycle(Next(env, s, step).value)
  {
    hide PerformOp, ApplyBatch, Received, Begins, Ends, Fifo, Numbered, Lifecycle;
    var t := Next(env, s, step).value;
    if Works(s, step) { WorkFrame(env, s, step); }
    match step
    case Submit(c, op) => ReceivedLifecycle(s, c, op);
    case Start => BeginsLifecycle(s);
    case Finish => EndsLifecycle(s);
    case _ => SameLifecycle(s, t);
  }

  lemma StepCounters(env: Env, s: State, step: Step)
    requires Shape(s.tables) && Fifo(s) && Counters(s) && Next(env, s, step).Some?
    ensures Counters(Next(env, s, step).value)
  {
    hide PerformOp, ApplyBatch, SetJob;
    if Works(s, step) { WorkFrame(env, s, step); }
    if !s.worker.Idle? { HandPlace(s); }
  }

  lemma StepVerdict(env: Env, s: State, step: Step)
    requires Store.Good(s.tables) && VerdictHolds(env, s) && Next(env, s, step).Some?
    ensures Store.Good(Next(env, s, step).value.tables) && VerdictHolds(env, Next(env, s, step).value)
  {
    hide Batch, Store.ValidInsert, Store.ApplyInsert, LoadSchema, SetJob, Document, Store.Good;
    assert Shape(s.tables) by { GoodShape(s.tables); }
    var t := Next(env, s, step).value;
    match step
    case Perform(io, reply) =>
      if s.worker.r.op.UploadEnd? && t.tables != s.tables {
        Store.RequestKeepsGood(s.tables, Store.Load(Document(env, s.uploads, s.worker.r.client, io)));
      }
    case Apply(reply) =>
      var sql := s.worker.r.op.sql;
      Store.RequestKeepsGood(s.tables, Store.Insert(env.grammar(sql), sql));
    case _ =>
  }

  lemma GoodShape(ts: seq<Table>)
    requires Store.Good(ts)
    ensures Shape(ts)
  {
  }

  lemma ReplayAdds(before: string, files: seq<FileEvent>, e: FileEvent, c: nat)
    ensures Replay(before, files + [e], c) ==
            if e.client != c then Replay(before, files, c)
            else if e.Began? then ""
            else Replay(before, files, c) + e.data
  {
    assert (files + [e])[..|files|] == files;
  }

  lemma PerformFiles(env: Env, initial: map<nat, string>, s: State, io: Io, reply: string)
    requires Shape(s.tables) && s.worker.Started? && FilesSeparate(initial, s)
    requires PerformOp(env, s, s.worker.r, io, reply).Some?
    ensures FilesSeparate(initial, PerformOp(env, s, s.worker.r, io, reply).value)
  {
    hide Batch, Store.ValidInsert, LoadSchema, Document, Replay, Shape;
    var t := PerformOp(env, s, s.worker.r, io, reply).value;
    forall c
      ensures FileOf(t.uploads, c) == Replay(FileOf(initial, c), t.files, c)
    {
      assert FileOf(s.uploads, c) == Replay(FileOf(initial, c), s.files, c);
      if t.files != s.files {
        var e := t.files[|t.files| - 1];
        assert t.files == s.files + [e];
        ReplayAdds(FileOf(initial, c), s.files, e, c);
      }
    }
  }

  lemma SameFiles(initial: map<nat, string>, s: State, t: State)
    requires FilesSeparate(initial, s) && t.uploads == s.uploads && t.files == s.files
    ensures FilesSeparate(initial, t)
  {
    forall c
      ensures FileOf(t.uploads, c) == Replay(FileOf(initial, c), t.files, c)
    {
      assert FileOf(s.uploads, c) == Replay(FileOf(initial, c), s.files, c);
    }
  }

  lemma StepFiles(env: Env, initial: map<nat, string>, s: State, step: Step)
    requires Shape(s.tables) && FilesSeparate(initial, s) && Next(env, s, step).Some?
    ensures FilesSeparate(initial, Next(env, s, step).value)
  {
    hide PerformOp, FilesSeparate, SetJob, Store.ApplyInsert, Shape;
    var t := Next(env, s, step).value;
    if step.Perform? && s.cancel != s.worker.r.client {
      PerformFiles(env, initial, s, step.io, step.reply);
    } else {
      SameFiles(initial, s, t);
    }
  }

  lemma StepKeepsInv(env: Env, initial: map<nat, string>, s: State, step: Step)
    requires Inv(env, initial, s) && Next(env, s, step).Some?
    ensures Inv(env, initial, Next(env, s, step).value)
  {
    hide Next, Fifo, Numbered, Lifecycle, Counters, VerdictHolds, FilesSeparate, Store.Good;
    GoodShape(s.tables);
    StepFifo(env, s, step);
    StepNumbered(env, s, step);
    StepLifecycle(env, s, step);
    StepCounters(env, s, step);
    StepVerdict(env, s, step);
    StepFiles(env, initial, s, step);
  }

  // ---- Runs ----

  /** The state after a run, if every step of it can be taken. */
  function Run(env: Env, s: State, steps: seq<Step>): Option<State>
    decreases |steps|
  {
    if steps == [] then Some(s)
    else if !Shape(s.tables) then None
    else
      match Next(env, s, steps[0])
      case None => None
      case Some(t) => Run(env, t, steps[1..])
  }

  lemma {:induction false} RunKeepsInv(env: Env, initial: map<nat, string>, s: State, steps: seq<Step>)
    requires Inv(env, initial, s) && Run(env, s, steps).Some?
    ensures Inv(env, initial, Run(env, s, steps).value)
    decreases |steps|
  {
    hide Next, Inv;
    if steps != [] {
      StepKeepsInv(env, initial, s, steps[0]);
      RunKeepsInv(env, initial, Next(env, s, steps[0]).value, steps[1..]);
    }
  }

  lemma InitialInv(env: Env, initial: map<nat, string>)
    ensures Inv(env, initial, Initial(initial))
  {
    Store.RunKeepsIntegrity([]);
    assert Store.AfterRun([]) == Some([]);
    assert FilesSeparate(initial, Initial(initial));
  }

  ghost predicate Reachable(env: Env, initial: map<nat, string>, s: State) {
    exists steps :: Run(env, Initial(initial), steps) == Some(s)
  }

  lemma ReachableInv(env: Env, initial: map<nat, string>, s: State)
    requires Reachable(env, initial, s)
    ensures Inv(env, initial, s)
  {
    var steps :| Run(env, Initial(initial), steps) == Some(s);
    InitialInv(env, initial);
    RunKeepsInv(env, initial, Initial(initial), steps);
  }

  // ---- Queue and jobs ----

  /** In every reachable state the requests, in the order they were received, are those processed,
      the one in hand, those queued and the one being submitted; and the jobs still outstanding are
      numbered upwards in that same order. */
  lemma FirstInFirstOut(env: Env, initial: map<nat, string>, s: State)
    requires Reachable(env, initial, s)
    ensures s.issued == s.processed + Hand(s.worker) + s.queue + s.submitting
    ensures var outstanding := Hand(s.worker) + s.queue + s.submitting;
            forall i, j :: 0 <= i < j < |outstanding| && outstanding[i].job > 0 && outstanding[j].job > 0 ==>
              outstanding[i].job < outstanding[j].job
  {
    hide VerdictHolds, FilesSeparate, Counters, Lifecycle, Store.Good, Reachable, Jobs.IsLog, HasRequest;
    ReachableInv(env, initial, s);
    var outstanding := Hand(s.worker) + s.queue + s.submitting;
    assert s.issued == s.processed + outstanding;
    forall i, j | 0 <= i < j < |outstanding| && outstanding[i].job > 0 && outstanding[j].job > 0
      ensures outstanding[i].job < outstanding[j].job
    {
      assert s.issued[|s.processed| + i] == outstanding[i] && s.issued[|s.processed| + j] == outstanding[j];
    }
  }

  lemma PlaceOfJob(s: State, id: nat) returns (p: nat)
    requires Numbered(s) && Lifecycle(s) && Jobs.InWindow(s.jobs, id)
    ensures p < |s.issued| && s.issued[p].job == id && StatusFits(s, p)
  {
    assert HasRequest(s.issued, id);
    p :| 0 <= p < |s.issued| && s.issued[p].job == id;
  }

  predicate Names(requests: seq<Request>, id: nat) {
    exists i :: 0 <= i < |requests| && requests[i].job == id
  }

  /** Whether a stretch of the issued requests names a job is decided by the job's place. */
  lemma NamesStretch(s: State, id: nat, p: nat, from: nat, to: nat)
    requires Numbered(s) && id > 0 && p < |s.issued| && s.issued[p].job == id && from <= to <= |s.issued|
    ensures Names(s.issued[from..to], id) <==> from <= p < to
  {
    UniquePlace(s, id, p);
    if from <= p < to { assert s.issued[from..to][p - from].job == id; }
    if Names(s.issued[from..to], id) {
      var i :| 0 <= i < to - from && s.issued[from..to][i].job == id;
      assert s.issued[from + i].job == id;
    }
  }

  /** The requests that have been received but not started. */
  function Unstarted(s: State): seq<Request> {
    (if Begun(s.worker) then [] else Hand(s.worker)) + s.queue + s.submitting
  }

  /** A job that can still be seen is DONE or ERROR exactly when its request has been processed,
      RUNNING exactly when the worker is executing it, QUEUED exactly when it has not been started. */
  lemma VisibleStatus(env: Env, initial: map<nat, string>, s: State, id: nat)
    requires Reachable(env, initial, s) && Jobs.InWindow(s.jobs, id)
    ensures var status := s.jobs[id - 1].status;
            && (status.Done? || status.Error? <==> Names(s.processed, id))
            && (status.Running? <==> Begun(s.worker) && s.worker.r.job == id)
            && (status.Queued? <==> Names(Unstarted(s), id))
  {
    hide Names, VerdictHolds, FilesSeparate, Counters, Store.Good, Fifo, Unstarted, Reachable;
    ReachableInv(env, initial, s);
    var p := PlaceOfJob(s, id);
    UniquePlace(s, id, p);
    var first := Stretches(s);
    NamesStretch(s, id, p, 0, |s.processed|);
    NamesStretch(s, id, p, first, |s.issued|);
  }

  lemma Stretches(s: State) returns (first: nat)
    requires Fifo(s)
    ensures |s.processed| <= first <= |s.issued|
    ensures s.issued[0..|s.processed|] == s.processed && s.issued[first..|s.issued|] == Unstarted(s)
    ensures if Begun(s.worker) then first == |s.processed| + 1 && s.issued[|s.processed|] == s.worker.r
            else first == |s.processed|
  {
    first := |s.issued| - |Unstarted(s)|;
    var done := if Begun(s.worker) then s.processed + Hand(s.worker) else s.processed;
    assert s.issued == done + Unstarted(s);
  }

  lemma UniquePlace(s: State, id: nat, p: nat)
    requires Numbered(s) && id > 0 && p < |s.issued| && s.issued[p].job == id
    ensures forall q :: 0 <= q < |s.issued| && s.issued[q].job == id ==> q == p
  {
  }

  lemma OneRunning(env: Env, initial: map<nat, string>, s: State, id: nat, other: nat)
    requires Reachable(env, initial, s)
    requires Jobs.InWindow(s.jobs, id) && Jobs.InWindow(s.jobs, other)
    requires s.jobs[id - 1].status.Running? && s.jobs[other - 1].status.Running?
    ensures id == other
  {
    VisibleStatus(env, initial, s, id);
    VisibleStatus(env, initial, s, other);
  }

  function Rank(status: Jobs.Status): nat {
    match status
    case Queued => 0
    case Running => 1
    case _ => 2
  }

  /** What no step takes back. */
  predicate Grows(s: State, t: State) {
    && |s.jobs| <= |t.jobs| && s.issued <= t.issued && s.processed <= t.processed
    && (|t.processed| == |s.processed| && Begun(s.worker) ==> Begun(t.worker))
  }

  lemma StepGrows(env: Env, s: State, step: Step)
    requires Shape(s.tables) && Next(env, s, step).Some?
    ensures Grows(s, Next(env, s, step).value)
  {
    hide PerformOp, ApplyBatch, Shape;
    if Works(s, step) { WorkFrame(env, s, step); }
  }

  lemma GrowsForward(s: State, t: State, id: nat)
    requires Numbered(s) && Lifecycle(s) && Numbered(t) && Lifecycle(t) && Grows(s, t)
    requires id <= |s.jobs| && Jobs.InWindow(t.jobs, id)
    ensures Rank(s.jobs[id - 1].status) <= Rank(t.jobs[id - 1].status)
  {
    var p := PlaceOfJob(s, id);
    assert t.issued[p] == s.issued[p];
    assert StatusFits(t, p);
  }

  /** Between any two moments of a run, a job that can be seen at both has not moved backwards. */
  lemma {:induction false} JobsMoveForward(env: Env, initial: map<nat, string>, s: State, steps: seq<Step>, id: nat)
    requires Inv(env, initial, s) && Run(env, s, steps).Some?
    requires 1 <= id <= |s.jobs| && Jobs.InWindow(Run(env, s, steps).value.jobs, id)
    ensures |s.jobs| <= |Run(env, s, steps).value.jobs|
    ensures Rank(s.jobs[id - 1].status) <= Rank(Run(env, s, steps).value.jobs[id - 1].status)
    decreases |steps|
  {
    hide Next, Fifo, Numbered, Lifecycle, Counters, VerdictHolds, FilesSeparate, Store.Good, Rank;
    if steps != [] {
      GoodShape(s.tables);
      var t := Next(env, s, steps[0]).value;
      StepKeepsInv(env, initial, s, steps[0]);
      StepGrows(env, s, steps[0]);
      JobsMoveForward(env, initial, t, steps[1..], id);
      GrowsForward(s, t, id);
    }
  }

  // ---- Counters ----

  /** The counters of every reachable state: each finished request is counted once, every
      cancellation answers its own accepted command, and between requests every cancelled one has
      been counted as failed. */
  lemma CountersAgree(env: Env, initial: map<nat, string>, s: State)
    requires Reachable(env, initial, s)
    ensures s.total == |s.processed| && s.failed <= s.total
    ensures s.cancelled <= s.accepted && (s.cancel > 0 ==> s.cancelled < s.accepted)
    ensures s.cancelled <= s.failed + 1
    ensures s.worker.Idle? ==> s.cancelled <= s.failed <= s.total
  {
    ReachableInv(env, initial, s);
  }

  // ---- Tables ----

  /** Every constraint holds of the stored rows at every moment of every run, and the parent never
      refuses a batch its child has accepted. */
  lemma TablesAlwaysGood(env: Env, initial: map<nat, string>, s: State, reply: string)
    requires Reachable(env, initial, s)
    ensures Store.Good(s.tables) && Shape(s.tables)
    ensures s.worker.Checked? ==>
              match Next(env, s, Apply(reply))
              case None => true
              case Some(t) => t.worker.Performed? && t.worker.ok && t.worker.r == s.worker.r
  {
    hide Batch, Fits;
    ReachableInv(env, initial, s);
    GoodShape(s.tables);
    if s.worker.Checked? {
      var sql := s.worker.r.op.sql;
      Store.ChildAndParentAgree(s.tables, env.grammar(sql), sql);
    }
  }

  // ---- Files ----

  function OwnEvents(files: seq<FileEvent>, client: nat): seq<FileEvent> {
    if files == [] then []
    else
      OwnEvents(files[..|files| - 1], client) +
      (if files[|files| - 1].client == client then [files[|files| - 1]] else [])
  }

  lemma {:induction false} ReplayOwn(before: string, files: seq<FileEvent>, client: nat)
    ensures Replay(before, files, client) == Replay(before, OwnEvents(files, client), client)
    decreases |files|
  {
    if files != [] {
      var init, last := files[..|files| - 1], files[|files| - 1];
      ReplayOwn(before, init, client);
      if last.client == client { ReplayAdds(before, OwnEvents(init, client), last, client); }
      assert OwnEvents(init, client) + [] == OwnEvents(init, client);
    }
  }

  function Writes(client: nat, parts: seq<string>): (r: seq<FileEvent>)
    ensures |r| == |parts|
  {
    seq(|parts|, i requires 0 <= i < |parts| => Wrote(client, parts[i]))
  }

  lemma {:induction false} ReplayWrites(before: string, files: seq<FileEvent>, client: nat, parts: seq<string>)
    ensures Replay(before, files + Writes(client, parts), client) == Replay(before, files, client) + Text.Joined(parts)
    decreases |parts|
  {
    hide Replay;
    if parts == [] {
      assert files + Writes(client, parts) == files;
    } else {
      hide Text.Joined;
      var init, part := parts[..|parts| - 1], parts[|parts| - 1];
      assert parts == init + [part];
      WritesMore(files, client, init, part);
      Text.JoinedMore(init, part);
      ReplayWrites(before, files, client, init);
      ReplayAdds(before, files + Writes(client, init), Wrote(client, part), client);
      assert Replay(before, files, client) + Text.Joined(init) + part ==
             Replay(before, files, client) + (Text.Joined(init) + part);
    }
  }

  lemma WritesMore(files: seq<FileEvent>, client: nat, parts: seq<string>, part: string)
    ensures files + Writes(client, parts + [part]) == (files + Writes(client, parts)) + [Wrote(client, part)]
  {
  }

  lemma UploadKept(
      env: Env, initial: map<nat, string>, s: State, client: nat, earlier: seq<FileEvent>, parts: seq<string>)
    requires Inv(env, initial, s)
    requires OwnEvents(s.files, client) == earlier + [Began(client)] + Writes(client, parts)
    ensures FileOf(s.uploads, client) == Text.Joined(parts)
  {
    hide Fifo, Numbered, Lifecycle, Counters, VerdictHolds, Store.Good, Replay, OwnEvents, Writes, FileOf;
    var before := FileOf(initial, client);
    ReplayOwn(before, s.files, client);
    ReplayWrites(before, earlier + [Began(client)], client, parts);
    ReplayAdds(before, earlier, Began(client), client);
    assert "" + Text.Joined(parts) == Text.Joined(parts);
  }

  /** Uploads do not mix: whatever the interleaving with other clients, once a client's own events end
      with a begin and some writes, its file is exactly those writes in order. */
  lemma UploadIsOwnChunks(
      env: Env, initial: map<nat, string>, s: State, client: nat, earlier: seq<FileEvent>, parts: seq<string>)
    requires Reachable(env, initial, s)
    requires OwnEvents(s.files, client) == earlier + [Began(client)] + Writes(client, parts)
    ensures FileOf(s.uploads, client) == Text.Joined(parts)
  {
    ReachableInv(env, initial, s);
    UploadKept(env, initial, s, client, earlier, parts);
  }
}
