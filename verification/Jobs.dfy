/** The job ring and the history ring of the shared state, each shown to behave as an unbounded log of
    which only the newest entries can be seen. */
module Jobs {
  const MAX_JOBS: nat := 128
  const MAX_HISTORY: nat := 128
  const MAX_CLIENTS: nat := 128
  const MAX_COMMAND: nat := 128

  datatype Status = Queued | Running | Done | Error

  /** A job; the identifier 0 marks a slot never used. */
  datatype Job = Job(id: nat, client: nat, op: nat, status: Status, result: string)

  const NO_JOB: Job := Job(0, 0, 0, Queued, "")

  // ---- The unbounded log ----

  /** Entry `i` is job `i + 1`. */
  predicate IsLog(log: seq<Job>) {
    forall i :: 0 <= i < |log| ==> log[i].id == i + 1
  }

  /** Job `id` is among the last MAX_JOBS created. */
  predicate InWindow(log: seq<Job>, id: nat) {
    1 <= id <= |log| < id + MAX_JOBS
  }

  function Created(log: seq<Job>, client: nat, op: nat): (r: seq<Job>)
    ensures IsLog(log) ==> IsLog(r)
  {
    log + [Job(|log| + 1, client, op, Queued, "queued")]
  }

  /** An update reaches a job while it can be seen and is lost afterwards. */
  function Updated(log: seq<Job>, id: nat, status: Status, result: string): (r: seq<Job>)
    ensures |r| == |log|
    ensures IsLog(log) ==> IsLog(r)
  {
    if InWindow(log, id) then log[id - 1 := log[id - 1].(status := status, result := result)] else log
  }

  /** The newest job of a client, or 0. */
  function LastOf(log: seq<Job>, client: nat): (id: nat)
    ensures id <= |log|
    ensures id > 0 ==> log[id - 1].client == client
    ensures forall i :: id <= i < |log| ==> log[i].client != client
  {
    if log == [] then 0
    else if log[|log| - 1].client == client then |log|
    else LastOf(log[..|log| - 1], client)
  }

  // ---- The ring ----

  /** What slot `s` of the ring holds: the newest job whose identifier falls on it. */
  function Slot(log: seq<Job>, s: nat): Job {
    if log == [] then NO_JOB
    else if |log| % MAX_JOBS == s then log[|log| - 1]
    else Slot(log[..|log| - 1], s)
  }

  lemma {:induction false} SlotHolds(log: seq<Job>, id: nat)
    requires InWindow(log, id)
    ensures Slot(log, id % MAX_JOBS) == log[id - 1]
    decreases |log|
  {
    if id < |log| {
      SlotHolds(log[..|log| - 1], id);
      DistinctSlots(id, |log|);
    }
  }

  lemma DistinctSlots(a: nat, b: nat)
    requires a < b < a + MAX_JOBS
    ensures a % MAX_JOBS != b % MAX_JOBS
  {
    assert b - a == MAX_JOBS * (b / MAX_JOBS - a / MAX_JOBS) + (b % MAX_JOBS - a % MAX_JOBS);
  }

  /** No slot holds a job that is out of the window, and each holds the job that belongs there. */
  lemma {:induction false} SlotInWindow(log: seq<Job>, s: nat, slack: nat)
    requires IsLog(log) && s < MAX_JOBS && slack < MAX_JOBS
    requires forall k :: |log| < k <= |log| + slack ==> k % MAX_JOBS != s
    ensures Slot(log, s).id > 0 ==>
              && Slot(log, s).id <= |log| && |log| + slack < Slot(log, s).id + MAX_JOBS
              && Slot(log, s).id % MAX_JOBS == s && Slot(log, s) == log[Slot(log, s).id - 1]
    decreases |log|
  {
    if log != [] && |log| % MAX_JOBS != s {
      if slack + 1 < MAX_JOBS {
        SlotInWindow(log[..|log| - 1], s, slack + 1);
      } else {
        AllSlotsHit(|log|, s);
      }
    }
  }

  lemma AllSlotsHit(n: nat, s: nat)
    requires s < MAX_JOBS
    ensures exists k :: n <= k < n + MAX_JOBS && k % MAX_JOBS == s
  {
    var r := n % MAX_JOBS;
    var k := if r <= s then n - r + s else n - r + s + MAX_JOBS;
    assert n - r == MAX_JOBS * (n / MAX_JOBS);
    assert k % MAX_JOBS == s by {
      if r <= s { Remainder(n / MAX_JOBS, s); } else { Remainder(n / MAX_JOBS + 1, s); }
    }
  }

  lemma Remainder(q: nat, s: nat)
    requires s < MAX_JOBS
    ensures (MAX_JOBS * q + s) % MAX_JOBS == s
  {
  }

  /** Updating a visible job changes its own slot and no other. */
  lemma {:induction false} SlotUpdated(log: seq<Job>, id: nat, j: Job, s: nat)
    requires InWindow(log, id)
    ensures Slot(log[id - 1 := j], s) == if s == id % MAX_JOBS then j else Slot(log, s)
    decreases |log|
  {
    if id < |log| {
      DistinctSlots(id, |log|);
      assert log[id - 1 := j][..|log| - 1] == log[..|log| - 1][id - 1 := j];
      SlotUpdated(log[..|log| - 1], id, j, s);
    } else {
      assert log[id - 1 := j][..|log| - 1] == log[..|log| - 1];
    }
  }

  lemma {:induction false} LastUpdated(log: seq<Job>, i: nat, j: Job, client: nat)
    requires i < |log| && j.client == log[i].client
    ensures LastOf(log[i := j], client) == LastOf(log, client)
    decreases |log|
  {
    var init := log[..|log| - 1];
    if i + 1 < |log| {
      assert log[i := j][..|log| - 1] == init[i := j];
      LastUpdated(init, i, j, client);
    } else {
      assert log[i := j][..|log| - 1] == init;
    }
  }

  /** How a client names the job it asks about. */
  datatype JobQuery = Latest | Numbered(id: int) | Unreadable

  datatype JobReply = InvalidId | NotFound | Info(job: Job)

  /** A client is told about a job exactly when the job is its own and still in the window. */
  function Reply(log: seq<Job>, client: nat, q: JobQuery): JobReply {
    var id := match q
              case Latest => if client < MAX_CLIENTS then LastOf(log, client) else 0
              case Numbered(n) => n
              case Unreadable => -1;
    if id <= 0 then InvalidId
    else if InWindow(log, id) && log[id - 1].client == client then Info(log[id - 1])
    else NotFound
  }

  /** The job a query asks for: the numbered one, or the client's newest, 0 when it has none. The newest
      is remembered for clients below MAX_CLIENTS only. */
  predicate Asks(log: seq<Job>, client: nat, q: JobQuery, id: int) {
    match q
    case Numbered(n) => id == n
    case Latest =>
      && client < MAX_CLIENTS && 0 <= id <= |log|
      && (id > 0 ==> log[id - 1].client == client)
      && forall i :: id <= i < |log| ==> log[i].client != client
    case Unreadable => false
  }

  /** The job with that identifier can be seen and is the client's own. */
  predicate OwnVisible(log: seq<Job>, client: nat, id: int) {
    0 < id <= |log| < id + MAX_JOBS && log[id - 1].client == client
  }

  /** A client is told of exactly its own visible jobs. An identifier that cannot be one is invalid, and
      any other, a job of another client or one that has been evicted included, is not found. */
  lemma ReplyMeans(log: seq<Job>, client: nat, q: JobQuery, id: int)
    requires Asks(log, client, q, id)
    ensures id <= 0 <==> Reply(log, client, q) == InvalidId
    ensures id > 0 && !OwnVisible(log, client, id) <==> Reply(log, client, q) == NotFound
    ensures OwnVisible(log, client, id) ==> Reply(log, client, q) == Info(log[id - 1])
  {
    if q.Latest? { NewestIs(log, client, id); }
  }

  /** A query that names no job is invalid. */
  lemma ReplyInvalid(log: seq<Job>, client: nat, q: JobQuery)
    requires q.Unreadable? || (q.Latest? && client >= MAX_CLIENTS)
    ensures Reply(log, client, q) == InvalidId
  {
  }

  lemma NewestIs(log: seq<Job>, client: nat, id: int)
    requires Asks(log, client, Latest, id)
    ensures id == LastOf(log, client)
  {
    var last := LastOf(log, client);
    assert last > 0 ==> log[last - 1].client == client;
  }

  class JobTable {
    const jobs: array<Job>
    const lastByClient: array<nat>
    var nextId: nat
    ghost var log: seq<Job>

    ghost predicate Valid()
      reads this, jobs, lastByClient
    {
      && jobs.Length == MAX_JOBS && lastByClient.Length == MAX_CLIENTS && jobs as object != lastByClient
      && IsLog(log) && nextId == |log| + 1
      && (forall s :: 0 <= s < MAX_JOBS ==> jobs[s] == Slot(log, s))
      && (forall c :: 0 <= c < MAX_CLIENTS ==> lastByClient[c] == LastOf(log, c))
    }

    constructor ()
      ensures Valid() && log == [] && fresh(jobs) && fresh(lastByClient)
    {
      jobs := new Job[MAX_JOBS](_ => NO_JOB);
      lastByClient := new nat[MAX_CLIENTS](_ => 0);
      nextId := 1;
      log := [];
    }

    /** `job_create`: takes over the slot of the job MAX_JOBS before. */
    method Create(client: nat, op: nat) returns (id: nat)
      requires Valid()
      modifies this, jobs, lastByClient
      ensures Valid() && log == Created(old(log), client, op) && id == |log|
    {
      id := nextId;
      nextId := nextId + 1;
      jobs[id % MAX_JOBS] := Job(id, client, op, Queued, "queued");
      if client < MAX_CLIENTS { lastByClient[client] := id; }
      log := Created(log, client, op);
      assert log[..|log| - 1] == old(log);
    }

    /** `job_find`: the first slot that carries the identifier. */
    method Find(id: nat) returns (slot: nat)
      requires Valid() && id > 0
      ensures slot <= MAX_JOBS && (slot < MAX_JOBS <==> InWindow(log, id))
      ensures slot < MAX_JOBS ==> slot == id % MAX_JOBS && jobs[slot] == log[id - 1]
    {
      slot := 0;
      while slot < MAX_JOBS && jobs[slot].id != id
        invariant slot <= MAX_JOBS && forall s :: 0 <= s < slot ==> jobs[s].id != id
      {
        slot := slot + 1;
      }
      if slot < MAX_JOBS { SlotInWindow(log, slot, 0); }
      if InWindow(log, id) {
        SlotHolds(log, id);
        assert jobs[id % MAX_JOBS].id == id;
      }
    }

    /** `job_update` with a result text. */
    method Update(id: nat, status: Status, result: string)
      requires Valid() && id > 0
      modifies this`log, jobs
      ensures Valid() && log == Updated(old(log), id, status, result)
    {
      var slot := Find(id);
      if slot == MAX_JOBS { return; }
      var job := jobs[slot].(status := status, result := result);
      forall s | 0 <= s < MAX_JOBS
        ensures Slot(log[id - 1 := job], s) == if s == slot then job else Slot(log, s)
      {
        SlotUpdated(log, id, job, s);
      }
      forall c | 0 <= c < MAX_CLIENTS
        ensures LastOf(log[id - 1 := job], c) == LastOf(log, c)
      {
        LastUpdated(log, id - 1, job, c);
      }
      jobs[slot] := job;
      log := log[id - 1 := job];
    }

    /** `respond_job_info`. */
    method Answer(client: nat, q: JobQuery) returns (r: JobReply)
      requires Valid()
      ensures r == Reply(log, client, q)
      ensures forall id :: Asks(log, client, q, id) ==>
                r == if id <= 0 then InvalidId else if OwnVisible(log, client, id) then Info(log[id - 1]) else NotFound
      ensures q.Unreadable? || (q.Latest? && client >= MAX_CLIENTS) ==> r == InvalidId
    {
      forall id | Asks(log, client, q, id)
        ensures Reply(log, client, q) ==
                if id <= 0 then InvalidId else if OwnVisible(log, client, id) then Info(log[id - 1]) else NotFound
      {
        ReplyMeans(log, client, q, id);
      }
      var id: int := -1;
      match q {
        case Latest => id := if client < MAX_CLIENTS then lastByClient[client] else 0;
        case Numbered(n) => id := n;
        case Unreadable =>
      }
      if id <= 0 { return InvalidId; }
      var slot := Find(id);
      if slot == MAX_JOBS || jobs[slot].client != client { return NotFound; }
      return Info(jobs[slot]);
    }
  }

  // ---- History ----

  function Newest<T>(log: seq<T>, n: nat): seq<T> {
    if |log| <= n then log else log[|log| - n..]
  }

  class History {
    const lines: array<string>
    var count: nat
    ghost var log: seq<string>

    ghost predicate Valid()
      reads this, lines
    {
      && lines.Length == MAX_HISTORY && count == |log|
      && forall i :: 0 <= i < |log| < i + 1 + MAX_HISTORY ==> lines[i % MAX_HISTORY] == log[i]
    }

    constructor ()
      ensures Valid() && log == []
    {
      lines := new string[MAX_HISTORY](_ => "");
      count := 0;
      log := [];
    }

    /** `history_add`: a line longer than its buffer is cut. */
    method Add(line: string)
      requires Valid()
      modifies this, lines
      ensures Valid()
      ensures log == old(log) + [if |line| < MAX_COMMAND then line else line[..MAX_COMMAND - 1]]
    {
      var kept := if |line| < MAX_COMMAND then line else line[..MAX_COMMAND - 1];
      forall i | 0 <= i < |log| < i + MAX_HISTORY
        ensures i % MAX_HISTORY != |log| % MAX_HISTORY
      {
        DistinctSlots(i, |log|);
      }
      lines[count % MAX_HISTORY] := kept;
      log := log + [kept];
      count := count + 1;
    }

    /** The history report: exactly the newest lines, oldest of them first. */
    method Report() returns (report: seq<string>)
      requires Valid()
      ensures report == Newest(log, MAX_HISTORY)
    {
      var start := if count > MAX_HISTORY then count - MAX_HISTORY else 0;
      report := [];
      for i := start to count
        invariant report == log[start..i]
      {
        report := report + [lines[i % MAX_HISTORY]];
      }
    }
  }
}
