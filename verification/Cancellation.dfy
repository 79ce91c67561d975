/** Cancel commands over whole runs of the server: what an accepted command does to the requests of the
    client it names, and exactly when it is lost. */
module Cancellation {
  import opened Schema
  import opened ServerRuns
  import Store

  predicate Holds(w: Worker, client: nat) {
    !w.Idle? && w.r.client == client
  }

  /** The worker has a request of the client in hand that is already past the test of the flag. */
  predicate PastTest(w: Worker, client: nat) {
    (w.Checked? || w.Performed?) && w.r.client == client
  }

  /** The step at which a request of the client meets the flag. */
  predicate IsTest(s: State, step: Step, client: nat) {
    step.Perform? && s.worker.Started? && s.worker.r.client == client
  }

  function Own(rs: seq<Request>, client: nat): seq<Request> {
    if rs == [] then []
    else Own(rs[..|rs| - 1], client) + if rs[|rs| - 1].client == client then [rs[|rs| - 1]] else []
  }

  lemma OwnMore(rs: seq<Request>, r: Request, client: nat)
    ensures Own(rs + [r], client) == Own(rs, client) + if r.client == client then [r] else []
  {
    assert (rs + [r])[..|rs|] == rs;
  }

  predicate NoCommands(steps: seq<Step>) {
    forall i :: 0 <= i < |steps| ==> !steps[i].CancelCommand?
  }

  predicate Untouched(s: State, t: State) {
    t.tables == s.tables && t.uploads == s.uploads && t.files == s.files
  }

  /** No step of the run that is taken with a request of the client in hand changes a table or a file. */
  predicate Spared(env: Env, s: State, steps: seq<Step>, client: nat)
    requires Run(env, s, steps).Some?
    decreases |steps|
  {
    steps == [] ||
    var t := Next(env, s, steps[0]).value;
    (Holds(s.worker, client) ==> Untouched(s, t)) && Spared(env, t, steps[1..], client)
  }

  /** The flag still names the client, and since `s` nothing of the client has been done. */
  predicate StillNamed(env: Env, s: State, steps: seq<Step>, client: nat) {
    var end := Run(env, s, steps);
    && end.Some? && end.value.cancel == client && !PastTest(end.value.worker, client)
    && Own(end.value.processed, client) == Own(s.processed, client)
    && Spared(env, s, steps, client)
  }

  /** The request in hand has been failed by the flag: nothing is touched and the flag is down. */
  predicate Struck(s: State, t: State) {
    && s.worker.Started? && t.worker.Performed? && t.worker.r == s.worker.r
    && !t.worker.ok && t.worker.cancelled && t.worker.reply == "command cancelled by admin"
    && t.cancel == 0 && t.cancelled == s.cancelled + 1 && Untouched(s, t) && t.processed == s.processed
  }

  /** Step `k` of the run is the first test of the client since `s`, and it strikes. */
  predicate StruckAt(env: Env, s: State, steps: seq<Step>, client: nat, k: nat) {
    && k < |steps| && StillNamed(env, s, steps[..k], client)
    && var at := Run(env, s, steps[..k]).value;
    && IsTest(at, steps[k], client) && Shape(at.tables)
    && Next(env, at, steps[k]).Some? && Struck(at, Next(env, at, steps[k]).value)
  }

  // ---- One step ----

  lemma NamedStep(env: Env, s: State, step: Step, client: nat)
    requires Shape(s.tables) && Next(env, s, step).Some? && !step.CancelCommand? && !IsTest(s, step, client)
    requires client > 0 && s.cancel == client && !PastTest(s.worker, client)
    ensures var t := Next(env, s, step).value;
            && t.cancel == client && !PastTest(t.worker, client)
            && Own(t.processed, client) == Own(s.processed, client)
            && (Holds(s.worker, client) ==> Untouched(s, t))
  {
    hide PerformOp, ApplyBatch, SetJob, Own, Shape;
    if Works(s, step) { WorkFrame(env, s, step); }
    if step.Finish? {
      OwnMore(s.processed, s.worker.r, client);
      assert Own(s.processed, client) + [] == Own(s.processed, client);
    }
  }

  lemma TestStep(env: Env, s: State, step: Step, client: nat)
    requires Shape(s.tables) && s.cancel == client && IsTest(s, step, client)
    ensures Next(env, s, step).Some? && Struck(s, Next(env, s, step).value)
  {
    hide PerformOp, Shape;
  }

  lemma DownStep(env: Env, s: State, step: Step)
    requires Shape(s.tables) && Next(env, s, step).Some? && !step.CancelCommand? && s.cancel == 0
    ensures Next(env, s, step).value.cancel == 0
  {
    hide PerformOp, ApplyBatch, SetJob, Shape;
    if Works(s, step) { WorkFrame(env, s, step); }
  }

  lemma {:induction false} StaysDown(env: Env, s: State, steps: seq<Step>)
    requires Run(env, s, steps).Some? && NoCommands(steps) && s.cancel == 0
    ensures Run(env, s, steps).value.cancel == 0
    decreases |steps|
  {
    hide Next, Shape;
    if steps != [] {
      DownStep(env, s, steps[0]);
      StaysDown(env, Next(env, s, steps[0]).value, steps[1..]);
    }
  }

  // ---- Whole runs ----

  /** An accepted command strikes once. From a moment at which the flag names a client and no request of
      that client is past the test, until the next command: either the flag is still up and nothing of
      the client has been processed or has changed a table or a file; or the first of the client's
      requests to reach the test was failed there, untouched, and the flag has been down ever since. */
  lemma {:induction false} CommandStrikesOnce(env: Env, s: State, steps: seq<Step>, client: nat)
    returns (k: nat)
    requires client > 0 && s.cancel == client && !PastTest(s.worker, client)
    requires Run(env, s, steps).Some? && NoCommands(steps)
    ensures StillNamed(env, s, steps, client) ||
            (StruckAt(env, s, steps, client, k) && Run(env, s, steps).value.cancel == 0)
    decreases |steps|
  {
    hide Next, Shape, Own, Untouched, PastTest, IsTest, Struck;
    k := 0;
    if steps != [] {
      var t := Next(env, s, steps[0]).value;
      if IsTest(s, steps[0], client) {
        TestStep(env, s, steps[0], client);
        StruckIsDown(s, t);
        StaysDown(env, t, steps[1..]);
        assert steps[..0] == [] && Run(env, s, []) == Some(s);
      } else {
        NamedStep(env, s, steps[0], client);
        k := CommandStrikesOnce(env, t, steps[1..], client);
        if !StillNamed(env, t, steps[1..], client) {
          StruckLater(env, s, steps, client, k);
          k := k + 1;
        }
      }
    }
  }

  lemma StruckIsDown(s: State, t: State)
    requires Struck(s, t)
    ensures t.cancel == 0
  {
  }

  lemma StruckLater(env: Env, s: State, steps: seq<Step>, client: nat, k: nat)
    requires steps != [] && Shape(s.tables) && Next(env, s, steps[0]).Some?
    requires var t := Next(env, s, steps[0]).value;
             && StruckAt(env, t, steps[1..], client, k)
             && Own(t.processed, client) == Own(s.processed, client)
             && (Holds(s.worker, client) ==> Untouched(s, t))
    ensures StruckAt(env, s, steps, client, k + 1)
  {
    hide Next, Shape, Own, Untouched, PastTest, IsTest, Struck;
    assert steps[..k + 1][0] == steps[0] && steps[..k + 1][1..] == steps[1..][..k];
  }

  // ---- When a command is lost ----

  predicate Accepts(s: State, step: Step) {
    step.CancelCommand? && step.client > 0 && (step.client == s.active || step.client in s.connected)
  }

  /** The client named by the last command accepted in the run, or `last` when none is. */
  function LastCommand(env: Env, s: State, steps: seq<Step>, last: nat): nat
    requires Run(env, s, steps).Some?
    decreases |steps|
  {
    if steps == [] then last
    else
      LastCommand(env, Next(env, s, steps[0]).value, steps[1..], if Accepts(s, steps[0]) then steps[0].client else last)
  }

  predicate NotTested(env: Env, s: State, steps: seq<Step>, client: nat)
    requires Run(env, s, steps).Some?
    decreases |steps|
  {
    steps == [] ||
    (!IsTest(s, steps[0], client) && NotTested(env, Next(env, s, steps[0]).value, steps[1..], client))
  }

  lemma FlagStep(env: Env, s: State, step: Step, client: nat, last: nat)
    requires Shape(s.tables) && Next(env, s, step).Some? && !IsTest(s, step, client)
    requires client > 0 && (s.cancel == client <==> last == client)
    ensures Next(env, s, step).value.cancel == client <==>
            (if Accepts(s, step) then step.client else last) == client
  {
    hide PerformOp, ApplyBatch, SetJob, Shape;
    if Works(s, step) { WorkFrame(env, s, step); }
  }

  lemma {:induction false} FlagNamesLast(env: Env, s: State, steps: seq<Step>, client: nat, last: nat)
    requires Run(env, s, steps).Some? && NotTested(env, s, steps, client)
    requires client > 0 && (s.cancel == client <==> last == client)
    ensures Run(env, s, steps).value.cancel == client <==> LastCommand(env, s, steps, last) == client
    decreases |steps|
  {
    hide Next, Shape, IsTest;
    if steps != [] {
      FlagStep(env, s, steps[0], client, last);
      FlagNamesLast(env, Next(env, s, steps[0]).value, steps[1..], client,
                    if Accepts(s, steps[0]) then steps[0].client else last);
    }
  }

  /** Exactly when an accepted command is lost: at the client's next test it strikes if the last command
      accepted by then names the client, and otherwise the request is performed as if no command had
      been given. */
  lemma CommandLost(env: Env, s: State, steps: seq<Step>, client: nat, io: Io, reply: string)
    requires client > 0 && s.cancel == client
    requires Run(env, s, steps).Some? && NotTested(env, s, steps, client)
    requires Shape(Run(env, s, steps).value.tables) && IsTest(Run(env, s, steps).value, Perform(io, reply), client)
    ensures var at := Run(env, s, steps).value;
            var next := Next(env, at, Perform(io, reply));
            if LastCommand(env, s, steps, client) == client then next.Some? && Struck(at, next.value)
            else next == PerformOp(env, at, at.worker.r, io, reply)
  {
    hide PerformOp, Shape, Struck;
    FlagNamesLast(env, s, steps, client, client);
    var at := Run(env, s, steps).value;
    if at.cancel == client { TestStep(env, at, Perform(io, reply), client); }
  }

  /** A request that is past the test is finished whatever the flag says. */
  lemma FlagIgnoredPastTest(env: Env, s: State, step: Step, flag: nat)
    requires Shape(s.tables) && (step.Apply? || step.Finish?)
    ensures var plain, flagged := Next(env, s, step), Next(env, s.(cancel := flag), step);
            if plain.None? then flagged.None? else flagged == Some(plain.value.(cancel := flag))
  {
    hide Store.ApplyInsert, SetJob;
  }

  /** While no command is pending nobody's request is cancelled: clients are numbered from 1. */
  lemma UnaskedRuns(env: Env, initial: map<nat, string>, s: State, io: Io, reply: string)
    requires Reachable(env, initial, s) && s.worker.Started? && s.cancel == 0
    ensures Shape(s.tables) && Next(env, s, Perform(io, reply)) == PerformOp(env, s, s.worker.r, io, reply)
  {
    hide PerformOp, Shape;
    ReachableInv(env, initial, s);
    GoodShape(s.tables);
    HandPlace(s);
    assert s.issued[|s.processed|].client > 0;
  }

  // ---- Which clients a command may name ----

  /** The active client is the one whose request is being performed, and none otherwise. */
  predicate ActiveFits(s: State) {
    s.active == if Begun(s.worker) then s.worker.r.client else 0
  }

  lemma ActiveStep(env: Env, s: State, step: Step)
    requires Shape(s.tables) && Next(env, s, step).Some? && ActiveFits(s)
    ensures ActiveFits(Next(env, s, step).value)
  {
    hide PerformOp, ApplyBatch, SetJob, Shape;
    if Works(s, step) { WorkFrame(env, s, step); }
  }

  lemma {:induction false} ActiveClient(env: Env, s: State, steps: seq<Step>)
    requires Run(env, s, steps).Some? && ActiveFits(s)
    ensures ActiveFits(Run(env, s, steps).value)
    decreases |steps|
  {
    hide Next, Shape, ActiveFits;
    if steps != [] {
      ActiveStep(env, s, steps[0]);
      ActiveClient(env, Next(env, s, steps[0]).value, steps[1..]);
    }
  }

  /** In every run from the start the active client is the one whose request is being performed. */
  lemma ActiveFromStart(env: Env, uploads: map<nat, string>, steps: seq<Step>)
    requires Run(env, Initial(uploads), steps).Some?
    ensures ActiveFits(Run(env, Initial(uploads), steps).value)
  {
    ActiveClient(env, Initial(uploads), steps);
  }

  /** Whether the client is connected after these steps: the last of them that connects or disconnects it
      decides. */
  function ConnectedAfter(steps: seq<Step>, client: nat, was: bool): bool {
    if steps == [] then was
    else
      ConnectedAfter(steps[1..], client,
                     if steps[0] == Connect(client) then true else if steps[0] == Disconnect(client) then false else was)
  }

  lemma ConnectedStep(env: Env, s: State, step: Step, client: nat)
    requires Shape(s.tables) && Next(env, s, step).Some?
    ensures client in Next(env, s, step).value.connected <==>
            if step == Connect(client) then true else if step == Disconnect(client) then false else client in s.connected
  {
    hide PerformOp, ApplyBatch, SetJob, Shape;
    if Works(s, step) { WorkFrame(env, s, step); }
  }

  /** In every run a client is connected exactly when the last step that was its connecting or its
      disconnecting was its connecting; every identifier but 0 can connect. */
  lemma {:induction false} ConnectedIs(env: Env, s: State, steps: seq<Step>, client: nat)
    requires Run(env, s, steps).Some?
    ensures client in Run(env, s, steps).value.connected <==> ConnectedAfter(steps, client, client in s.connected)
    ensures Shape(s.tables) ==> (Next(env, s, Connect(client)).Some? <==> client >= 1)
    decreases |steps|
  {
    hide PerformOp, ApplyBatch, SetJob, Shape;
    if steps != [] {
      ConnectedStep(env, s, steps[0], client);
      ConnectedIs(env, Next(env, s, steps[0]).value, steps[1..], client);
    }
  }
}
