/** From one file to the other: what an uploaded file becomes in the server, and what a downloaded file
    says of the schema. */
module EndToEnd {
  import opened Schema
  import opened SchemaLoad
  import opened ServerRuns
  import opened Text
  import opened Wire
  import InsertSyntax
  import InsertTotality
  import SchemaDocument
  import SchemaSql
  import Transfer

  const SQL_BUFFER: nat := 65536

  function CharsOfAll(chunks: seq<seq<byte>>): (r: seq<string>)
    ensures |r| == |chunks| && forall i :: 0 <= i < |chunks| ==> r[i] == Chars(chunks[i])
  {
    seq(|chunks|, i requires 0 <= i < |chunks| => Chars(chunks[i]))
  }

  lemma {:induction false} CharsOfJoined(chunks: seq<seq<byte>>)
    ensures Joined(CharsOfAll(chunks)) == Chars(Joined(chunks))
    decreases |chunks|
  {
    hide Chars;
    if chunks != [] {
      var init, c := chunks[..|chunks| - 1], chunks[|chunks| - 1];
      CharsOfJoined(init);
      assert CharsOfAll(chunks)[..|chunks| - 1] == CharsOfAll(init);
      CharsOfSum(Joined(init), c);
    } else {
      assert Chars([]) == "";
    }
  }

  // ---- Requests as they arrive ----

  /** The request a message stands for, once its client is registered. */
  function OpOf(frame: (Header, seq<byte>)): Op {
    var op := frame.0.opId;
    if op == 10 then UploadBegin
    else if op == 11 then UploadChunk(Chars(frame.1))
    else if op == 12 then UploadEnd
    else if op == 20 then GenerateSql
    else if op == 21 then DownloadSql
    else if op == 30 then ValidateInsert(Chars(frame.1))
    else Unknown(op)
  }

  /** The protocol's numbers: 10 to 12 are an upload's, 20 and 21 ask for SQL, 30 is an INSERT, and every
      other number stays unknown under its own code. */
  lemma KnownOps(client: uint32, op: uint32, payload: seq<byte>)
    requires |payload| <= MAX_PAYLOAD
    ensures var r := OpOf(Frame(Message(client, op, payload)));
            && OpCode(r) == op
            && (r == UploadBegin <==> op == 10) && (r == UploadChunk(Chars(payload)) <==> op == 11)
            && (r == UploadEnd <==> op == 12) && (r == GenerateSql <==> op == 20) && (r == DownloadSql <==> op == 21)
            && (r == ValidateInsert(Chars(payload)) <==> op == 30)
            && (r.Unknown? <==> op !in {10, 11, 12, 20, 21, 30})
  {
  }

  function OpsOf(frames: Transfer.Frames): (ops: seq<Op>)
    ensures |ops| == |frames| && forall i :: 0 <= i < |frames| ==> ops[i] == OpOf(frames[i])
  {
    seq(|frames|, i requires 0 <= i < |frames| => OpOf(frames[i]))
  }

  function ChunkOps(parts: seq<string>): (ops: seq<Op>)
    ensures |ops| == |parts| && forall i :: 0 <= i < |parts| ==> ops[i] == UploadChunk(parts[i])
  {
    seq(|parts|, i requires 0 <= i < |parts| => UploadChunk(parts[i]))
  }

  lemma UploadShape(client: uint32, path: seq<byte>, chunks: seq<seq<byte>>)
    requires |path| < 4096 && Transfer.Chunked(chunks)
    ensures var ms := Transfer.UploadMessages(client, path, chunks);
            && Transfer.AllAcceptable(ms) && |ms| == |chunks| + 2
            && ms[0] == Message(client, Transfer.UPLOAD_BEGIN, path)
            && (forall i :: 0 < i <= |chunks| ==> ms[i] == Message(client, Transfer.UPLOAD_CHUNK, chunks[i - 1]))
            && ms[|chunks| + 1] == Message(client, Transfer.UPLOAD_END, [])
  {
    ChunksFit(chunks);
  }

  lemma OpOfFrame(client: uint32, op: uint32, payload: seq<byte>)
    requires |payload| <= MAX_PAYLOAD
    ensures OpOf(Frame(Message(client, op, payload))) ==
            if op == Transfer.UPLOAD_BEGIN then UploadBegin
            else if op == Transfer.UPLOAD_CHUNK then UploadChunk(Chars(payload))
            else if op == Transfer.UPLOAD_END then UploadEnd
            else OpOf((Header(|payload|, client, op, 0), payload))
  {
  }

  lemma UploadOps(client: uint32, path: seq<byte>, chunks: seq<seq<byte>>)
    requires |path| < 4096 && Transfer.Chunked(chunks)
    requires Transfer.AllAcceptable(Transfer.UploadMessages(client, path, chunks))
    ensures OpsOf(Frames(Transfer.UploadMessages(client, path, chunks))) ==
            [UploadBegin] + ChunkOps(CharsOfAll(chunks)) + [UploadEnd]
  {
    hide Chars, OpOf, Frame, Transfer.UploadMessages, Transfer.Chunked;
    var ms := Transfer.UploadMessages(client, path, chunks);
    UploadShape(client, path, chunks);
    ChunksFit(chunks);
    OpOfFrame(client, Transfer.UPLOAD_BEGIN, path);
    OpOfFrame(client, Transfer.UPLOAD_END, []);
    forall i | 0 < i <= |chunks|
      ensures OpsOf(Frames(ms))[i] == UploadChunk(Chars(chunks[i - 1]))
    {
      OpOfFrame(client, Transfer.UPLOAD_CHUNK, chunks[i - 1]);
    }
  }

  /** What the client's upload loop sends is what the server queues, chunk by chunk, all of it under the
      client's own identifier. */
  lemma UploadArrives(client: uint32, path: seq<byte>, chunks: seq<seq<byte>>)
    requires |path| < 4096 && Transfer.Chunked(chunks)
    ensures Transfer.AllAcceptable(Transfer.UploadMessages(client, path, chunks))
    ensures OpsOf(Transfer.On(EncodeAll(Transfer.UploadMessages(client, path, chunks)))) ==
            [UploadBegin] + ChunkOps(CharsOfAll(chunks)) + [UploadEnd]
    ensures forall i :: 0 <= i < |chunks| + 2 ==>
              i < |Transfer.On(EncodeAll(Transfer.UploadMessages(client, path, chunks)))| &&
              Transfer.On(EncodeAll(Transfer.UploadMessages(client, path, chunks)))[i].0.clientId == client
    ensures Joined(CharsOfAll(chunks)) == Chars(Joined(chunks))
  {
    hide Chars, Joined, EncodeAll, ReceiveAll, Frames, OpsOf, Transfer.Chunked, Transfer.UploadMessages;
    UploadShape(client, path, chunks);
    StreamRoundTrip(Transfer.UploadMessages(client, path, chunks));
    UploadOps(client, path, chunks);
    CharsOfJoined(chunks);
  }

  lemma ChunksFit(chunks: seq<seq<byte>>)
    requires Transfer.Chunked(chunks)
    ensures forall i :: 0 <= i < |chunks| ==> |chunks[i]| <= MAX_PAYLOAD
  {
    assert forall i :: 0 <= i < |chunks| ==> Transfer.IsChunk(chunks[i]);
  }

  // ---- Runs in which a client's transfers succeed ----

  /** The requests that have been performed. */
  function Done(s: State): seq<Request> {
    s.processed + if s.worker.Performed? then [s.worker.r] else []
  }

  /** A client's own requests, without the others in between. */
  function OwnOps(rs: seq<Request>, client: nat): seq<Op> {
    if rs == [] then []
    else
      OwnOps(rs[..|rs| - 1], client) + if rs[|rs| - 1].client == client then [rs[|rs| - 1].op] else []
  }

  /** What a request does to an upload file when it succeeds. */
  function OpEvent(op: Op, client: nat): seq<FileEvent> {
    match op
    case UploadBegin => [Began(client)]
    case UploadChunk(data) => [Wrote(client, data)]
    case _ => []
  }

  function OpEvents(ops: seq<Op>, client: nat): seq<FileEvent> {
    if ops == [] then [] else OpEvents(ops[..|ops| - 1], client) + OpEvent(ops[|ops| - 1], client)
  }

  /** No upload request of the client fails or is cancelled in this step. */
  predicate Succeeds(s: State, step: Step, client: nat) {
    (step.Perform? && s.worker.Started? && s.worker.r.client == client && OpEvent(s.worker.r.op, client) != []) ==>
      step.io.Fine? && s.cancel != client
  }

  predicate RunSucceeds(env: Env, s: State, steps: seq<Step>, client: nat)
    decreases |steps|
  {
    (steps != [] && Shape(s.tables) && Next(env, s, steps[0]).Some?) ==>
      Succeeds(s, steps[0], client) && RunSucceeds(env, Next(env, s, steps[0]).value, steps[1..], client)
  }

  /** Since the client had performed `ops` and caused `events`, its file has seen exactly its further
      performed requests. */
  predicate Follows(files: seq<FileEvent>, done: seq<Request>, events: seq<FileEvent>, ops: seq<Op>, client: nat) {
    && ops <= OwnOps(done, client)
    && OwnEvents(files, client) == events + OpEvents(OwnOps(done, client)[|ops|..], client)
  }

  lemma OwnOpsMore(rs: seq<Request>, r: Request, client: nat)
    ensures OwnOps(rs + [r], client) == OwnOps(rs, client) + if r.client == client then [r.op] else []
  {
    assert (rs + [r])[..|rs|] == rs;
  }

  lemma OpEventsMore(ops: seq<Op>, op: Op, client: nat)
    ensures OpEvents(ops + [op], client) == OpEvents(ops, client) + OpEvent(op, client)
  {
    assert (ops + [op])[..|ops|] == ops;
  }

  lemma OwnEventsMore(files: seq<FileEvent>, e: FileEvent, client: nat)
    ensures OwnEvents(files + [e], client) == OwnEvents(files, client) + if e.client == client then [e] else []
  {
    assert (files + [e])[..|files|] == files;
  }

  /** Performing a request adds its own events, or none where it fails. */
  lemma PerformFiles(env: Env, s: State, io: Io, reply: string)
    requires Shape(s.tables) && s.worker.Started? && PerformOp(env, s, s.worker.r, io, reply).Some?
    ensures var t, r := PerformOp(env, s, s.worker.r, io, reply).value, s.worker.r;
            && (io.Fine? ==> t.files == s.files + OpEvent(r.op, r.client))
            && (t.files == s.files || exists e: FileEvent :: e.client == r.client && t.files == s.files + [e])
            && (OpEvent(r.op, r.client) == [] ==> t.files == s.files)
            && (t.worker.Performed? || OpEvent(r.op, r.client) == [])
            && t.processed == s.processed && t.worker.r == r && (t.worker.Performed? || t.worker.Checked?)
  {
    hide InsertSyntax.Batch, Store.ValidInsert, LoadSchema, Document, FileOf;
    var t, r := PerformOp(env, s, s.worker.r, io, reply).value, s.worker.r;
    if r.op.UploadChunk? && t.files != s.files {
      var e := t.files[|t.files| - 1];
      assert t.files == s.files + [e];
    } else if r.op.UploadBegin? && t.files != s.files {
      assert t.files == s.files + [Began(r.client)];
    } else {
      assert s.files + [] == s.files;
    }
  }

  /** A request of another client leaves a client's events alone. */
  lemma PerformFollows(env: Env, s: State, io: Io, reply: string, events: seq<FileEvent>, ops: seq<Op>, client: nat)
    requires Shape(s.tables) && s.worker.Started? && PerformOp(env, s, s.worker.r, io, reply).Some?
    requires Follows(s.files, Done(s), events, ops, client)
    requires s.worker.r.client == client && OpEvent(s.worker.r.op, client) != [] ==> io.Fine?
    ensures var t := PerformOp(env, s, s.worker.r, io, reply).value; Follows(t.files, Done(t), events, ops, client)
  {
    hide PerformOp, OwnEvents, OpEvents, OwnOps, Follows;
    PerformFiles(env, s, io, reply);
    var t, r := PerformOp(env, s, s.worker.r, io, reply).value, s.worker.r;
    assert Done(s) == s.processed;
    EventsFollow(s.processed, r, s.files, t.files, events, ops, client);
    if t.worker.Performed? { assert Done(t) == s.processed + [r]; } else { assert Done(t) == s.processed; }
  }

  lemma EventsFollow(
      done: seq<Request>, r: Request, before: seq<FileEvent>, after: seq<FileEvent>,
      events: seq<FileEvent>, ops: seq<Op>, client: nat)
    requires Follows(before, done, events, ops, client)
    requires after == before || exists e: FileEvent :: e.client == r.client && after == before + [e]
    requires r.client == client ==> after == before + OpEvent(r.op, client)
    ensures Follows(after, done + [r], events, ops, client)
    ensures OpEvent(r.op, client) == [] ==> Follows(after, done, events, ops, client)
  {
    hide OwnEvents, OpEvents, OwnOps;
    OwnOpsMore(done, r, client);
    var own, all := OwnEvents(before, client), OwnOps(done, client);
    var since := all[|ops|..];
    OpEventsMore(since, r.op, client);
    assert own + [] == own && all + [] == all && (all + [r.op])[|ops|..] == since + [r.op];
    assert events + OpEvents(since, client) + OpEvent(r.op, client) ==
           events + (OpEvents(since, client) + OpEvent(r.op, client));
    if after != before {
      var e: FileEvent :| e.client == r.client && after == before + [e];
      OwnEventsMore(before, e, client);
      if r.client == client { assert [e] == OpEvent(r.op, client) by { assert after[|before|..] == [e]; } }
    } else if r.client == client {
      assert |OpEvent(r.op, client)| == 0;
      assert OpEvents(since, client) + [] == OpEvents(since, client);
    }
  }

  lemma StepFollows(env: Env, s: State, step: Step, events: seq<FileEvent>, ops: seq<Op>, client: nat)
    requires Shape(s.tables) && Next(env, s, step).Some? && Succeeds(s, step, client)
    requires Follows(s.files, Done(s), events, ops, client)
    requires s.worker.Checked? ==> s.worker.r.op.ValidateInsert?
    ensures var t := Next(env, s, step).value; Follows(t.files, Done(t), events, ops, client)
  {
    hide PerformOp, ApplyBatch, OwnEvents, OpEvents, OwnOps, SetJob, Follows;
    var t := Next(env, s, step).value;
    if step.Perform? && s.cancel != s.worker.r.client {
      PerformFollows(env, s, step.io, step.reply, events, ops, client);
    } else if step.Perform? || step.Apply? {
      if step.Apply? { ApplyFiles(env, s, step.reply); }
      assert Done(s) == s.processed && Done(t) == s.processed + [s.worker.r];
      Unaffected(s.processed, s.worker.r, s.files, events, ops, client);
    } else if step.Finish? {
      assert Done(t) == Done(s);
    }
  }

  lemma ApplyFiles(env: Env, s: State, reply: string)
    requires Shape(s.tables) && s.worker.Checked? && s.worker.r.op.ValidateInsert?
    requires ApplyBatch(env, s, s.worker.r, reply).Some?
    ensures var t := ApplyBatch(env, s, s.worker.r, reply).value;
            t.files == s.files && t.processed == s.processed && t.worker.Performed? && t.worker.r == s.worker.r
  {
    hide Store.ApplyInsert;
  }

  /** A request that does nothing to files: another client's, or one without file events. */
  lemma Unaffected(
      done: seq<Request>, r: Request, files: seq<FileEvent>, events: seq<FileEvent>, ops: seq<Op>, client: nat)
    requires Follows(files, done, events, ops, client)
    requires r.client == client ==> OpEvent(r.op, client) == []
    ensures Follows(files, done + [r], events, ops, client)
  {
    assert files == files + [];
    EventsFollow(done, r, files, files, events, ops, client);
  }

  lemma {:induction false} RunFollows(
      env: Env, initial: map<nat, string>, s: State, steps: seq<Step>, events: seq<FileEvent>, ops: seq<Op>, client: nat)
    requires Inv(env, initial, s) && Follows(s.files, Done(s), events, ops, client)
    requires RunSucceeds(env, s, steps, client) && Run(env, s, steps).Some?
    ensures var t := Run(env, s, steps).value;
            Inv(env, initial, t) && Follows(t.files, Done(t), events, ops, client)
    decreases |steps|
  {
    hide Next, Fifo, Numbered, Lifecycle, Counters, FilesSeparate, Store.Good, Follows, Succeeds, Store.ValidInsert, Done;
    if steps != [] {
      GoodShape(s.tables);
      StepKeepsInv(env, initial, s, steps[0]);
      StepFollows(env, s, steps[0], events, ops, client);
      RunFollows(env, initial, Next(env, s, steps[0]).value, steps[1..], events, ops, client);
    }
  }

  /** The chunks among a client's requests. */
  function Chunks(ops: seq<Op>): seq<string> {
    if ops == [] then []
    else Chunks(ops[..|ops| - 1]) + if ops[|ops| - 1].UploadChunk? then [ops[|ops| - 1].data] else []
  }

  lemma {:induction false} EventsOfChunks(ops: seq<Op>, client: nat)
    requires UploadBegin !in ops
    ensures OpEvents(ops, client) == Writes(client, Chunks(ops))
    decreases |ops|
  {
    if ops != [] {
      var init, last := ops[..|ops| - 1], ops[|ops| - 1];
      EventsOfChunks(init, client);
      assert last in ops;
      if last.UploadChunk? {
        assert Writes(client, Chunks(init) + [last.data]) == Writes(client, Chunks(init)) + [Wrote(client, last.data)];
      } else {
        assert Chunks(ops) == Chunks(init);
      }
    }
  }

  lemma {:induction false} ChunksOfChunkOps(parts: seq<string>)
    ensures Chunks(ChunkOps(parts)) == parts && UploadBegin !in ChunkOps(parts)
    decreases |parts|
  {
    if parts != [] {
      var init := parts[..|parts| - 1];
      assert ChunkOps(parts)[..|parts| - 1] == ChunkOps(init);
      ChunksOfChunkOps(init);
      assert parts == init + [parts[|parts| - 1]];
    }
  }

  /** The step from `s` to `t` performs an upload's BEGIN for the client. */
  predicate Begins(env: Env, s: State, t: State, client: nat, reply: string) {
    && Shape(s.tables) && s.worker.Started? && s.worker.r.client == client && s.worker.r.op.UploadBegin?
    && s.cancel != client && Next(env, s, Perform(Fine, reply)) == Some(t)
  }

  /** In every run, whatever the other clients do in between and whatever happened before: once a client's
      BEGIN has been performed, and as long as none of its upload requests fails or is cancelled, its
      file is exactly the chunks it has had performed since. */
  lemma UploadStored(
      env: Env, initial: map<nat, string>, before: State, begun: State, steps: seq<Step>, s: State,
      client: nat, reply: string, since: seq<Op>)
    requires Reachable(env, initial, before) && Begins(env, before, begun, client, reply)
    requires Run(env, begun, steps) == Some(s) && RunSucceeds(env, begun, steps, client)
    requires OwnOps(Done(s), client) == OwnOps(Done(begun), client) + since && UploadBegin !in since
    ensures Inv(env, initial, s) && FileOf(s.uploads, client) == Joined(Chunks(since))
  {
    hide Run, RunSucceeds, OpEvents, OwnEvents, OwnOps, FileOf, Inv, Next, Begins, Chunks, Done;
    ReachableInv(env, initial, before);
    BeginFollows(env, initial, before, begun, client, reply);
    var events, ops := OwnEvents(before.files, client) + [Began(client)], OwnOps(Done(begun), client);
    RunFollows(env, initial, begun, steps, events, ops, client);
    assert OwnOps(Done(s), client)[|ops|..] == since;
    EventsOfChunks(since, client);
    UploadKept(env, initial, s, client, OwnEvents(before.files, client), Chunks(since));
  }

  lemma BeginFollows(env: Env, initial: map<nat, string>, before: State, begun: State, client: nat, reply: string)
    requires Inv(env, initial, before) && Begins(env, before, begun, client, reply)
    ensures Inv(env, initial, begun)
    ensures Follows(begun.files, Done(begun), OwnEvents(before.files, client) + [Began(client)], OwnOps(Done(begun), client), client)
  {
    hide Inv, OwnEvents, OwnOps, Done;
    StepKeepsInv(env, initial, before, Perform(Fine, reply));
    assert begun.files == before.files + [Began(client)] by { hide Inv; }
    OwnEventsMore(before.files, Began(client), client);
    var ops, events := OwnOps(Done(begun), client), OwnEvents(before.files, client) + [Began(client)];
    assert ops[|ops|..] == [] && events + [] == events;
  }

  /** The END of an upload loads exactly the document that the client has sent since its BEGIN. */
  lemma UploadedSchemaIsLoaded(
      env: Env, initial: map<nat, string>, before: State, begun: State, steps: seq<Step>, s: State,
      client: nat, reply: string, chunks: seq<seq<byte>>)
    requires Reachable(env, initial, before) && Begins(env, before, begun, client, reply)
    requires Run(env, begun, steps) == Some(s) && RunSucceeds(env, begun, steps, client)
    requires OwnOps(Done(s), client) == OwnOps(Done(begun), client) + ChunkOps(CharsOfAll(chunks))
    requires s.worker.Started? && s.worker.r.client == client && s.worker.r.op.UploadEnd? && s.cancel != client
    ensures Inv(env, initial, s) && Shape(s.tables) && Next(env, s, Perform(Fine, reply)).Some?
    ensures var content := Joined(chunks);
            Next(env, s, Perform(Fine, reply)).value.tables ==
            LoadSchema(s.tables, if 0 < |content| <= MAX_FILE then env.parse(Chars(content)) else None).value
  {
    hide Run, RunSucceeds, OwnOps, LoadSchema, Chars, Joined, Begins, Done, Inv, CharsOfAll, ChunkOps, Reachable;
    ChunksOfChunkOps(CharsOfAll(chunks));
    UploadStored(env, initial, before, begun, steps, s, client, reply, ChunkOps(CharsOfAll(chunks)));
    CharsOfJoined(chunks);
    InvShape(env, initial, s);
    assert |Chars(Joined(chunks))| == |Joined(chunks)|;
    EndLoads(env, s, client, reply);
  }

  lemma InvShape(env: Env, initial: map<nat, string>, s: State)
    requires Inv(env, initial, s)
    ensures Shape(s.tables)
  {
    GoodShape(s.tables);
  }

  lemma EndLoads(env: Env, s: State, client: nat, reply: string)
    requires Shape(s.tables)
    requires s.worker.Started? && s.worker.r.client == client && s.worker.r.op.UploadEnd? && s.cancel != client
    ensures Next(env, s, Perform(Fine, reply)).Some?
    ensures var file := FileOf(s.uploads, client);
            Next(env, s, Perform(Fine, reply)).value.tables ==
            LoadSchema(s.tables, if 0 < |file| <= MAX_FILE then env.parse(file) else None).value
  {
    hide LoadSchema;
  }

  // ---- Download ----

  /** What `generate_sql` leaves in the server's buffer, as the download's text. */
  function SqlBytes(ts: seq<Table>): seq<byte> {
    Bytes(Cap(SchemaSql.Render(ts), SQL_BUFFER))
  }

  /** A finished download is the generated text cut to the buffer; when it was not cut, the file
      alone tells the whole schema. */
  lemma DownloadedSchema(client: uint32, t: Transfer.Trace, ts: seq<Table>)
    requires Transfer.Serves(t, SqlBytes(ts)) && t.last.opId == Transfer.DOWNLOAD_END
    ensures Transfer.AllAcceptable(Transfer.Messages(client, t))
    ensures Transfer.Download(Transfer.On(EncodeAll(Transfer.Messages(client, t))), false, []) == Transfer.Saved(SqlBytes(ts), [])
    ensures Narrow(SchemaSql.Render(ts)) ==> Chars(SqlBytes(ts)) == Cap(SchemaSql.Render(ts), SQL_BUFFER)
    ensures Narrow(SchemaSql.Render(ts)) && |SchemaSql.Render(ts)| < SQL_BUFFER && SchemaSql.CleanSchema(ts) ==>
              SchemaSql.Decode(Chars(SqlBytes(ts))) == Some(SchemaSql.ShownTables(ts))
  {
    hide Transfer.Serves, Transfer.Download, Transfer.Messages, SchemaSql.Render, SchemaSql.Decode,
         SchemaSql.ShownTables, SchemaSql.CleanSchema, Chars;
    Transfer.DownloadAgrees(client, t, SqlBytes(ts));
    assert Narrow(SchemaSql.Render(ts)) ==> Narrow(Cap(SchemaSql.Render(ts), SQL_BUFFER));
    if |SchemaSql.Render(ts)| < SQL_BUFFER && SchemaSql.CleanSchema(ts) { SchemaSql.DecodeRender(ts); }
  }

  // ---- There and back ----

  /** No upload is ended in this run. */
  predicate NoLoads(env: Env, s: State, steps: seq<Step>)
    decreases |steps|
  {
    (steps != [] && Shape(s.tables) && Next(env, s, steps[0]).Some?) ==>
      && !(steps[0].Perform? && s.worker.Started? && s.worker.r.op.UploadEnd?)
      && NoLoads(env, Next(env, s, steps[0]).value, steps[1..])
  }

  /** Inserts change rows only. */
  lemma StepKeepsSchema(env: Env, s: State, step: Step)
    requires Shape(s.tables) && Next(env, s, step).Some?
    requires !(step.Perform? && s.worker.Started? && s.worker.r.op.UploadEnd?)
    ensures SchemaSql.SameSchema(s.tables, Next(env, s, step).value.tables)
  {
    hide InsertSyntax.Batch, Store.ValidInsert, LoadSchema, Document, FileOf, Shape, SetJob, Store.ApplyInsert;
    if step.Apply? && s.worker.Checked? && s.worker.r.op.ValidateInsert? {
      InsertKeepsSchema(s.tables, env.grammar(s.worker.r.op.sql), s.worker.r.op.sql);
    }
  }

  lemma InsertKeepsSchema(ts: seq<Table>, syntaxOk: bool, sql: string)
    requires Shape(ts)
    ensures var o := Store.ApplyInsert(ts, syntaxOk, sql); o.Inserted? ==> SchemaSql.SameSchema(ts, o.tables)
  {
    hide InsertSyntax.Batch;
    if Store.ApplyInsert(ts, syntaxOk, sql).Inserted? { InsertTotality.AcceptedBatch(ts, sql); }
  }

  lemma {:induction false} RunKeepsSchema(env: Env, s: State, steps: seq<Step>)
    requires Run(env, s, steps).Some? && NoLoads(env, s, steps)
    ensures SchemaSql.SameSchema(s.tables, Run(env, s, steps).value.tables)
    decreases |steps|
  {
    hide Next, Shape;
    if steps != [] {
      StepKeepsSchema(env, s, steps[0]);
      RunKeepsSchema(env, Next(env, s, steps[0]).value, steps[1..]);
    }
  }

  /** A schema written as a document, cut into chunks and uploaded among any other traffic is the schema
      the server holds when the upload ends; and whenever it is generated and downloaded later, before
      another upload ends and whatever rows have come in, the file tells that schema, as far as its
      text can show it. */
  lemma SchemaThereAndBack(
      env: Env, initial: map<nat, string>, before: State, begun: State, steps: seq<Step>, s: State,
      client: nat, reply: string, chunks: seq<seq<byte>>, us: seq<Table>,
      loaded: State, later: seq<Step>, end: State, t: Transfer.Trace)
    requires Reachable(env, initial, before) && Begins(env, before, begun, client, reply)
    requires Run(env, begun, steps) == Some(s) && RunSucceeds(env, begun, steps, client)
    requires OwnOps(Done(s), client) == OwnOps(Done(begun), client) + ChunkOps(CharsOfAll(chunks))
    requires s.worker.Started? && s.worker.r.client == client && s.worker.r.op.UploadEnd? && s.cancel != client
    requires 0 < |Joined(chunks)| <= MAX_FILE && env.parse(Chars(Joined(chunks))) == Some(SchemaDocument.Document(us))
    requires SchemaDocument.WritableSchema(us)
    requires Shape(s.tables) && Next(env, s, Perform(Fine, reply)) == Some(loaded)
    requires Run(env, loaded, later) == Some(end) && NoLoads(env, loaded, later)
    requires end.worker.Started? && end.worker.r.op.DownloadSql? && end.worker.r.client < TWO_32
    requires Transfer.Serves(t, SqlBytes(end.tables)) && t.last.opId == Transfer.DOWNLOAD_END
    ensures loaded.tables == us && SqlBytes(end.tables) == SqlBytes(us)
    ensures Transfer.AllAcceptable(Transfer.Messages(end.worker.r.client, t))
    ensures Transfer.Download(Transfer.On(EncodeAll(Transfer.Messages(end.worker.r.client, t))), false, []) ==
            Transfer.Saved(SqlBytes(us), [])
    ensures SchemaSql.CleanSchema(us) && Narrow(SchemaSql.Render(us)) && |SchemaSql.Render(us)| < SQL_BUFFER ==>
              SchemaSql.Decode(Chars(SqlBytes(us))) == Some(SchemaSql.ShownTables(us))
  {
    hide Run, RunSucceeds, OwnOps, LoadSchema, Chars, Joined, Transfer.Serves, Transfer.Download, Transfer.Messages,
         SchemaDocument.Document, SchemaDocument.WritableSchema, SchemaSql.CleanSchema, SchemaSql.Render,
         SchemaSql.Decode, SchemaSql.ShownTables, Next, Begins, Reachable, Inv, NoLoads, Shape, Done, ChunkOps, CharsOfAll;
    UploadedSchemaIsLoaded(env, initial, before, begun, steps, s, client, reply, chunks);
    SchemaDocument.DocumentReadBack(s.tables, us);
    RunKeepsSchema(env, loaded, later);
    SchemaSql.RenderSame(us, end.tables);
    DownloadedSchema(end.worker.r.client, t, end.tables);
    DownloadedSchema(end.worker.r.client, t, us);
  }
}
