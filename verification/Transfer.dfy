/** Files in chunks: the client's upload, and the download as the server sends it and the client
    stores it. The two halves are proved against one description of the messages between them. */
module Transfer {
  import opened Wire
  import opened Text
  import opened Schema

  const FILE_CHUNK: nat := 65536
  const UPLOAD_BEGIN: uint32 := 10
  const UPLOAD_CHUNK: uint32 := 11
  const UPLOAD_END: uint32 := 12
  const DOWNLOAD_BEGIN: uint32 := 13
  const DOWNLOAD_CHUNK: uint32 := 14
  const DOWNLOAD_END: uint32 := 15
  const OK: uint32 := 40
  const ERROR: uint32 := 41

  /** The protocol's numbers for transfers and replies. */
  lemma Numbers()
    ensures [UPLOAD_BEGIN, UPLOAD_CHUNK, UPLOAD_END] == [10, 11, 12]
    ensures [DOWNLOAD_BEGIN, DOWNLOAD_CHUNK, DOWNLOAD_END] == [13, 14, 15]
    ensures [OK, ERROR] == [40, 41]
  {
  }

  // ---- Chunks ----

  predicate IsChunk(c: seq<byte>) {
    0 < |c| <= FILE_CHUNK
  }

  /** A file read in pieces, none of them empty. */
  predicate Chunked(chunks: seq<seq<byte>>) {
    forall i :: 0 <= i < |chunks| ==> IsChunk(chunks[i])
  }

  function ChunkMessages(client: uint32, op: uint32, chunks: seq<seq<byte>>): (ms: seq<Message>)
    ensures |ms| == |chunks| && forall i :: 0 <= i < |ms| ==> ms[i] == Message(client, op, chunks[i])
  {
    seq(|chunks|, i requires 0 <= i < |chunks| => Message(client, op, chunks[i]))
  }

  predicate AllAcceptable(ms: seq<Message>) {
    forall i :: 0 <= i < |ms| ==> Acceptable(ms[i])
  }

  lemma {:induction false} EncodeAppend(ms: seq<Message>, more: seq<Message>)
    requires AllAcceptable(ms) && AllAcceptable(more)
    ensures AllAcceptable(ms + more) && EncodeAll(ms + more) == EncodeAll(ms) + EncodeAll(more)
    decreases |ms|
  {
    hide Encode, Acceptable;
    if ms == [] {
      assert ms + more == more;
    } else {
      assert (ms + more)[0] == ms[0] && (ms + more)[1..] == ms[1..] + more;
      assert Acceptable(ms[0]);
      EncodeAppend(ms[1..], more);
    }
  }

  lemma EncodeOne(m: Message)
    requires Acceptable(m)
    ensures EncodeAll([m]) == Encode(m)
  {
    hide Encode;
    assert [m][1..] == [] && [m][0] == m;
    assert EncodeAll([m]) == Encode(m) + EncodeAll([]);
  }

  /** The stream got the bytes of these messages, or only a part of them. */
  ghost predicate Partial(sent: seq<byte>, base: seq<byte>, ms: seq<Message>) {
    AllAcceptable(ms) && exists n :: 0 <= n <= |EncodeAll(ms)| && sent == base + EncodeAll(ms)[..n]
  }

  lemma PartialOfMore(sent: seq<byte>, base: seq<byte>, ms: seq<Message>, more: seq<Message>)
    requires Partial(sent, base, ms) && AllAcceptable(more)
    ensures Partial(sent, base, ms + more)
  {
    hide EncodeAll;
    EncodeAppend(ms, more);
    var n :| 0 <= n <= |EncodeAll(ms)| && sent == base + EncodeAll(ms)[..n];
    assert EncodeAll(ms + more)[..n] == EncodeAll(ms)[..n];
  }

  lemma WholeIsPartial(sent: seq<byte>, base: seq<byte>, ms: seq<Message>)
    requires AllAcceptable(ms) && sent == base + EncodeAll(ms)
    ensures Partial(sent, base, ms)
  {
    hide EncodeAll;
    assert EncodeAll(ms)[..|EncodeAll(ms)|] == EncodeAll(ms);
  }

  /** One more message on a stream that has carried `done`. */
  method Send(out: Descriptor, m: Message, ghost base: seq<byte>, ghost done: seq<Message>) returns (ok: bool)
    requires AllAcceptable(done) && Acceptable(m) && out.sent == base + EncodeAll(done)
    modifies out`sent, out`script
    ensures AllAcceptable(done + [m])
    ensures ok ==> out.sent == base + EncodeAll(done + [m])
    ensures !ok ==> out.script == [] && Partial(out.sent, base, done + [m])
    ensures old(out.script) == [] ==> !ok && out.sent == old(out.sent)
  {
    hide EncodeAll, Encode, Partial;
    ok := out.SendMessage(m);
    SentOne(ok, old(out.sent), out.sent, m, base, done);
  }

  lemma SentOne(ok: bool, before: seq<byte>, after: seq<byte>, m: Message, base: seq<byte>, done: seq<Message>)
    requires AllAcceptable(done) && Acceptable(m) && before == base + EncodeAll(done)
    requires if ok then after == before + Encode(m)
             else exists n :: 0 <= n < |Encode(m)| && after == before + Encode(m)[..n]
    ensures AllAcceptable(done + [m])
    ensures ok ==> after == base + EncodeAll(done + [m])
    ensures !ok ==> Partial(after, base, done + [m])
  {
    hide EncodeAll, Encode;
    var all := EncodeAll(done);
    EncodeOne(m);
    EncodeAppend(done, [m]);
    if ok {
      assert base + all + Encode(m) == base + (all + Encode(m));
    } else {
      var n :| 0 <= n < |Encode(m)| && after == before + Encode(m)[..n];
      assert base + all + Encode(m)[..n] == base + (all + Encode(m))[..|all| + n];
    }
  }

  // ---- The server's half of a download ----

  /** What the server puts on the stream for one download: perhaps a title and chunks, and one last
      message. */
  datatype Trace = Trace(title: Option<seq<byte>>, chunks: seq<seq<byte>>, last: Message)

  function Opening(client: uint32, title: Option<seq<byte>>, chunks: seq<seq<byte>>): seq<Message> {
    (if title.None? then [] else [Message(client, DOWNLOAD_BEGIN, title.value)]) +
    ChunkMessages(client, DOWNLOAD_CHUNK, chunks)
  }

  function Messages(client: uint32, t: Trace): (ms: seq<Message>)
    ensures ms != []
  {
    Opening(client, t.title, t.chunks) + [t.last]
  }

  /** What may stand before the last message when `sql` is served. */
  predicate Opens(title: Option<seq<byte>>, chunks: seq<seq<byte>>, sql: seq<byte>) {
    && Chunked(chunks) && Joined(chunks) <= sql
    && (title.None? ==> chunks == [])
    && (title.Some? ==> |title.value| <= MAX_PAYLOAD)
  }

  /** The traces of a download of `sql`: an END follows the whole text, an ERROR any part of it. */
  predicate Serves(t: Trace, sql: seq<byte>) {
    && Opens(t.title, t.chunks, sql) && Acceptable(t.last)
    && (t.last.opId == ERROR || (t.last.opId == DOWNLOAD_END && t.title.Some? && Joined(t.chunks) == sql))
  }

  lemma OpeningAcceptable(client: uint32, title: Option<seq<byte>>, chunks: seq<seq<byte>>, sql: seq<byte>)
    requires Opens(title, chunks, sql)
    ensures AllAcceptable(Opening(client, title, chunks))
  {
    hide Joined;
    assert forall i :: 0 <= i < |chunks| ==> IsChunk(chunks[i]);
  }

  lemma OpeningGrows(client: uint32, title: Option<seq<byte>>, chunks: seq<seq<byte>>, c: seq<byte>)
    ensures Opening(client, title, chunks + [c]) ==
            Opening(client, title, chunks) + [Message(client, DOWNLOAD_CHUNK, c)]
  {
    assert ChunkMessages(client, DOWNLOAD_CHUNK, chunks + [c]) ==
           ChunkMessages(client, DOWNLOAD_CHUNK, chunks) + [Message(client, DOWNLOAD_CHUNK, c)];
  }

  /** One `read` of the text moves its piece from what is left to what has been sent. */
  lemma ChunkTaken(chunks: seq<seq<byte>>, c: seq<byte>, before: seq<byte>, rest: seq<byte>, sql: seq<byte>)
    requires Chunked(chunks) && IsChunk(c) && Joined(chunks) + before == sql && c + rest == before
    ensures Chunked(chunks + [c]) && Joined(chunks + [c]) + rest == sql
  {
    hide Joined;
    JoinedMore(chunks, c);
    assert Joined(chunks) + (c + rest) == (Joined(chunks) + c) + rest;
  }

  /** How the server's file calls fare. */
  datatype FileIo = FileIo(creates: bool, writing: seq<Answer>, reopens: bool, reading: seq<Answer>)

  ghost predicate Whole(sent: seq<byte>, base: seq<byte>, ms: seq<Message>) {
    AllAcceptable(ms) && sent == base + EncodeAll(ms)
  }

  /** The stream when the sending is over: the trace's messages; or the opening alone, with the error
      message still to come; or, on a connection that has failed, a part of the trace. */
  ghost predicate Left(ok: bool, dead: bool, sent: seq<byte>, base: seq<byte>, client: uint32, t: Trace) {
    if ok then t.last.opId == DOWNLOAD_END && Whole(sent, base, Messages(client, t))
    else
      || (t.last.opId == ERROR && Whole(sent, base, Opening(client, t.title, t.chunks)))
      || (dead && Partial(sent, base, Messages(client, t)))
  }

  function Failure(client: uint32, text: seq<byte>): Message {
    Message(client, ERROR, text)
  }

  /** `send_generated_sql_file`: the text goes through a file and leaves in chunks of what each `read`
      delivers. The ghost results tell what has been put on the stream. */
  method SendGeneratedSqlFile(out: Descriptor, client: uint32, name: seq<byte>, sql: seq<byte>, io: FileIo)
    returns (ok: bool, ghost t: Trace)
    requires |name| < 160
    modifies out`sent, out`script
    ensures Serves(t, sql) && t.last.clientId == client && Left(ok, out.script == [], out.sent, old(out.sent), client, t)
  {
    hide Serves, Left;
    t := Trace(None, [], Failure(client, []));
    NothingSent(client, sql, out.sent, out.script == []);
    if !io.creates { return false, t; }
    var copy := new Descriptor([], io.writing);
    var stored := copy.WriteFull(sql);
    if !stored || !io.reopens { return false, t; }
    assert copy.sent == sql;
    var file := new Descriptor(copy.sent, io.reading);
    ok, t := StreamFile(out, file, client, name);
  }

  lemma NothingSent(client: uint32, sql: seq<byte>, sent: seq<byte>, dead: bool)
    ensures var t := Trace(None, [], Failure(client, []));
            Serves(t, sql) && t.last.clientId == client && Left(false, dead, sent, sent, client, t)
  {
    assert sent + [] == sent;
  }

  /** The stream carries the opening and the descriptor still holds the rest of the text. */
  ghost predicate Streaming(
      sent: seq<byte>, base: seq<byte>, client: uint32, name: seq<byte>, chunks: seq<seq<byte>>, rest: seq<byte>, sql: seq<byte>) {
    && |name| < 160 && Chunked(chunks) && Joined(chunks) + rest == sql
    && Whole(sent, base, Opening(client, Some(name), chunks))
  }

  lemma StreamStops(
      dead: bool, sent: seq<byte>, base: seq<byte>, client: uint32, name: seq<byte>, chunks: seq<seq<byte>>, rest: seq<byte>, sql: seq<byte>)
    requires Streaming(sent, base, client, name, chunks, rest, sql)
    ensures var t := Trace(Some(name), chunks, Failure(client, []));
            Serves(t, sql) && t.last.clientId == client && Left(false, dead, sent, base, client, t)
  {
    hide Joined, Whole, Chunked, Opening;
  }

  lemma StreamBreaks(
      sent: seq<byte>, base: seq<byte>, client: uint32, name: seq<byte>, chunks: seq<seq<byte>>, rest: seq<byte>, sql: seq<byte>)
    requires |name| < 160 && Chunked(chunks) && Joined(chunks) + rest == sql
    requires Partial(sent, base, Opening(client, Some(name), chunks))
    ensures var t := Trace(Some(name), chunks, Failure(client, []));
            Serves(t, sql) && t.last.clientId == client && Left(false, true, sent, base, client, t)
  {
    hide Joined, Partial, Chunked, Opening;
    PartialOfMore(sent, base, Opening(client, Some(name), chunks), [Failure(client, [])]);
  }

  lemma StreamEnds(
      ok: bool, dead: bool, sent: seq<byte>, base: seq<byte>, client: uint32, name: seq<byte>, chunks: seq<seq<byte>>, sql: seq<byte>)
    requires |name| < 160 && Chunked(chunks) && Joined(chunks) == sql
    requires var ms := Opening(client, Some(name), chunks) + [EndMessage(client)];
             if ok then Whole(sent, base, ms) else dead && Partial(sent, base, ms)
    ensures var t := Trace(Some(name), chunks, EndMessage(client));
            Serves(t, sql) && t.last.clientId == client && Left(ok, dead, sent, base, client, t)
  {
    hide Joined, Partial, Whole, Chunked, Opening;
  }

  function EndMessage(client: uint32): Message {
    Message(client, DOWNLOAD_END, ['O' as int, 'K' as int])
  }

  /** The read loop of `send_generated_sql_file`. */
  method StreamFile(out: Descriptor, file: Descriptor, client: uint32, name: seq<byte>)
    returns (ok: bool, ghost t: Trace)
    requires |name| < 160 && out != file
    modifies out`sent, out`script, file`incoming, file`script
    ensures Serves(t, old(file.incoming)) && t.last.clientId == client && Left(ok, out.script == [], out.sent, old(out.sent), client, t)
  {
    hide Serves, Left, Streaming, Partial, EncodeAll, Joined, Opening, Chunked;
    ghost var base, sql, title := out.sent, file.incoming, Some(name);
    ghost var chunks: seq<seq<byte>> := [];
    StreamBegins(base, client, name, sql);
    ok := Send(out, Message(client, DOWNLOAD_BEGIN, name), base, []);
    if !ok {
      StreamBreaks(out.sent, base, client, name, [], sql, sql);
      return ok, Trace(title, [], Failure(client, []));
    }
    StreamBegun(out.sent, base, client, name, sql);
    while true
      invariant Streaming(out.sent, base, client, name, chunks, file.incoming, sql)
      decreases |file.incoming|, |file.script|
    {
      ghost var before := file.incoming;
      var r := file.Recv(FILE_CHUNK);
      if r.Failed? {
        StreamStops(out.script == [], out.sent, base, client, name, chunks, file.incoming, sql);
        return false, Trace(title, chunks, Failure(client, []));
      }
      if r.Again? { continue; }
      if |r.bytes| == 0 { break; }
      StreamTakes(out.sent, base, client, name, chunks, r.bytes, before, file.incoming, sql);
      ok := Send(out, Message(client, DOWNLOAD_CHUNK, r.bytes), base, Opening(client, title, chunks));
      chunks := chunks + [r.bytes];
      if !ok {
        StreamBreaks(out.sent, base, client, name, chunks, file.incoming, sql);
        return ok, Trace(title, chunks, Failure(client, []));
      }
      StreamTook(out.sent, base, client, name, chunks, file.incoming, sql);
    }
    StreamDrained(out.sent, base, client, name, chunks, file.incoming, sql);
    ok := Send(out, EndMessage(client), base, Opening(client, title, chunks));
    t := Trace(title, chunks, EndMessage(client));
    StreamEnds(ok, out.script == [], out.sent, base, client, name, chunks, sql);
  }

  lemma StreamBegins(base: seq<byte>, client: uint32, name: seq<byte>, sql: seq<byte>)
    ensures EncodeAll([]) == [] && base + EncodeAll([]) == base
    ensures Chunked([]) && Joined<byte>([]) + sql == sql
    ensures [] + [Message(client, DOWNLOAD_BEGIN, name)] == Opening(client, Some(name), [])
  {
  }

  lemma StreamBegun(sent: seq<byte>, base: seq<byte>, client: uint32, name: seq<byte>, sql: seq<byte>)
    requires |name| < 160 && Whole(sent, base, [] + [Message(client, DOWNLOAD_BEGIN, name)])
    ensures Streaming(sent, base, client, name, [], sql, sql)
  {
    hide Whole;
    StreamBegins(base, client, name, sql);
  }

  lemma StreamTakes(
      sent: seq<byte>, base: seq<byte>, client: uint32, name: seq<byte>, chunks: seq<seq<byte>>, c: seq<byte>,
      before: seq<byte>, rest: seq<byte>, sql: seq<byte>)
    requires Streaming(sent, base, client, name, chunks, before, sql) && IsChunk(c) && c + rest == before
    ensures Whole(sent, base, Opening(client, Some(name), chunks))
    ensures Chunked(chunks + [c]) && Joined(chunks + [c]) + rest == sql
    ensures Opening(client, Some(name), chunks + [c]) ==
            Opening(client, Some(name), chunks) + [Message(client, DOWNLOAD_CHUNK, c)]
  {
    hide Whole, Joined, Chunked, Opening;
    ChunkTaken(chunks, c, before, rest, sql);
    OpeningGrows(client, Some(name), chunks, c);
  }

  lemma StreamTook(
      sent: seq<byte>, base: seq<byte>, client: uint32, name: seq<byte>, chunks: seq<seq<byte>>, rest: seq<byte>, sql: seq<byte>)
    requires |name| < 160 && Chunked(chunks) && Joined(chunks) + rest == sql
    requires Whole(sent, base, Opening(client, Some(name), chunks))
    ensures Streaming(sent, base, client, name, chunks, rest, sql)
  {
  }

  lemma StreamDrained(
      sent: seq<byte>, base: seq<byte>, client: uint32, name: seq<byte>, chunks: seq<seq<byte>>, rest: seq<byte>, sql: seq<byte>)
    requires Streaming(sent, base, client, name, chunks, rest, sql) && rest == []
    ensures Chunked(chunks) && Joined(chunks) == sql
    ensures Whole(sent, base, Opening(client, Some(name), chunks))
  {
    hide Whole, Chunked, Joined, Opening;
    assert Joined(chunks) + [] == Joined(chunks);
  }

  /** The download branch of `process_request` and the reply at its end: whatever fails, the stream
      carries a trace of the text, complete unless the connection itself has failed. */
  method ServeDownload(
      out: Descriptor, client: uint32, cancelled: bool, name: seq<byte>, sql: seq<byte>, io: FileIo, reply: seq<byte>)
    returns (ghost t: Trace)
    requires |name| < 160 && |reply| < 67584
    modifies out`sent, out`script
    ensures Serves(t, sql) && forall m :: m in Messages(client, t) ==> m.clientId == client
    ensures Whole(out.sent, old(out.sent), Messages(client, t)) ||
            (out.script == [] && Partial(out.sent, old(out.sent), Messages(client, t)))
  {
    hide Serves, Partial, Opening, EncodeAll, Messages;
    ghost var base := out.sent;
    var done := false;
    t := Trace(None, [], Failure(client, []));
    NothingSent(client, sql, base, out.script == []);
    if !cancelled {
      done, t := SendGeneratedSqlFile(out, client, name, sql, io);
    }
    if !done {
      var last := Failure(client, reply);
      ErrorFits(client, t, last, sql);
      ghost var before, opening := out.sent, Opening(client, t.title, t.chunks);
      ghost var whole := t.last.opId == ERROR && Whole(before, base, opening);
      var sent := out.SendMessage(last);
      if whole {
        SentOne(sent, before, out.sent, last, base, opening);
        t := t.(last := last);
      }
    }
    OwnTrace(client, t);
  }

  /** The whole trace goes under the client's own identifier. */
  lemma OwnTrace(client: uint32, t: Trace)
    requires t.last.clientId == client
    ensures forall m :: m in Messages(client, t) ==> m.clientId == client
  {
  }

  lemma ErrorFits(client: uint32, t: Trace, last: Message, sql: seq<byte>)
    requires Serves(t, sql) && last.opId == ERROR && |last.payload| < 67584
    ensures Acceptable(last) && Serves(t.(last := last), sql)
    ensures Messages(client, t.(last := last)) == Opening(client, t.title, t.chunks) + [last]
  {
  }

  // ---- The client's half of a download ----

  type Frames = seq<(Header, seq<byte>)>

  /** Where the client is after the messages it has received: the file as written so far, and the
      messages it has not looked at. */
  datatype Progress = Saved(file: seq<byte>, rest: Frames) | Stopped(file: seq<byte>, rest: Frames) | Waiting(file: seq<byte>)

  function Download(frames: Frames, begun: bool, file: seq<byte>): Progress {
    if frames == [] then Waiting(file)
    else
      var op, payload, rest := frames[0].0.opId, frames[0].1, frames[1..];
      if op == DOWNLOAD_BEGIN then Download(rest, true, file)
      else if op == DOWNLOAD_CHUNK then
        if begun then Download(rest, begun, file + payload) else Stopped(file, rest)
      else if op == DOWNLOAD_END then Saved(file, rest)
      else Stopped(file, rest)
  }

  /** The messages a stream holds. */
  function On(stream: seq<byte>): Frames {
    ReceiveAll(stream).0
  }

  lemma NextFrame(stream: seq<byte>, h: Header, payload: seq<byte>, rest: seq<byte>)
    requires Receive(stream) == Got(h, payload, rest)
    ensures On(stream) == [(h, payload)] + On(rest) && |rest| < |stream| && h.msgSize == |payload|
  {
  }

  lemma NoFrame(stream: seq<byte>)
    requires !Receive(stream).Got?
    ensures On(stream) == []
  {
    hide Receive;
  }

  lemma DownloadStep(h: Header, payload: seq<byte>, rest: Frames, begun: bool, file: seq<byte>)
    ensures Download([(h, payload)] + rest, begun, file) ==
            if h.opId == DOWNLOAD_BEGIN then Download(rest, true, file)
            else if h.opId == DOWNLOAD_CHUNK then
              if begun then Download(rest, begun, file + payload) else Stopped(file, rest)
            else if h.opId == DOWNLOAD_END then Saved(file, rest)
            else Stopped(file, rest)
  {
  }

  /** The loop of `download_sql_file`: 0 exactly when an END has been reached, whatever the
      segmentation, provided neither descriptor fails. */
  method ReceiveFile(sock: Descriptor, out: Descriptor) returns (rc: int, bytes: nat)
    requires sock != out
    modifies sock`incoming, sock`script, out`sent, out`script
    ensures rc == 0 || rc == -1
    ensures rc == 0 ==>
              exists file :: |file| == bytes && out.sent == old(out.sent) + file &&
                             Download(On(old(sock.incoming)), false, []) == Saved(file, On(sock.incoming))
    ensures rc == -1 ==>
              !Download(On(old(sock.incoming)), false, []).Saved? || !old(sock.Reliable()) || out.script == []
    ensures exists file :: file <= Download(On(old(sock.incoming)), false, []).file && out.sent == old(out.sent) + file
    ensures rc == -1 && old(sock.Reliable()) && out.script != [] ==>
              match Download(On(old(sock.incoming)), false, [])
              case Saved(_, _) => false
              case Stopped(file, rest) => out.sent == old(out.sent) + file && On(sock.incoming) == rest
              case Waiting(file) => out.sent == old(out.sent) + file
  {
    hide Receive, Download, On;
    ghost var outcome := Download(On(sock.incoming), false, []);
    DownloadGrows(On(sock.incoming), false, []);
    ghost var file: seq<byte> := [];
    var begun := false;
    bytes := 0;
    assert out.sent + [] == out.sent;
    while true
      invariant |file| == bytes && out.sent == old(out.sent) + file && file <= outcome.file
      invariant outcome == Download(On(sock.incoming), begun, file)
      invariant old(sock.Reliable()) ==> sock.Reliable()
      decreases |sock.incoming|
    {
      ghost var before := sock.incoming;
      var status, h, payload := sock.RecvMessage();
      if status <= 0 {
        if old(sock.Reliable()) {
          NoFrame(before);
          DownloadNothing(begun, file);
        }
        return -1, bytes;
      }
      NextFrame(before, h, payload, sock.incoming);
      DownloadStep(h, payload, On(sock.incoming), begun, file);
      if h.opId == DOWNLOAD_BEGIN {
        begun := true;
      } else if h.opId == DOWNLOAD_CHUNK {
        if !begun { return -1, bytes; }
        if h.msgSize > 0 {
          DownloadGrows(On(sock.incoming), true, file + payload);
          var ok := out.WriteFull(payload);
          if !ok {
            PartWritten(old(out.sent), out.sent, file, payload, outcome.file);
            return -1, bytes;
          }
        }
        DownloadGrows(On(sock.incoming), true, file + payload);
        assert old(out.sent) + file + payload == old(out.sent) + (file + payload);
        bytes, file := bytes + h.msgSize, file + payload;
      } else if h.opId == DOWNLOAD_END {
        return 0, bytes;
      } else {
        return -1, bytes;
      }
    }
  }

  /** Nothing the client has written is ever taken back. */
  lemma {:induction false} DownloadGrows(frames: Frames, begun: bool, file: seq<byte>)
    ensures file <= Download(frames, begun, file).file
    decreases |frames|
  {
    if frames != [] {
      var op, payload := frames[0].0.opId, frames[0].1;
      if op == DOWNLOAD_BEGIN {
        DownloadGrows(frames[1..], true, file);
      } else if op == DOWNLOAD_CHUNK && begun {
        DownloadGrows(frames[1..], begun, file + payload);
      }
    }
  }

  lemma PartWritten(before: seq<byte>, sent: seq<byte>, file: seq<byte>, payload: seq<byte>, all: seq<byte>)
    requires file + payload <= all
    requires exists n :: 0 <= n < |payload| && sent == before + file + payload[..n]
    ensures exists part :: part <= all && sent == before + part
  {
    var n :| 0 <= n < |payload| && sent == before + file + payload[..n];
    assert before + file + payload[..n] == before + (file + payload[..n]);
    assert file + payload[..n] == (file + payload)[..|file| + n];
  }

  lemma DownloadNothing(begun: bool, file: seq<byte>)
    ensures Download([], begun, file) == Waiting(file)
  {
  }

  // ---- The two halves agree ----

  lemma {:induction false} DownloadChunks(client: uint32, chunks: seq<seq<byte>>, more: Frames, file: seq<byte>)
    requires Chunked(chunks) && AllAcceptable(ChunkMessages(client, DOWNLOAD_CHUNK, chunks))
    ensures Download(Wire.Frames(ChunkMessages(client, DOWNLOAD_CHUNK, chunks)) + more, true, file) ==
            Download(more, true, file + Joined(chunks))
    decreases |chunks|
  {
    hide Download, Joined;
    if chunks == [] {
      assert Wire.Frames(ChunkMessages(client, DOWNLOAD_CHUNK, chunks)) + more == more;
      assert Joined(chunks) == [] && file + [] == file by { JoinedNone<byte>(); }
    } else {
      var init, c := chunks[..|chunks| - 1], chunks[|chunks| - 1];
      var f := Frame(Message(client, DOWNLOAD_CHUNK, c));
      assert chunks == init + [c];
      JoinedMore(init, c);
      assert IsChunk(c);
      assert Wire.Frames(ChunkMessages(client, DOWNLOAD_CHUNK, chunks)) + more ==
             Wire.Frames(ChunkMessages(client, DOWNLOAD_CHUNK, init)) + ([f] + more);
      DownloadChunks(client, init, [f] + more, file);
      DownloadStep(f.0, c, more, true, file + Joined(init));
      assert file + Joined(init) + c == file + (Joined(init) + c);
    }
  }

  lemma JoinedNone<T>()
    ensures Joined<T>([]) == []
  {
  }

  lemma DownloadOpening(client: uint32, title: Option<seq<byte>>, chunks: seq<seq<byte>>, sql: seq<byte>, more: Frames)
    requires Opens(title, chunks, sql)
    ensures AllAcceptable(Opening(client, title, chunks))
    ensures Download(Wire.Frames(Opening(client, title, chunks)) + more, false, []) ==
            Download(more, title.Some?, Joined(chunks))
  {
    hide Download, Joined;
    OpeningAcceptable(client, title, chunks, sql);
    var ms := ChunkMessages(client, DOWNLOAD_CHUNK, chunks);
    assert [] + Joined(chunks) == Joined(chunks);
    if title.None? {
      JoinedNone<byte>();
      assert Wire.Frames(Opening(client, title, chunks)) + more == more;
    } else {
      assert forall i :: 0 <= i < |chunks| ==> IsChunk(chunks[i]);
      var f := Frame(Message(client, DOWNLOAD_BEGIN, title.value));
      assert Wire.Frames(Opening(client, title, chunks)) + more == [f] + (Wire.Frames(ms) + more);
      DownloadStep(f.0, f.1, Wire.Frames(ms) + more, false, []);
      DownloadChunks(client, chunks, more, []);
    }
  }

  /** Every trace the server can emit ends the client's loop and leaves nothing unread: an END with
      the whole text in the file, an ERROR with the part of it that had been sent. */
  lemma DownloadAgrees(client: uint32, t: Trace, sql: seq<byte>)
    requires Serves(t, sql)
    ensures AllAcceptable(Messages(client, t))
    ensures Download(On(EncodeAll(Messages(client, t))), false, []) ==
            if t.last.opId == DOWNLOAD_END then Saved(sql, []) else Stopped(Joined(t.chunks), [])
  {
    hide Download, Opening, Joined;
    OpeningAcceptable(client, t.title, t.chunks, sql);
    var ms := Messages(client, t);
    StreamRoundTrip(ms);
    var f := Frame(t.last);
    assert Wire.Frames(ms) == Wire.Frames(Opening(client, t.title, t.chunks)) + [f];
    DownloadOpening(client, t.title, t.chunks, sql, [f]);
    DownloadStep(f.0, f.1, [], t.title.Some?, Joined(t.chunks));
    assert [f] + [] == [f];
  }

  /** Of a trace that is cut anywhere the client keeps a part of the text and never reports success. */
  lemma DownloadCut(client: uint32, t: Trace, sql: seq<byte>, n: nat)
    requires Serves(t, sql) && AllAcceptable(Messages(client, t)) && n < |EncodeAll(Messages(client, t))|
    ensures match Download(On(EncodeAll(Messages(client, t))[..n]), false, [])
            case Waiting(file) => file <= sql
            case _ => false
  {
    hide Download, Opening, Joined, EncodeAll, Wire.Frames;
    var ms := Messages(client, t);
    var k := StreamPrefix(ms, n);
    assert k < |ms| by { assert ms[..|ms|] == ms; }
    var title, chunks := OpeningPrefix(client, t.title, t.chunks, sql, k);
    assert ms[..k] == Opening(client, t.title, t.chunks)[..k];
    DownloadOpening(client, title, chunks, sql, []);
    assert Wire.Frames(ms[..k]) + [] == Wire.Frames(ms[..k]);
    DownloadNothing(title.Some?, Joined(chunks));
  }

  lemma OpeningPrefix(client: uint32, title: Option<seq<byte>>, chunks: seq<seq<byte>>, sql: seq<byte>, k: nat)
    returns (t: Option<seq<byte>>, c: seq<seq<byte>>)
    requires Opens(title, chunks, sql) && k <= |Opening(client, title, chunks)|
    ensures Opens(t, c, sql) && Opening(client, title, chunks)[..k] == Opening(client, t, c)
  {
    hide Joined;
    if k == 0 {
      t, c := None, [];
      JoinedNone<byte>();
      assert Opening(client, title, chunks)[..k] == [] == Opening(client, t, c);
    } else {
      t, c := title, chunks[..k - 1];
      JoinedPrefix(chunks, k - 1);
    }
  }

  lemma {:induction false} JoinedPrefix<T>(parts: seq<seq<T>>, k: nat)
    requires k <= |parts|
    ensures Joined(parts[..k]) <= Joined(parts)
    decreases |parts|
  {
    if k < |parts| {
      assert parts[..|parts| - 1][..k] == parts[..k];
      JoinedPrefix(parts[..|parts| - 1], k);
    } else {
      assert parts[..k] == parts;
    }
  }

  // ---- Upload ----

  function UploadOpening(client: uint32, path: seq<byte>, chunks: seq<seq<byte>>): seq<Message> {
    [Message(client, UPLOAD_BEGIN, path)] + ChunkMessages(client, UPLOAD_CHUNK, chunks)
  }

  /** The requests that carry a file. */
  function UploadMessages(client: uint32, path: seq<byte>, chunks: seq<seq<byte>>): seq<Message> {
    UploadOpening(client, path, chunks) + [Message(client, UPLOAD_END, [])]
  }

  /** Between two points of the stream lie `n` replies, every one of them OK. */
  predicate Acknowledged(before: seq<byte>, n: nat, after: seq<byte>)
    decreases n
  {
    if n == 0 then before == after
    else
      var r := Receive(before);
      r.Got? && r.header.opId == OK && Acknowledged(r.rest, n - 1, after)
  }

  lemma {:induction false} AcknowledgedMore(before: seq<byte>, n: nat, middle: seq<byte>, h: Header, p: seq<byte>, after: seq<byte>)
    requires Acknowledged(before, n, middle) && Receive(middle) == Got(h, p, after) && h.opId == OK
    ensures Acknowledged(before, n + 1, after)
    decreases n
  {
    hide Receive;
    if n == 0 {
      assert Acknowledged(after, 0, after);
    } else {
      AcknowledgedMore(Receive(before).rest, n - 1, middle, h, p, after);
    }
  }

  /** Sends one request and waits for its reply, as `request_text` does. */
  method Request(sock: Descriptor, m: Message, ghost base: seq<byte>, ghost done: seq<Message>, ghost replies: seq<byte>)
    returns (ok: bool)
    requires AllAcceptable(done) && Acceptable(m) && sock.sent == base + EncodeAll(done)
    requires Acknowledged(replies, |done|, sock.incoming)
    modifies sock
    ensures AllAcceptable(done + [m]) && Partial(sock.sent, base, done + [m])
    ensures ok ==> sock.sent == base + EncodeAll(done + [m])
    ensures ok ==> Acknowledged(replies, |done| + 1, sock.incoming)
  {
    hide EncodeAll, Partial, Receive, Acknowledged;
    var sent := Send(sock, m, base, done);
    if !sent { return false; }
    WholeIsPartial(sock.sent, base, done + [m]);
    ghost var before := sock.incoming;
    var rc, h, payload := sock.RecvMessage();
    if rc <= 0 { return false; }
    if h.opId == OK { AcknowledgedMore(replies, |done|, before, h, payload, sock.incoming); }
    return h.opId == OK;
  }

  /** What has been uploaded so far. */
  ghost predicate Uploading(
      sent: seq<byte>, base: seq<byte>, replies: seq<byte>, left: seq<byte>, client: uint32, path: seq<byte>,
      chunks: seq<seq<byte>>, rest: seq<byte>, content: seq<byte>) {
    && Chunked(chunks) && Joined(chunks) + rest == content
    && Whole(sent, base, UploadOpening(client, path, chunks))
    && Acknowledged(replies, |chunks| + 1, left)
  }

  /** `upload_file` after its file has been opened: on success the stream has carried exactly the
      file, in order and in chunks that fit, and every message has been acknowledged; on failure it
      has carried a part of such an upload. */
  method UploadFile(sock: Descriptor, file: Descriptor, client: uint32, path: seq<byte>)
    returns (rc: int, ghost chunks: seq<seq<byte>>)
    requires sock != file && |path| < 4096
    modifies sock, file`incoming, file`script
    ensures rc == 0 || rc == -1
    ensures Chunked(chunks) && Joined(chunks) <= old(file.incoming)
    ensures rc == 0 ==>
              && Joined(chunks) == old(file.incoming)
              && Whole(sock.sent, old(sock.sent), UploadMessages(client, path, chunks))
              && Acknowledged(old(sock.incoming), |chunks| + 2, sock.incoming)
    ensures rc == -1 ==> Partial(sock.sent, old(sock.sent), UploadMessages(client, path, chunks))
  {
    hide EncodeAll, Partial, Acknowledged, Joined, Chunked, Uploading, UploadOpening, UploadMessages;
    ghost var base, replies, content := sock.sent, sock.incoming, file.incoming;
    chunks := [];
    UploadBegins(base, replies, client, path, content);
    var ok := Request(sock, Message(client, UPLOAD_BEGIN, path), base, [], replies);
    if !ok {
      UploadStops(sock.sent, base, client, path, chunks, content, content);
      return -1, chunks;
    }
    UploadBegun(sock.sent, base, replies, sock.incoming, client, path, content);
    while true
      invariant Uploading(sock.sent, base, replies, sock.incoming, client, path, chunks, file.incoming, content)
      decreases |file.incoming|, |file.script|
    {
      ghost var before := file.incoming;
      var r := file.Recv(FILE_CHUNK);
      if r.Failed? {
        UploadPauses(sock.sent, base, replies, sock.incoming, client, path, chunks, file.incoming, content);
        return -1, chunks;
      }
      if r.Again? { continue; }
      if |r.bytes| == 0 { break; }
      UploadTakes(sock.sent, base, replies, sock.incoming, client, path, chunks, r.bytes, before, file.incoming, content);
      ok := Request(sock, Message(client, UPLOAD_CHUNK, r.bytes), base, UploadOpening(client, path, chunks), replies);
      chunks := chunks + [r.bytes];
      if !ok {
        UploadStops(sock.sent, base, client, path, chunks, file.incoming, content);
        return -1, chunks;
      }
      UploadTook(sock.sent, base, replies, sock.incoming, client, path, chunks, file.incoming, content);
    }
    UploadDrained(sock.sent, base, replies, sock.incoming, client, path, chunks, file.incoming, content);
    ok := Request(sock, Message(client, UPLOAD_END, []), base, UploadOpening(client, path, chunks), replies);
    UploadEnds(client, path, chunks);
    rc := if ok then 0 else -1;
  }

  lemma UploadBegins(base: seq<byte>, replies: seq<byte>, client: uint32, path: seq<byte>, content: seq<byte>)
    ensures EncodeAll([]) == [] && base + EncodeAll([]) == base
    ensures Chunked([]) && Joined<byte>([]) + content == content
    ensures [] + [Message(client, UPLOAD_BEGIN, path)] == UploadOpening(client, path, [])
    ensures Acknowledged(replies, 0, replies)
  {
  }

  lemma UploadBegun(
      sent: seq<byte>, base: seq<byte>, replies: seq<byte>, left: seq<byte>, client: uint32, path: seq<byte>, content: seq<byte>)
    requires Whole(sent, base, [] + [Message(client, UPLOAD_BEGIN, path)]) && Acknowledged(replies, 1, left)
    ensures Uploading(sent, base, replies, left, client, path, [], content, content)
  {
    hide Whole, Acknowledged;
    UploadBegins(base, replies, client, path, content);
  }

  lemma UploadStops(
      sent: seq<byte>, base: seq<byte>, client: uint32, path: seq<byte>, chunks: seq<seq<byte>>, rest: seq<byte>,
      content: seq<byte>)
    requires Joined(chunks) + rest == content && Partial(sent, base, UploadOpening(client, path, chunks))
    ensures Joined(chunks) <= content && Partial(sent, base, UploadMessages(client, path, chunks))
  {
    hide Joined, Partial, UploadOpening;
    PartialOfMore(sent, base, UploadOpening(client, path, chunks), [Message(client, UPLOAD_END, [])]);
  }

  lemma UploadPauses(
      sent: seq<byte>, base: seq<byte>, replies: seq<byte>, left: seq<byte>, client: uint32, path: seq<byte>,
      chunks: seq<seq<byte>>, rest: seq<byte>, content: seq<byte>)
    requires Uploading(sent, base, replies, left, client, path, chunks, rest, content)
    ensures Chunked(chunks) && Joined(chunks) <= content
    ensures Partial(sent, base, UploadMessages(client, path, chunks))
  {
    hide Joined, Partial, UploadOpening, UploadMessages, EncodeAll, Acknowledged;
    WholeIsPartial(sent, base, UploadOpening(client, path, chunks));
    UploadStops(sent, base, client, path, chunks, rest, content);
  }

  lemma UploadTakes(
      sent: seq<byte>, base: seq<byte>, replies: seq<byte>, left: seq<byte>, client: uint32, path: seq<byte>,
      chunks: seq<seq<byte>>, c: seq<byte>, before: seq<byte>, rest: seq<byte>, content: seq<byte>)
    requires Uploading(sent, base, replies, left, client, path, chunks, before, content) && IsChunk(c) && c + rest == before
    ensures Whole(sent, base, UploadOpening(client, path, chunks))
    ensures |UploadOpening(client, path, chunks)| == |chunks| + 1 && Acknowledged(replies, |chunks| + 1, left)
    ensures Chunked(chunks + [c]) && Joined(chunks + [c]) + rest == content
    ensures UploadOpening(client, path, chunks + [c]) ==
            UploadOpening(client, path, chunks) + [Message(client, UPLOAD_CHUNK, c)]
  {
    hide Whole, Joined, Chunked, Acknowledged;
    ChunkTaken(chunks, c, before, rest, content);
  }

  lemma UploadTook(
      sent: seq<byte>, base: seq<byte>, replies: seq<byte>, left: seq<byte>, client: uint32, path: seq<byte>,
      chunks: seq<seq<byte>>, rest: seq<byte>, content: seq<byte>)
    requires Chunked(chunks) && Joined(chunks) + rest == content
    requires Whole(sent, base, UploadOpening(client, path, chunks)) && Acknowledged(replies, |chunks| + 1, left)
    ensures Uploading(sent, base, replies, left, client, path, chunks, rest, content)
  {
  }

  lemma UploadDrained(
      sent: seq<byte>, base: seq<byte>, replies: seq<byte>, left: seq<byte>, client: uint32, path: seq<byte>,
      chunks: seq<seq<byte>>, rest: seq<byte>, content: seq<byte>)
    requires Uploading(sent, base, replies, left, client, path, chunks, rest, content) && rest == []
    ensures Chunked(chunks) && Joined(chunks) == content && Joined(chunks) <= content
    ensures Whole(sent, base, UploadOpening(client, path, chunks))
    ensures |UploadOpening(client, path, chunks)| == |chunks| + 1 && Acknowledged(replies, |chunks| + 1, left)
  {
    hide Whole, Chunked, Joined, Acknowledged;
    assert Joined(chunks) + [] == Joined(chunks);
  }

  lemma UploadEnds(client: uint32, path: seq<byte>, chunks: seq<seq<byte>>)
    ensures UploadOpening(client, path, chunks) + [Message(client, UPLOAD_END, [])] == UploadMessages(client, path, chunks)
  {
  }
}
