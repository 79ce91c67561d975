/** Message framing: a 16-byte header in network byte order (RFC 791, Appendix B) and the payload,
    written and read through calls that may transfer fewer bytes than asked or be interrupted. */
module Wire {
  const MAX_PAYLOAD: nat := 1_048_576
  const HEADER_SIZE: nat := 16
  const TWO_32: int := 0x1_0000_0000

  type byte = b: int | 0 <= b < 256
  type uint32 = n: int | 0 <= n < TWO_32

  datatype Header = Header(msgSize: uint32, clientId: uint32, opId: uint32, flags: uint32)

  datatype Message = Message(clientId: uint32, opId: uint32, payload: seq<byte>)

  function Htonl(n: uint32): (b: seq<byte>)
    ensures |b| == 4
  {
    var a := (n as int) / 256;
    var b := a / 256;
    var c := b / 256;
    [c, b % 256, a % 256, (n as int) % 256]
  }

  function Ntohl(b: seq<byte>): uint32
    requires |b| == 4
  {
    (b[0] as int) * 0x100_0000 + (b[1] as int) * 0x1_0000 + (b[2] as int) * 256 + b[3] as int
  }

  /** Network byte order: the most significant byte comes first. */
  lemma BigEndian(n: uint32)
    ensures Htonl(n) == [n / 0x100_0000, n / 0x1_0000 % 256, n / 256 % 256, n % 256]
  {
  }

  lemma NtohlInvertsHtonl(n: uint32)
    ensures Ntohl(Htonl(n)) == n
  {
  }

  function EncodeHeader(h: Header): (b: seq<byte>)
    ensures |b| == HEADER_SIZE
  {
    Htonl(h.msgSize) + Htonl(h.clientId) + Htonl(h.opId) + Htonl(h.flags)
  }

  function DecodeHeader(b: seq<byte>): Header
    requires |b| == HEADER_SIZE
  {
    Header(Ntohl(b[0..4]), Ntohl(b[4..8]), Ntohl(b[8..12]), Ntohl(b[12..16]))
  }

  lemma HeaderRoundTrip(h: Header)
    ensures DecodeHeader(EncodeHeader(h)) == h
  {
    hide Htonl, Ntohl;
    var b := EncodeHeader(h);
    assert b[0..4] == Htonl(h.msgSize) && b[4..8] == Htonl(h.clientId);
    assert b[8..12] == Htonl(h.opId) && b[12..16] == Htonl(h.flags);
    NtohlInvertsHtonl(h.msgSize);
    NtohlInvertsHtonl(h.clientId);
    NtohlInvertsHtonl(h.opId);
    NtohlInvertsHtonl(h.flags);
  }

  predicate Sendable(m: Message) {
    |m.payload| < TWO_32
  }

  function HeaderOf(m: Message): Header
    requires Sendable(m)
  {
    Header(|m.payload|, m.clientId, m.opId, 0)
  }

  /** The bytes of one message. */
  function Encode(m: Message): seq<byte>
    requires Sendable(m)
  {
    EncodeHeader(HeaderOf(m)) + m.payload
  }

  /** The sixteen bytes of a header: size, client, operation and flags in this order, each with its most
      significant byte first, and then the payload. */
  lemma HeaderLayout(m: Message)
    requires Sendable(m)
    ensures Encode(m)[..4] == [|m.payload| / 0x100_0000, |m.payload| / 0x1_0000 % 256, |m.payload| / 256 % 256, |m.payload| % 256]
    ensures Encode(m)[4..8] == [m.clientId / 0x100_0000, m.clientId / 0x1_0000 % 256, m.clientId / 256 % 256, m.clientId % 256]
    ensures Encode(m)[8..12] == [m.opId / 0x100_0000, m.opId / 0x1_0000 % 256, m.opId / 256 % 256, m.opId % 256]
    ensures Encode(m)[12..16] == [0, 0, 0, 0] && Encode(m)[16..] == m.payload
  {
    hide Htonl;
    BigEndian(|m.payload|);
    BigEndian(m.clientId);
    BigEndian(m.opId);
    BigEndian(0);
    assert Encode(m)[..4] == Htonl(|m.payload|) && Encode(m)[4..8] == Htonl(m.clientId);
    assert Encode(m)[8..12] == Htonl(m.opId) && Encode(m)[12..16] == Htonl(0);
  }

  /** What a reader makes of a byte stream that ends after `bytes`. */
  datatype Received =
    | Closed
    | Rejected
    | Got(header: Header, payload: seq<byte>, rest: seq<byte>)

  function Receive(bytes: seq<byte>): Received {
    if |bytes| < HEADER_SIZE then Closed
    else
      var h := DecodeHeader(bytes[..HEADER_SIZE]);
      if h.msgSize > MAX_PAYLOAD then Rejected
      else if |bytes| < HEADER_SIZE + h.msgSize then Closed
      else Got(h, bytes[HEADER_SIZE..HEADER_SIZE + h.msgSize], bytes[HEADER_SIZE + h.msgSize..])
  }

  /** A message comes back as it was sent, and nothing after it is touched, exactly when its payload
      is within the protocol's limit; a larger one is always refused. */
  lemma ReceiveEncoded(m: Message, rest: seq<byte>)
    requires Sendable(m)
    ensures Receive(Encode(m) + rest) ==
            if |m.payload| <= MAX_PAYLOAD then Got(Header(|m.payload|, m.clientId, m.opId, 0), m.payload, rest)
            else Rejected
  {
    hide EncodeHeader, DecodeHeader;
    var bytes := Encode(m) + rest;
    assert bytes[..HEADER_SIZE] == EncodeHeader(HeaderOf(m));
    HeaderRoundTrip(HeaderOf(m));
    assert bytes[HEADER_SIZE..HEADER_SIZE + |m.payload|] == m.payload;
    assert bytes[HEADER_SIZE + |m.payload|..] == rest;
  }

  /** A stream cut inside a message never yields that message. */
  lemma ReceiveCut(m: Message, n: nat)
    requires Sendable(m) && n < |Encode(m)|
    ensures !Receive(Encode(m)[..n]).Got?
  {
    hide EncodeHeader, DecodeHeader;
    var bytes := Encode(m)[..n];
    if n >= HEADER_SIZE {
      assert bytes[..HEADER_SIZE] == EncodeHeader(HeaderOf(m));
      HeaderRoundTrip(HeaderOf(m));
    }
  }

  // ---- Streams of messages ----

  predicate Acceptable(m: Message) {
    |m.payload| <= MAX_PAYLOAD
  }

  function EncodeAll(ms: seq<Message>): seq<byte>
    requires forall i :: 0 <= i < |ms| ==> Acceptable(ms[i])
  {
    if ms == [] then []
    else
      assert Acceptable(ms[0]);
      Encode(ms[0]) + EncodeAll(ms[1..])
  }

  /** Messages taken off a stream until a read fails, and what is left of the stream then. */
  function ReceiveAll(bytes: seq<byte>): (seq<(Header, seq<byte>)>, seq<byte>) {
    match Receive(bytes)
    case Got(h, p, rest) =>
      var tail := ReceiveAll(rest);
      ([(h, p)] + tail.0, tail.1)
    case _ => ([], bytes)
  }

  function Frame(m: Message): (Header, seq<byte>)
    requires Acceptable(m)
  {
    (HeaderOf(m), m.payload)
  }

  function Frames(ms: seq<Message>): (r: seq<(Header, seq<byte>)>)
    requires forall i :: 0 <= i < |ms| ==> Acceptable(ms[i])
    ensures |r| == |ms|
    ensures forall i :: 0 <= i < |ms| ==> r[i] == Frame(ms[i])
    ensures forall i :: 0 <= i < |ms| ==>
              Acceptable(ms[i]) && r[i] == (Header(|ms[i].payload|, ms[i].clientId, ms[i].opId, 0), ms[i].payload)
  {
    seq(|ms|, i requires 0 <= i < |ms| && Acceptable(ms[i]) => Frame(ms[i]))
  }

  /** Every sequence of messages is returned in order, with no residue. */
  lemma {:induction false} StreamRoundTrip(ms: seq<Message>)
    requires forall i :: 0 <= i < |ms| ==> Acceptable(ms[i])
    ensures ReceiveAll(EncodeAll(ms)) == (Frames(ms), [])
    decreases |ms|
  {
    hide Encode, Receive, Frames;
    if ms == [] {
      NothingReceived();
    } else {
      assert Acceptable(ms[0]);
      StreamCons(ms);
      ReceiveEncoded(ms[0], EncodeAll(ms[1..]));
      StreamRoundTrip(ms[1..]);
    }
  }

  lemma NothingReceived()
    ensures Receive([]) == Closed
  {
  }

  /** A connection that drops anywhere delivers exactly the messages sent completely before. */
  lemma {:induction false} StreamPrefix(ms: seq<Message>, n: nat) returns (k: nat)
    requires forall i :: 0 <= i < |ms| ==> Acceptable(ms[i])
    requires n <= |EncodeAll(ms)|
    ensures k <= |ms| && |EncodeAll(ms[..k])| <= n
    ensures k < |ms| ==> n < |EncodeAll(ms[..k + 1])|
    ensures ReceiveAll(EncodeAll(ms)[..n]).0 == Frames(ms[..k])
    decreases |ms|
  {
    hide Encode, Receive, Frames, EncodeAll;
    if ms == [] {
      k := 0;
      NothingReceived();
      assert EncodeAll(ms)[..n] == [] && ms[..0] == [] by { EmptyStream(); }
      EmptyStream();
    } else {
      assert Acceptable(ms[0]);
      var first, rest := Encode(ms[0]), ms[1..];
      StreamCons(ms);
      EmptyStream();
      assert ms[..0] == [];
      if n < |first| {
        k := 0;
        assert EncodeAll(ms)[..n] == first[..n];
        ReceiveCut(ms[0], n);
        StreamCons(ms[..1]);
        assert ms[..1][1..] == [] && ms[..1][0] == ms[0];
      } else {
        var j := StreamPrefix(rest, n - |first|);
        k := j + 1;
        assert EncodeAll(ms)[..n] == first + EncodeAll(rest)[..n - |first|];
        ReceiveEncoded(ms[0], EncodeAll(rest)[..n - |first|]);
        assert ms[..k][1..] == rest[..j] && ms[..k][0] == ms[0];
        StreamCons(ms[..k]);
        if k < |ms| {
          assert ms[..k + 1][1..] == rest[..j + 1] && ms[..k + 1][0] == ms[0];
          StreamCons(ms[..k + 1]);
        }
      }
    }
  }

  lemma EmptyStream()
    ensures EncodeAll([]) == [] && Frames([]) == []
  {
  }

  lemma StreamCons(ms: seq<Message>)
    requires ms != [] && forall i :: 0 <= i < |ms| ==> Acceptable(ms[i])
    ensures EncodeAll(ms) == Encode(ms[0]) + EncodeAll(ms[1..])
    ensures Frames(ms) == [Frame(ms[0])] + Frames(ms[1..])
  {
    hide Encode, Frame, Acceptable;
    assert Acceptable(ms[0]);
  }

  // ---- Text as bytes ----

  function Chars(b: seq<byte>): (s: string)
    ensures |s| == |b|
  {
    seq(|b|, i requires 0 <= i < |b| => b[i] as char)
  }

  predicate Narrow(s: string) {
    forall i :: 0 <= i < |s| ==> s[i] as int < 256
  }

  function Bytes(s: string): (b: seq<byte>)
    ensures |b| == |s|
    ensures Narrow(s) ==> Chars(b) == s
  {
    var b: seq<byte> := seq(|s|, i requires 0 <= i < |s| => s[i] as int % 256);
    assert Narrow(s) ==> Chars(b) == s;
    b
  }

  lemma CharsOfSum(a: seq<byte>, b: seq<byte>)
    ensures Chars(a + b) == Chars(a) + Chars(b)
  {
  }

  // ---- The transfer loops ----

  /** How the system answers one call: it moves up to `limit + 1` bytes, is interrupted by a signal,
      or fails. A descriptor answers its calls from a script and fails when the script is over; once it
      has failed it keeps failing. The calls are the same for a socket and for a file. */
  datatype Answer = Ready(limit: nat) | Interrupted | Broken

  datatype Transfer = Moved(bytes: seq<byte>) | Again | Failed

  /** How many calls will move bytes before one fails. */
  function Turns(script: seq<Answer>): nat {
    if script == [] || script[0].Broken? then 0
    else (if script[0].Ready? then 1 else 0) + Turns(script[1..])
  }

  function Least(a: nat, b: nat): nat {
    if a <= b then a else b
  }

  lemma Taken(all: seq<byte>, got: nat, bytes: seq<byte>, rest: seq<byte>)
    requires got <= |all| && bytes + rest == all[got..]
    ensures got + |bytes| <= |all| && rest == all[got + |bytes|..] && all[..got] + bytes == all[..got + |bytes|]
  {
    assert all == all[..got] + (bytes + rest);
    assert all == (all[..got] + bytes) + rest;
  }

  method CopyIn(buf: array<byte>, at: nat, bytes: seq<byte>)
    requires at + |bytes| <= buf.Length
    modifies buf
    ensures buf[..at + |bytes|] == old(buf[..at]) + bytes
  {
    forall i | 0 <= i < |bytes| {
      buf[at + i] := bytes[i];
    }
  }

  lemma EncodedParts(m: Message, header: seq<byte>)
    requires Sendable(m) && header == EncodeHeader(HeaderOf(m))
    ensures |header| == HEADER_SIZE && Encode(m) == header + m.payload
  {
  }

  class Descriptor {
    var incoming: seq<byte>  // what the peer has sent and this side has not read
    var sent: seq<byte>
    var script: seq<Answer>

    constructor (incoming: seq<byte>, script: seq<Answer>)
      ensures this.incoming == incoming && this.script == script && sent == []
    {
      this.incoming, this.script, sent := incoming, script, [];
    }

    /** No failure comes before the stream is exhausted and its end is seen. */
    predicate Reliable()
      reads this
    {
      Turns(script) > |incoming|
    }

    /** `recv`: an empty answer means the peer has closed. */
    method Recv(max: nat) returns (r: Transfer)
      requires max > 0
      modifies this`incoming, this`script
      ensures |script| <= |old(script)| && (r.Again? ==> |script| < |old(script)|)
      ensures match r
              case Moved(bytes) =>
                && bytes + incoming == old(incoming) && |bytes| <= max
                && (bytes == [] ==> incoming == [])
                && Turns(old(script)) == 1 + Turns(script) && script != old(script)
              case Again => incoming == old(incoming) && Turns(script) == Turns(old(script))
              case Failed => incoming == old(incoming) && Turns(old(script)) == 0 && script == []
      ensures old(script) != [] && old(script)[0].Ready? ==>
                r.Moved? && |r.bytes| == Least(Least(old(script)[0].limit + 1, max), |old(incoming)|)
    {
      if script == [] { return Failed; }
      var answer := script[0];
      script := script[1..];
      match answer
      case Interrupted => return Again;
      case Broken =>
        script := [];
        return Failed;
      case Ready(limit) =>
        var n := Least(Least(limit + 1, max), |incoming|);
        r := Moved(incoming[..n]);
        assert incoming[..n] + incoming[n..] == incoming;
        incoming := incoming[n..];
    }

    /** `write`: moves at least one byte unless it is interrupted or fails. */
    method Write(data: seq<byte>) returns (r: Transfer)
      requires data != []
      modifies this`sent, this`script
      ensures |script| <= |old(script)| && (r.Again? ==> |script| < |old(script)|)
      ensures match r
              case Moved(bytes) =>
                && bytes != [] && bytes <= data && sent == old(sent) + bytes
                && Turns(old(script)) == 1 + Turns(script)
              case Again => sent == old(sent) && Turns(script) == Turns(old(script))
              case Failed => sent == old(sent) && Turns(old(script)) == 0 && script == []
      ensures old(script) == [] ==> r.Failed?
    {
      if script == [] { return Failed; }
      var answer := script[0];
      script := script[1..];
      match answer
      case Interrupted => return Again;
      case Broken =>
        script := [];
        return Failed;
      case Ready(limit) =>
        var n := Least(limit + 1, |data|);
        sent := sent + data[..n];
        return Moved(data[..n]);
    }

    /** Reads exactly `buf.Length` bytes: 1 when they are all there, 0 when the peer closed first,
        -1 when a call failed. */
    method ReadFull(buf: array<byte>) returns (rc: int)
      modifies this`incoming, this`script, buf
      ensures rc == 1 || rc == 0 || rc == -1
      ensures rc == 1 ==> |old(incoming)| >= buf.Length &&
                          buf[..] == old(incoming)[..buf.Length] && incoming == old(incoming)[buf.Length..]
      ensures rc == 0 ==> |old(incoming)| < buf.Length && incoming == []
      ensures rc == -1 ==>
                exists n :: 0 <= n < buf.Length && n <= |old(incoming)| && incoming == old(incoming)[n..]
      ensures old(Reliable()) ==> rc >= 0 && (rc == 1 ==> Reliable())
    {
      var got := 0;
      while got < buf.Length
        invariant got <= buf.Length && got <= |old(incoming)|
        invariant incoming == old(incoming)[got..] && buf[..got] == old(incoming)[..got]
        invariant Turns(script) + got >= Turns(old(script))
        decreases buf.Length - got, |script|
      {
        var r := Recv(buf.Length - got);
        if r.Failed? { return -1; }
        if r.Again? { continue; }
        var n := |r.bytes|;
        if n == 0 { return 0; }
        Taken(old(incoming), got, r.bytes, incoming);
        CopyIn(buf, got, r.bytes);
        got := got + n;
      }
      assert buf[..] == buf[..got];
      return 1;
    }

    /** Writes all of `data`, or fails after some proper prefix of it. */
    method WriteFull(data: seq<byte>) returns (ok: bool)
      modifies this`sent, this`script
      ensures ok ==> sent == old(sent) + data
      ensures !ok ==> script == [] && exists n :: 0 <= n < |data| && sent == old(sent) + data[..n]
      ensures old(script) == [] && data != [] ==> !ok && sent == old(sent)
      ensures Turns(old(script)) >= |data| ==> ok
    {
      var done := 0;
      while done < |data|
        invariant old(script) == [] ==> done == 0 && script == []
        invariant done <= |data| && sent == old(sent) + data[..done]
        invariant Turns(script) + done >= Turns(old(script))
        decreases |data| - done, |script|
      {
        var r := Write(data[done..]);
        if r.Failed? { return false; }
        if r.Again? { continue; }
        assert data[done..][..|r.bytes|] == r.bytes;
        assert data[..done + |r.bytes|] == data[..done] + r.bytes;
        done := done + |r.bytes|;
      }
      assert data[..done] == data;
      return true;
    }

    /** Header, then payload. A failure leaves a proper prefix of the message on the stream. */
    method SendMessage(m: Message) returns (ok: bool)
      requires Sendable(m)
      modifies this`sent, this`script
      ensures ok ==> sent == old(sent) + Encode(m)
      ensures !ok ==> script == [] && exists n :: 0 <= n < |Encode(m)| && sent == old(sent) + Encode(m)[..n]
      ensures old(script) == [] ==> !ok && sent == old(sent)
    {
      hide EncodeHeader, Encode;
      var header := EncodeHeader(HeaderOf(m));
      ok := WriteFull(header);
      EncodedParts(m, header);
      if !ok {
        ghost var n :| 0 <= n < |header| && sent == old(sent) + header[..n];
        assert Encode(m)[..n] == header[..n];
        return;
      }
      if |m.payload| > 0 {
        ok := WriteFull(m.payload);
        if !ok {
          ghost var n :| 0 <= n < |m.payload| && sent == old(sent) + header + m.payload[..n];
          assert Encode(m)[..|header| + n] == header + m.payload[..n];
        }
      }
    }

    /** One message: 1 with the message, 0 when the stream ends before it is complete, -1 when it is
        oversized or a call failed. */
    method RecvMessage() returns (rc: int, header: Header, payload: seq<byte>)
      modifies this`incoming, this`script
      ensures rc == 1 || rc == 0 || rc == -1
      ensures rc == 1 ==> Receive(old(incoming)) == Got(header, payload, incoming)
      ensures rc == 0 ==> Receive(old(incoming)) == Closed
      ensures rc == -1 ==> Receive(old(incoming)) == Rejected || !old(Reliable())
      ensures rc != 1 ==> exists n :: 0 <= n <= |old(incoming)| && incoming == old(incoming)[n..]
      ensures old(Reliable()) && rc == 1 ==> Reliable()
    {
      hide DecodeHeader;
      header, payload := Header(0, 0, 0, 0), [];
      var net := new byte[HEADER_SIZE];
      rc := ReadFull(net);
      assert old(incoming)[|old(incoming)|..] == [];
      if rc <= 0 { return; }
      assert net[..] == old(incoming)[..HEADER_SIZE];
      header := DecodeHeader(net[..]);
      if header.msgSize > MAX_PAYLOAD { return -1, header, []; }
      if header.msgSize > 0 {
        var buf := new byte[header.msgSize];
        ghost var body := incoming;
        assert forall n :: 0 <= n <= |body| ==> body[n..] == old(incoming)[HEADER_SIZE + n..];
        rc := ReadFull(buf);
        if rc <= 0 { return; }
        payload := buf[..];
        assert payload == old(incoming)[HEADER_SIZE..HEADER_SIZE + header.msgSize];
        assert incoming == old(incoming)[HEADER_SIZE + header.msgSize..];
      }
      return 1, header, payload;
    }
  }
}
