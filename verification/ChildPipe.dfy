/** The verdict of the child process that validates an INSERT, packed into a pipe and read back by the
    server with one `read`. */
module ChildPipe {
  import opened Schema
  import opened Text
  import opened Wire
  import Store

  const MESSAGE_BUFFER: nat := 1024
  const PACKET_BUFFER: nat := 1200
  const NO_RESULT: string := "child did not return validation result"

  /** What the child writes: the verdict, a line end and the message. */
  function Packet(ok: bool, msg: string): string {
    Cap((if ok then "1" else "0") + ("\n" + msg), PACKET_BUFFER)
  }

  datatype Verdict = Verdict(accepted: bool, text: string)

  /** The text after the first line end, or all of it when there is none. */
  function Message(packet: string, whole: string): string {
    if packet == "" then whole
    else if packet[0] == '\n' then packet[1..]
    else Message(packet[1..], whole)
  }

  function Unpack(packet: string, size: nat): Verdict
    requires size > 0 && packet != ""
  {
    Verdict(packet[0] == '1', Cap(Message(packet, packet), size))
  }

  /** However short the read, the verdict is the child's; the message is cut where the read was, and
      the verdict digit stands in for it when nothing else was read. */
  lemma UnpackRead(ok: bool, msg: string, n: nat, size: nat)
    requires |msg| < MESSAGE_BUFFER && 0 < n <= |Packet(ok, msg)| && size > 0
    ensures |Packet(ok, msg)| == |msg| + 2
    ensures Unpack(Packet(ok, msg)[..n], size) ==
            Verdict(ok, Cap(if n == 1 then (if ok then "1" else "0") else msg[..n - 2], size))
  {
    var p := Packet(ok, msg)[..n];
    var digit := if ok then "1" else "0";
    assert Packet(ok, msg) == digit + ("\n" + msg);
    assert p[0] == digit[0] && Message(p, p) == Message(p[1..], p);
    if n == 1 {
      assert p == digit && p[1..] == "";
    } else {
      assert p[1..][0] == '\n' && p[1..][1..] == msg[..n - 2];
      assert Message(p[1..], p) == p[1..][1..];
    }
  }

  lemma UnpackBytes(ok: bool, msg: string, read: seq<byte>, size: nat)
    requires |msg| < MESSAGE_BUFFER && Narrow(msg) && size > 0
    requires read != [] && read <= Bytes(Packet(ok, msg))
    ensures Unpack(Chars(read), size).accepted == ok
    ensures |read| >= |msg| + 2 ==> Unpack(Chars(read), size).text == Cap(msg, size)
  {
    hide Unpack;
    var packet := Packet(ok, msg);
    UnpackRead(ok, msg, |read|, size);
    assert packet == (if ok then "1" else "0") + ("\n" + msg);
    assert Narrow(packet);
    assert Chars(read) == packet[..|read|] by { assert Chars(Bytes(packet)) == packet; }
    if |read| >= |msg| + 2 { assert msg[..|read| - 2] == msg; }
  }

  /** How the parent's calls fare: `pipe`, `fork`, the one `read`, and the calls of `waitpid`, which are
      repeated while they are interrupted. */
  datatype Calls = Calls(pipes: bool, forks: bool, writing: seq<Answer>, reading: Answer, waits: seq<Answer>)

  function Waited(waits: seq<Answer>): bool {
    waits != [] && (waits[0].Ready? || (waits[0].Interrupted? && Waited(waits[1..])))
  }

  /** Interruptions are waited out; the first other answer decides. */
  lemma {:induction false} WaitedMeans(waits: seq<Answer>)
    ensures Waited(waits) <==>
            exists i :: 0 <= i < |waits| && waits[i].Ready? && forall j :: 0 <= j < i ==> waits[j].Interrupted?
    decreases |waits|
  {
    if waits != [] {
      WaitedMeans(waits[1..]);
      if waits[0].Interrupted? && Waited(waits[1..]) {
        var i :| 0 <= i < |waits[1..]| && waits[1..][i].Ready? && forall j :: 0 <= j < i ==> waits[1..][j].Interrupted?;
        assert waits[i + 1].Ready?;
        forall j | 0 <= j < i + 1
          ensures waits[j].Interrupted?
        {
          if j > 0 { assert waits[1..][j - 1] == waits[j]; }
        }
      }
      if exists i :: 0 <= i < |waits| && waits[i].Ready? && forall j :: 0 <= j < i ==> waits[j].Interrupted? {
        var i :| 0 <= i < |waits| && waits[i].Ready? && forall j :: 0 <= j < i ==> waits[j].Interrupted?;
        if i > 0 { assert waits[1..][i - 1].Ready? && waits[0].Interrupted?; }
      }
    }
  }

  /** The waiting loop. */
  method WaitForChild(waits: seq<Answer>) returns (ok: bool)
    ensures ok <==> exists i :: 0 <= i < |waits| && waits[i].Ready? && forall j :: 0 <= j < i ==> waits[j].Interrupted?
  {
    WaitedMeans(waits);
    var i := 0;
    while i < |waits| && waits[i].Interrupted?
      invariant i <= |waits| && Waited(waits) == Waited(waits[i..])
    {
      i := i + 1;
    }
    ok := i < |waits| && waits[i].Ready?;
  }

  /** The child writes into the pipe, then the parent reads from it once. Nothing is accepted that the
      child refuses. What the child accepts is accepted unless one of the parent's own calls fails or its
      read brings nothing, as when it is interrupted, and then the reply says which. */
  method ChildValidateInsert(ts: seq<Table>, syntaxOk: bool, sql: string, msg: string, calls: Calls, size: nat)
    returns (v: Verdict)
    requires Shape(ts) && |msg| < MESSAGE_BUFFER && Narrow(msg) && size > 0
    ensures v.accepted ==> Store.ValidInsert(ts, syntaxOk, sql)
    ensures !calls.pipes ==> v == Verdict(false, Cap("pipe failed", size))
    ensures calls.pipes && !calls.forks ==> v == Verdict(false, Cap("fork failed", size))
    ensures calls.pipes && calls.forks && !Waited(calls.waits) ==> v == Verdict(false, Cap("waitpid failed", size))
    ensures calls.pipes && calls.forks && Waited(calls.waits) ==>
              && (!calls.reading.Ready? ==> v == Verdict(false, Cap(NO_RESULT, size)))
              && (!v.accepted && Store.ValidInsert(ts, syntaxOk, sql) ==> v.text == Cap(NO_RESULT, size))
              && (calls.reading.Ready? && Turns(calls.writing) >= PACKET_BUFFER ==>
                    && v.accepted == Store.ValidInsert(ts, syntaxOk, sql)
                    && (calls.reading.limit >= |msg| + 1 ==> v.text == Cap(msg, size)))
  {
    hide Store.ValidInsert, Packet, Unpack, Turns, Bytes, Chars, Waited;
    if !calls.pipes { return Verdict(false, Cap("pipe failed", size)); }
    if !calls.forks { return Verdict(false, Cap("fork failed", size)); }
    var ok := Store.ValidInsert(ts, syntaxOk, sql);
    var packet := Bytes(Packet(ok, msg));
    PacketSize(ok, msg);
    var child := new Descriptor([], calls.writing);
    var sent := child.WriteFull(packet);
    assert child.sent <= packet;
    TurnsOfOne(calls.reading);
    var parent := new Descriptor(child.sent, [calls.reading]);
    var r := parent.Recv(PACKET_BUFFER - 1);
    var waited := WaitForChild(calls.waits);
    WaitedMeans(calls.waits);
    if !waited { return Verdict(false, Cap("waitpid failed", size)); }
    if r.Moved? && r.bytes != [] {
      UnpackBytes(ok, msg, r.bytes, size);
      v := Unpack(Chars(r.bytes), size);
    } else {
      v := Verdict(false, Cap(NO_RESULT, size));
    }
  }

  lemma TurnsOfOne(a: Answer)
    ensures Turns([a]) == if a.Ready? then 1 else 0
  {
  }

  lemma PacketSize(ok: bool, msg: string)
    requires |msg| < MESSAGE_BUFFER
    ensures |Packet(ok, msg)| == |msg| + 2 < PACKET_BUFFER
  {
  }
}
