/** The two interface threads: loops over an array of polled descriptors that shrinks and grows while
    it is being walked. */
module PollLoops {
  import opened Registry

  const MAX_FDS: nat := 256

  /** A polled descriptor, and whether `poll` reported it. */
  datatype PollFd = PollFd(fd: int, ready: bool)

  /** What reading from a descriptor gives. */
  datatype Incoming = Ended | Bye | Connect | Other

  // ---- What one round does, as functions of the polled list ----

  predicate Leaves(e: PollFd, listener: int, message: int -> Incoming) {
    e.ready && e.fd != listener && (message(e.fd).Ended? || message(e.fd).Bye?)
  }

  /** The descriptors that stay, in their order. */
  function Kept(es: seq<PollFd>, listener: int, message: int -> Incoming): (r: seq<PollFd>)
    ensures |r| <= |es|
  {
    if es == [] then []
    else
      Kept(es[..|es| - 1], listener, message) +
      if Leaves(es[|es| - 1], listener, message) then [] else [es[|es| - 1]]
  }

  /** The descriptors that were ready, in their order. */
  function ReadyOnes(es: seq<PollFd>): (r: seq<int>)
    ensures |r| <= |es|
  {
    if es == [] then [] else ReadyOnes(es[..|es| - 1]) + if es[|es| - 1].ready then [es[|es| - 1].fd] else []
  }

  /** What serving one descriptor does to the client table. */
  function Handled(b: Book, e: PollFd, listener: int, message: int -> Incoming): Book {
    if !e.ready || e.fd == listener then b
    else
      match message(e.fd)
      case Connect => Registered(b, e.fd)
      case Other => b
      case _ => Removed(b, e.fd)
  }

  function BookAfter(b: Book, es: seq<PollFd>, listener: int, message: int -> Incoming): Book {
    if es == [] then b
    else Handled(BookAfter(b, es[..|es| - 1], listener, message), es[|es| - 1], listener, message)
  }

  /** The polled list: distinct descriptors, the listening one first. */
  predicate Polled(es: seq<PollFd>, listener: int) {
    && 1 <= |es| <= MAX_FDS && es[0].fd == listener
    && (forall i :: 0 <= i < |es| ==> es[i].fd > 0)
    && (forall i, j :: 0 <= i < j < |es| ==> es[i].fd != es[j].fd)
  }

  function Marked(es: seq<PollFd>, ready: set<int>): (r: seq<PollFd>)
    ensures |r| == |es| && forall i :: 0 <= i < |es| ==> r[i] == PollFd(es[i].fd, es[i].fd in ready)
  {
    seq(|es|, i requires 0 <= i < |es| => PollFd(es[i].fd, es[i].fd in ready))
  }

  /** The list a round works through: what was polled, and the connection accepted in it, which is
      not served before the next round. */
  function Entries(marked: seq<PollFd>, listener: int, accepted: int): seq<PollFd> {
    if marked != [] && marked[0].ready && accepted > 0 && |marked| < MAX_FDS then marked + [PollFd(accepted, false)]
    else marked
  }

  lemma KeptMore(es: seq<PollFd>, e: PollFd, listener: int, message: int -> Incoming)
    ensures Kept(es + [e], listener, message) ==
            Kept(es, listener, message) + if Leaves(e, listener, message) then [] else [e]
  {
    assert (es + [e])[..|es|] == es;
  }

  lemma BookMore(b: Book, es: seq<PollFd>, e: PollFd, listener: int, message: int -> Incoming)
    ensures BookAfter(b, es + [e], listener, message) == Handled(BookAfter(b, es, listener, message), e, listener, message)
  {
    assert (es + [e])[..|es|] == es;
  }

  /** Nothing is kept that was not there. */
  lemma {:induction false} KeptFrom(es: seq<PollFd>, listener: int, message: int -> Incoming, e: PollFd)
    ensures e in Kept(es, listener, message) <==> e in es && !Leaves(e, listener, message)
    decreases |es|
  {
    if es != [] {
      var init, last := es[..|es| - 1], es[|es| - 1];
      KeptFrom(init, listener, message, e);
      assert es == init + [last];
    }
  }

  /** `kept` is the part of `es` that an increasing choice of places picks out. */
  predicate Picks(kept: seq<PollFd>, es: seq<PollFd>, from: seq<nat>) {
    && |from| == |kept|
    && (forall i :: 0 <= i < |from| ==> from[i] < |es| && kept[i] == es[from[i]])
    && (forall i, j :: 0 <= i < j < |from| ==> from[i] < from[j])
  }

  lemma PicksMore(kept: seq<PollFd>, es: seq<PollFd>, from: seq<nat>, e: PollFd)
    requires Picks(kept, es, from)
    ensures Picks(kept, es + [e], from) && Picks(kept + [e], es + [e], from + [|es|])
  {
  }

  /** The survivors keep their order. */
  lemma {:induction false} KeptInOrder(es: seq<PollFd>, listener: int, message: int -> Incoming) returns (from: seq<nat>)
    ensures Picks(Kept(es, listener, message), es, from)
    decreases |es|
  {
    hide Leaves;
    if es == [] {
      from := [];
    } else {
      hide Picks, Kept;
      var init, last := es[..|es| - 1], es[|es| - 1];
      from := KeptInOrder(init, listener, message);
      assert es == init + [last];
      PicksMore(Kept(init, listener, message), init, from, last);
      KeptMore(init, last, listener, message);
      if Leaves(last, listener, message) {
        assert Kept(init, listener, message) + [] == Kept(init, listener, message);
      } else {
        from := from + [|init|];
      }
    }
  }

  lemma KeptPolled(es: seq<PollFd>, listener: int, message: int -> Incoming)
    requires Polled(es, listener)
    ensures Polled(Kept(es, listener, message), listener)
  {
    hide Leaves;
    var from := KeptInOrder(es, listener, message);
    var kept := Kept(es, listener, message);
    KeptFrom(es, listener, message, es[0]);
    assert !Leaves(es[0], listener, message) by { ListenerStays(es[0], listener, message); }
    var k :| 0 <= k < |kept| && kept[k] == es[0];
    assert from[0] <= from[k];
    assert from[k] == 0;
  }

  lemma ListenerStays(e: PollFd, listener: int, message: int -> Incoming)
    requires e.fd == listener
    ensures !Leaves(e, listener, message)
  {
  }

  /** Every descriptor that was ready is served once, and no other is. */
  lemma {:induction false} ServedOnce(es: seq<PollFd>, k: nat)
    requires k < |es| && forall i, j :: 0 <= i < j < |es| ==> es[i].fd != es[j].fd
    ensures multiset(ReadyOnes(es))[es[k].fd] == if es[k].ready then 1 else 0
    decreases |es|
  {
    hide ReadyOnes;
    var init, last, fd := es[..|es| - 1], es[|es| - 1], es[k].fd;
    ReadyMore(init, last);
    assert es == init + [last];
    var one := if last.ready then [last.fd] else [];
    assert multiset(ReadyOnes(init) + one)[fd] == multiset(ReadyOnes(init))[fd] + multiset(one)[fd];
    if k < |init| {
      assert init[k] == es[k] && last.fd != fd;
      ServedOnce(init, k);
    } else {
      ReadyFrom(init);
      assert fd !in ReadyOnes(init);
    }
  }

  lemma ReadyMore(es: seq<PollFd>, e: PollFd)
    ensures ReadyOnes(es + [e]) == ReadyOnes(es) + if e.ready then [e.fd] else []
  {
    assert (es + [e])[..|es|] == es;
  }

  lemma {:induction false} ReadyFrom(es: seq<PollFd>)
    ensures forall fd :: fd in ReadyOnes(es) ==> exists i :: 0 <= i < |es| && es[i] == PollFd(fd, true)
    decreases |es|
  {
    if es != [] {
      ReadyFrom(es[..|es| - 1]);
      forall fd | fd in ReadyOnes(es)
        ensures exists i :: 0 <= i < |es| && es[i] == PollFd(fd, true)
      {
        if fd in ReadyOnes(es[..|es| - 1]) {
          var i :| 0 <= i < |es| - 1 && es[..|es| - 1][i] == PollFd(fd, true);
          assert es[i] == PollFd(fd, true);
        } else {
          assert es[|es| - 1] == PollFd(fd, true);
        }
      }
    }
  }

  // ---- The client table over a round ----

  lemma HandledConsistent(b: Book, e: PollFd, listener: int, message: int -> Incoming)
    requires Consistent(b) && e.fd > 0
    ensures Consistent(Handled(b, e, listener, message))
    ensures forall other :: other != e.fd ==>
              SessionsOf(Handled(b, e, listener, message).slots, other) == SessionsOf(b.slots, other)
    ensures Leaves(e, listener, message) ==>
              (SessionsOf(Handled(b, e, listener, message).slots, e.fd) != {} <==> |SessionsOf(b.slots, e.fd)| >= 2)
  {
    hide Consistent, Registered, Removed, SessionsOf;
    if e.ready && e.fd != listener {
      match message(e.fd)
      case Connect =>
        RegisterAdds(b, e.fd);
        ConnectKeepsOthers(b, e.fd);
      case Other =>
      case _ =>
        var _ := RemoveEnds(b, e.fd);
        ClosedButHeld(b, e.fd);
    }
  }

  /** What a descriptor's message means to the client table. */
  function EventsOf(es: seq<PollFd>, listener: int, message: int -> Incoming): seq<Event> {
    if es == [] then []
    else
      var init, e := es[..|es| - 1], es[|es| - 1];
      EventsOf(init, listener, message) +
      if !e.ready || e.fd == listener || message(e.fd) == Other then []
      else if message(e.fd) == Connect then [Connected(e.fd)]
      else [Closed(e.fd)]
  }

  lemma AfterMore(b: Book, events: seq<Event>, more: seq<Event>)
    requires |more| <= 1
    ensures After(b, events + more) == if more == [] then After(b, events) else Registry.Next(After(b, events), more[0])
  {
    if more == [] { assert events + more == events; } else { assert (events + more)[..|events|] == events; }
  }

  /** Over rounds the client table goes through exactly the events of its messages: a CONNECT opens a
      session, a BYE or a lost connection closes one, and nothing else touches it. */
  lemma {:induction false} RoundIsRun(b: Book, past: seq<Event>, es: seq<PollFd>, listener: int, message: int -> Incoming)
    requires b == After(EmptyBook(), past)
    ensures BookAfter(b, es, listener, message) == After(EmptyBook(), past + EventsOf(es, listener, message))
    decreases |es|
  {
    hide Registered, Removed, After;
    if es == [] {
      assert past + [] == past;
    } else {
      var init, e := es[..|es| - 1], es[|es| - 1];
      RoundIsRun(b, past, init, listener, message);
      var events := EventsOf(init, listener, message);
      var one := EventsOf(es, listener, message)[|events|..];
      assert EventsOf(es, listener, message) == events + one;
      AfterMore(EmptyBook(), past + events, one);
      assert past + events + one == past + (events + one);
    }
  }

  /** A ready client leaves the list exactly when it said BYE or its connection is lost. */
  lemma GoneAreGone(es: seq<PollFd>, listener: int, message: int -> Incoming, i: nat)
    requires i < |es|
    ensures es[i] !in Kept(es, listener, message) <==>
            es[i].ready && es[i].fd != listener && (message(es[i].fd) == Ended || message(es[i].fd) == Bye)
  {
    KeptFrom(es, listener, message, es[i]);
  }

  predicate Distinct(es: seq<PollFd>) {
    (forall i :: 0 <= i < |es| ==> es[i].fd > 0) && (forall i, j :: 0 <= i < j < |es| ==> es[i].fd != es[j].fd)
  }

  /** Over a round a descriptor's sessions change only by its own message. */
  lemma {:induction false} RoundSessions(b: Book, es: seq<PollFd>, listener: int, message: int -> Incoming)
    requires Consistent(b) && Distinct(es)
    ensures Consistent(BookAfter(b, es, listener, message))
    ensures forall fd :: (forall i :: 0 <= i < |es| ==> es[i].fd != fd) ==>
              SessionsOf(BookAfter(b, es, listener, message).slots, fd) == SessionsOf(b.slots, fd)
    ensures forall i :: 0 <= i < |es| && Leaves(es[i], listener, message) ==>
              (Held(BookAfter(b, es, listener, message), es[i].fd) <==> |SessionsOf(b.slots, es[i].fd)| >= 2)
    decreases |es|
  {
    hide Consistent, SessionsOf, Handled, Leaves;
    if es != [] {
      var init, last := es[..|es| - 1], es[|es| - 1];
      var before, after := BookAfter(b, init, listener, message), BookAfter(b, es, listener, message);
      RoundSessions(b, init, listener, message);
      HandledConsistent(before, last, listener, message);
      assert forall i :: 0 <= i < |init| ==> init[i] == es[i] && es[i].fd != last.fd;
      forall i | 0 <= i < |es| && Leaves(es[i], listener, message)
        ensures Held(after, es[i].fd) <==> |SessionsOf(b.slots, es[i].fd)| >= 2
      {
        if i < |init| { assert init[i] == es[i]; }
      }
      forall fd | forall i :: 0 <= i < |es| ==> es[i].fd != fd
        ensures SessionsOf(after.slots, fd) == SessionsOf(b.slots, fd)
      {
        assert es[|es| - 1].fd != fd;
      }
    }
  }

  predicate Held(b: Book, fd: int) {
    SessionsOf(b.slots, fd) != {}
  }

  /** Every session's descriptor is still polled. */
  ghost predicate Covered(b: Book, es: seq<PollFd>) {
    forall fd :: Held(b, fd) ==> exists i :: 0 <= i < |es| && es[i].fd == fd
  }

  /** After a round some session is left without a connection exactly when a client that has gone had
      connected more than once on its descriptor. */
  lemma NoneStranded(b: Book, es: seq<PollFd>, listener: int, message: int -> Incoming)
    requires Consistent(b) && Distinct(es) && Covered(b, es)
    ensures Covered(BookAfter(b, es, listener, message), Kept(es, listener, message)) <==>
            forall i :: 0 <= i < |es| && Leaves(es[i], listener, message) ==> |SessionsOf(b.slots, es[i].fd)| < 2
  {
    hide Consistent, SessionsOf, Leaves, BookAfter, Kept, Covered;
    RoundSessions(b, es, listener, message);
    if forall i :: 0 <= i < |es| && Leaves(es[i], listener, message) ==> |SessionsOf(b.slots, es[i].fd)| < 2 {
      StaysCovered(b, BookAfter(b, es, listener, message), es, listener, message);
    }
    forall i | 0 <= i < |es| && Leaves(es[i], listener, message) && |SessionsOf(b.slots, es[i].fd)| >= 2
      ensures !Covered(BookAfter(b, es, listener, message), Kept(es, listener, message))
    {
      Stranded(BookAfter(b, es, listener, message), es, listener, message, i);
    }
  }

  lemma StaysCovered(b: Book, after: Book, es: seq<PollFd>, listener: int, message: int -> Incoming)
    requires Covered(b, es)
    requires forall fd :: (forall i :: 0 <= i < |es| ==> es[i].fd != fd) ==> SessionsOf(after.slots, fd) == SessionsOf(b.slots, fd)
    requires forall i :: 0 <= i < |es| && Leaves(es[i], listener, message) ==> !Held(after, es[i].fd)
    ensures Covered(after, Kept(es, listener, message))
  {
    hide SessionsOf, Leaves, Kept;
    var kept := Kept(es, listener, message);
    forall fd | Held(after, fd)
      ensures exists i :: 0 <= i < |kept| && kept[i].fd == fd
    {
      assert Held(b, fd) || exists i :: 0 <= i < |es| && es[i].fd == fd;
      var i :| 0 <= i < |es| && es[i].fd == fd;
      KeptFrom(es, listener, message, es[i]);
      assert es[i] in kept;
    }
  }

  lemma Stranded(after: Book, es: seq<PollFd>, listener: int, message: int -> Incoming, i: nat)
    requires i < |es| && Leaves(es[i], listener, message) && Held(after, es[i].fd) && Distinct(es)
    ensures !Covered(after, Kept(es, listener, message))
  {
    hide SessionsOf, Leaves, Kept;
    var kept := Kept(es, listener, message);
    forall k | 0 <= k < |kept|
      ensures kept[k].fd != es[i].fd
    {
      KeptFrom(es, listener, message, kept[k]);
    }
  }

  // ---- The ordinary interface ----

  /** Where a round is after `k` of its entries: the survivors so far, then the entries still to come. */
  ghost predicate Midway(
      list: seq<PollFd>, at: int, served: seq<int>, book: Book,
      es: seq<PollFd>, k: nat, listener: int, message: int -> Incoming, before: Book) {
    && k <= |es| && at == |Kept(es[..k], listener, message)|
    && list == Kept(es[..k], listener, message) + es[k..]
    && served == ReadyOnes(es[..k])
    && book == BookAfter(before, es[..k], listener, message)
  }

  lemma MidwayEntry(
      list: seq<PollFd>, at: int, served: seq<int>, book: Book,
      es: seq<PollFd>, k: nat, listener: int, message: int -> Incoming, before: Book)
    requires Midway(list, at, served, book, es, k, listener, message, before)
    ensures 0 <= at <= |list| && k <= |es| && (at < |list| <==> k < |es|)
    ensures k < |es| ==> list[at] == es[k]
    ensures k == |es| ==>
              && list == Kept(es, listener, message) && served == ReadyOnes(es)
              && book == BookAfter(before, es, listener, message)
  {
    if k == |es| { assert es[..k] == es; }
  }

  /** The next entry is dealt with and stays, or is dealt with and goes. */
  lemma MidwayNext(
      list: seq<PollFd>, at: int, served: seq<int>, book: Book,
      es: seq<PollFd>, k: nat, listener: int, message: int -> Incoming, before: Book)
    requires Midway(list, at, served, book, es, k, listener, message, before) && k < |es|
    ensures 0 <= at < |list|
    ensures var e := es[k];
            var leaves := Leaves(e, listener, message);
            Midway(
              if leaves then list[..at] + list[at + 1..] else list, if leaves then at else at + 1,
              served + (if e.ready then [e.fd] else []), Handled(book, e, listener, message),
              es, k + 1, listener, message, before)
  {
    hide Leaves, Handled;
    var e := es[k];
    var kept := Kept(es[..k], listener, message);
    assert es[..k + 1] == es[..k] + [e];
    KeptMore(es[..k], e, listener, message);
    ReadyMore(es[..k], e);
    BookMore(before, es[..k], e, listener, message);
    assert list[at..] == [e] + es[k + 1..] && list[..at] == kept;
    if Leaves(e, listener, message) {
      assert kept + [] == kept;
    } else {
      assert list == (kept + [e]) + es[k + 1..];
    }
    if !e.ready { assert served + [] == served; }
  }

  /** How serving the entry at a place changes the list and the table, where the walk goes on, and what
      was served. */
  ghost predicate EntryServed(
      list: seq<PollFd>, at: int, book: Book, listener: int, accepted: int, message: int -> Incoming,
      list': seq<PollFd>, at': int, book': Book, one: seq<int>)
    requires 0 <= at < |list|
  {
    var e := list[at];
    if e.ready && e.fd == listener then
      && list' == (if accepted <= 0 || |list| >= MAX_FDS then list else list + [PollFd(accepted, false)])
      && at' == at + 1 && book' == book && one == [e.fd]
    else
      var leaves := Leaves(e, listener, message);
      && list' == (if leaves then list[..at] + list[at + 1..] else list)
      && at' == (if leaves then at else at + 1)
      && book' == Handled(book, e, listener, message)
      && one == if e.ready then [e.fd] else []
  }

  /** What a round knows of its entries: the list as polled, and as it is once the listening
      descriptor has been served. */
  ghost predicate Prepared(marked: seq<PollFd>, entries: seq<PollFd>, listener: int, accepted: int) {
    && Polled(entries, listener) && Distinct(entries) && 1 <= |marked| <= MAX_FDS && marked[0].fd == listener
    && (forall k :: 1 <= k < |entries| ==> entries[k].fd != listener)
    && entries == if !marked[0].ready || accepted <= 0 || |marked| >= MAX_FDS then marked
                  else marked + [PollFd(accepted, false)]
  }

  lemma RoundStep(
      marked: seq<PollFd>, entries: seq<PollFd>, k: nat, accepted: int, listener: int, message: int -> Incoming, before: Book,
      list: seq<PollFd>, at: int, served: seq<int>, book: Book,
      list': seq<PollFd>, at': int, book': Book, one: seq<int>)
    requires Prepared(marked, entries, listener, accepted)
    requires Midway(list, at, served, book, if k == 0 then marked else entries, k, listener, message, before)
    requires 0 <= at < |list| && EntryServed(list, at, book, listener, accepted, message, list', at', book', one)
    ensures k < |entries| && Midway(list', at', served + one, book', entries, k + 1, listener, message, before)
  {
    hide Midway, Handled, Leaves, Polled, Distinct;
    var es := if k == 0 then marked else entries;
    MidwayEntry(list, at, served, book, es, k, listener, message, before);
    var e := list[at];
    if e.ready && e.fd == listener {
      MidwayStart(list, at, served, book, es, k, listener, message, before);
      RoundBegins(entries, listener, message, before);
      MidwayNext(entries, 0, [], before, entries, 0, listener, message, before);
      ListenerHandled(before, e, listener, message);
      assert entries[0] == e && [] + [e.fd] == [e.fd];
    } else {
      MidwayNext(list, at, served, book, es, k, listener, message, before);
    }
  }

  /** Closing the gap at a place. */
  lemma GapClosed(was: seq<PollFd>, now: seq<PollFd>, idx: nat)
    requires idx < |was| && |now| == |was| - 1
    requires forall j :: 0 <= j < idx ==> now[j] == was[j]
    requires forall j :: idx <= j < |now| ==> now[j] == was[j + 1]
    ensures now == was[..idx] + was[idx + 1..]
  {
  }

  /** `remove_pollfd`. */
  method RemovePollFd(fds: array<PollFd>, nfds: int, idx: int, table: ClientTable) returns (n: int)
    requires 0 <= idx < nfds <= fds.Length && table.slots.Length == MAX_CLIENTS
    modifies fds, table, table.slots
    ensures n == nfds - 1 && fds[..n] == old(fds[..nfds])[..idx] + old(fds[..nfds])[idx + 1..]
    ensures table.AsBook() == Removed(old(table.AsBook()), old(fds[idx].fd))
  {
    hide Removed;
    ghost var was := fds[..nfds];
    table.Remove(fds[idx].fd);
    forall i | idx <= i < nfds - 1 {
      fds[i] := fds[i + 1];
    }
    n := nfds - 1;
    GapClosed(was, fds[..n], idx);
  }

  class OrdinaryInterface {
    const listener: int
    const fds: array<PollFd>
    const table: ClientTable
    var nfds: int

    constructor (listener: int, table: ClientTable)
      requires listener > 0 && table.slots.Length == MAX_CLIENTS && Consistent(table.AsBook())
      ensures Valid() && this.table == table && fresh(fds) && this.listener == listener
    {
      this.listener, this.table := listener, table;
      fds := new PollFd[MAX_FDS](_ => PollFd(listener, false));
      nfds := 1;
    }

    /** At the head of every round. */
    ghost predicate Valid()
      reads this, fds, table, table.slots
    {
      && fds.Length == MAX_FDS && table.slots.Length == MAX_CLIENTS && 1 <= nfds <= MAX_FDS
      && Polled(fds[..nfds], listener) && Consistent(table.AsBook())
    }

    /** `poll` marks what is ready. */
    method Poll(ready: set<int>)
      requires 0 <= nfds <= fds.Length
      modifies fds
      ensures fds[..nfds] == Marked(old(fds[..nfds]), ready)
    {
      forall i | 0 <= i < nfds {
        fds[i] := PollFd(fds[i].fd, fds[i].fd in ready);
      }
    }

    /** `accept_client`; 0 or less stands for a connection that could not be used. */
    method AcceptClient(accepted: int)
      requires fds.Length == MAX_FDS && 0 <= nfds
      modifies this`nfds, fds
      ensures if accepted <= 0 || old(nfds) >= MAX_FDS then nfds == old(nfds) && fds[..] == old(fds[..])
              else nfds == old(nfds) + 1 && fds[..nfds] == old(fds[..nfds]) + [PollFd(accepted, false)]
    {
      if accepted <= 0 { return; }
      if nfds >= MAX_FDS { return; }
      fds[nfds] := PollFd(accepted, false);
      nfds := nfds + 1;
    }

    /** Reads one message of a client and acts on it. */
    method ServeClient(i: int, message: int -> Incoming) returns (gone: bool)
      requires 0 <= i < nfds <= fds.Length && table.slots.Length == MAX_CLIENTS
      requires fds[i].ready && fds[i].fd != listener
      modifies this`nfds, fds, table, table.slots
      ensures gone == Leaves(old(fds[i]), listener, message)
      ensures nfds == if gone then old(nfds) - 1 else old(nfds)
      ensures fds[..nfds] ==
              if gone then old(fds[..nfds])[..i] + old(fds[..nfds])[i + 1..] else old(fds[..nfds])
      ensures table.AsBook() == Handled(old(table.AsBook()), old(fds[i]), listener, message)
    {
      hide Registered, Removed;
      match message(fds[i].fd)
      case Ended =>
        nfds := RemovePollFd(fds, nfds, i, table);
        return true;
      case Connect =>
        var id := table.Connect(fds[i].fd);
        return false;
      case Bye =>
        nfds := RemovePollFd(fds, nfds, i, table);
        return true;
      case Other =>
        return false;
    }

    /** The body of the round's loop: the place to go on from, and what was served. */
    method ServeEntry(i: int, accepted: int, message: int -> Incoming) returns (next: int, served: seq<int>)
      requires fds.Length == MAX_FDS && 0 <= i < nfds <= MAX_FDS && table.slots.Length == MAX_CLIENTS
      modifies this`nfds, fds, table, table.slots
      ensures 0 <= nfds <= MAX_FDS && next >= 0
      ensures EntryServed(old(fds[..nfds]), i, old(table.AsBook()), listener, accepted, message,
                          fds[..nfds], next, table.AsBook(), served)
    {
      hide Registered, Removed;
      var e := fds[i];
      if !e.ready { return i + 1, []; }
      if e.fd == listener {
        AcceptClient(accepted);
        return i + 1, [e.fd];
      }
      var gone := ServeClient(i, message);
      return if gone then i else i + 1, [e.fd];
    }

    /** One round: each ready descriptor is served in turn, the ones that have gone are removed while
        the list is being walked, and a new connection is appended to it. */
    method Round(ready: set<int>, accepted: int, message: int -> Incoming) returns (served: seq<int>)
      requires Valid()
      requires forall i :: 0 <= i < nfds ==> fds[i].fd != accepted
      modifies this`nfds, fds, table, table.slots
      ensures Valid()
      ensures var es := Entries(Marked(old(fds[..nfds]), ready), listener, accepted);
              && fds[..nfds] == Kept(es, listener, message)
              && served == ReadyOnes(es)
              && table.AsBook() == BookAfter(old(table.AsBook()), es, listener, message)
    {
      hide Consistent, Kept, ReadyOnes, BookAfter, Midway, EntryServed, Prepared, Polled, Marked, Entries;
      ghost var before := fds[..nfds];
      Poll(ready);
      ghost var book, marked := table.AsBook(), fds[..nfds];
      ghost var entries, k := Entries(marked, listener, accepted), 0;
      RoundPrepared(before, ready, marked, listener, accepted);
      served := [];
      var i := 0;
      RoundBegins(marked, listener, message, book);
      while i < nfds
        invariant 0 <= nfds <= MAX_FDS && 0 <= i
        invariant Midway(fds[..nfds], i, served, table.AsBook(), if k == 0 then marked else entries, k, listener, message, book)
        decreases if k == 0 then 1 else 0, |entries| - k
      {
        ghost var list, at, done, now := fds[..nfds], i, served, table.AsBook();
        var one;
        i, one := ServeEntry(i, accepted, message);
        served := served + one;
        RoundStep(marked, entries, k, accepted, listener, message, book, list, at, done, now, fds[..nfds], i, table.AsBook(), one);
        k := k + 1;
      }
      RoundEnds(marked, entries, k, accepted, listener, message, book, fds[..nfds], i, served, table.AsBook());
    }
  }

  lemma RoundBegins(es: seq<PollFd>, listener: int, message: int -> Incoming, book: Book)
    ensures Midway(es, 0, [], book, es, 0, listener, message, book)
  {
    assert es[..0] == [];
  }

  lemma MidwayStart(
      list: seq<PollFd>, at: int, served: seq<int>, book: Book,
      es: seq<PollFd>, k: nat, listener: int, message: int -> Incoming, before: Book)
    requires Midway(list, at, served, book, es, k, listener, message, before) && k == 0
    ensures list == es && at == 0 && served == [] && book == before
  {
    assert es[..0] == [] && es[0..] == es;
  }

  lemma ListenerHandled(b: Book, e: PollFd, listener: int, message: int -> Incoming)
    requires e.fd == listener
    ensures Handled(b, e, listener, message) == b && !Leaves(e, listener, message)
  {
  }

  lemma RoundPrepared(before: seq<PollFd>, ready: set<int>, marked: seq<PollFd>, listener: int, accepted: int)
    requires Polled(before, listener) && marked == Marked(before, ready)
    requires forall i :: 0 <= i < |before| ==> before[i].fd != accepted
    ensures Prepared(marked, Entries(marked, listener, accepted), listener, accepted)
  {
  }

  lemma RoundEnds(
      marked: seq<PollFd>, entries: seq<PollFd>, k: nat, accepted: int, listener: int, message: int -> Incoming, before: Book,
      list: seq<PollFd>, at: int, served: seq<int>, book: Book)
    requires Prepared(marked, entries, listener, accepted) && Consistent(before)
    requires Midway(list, at, served, book, if k == 0 then marked else entries, k, listener, message, before)
    requires at >= |list|
    ensures list == Kept(entries, listener, message) && served == ReadyOnes(entries)
    ensures book == BookAfter(before, entries, listener, message)
    ensures Polled(list, listener) && Consistent(book)
    ensures 1 <= |list|
  {
    hide Kept, ReadyOnes, BookAfter, Consistent, Midway;
    MidwayEntry(list, at, served, book, if k == 0 then marked else entries, k, listener, message, before);
    KeptPolled(entries, listener, message);
    RoundSessions(before, entries, listener, message);
  }

  // ---- The admin interface ----

  datatype AdminMessage = AdminEnded | AdminBye | AdminOther

  class AdminInterface {
    const listener: int
    const fds: array<PollFd>
    const table: ClientTable
    var nfds: int
    var adminFd: int
    var connected: bool  // `admin_connected` of the shared state

    constructor (listener: int, table: ClientTable)
      requires listener > 0 && table.slots.Length == MAX_CLIENTS
      ensures Valid() && adminFd == -1 && this.table == table && this.listener == listener && fresh(fds)
    {
      this.listener, this.table := listener, table;
      fds := new PollFd[2](_ => PollFd(listener, false));
      nfds, adminFd, connected := 1, -1, false;
    }

    /** At the head of every round: one entry, or two when an administrator is connected. */
    predicate Valid()
      reads this, fds, table
    {
      && fds.Length == 2 && table.slots.Length == MAX_CLIENTS
      && (adminFd == -1 || adminFd > 0) && adminFd != listener && listener > 0
      && nfds == (if adminFd > 0 then 2 else 1)
      && connected == (adminFd > 0)
      && fds[0].fd == listener && (adminFd > 0 ==> fds[1].fd == adminFd)
    }

    /** `accept_admin`: the check that keeps the array safe is the refusal of a second administrator;
        the explicit one is against 256. */
    method AcceptAdmin(accepted: int)
      requires Valid() && (accepted > 0 ==> accepted != listener)
      modifies this`nfds, this`adminFd, this`connected, fds
      ensures Valid() && fds[0] == old(fds[0])
      ensures adminFd == if old(adminFd) < 0 && accepted > 0 then accepted else old(adminFd)
      ensures old(adminFd) > 0 ==> fds[1] == old(fds[1])
      ensures old(adminFd) < 0 && adminFd > 0 ==> fds[1] == PollFd(accepted, false)
    {
      if accepted <= 0 { return; }
      if adminFd > 0 { return; }
      if nfds >= MAX_FDS { return; }
      adminFd, connected := accepted, true;
      fds[nfds] := PollFd(accepted, false);
      nfds := nfds + 1;
    }

    /** The administrator's entry is closed: by a timeout, a lost connection or a BYE. */
    method DropAdmin(i: int)
      requires Valid() && adminFd > 0 && i == 1
      modifies this`nfds, this`adminFd, this`connected, fds, table, table.slots
      ensures Valid() && adminFd == -1 && fds[0] == old(fds[0])
      ensures table.AsBook() == Removed(old(table.AsBook()), old(adminFd))
    {
      hide Removed;
      adminFd, connected := -1, false;
      nfds := RemovePollFd(fds, nfds, i, table);
      assert fds[0] == fds[..nfds][0];
    }

    /** One round of the loop, in whatever order a timeout, an acceptance, a refusal, a BYE and a lost
        connection come. No index beyond the two entries is ever used. */
    method Round(timedOut: bool, ready: set<int>, accepted: int, message: AdminMessage)
      requires Valid()
      requires accepted > 0 ==> accepted != listener && accepted != adminFd
      modifies this`nfds, this`adminFd, this`connected, fds, table, table.slots
      ensures Valid()
      ensures old(adminFd) < 0 || timedOut ==> adminFd == if listener in ready && accepted > 0 then accepted else -1
      ensures old(adminFd) > 0 && !timedOut ==>
                adminFd == if old(adminFd) in ready && !message.AdminOther? then -1 else old(adminFd)
      ensures var gone := old(adminFd) > 0 && (timedOut || (old(adminFd) in ready && !message.AdminOther?));
              table.AsBook() == if gone then Removed(old(table.AsBook()), old(adminFd)) else old(table.AsBook())
    {
      hide Removed;
      forall i | 0 <= i < nfds {
        fds[i] := PollFd(fds[i].fd, fds[i].fd in ready);
      }
      if adminFd > 0 && timedOut {
        for i := 0 to nfds
          invariant nfds == 2 && Valid() && adminFd > 0 && i <= 1
          invariant fds[0] == PollFd(listener, listener in ready)
          invariant table.AsBook() == old(table.AsBook()) && adminFd == old(adminFd)
        {
          if fds[i].fd == adminFd {
            DropAdmin(i);
            break;
          }
        }
      }
      ghost var stays, book := adminFd, table.AsBook();
      var i := 0;
      while i < nfds
        invariant 0 <= i <= nfds && Valid()
        invariant i == 0 ==>
                    && adminFd == stays && table.AsBook() == book && fds[0].ready == (listener in ready)
                    && (stays > 0 ==> fds[1].ready == (stays in ready))
        invariant i >= 1 && stays < 0 ==>
                    && adminFd == (if listener in ready && accepted > 0 then accepted else -1)
                    && table.AsBook() == book && (adminFd > 0 ==> !fds[1].ready)
        invariant i >= 1 && stays > 0 && adminFd > 0 ==>
                    && adminFd == stays && table.AsBook() == book && fds[1].ready == (stays in ready)
                    && (i == 2 ==> stays !in ready || message.AdminOther?)
        invariant i >= 1 && stays > 0 && adminFd < 0 ==>
                    stays in ready && !message.AdminOther? && table.AsBook() == Removed(book, stays)
        decreases if i == 0 then 1 else 0, nfds - i
      {
        if !fds[i].ready {
          i := i + 1;
        } else if fds[i].fd == listener {
          AcceptAdmin(accepted);
          i := i + 1;
        } else if message.AdminOther? {
          i := i + 1;
        } else {
          DropAdmin(i);
        }
      }
    }
  }
}
