/** The client table of the shared state: 128 slots, a count, and the next identifier. */
module Registry {
  const MAX_CLIENTS: nat := 128

  /** A slot is free when its descriptor is 0; its identifier may then be an old one. */
  datatype Slot = Slot(fd: int, id: int)

  datatype Book = Book(slots: seq<Slot>, count: int, next: int)

  function EmptyBook(): Book {
    Book(seq(MAX_CLIENTS, i => Slot(0, 0)), 0, 1)
  }

  /** The first slot with that descriptor, or -1. */
  function FirstWith(slots: seq<Slot>, fd: int): (r: int)
    ensures -1 <= r < |slots| && (r >= 0 ==> slots[r].fd == fd)
    ensures forall i :: 0 <= i < (if r >= 0 then r else |slots|) ==> slots[i].fd != fd
  {
    if slots == [] then -1
    else if slots[0].fd == fd then 0
    else
      var r := FirstWith(slots[1..], fd);
      if r < 0 then -1 else r + 1
  }

  /** A CONNECT: the identifier is spent even when no slot is free. */
  function Registered(b: Book, fd: int): Book {
    var i := FirstWith(b.slots, 0);
    if i < 0 then b.(next := b.next + 1)
    else Book(b.slots[i := Slot(fd, b.next)], b.count + 1, b.next + 1)
  }

  /** A descriptor is closed: the first of its slots is freed. */
  function Removed(b: Book, fd: int): Book {
    var i := FirstWith(b.slots, fd);
    if i < 0 then b
    else Book(b.slots[i := b.slots[i].(fd := 0)], if b.count > 0 then b.count - 1 else b.count, b.next)
  }

  /** The sessions: identifiers with the descriptors they are served on. */
  function Sessions(slots: seq<Slot>): set<(int, int)> {
    set i | 0 <= i < |slots| && slots[i].fd > 0 :: (slots[i].id, slots[i].fd)
  }

  function SessionsOf(slots: seq<Slot>, fd: int): set<(int, int)> {
    set i | 0 <= i < |slots| && slots[i].fd > 0 && slots[i].fd == fd :: (slots[i].id, slots[i].fd)
  }

  /** The count is the number of sessions, and identifiers in use are distinct and already spent. */
  predicate Consistent(b: Book) {
    && |b.slots| == MAX_CLIENTS && b.next >= 1
    && (forall i :: 0 <= i < |b.slots| ==> 0 <= b.slots[i].fd && (b.slots[i].fd > 0 ==> 1 <= b.slots[i].id < b.next))
    && (forall i, j :: 0 <= i < j < |b.slots| && b.slots[i].fd > 0 && b.slots[j].fd > 0 ==> b.slots[i].id != b.slots[j].id)
    && b.count == |Sessions(b.slots)|
  }

  /** Freeing or filling a slot of sessions with distinct identifiers. */
  lemma SessionsChange(slots: seq<Slot>, i: nat, to: Slot)
    requires i < |slots|
    requires forall k, j :: 0 <= k < j < |slots| && slots[k].fd > 0 && slots[j].fd > 0 ==> slots[k].id != slots[j].id
    ensures Sessions(slots[i := to]) ==
            (Sessions(slots) - (if slots[i].fd > 0 then {(slots[i].id, slots[i].fd)} else {})) +
            (if to.fd > 0 then {(to.id, to.fd)} else {})
  {
    var now := slots[i := to];
    forall p | p in Sessions(slots) && !(slots[i].fd > 0 && p == (slots[i].id, slots[i].fd))
      ensures p in Sessions(now)
    {
      var k :| 0 <= k < |slots| && slots[k].fd > 0 && p == (slots[k].id, slots[k].fd);
      assert now[k] == slots[k];
    }
    forall p | p in Sessions(now)
      ensures (p in Sessions(slots) && !(slots[i].fd > 0 && p == (slots[i].id, slots[i].fd))) || (to.fd > 0 && p == (to.id, to.fd))
    {
      var k :| 0 <= k < |now| && now[k].fd > 0 && p == (now[k].id, now[k].fd);
      if k != i { assert now[k] == slots[k]; }
    }
    if to.fd > 0 { assert now[i] == to; }
  }

  /** A connection adds one session under a new identifier while a slot is free, and none otherwise. */
  lemma RegisterAdds(b: Book, fd: int)
    requires Consistent(b) && fd > 0
    ensures Consistent(Registered(b, fd)) && Registered(b, fd).next == b.next + 1
    ensures Sessions(Registered(b, fd).slots) ==
            if b.count < MAX_CLIENTS then Sessions(b.slots) + {(b.next, fd)} else Sessions(b.slots)
  {
    hide Sessions;
    var i := FirstWith(b.slots, 0);
    if i >= 0 {
      FreeSlotCounts(b.slots, i);
      NotASession(b, b.next, fd);
      SessionsChange(b.slots, i, Slot(fd, b.next));
    } else {
      FullTable(b.slots);
    }
  }

  lemma NotASession(b: Book, id: int, fd: int)
    requires Consistent(b) && id >= b.next
    ensures (id, fd) !in Sessions(b.slots)
  {
  }

  lemma {:induction false} FewSessions(slots: seq<Slot>)
    ensures |Sessions(slots)| <= |slots|
    decreases |slots|
  {
    if slots == [] {
      assert Sessions(slots) == {};
    } else {
      var init, last := slots[..|slots| - 1], slots[|slots| - 1];
      FewSessions(init);
      assert Sessions(slots) <= Sessions(init) + {(last.id, last.fd)} by {
        forall p | p in Sessions(slots)
          ensures p in Sessions(init) + {(last.id, last.fd)}
        {
          var k :| 0 <= k < |slots| && slots[k].fd > 0 && p == (slots[k].id, slots[k].fd);
          if k < |init| { assert init[k] == slots[k]; }
        }
      }
      Subset(Sessions(slots), Sessions(init) + {(last.id, last.fd)});
    }
  }

  lemma {:induction false} Subset<T>(a: set<T>, b: set<T>)
    requires a <= b
    ensures |a| <= |b|
    decreases a
  {
    if a != {} {
      var x :| x in a;
      Subset(a - {x}, b - {x});
    }
  }

  lemma FreeSlotCounts(slots: seq<Slot>, i: nat)
    requires i < |slots| && slots[i].fd == 0
    ensures |Sessions(slots)| < |slots|
  {
    var others := slots[..i] + slots[i + 1..];
    FewSessions(others);
    assert Sessions(slots) <= Sessions(others) by {
      forall p | p in Sessions(slots)
        ensures p in Sessions(others)
      {
        var k :| 0 <= k < |slots| && slots[k].fd > 0 && p == (slots[k].id, slots[k].fd);
        assert others[if k < i then k else k - 1] == slots[k];
      }
    }
    Subset(Sessions(slots), Sessions(others));
  }

  lemma {:induction false} FullTable(slots: seq<Slot>)
    requires forall i :: 0 <= i < |slots| ==> slots[i].fd > 0
    requires forall i, j :: 0 <= i < j < |slots| ==> slots[i].id != slots[j].id
    ensures |Sessions(slots)| == |slots|
    decreases |slots|
  {
    if slots == [] {
      assert Sessions(slots) == {};
    } else {
      var init, last := slots[..|slots| - 1], slots[|slots| - 1];
      FullTable(init);
      assert (last.id, last.fd) !in Sessions(init);
      SessionsOfInit(slots);
    }
  }

  lemma SessionsOfInit(slots: seq<Slot>)
    requires slots != [] && slots[|slots| - 1].fd > 0
    ensures Sessions(slots) == Sessions(slots[..|slots| - 1]) + {(slots[|slots| - 1].id, slots[|slots| - 1].fd)}
  {
    var init, last := slots[..|slots| - 1], slots[|slots| - 1];
    forall p | p in Sessions(init)
      ensures p in Sessions(slots)
    {
      var k :| 0 <= k < |init| && init[k].fd > 0 && p == (init[k].id, init[k].fd);
      assert slots[k] == init[k];
    }
    forall p | p in Sessions(slots) && p != (last.id, last.fd)
      ensures p in Sessions(init)
    {
      var k :| 0 <= k < |slots| && slots[k].fd > 0 && p == (slots[k].id, slots[k].fd);
      assert k < |init| && init[k] == slots[k];
    }
  }

  /** Closing a descriptor ends exactly one of its sessions, or nothing when it has none. */
  lemma RemoveEnds(b: Book, fd: int) returns (id: int)
    requires Consistent(b) && fd > 0
    ensures Consistent(Removed(b, fd)) && Removed(b, fd).next == b.next
    ensures SessionsOf(b.slots, fd) == {} ==> Removed(b, fd) == b
    ensures SessionsOf(b.slots, fd) != {} ==>
              (id, fd) in Sessions(b.slots) && Sessions(Removed(b, fd).slots) == Sessions(b.slots) - {(id, fd)}
  {
    hide Sessions, SessionsOf;
    var i := FirstWith(b.slots, fd);
    id := if i < 0 then 0 else b.slots[i].id;
    HeldIffFound(b.slots, fd);
    if i >= 0 {
      SlotIsSession(b.slots, i);
      SessionsChange(b.slots, i, Slot(0, id));
    }
  }

  lemma SlotIsSession(slots: seq<Slot>, i: nat)
    requires i < |slots| && slots[i].fd > 0
    ensures (slots[i].id, slots[i].fd) in Sessions(slots)
  {
  }

  lemma HeldIffFound(slots: seq<Slot>, fd: int)
    requires fd > 0
    ensures SessionsOf(slots, fd) == {} <==> FirstWith(slots, fd) < 0
  {
    var i := FirstWith(slots, fd);
    if i >= 0 { assert (slots[i].id, fd) in SessionsOf(slots, fd); }
  }

  lemma OwnSessions(slots: seq<Slot>, fd: int)
    ensures SessionsOf(slots, fd) <= Sessions(slots)
    ensures forall p :: p in SessionsOf(slots, fd) <==> p in Sessions(slots) && p.1 == fd
  {
  }

  /** After its descriptor is closed a client is still registered exactly when it had connected on
      that descriptor more than once; the sessions of other descriptors stay as they were. */
  lemma ClosedButHeld(b: Book, fd: int)
    requires Consistent(b) && fd > 0
    ensures SessionsOf(Removed(b, fd).slots, fd) != {} <==> |SessionsOf(b.slots, fd)| >= 2
    ensures forall other :: other != fd ==> SessionsOf(Removed(b, fd).slots, other) == SessionsOf(b.slots, other)
  {
    hide Sessions, SessionsOf, Removed, Consistent;
    var id := RemoveEnds(b, fd);
    forall other
      ensures SessionsOf(Removed(b, fd).slots, other) == SessionsOf(b.slots, other) - (if other == fd then {(id, fd)} else {})
    {
      OwnSessions(b.slots, other);
      OwnSessions(b.slots, fd);
      OwnSessions(Removed(b, fd).slots, other);
    }
    OwnSessions(b.slots, fd);
    var own := SessionsOf(b.slots, fd);
    if own != {} { assert |own - {(id, fd)}| == |own| - 1; }
  }

  /** A connection on one descriptor leaves the sessions of the others as they were. */
  lemma ConnectKeepsOthers(b: Book, fd: int)
    requires Consistent(b) && fd > 0
    ensures forall other :: other != fd ==> SessionsOf(Registered(b, fd).slots, other) == SessionsOf(b.slots, other)
  {
    hide Sessions, SessionsOf, Registered, Consistent;
    RegisterAdds(b, fd);
    forall other | other != fd
      ensures SessionsOf(Registered(b, fd).slots, other) == SessionsOf(b.slots, other)
    {
      OwnSessions(b.slots, other);
      OwnSessions(Registered(b, fd).slots, other);
    }
  }

  // ---- Lookup ----

  /** The first slot in use with that identifier, or -1. */
  function Place(slots: seq<Slot>, id: int): (r: int)
    ensures -1 <= r < |slots| && (r >= 0 ==> slots[r].id == id && slots[r].fd > 0)
    ensures forall i :: 0 <= i < (if r >= 0 then r else |slots|) ==> !(slots[i].id == id && slots[i].fd > 0)
  {
    if slots == [] then -1
    else if slots[0].id == id && slots[0].fd > 0 then 0
    else
      var r := Place(slots[1..], id);
      if r < 0 then -1 else r + 1
  }

  /** `client_fd_by_id`. */
  function Lookup(slots: seq<Slot>, id: int): int {
    var i := Place(slots, id);
    if i < 0 then -1 else slots[i].fd
  }

  /** Looking an identifier up succeeds exactly for the sessions, and finds their descriptor. */
  lemma LookupExact(b: Book, id: int, fd: int)
    requires Consistent(b) && fd > 0
    ensures (id, fd) in Sessions(b.slots) <==> Lookup(b.slots, id) == fd
    ensures Lookup(b.slots, id) == -1 <==> forall p :: p in Sessions(b.slots) ==> p.0 != id
  {
    var i := Place(b.slots, id);
    if i >= 0 { assert (id, b.slots[i].fd) in Sessions(b.slots); }
  }

  // ---- Runs ----

  datatype Event = Connected(fd: int) | Closed(fd: int)

  function After(b: Book, events: seq<Event>): Book
    decreases |events|
  {
    if events == [] then b
    else
      Next(After(b, events[..|events| - 1]), events[|events| - 1])
  }

  predicate Real(events: seq<Event>) {
    forall i :: 0 <= i < |events| ==> events[i].fd > 0
  }

  /** How many identifiers have been handed out. */
  function Connections(events: seq<Event>): nat {
    if events == [] then 0
    else Connections(events[..|events| - 1]) + if events[|events| - 1].Connected? then 1 else 0
  }

  /** Every run keeps the table consistent, and never hands out an identifier twice. */
  lemma {:induction false} RunsStayConsistent(events: seq<Event>)
    requires Real(events)
    ensures Consistent(After(EmptyBook(), events))
    ensures After(EmptyBook(), events).next == 1 + Connections(events)
    decreases |events|
  {
    hide Consistent, Registered, Removed;
    if events == [] {
      EmptyConsistent();
    } else {
      RunsStayConsistent(events[..|events| - 1]);
      var before := After(EmptyBook(), events[..|events| - 1]);
      match events[|events| - 1]
      case Connected(fd) => RegisterAdds(before, fd);
      case Closed(fd) => var _ := RemoveEnds(before, fd);
    }
  }

  lemma EmptyConsistent()
    ensures Consistent(EmptyBook()) && Sessions(EmptyBook().slots) == {}
  {
  }

  /** How many sessions a descriptor should hold: each connection that finds room adds one, and a close
      takes away no more than one. */
  function HeldNext(held: nat, room: bool, e: Event, fd: int): nat {
    if e.fd != fd then held
    else if e.Connected? then (if room then held + 1 else held)
    else if held > 0 then held - 1
    else 0
  }

  function HeldAfter(events: seq<Event>, fd: int): nat
    decreases |events|
  {
    if events == [] then 0
    else
      var init := events[..|events| - 1];
      HeldNext(HeldAfter(init, fd), After(EmptyBook(), init).count < MAX_CLIENTS, events[|events| - 1], fd)
  }

  /** In every run a descriptor holds exactly that many sessions; so a client that connected twice is
      still registered after its connection has gone. */
  lemma {:induction false} HeldInRuns(events: seq<Event>, fd: int)
    requires Real(events) && fd > 0
    ensures |SessionsOf(After(EmptyBook(), events).slots, fd)| == HeldAfter(events, fd)
    decreases |events|
  {
    hide Consistent, Registered, Removed, Sessions, SessionsOf;
    if events == [] {
      EmptyConsistent();
      OwnSessions(EmptyBook().slots, fd);
    } else {
      var init, last := events[..|events| - 1], events[|events| - 1];
      HeldInRuns(init, fd);
      RunsStayConsistent(init);
      HeldStep(After(EmptyBook(), init), last, fd);
    }
  }

  function Next(b: Book, e: Event): Book {
    if e.Connected? then Registered(b, e.fd) else Removed(b, e.fd)
  }

  lemma ConnectHolds(b: Book, f: int, fd: int)
    requires Consistent(b) && f > 0 && fd > 0
    ensures |SessionsOf(Registered(b, f).slots, fd)| ==
            |SessionsOf(b.slots, fd)| + if f == fd && b.count < MAX_CLIENTS then 1 else 0
  {
    hide Consistent, Registered, Sessions, SessionsOf;
    RegisterAdds(b, f);
    if f != fd {
      ConnectKeepsOthers(b, f);
    } else {
      NotASession(b, b.next, f);
      OwnSessions(b.slots, fd);
      OwnSessions(Registered(b, f).slots, fd);
      var own := SessionsOf(b.slots, fd);
      assert SessionsOf(Registered(b, f).slots, fd) == if b.count < MAX_CLIENTS then own + {(b.next, fd)} else own;
    }
  }

  lemma CloseHolds(b: Book, f: int, fd: int)
    requires Consistent(b) && f > 0 && fd > 0
    ensures |SessionsOf(Removed(b, f).slots, fd)| ==
            |SessionsOf(b.slots, fd)| - if f == fd && SessionsOf(b.slots, fd) != {} then 1 else 0
  {
    hide Consistent, Removed, Sessions, SessionsOf;
    var id := RemoveEnds(b, f);
    if f != fd {
      ClosedButHeld(b, f);
    } else {
      OwnSessions(b.slots, fd);
      OwnSessions(Removed(b, f).slots, fd);
      var own := SessionsOf(b.slots, fd);
      assert SessionsOf(Removed(b, f).slots, fd) == if own != {} then own - {(id, fd)} else own;
    }
  }

  lemma HeldStep(b: Book, e: Event, fd: int)
    requires Consistent(b) && e.fd > 0 && fd > 0
    ensures |SessionsOf(Next(b, e).slots, fd)| == HeldNext(|SessionsOf(b.slots, fd)|, b.count < MAX_CLIENTS, e, fd)
  {
    hide Consistent, Registered, Removed, SessionsOf;
    if e.Connected? { ConnectHolds(b, e.fd, fd); } else { CloseHolds(b, e.fd, fd); }
  }

  // ---- The table itself ----

  class ClientTable {
    const slots: array<Slot>
    var count: int
    var next: int

    constructor ()
      ensures fresh(slots) && slots.Length == MAX_CLIENTS && AsBook() == EmptyBook()
    {
      slots := new Slot[MAX_CLIENTS](_ => Slot(0, 0));
      count, next := 0, 1;
      new;
      assert slots[..] == EmptyBook().slots;
    }

    ghost function AsBook(): Book
      reads this, slots
    {
      Book(slots[..], count, next)
    }

    /** The identifier handed out by a CONNECT, and `register_client`. */
    method Connect(fd: int) returns (id: int)
      requires slots.Length == MAX_CLIENTS
      modifies this, slots
      ensures id == old(next) && AsBook() == Registered(old(AsBook()), fd)
    {
      id := next;
      next := next + 1;
      for i := 0 to MAX_CLIENTS
        invariant FirstWith(slots[..], 0) < 0 || FirstWith(slots[..], 0) >= i
        invariant AsBook() == old(AsBook()).(next := next)
      {
        if slots[i].fd == 0 {
          assert FirstWith(slots[..], 0) == i;
          slots[i] := Slot(fd, id);
          count := count + 1;
          assert slots[..] == old(slots[..])[i := Slot(fd, id)];
          return;
        }
      }
    }

    /** `client_remove_fd`. */
    method Remove(fd: int)
      requires slots.Length == MAX_CLIENTS
      modifies this, slots
      ensures AsBook() == Removed(old(AsBook()), fd)
    {
      for i := 0 to MAX_CLIENTS
        invariant FirstWith(slots[..], fd) < 0 || FirstWith(slots[..], fd) >= i
        invariant AsBook() == old(AsBook())
      {
        if slots[i].fd == fd {
          assert FirstWith(slots[..], fd) == i;
          var free := slots[i].(fd := 0);
          slots[i] := free;
          if count > 0 { count := count - 1; }
          assert slots[..] == old(slots[..])[i := free];
          return;
        }
      }
    }

    /** `client_fd_by_id`; `is_registered_client` asks whether it is positive. */
    method FdById(id: int) returns (fd: int)
      requires slots.Length == MAX_CLIENTS
      ensures fd == Lookup(slots[..], id)
    {
      for i := 0 to MAX_CLIENTS
        invariant Place(slots[..], id) < 0 || Place(slots[..], id) >= i
      {
        if slots[i].id == id && slots[i].fd > 0 {
          assert Place(slots[..], id) == i;
          return slots[i].fd;
        }
      }
      return -1;
    }
  }
}
