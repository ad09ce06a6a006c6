/**
 * The events and tickets tables as values, and the table operations the
 * ticket handlers of src/index.ts issue: COUNT, INSERT, UPDATE and DELETE
 * with a WHERE condition. The booking store (module Store) changes its
 * tables only through these functions; the lemmas here are what makes its
 * capacity invariant hold, and what makes it fail under UPDATE.
 */
module Tickets {
  import opened Wrappers
  import opened EventValidation

  /** A row of the events table; `availableSeats` is the event's capacity. */
  datatype Event = Event(name: string, date: string, category: Category, availableSeats: int)

  /** A row of the tickets table. Nothing constrains seat or price. */
  datatype Ticket = Ticket(id: int, seat: string, price: real, eventId: int, userId: int)

  /** The WHERE conditions the ticket handlers use. */
  datatype Where =
    | EventIs(eventId: int)                 // COUNT(*) ... WHERE eventId = ?
    | IdIs(id: int)                         // ... WHERE id = ?
    | BookingOf(eventId: int, userId: int)  // ... WHERE eventId = ? AND userId = ?

  predicate Selects(w: Where, t: Ticket)
  {
    match w
    case EventIs(e) => t.eventId == e
    case IdIs(id) => t.id == id
    case BookingOf(e, u) => t.eventId == e && t.userId == u
  }

  /** `SELECT COUNT(*) FROM tickets WHERE w`. */
  function CountWhere(tickets: seq<Ticket>, w: Where): (n: nat)
    ensures n <= |tickets|
    ensures n == 0 <==> forall i :: 0 <= i < |tickets| ==> !Selects(w, tickets[i])
  {
    if tickets == [] then 0
    else (if Selects(w, tickets[0]) then 1 else 0) + CountWhere(tickets[1..], w)
  }

  /** The number of tickets sold for an event. */
  function SoldFor(tickets: seq<Ticket>, eventId: int): nat
  {
    CountWhere(tickets, EventIs(eventId))
  }

  /** `DELETE FROM tickets WHERE w`: the rows w does not select, in their order. */
  function DeleteWhere(tickets: seq<Ticket>, w: Where): (r: seq<Ticket>)
    ensures forall t :: t in r <==> t in tickets && !Selects(w, t)
    ensures |r| + CountWhere(tickets, w) == |tickets|
  {
    if tickets == [] then []
    else (if Selects(w, tickets[0]) then [] else [tickets[0]]) + DeleteWhere(tickets[1..], w)
  }

  /** `UPDATE tickets SET seat = ?, price = ?, eventId = ? WHERE id = ?`. */
  function Updated(tickets: seq<Ticket>, id: int, seat: string, price: real, eventId: int): (r: seq<Ticket>)
    ensures |r| == |tickets|
    ensures forall i :: 0 <= i < |tickets| && tickets[i].id != id ==> r[i] == tickets[i]
    ensures forall i :: 0 <= i < |tickets| && tickets[i].id == id ==>
      r[i] == Ticket(id, seat, price, eventId, tickets[i].userId)
  {
    if tickets == [] then []
    else
      var t := tickets[0];
      [if t.id == id then t.(seat := seat, price := price, eventId := eventId) else t]
      + Updated(tickets[1..], id, seat, price, eventId)
  }

  /** The id column holds no value twice (it is the table's primary key). */
  predicate UniqueIds(tickets: seq<Ticket>)
  {
    forall i, j :: 0 <= i < j < |tickets| ==> tickets[i].id != tickets[j].id
  }

  /** Ids are unique, positive and below `next`, the next fresh id. */
  predicate KeyedBelow(tickets: seq<Ticket>, next: int)
  {
    UniqueIds(tickets) && forall i :: 0 <= i < |tickets| ==> 1 <= tickets[i].id < next
  }

  /** INSERT with the next fresh id keeps the key unique, and the new id was not in use. */
  lemma InsertFreshKeepsKey(tickets: seq<Ticket>, next: int, t: Ticket)
    requires KeyedBelow(tickets, next) && 1 <= next && t.id == next
    ensures KeyedBelow(tickets + [t], next + 1)
    ensures forall u :: u in tickets ==> u.id != t.id
  {
  }

  /** DELETE keeps the key unique and below the next fresh id. */
  lemma DeleteKeepsKey(tickets: seq<Ticket>, next: int, w: Where)
    requires KeyedBelow(tickets, next)
    ensures KeyedBelow(DeleteWhere(tickets, w), next)
  {
    DeleteKeepsUniqueIds(tickets, w);
    var r := DeleteWhere(tickets, w);
    forall i | 0 <= i < |r|
      ensures 1 <= r[i].id < next
    {
      assert r[i] in tickets;
    }
  }

  /** UPDATE keeps the key unique and below the next fresh id. */
  lemma UpdateKeepsKey(tickets: seq<Ticket>, next: int, id: int, seat: string, price: real, eventId: int)
    requires KeyedBelow(tickets, next)
    ensures KeyedBelow(Updated(tickets, id, seat, price, eventId), next)
  {
    UpdateKeepsUniqueIds(tickets, id, seat, price, eventId);
  }

  /** Invariant I1: no event has more tickets than seats. */
  predicate WithinCapacity(events: map<int, Event>, tickets: seq<Ticket>)
  {
    forall e :: e in events ==> SoldFor(tickets, e) <= events[e].availableSeats
  }

  /** Invariant I2: every ticket belongs to an event of the events table. */
  predicate KnownEvents(events: map<int, Event>, tickets: seq<Ticket>)
  {
    forall i :: 0 <= i < |tickets| ==> tickets[i].eventId in events
  }

  predicate Consistent(events: map<int, Event>, tickets: seq<Ticket>)
  {
    WithinCapacity(events, tickets) && KnownEvents(events, tickets)
  }

  /** Why POST /events/:eventId/tickets refuses a booking. */
  datatype BookingError = EventNotFound | NoAvailableSeats

  /**
   * The admission rule of the booking handler: the event must exist, and
   * its ticket count must be below its availableSeats. None admits.
   */
  function Refusal(events: map<int, Event>, tickets: seq<Ticket>, eventId: int): Option<BookingError>
  {
    if eventId !in events then Some(EventNotFound)
    else if SoldFor(tickets, eventId) >= events[eventId].availableSeats then Some(NoAvailableSeats)
    else None
  }

  /** INSERT adds one to the count of exactly the conditions selecting the new row. */
  lemma {:induction false} CountAppend(tickets: seq<Ticket>, t: Ticket, w: Where)
    ensures CountWhere(tickets + [t], w) == CountWhere(tickets, w) + (if Selects(w, t) then 1 else 0)
  {
    if tickets != [] {
      assert (tickets + [t])[1..] == tickets[1..] + [t];
      CountAppend(tickets[1..], t, w);
    }
  }

  /**
   * Inserting an admitted booking keeps I1, whatever else holds, and keeps
   * I2 where it held.
   */
  lemma AdmittedBookingKeepsConsistency(events: map<int, Event>, tickets: seq<Ticket>, t: Ticket)
    requires WithinCapacity(events, tickets)
    requires Refusal(events, tickets, t.eventId).None?
    ensures WithinCapacity(events, tickets + [t])
    ensures KnownEvents(events, tickets) ==> KnownEvents(events, tickets + [t])
  {
    forall e | e in events
      ensures SoldFor(tickets + [t], e) <= events[e].availableSeats
    {
      CountAppend(tickets, t, EventIs(e));
    }
  }

  /** A refused booking is refused for the reason the handler reports. */
  lemma RefusalReasons(events: map<int, Event>, tickets: seq<Ticket>, eventId: int)
    ensures Refusal(events, tickets, eventId) == Some(EventNotFound) <==> eventId !in events
    ensures Refusal(events, tickets, eventId) == Some(NoAvailableSeats) <==>
      eventId in events && SoldFor(tickets, eventId) >= events[eventId].availableSeats
    ensures WithinCapacity(events, tickets) && eventId in events && Refusal(events, tickets, eventId).Some? ==>
      SoldFor(tickets, eventId) == events[eventId].availableSeats
  {
  }

  /** DELETE never raises any count. */
  lemma {:induction false} DeleteLowersCounts(tickets: seq<Ticket>, w: Where, v: Where)
    ensures CountWhere(DeleteWhere(tickets, w), v) <= CountWhere(tickets, v)
  {
    if tickets != [] {
      DeleteLowersCounts(tickets[1..], w, v);
      var head := if Selects(w, tickets[0]) then [] else [tickets[0]];
      CountConcat(head, DeleteWhere(tickets[1..], w), v);
    }
  }

  lemma {:induction false} CountConcat(a: seq<Ticket>, b: seq<Ticket>, w: Where)
    ensures CountWhere(a + b, w) == CountWhere(a, w) + CountWhere(b, w)
  {
    if a == [] {
      assert a + b == b;
    } else {
      assert (a + b)[1..] == a[1..] + b;
      CountConcat(a[1..], b, w);
    }
  }

  /** DELETE keeps I1 and I2, each on its own, whatever its condition. */
  lemma DeleteKeepsConsistency(events: map<int, Event>, tickets: seq<Ticket>, w: Where)
    ensures WithinCapacity(events, tickets) ==> WithinCapacity(events, DeleteWhere(tickets, w))
    ensures KnownEvents(events, tickets) ==> KnownEvents(events, DeleteWhere(tickets, w))
  {
    var r := DeleteWhere(tickets, w);
    if WithinCapacity(events, tickets) {
      forall e | e in events
        ensures SoldFor(r, e) <= events[e].availableSeats
      {
        DeleteLowersCounts(tickets, w, EventIs(e));
      }
    }
    if KnownEvents(events, tickets) {
      forall i | 0 <= i < |r|
        ensures r[i].eventId in events
      {
        assert r[i] in tickets;
      }
    }
  }

  /** DELETE keeps the primary key unique. */
  lemma {:induction false} DeleteKeepsUniqueIds(tickets: seq<Ticket>, w: Where)
    requires UniqueIds(tickets)
    ensures UniqueIds(DeleteWhere(tickets, w))
  {
    if tickets != [] {
      DeleteKeepsUniqueIds(tickets[1..], w);
      var rest := DeleteWhere(tickets[1..], w);
      forall t | t in rest
        ensures t.id != tickets[0].id
      {
        assert t in tickets[1..];
      }
    }
  }

  /** Deleting by id removes at most one row. */
  lemma {:induction false} AtMostOneWithId(tickets: seq<Ticket>, id: int)
    requires UniqueIds(tickets)
    ensures CountWhere(tickets, IdIs(id)) <= 1
    ensures CountWhere(tickets, IdIs(id)) == 1 <==> exists t :: t in tickets && t.id == id
  {
    if tickets != [] {
      AtMostOneWithId(tickets[1..], id);
      if tickets[0].id == id {
        assert CountWhere(tickets[1..], IdIs(id)) == 0 by {
          forall i | 0 <= i < |tickets[1..]|
            ensures !Selects(IdIs(id), tickets[1..][i])
          {
            assert tickets[1..][i] == tickets[i + 1];
          }
        }
      }
      if exists t :: t in tickets && t.id == id {
        var t :| t in tickets && t.id == id;
        assert t == tickets[0] || t in tickets[1..];
      }
    }
  }

  /** Deleting a ticket takes exactly one seat off its event's count. */
  lemma {:induction false} DeleteTicketFreesSeat(tickets: seq<Ticket>, t: Ticket)
    requires UniqueIds(tickets)
    requires t in tickets
    ensures SoldFor(DeleteWhere(tickets, IdIs(t.id)), t.eventId) == SoldFor(tickets, t.eventId) - 1
  {
    var rest := tickets[1..];
    var w := IdIs(t.id);
    HeadIdNotInTail(tickets);
    if tickets[0] == t {
      DeleteNothing(rest, w);
      assert DeleteWhere(tickets, w) == rest;
    } else {
      assert t in rest;
      assert tickets[0].id != t.id;
      DeleteTicketFreesSeat(rest, t);
      var r := DeleteWhere(tickets, w);
      assert r == [tickets[0]] + DeleteWhere(rest, w);
      assert r[0] == tickets[0] && r[1..] == DeleteWhere(rest, w);
    }
  }

  /** The tail of a table with a unique key is unique and never repeats the head's id. */
  lemma HeadIdNotInTail(tickets: seq<Ticket>)
    requires UniqueIds(tickets) && tickets != []
    ensures UniqueIds(tickets[1..])
    ensures forall u :: u in tickets[1..] ==> u.id != tickets[0].id
  {
    var rest := tickets[1..];
    forall u | u in rest
      ensures u.id != tickets[0].id
    {
      var k :| 0 <= k < |rest| && rest[k] == u;
      assert rest[k] == tickets[k + 1];
    }
    forall i, j | 0 <= i < j < |rest|
      ensures rest[i].id != rest[j].id
    {
      assert rest[i] == tickets[i + 1] && rest[j] == tickets[j + 1];
    }
  }

  lemma {:induction false} DeleteNothing(tickets: seq<Ticket>, w: Where)
    requires forall t :: t in tickets ==> !Selects(w, t)
    ensures DeleteWhere(tickets, w) == tickets
  {
    if tickets != [] {
      DeleteNothing(tickets[1..], w);
    }
  }

  /** After a full event loses a ticket, the next booking for it is admitted. */
  lemma FreedSeatReadmits(events: map<int, Event>, tickets: seq<Ticket>, t: Ticket)
    requires UniqueIds(tickets) && WithinCapacity(events, tickets)
    requires t in tickets
    requires Refusal(events, tickets, t.eventId) == Some(NoAvailableSeats)
    ensures Refusal(events, DeleteWhere(tickets, IdIs(t.id)), t.eventId).None?
  {
    DeleteTicketFreesSeat(tickets, t);
  }

  /** An event id that no ticket carries has no tickets sold; in particular a new event's. */
  lemma NewEventHasNoTickets(events: map<int, Event>, tickets: seq<Ticket>, eventId: int)
    requires KnownEvents(events, tickets)
    requires eventId !in events
    ensures SoldFor(tickets, eventId) == 0
  {
  }

  /** Adding an event with a fresh id keeps I1 and I2. */
  lemma NewEventKeepsConsistency(events: map<int, Event>, tickets: seq<Ticket>, eventId: int, ev: Event)
    requires Consistent(events, tickets)
    requires eventId !in events && ev.availableSeats >= 0
    ensures Consistent(events[eventId := ev], tickets)
  {
    NewEventHasNoTickets(events, tickets, eventId);
  }

  /** UPDATE changes no id, so the primary key stays unique. */
  lemma UpdateKeepsUniqueIds(tickets: seq<Ticket>, id: int, seat: string, price: real, eventId: int)
    requires UniqueIds(tickets)
    ensures UniqueIds(Updated(tickets, id, seat, price, eventId))
  {
    var r := Updated(tickets, id, seat, price, eventId);
    forall i, j | 0 <= i < j < |r|
      ensures r[i].id != r[j].id
    {
      assert r[i].id == tickets[i].id && r[j].id == tickets[j].id;
    }
  }

  /** Moving a ticket to another event adds exactly one to that event's count. */
  lemma {:induction false} UpdateMovesOneTicket(tickets: seq<Ticket>, t: Ticket, seat: string, price: real, eventId: int)
    requires UniqueIds(tickets)
    requires t in tickets && t.eventId != eventId
    ensures SoldFor(Updated(tickets, t.id, seat, price, eventId), eventId) == SoldFor(tickets, eventId) + 1
  {
    var rest := tickets[1..];
    var r := Updated(tickets, t.id, seat, price, eventId);
    HeadIdNotInTail(tickets);
    assert r[1..] == Updated(rest, t.id, seat, price, eventId);
    if tickets[0] == t {
      UpdateNothing(rest, t.id, seat, price, eventId);
    } else {
      assert t in rest;
      UpdateMovesOneTicket(rest, t, seat, price, eventId);
    }
  }

  lemma {:induction false} UpdateNothing(tickets: seq<Ticket>, id: int, seat: string, price: real, eventId: int)
    requires forall t :: t in tickets ==> t.id != id
    ensures Updated(tickets, id, seat, price, eventId) == tickets
  {
    if tickets != [] {
      UpdateNothing(tickets[1..], id, seat, price, eventId);
    }
  }

  /**
   * UPDATE does not check capacity: moving a ticket into a full event
   * breaks I1.
   */
  lemma UpdateCanOversell(events: map<int, Event>, tickets: seq<Ticket>, t: Ticket, seat: string, price: real, eventId: int)
    requires UniqueIds(tickets) && Consistent(events, tickets)
    requires t in tickets && t.eventId != eventId
    requires eventId in events && SoldFor(tickets, eventId) == events[eventId].availableSeats
    ensures !WithinCapacity(events, Updated(tickets, t.id, seat, price, eventId))
  {
    UpdateMovesOneTicket(tickets, t, seat, price, eventId);
  }

  /** UPDATE does not check that the event exists: it can break I2. */
  lemma UpdateCanOrphan(events: map<int, Event>, tickets: seq<Ticket>, t: Ticket, seat: string, price: real, eventId: int)
    requires t in tickets && eventId !in events
    ensures !KnownEvents(events, Updated(tickets, t.id, seat, price, eventId))
  {
    var k :| 0 <= k < |tickets| && tickets[k] == t;
    assert Updated(tickets, t.id, seat, price, eventId)[k].eventId == eventId;
  }
}
