/**
 * The events and tickets tables that the handlers of src/index.ts change
 * in place, as one store object. Each handler is a method; the SQL engine is
 * replaced by the table functions of module Tickets, and SQLite's row ids by
 * two counters that supply fresh ids.
 */
module Store {
  import opened Wrappers
  import opened EventValidation
  import opened Tickets

  class TicketStore {
    var events: map<int, Event>
    var tickets: seq<Ticket>
    var nextEventId: int
    var nextTicketId: int

    /**
     * What every handler keeps, UPDATE included: ids are positive and below
     * the next fresh id, ticket ids are unique, and every stored event passed
     * the seat and category rules.
     */
    ghost predicate Wellformed()
      reads this
    {
      && 1 <= nextEventId && 1 <= nextTicketId
      && (forall e :: e in events ==> 1 <= e < nextEventId && SeatsInRange(events[e].availableSeats))
      && KeyedBelow(tickets, nextTicketId)
    }

    /** Invariants I1 and I2 of the current tables. */
    ghost predicate Consistent()
      reads this
    {
      Tickets.Consistent(events, tickets)
    }

    ghost predicate TicketExists(id: int)
      reads this
    {
      exists t :: t in tickets && t.id == id
    }

    /** Empty tables. */
    constructor ()
      ensures Wellformed() && Consistent()
      ensures events == map[] && tickets == []
    {
      events := map[];
      tickets := [];
      nextEventId := 1;
      nextTicketId := 1;
    }

    /**
     * POST /events: the seat and category rules, then an INSERT with a fresh
     * id. The answer is the new id, or every rule the body breaks.
     */
    method CreateEvent(name: string, date: string, category: string, availableSeats: int)
      returns (r: Result<int, seq<FieldError>>)
      requires Wellformed()
      modifies this
      ensures Wellformed()
      ensures tickets == old(tickets) && nextTicketId == old(nextTicketId)
      ensures r.Failure? <==> EventErrors(category, availableSeats) != []
      ensures r.Failure? ==>
        r.error == EventErrors(category, availableSeats) &&
        events == old(events) && nextEventId == old(nextEventId)
      ensures r.Success? ==>
        && r.value == old(nextEventId) && r.value !in old(events)
        && ParseCategory(category).Some?
        && events == old(events)[r.value := Event(name, date, ParseCategory(category).value, availableSeats)]
        && nextEventId == old(nextEventId) + 1
      ensures old(Consistent()) ==> Consistent()
    {
      var checked := ValidateEvent(category, availableSeats);
      if checked.Failure? {
        return Failure(checked.error);
      }
      var id := nextEventId;
      ghost var before := events;
      events := events[id := Event(name, date, checked.value, availableSeats)];
      nextEventId := nextEventId + 1;
      if Tickets.Consistent(before, tickets) {
        NewEventKeepsConsistency(before, tickets, id, events[id]);
      }
      r := Success(id);
    }

    /**
     * POST /events/:eventId/tickets: refuse a missing event, refuse a full
     * event, otherwise INSERT one ticket with a fresh id and answer that id.
     */
    method Book(eventId: int, seat: string, price: real, userId: int)
      returns (r: Result<int, BookingError>)
      requires Wellformed()
      modifies this
      ensures Wellformed()
      ensures events == old(events) && nextEventId == old(nextEventId)
      ensures r == Failure(EventNotFound) <==> eventId !in events
      ensures r == Failure(NoAvailableSeats) <==>
        eventId in events && SoldFor(old(tickets), eventId) >= events[eventId].availableSeats
      ensures r.Success? <==>
        eventId in events && SoldFor(old(tickets), eventId) < events[eventId].availableSeats
      ensures r.Failure? <==> Refusal(old(events), old(tickets), eventId).Some?
      ensures r.Failure? ==> Refusal(old(events), old(tickets), eventId) == Some(r.error)
      ensures r.Failure? ==> tickets == old(tickets) && nextTicketId == old(nextTicketId)
      ensures r.Success? ==>
        && r.value == old(nextTicketId) && (forall t :: t in old(tickets) ==> t.id != r.value)
        && tickets == old(tickets) + [Ticket(r.value, seat, price, eventId, userId)]
        && nextTicketId == old(nextTicketId) + 1
      ensures old(WithinCapacity(events, tickets)) ==> WithinCapacity(events, tickets)
      ensures old(Consistent()) ==> Consistent()
    {
      if eventId !in events {
        return Failure(EventNotFound);
      }
      var ticketCount := SoldFor(tickets, eventId);
      if ticketCount >= events[eventId].availableSeats {
        return Failure(NoAvailableSeats);
      }
      var id := nextTicketId;
      var row := Ticket(id, seat, price, eventId, userId);
      InsertFreshKeepsKey(tickets, nextTicketId, row);
      if WithinCapacity(events, tickets) {
        AdmittedBookingKeepsConsistency(events, tickets, row);
      }
      tickets := tickets + [row];
      nextTicketId := nextTicketId + 1;
      r := Success(id);
    }

    /**
     * PUT /events/:eventId/tickets/:ticketId: rewrite seat, price and eventId
     * of the ticket with that id, checking neither the event nor its
     * capacity. The answer is the number of rows changed.
     */
    method UpdateTicket(eventId: int, ticketId: int, seat: string, price: real)
      returns (changes: nat)
      requires Wellformed()
      modifies this
      ensures Wellformed()
      ensures events == old(events) && nextEventId == old(nextEventId) && nextTicketId == old(nextTicketId)
      ensures tickets == Updated(old(tickets), ticketId, seat, price, eventId)
      ensures changes <= 1 && (changes == 1 <==> old(TicketExists(ticketId)))
    {
      AtMostOneWithId(tickets, ticketId);
      changes := CountWhere(tickets, IdIs(ticketId));
      UpdateKeepsKey(tickets, nextTicketId, ticketId, seat, price, eventId);
      tickets := Updated(tickets, ticketId, seat, price, eventId);
    }

    /** DELETE /events/:eventId/tickets/:ticketId: remove the ticket with that id. */
    method DeleteTicket(ticketId: int) returns (changes: nat)
      requires Wellformed()
      modifies this
      ensures Wellformed()
      ensures events == old(events) && nextEventId == old(nextEventId) && nextTicketId == old(nextTicketId)
      ensures tickets == DeleteWhere(old(tickets), IdIs(ticketId))
      ensures changes == |old(tickets)| - |tickets|
      ensures changes <= 1 && (changes == 1 <==> old(TicketExists(ticketId)))
      ensures old(WithinCapacity(events, tickets)) ==> WithinCapacity(events, tickets)
      ensures old(Consistent()) ==> Consistent()
    {
      AtMostOneWithId(tickets, ticketId);
      changes := CountWhere(tickets, IdIs(ticketId));
      DeleteKeepsKey(tickets, nextTicketId, IdIs(ticketId));
      DeleteKeepsConsistency(events, tickets, IdIs(ticketId));
      tickets := DeleteWhere(tickets, IdIs(ticketId));
    }

    /**
     * DELETE /users/me/booked-events/:eventId: remove every ticket of the
     * calling user for that event.
     */
    method DeleteBookings(eventId: int, userId: int) returns (changes: nat)
      requires Wellformed()
      modifies this
      ensures Wellformed()
      ensures events == old(events) && nextEventId == old(nextEventId) && nextTicketId == old(nextTicketId)
      ensures tickets == DeleteWhere(old(tickets), BookingOf(eventId, userId))
      ensures changes == |old(tickets)| - |tickets| == CountWhere(old(tickets), BookingOf(eventId, userId))
      ensures forall t :: t in tickets <==> t in old(tickets) && !(t.eventId == eventId && t.userId == userId)
      ensures old(WithinCapacity(events, tickets)) ==> WithinCapacity(events, tickets)
      ensures old(Consistent()) ==> Consistent()
    {
      changes := CountWhere(tickets, BookingOf(eventId, userId));
      DeleteKeepsKey(tickets, nextTicketId, BookingOf(eventId, userId));
      DeleteKeepsConsistency(events, tickets, BookingOf(eventId, userId));
      tickets := DeleteWhere(tickets, BookingOf(eventId, userId));
    }
  }

  /** A request to one of the handlers that keep I1 and I2. */
  datatype Request =
    | NewEvent(name: string, date: string, category: string, availableSeats: int)
    | BookTicket(eventId: int, seat: string, price: real, userId: int)
    | CancelTicket(ticketId: int)
    | CancelBookings(eventId: int, userId: int)

  /**
   * Requests served one after another: whatever the requests, I1 and I2
   * hold after each of them. UPDATE is not among them; see
   * OversellByUpdate.
   */
  method ServeInOrder(store: TicketStore, requests: seq<Request>)
    requires store.Wellformed() && store.Consistent()
    modifies store
    ensures store.Wellformed() && store.Consistent()
    ensures forall e :: e in old(store.events) ==> e in store.events && store.events[e] == old(store.events[e])
  {
    for i := 0 to |requests|
      invariant store.Wellformed() && store.Consistent()
      invariant forall e :: e in old(store.events) ==> e in store.events && store.events[e] == old(store.events[e])
    {
      match requests[i]
      case NewEvent(name, date, category, seats) =>
        var _ := store.CreateEvent(name, date, category, seats);
      case BookTicket(eventId, seat, price, userId) =>
        var _ := store.Book(eventId, seat, price, userId);
      case CancelTicket(ticketId) =>
        var _ := store.DeleteTicket(ticketId);
      case CancelBookings(eventId, userId) =>
        var _ := store.DeleteBookings(eventId, userId);
    }
  }

  /**
   * One seat, two bookings: the first is admitted and the second refused;
   * once the first ticket is deleted, a third booking is admitted again.
   */
  method LastSeat() returns (first: Result<int, BookingError>, second: Result<int, BookingError>, third: Result<int, BookingError>)
    ensures first.Success? && second == Failure(NoAvailableSeats) && third.Success?
    ensures third.value != first.value
  {
    var store := new TicketStore();
    ParseNameOf(Game);
    var ev := store.CreateEvent("Finals", "2024-07-01", "Game", 1);
    assert ev.Success?;
    var id := ev.value;
    assert store.events[id].availableSeats == 1;
    first := store.Book(id, "A1", 50.0, 1);
    assert SoldFor(store.tickets, id) == 1;
    second := store.Book(id, "A2", 50.0, 2);
    var _ := store.DeleteTicket(first.value);
    assert store.tickets == [];
    third := store.Book(id, "A2", 50.0, 2);
  }

  /**
   * Two one-seat events, one ticket each: moving the second ticket to the
   * first event with UPDATE leaves a store that breaks I1.
   */
  method OversellByUpdate() returns (store: TicketStore)
    ensures store.Wellformed() && !store.Consistent()
    ensures !WithinCapacity(store.events, store.tickets) && KnownEvents(store.events, store.tickets)
  {
    store := new TicketStore();
    ParseNameOf(Concert);
    var a := store.CreateEvent("Opening", "2024-07-01", "Concert", 1);
    var b := store.CreateEvent("Closing", "2024-07-02", "Concert", 1);
    assert a.Success? && b.Success? && a.value != b.value;
    var t := store.Book(a.value, "A1", 10.0, 1);
    var u := store.Book(b.value, "A1", 10.0, 2);
    assert t.Success? && u.Success?;
    ghost var before := store.tickets;
    assert before == [Ticket(t.value, "A1", 10.0, a.value, 1), Ticket(u.value, "A1", 10.0, b.value, 2)];
    assert store.Consistent();
    var _ := store.UpdateTicket(a.value, u.value, "A2", 10.0);
    UpdateCanOversell(store.events, before, before[1], "A2", 10.0, a.value);
    assert store.tickets == Updated(before, u.value, "A2", 10.0, a.value);
    assert store.tickets[0].eventId == a.value && store.tickets[1].eventId == a.value;
  }

  /**
   * An update that moves a ticket to an event id not yet in use keeps I1 but
   * breaks I2; creating the event under that id with no seats then breaks I1.
   * Event creation keeps I1 only where I2 holds.
   */
  method OrphanAdoptedByNewEvent() returns (store: TicketStore)
    ensures store.Wellformed()
    ensures !WithinCapacity(store.events, store.tickets)
  {
    store := new TicketStore();
    ParseNameOf(Game);
    var a := store.CreateEvent("Derby", "2024-08-01", "Game", 5);
    assert a.Success?;
    var t := store.Book(a.value, "B1", 20.0, 1);
    assert t.Success?;
    ghost var before := store.tickets;
    assert before == [Ticket(t.value, "B1", 20.0, a.value, 1)];
    var orphan := store.nextEventId;
    var _ := store.UpdateTicket(orphan, t.value, "B1", 20.0);
    assert store.tickets == [Ticket(t.value, "B1", 20.0, orphan, 1)];
    assert WithinCapacity(store.events, store.tickets);
    var b := store.CreateEvent("Replay", "2024-08-02", "Game", 0);
    assert b.Success? && b.value == orphan;
    assert SoldFor(store.tickets, orphan) == 1;
  }
}
