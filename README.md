# Event booking: tickets, capacity and event search

This project models the core of the event-booking backend (`src/index.ts`):

- the ticket handlers:
  - booking a ticket (`POST /events/:eventId/tickets`);
  - updating a ticket (`PUT /events/:eventId/tickets/:ticketId`);
  - deleting a ticket (`DELETE /events/:eventId/tickets/:ticketId`);
  - deleting a user's bookings for an event (`DELETE /users/me/booked-events/:eventId`);
- the query builder of the event search (`GET /events`);
- the two event-creation rules the handler states itself: `availableSeats` must be an integer from 0 to 1000, and `category` must be exactly `Concert`, `Conference` or `Game`.

Event creation (`POST /events`) is modelled too. It is the only way events enter the store, so it is how the model knows that every stored event passed those rules.

The modules:

- `Wrappers` (`wrappers.dfy`): `Option` and `Result`.
- `EventValidation` (`validation.dfy`):
  - the category whitelist, as an exact, case-sensitive comparison;
  - the seat range;
  - the list of errors a request body produces, in the order of the validation chain.
- `Tickets` (`tickets.dfy`): the events and tickets tables as values.
  - The tickets table is a sequence of rows, and the events table is a map from id to row.
  - The SQL statements the handlers issue are functions: `COUNT(*) ... WHERE`, `DELETE ... WHERE`, and `UPDATE ... WHERE id = ?`.
  - The `WHERE` condition is a datatype with one case per condition the handlers use.
  - Two invariants are defined: I1, "no event has more tickets than seats" (`WithinCapacity`), and I2, "every ticket belongs to an existing event" (`KnownEvents`).
  - The lemmas show which statements keep I1 and I2 and which break them.
- `Store` (`store.dfy`): the class `TicketStore`.
  - Its fields are the two tables and the two id counters that stand in for SQLite's row ids.
  - Each handler is a method that changes the tables in place and states its whole new state.
  - Four client methods show the invariants at work:
    - `ServeInOrder` serves any sequence of requests;
    - `LastSeat` books the last seat, frees it and books it again;
    - `OversellByUpdate` shows the update handler breaking I1 while I2 still holds;
    - `OrphanAdoptedByNewEvent` shows event creation breaking I1 after an update has broken I2.
- `EventSearch` (`search.dfy`): the search builder.
  - It starts from `SELECT * FROM events WHERE 1=1`.
  - For each filter that is given, in the fixed order category, name, startDate, endDate, it appends one `AND ... ?` clause and pushes one parameter.
  - A filter counts as given by JavaScript truthiness: it is present and not empty.
  - The builder is a method with the handler's four `if` blocks. It is proved equal to a declarative description: the base query, followed by the clauses of the given filters' conditions, with one parameter per condition.
  - Further lemmas prove that:
    - there is one placeholder per parameter;
    - the conditions follow the filters in order;
    - a name is bound as `%name%`;
    - the query and parameters can be parsed back into the conditions.

The update handler checks neither capacity nor whether the event exists, and the model keeps it that way. Its method does not promise I1 or I2, and two lemmas show that it can break each of them. Booking and both deletes keep I1 on its own, whatever holds of I2. Event creation keeps I1 and I2 together, but not I1 on its own: once an update has moved a ticket to an event id not yet in use, creating an event under that id with fewer seats breaks I1.

Handlers run one at a time in this model. Each handler is one atomic step.

## Model

| member | source | states |
|---|---|---|
| EventValidation.ParseCategory | src/index.ts:60-65 | a category string is accepted only when it equals the name of the category it is read as |
| EventValidation.ParseNameOf | src/index.ts:61 | each of Concert, Conference and Game is accepted, and read as itself |
| EventValidation.ParseCategoryExact | src/index.ts:60-65 | a string is accepted if and only if it is exactly one of the three names |
| EventValidation.EventErrors | src/index.ts:58-65 | no error if and only if the category is allowed and the seats are within 0..1000; a seat error exactly when the seats are out of range; a category error exactly when the category is not allowed; the seat error comes first |
| EventValidation.ValidateEvent | src/index.ts:110-114 | success if and only if the category is one of the names and the seats are in range; success carries that category; failure carries every broken rule, and at least one |
| Tickets.CountWhere | src/index.ts:143 | the count is at most the table's size, and it is zero exactly when no row satisfies the condition |
| Tickets.DeleteWhere | src/index.ts:238 | the rows left are exactly the rows the condition does not select; the rows removed are exactly as many as the rows it counts |
| Tickets.Updated | src/index.ts:225 | same length; rows with another id are unchanged; the row with the id gets the new seat, price and eventId and keeps its id and userId |
| Tickets.InsertFreshKeepsKey | src/index.ts:152-157 | inserting a row with the next fresh id keeps ids unique and below the next id; the new id was not in use |
| Tickets.DeleteKeepsKey | src/index.ts:238 | deleting keeps ids unique and below the next fresh id |
| Tickets.UpdateKeepsKey | src/index.ts:225 | updating keeps ids unique and below the next fresh id |
| Tickets.CountAppend | src/index.ts:152-153 | an insert adds one to the count of exactly the conditions that select the new row |
| Tickets.AdmittedBookingKeepsConsistency | src/index.ts:143-157 | inserting a ticket the admission rule lets through keeps I1 whatever else holds, and keeps I2 where it held |
| Tickets.RefusalReasons | src/index.ts:134-150 | "Event not found" if and only if the event is absent; "No available seats" if and only if the ticket count reaches availableSeats; under I1, a refused existing event is exactly full |
| Tickets.DeleteLowersCounts | src/index.ts:238 | a delete never raises the count for any condition |
| Tickets.DeleteKeepsConsistency | src/index.ts:236-247 | a delete with any condition keeps I1 on its own and I2 on its own |
| Tickets.DeleteKeepsUniqueIds | src/index.ts:238 | a delete keeps the primary key unique |
| Tickets.AtMostOneWithId | src/index.ts:238-243 | with a unique key, a delete by id removes at most one row, and exactly one if and only if a ticket has that id |
| Tickets.DeleteTicketFreesSeat | src/index.ts:236-247 | deleting an existing ticket lowers its event's ticket count by exactly one |
| Tickets.FreedSeatReadmits | src/index.ts:143-150 | if an event is refused only because it is full, deleting one of its tickets makes the next booking for it admitted |
| Tickets.NewEventHasNoTickets | src/index.ts:117 | under I2, an event id not in the events table has no tickets |
| Tickets.NewEventKeepsConsistency | src/index.ts:110-127 | adding an event under a fresh id with non-negative seats keeps I1 and I2 |
| Tickets.UpdateKeepsUniqueIds | src/index.ts:225 | an update changes no id, so the key stays unique |
| Tickets.UpdateMovesOneTicket | src/index.ts:225 | moving an existing ticket to another event raises that event's count by exactly one |
| Tickets.UpdateCanOversell | src/index.ts:222-234 | moving a ticket into an event that is exactly full breaks I1 |
| Tickets.UpdateCanOrphan | src/index.ts:222-234 | moving a ticket to an event id that is not in the events table breaks I2 |
| Store.TicketStore.CreateEvent | src/index.ts:110-127 | fails with exactly the broken rules and changes nothing; otherwise inserts the event under a fresh id; tickets untouched; keeps I1 and I2 together (not I1 alone, see OrphanAdoptedByNewEvent) |
| Store.TicketStore.Book | src/index.ts:129-165 | EventNotFound if and only if the event is absent; NoAvailableSeats if and only if the count has reached availableSeats; success otherwise. A failure writes nothing. A success appends exactly one row, whose id was not in use. Events are never changed. A failure is exactly a refusal by the admission rule, with its reason. I1 is kept on its own, and I1 and I2 are kept together |
| Store.TicketStore.UpdateTicket | src/index.ts:222-234 | the table becomes the UPDATE of the row with that id; the answer is 1 if and only if the ticket existed, otherwise 0; events unchanged; no promise of I1 or I2 |
| Store.TicketStore.DeleteTicket | src/index.ts:236-247 | the table loses exactly the row with that id; the answer is the number of rows removed, at most one, and one if and only if the ticket existed; events unchanged; I1 kept on its own, and I1 and I2 kept together |
| Store.TicketStore.DeleteBookings | src/index.ts:265-278 | the table keeps exactly the rows not of that user and event; the answer is the number of rows removed; events unchanged; I1 kept on its own, and I1 and I2 kept together |
| Store.ServeInOrder | src/index.ts:110-278 | any sequence of event creations, bookings and deletions keeps I1 and I2, and leaves every existing event unchanged |
| Store.LastSeat | src/index.ts:143-150 | with one seat, the first booking is admitted and the second refused with NoAvailableSeats; after the first ticket is deleted, a third booking is admitted; its id differs from the first only because fresh ids come from a counter that never goes back |
| Store.OversellByUpdate | src/index.ts:222-234 | two bookings in two one-seat events, then one update, leave a well-formed store that breaks I1 while every ticket still belongs to an existing event |
| Store.OrphanAdoptedByNewEvent | src/index.ts:110-127 | after an update moves a ticket to the next unused event id, creating an event with no seats under that id leaves a well-formed store that breaks I1 |
| EventSearch.Params | src/index.ts:182-200 | one parameter per condition |
| EventSearch.BuildSearch | src/index.ts:177-200 | the query is the base query followed by the clauses of the given filters' conditions; the parameters are their values; the query starts with the base query; it has as many placeholders as there are parameters |
| EventSearch.QueryAfterSteps | src/index.ts:182-200 | after any number of `if` blocks, the query is the base followed by the clauses of the conditions added so far |
| EventSearch.ParamsAfterSteps | src/index.ts:182-200 | after any number of `if` blocks, the parameters are the values of the conditions added so far |
| EventSearch.ConditionsFollowFiltersBefore | src/index.ts:182-200 | among the first k filters, every condition comes from a given filter of lower rank and carries its value; every given filter has a condition; ranks strictly increase |
| EventSearch.ConditionsFollowFilters | src/index.ts:182-200 | the conditions are exactly those of the given filters, carry the filters' values, and come in the order category, name, startDate, endDate, each at most once |
| EventSearch.NameMatchesAsSubstring | src/index.ts:187-190 | a given name is bound as `%name%` |
| EventSearch.ClausePlaceholder | src/index.ts:183-198 | each clause has exactly one `?` |
| EventSearch.ClausesPlaceholders | src/index.ts:182-200 | the clauses of n conditions have n placeholders |
| EventSearch.BaseQueryHasNoPlaceholder | src/index.ts:179 | the base query has no placeholder |
| EventSearch.PlaceholdersMatchParams | src/index.ts:179-200 | the base query plus the clauses has as many placeholders as there are parameters |
| EventSearch.ClauseRecognised | src/index.ts:183-198 | each clause, followed by any text, is recognised as its own filter and not as another |
| EventSearch.ParamRecognised | src/index.ts:189 | the bound value of each condition gives that condition back; the `%` wrapping of a name is undone |
| EventSearch.ParseClausesBuilt | src/index.ts:182-200 | the clauses and parameters of any list of conditions parse back to that list |
| EventSearch.SearchRoundTrip | src/index.ts:177-200 | the query and parameters of any search parse back to its conditions, so each placeholder is bound to its own filter's value |

## Left out

- Concurrency: the handlers read the count and insert in two separate callbacks, so concurrent bookings can both pass the check. The model runs handlers one at a time and says nothing about interleavings.
- Persistence failures: every `err` branch of the handlers is left out. This includes the 400 answers on a store error, retries and rollback. The model's store never fails.
- SQLite semantics: `LIKE` matching, date comparison as text, type affinity of path parameters, reuse of row ids, and foreign keys are not modelled. Fresh ids come from counters that only grow. The database setup file is not part of this model.
- Request parsing: path parameters and the user id from the token are integers in the model. A missing user, a non-numeric id and non-string body values are not modelled.
- Validation of name, date and description, and express-validator's message texts, are not modelled. Only the availableSeats and category rules are.
- Store.TicketStore.CreateEvent: rejects a body only for those two rules. It returns the model's own error list, not express-validator's error objects.
- Array-valued query parameters such as `?category=a&category=b` are not modelled. Each filter is an optional string.
- EventSearch.BuildSearch: stops at the query and its parameters. Running the query, SQL's meaning of the text, and the rows it returns are not modelled.
- Reads with no state change are not modelled: listing users, listing an event's tickets, and a user's booked events. Registration, login, tokens and password hashing, and the daily reminder job are not modelled either. None of them changes the tickets table.
- Store.TicketStore.UpdateTicket: promises neither I1 nor I2, because the handler checks neither capacity nor the event. Tickets.UpdateCanOversell and Store.OversellByUpdate show I1 breaking; Tickets.UpdateCanOrphan shows I2 breaking.
- Store.TicketStore.Book: answers with a BookingError value; the status codes and the error texts of the responses are not modelled.
- Store.LastSeat: under SQLite's usual row ids, deleting the only ticket and booking again can give the new ticket the old id; the model's counter never reuses one.
