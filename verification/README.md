# Support-ticket store: a Dafny model

This project models the core of the `BD5_Assignment1` support-ticket
service. The service keeps tickets, customers and agents, and links each
ticket to a customer and an agent through two append-only join tables,
`ticketCustomer` and `ticketAgent`. The Express handlers and the Sequelize
calls behind them are restated here as pure functions over one immutable
`Store`. Each handler's database calls run in the handler's program order.

The store (`TicketStore.Store`) holds:

- the ticket rows in insertion order, each with an internal `id`;
- the customer rows and the agent rows, which share one shape (`Records.Party`);
- the two link tables in insertion order (`Records.Link`);
- the ticket table's autoincrement counter.

The modules follow the service's parts:

- `Records`: the row shapes. `TicketView` is the object `getTicketDetails` builds.
- `Outcomes`: `Option` and `Result`. A failure is always `NotFound`.
- `Search`: the first-match search shared by `find` and every `findOne`.
- `Associations`: selecting and destroying link rows, the `findOne` lookup of
  a customer or agent by its external id, and the overwrite loop of
  `getTicketCustomers` / `getTicketAgents`. That loop is proved equal to a
  last-link-wins reference, `LastLinkWins`.
- `TicketStore`: the store, its invariant `Valid`, view assembly and listing.
- `PrioritySort`: the priority sort as an insertion sort. It is proved sorted,
  a permutation and stable. It is also proved to be the only result with
  those properties, so it matches any stable sort, `Array.prototype.sort`
  included.
- `TicketQueries`: lookup by position, first match by status, the sorted listing.
- `TicketCommands`: create, partial update, cascading delete.
- `SeedData`: the `/seed_db` fixture and example lemmas over it.

Decisions that follow the code:

- The lookup matches a link row's `customerId` / `agentId` against the
  party's *external* `customerId` / `agentId` column. The seed stores
  *internal* ids in the link rows. The model keeps this mismatch.
  `InternalKeyResolvesByExternalId` shows it resolving to the wrong party, and
  `SeedKeysCoincide` shows why the fixture still resolves correctly.
- The resolution is three-valued: `Undefined` when the ticket has no link
  row, `Null` when the last row's lookup finds nothing, and `Found` otherwise.
  A last row that finds nothing gives `Null` even when an earlier row would
  have matched.
- Update replaces a link set only when the sent id is truthy, meaning sent
  and non-zero. It does so even when no ticket has that id.
  `StaleLinkIsShadowed` shows what that leaves behind.
- Building a view of `undefined` throws in the source. The position and
  status lookups report that as `Err(NotFound)`.
- An absent `customer` or `agent` is the JavaScript value `undefined`, kept
  as `Undefined`. How the JSON reply renders it is left out.

## Model

| member | source | states |
|---|---|---|
| `Associations.LinksForSelects` | BD5_Assignment1/index.js:72-74 | the rows `findAll({ where: { ticketId } })` selects are exactly the table's rows for that ticket |
| `Associations.LinksForAppend` | BD5_Assignment1/index.js:72-74 | the selection keeps insertion order: rows appended later come later |
| `Associations.Unlink` | BD5_Assignment1/index.js:214 | `destroy({ where: { ticketId } })` keeps exactly the rows of every other ticket |
| `Associations.LinksForUnlink` | BD5_Assignment1/index.js:238-239 | after destroying a ticket's rows it has none, and every other ticket has exactly the rows it had |
| `Associations.UnlinkIdempotent` | BD5_Assignment1/index.js:218 | destroying a ticket's rows twice removes nothing more |
| `Associations.UnlinkAppend` | BD5_Assignment1/index.js:214-215 | destroying distributes over appended rows, so a row created after the destroy is kept when it belongs to another ticket |
| `Search.FirstIndex` | BD5_Assignment1/index.js:143 | the search behind `find` here and every `findOne({ where })`: the first position whose element matches, with no match before it, or none when nothing matches |
| `Associations.Lookup` | BD5_Assignment1/index.js:78-80 | `findOne({ where: { customerId: key } })` (or `agentId`) is never undefined; it finds the first stored party whose external id is the key, and is null iff no party has that key |
| `Associations.DuplicateKeyFindsFirst` | BD5_Assignment1/index.js:92-94 | when two parties share an external id, `findOne` returns the earlier one |
| `Associations.ScanIsLast` | BD5_Assignment1/index.js:76-82 | the overwrite loop returns the lookup of the last row it visits, or its initial value when there are no rows |
| `Associations.Resolve` | BD5_Assignment1/index.js:71-97 | a ticket's customer/agent is the lookup of its last link row, undefined iff the ticket has no link row |
| `Associations.EarlierRowsShadowed` | BD5_Assignment1/index.js:76-82 | once later rows hold a row for the ticket, all earlier rows have no effect on the result |
| `Associations.AppendedRowWins` | BD5_Assignment1/index.js:90-96 | appending a row for the ticket makes it resolve to that row's lookup, whatever came before |
| `Associations.SingleRowResolves` | BD5_Assignment1/index.js:90-96 | a ticket with exactly one link row resolves to that row's lookup |
| `Associations.AppendedRowIsolated` | BD5_Assignment1/index.js:86-88 | appending a row for another ticket leaves this ticket's resolution unchanged |
| `Associations.FoundMatchesExternalKey` | BD5_Assignment1/index.js:78-79 | a found party is a stored party whose external id equals the key of a link row of that ticket |
| `Associations.InternalKeyResolvesByExternalId` | BD5_Assignment1/index.js:56-64 | a link row holding an internal id resolves to the party whose external id has that value, here Bob instead of Alice |
| `Associations.MissingLastRowYieldsNull` | BD5_Assignment1/index.js:77-81 | a last row that matches nobody gives null even though an earlier row matches |
| `TicketStore.CustomerOf` | BD5_Assignment1/index.js:101 | a view's customer is the last-link-wins customer of the ticket's internal id |
| `TicketStore.AgentOf` | BD5_Assignment1/index.js:102 | a view's agent is the last-link-wins agent of the ticket's internal id |
| `TicketStore.View` | BD5_Assignment1/index.js:100-108 | a view is exactly the ticket row plus its last-link-wins customer and agent |
| `TicketStore.ViewsOf` | BD5_Assignment1/index.js:117-121 | the push loop yields one view per row, in row order, each resolved by last link |
| `TicketStore.ListAll` | BD5_Assignment1/index.js:110-126 | the listing has one view per ticket row, in store order |
| `TicketStore.WithoutTicket` | BD5_Assignment1/index.js:240 | `ticket.destroy({ where: { id } })` keeps exactly the rows with other ids, and changes nothing when no row matches |
| `TicketStore.WithoutTicketShrinks` | BD5_Assignment1/index.js:240-241 | the destroy count is non-zero whenever some row has the id |
| `TicketStore.WithoutUniqueTicket` | BD5_Assignment1/index.js:240 | with distinct ids, destroying cuts out exactly the matching row and keeps the others in order |
| `PrioritySort.Sort` | BD5_Assignment1/index.js:164-166 | the sort is non-decreasing in priority, a permutation of its input, and keeps equal-priority views in input order |
| `PrioritySort.StableSortUnique` | BD5_Assignment1/index.js:164-166 | two sorted sequences with the same views at every priority are equal, so a stable sort's result is unique |
| `TicketQueries.GetByPosition` | BD5_Assignment1/index.js:128-137 | succeeds iff `1 <= id <= count`, with the listing's view at offset `id - 1`; otherwise not-found |
| `TicketQueries.GetFirstByStatus` | BD5_Assignment1/index.js:139-149 | succeeds iff some ticket has the status; the view is that of the first such ticket in store order; otherwise not-found |
| `TicketQueries.ListSortedByPriority` | BD5_Assignment1/index.js:155-171 | the sorted listing is sorted by priority, a permutation of the listing, and stable |
| `TicketQueries.SortedListingIsTheStableSort` | BD5_Assignment1/index.js:164-166 | any sorted, stable rearrangement of the listing equals the sorted listing |
| `TicketCommands.CreateRows` | BD5_Assignment1/index.js:176-185 | create appends one ticket row with the next id, and one agent and one customer link pointing at that id with the caller's raw ids |
| `TicketCommands.Create` | BD5_Assignment1/index.js:173-195 | the reply lists every ticket after the insert; the new ticket is last, showing the parties its raw ids look up |
| `TicketCommands.CreateAppendsOnce` | BD5_Assignment1/index.js:176 | on a valid store the new id is fresh, so the new ticket appears once, and the store stays valid |
| `TicketCommands.CreateKeepsOtherViews` | BD5_Assignment1/index.js:178-190 | creating a ticket leaves every earlier ticket's view unchanged |
| `TicketCommands.CreateAgentRows` | BD5_Assignment1/index.js:178-181 | the new ticket's agent rows are the rows already naming its id followed by the created one |
| `TicketCommands.ApplyLaws` | BD5_Assignment1/index.js:202 | `set(newTicketData)` overwrites exactly the sent columns: no columns change nothing, every column yields exactly the sent values, one column changes that column alone, repeating a patch changes nothing more, and a later patch wins on the columns it sends |
| `TicketCommands.TruthyCases` | BD5_Assignment1/index.js:213-217 | the guards `if (data.agentId)` / `if (data.customerId)` fail for an absent field and for `0`, and pass for every other number |
| `TicketCommands.ReplaceLinks` | BD5_Assignment1/index.js:213-223 | with a truthy id the ticket's link set becomes exactly one row to that id; other tickets' rows are untouched; a falsy or absent id changes nothing |
| `TicketCommands.UpdateRow` | BD5_Assignment1/index.js:197-206 | a missing id leaves the rows unchanged; otherwise only the first row with the id gets the sent columns; ids never change |
| `TicketCommands.UpdateRows` | BD5_Assignment1/index.js:208-223 | the update writes the row, then replaces each link set whose sent id is truthy, even for a missing ticket; the ticket then resolves to the sent ids |
| `TicketCommands.Update` | BD5_Assignment1/index.js:224-230 | the reply lists every ticket, and any ticket with that id shows the newly sent agent and customer |
| `TicketCommands.UpdateKeepsValid` | BD5_Assignment1/index.js:197-206 | an update keeps ticket ids distinct and below the counter |
| `TicketCommands.UpdateKeepsOtherViews` | BD5_Assignment1/index.js:212-229 | every ticket with another id keeps its view |
| `TicketCommands.UpdateOfUnusedId` | BD5_Assignment1/index.js:197-216 | an agent-only update of an id no ticket has leaves the ticket rows alone but leaves exactly one agent link row for that id |
| `TicketCommands.StaleLinkIsShadowed` | BD5_Assignment1/index.js:213-216 | an update of a not-yet-created id leaves tickets unchanged but writes a link; the ticket created next inherits it, and its own later row wins |
| `TicketCommands.DeleteRows` | BD5_Assignment1/index.js:236-240 | after delete no customer link, agent link or ticket row has the id; other tickets' rows and links are unchanged |
| `TicketCommands.Delete` | BD5_Assignment1/index.js:236-258 | delete reports success naming the id iff a ticket row with it existed; otherwise not-found |
| `TicketCommands.DeleteTwiceNotFound` | BD5_Assignment1/index.js:241-243 | a second delete of the same id reports not-found |
| `TicketCommands.DeleteRemovesExactlyOne` | BD5_Assignment1/index.js:240-244 | on a valid store deleting an existing id removes exactly that row, keeps the rest in order, and reports success |
| `TicketCommands.DeleteKeepsValid` | BD5_Assignment1/index.js:240 | delete keeps ticket ids distinct and below the counter |
| `TicketCommands.DeleteKeepsOtherViews` | BD5_Assignment1/index.js:236-240 | after delete no listed view has the id, and every remaining ticket keeps its view |
| `SeedData.BulkCreateTickets` | BD5_Assignment1/index.js:15-43 | `bulkCreate` appends the rows in order with consecutive ids from the counter and touches no other table |
| `SeedData.BulkCreateParties` | BD5_Assignment1/index.js:45-53 | `bulkCreate` appends the customer or agent rows in order, numbered consecutively from the table counter, so after `sync` they get internal ids 1, 2, … |
| `SeedData.Seed` | BD5_Assignment1/index.js:12-68 | the seeded store holds tickets 1-3, Alice/Bob, Charlie/Dave, and link rows pairing internal ids (1,1), (3,1), (2,2); it is valid |
| `SeedData.SeedKeysCoincide` | BD5_Assignment1/index.js:55-65 | in the fixture each party's internal id equals its external id, and every customer link and every agent link names a stored customer or agent |
| `SeedData.SeedLinkRowsPerTicket` | BD5_Assignment1/index.js:55-65 | each fixture ticket has exactly one link row of each kind |
| `SeedData.FixtureCustomers` | BD5_Assignment1/index.js:55-59 | over the fixture, tickets 1 and 3 resolve to Alice and ticket 2 to Bob |
| `SeedData.FixtureAgents` | BD5_Assignment1/index.js:61-65 | over the fixture, tickets 1 and 3 resolve to Charlie and ticket 2 to Dave |
| `SeedData.SeedListing` | BD5_Assignment1/index.js:110-126 | the seeded listing is Login Issue, Payment Failure, Bug Report, with their customers and agents |
| `SeedData.SeedFirstOpenTicket` | BD5_Assignment1/index.js:139-145 | the first open ticket of the seed is "Login Issue" with customer Alice and agent Charlie |
| `SeedData.SeedPositions` | BD5_Assignment1/index.js:130-132 | position 2 of the seed is "Payment Failure"; positions 0 and 99 report not-found |
| `SeedData.SortThree` | BD5_Assignment1/index.js:164-166 | views of priorities 3, 1, 2 sort to the order 1, 2, 3 |
| `SeedData.SeedSortedByPriority` | BD5_Assignment1/index.js:155-171 | the seed sorted by priority is Payment Failure, Bug Report, Login Issue |
| `SeedData.PositionIsOffsetNotTicketId` | BD5_Assignment1/index.js:130-132 | after deleting ticket 1, position 2 holds the ticket whose `ticketId` is 3 |

## Left out

- Express routing, HTTP status codes, JSON serialisation and `app.listen`. These are transport.
- Sequelize itself: `sync`, connections, async sequencing and storage failures. Each call is a pure sequence operation, run in program order.
- Concurrent requests. Each handler runs alone. Two update requests at once would also share the update loop's counter `i`, which is never declared and so is a global.
- Row order of queries without `order`. `findAll` and `findOne` are assumed to return rows in insertion order, which SQL does not promise. A store that serves the link lookup from the (ticketId, partyId) key would return a ticket's rows sorted by party id. The following hold only under the insertion-order assumption: `Resolve`, `EarlierRowsShadowed`, `AppendedRowWins`, `StaleLinkIsShadowed` and `Lookup`'s first-row choice on the link and party tables; `ListAll`, `GetByPosition`, `GetFirstByStatus`, `Create`'s new-ticket-last and the input order that `ListSortedByPriority` keeps stable on the ticket table.
- Storage errors and the 500 replies built from them. The only modelled failure is `NotFound`.
- The `{ error: error.json }` payload of the status handler. It only changes the error text.
- The unused async comparator `sortTicketsByPriority`. It is never called.
- Foreign keys and uniqueness of the link tables. `ticketCustomer.model.js` declares `references` to `ticket.id` and `customer.id`, and `belongsToMany(..., { through })` keys a through table on its id pair. The model assumes the store enforces neither, so every link write succeeds. `StaleLinkIsShadowed` and `UpdateOfUnusedId` describe behaviour only under that assumption. A store that enforces them would reject a link to a missing ticket or party, or a repeated pair, with a 500 reply.
- Timestamps, and the contents of names and emails. They are opaque strings.
- Type coercion of request values. Route `:id` and body fields are modelled as integers. Non-numeric or fractional values are not modelled.
- A body `id` on create. `ticket.create(newTicket)` would honour it; the model always assigns the counter. On update the model already matches the source: `set` on a loaded instance skips its primary key, so `UpdateRow` never changes an id.
- Create bodies with missing columns. `TicketFields` has every column present.
- The text of the delete message. `Ok(id)` stands for "Ticket with ID id deleted successfully.".
- `TicketCommands.Truthy`: treats only sent non-zero integers as truthy. `NaN` and non-number values are not modelled.
