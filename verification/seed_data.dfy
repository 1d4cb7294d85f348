/** The `/seed_db` fixture: wipe every table, bulk-insert tickets, customers
    and agents in that order, then link rows that hold the internal ids the
    inserts assigned. */
module SeedData {
  import opened Outcomes
  import opened Records
  import opened Associations
  import opened TicketStore
  import opened TicketQueries
  import opened TicketCommands
  import opened PrioritySort

  /** The columns of a customer or agent row supplied to `bulkCreate`. */
  datatype PartyFields = PartyFields(externalId: int, name: string, email: string)

  const SeedTickets: seq<TicketFields> := [
    TicketFields(1, "Login Issue", "Cannot login to account", "open", 3, 1, 1),
    TicketFields(2, "Payment Failure", "Payment not processed", "closed", 1, 2, 2),
    TicketFields(3, "Bug Report", "Found a bug in the system", "open", 2, 1, 1)
  ]

  const SeedCustomers: seq<PartyFields> := [
    PartyFields(1, "Alice", "alice@example.com"),
    PartyFields(2, "Bob", "bob@example.com")
  ]

  const SeedAgents: seq<PartyFields> := [
    PartyFields(1, "Charlie", "charlie@example.com"),
    PartyFields(2, "Dave", "dave@example.com")
  ]

  /** `ticket.bulkCreate(rows)`: append the rows in order, numbering them from
      the autoincrement counter. */
  function BulkCreateTickets(s: Store, rows: seq<TicketFields>): (r: Store)
    ensures |r.tickets| == |s.tickets| + |rows|
    ensures r.tickets[..|s.tickets|] == s.tickets
    ensures forall i :: 0 <= i < |rows| ==> r.tickets[|s.tickets| + i] == Ticket(s.nextId + i, rows[i])
    ensures r.nextId == s.nextId + |rows|
    ensures r.customers == s.customers && r.agents == s.agents
    ensures r.customerLinks == s.customerLinks && r.agentLinks == s.agentLinks
    decreases |rows|
  {
    if rows == [] then s
    else
      var next := s.(tickets := s.tickets + [Ticket(s.nextId, rows[0])], nextId := s.nextId + 1);
      var r := BulkCreateTickets(next, rows[1..]);
      assert r.tickets[..|s.tickets|] == next.tickets[..|next.tickets|][..|s.tickets|];
      assert r.tickets[|s.tickets|] == next.tickets[|s.tickets|];
      forall i | 1 <= i < |rows|
        ensures r.tickets[|s.tickets| + i] == Ticket(s.nextId + i, rows[i])
      {
        assert rows[1..][i - 1] == rows[i];
      }
      r
  }

  /** `customer.bulkCreate(rows)` / `agent.bulkCreate(rows)`: append the rows
      to `table` in order, numbering them from the table's autoincrement
      counter `nextId`. */
  function BulkCreateParties(table: seq<Party>, nextId: int, rows: seq<PartyFields>): (r: seq<Party>)
    ensures |r| == |table| + |rows|
    ensures r[..|table|] == table
    ensures forall i :: 0 <= i < |rows| ==>
      r[|table| + i] == Party(nextId + i, rows[i].externalId, rows[i].name, rows[i].email)
    decreases |rows|
  {
    if rows == [] then table
    else
      var next := table + [Party(nextId, rows[0].externalId, rows[0].name, rows[0].email)];
      var r := BulkCreateParties(next, nextId + 1, rows[1..]);
      assert r[..|table|] == next[..|next|][..|table|];
      assert r[|table|] == next[|table|];
      forall i | 1 <= i < |rows|
        ensures r[|table| + i] == Party(nextId + i, rows[i].externalId, rows[i].name, rows[i].email)
      {
        assert rows[1..][i - 1] == rows[i];
      }
      r
  }

  const Alice: Party := Party(1, 1, "Alice", "alice@example.com")
  const Bob: Party := Party(2, 2, "Bob", "bob@example.com")
  const Charlie: Party := Party(1, 1, "Charlie", "charlie@example.com")
  const Dave: Party := Party(2, 2, "Dave", "dave@example.com")

  /** The link rows the fixture writes to both link tables. */
  const SeedLinkRows: seq<Link> := [Link(1, 1), Link(3, 1), Link(2, 2)]

  /** `GET /seed_db`: the whole store is replaced by the fixture. The inserts
      number tickets 1 to 3 and each party table 1 to 2, and the link rows
      pair `tickets[k].id` with `customers[k].id` / `agents[k].id`, both
      internal ids. */
  function Seed(): (s: Store)
    ensures Valid(s)
    ensures s.tickets == [Ticket(1, SeedTickets[0]), Ticket(2, SeedTickets[1]), Ticket(3, SeedTickets[2])]
    ensures s.customers == [Alice, Bob] && s.agents == [Charlie, Dave]
    ensures s.customerLinks == SeedLinkRows && s.agentLinks == SeedLinkRows
    ensures s.nextId == 4
  {
    var s0 := BulkCreateTickets(Empty, SeedTickets);
    var customers := BulkCreateParties([], 1, SeedCustomers);
    var agents := BulkCreateParties([], 1, SeedAgents);
    var t := s0.tickets;
    assert t[0] == Ticket(1, SeedTickets[0]);
    assert t[1] == Ticket(2, SeedTickets[1]);
    assert t[2] == Ticket(3, SeedTickets[2]);
    assert t == [t[0], t[1], t[2]];
    assert customers == [customers[0], customers[1]];
    assert agents == [agents[0], agents[1]];
    s0.(
      customers := customers,
      agents := agents,
      customerLinks := [Link(t[0].id, customers[0].id), Link(t[2].id, customers[0].id), Link(t[1].id, customers[1].id)],
      agentLinks := [Link(t[0].id, agents[0].id), Link(t[2].id, agents[0].id), Link(t[1].id, agents[1].id)])
  }

  /** In the fixture each party's internal id equals its external id, which
      is why link rows holding internal ids still find the intended party. */
  lemma SeedKeysCoincide()
    ensures forall p :: p in Seed().customers ==> p.id == p.externalId
    ensures forall p :: p in Seed().agents ==> p.id == p.externalId
    ensures forall l :: l in Seed().customerLinks ==> exists p :: p in Seed().customers && p.id == l.partyId
    ensures forall l :: l in Seed().agentLinks ==> exists p :: p in Seed().agents && p.id == l.partyId
  {
    var s := Seed();
    assert s.customers == [Alice, Bob] && s.agents == [Charlie, Dave];
    LinkRowsNameParties(s.customers);
    LinkRowsNameParties(s.agents);
  }

  /** Every fixture link row names party 1 or party 2, so it names a row of
      any party table numbered 1, 2. */
  lemma LinkRowsNameParties(parties: seq<Party>)
    requires |parties| == 2 && parties[0].id == 1 && parties[1].id == 2
    ensures forall l :: l in SeedLinkRows ==> exists p :: p in parties && p.id == l.partyId
  {
    forall l | l in SeedLinkRows ensures exists p :: p in parties && p.id == l.partyId {
      if l.partyId == 1 {
        assert parties[0] in parties;
      } else {
        assert parties[1] in parties;
      }
    }
  }

  /** Each fixture ticket has exactly one link row: tickets 1 and 3 point at
      party 1, ticket 2 at party 2. */
  lemma SeedLinkRowsPerTicket()
    ensures LinksFor(SeedLinkRows, 1) == [Link(1, 1)]
    ensures LinksFor(SeedLinkRows, 2) == [Link(2, 2)]
    ensures LinksFor(SeedLinkRows, 3) == [Link(3, 1)]
  {
  }

  /** Over the fixture's link rows, tickets 1 and 3 resolve to Alice and
      ticket 2 to Bob. */
  lemma FixtureCustomers()
    ensures Resolve(SeedLinkRows, [Alice, Bob], 1) == Found(Alice)
    ensures Resolve(SeedLinkRows, [Alice, Bob], 2) == Found(Bob)
    ensures Resolve(SeedLinkRows, [Alice, Bob], 3) == Found(Alice)
  {
    SeedLinkRowsPerTicket();
    SingleRowResolves(SeedLinkRows, [Alice, Bob], 1, 1);
    SingleRowResolves(SeedLinkRows, [Alice, Bob], 2, 2);
    SingleRowResolves(SeedLinkRows, [Alice, Bob], 3, 1);
    assert Lookup([Alice, Bob], 1) == Found(Alice);
    assert Lookup([Alice, Bob], 2) == Found(Bob);
  }

  /** Over the fixture's link rows, tickets 1 and 3 resolve to Charlie and
      ticket 2 to Dave. */
  lemma FixtureAgents()
    ensures Resolve(SeedLinkRows, [Charlie, Dave], 1) == Found(Charlie)
    ensures Resolve(SeedLinkRows, [Charlie, Dave], 2) == Found(Dave)
    ensures Resolve(SeedLinkRows, [Charlie, Dave], 3) == Found(Charlie)
  {
    SeedLinkRowsPerTicket();
    SingleRowResolves(SeedLinkRows, [Charlie, Dave], 1, 1);
    SingleRowResolves(SeedLinkRows, [Charlie, Dave], 2, 2);
    SingleRowResolves(SeedLinkRows, [Charlie, Dave], 3, 1);
    assert Lookup([Charlie, Dave], 1) == Found(Charlie);
    assert Lookup([Charlie, Dave], 2) == Found(Dave);
  }

  /** The fixture's listing, in store order. */
  lemma SeedListing()
    ensures ListAll(Seed()) == [
      TicketView(Ticket(1, SeedTickets[0]), Found(Alice), Found(Charlie)),
      TicketView(Ticket(2, SeedTickets[1]), Found(Bob), Found(Dave)),
      TicketView(Ticket(3, SeedTickets[2]), Found(Alice), Found(Charlie))]
  {
    var s := Seed();
    FixtureCustomers();
    FixtureAgents();
    var views := ListAll(s);
    assert views[0] == View(s, s.tickets[0]);
    assert views[1] == View(s, s.tickets[1]);
    assert views[2] == View(s, s.tickets[2]);
  }

  /** The first open ticket is "Login Issue", shown with customer Alice and
      agent Charlie. */
  lemma SeedFirstOpenTicket()
    ensures GetFirstByStatus(Seed(), "open") == Ok(TicketView(Ticket(1, SeedTickets[0]), Found(Alice), Found(Charlie)))
    ensures GetFirstByStatus(Seed(), "open").value.ticket.fields.title == "Login Issue"
    ensures GetFirstByStatus(Seed(), "open").value.customer.party.name == "Alice"
    ensures GetFirstByStatus(Seed(), "open").value.agent.party.name == "Charlie"
  {
    SeedListing();
    assert Seed().tickets[0].fields.status == "open";
  }

  /** Position 2 is "Payment Failure"; positions 0 and 99 are outside the
      list and report not-found. */
  lemma SeedPositions()
    ensures GetByPosition(Seed(), 2) == Ok(TicketView(Ticket(2, SeedTickets[1]), Found(Bob), Found(Dave)))
    ensures GetByPosition(Seed(), 2).value.ticket.fields.title == "Payment Failure"
    ensures GetByPosition(Seed(), 99) == Err(NotFound)
    ensures GetByPosition(Seed(), 0) == Err(NotFound)
  {
    SeedListing();
  }

  /** Three views of priorities 3, 1, 2 sort to the order 1, 2, 3. */
  lemma SortThree(v0: TicketView, v1: TicketView, v2: TicketView)
    requires Priority(v0) == 3 && Priority(v1) == 1 && Priority(v2) == 2
    ensures Sort([v0, v1, v2]) == [v1, v2, v0]
  {
    assert [v0, v1, v2][1..] == [v1, v2] && [v1, v2][1..] == [v2] && [v2][1..] == [];
    assert Sort([v2]) == [v2];
    assert Insert(v1, [v2]) == [v1, v2];
    assert Sort([v1, v2]) == [v1, v2];
    assert [v1, v2][1..] == [v2];
    assert Insert(v0, [v2]) == [v2, v0];
    assert Insert(v0, [v1, v2]) == [v1, v2, v0];
  }

  /** Sorting the fixture by priority gives "Payment Failure", "Bug Report",
      "Login Issue". */
  lemma SeedSortedByPriority()
    ensures ListSortedByPriority(Seed()) == [
      TicketView(Ticket(2, SeedTickets[1]), Found(Bob), Found(Dave)),
      TicketView(Ticket(3, SeedTickets[2]), Found(Alice), Found(Charlie)),
      TicketView(Ticket(1, SeedTickets[0]), Found(Alice), Found(Charlie))]
  {
    SeedListing();
    SortThree(
      TicketView(Ticket(1, SeedTickets[0]), Found(Alice), Found(Charlie)),
      TicketView(Ticket(2, SeedTickets[1]), Found(Bob), Found(Dave)),
      TicketView(Ticket(3, SeedTickets[2]), Found(Alice), Found(Charlie)));
  }

  /** Lookup by position is an offset, not the external `ticketId`: once
      ticket 1 is deleted, position 2 holds the ticket whose `ticketId` is 3. */
  lemma PositionIsOffsetNotTicketId()
    ensures GetByPosition(DeleteRows(Seed(), 1), 2).Ok?
    ensures GetByPosition(DeleteRows(Seed(), 1), 2).value.ticket.fields.ticketId == 3
  {
    var s := Seed();
    DeleteRemovesExactlyOne(s, 0);
    assert DeleteRows(s, 1).tickets == [Ticket(2, SeedTickets[1]), Ticket(3, SeedTickets[2])];
  }
}
