/** The row shapes of the ticket, customer, agent and link tables. */
module Records {

  /** The caller-supplied columns of a ticket row. `customerId` and `agentId`
      are denormalised copies written at creation; the link tables, not these
      columns, decide which customer and agent a ticket shows. */
  datatype TicketFields = TicketFields(
    ticketId: int,
    title: string,
    description: string,
    status: string,
    priority: int,
    customerId: int,
    agentId: int)

  /** A stored ticket row: the internal id assigned on insert plus its columns. */
  datatype Ticket = Ticket(id: int, fields: TicketFields)

  /** A customer or an agent row; the two tables have the same shape.
      `id` is the internal id, `externalId` the `customerId` / `agentId` column. */
  datatype Party = Party(id: int, externalId: int, name: string, email: string)

  /** A row of `ticketCustomer` or `ticketAgent`; `partyId` is its
      `customerId` / `agentId` column. */
  datatype Link = Link(ticketId: int, partyId: int)

  /** What resolving a ticket's customer or agent yields: `Undefined` when the
      ticket has no link row, `Null` when the last row's lookup found nothing. */
  datatype Resolved = Undefined | Null | Found(party: Party)

  /** The object `getTicketDetails` builds: the row's own columns (including
      its internal id) plus the resolved `customer` and `agent`. */
  datatype TicketView = TicketView(ticket: Ticket, customer: Resolved, agent: Resolved)
}
