/** The in-memory store behind the ticket service and the view assembly of
    `getTicketDetails`. */
module TicketStore {
  import opened Outcomes
  import opened Records
  import opened Associations

  /** All five tables, each in insertion order, plus the ticket table's
      autoincrement counter. */
  datatype Store = Store(
    tickets: seq<Ticket>,
    customers: seq<Party>,
    agents: seq<Party>,
    customerLinks: seq<Link>,
    agentLinks: seq<Link>,
    nextId: int)

  /** The store right after `sync({ force: true })`: every table empty and the
      ticket ids restarting at 1. */
  const Empty: Store := Store([], [], [], [], [], 1)

  /** Ticket internal ids are distinct and all below the autoincrement counter. */
  ghost predicate Valid(s: Store)
  {
    && (forall i :: 0 <= i < |s.tickets| ==> s.tickets[i].id < s.nextId)
    && DistinctIds(s.tickets)
  }

  /** The ticket's customer as `getTicketCustomers(ticket.id)` resolves it. */
  function CustomerOf(s: Store, ticketId: int): (r: Resolved)
    ensures r == LastLinkWins(s.customerLinks, s.customers, ticketId)
  {
    Resolve(s.customerLinks, s.customers, ticketId)
  }

  /** The ticket's agent as `getTicketAgents(ticket.id)` resolves it. */
  function AgentOf(s: Store, ticketId: int): (r: Resolved)
    ensures r == LastLinkWins(s.agentLinks, s.agents, ticketId)
  {
    Resolve(s.agentLinks, s.agents, ticketId)
  }

  /** `getTicketDetails(ticket)`: exactly the row's own columns plus the
      customer and agent of its last link rows. */
  function View(s: Store, t: Ticket): (v: TicketView)
    ensures v.ticket == t
    ensures v.customer == LastLinkWins(s.customerLinks, s.customers, t.id)
    ensures v.agent == LastLinkWins(s.agentLinks, s.agents, t.id)
  {
    TicketView(t, CustomerOf(s, t.id), AgentOf(s, t.id))
  }

  /** The `for ... of` loop that pushes one view per row of `rows`. */
  function ViewsOf(s: Store, rows: seq<Ticket>): (r: seq<TicketView>)
    ensures |r| == |rows|
    ensures forall i :: 0 <= i < |rows| ==> r[i].ticket == rows[i]
    ensures forall i :: 0 <= i < |rows| ==>
      r[i].customer == LastLinkWins(s.customerLinks, s.customers, rows[i].id)
      && r[i].agent == LastLinkWins(s.agentLinks, s.agents, rows[i].id)
  {
    if rows == [] then [] else [View(s, rows[0])] + ViewsOf(s, rows[1..])
  }

  /** `GET /tickets`: one view per ticket row, in store order. */
  function ListAll(s: Store): (r: seq<TicketView>)
    ensures |r| == |s.tickets|
    ensures forall i :: 0 <= i < |r| ==> r[i] == View(s, s.tickets[i])
  {
    ViewsOf(s, s.tickets)
  }

  /** The ticket rows left by `ticket.destroy({ where: { id } })`. */
  function WithoutTicket(tickets: seq<Ticket>, id: int): (r: seq<Ticket>)
    ensures |r| <= |tickets|
    ensures forall t :: t in r <==> t in tickets && t.id != id
    ensures (forall j :: 0 <= j < |tickets| ==> tickets[j].id != id) ==> r == tickets
  {
    if tickets == [] then []
    else (if tickets[0].id != id then [tickets[0]] else []) + WithoutTicket(tickets[1..], id)
  }

  /** Destroying by id removes at least one row whenever some row has that id. */
  lemma {:induction false} WithoutTicketShrinks(tickets: seq<Ticket>, id: int)
    ensures (exists i :: 0 <= i < |tickets| && tickets[i].id == id) ==>
      |WithoutTicket(tickets, id)| < |tickets|
  {
    if tickets != [] && tickets[0].id != id && exists i :: 0 <= i < |tickets| && tickets[i].id == id {
      var k :| 0 <= k < |tickets| && tickets[k].id == id;
      assert tickets[1..][k - 1] == tickets[k];
      WithoutTicketShrinks(tickets[1..], id);
    }
  }

  /** No two rows share an internal id. */
  ghost predicate DistinctIds(tickets: seq<Ticket>)
  {
    forall i, j :: 0 <= i < j < |tickets| ==> tickets[i].id != tickets[j].id
  }

  /** With distinct ids, destroying by id cuts out exactly the one matching
      row and keeps the others in order. */
  lemma {:induction false} WithoutUniqueTicket(tickets: seq<Ticket>, k: nat)
    requires k < |tickets|
    requires DistinctIds(tickets)
    ensures WithoutTicket(tickets, tickets[k].id) == tickets[..k] + tickets[k + 1..]
  {
    var id := tickets[k].id;
    var tail := tickets[1..];
    DistinctTail(tickets);
    if k == 0 {
      assert forall j :: 0 <= j < |tail| ==> tail[j].id != id;
      assert WithoutTicket(tickets, id) == [] + WithoutTicket(tail, id);
      assert tickets[..0] + tickets[1..] == tail;
    } else {
      assert tail[k - 1] == tickets[k];
      assert WithoutTicket(tickets, id) == [tickets[0]] + WithoutTicket(tail, id);
      WithoutUniqueTicket(tail, k - 1);
      SplitAfterHead(tickets, k);
    }
  }

  /** Cutting out row `k > 0` keeps the head in front of the cut tail. */
  lemma SplitAfterHead(tickets: seq<Ticket>, k: nat)
    requires 0 < k < |tickets|
    ensures tickets[..k] + tickets[k + 1..] == [tickets[0]] + (tickets[1..][..k - 1] + tickets[1..][k..])
  {
  }

  /** Distinct ids stay distinct after dropping the first row, which no later row shares. */
  lemma DistinctTail(tickets: seq<Ticket>)
    requires |tickets| > 0 && DistinctIds(tickets)
    ensures DistinctIds(tickets[1..])
    ensures forall j :: 1 <= j < |tickets| ==> tickets[j].id != tickets[0].id
  {
    var tail := tickets[1..];
    forall i, j | 0 <= i < j < |tail| ensures tail[i].id != tail[j].id {
      assert tail[i] == tickets[i + 1] && tail[j] == tickets[j + 1];
    }
  }
}
