/** The mutating handlers of the ticket service: create, partial update and
    cascading delete, each run in the handler's program order. */
module TicketCommands {
  import opened Outcomes
  import opened Records
  import opened Search
  import opened Associations
  import opened TicketStore

  // ---------------------------------------------------------------- create

  /** The writes of `POST /tickets/new`: insert the row with the next
      internal id, then one agent link and one customer link keyed by the
      caller's raw ids, with no check that such an agent or customer exists. */
  function CreateRows(s: Store, input: TicketFields): (r: Store)
    ensures r.tickets == s.tickets + [Ticket(s.nextId, input)]
    ensures r.agentLinks == s.agentLinks + [Link(s.nextId, input.agentId)]
    ensures r.customerLinks == s.customerLinks + [Link(s.nextId, input.customerId)]
    ensures r.customers == s.customers && r.agents == s.agents
    ensures r.nextId == s.nextId + 1
  {
    var inserted := s.(tickets := s.tickets + [Ticket(s.nextId, input)], nextId := s.nextId + 1);
    inserted.(
      agentLinks := s.agentLinks + [Link(s.nextId, input.agentId)],
      customerLinks := s.customerLinks + [Link(s.nextId, input.customerId)])
  }

  /** `POST /tickets/new`: the writes above, then the views of the ticket list
      (read after the insert, resolved after the links): the new ticket comes
      last, showing the customer and agent its raw ids look up. */
  function Create(s: Store, input: TicketFields): (r: (Store, seq<TicketView>))
    ensures r.0 == CreateRows(s, input)
    ensures r.1 == ListAll(r.0)
    ensures |r.1| == |s.tickets| + 1
    ensures r.1[|s.tickets|] == TicketView(Ticket(s.nextId, input),
      Lookup(s.customers, input.customerId), Lookup(s.agents, input.agentId))
  {
    var linked := CreateRows(s, input);
    AppendedRowWins(s.agentLinks, s.agents, s.nextId, input.agentId);
    AppendedRowWins(s.customerLinks, s.customers, s.nextId, input.customerId);
    (linked, ViewsOf(linked, linked.tickets))
  }

  /** On a valid store the created ticket gets a fresh id, so it appears
      once, at the end, and the store stays valid. */
  lemma CreateAppendsOnce(s: Store, input: TicketFields)
    requires Valid(s)
    ensures Valid(CreateRows(s, input))
    ensures forall i :: 0 <= i < |s.tickets| ==> CreateRows(s, input).tickets[i].id != s.nextId
  {
    var ts := CreateRows(s, input).tickets;
    assert DistinctIds(ts) by {
      forall i, j | 0 <= i < j < |ts| ensures ts[i].id != ts[j].id {
        if j < |s.tickets| {
          assert ts[i] == s.tickets[i] && ts[j] == s.tickets[j];
        } else {
          assert ts[i] == s.tickets[i];
        }
      }
    }
    forall i | 0 <= i < |s.tickets| ensures ts[i].id != s.nextId {
      assert ts[i] == s.tickets[i];
    }
  }

  /** Creating a ticket leaves every earlier ticket's view as it was: the two
      new link rows belong to the fresh id only. */
  lemma CreateKeepsOtherViews(s: Store, input: TicketFields)
    requires Valid(s)
    ensures forall i :: 0 <= i < |s.tickets| ==> Create(s, input).1[i] == View(s, s.tickets[i])
  {
    var r := CreateRows(s, input);
    forall i | 0 <= i < |s.tickets|
      ensures View(r, r.tickets[i]) == View(s, s.tickets[i])
    {
      var t := s.tickets[i];
      assert r.tickets[i] == t;
      AppendedRowIsolated(s.agentLinks, s.agents, t.id, Link(s.nextId, input.agentId));
      AppendedRowIsolated(s.customerLinks, s.customers, t.id, Link(s.nextId, input.customerId));
    }
  }

  // ---------------------------------------------------------------- update

  /** The body of `POST /tickets/update/:id`: each column the caller sent. */
  datatype TicketPatch = TicketPatch(
    ticketId: Option<int>,
    title: Option<string>,
    description: Option<string>,
    status: Option<string>,
    priority: Option<int>,
    customerId: Option<int>,
    agentId: Option<int>)

  /** A patch that sends no column. */
  const NoChanges: TicketPatch := TicketPatch(None, None, None, None, None, None, None)

  /** The sent value of one column, or the current one when it was not sent. */
  function Pick<T>(sent: Option<T>, current: T): T
  {
    match sent
    case None => current
    case Some(v) => v
  }

  /** `ticketDetails.set(newTicketData)`: overwrite exactly the sent columns. */
  function Apply(f: TicketFields, p: TicketPatch): TicketFields
  {
    TicketFields(
      Pick(p.ticketId, f.ticketId),
      Pick(p.title, f.title),
      Pick(p.description, f.description),
      Pick(p.status, f.status),
      Pick(p.priority, f.priority),
      Pick(p.customerId, f.customerId),
      Pick(p.agentId, f.agentId))
  }

  /** A patch that sends every column, with the values of `t`. */
  function Sending(t: TicketFields): TicketPatch
  {
    TicketPatch(Some(t.ticketId), Some(t.title), Some(t.description), Some(t.status),
      Some(t.priority), Some(t.customerId), Some(t.agentId))
  }

  /** The sent value of `later`, or else that of `earlier`. */
  function Latest<T>(earlier: Option<T>, later: Option<T>): Option<T>
  {
    if later.Some? then later else earlier
  }

  /** The columns of `p` overridden by those `q` sends. */
  function Then(p: TicketPatch, q: TicketPatch): TicketPatch
  {
    TicketPatch(Latest(p.ticketId, q.ticketId), Latest(p.title, q.title),
      Latest(p.description, q.description), Latest(p.status, q.status),
      Latest(p.priority, q.priority), Latest(p.customerId, q.customerId),
      Latest(p.agentId, q.agentId))
  }

  /** The laws of `set`: sending no column changes nothing; sending every
      column yields exactly the sent values, whatever the row held; sending
      one column changes that column alone; sending the same columns twice
      is sending them once; and of two patches the later one wins on every
      column it sends. */
  lemma ApplyLaws(f: TicketFields, p: TicketPatch, q: TicketPatch, t: TicketFields)
    ensures Apply(f, NoChanges) == f
    ensures Apply(f, Sending(t)) == t
    ensures Apply(f, NoChanges.(ticketId := Some(t.ticketId))) == f.(ticketId := t.ticketId)
    ensures Apply(f, NoChanges.(title := Some(t.title))) == f.(title := t.title)
    ensures Apply(f, NoChanges.(description := Some(t.description))) == f.(description := t.description)
    ensures Apply(f, NoChanges.(status := Some(t.status))) == f.(status := t.status)
    ensures Apply(f, NoChanges.(priority := Some(t.priority))) == f.(priority := t.priority)
    ensures Apply(f, NoChanges.(customerId := Some(t.customerId))) == f.(customerId := t.customerId)
    ensures Apply(f, NoChanges.(agentId := Some(t.agentId))) == f.(agentId := t.agentId)
    ensures Apply(Apply(f, p), p) == Apply(f, p)
    ensures Apply(Apply(f, p), q) == Apply(f, Then(p, q))
  {
  }

  /** JavaScript truthiness of a numeric body field: sent and not 0. */
  predicate Truthy(v: Option<int>)
  {
    v.Some? && v.value != 0
  }

  /** The truth table of `if (data.agentId)` / `if (data.customerId)`: an
      absent field and `0` are falsy, every other number is truthy. */
  lemma TruthyCases(n: int)
    ensures !Truthy(None)
    ensures !Truthy(Some(0))
    ensures Truthy(Some(n)) <==> n != 0
  {
  }

  /** `destroy({ where: { ticketId: id } })` then `create({ ticketId: id, ... })`
      on one link table, done only when the sent id is truthy. */
  function ReplaceLinks(links: seq<Link>, id: int, sent: Option<int>): (r: seq<Link>)
    ensures !Truthy(sent) ==> r == links
    ensures Truthy(sent) ==> LinksFor(r, id) == [Link(id, sent.value)]
    ensures Truthy(sent) ==> Unlink(r, id) == Unlink(links, id)
    ensures forall other :: other != id ==> LinksFor(r, other) == LinksFor(links, other)
  {
    if Truthy(sent) then
      var kept := Unlink(links, id);
      LinksForAppend(kept, [Link(id, sent.value)], id);
      LinksForUnlink(links, id, id);
      UnlinkAppend(kept, [Link(id, sent.value)], id);
      UnlinkIdempotent(links, id);
      forall other | other != id
        ensures LinksFor(kept + [Link(id, sent.value)], other) == LinksFor(links, other)
      {
        LinksForAppend(kept, [Link(id, sent.value)], other);
        LinksForUnlink(links, id, other);
      }
      kept + [Link(id, sent.value)]
    else links
  }

  /** `updateTicketDetailById`: find the first row with internal id `id`; if
      there is none, nothing changes; otherwise overwrite its sent columns. */
  function UpdateRow(tickets: seq<Ticket>, id: int, p: TicketPatch): (r: seq<Ticket>)
    ensures |r| == |tickets|
    ensures forall i :: 0 <= i < |r| ==> r[i].id == tickets[i].id
    ensures (forall i :: 0 <= i < |tickets| ==> tickets[i].id != id) ==> r == tickets
    ensures forall i :: 0 <= i < |tickets| && tickets[i].id != id ==> r[i] == tickets[i]
    ensures forall i :: 0 <= i < |tickets| ==>
      (tickets[i].id == id && (forall j :: 0 <= j < i ==> tickets[j].id != id)
       ==> r[i] == Ticket(id, Apply(tickets[i].fields, p)))
  {
    match FirstIndex(tickets, (t: Ticket) => t.id == id)
    case None => tickets
    case Some(k) => tickets[k := Ticket(id, Apply(tickets[k].fields, p))]
  }

  /** The writes of `POST /tickets/update/:id`: update the row, then replace
      the agent link set if `agentId` is truthy and the customer link set if
      `customerId` is truthy, even when no row has that id. */
  function UpdateRows(s: Store, id: int, p: TicketPatch): (r: Store)
    ensures r.tickets == UpdateRow(s.tickets, id, p)
    ensures r.customers == s.customers && r.agents == s.agents && r.nextId == s.nextId
    ensures !Truthy(p.agentId) ==> r.agentLinks == s.agentLinks
    ensures !Truthy(p.customerId) ==> r.customerLinks == s.customerLinks
    ensures Truthy(p.agentId) ==> LinksFor(r.agentLinks, id) == [Link(id, p.agentId.value)]
    ensures Truthy(p.customerId) ==> LinksFor(r.customerLinks, id) == [Link(id, p.customerId.value)]
    ensures Truthy(p.agentId) ==> AgentOf(r, id) == Lookup(s.agents, p.agentId.value)
    ensures Truthy(p.customerId) ==> CustomerOf(r, id) == Lookup(s.customers, p.customerId.value)
    ensures Unlink(r.agentLinks, id) == Unlink(s.agentLinks, id)
    ensures Unlink(r.customerLinks, id) == Unlink(s.customerLinks, id)
    ensures forall other :: other != id ==>
      LinksFor(r.customerLinks, other) == LinksFor(s.customerLinks, other)
      && LinksFor(r.agentLinks, other) == LinksFor(s.agentLinks, other)
  {
    var patched := s.(tickets := UpdateRow(s.tickets, id, p));
    UnlinkIdempotent(s.agentLinks, id);
    UnlinkIdempotent(s.customerLinks, id);
    patched.(
      agentLinks := ReplaceLinks(s.agentLinks, id, p.agentId),
      customerLinks := ReplaceLinks(s.customerLinks, id, p.customerId))
  }

  /** `POST /tickets/update/:id`: the writes above, then the views of every
      ticket; a ticket with that id shows the agent and customer just sent. */
  function Update(s: Store, id: int, p: TicketPatch): (r: (Store, seq<TicketView>))
    ensures r.0 == UpdateRows(s, id, p)
    ensures r.1 == ListAll(r.0)
    ensures |r.1| == |s.tickets|
    ensures forall i :: 0 <= i < |r.1| && r.1[i].ticket.id == id && Truthy(p.agentId) ==>
      r.1[i].agent == Lookup(s.agents, p.agentId.value)
    ensures forall i :: 0 <= i < |r.1| && r.1[i].ticket.id == id && Truthy(p.customerId) ==>
      r.1[i].customer == Lookup(s.customers, p.customerId.value)
  {
    var st := UpdateRows(s, id, p);
    (st, ListAll(st))
  }

  /** Updating keeps the store valid. */
  lemma UpdateKeepsValid(s: Store, id: int, p: TicketPatch)
    requires Valid(s)
    ensures Valid(UpdateRows(s, id, p))
  {
    var ts := UpdateRows(s, id, p).tickets;
    assert forall i :: 0 <= i < |ts| ==> ts[i].id == s.tickets[i].id;
  }

  /** Every ticket with another id keeps the view it had. */
  lemma UpdateKeepsOtherViews(s: Store, id: int, p: TicketPatch)
    ensures forall i :: 0 <= i < |s.tickets| && s.tickets[i].id != id ==>
      Update(s, id, p).1[i] == View(s, s.tickets[i])
  {
    var r := UpdateRows(s, id, p);
    forall i | 0 <= i < |s.tickets| && s.tickets[i].id != id
      ensures View(r, r.tickets[i]) == View(s, s.tickets[i])
    {
      assert r.tickets[i] == s.tickets[i];
    }
  }

  // ---------------------------------------------------------------- delete

  /** The writes of `deleteTicketDetails(id)`: destroy the ticket's customer
      links, its agent links, then its rows. */
  function DeleteRows(s: Store, id: int): (r: Store)
    ensures forall l :: l in r.customerLinks ==> l.ticketId != id
    ensures forall l :: l in r.agentLinks ==> l.ticketId != id
    ensures forall t :: t in r.tickets ==> t.id != id
    ensures forall t :: t in r.tickets <==> t in s.tickets && t.id != id
    ensures forall other :: other != id ==>
      LinksFor(r.customerLinks, other) == LinksFor(s.customerLinks, other)
      && LinksFor(r.agentLinks, other) == LinksFor(s.agentLinks, other)
    ensures r.customers == s.customers && r.agents == s.agents && r.nextId == s.nextId
  {
    forall other | other != id
      ensures LinksFor(Unlink(s.customerLinks, id), other) == LinksFor(s.customerLinks, other)
      ensures LinksFor(Unlink(s.agentLinks, id), other) == LinksFor(s.agentLinks, other)
    {
      LinksForUnlink(s.customerLinks, id, other);
      LinksForUnlink(s.agentLinks, id, other);
    }
    s.(
      customerLinks := Unlink(s.customerLinks, id),
      agentLinks := Unlink(s.agentLinks, id),
      tickets := WithoutTicket(s.tickets, id))
  }

  /** `deleteTicketDetails(id)` and its handler: the writes above, reporting
      success (whose message names `id`) exactly when a ticket row was
      destroyed, and not-found otherwise. */
  function Delete(s: Store, id: int): (r: (Store, Result<int>))
    ensures r.0 == DeleteRows(s, id)
    ensures r.1.Ok? <==> exists i :: 0 <= i < |s.tickets| && s.tickets[i].id == id
    ensures r.1.Ok? ==> r.1.value == id
    ensures r.1.Err? ==> r.1.error == NotFound
  {
    var st := DeleteRows(s, id);
    WithoutTicketShrinks(s.tickets, id);
    var destroyed := |s.tickets| - |st.tickets|;
    (st, if destroyed == 0 then Err(NotFound) else Ok(id))
  }

  /** A second delete of the same id finds nothing to remove. */
  lemma DeleteTwiceNotFound(s: Store, id: int)
    ensures Delete(Delete(s, id).0, id).1 == Err(NotFound)
  {
    var t := DeleteRows(s, id).tickets;
    forall i | 0 <= i < |t| ensures t[i].id != id {
      assert t[i] in t;
    }
  }

  /** On a valid store deleting an existing id removes exactly that one row,
      keeps the rest in order and reports success. */
  lemma DeleteRemovesExactlyOne(s: Store, k: nat)
    requires Valid(s) && k < |s.tickets|
    ensures DeleteRows(s, s.tickets[k].id).tickets == s.tickets[..k] + s.tickets[k + 1..]
    ensures Delete(s, s.tickets[k].id).1 == Ok(s.tickets[k].id)
  {
    WithoutUniqueTicket(s.tickets, k);
  }

  /** Deleting keeps the store valid. */
  lemma DeleteKeepsValid(s: Store, id: int)
    requires Valid(s)
    ensures Valid(DeleteRows(s, id))
  {
    if k :| 0 <= k < |s.tickets| && s.tickets[k].id == id {
      WithoutUniqueTicket(s.tickets, k);
      CutKeepsValid(s, k);
    } else {
      assert WithoutTicket(s.tickets, id) == s.tickets;
    }
  }

  /** Cutting one row out of a valid store's tickets keeps it valid. */
  lemma CutKeepsValid(s: Store, k: nat)
    requires Valid(s) && k < |s.tickets|
    ensures Valid(s.(tickets := s.tickets[..k] + s.tickets[k + 1..]))
  {
    var rest := s.tickets[..k] + s.tickets[k + 1..];
    forall i | 0 <= i < |rest| ensures rest[i] == s.tickets[if i < k then i else i + 1] {
    }
    forall i, j | 0 <= i < j < |rest| ensures rest[i].id != rest[j].id {
      var i' := if i < k then i else i + 1;
      var j' := if j < k then j else j + 1;
      assert rest[i] == s.tickets[i'] && rest[j] == s.tickets[j'];
    }
  }

  /** After a delete no listed view has the deleted id, and every remaining
      ticket shows the customer and agent it showed before. */
  lemma DeleteKeepsOtherViews(s: Store, id: int)
    ensures forall v :: v in ListAll(DeleteRows(s, id)) ==> v.ticket.id != id
    ensures forall t :: t in DeleteRows(s, id).tickets ==> View(DeleteRows(s, id), t) == View(s, t)
  {
    var r := DeleteRows(s, id);
    var views := ListAll(r);
    forall v | v in views ensures v.ticket.id != id {
      var i :| 0 <= i < |views| && views[i] == v;
      assert r.tickets[i] in r.tickets;
    }
  }

  /** The new ticket's agent rows are whatever rows already named its id,
      followed by the one the create adds. */
  lemma CreateAgentRows(s: Store, input: TicketFields)
    ensures LinksFor(CreateRows(s, input).agentLinks, s.nextId)
      == LinksFor(s.agentLinks, s.nextId) + [Link(s.nextId, input.agentId)]
  {
    LinksForAppend(s.agentLinks, [Link(s.nextId, input.agentId)], s.nextId);
  }

  /** An update of a ticket that does not exist yet still writes its agent
      link. The ticket created next receives that id, so it starts with two
      agent rows, and its own later row shadows the stale one. */
  lemma StaleLinkIsShadowed(s: Store, key: int, input: TicketFields)
    requires Valid(s) && key != 0
    ensures var u := UpdateRows(s, s.nextId, NoChanges.(agentId := Some(key)));
      && u.tickets == s.tickets
      && LinksFor(CreateRows(u, input).agentLinks, s.nextId) == [Link(s.nextId, key), Link(s.nextId, input.agentId)]
      && AgentOf(CreateRows(u, input), s.nextId) == Lookup(s.agents, input.agentId)
  {
    var u := UpdateRows(s, s.nextId, NoChanges.(agentId := Some(key)));
    assert forall i :: 0 <= i < |s.tickets| ==> s.tickets[i].id != s.nextId;
    UpdateOfUnusedId(s, s.nextId, key);
    CreateAgentRows(u, input);
    AppendedRowWins(u.agentLinks, u.agents, s.nextId, input.agentId);
  }

  /** An agent-only update of an id no ticket has leaves the ticket rows
      alone but still leaves exactly one agent link row for that id. */
  lemma UpdateOfUnusedId(s: Store, id: int, key: int)
    requires key != 0
    requires forall i :: 0 <= i < |s.tickets| ==> s.tickets[i].id != id
    ensures var u := UpdateRows(s, id, NoChanges.(agentId := Some(key)));
      && u.tickets == s.tickets && u.agents == s.agents && u.nextId == s.nextId
      && LinksFor(u.agentLinks, id) == [Link(id, key)]
  {
  }
}
