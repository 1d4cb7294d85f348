/** The two append-only link tables and the last-link-wins read path of
    `getTicketCustomers` / `getTicketAgents`. */
module Associations {
  import opened Outcomes
  import opened Records
  import opened Search

  /** `findAll({ where: { ticketId } })` on a link table: the ticket's rows in
      insertion order. */
  function LinksFor(links: seq<Link>, ticketId: int): (r: seq<Link>)
  {
    if links == [] then []
    else (if links[0].ticketId == ticketId then [links[0]] else []) + LinksFor(links[1..], ticketId)
  }

  /** The selection holds exactly the ticket's rows, and no more rows than
      the table. */
  lemma {:induction false} LinksForSelects(links: seq<Link>, ticketId: int)
    ensures |LinksFor(links, ticketId)| <= |links|
    ensures forall l :: l in LinksFor(links, ticketId) <==> l in links && l.ticketId == ticketId
  {
    if links != [] {
      LinksForSelects(links[1..], ticketId);
      assert links == [links[0]] + links[1..];
    }
  }

  /** `destroy({ where: { ticketId } })` on a link table: the rows of every
      other ticket, in their original order. */
  function Unlink(links: seq<Link>, ticketId: int): (r: seq<Link>)
    ensures |r| <= |links|
    ensures forall l :: l in r <==> l in links && l.ticketId != ticketId
  {
    if links == [] then []
    else (if links[0].ticketId != ticketId then [links[0]] else []) + Unlink(links[1..], ticketId)
  }

  /** Selecting one ticket's rows distributes over concatenation, so rows
      appended later come later in the selection. */
  lemma {:induction false} LinksForAppend(a: seq<Link>, b: seq<Link>, ticketId: int)
    ensures LinksFor(a + b, ticketId) == LinksFor(a, ticketId) + LinksFor(b, ticketId)
  {
    if a != [] {
      assert (a + b)[0] == a[0];
      assert (a + b)[1..] == a[1..] + b;
      LinksForAppend(a[1..], b, ticketId);
      var head := if a[0].ticketId == ticketId then [a[0]] else [];
      assert LinksFor(a + b, ticketId) == head + (LinksFor(a[1..], ticketId) + LinksFor(b, ticketId));
    } else {
      assert a + b == b;
    }
  }

  /** Removing all rows of `ticketId` leaves that ticket with none and every
      other ticket with exactly the rows it had. */
  lemma {:induction false} LinksForUnlink(links: seq<Link>, ticketId: int, other: int)
    ensures LinksFor(Unlink(links, ticketId), other) ==
      (if other == ticketId then [] else LinksFor(links, other))
  {
    if links != [] {
      LinksForUnlink(links[1..], ticketId, other);
      var head := if links[0].ticketId != ticketId then [links[0]] else [];
      LinksForAppend(head, Unlink(links[1..], ticketId), other);
    }
  }

  /** Unlinking twice removes nothing more than unlinking once. */
  lemma {:induction false} UnlinkIdempotent(links: seq<Link>, ticketId: int)
    ensures Unlink(Unlink(links, ticketId), ticketId) == Unlink(links, ticketId)
  {
    if links != [] {
      UnlinkIdempotent(links[1..], ticketId);
      var head := if links[0].ticketId != ticketId then [links[0]] else [];
      UnlinkAppend(head, Unlink(links[1..], ticketId), ticketId);
    }
  }

  /** Unlinking distributes over concatenation. */
  lemma {:induction false} UnlinkAppend(a: seq<Link>, b: seq<Link>, ticketId: int)
    ensures Unlink(a + b, ticketId) == Unlink(a, ticketId) + Unlink(b, ticketId)
  {
    if a != [] {
      assert (a + b)[0] == a[0];
      assert (a + b)[1..] == a[1..] + b;
      UnlinkAppend(a[1..], b, ticketId);
      var head := if a[0].ticketId != ticketId then [a[0]] else [];
      assert Unlink(a + b, ticketId) == head + (Unlink(a[1..], ticketId) + Unlink(b, ticketId));
    } else {
      assert a + b == b;
    }
  }

  /** One `findOne` on the customer or agent table: the first row with the
      external id `key`, or `null` when no row has it. */
  function Lookup(parties: seq<Party>, key: int): (r: Resolved)
    ensures r != Undefined
    ensures r.Found? ==> r.party in parties && r.party.externalId == key
    ensures r.Found? ==> exists i :: (0 <= i < |parties| && parties[i] == r.party
      && forall j :: 0 <= j < i ==> parties[j].externalId != key)
    ensures r == Null <==> forall p :: p in parties ==> p.externalId != key
  {
    match FirstIndex(parties, (q: Party) => q.externalId == key)
    case None => Null
    case Some(i) => Found(parties[i])
  }

  /** External ids are a plain column and may repeat; `findOne` then
      returns the earlier row. */
  lemma DuplicateKeyFindsFirst()
    ensures Lookup([Party(1, 7, "A", ""), Party(2, 7, "B", "")], 7) == Found(Party(1, 7, "A", ""))
  {
  }

  /** The `for ... of` loop of `getTicketCustomers` / `getTicketAgents`: every
      row overwrites the accumulator with the lookup of its own key. */
  function Scan(rows: seq<Link>, parties: seq<Party>, acc: Resolved): Resolved
  {
    if rows == [] then acc else Scan(rows[1..], parties, Lookup(parties, rows[0].partyId))
  }

  /** The reference meaning of resolution: undefined when the ticket has no
      link row, otherwise the lookup of the last row's key alone. */
  function LastLinkWins(links: seq<Link>, parties: seq<Party>, ticketId: int): Resolved
  {
    var rows := LinksFor(links, ticketId);
    if rows == [] then Undefined else Lookup(parties, rows[|rows| - 1].partyId)
  }

  /** The overwriting loop ends with the lookup of the last row it visits;
      with no rows it returns its initial value. */
  lemma {:induction false} ScanIsLast(rows: seq<Link>, parties: seq<Party>, acc: Resolved)
    ensures Scan(rows, parties, acc) ==
      (if rows == [] then acc else Lookup(parties, rows[|rows| - 1].partyId))
  {
    if rows != [] {
      ScanIsLast(rows[1..], parties, Lookup(parties, rows[0].partyId));
    }
  }

  /** `getTicketCustomers(ticketId)` (or `getTicketAgents`): scan the ticket's
      link rows and keep what the last one looked up. */
  function Resolve(links: seq<Link>, parties: seq<Party>, ticketId: int): (r: Resolved)
    ensures r == LastLinkWins(links, parties, ticketId)
    ensures r == Undefined <==> forall l :: l in links ==> l.ticketId != ticketId
  {
    LinksForSelects(links, ticketId);
    ScanIsLast(LinksFor(links, ticketId), parties, Undefined);
    Scan(LinksFor(links, ticketId), parties, Undefined)
  }

  /** Last link wins: once `later` holds a row for the ticket, everything
      before it is shadowed, whatever it would have resolved to. */
  lemma EarlierRowsShadowed(earlier: seq<Link>, later: seq<Link>, parties: seq<Party>, ticketId: int)
    requires exists l :: l in later && l.ticketId == ticketId
    ensures Resolve(earlier + later, parties, ticketId) == Resolve(later, parties, ticketId)
  {
    LinksForAppend(earlier, later, ticketId);
    LinksForSelects(later, ticketId);
    var l :| l in later && l.ticketId == ticketId;
    var a, b := LinksFor(earlier, ticketId), LinksFor(later, ticketId);
    assert l in b;
    assert (a + b)[|a + b| - 1] == b[|b| - 1];
  }

  /** Appending a row for the ticket makes it resolve to that row's lookup,
      regardless of all previous rows. */
  lemma AppendedRowWins(links: seq<Link>, parties: seq<Party>, ticketId: int, key: int)
    ensures Resolve(links + [Link(ticketId, key)], parties, ticketId) == Lookup(parties, key)
  {
    LinksForAppend(links, [Link(ticketId, key)], ticketId);
  }

  /** A ticket with exactly one link row resolves to that row's lookup. */
  lemma SingleRowResolves(links: seq<Link>, parties: seq<Party>, ticketId: int, key: int)
    requires LinksFor(links, ticketId) == [Link(ticketId, key)]
    ensures Resolve(links, parties, ticketId) == Lookup(parties, key)
  {
  }

  /** Appending a row for another ticket does not change this ticket's resolution. */
  lemma AppendedRowIsolated(links: seq<Link>, parties: seq<Party>, ticketId: int, row: Link)
    requires row.ticketId != ticketId
    ensures Resolve(links + [row], parties, ticketId) == Resolve(links, parties, ticketId)
  {
    LinksForAppend(links, [row], ticketId);
  }

  /** A found party is matched on its external id: the last row's key equals
      the party's `customerId` / `agentId` column, not necessarily its internal id. */
  lemma FoundMatchesExternalKey(links: seq<Link>, parties: seq<Party>, ticketId: int)
    requires Resolve(links, parties, ticketId).Found?
    ensures exists l :: (l in links && l.ticketId == ticketId
      && Resolve(links, parties, ticketId).party.externalId == l.partyId)
    ensures Resolve(links, parties, ticketId).party in parties
  {
    var rows := LinksFor(links, ticketId);
    LinksForSelects(links, ticketId);
    assert rows[|rows| - 1] in rows;
  }

  /** The key mismatch made concrete: a row storing Alice's internal id 1
      resolves to Bob, whose external id is 1. */
  lemma InternalKeyResolvesByExternalId()
    ensures Resolve([Link(1, 1)],
                    [Party(1, 2, "Alice", "alice@example.com"), Party(2, 1, "Bob", "bob@example.com")],
                    1)
      == Found(Party(2, 1, "Bob", "bob@example.com"))
  {
  }

  /** A last row whose key matches nobody yields null even though an earlier
      row would have matched. */
  lemma MissingLastRowYieldsNull()
    ensures Resolve([Link(1, 1), Link(1, 9)], [Party(1, 1, "Alice", "alice@example.com")], 1) == Null
  {
  }
}
