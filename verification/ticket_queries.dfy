/** The read-only handlers of the ticket service: listing, lookup by
    position, first match by status and the priority-sorted listing. */
module TicketQueries {
  import opened Outcomes
  import opened Records
  import opened Search
  import opened TicketStore
  import opened PrioritySort

  /** `GET /tickets/details/:id`: `response[id - 1]` of the full listing, then
      `getTicketDetails`. An offset outside the list reads `undefined`, and
      building a view of it fails. */
  function GetByPosition(s: Store, id: int): (r: Result<TicketView>)
    ensures r.Ok? <==> 1 <= id <= |s.tickets|
    ensures r.Ok? ==> r.value == ListAll(s)[id - 1]
    ensures r.Err? ==> r.error == NotFound
  {
    if 1 <= id <= |s.tickets| then Ok(View(s, s.tickets[id - 1])) else Err(NotFound)
  }

  /** `GET /tickets/status/:status`: the view of the first ticket, in store
      order, with that exact status; with no match, building the view of
      `undefined` fails. */
  function GetFirstByStatus(s: Store, status: string): (r: Result<TicketView>)
    ensures r.Ok? <==> exists i :: 0 <= i < |s.tickets| && s.tickets[i].fields.status == status
    ensures r.Ok? ==> exists i :: (0 <= i < |s.tickets| && r.value == ListAll(s)[i]
      && s.tickets[i].fields.status == status
      && (forall j :: 0 <= j < i ==> s.tickets[j].fields.status != status))
    ensures r.Err? ==> r.error == NotFound
  {
    match FirstIndex(s.tickets, (t: Ticket) => t.fields.status == status)
    case None => Err(NotFound)
    case Some(i) => Ok(View(s, s.tickets[i]))
  }

  /** `GET /tickets/sort-by-priority`: the full listing, stably sorted by
      ascending priority. */
  function ListSortedByPriority(s: Store): (r: seq<TicketView>)
    ensures SortedByPriority(r)
    ensures multiset(r) == multiset(ListAll(s))
    ensures forall p :: WithPriority(r, p) == WithPriority(ListAll(s), p)
  {
    Sort(ListAll(s))
  }

  /** The sorted listing is the only sorted rearrangement that keeps tickets
      of equal priority in store order, so it agrees with any stable sort. */
  lemma SortedListingIsTheStableSort(s: Store, other: seq<TicketView>)
    requires SortedByPriority(other)
    requires forall p :: WithPriority(other, p) == WithPriority(ListAll(s), p)
    ensures ListSortedByPriority(s) == other
  {
    StableSortUnique(ListSortedByPriority(s), other);
  }
}
