/** `data.sort((a, b) => a.priority - b.priority)` on ticket views: a stable
    ascending sort by priority, written as an insertion sort. */
module PrioritySort {
  import opened Records

  function Priority(v: TicketView): int
  {
    v.ticket.fields.priority
  }

  /** Non-decreasing in priority. */
  ghost predicate SortedByPriority(vs: seq<TicketView>)
  {
    forall i, j :: 0 <= i < j < |vs| ==> Priority(vs[i]) <= Priority(vs[j])
  }

  /** The views of priority `p`, in their order in `vs`. A sort is stable
      exactly when it keeps every such subsequence unchanged. */
  function WithPriority(vs: seq<TicketView>, p: int): seq<TicketView>
  {
    if vs == [] then []
    else (if Priority(vs[0]) == p then [vs[0]] else []) + WithPriority(vs[1..], p)
  }

  /** Puts `v` in front of the first view of priority at least its own, so
      that it lands before every view it is equal to. */
  function Insert(v: TicketView, sorted: seq<TicketView>): seq<TicketView>
  {
    if sorted == [] || Priority(v) <= Priority(sorted[0]) then [v] + sorted
    else [sorted[0]] + Insert(v, sorted[1..])
  }

  /** Dropping the first view of a sorted sequence leaves it sorted, and
      the dropped view is at most every remaining one. */
  lemma SortedTail(vs: seq<TicketView>)
    requires vs != [] && SortedByPriority(vs)
    ensures SortedByPriority(vs[1..])
    ensures forall x :: x in vs[1..] ==> Priority(vs[0]) <= Priority(x)
  {
    var tail := vs[1..];
    forall i, j | 0 <= i < j < |tail| ensures Priority(tail[i]) <= Priority(tail[j]) {
      assert tail[i] == vs[i + 1] && tail[j] == vs[j + 1];
    }
    forall x | x in tail ensures Priority(vs[0]) <= Priority(x) {
      var k :| 0 <= k < |tail| && tail[k] == x;
      assert tail[k] == vs[k + 1];
    }
  }

  /** A view at most every view of a sorted sequence can go in front of it. */
  lemma SortedCons(h: TicketView, rest: seq<TicketView>)
    requires SortedByPriority(rest)
    requires forall x :: x in rest ==> Priority(h) <= Priority(x)
    ensures SortedByPriority([h] + rest)
  {
    var r := [h] + rest;
    forall i, j | 0 <= i < j < |r| ensures Priority(r[i]) <= Priority(r[j]) {
      assert r[j] == rest[j - 1];
      if i > 0 {
        assert r[i] == rest[i - 1];
      } else {
        assert rest[j - 1] in rest;
      }
    }
  }

  /** Insertion adds exactly `v`. */
  lemma {:induction false} InsertElements(v: TicketView, sorted: seq<TicketView>)
    ensures multiset(Insert(v, sorted)) == multiset{v} + multiset(sorted)
  {
    if sorted != [] && Priority(v) > Priority(sorted[0]) {
      InsertElements(v, sorted[1..]);
      assert sorted == [sorted[0]] + sorted[1..];
    }
  }

  /** Inserting into a sorted sequence keeps it sorted. */
  lemma {:induction false} InsertSorted(v: TicketView, sorted: seq<TicketView>)
    requires SortedByPriority(sorted)
    ensures SortedByPriority(Insert(v, sorted))
  {
    if sorted == [] || Priority(v) <= Priority(sorted[0]) {
      forall x | x in sorted ensures Priority(v) <= Priority(x) {
        if sorted != [] && x != sorted[0] {
          SortedTail(sorted);
          assert sorted == [sorted[0]] + sorted[1..];
        }
      }
      SortedCons(v, sorted);
    } else {
      var tail := sorted[1..];
      SortedTail(sorted);
      InsertSorted(v, tail);
      InsertElements(v, tail);
      var rest := Insert(v, tail);
      forall x | x in rest ensures Priority(sorted[0]) <= Priority(x) {
        assert x in multiset(rest);
      }
      SortedCons(sorted[0], rest);
    }
  }

  /** The views of priority `p` in a sequence with a known first view. */
  lemma WithPriorityCons(h: TicketView, t: seq<TicketView>, p: int)
    ensures WithPriority([h] + t, p) == (if Priority(h) == p then [h] else []) + WithPriority(t, p)
  {
    assert ([h] + t)[0] == h && ([h] + t)[1..] == t;
  }

  /** Inserting `v` appends it to the views of its own priority and leaves
      the views of every other priority alone. */
  lemma {:induction false} InsertStable(v: TicketView, sorted: seq<TicketView>, p: int)
    ensures WithPriority(Insert(v, sorted), p) ==
      (if Priority(v) == p then [v] else []) + WithPriority(sorted, p)
  {
    if sorted != [] && Priority(v) > Priority(sorted[0]) {
      var tail := sorted[1..];
      InsertStable(v, tail, p);
      WithPriorityCons(sorted[0], Insert(v, tail), p);
      WithPriorityCons(sorted[0], tail, p);
      assert sorted == [sorted[0]] + tail;
    } else {
      WithPriorityCons(v, sorted, p);
    }
  }

  /** The priority sort of the listing handler. */
  function Sort(vs: seq<TicketView>): (r: seq<TicketView>)
    ensures SortedByPriority(r)
    ensures multiset(r) == multiset(vs)
    ensures forall p :: WithPriority(r, p) == WithPriority(vs, p)
  {
    if vs == [] then []
    else
      var rest := Sort(vs[1..]);
      InsertSorted(vs[0], rest);
      forall p ensures WithPriority(Insert(vs[0], rest), p) == WithPriority(vs, p) {
        InsertStable(vs[0], rest, p);
      }
      InsertElements(vs[0], rest);
      assert vs == [vs[0]] + vs[1..];
      Insert(vs[0], rest)
  }

  /** A priority with views in `vs` is the priority of some position of `vs`. */
  lemma {:induction false} WithPriorityNonEmpty(vs: seq<TicketView>, p: int)
    requires WithPriority(vs, p) != []
    ensures exists i :: 0 <= i < |vs| && Priority(vs[i]) == p
  {
    if Priority(vs[0]) != p {
      WithPriorityNonEmpty(vs[1..], p);
      var i :| 0 <= i < |vs[1..]| && Priority(vs[1..][i]) == p;
      assert vs[i + 1] == vs[1..][i];
    }
  }

  /** The first view of a sorted sequence has the least priority in it. */
  lemma SortedHeadLeast(vs: seq<TicketView>, p: int)
    requires vs != [] && SortedByPriority(vs)
    requires WithPriority(vs, p) != []
    ensures Priority(vs[0]) <= p
  {
    WithPriorityNonEmpty(vs, p);
    var i :| 0 <= i < |vs| && Priority(vs[i]) == p;
    if i > 0 {
      assert Priority(vs[0]) <= Priority(vs[i]);
    }
  }

  /** Two sorted, non-empty sequences with the same views at every priority
      start with the same view. */
  lemma SameHead(a: seq<TicketView>, b: seq<TicketView>)
    requires a != [] && b != []
    requires SortedByPriority(a) && SortedByPriority(b)
    requires forall p :: WithPriority(a, p) == WithPriority(b, p)
    ensures a[0] == b[0]
  {
    var pa, pb := Priority(a[0]), Priority(b[0]);
    assert WithPriority(a, pa)[0] == a[0];
    assert WithPriority(b, pb)[0] == b[0];
    SortedHeadLeast(b, pa);
    SortedHeadLeast(a, pb);
    assert WithPriority(a, pa) == WithPriority(b, pa);
  }

  /** Removing a common first view keeps the per-priority views equal. */
  lemma SameTails(a: seq<TicketView>, b: seq<TicketView>)
    requires a != [] && b != [] && a[0] == b[0]
    requires forall p :: WithPriority(a, p) == WithPriority(b, p)
    ensures forall p :: WithPriority(a[1..], p) == WithPriority(b[1..], p)
  {
    forall p ensures WithPriority(a[1..], p) == WithPriority(b[1..], p) {
      var h := if Priority(a[0]) == p then [a[0]] else [];
      assert WithPriority(a, p) == h + WithPriority(a[1..], p);
      assert WithPriority(b, p) == h + WithPriority(b[1..], p);
      assert WithPriority(a[1..], p) == (h + WithPriority(a[1..], p))[|h|..];
      assert WithPriority(b[1..], p) == (h + WithPriority(b[1..], p))[|h|..];
    }
  }

  /** A non-empty sequence has a view at the priority of its first view. */
  lemma HeadPriorityPresent(vs: seq<TicketView>)
    requires vs != []
    ensures WithPriority(vs, Priority(vs[0])) != []
  {
  }

  /** Sortedness and stability pin the output down: any two sorted sequences
      with the same views at every priority are equal, so `Sort` returns what
      every stable sort returns. */
  lemma {:induction false} StableSortUnique(a: seq<TicketView>, b: seq<TicketView>)
    requires SortedByPriority(a) && SortedByPriority(b)
    requires forall p :: WithPriority(a, p) == WithPriority(b, p)
    ensures a == b
  {
    if a != [] {
      HeadPriorityPresent(a);
    }
    if b != [] {
      HeadPriorityPresent(b);
    }
    if a != [] && b != [] {
      SameHead(a, b);
      SameTails(a, b);
      SortedTail(a);
      SortedTail(b);
      StableSortUnique(a[1..], b[1..]);
      assert a == [a[0]] + a[1..] && b == [b[0]] + b[1..];
    }
  }
}
