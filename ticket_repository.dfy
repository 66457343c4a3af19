/** The in-memory ticket store: a JavaScript `Map` from ticket id to ticket,
    with listing by exact-match filters and 1-based pagination. */
module TicketRepository {
  import opened Wrappers
  import opened JsBuiltins
  import opened Ids
  import opened TicketEntities

  const TicketIdPrefix := "ticket-"
  const DefaultPage := 1
  const DefaultLimit := 20

  /** The error every use case raises when no ticket is stored under the
      requested id. */
  const TicketNotFound := "Ticket not found"

  /** The identifier the store issues for counter value `n`. */
  function TicketId(n: nat): string {
    IdOf(TicketIdPrefix, n)
  }

  /** Each filter on its own: absent or empty, or equal to the ticket's
      field. (`search` is not consulted.) */
  predicate StatusOk(t: Ticket, f: TicketFilters) {
    Truthy(f.status) ==> StatusName(t.status) == f.status.value
  }

  predicate PriorityOk(t: Ticket, f: TicketFilters) {
    Truthy(f.priority) ==> PriorityName(t.priority) == f.priority.value
  }

  predicate CategoryOk(t: Ticket, f: TicketFilters) {
    Truthy(f.category) ==> t.category == f.category.value
  }

  predicate CustomerOk(t: Ticket, f: TicketFilters) {
    Truthy(f.customerId) ==> t.customerId == f.customerId.value
  }

  predicate AgentOk(t: Ticket, f: TicketFilters) {
    Truthy(f.assignedAgentId) ==> t.assignedAgentId == Some(f.assignedAgentId.value)
  }

  /** A ticket passes the filters when it passes every one of them. */
  predicate Matches(t: Ticket, f: TicketFilters) {
    StatusOk(t, f) && PriorityOk(t, f) && CategoryOk(t, f) && CustomerOk(t, f) && AgentOk(t, f)
  }

  /** The tickets of `s` that pass the filters, in their order: a ticket is
      among them exactly when it is in `s` and passes. */
  function MatchingTickets(s: seq<Ticket>, f: TicketFilters): (r: seq<Ticket>)
    ensures |r| <= |s|
    ensures forall t :: t in r <==> t in s && Matches(t, f)
  {
    if s == [] then []
    else (if Matches(s[0], f) then [s[0]] else []) + MatchingTickets(s[1..], f)
  }

  lemma {:induction false} FilterIsMatching(s: seq<Ticket>, p: Ticket -> bool, f: TicketFilters)
    requires forall t :: p(t) == Matches(t, f)
    ensures Filter(s, p) == MatchingTickets(s, f)
  {
    if s != [] {
      FilterIsMatching(s[1..], p, f);
    }
  }

  /** The filter chain of `findMany`: each filter that is given narrows the
      list in turn. Together they are the one conjunctive filter
      `MatchingTickets`. */
  function ApplyFilters(items: seq<Ticket>, f: TicketFilters): (r: seq<Ticket>)
    ensures r == MatchingTickets(items, f)
  {
    var e1 := (t: Ticket) => StatusOk(t, f);
    var e2 := (t: Ticket) => PriorityOk(t, f);
    var e3 := (t: Ticket) => CategoryOk(t, f);
    var e4 := (t: Ticket) => CustomerOk(t, f);
    var e5 := (t: Ticket) => AgentOk(t, f);
    var s1 := if Truthy(f.status) then Filter(items, e1) else items;
    var s2 := if Truthy(f.priority) then Filter(s1, e2) else s1;
    var s3 := if Truthy(f.category) then Filter(s2, e3) else s2;
    var s4 := if Truthy(f.customerId) then Filter(s3, e4) else s3;
    var s5 := if Truthy(f.assignedAgentId) then Filter(s4, e5) else s4;
    ApplyFiltersIsMatching(items, f, s1, s2, s3, s4, s5);
    s5
  }

  lemma ApplyFiltersIsMatching(items: seq<Ticket>, f: TicketFilters, s1: seq<Ticket>, s2: seq<Ticket>,
                               s3: seq<Ticket>, s4: seq<Ticket>, s5: seq<Ticket>)
    requires s1 == if Truthy(f.status) then Filter(items, t => StatusOk(t, f)) else items
    requires s2 == if Truthy(f.priority) then Filter(s1, t => PriorityOk(t, f)) else s1
    requires s3 == if Truthy(f.category) then Filter(s2, t => CategoryOk(t, f)) else s2
    requires s4 == if Truthy(f.customerId) then Filter(s3, t => CustomerOk(t, f)) else s3
    requires s5 == if Truthy(f.assignedAgentId) then Filter(s4, t => AgentOk(t, f)) else s4
    ensures s5 == MatchingTickets(items, f)
  {
    var e1 := (t: Ticket) => StatusOk(t, f);
    var e2 := (t: Ticket) => PriorityOk(t, f);
    var e3 := (t: Ticket) => CategoryOk(t, f);
    var e4 := (t: Ticket) => CustomerOk(t, f);
    var e5 := (t: Ticket) => AgentOk(t, f);
    var c1 := (t: Ticket) => StatusOk(t, f);
    var c2 := (t: Ticket) => c1(t) && PriorityOk(t, f);
    var c3 := (t: Ticket) => c2(t) && CategoryOk(t, f);
    var c4 := (t: Ticket) => c3(t) && CustomerOk(t, f);
    var c5 := (t: Ticket) => Matches(t, f);
    var everything := (t: Ticket) => true;
    FilterAll(items, everything);
    NarrowStage(items, everything, items, Truthy(f.status), e1, c1);
    NarrowStage(items, c1, s1, Truthy(f.priority), e2, c2);
    NarrowStage(items, c2, s2, Truthy(f.category), e3, c3);
    NarrowStage(items, c3, s3, Truthy(f.customerId), e4, c4);
    NarrowStage(items, c4, s4, Truthy(f.assignedAgentId), e5, c5);
    FilterIsMatching(items, c5, f);
  }

  /** One stage of the chain: when the list so far is `items` filtered by
      `prior`, narrowing it by `e` (only if the filter is `active`; an
      inactive filter passes everything) gives `items` filtered by `both`. */
  lemma NarrowStage(items: seq<Ticket>, prior: Ticket -> bool, s: seq<Ticket>, active: bool,
                    e: Ticket -> bool, both: Ticket -> bool)
    requires s == Filter(items, prior)
    requires !active ==> forall t :: e(t)
    requires forall t :: both(t) == (prior(t) && e(t))
    ensures (if active then Filter(s, e) else s) == Filter(items, both)
  {
    FilterThenFilter(items, prior, e, both);
    if !active {
      FilterAll(s, e);
    }
  }

  /** `w` is the stretch of `items` that begins at index `start`. */
  ghost predicate IsWindow<T>(w: seq<T>, items: seq<T>, start: int) {
    forall i :: 0 <= i < |w| ==> 0 <= start + i < |items| && w[i] == items[start + i]
  }

  /** `items.slice(start, end)` for a non-negative window is the stretch of
      `items` from `start`, and it is empty exactly when the window starts
      at or past the end. */
  lemma SliceWindow<T>(items: seq<T>, start: int, end: int)
    requires 0 <= start < end
    ensures IsWindow(Slice(items, start, end), items, start)
    ensures Slice(items, start, end) == [] <==> start >= |items|
    ensures start < |items| ==>
      |Slice(items, start, end)| == if end <= |items| then end - start else |items| - start
  {
    var a := SliceIndex(start, |items|);
    var b := SliceIndex(end, |items|);
    assert Slice(items, start, end) == if a < b then items[a..b] else [];
    if start <= |items| {
      assert a == start;
    }
  }

  /** With a positive limit, page `page` of `totalPages` is non-empty
      exactly when its first index lies before the total. */
  lemma PageStartBound(total: nat, page: int, limit: int, start: int, totalPages: int)
    requires page >= 1 && limit >= 1 && start == (page - 1) * limit
    requires (totalPages - 1) * limit < total <= totalPages * limit
    ensures 0 <= start
    ensures page <= totalPages <==> start < total
  {
    if page <= totalPages {
      assert (page - 1) * limit <= (totalPages - 1) * limit;
    } else {
      assert (page - 1) * limit >= totalPages * limit;
    }
  }

  /** `filters.page || 1` and `filters.limit || 20`: an absent or zero
      value falls back to the default. */
  function OrDefault(v: Option<int>, default: int): (r: int)
    ensures r == default || (v.Some? && r == v.value)
    ensures v.Some? && v.value != 0 ==> r == v.value
    ensures r != 0 || default == 0
  {
    if v.Some? && v.value != 0 then v.value else default
  }

  /** The page `findMany` returns for the already filtered `items`: `page`
      and `limit` fall back to 1 and 20, the items are
      `items.slice((page - 1) * limit, (page - 1) * limit + limit)`, and
      `totalPages` is `Math.ceil(total / limit)`. */
  function Paginate(items: seq<Ticket>, page: Option<int>, limit: Option<int>): (r: PaginatedResult<Ticket>)
    ensures r.total == |items|
    ensures r.page == OrDefault(page, DefaultPage) && r.limit == OrDefault(limit, DefaultLimit)
    ensures r.limit >= 1 ==> (r.totalPages - 1) * r.limit < r.total <= r.totalPages * r.limit
  {
    PageOf(items, OrDefault(page, DefaultPage), OrDefault(limit, DefaultLimit))
  }

  function PageOf(items: seq<Ticket>, page: int, limit: int): (r: PaginatedResult<Ticket>)
    requires limit != 0
    ensures r.total == |items| && r.page == page && r.limit == limit
    ensures limit >= 1 ==> (r.totalPages - 1) * limit < r.total <= r.totalPages * limit
  {
    var start := (page - 1) * limit;
    PaginatedResult(Slice(items, start, start + limit), |items|, page, limit, CeilDiv(|items|, limit))
  }

  /** With a positive page and limit, the page holds at most `limit`
      tickets, its `i`-th ticket is ticket `(page - 1) * limit + i` of the
      list, and it is empty exactly when the page lies past `totalPages`. */
  lemma PaginateWindow(items: seq<Ticket>, page: Option<int>, limit: Option<int>)
    ensures var r := Paginate(items, page, limit);
      r.page >= 1 && r.limit >= 1 ==>
      && |r.items| <= r.limit
      && IsWindow(r.items, items, (r.page - 1) * r.limit)
      && (r.items == [] <==> r.page > r.totalPages)
      && ((r.page - 1) * r.limit < |items| ==>
            |r.items| == if r.limit <= |items| - (r.page - 1) * r.limit then r.limit else |items| - (r.page - 1) * r.limit)
  {
    var pg := OrDefault(page, DefaultPage);
    var lim := OrDefault(limit, DefaultLimit);
    if pg >= 1 && lim >= 1 {
      PageOfWindow(items, pg, lim);
    }
  }

  lemma PageOfWindow(items: seq<Ticket>, page: int, limit: int)
    requires page >= 1 && limit >= 1
    ensures var r := PageOf(items, page, limit);
      && |r.items| <= limit
      && IsWindow(r.items, items, (page - 1) * limit)
      && (r.items == [] <==> page > r.totalPages)
      && ((page - 1) * limit < |items| ==>
            |r.items| == if limit <= |items| - (page - 1) * limit then limit else |items| - (page - 1) * limit)
  {
    var r := PageOf(items, page, limit);
    var start := (page - 1) * limit;
    PageStartBound(|items|, page, limit, start, r.totalPages);
    SliceWindow(items, start, start + limit);
  }

  class MockTicketRepository {
    var tickets: map<string, Ticket>
    var order: seq<string>
    var nextId: nat

    /** The map's key order is known and every ticket is stored under its
        own id. */
    ghost predicate Valid()
      reads this
    {
      && IsKeyOrder(tickets, order)
      && (forall k :: k in tickets ==> tickets[k].id == k)
    }

    /** No identifier the counter will issue is in use yet. */
    ghost predicate IdsUnissued()
      reads this
    {
      forall n: nat :: nextId <= n ==> TicketId(n) !in tickets
    }

    constructor ()
      ensures Valid() && IdsUnissued()
      ensures tickets == map[] && order == [] && nextId == 0
    {
      tickets, order, nextId := map[], [], 0;
    }

    /** `Array.from(this.tickets.values())` */
    function All(): (r: seq<Ticket>)
      reads this
      requires Valid()
      ensures |r| == |order|
      ensures forall i :: 0 <= i < |r| ==> r[i] == tickets[order[i]]
    {
      MapValues(tickets, order)
    }

    /** `create`: stores the ticket under a freshly issued id, with creation
        and update time set to now, and returns what it stored. */
    method Create(ticket: Ticket, now: nat) returns (created: Ticket)
      requires Valid()
      modifies this
      ensures Valid()
      ensures created == ticket.(id := TicketId(old(nextId)), createdAt := now, updatedAt := now)
      ensures tickets == old(tickets)[created.id := created]
      ensures order == OrderAfterSet(old(tickets), old(order), created.id)
      ensures nextId == old(nextId) + 1
      ensures old(IdsUnissued()) ==> created.id !in old(tickets) && order == old(order) + [created.id] && IdsUnissued()
    {
      created := ticket.(id := TicketId(nextId), createdAt := now, updatedAt := now);
      SetKeepsKeyOrder(tickets, order, created.id, created);
      order := OrderAfterSet(tickets, order, created.id);
      tickets := tickets[created.id := created];
      nextId := nextId + 1;
      forall n: nat | nextId <= n
        ensures TicketId(n) != created.id
      {
        IdOfInjective(TicketIdPrefix, n, nextId - 1);
      }
    }

    /** `findById`: the ticket stored under `id`, or null. */
    function FindById(id: string): (r: Option<Ticket>)
      reads this
      ensures r.Some? <==> id in tickets
      ensures r.Some? ==> r.value == tickets[id]
    {
      if id in tickets then Some(tickets[id]) else None
    }

    /** `update`: stores the ticket under its own id with update time now,
        replacing or inserting, and returns what it stored. */
    method Update(ticket: Ticket, now: nat) returns (updated: Ticket)
      requires Valid()
      modifies this
      ensures Valid()
      ensures updated == ticket.(updatedAt := now)
      ensures tickets == old(tickets)[ticket.id := updated]
      ensures order == OrderAfterSet(old(tickets), old(order), ticket.id)
      ensures nextId == old(nextId)
      ensures old(IdsUnissued()) && ticket.id in old(tickets) ==> IdsUnissued()
    {
      updated := ticket.(updatedAt := now);
      SetKeepsKeyOrder(tickets, order, ticket.id, updated);
      order := OrderAfterSet(tickets, order, ticket.id);
      tickets := tickets[ticket.id := updated];
    }

    /** `findMany`: the stored tickets that pass the filters, in storage
        order, cut to the requested page; the total counts every match. */
    function FindMany(filters: TicketFilters): (r: PaginatedResult<Ticket>)
      reads this
      requires Valid()
      ensures r == Paginate(MatchingTickets(All(), filters), filters.page, filters.limit)
    {
      var matching := ApplyFilters(All(), filters);
      Paginate(matching, filters.page, filters.limit)
    }

    /** `findByCustomerId`: exactly the stored tickets of that customer, each
        once, in the order the store holds them. */
    function FindByCustomerId(customerId: string): (r: seq<Ticket>)
      reads this
      requires Valid()
      ensures forall t :: t in r <==> t in tickets.Values && t.customerId == customerId
      ensures forall i, j :: 0 <= i < j < |r| ==> IndexOf(order, r[i].id) < IndexOf(order, r[j].id)
      ensures forall i, j :: 0 <= i < j < |r| ==> r[i].id != r[j].id
    {
      var p := (t: Ticket) => t.customerId == customerId;
      StoredSelection(this, p);
      Filter(All(), p)
    }

    /** `findByAssignedAgent`: exactly the stored tickets assigned to that
        agent, each once, in the order the store holds them. */
    function FindByAssignedAgent(agentId: string): (r: seq<Ticket>)
      reads this
      requires Valid()
      ensures forall t :: t in r <==> t in tickets.Values && t.assignedAgentId == Some(agentId)
      ensures forall i, j :: 0 <= i < j < |r| ==> IndexOf(order, r[i].id) < IndexOf(order, r[j].id)
      ensures forall i, j :: 0 <= i < j < |r| ==> r[i].id != r[j].id
    {
      var p := (t: Ticket) => t.assignedAgentId == Some(agentId);
      StoredSelection(this, p);
      Filter(All(), p)
    }
  }

  /** Filtering the stored tickets selects exactly the stored tickets that
      pass, and keeps them in storage order. */
  lemma StoredSelection(repo: MockTicketRepository, p: Ticket -> bool)
    requires repo.Valid()
    ensures var r := Filter(repo.All(), p);
      && (forall t :: t in r <==> t in repo.tickets.Values && p(t))
      && (forall i, j :: 0 <= i < j < |r| ==> IndexOf(repo.order, r[i].id) < IndexOf(repo.order, r[j].id))
  {
    var all := repo.All();
    var order := repo.order;
    assert forall t :: t in repo.tickets.Values <==> t in all by {
      forall t | t in repo.tickets.Values ensures t in all {
        var k :| k in repo.tickets && repo.tickets[k] == t;
        var i :| 0 <= i < |order| && order[i] == k;
        assert all[i] == t;
      }
    }
    var key := (t: Ticket) => IndexOf(order, t.id);
    forall i | 0 <= i < |all|
      ensures key(all[i]) == i
    {
      IndexOfKey(repo.tickets, order, i);
    }
    FilterIncreasingBy(all, p, key);
  }

  /** Every ticket on a page of `findMany` is stored and passes the
      filters, and the total counts the stored tickets that pass them. */
  lemma FindManySound(repo: MockTicketRepository, f: TicketFilters)
    requires repo.Valid()
    ensures var r := repo.FindMany(f);
      && r.total == |MatchingTickets(repo.All(), f)|
      && forall i :: 0 <= i < |r.items| ==> r.items[i] in repo.tickets.Values && Matches(r.items[i], f)
  {
    var all := repo.All();
    var matching := MatchingTickets(all, f);
    PageItemsFrom(matching, f.page, f.limit);
    assert forall t :: t in all ==> t in repo.tickets.Values by {
      forall t | t in all ensures t in repo.tickets.Values {
        var k :| 0 <= k < |all| && all[k] == t;
        assert repo.order[k] in repo.tickets;
      }
    }
  }

  /** Every item on a page comes from the paginated list. */
  lemma PageItemsFrom(items: seq<Ticket>, page: Option<int>, limit: Option<int>)
    ensures forall t :: t in Paginate(items, page, limit).items ==> t in items
  {
    var r := Paginate(items, page, limit);
    var start := (r.page - 1) * r.limit;
    var a := SliceIndex(start, |items|);
    var b := SliceIndex(start + r.limit, |items|);
    assert r.items == if a < b then items[a..b] else [];
  }
}
