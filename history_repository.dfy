/** The in-memory audit history: a JavaScript `Map` from entry id to entry
    that only grows, queried per ticket newest first. */
module HistoryRepository {
  import opened Wrappers
  import opened JsBuiltins
  import opened Ids
  import opened TicketEntities

  const HistoryIdPrefix := "history-"

  /** The identifier the store issues for counter value `n`. */
  function HistoryId(n: nat): string {
    IdOf(HistoryIdPrefix, n)
  }

  /** Timestamps never increase along `s`. */
  predicate NewestFirst(s: seq<TicketHistory>) {
    forall i, j :: 0 <= i < j < |s| ==> s[i].timestamp >= s[j].timestamp
  }

  /** Places `x` after every entry of `l` strictly newer than it and before
      the rest: one step of a stable insertion sort. */
  function Insert(x: TicketHistory, l: seq<TicketHistory>): (r: seq<TicketHistory>)
    ensures multiset(r) == multiset(l) + multiset{x}
    ensures NewestFirst(l) ==> NewestFirst(r)
  {
    if l == [] || l[0].timestamp <= x.timestamp then
      [x] + l
    else
      var rest := Insert(x, l[1..]);
      assert l == [l[0]] + l[1..];
      InsertKeepsOrder(l[0], x, l[1..], rest);
      [l[0]] + rest
  }

  /** Prefixing `h` keeps a newest-first list newest-first when `h` is at
      least as new as `x` and as everything of `tail`. */
  lemma InsertKeepsOrder(h: TicketHistory, x: TicketHistory, tail: seq<TicketHistory>, rest: seq<TicketHistory>)
    requires multiset(rest) == multiset(tail) + multiset{x}
    requires x.timestamp < h.timestamp
    requires NewestFirst([h] + tail) ==> NewestFirst(rest)
    ensures NewestFirst([h] + tail) ==> NewestFirst([h] + rest)
  {
    if NewestFirst([h] + tail) {
      forall j | 0 <= j < |rest|
        ensures rest[j].timestamp <= h.timestamp
      {
        assert rest[j] in multiset(rest);
        if rest[j] != x {
          assert rest[j] in multiset(tail);
          var m :| 0 <= m < |tail| && tail[m] == rest[j];
          assert ([h] + tail)[0] == h && ([h] + tail)[m + 1] == tail[m];
        }
      }
      assert forall i :: 0 < i <= |rest| ==> ([h] + rest)[i] == rest[i - 1];
    }
  }

  /** The ordering of `Array.prototype.sort` with the comparator
      `b.timestamp - a.timestamp`: newest first, and (the sort being stable)
      entries with equal timestamps in their original order. */
  function SortNewestFirst(s: seq<TicketHistory>): (r: seq<TicketHistory>)
    ensures multiset(r) == multiset(s)
    ensures NewestFirst(r)
  {
    if s == [] then []
    else
      assert s == [s[0]] + s[1..];
      Insert(s[0], SortNewestFirst(s[1..]))
  }

  /** The entries of `s` stamped `k`, in order. */
  function StampedAt(s: seq<TicketHistory>, k: nat): seq<TicketHistory> {
    if s == [] then []
    else (if s[0].timestamp == k then [s[0]] else []) + StampedAt(s[1..], k)
  }

  lemma {:induction false} InsertStable(x: TicketHistory, l: seq<TicketHistory>, k: nat)
    ensures StampedAt(Insert(x, l), k) == (if x.timestamp == k then [x] else []) + StampedAt(l, k)
  {
    if l == [] || l[0].timestamp <= x.timestamp {
      assert ([x] + l)[1..] == l;
    } else {
      InsertStable(x, l[1..], k);
      assert ([l[0]] + Insert(x, l[1..]))[1..] == Insert(x, l[1..]);
    }
  }

  /** The sort is stable: the entries sharing any one timestamp keep their
      relative order. */
  lemma {:induction false} SortStable(s: seq<TicketHistory>, k: nat)
    ensures StampedAt(SortNewestFirst(s), k) == StampedAt(s, k)
  {
    if s != [] {
      SortStable(s[1..], k);
      InsertStable(s[0], SortNewestFirst(s[1..]), k);
    }
  }

  /** `a` comes before `b` when it is newer, or equally new with a smaller
      key. */
  predicate Before(a: TicketHistory, b: TicketHistory, key: TicketHistory -> int) {
    a.timestamp > b.timestamp || (a.timestamp == b.timestamp && key(a) < key(b))
  }

  /** Newest first, and among entries with the same timestamp, `key`
      strictly increasing: a total order on distinct keys. */
  predicate NewestThenBy(s: seq<TicketHistory>, key: TicketHistory -> int) {
    forall i, j :: 0 <= i < j < |s| ==> Before(s[i], s[j], key)
  }

  /** Inserting an entry whose key is below every key of `l` keeps `l`
      ordered newest first and then by key. */
  lemma {:induction false} InsertNewestThenBy(x: TicketHistory, l: seq<TicketHistory>, key: TicketHistory -> int)
    requires NewestThenBy(l, key)
    requires forall e :: e in l ==> key(x) < key(e)
    ensures NewestThenBy(Insert(x, l), key)
  {
    if l == [] || l[0].timestamp <= x.timestamp {
      PrependBefore(x, l, key);
    } else {
      var tail := l[1..];
      TailNewestThenBy(l, key);
      InsertNewestThenBy(x, tail, key);
      var rest := Insert(x, tail);
      forall e | e in rest
        ensures Before(l[0], e, key)
      {
        assert e in multiset(rest);
        if e != x {
          assert e in multiset(tail);
        }
      }
      PrependBefore(l[0], rest, key);
    }
  }

  lemma TailNewestThenBy(l: seq<TicketHistory>, key: TicketHistory -> int)
    requires l != [] && NewestThenBy(l, key)
    ensures NewestThenBy(l[1..], key)
    ensures forall e :: e in l[1..] ==> Before(l[0], e, key)
  {
  }

  /** An entry before everything of an ordered list can go in front. */
  lemma PrependBefore(h: TicketHistory, l: seq<TicketHistory>, key: TicketHistory -> int)
    requires NewestThenBy(l, key)
    requires l == [] || h.timestamp >= l[0].timestamp
    requires forall e :: e in l ==> key(h) < key(e) || Before(h, e, key)
    ensures NewestThenBy([h] + l, key)
  {
    var r := [h] + l;
    forall i, j | 0 <= i < j < |r|
      ensures Before(r[i], r[j], key)
    {
      assert r[j] == l[j - 1];
      if i == 0 {
        assert l[j - 1] in l;
        if j > 1 {
          assert Before(l[0], l[j - 1], key);
        }
      } else {
        assert r[i] == l[i - 1];
      }
    }
  }

  /** Sorting a list whose keys increase yields it newest first and, among
      equal timestamps, in the original order. */
  lemma {:induction false} SortNewestThenBy(s: seq<TicketHistory>, key: TicketHistory -> int)
    requires IncreasingBy(s, key)
    ensures NewestThenBy(SortNewestFirst(s), key)
  {
    if s != [] {
      var tail := s[1..];
      TailIncreasingBy(s, key);
      SortNewestThenBy(tail, key);
      var sorted := SortNewestFirst(tail);
      forall e | e in sorted
        ensures key(s[0]) < key(e)
      {
        assert e in multiset(sorted);
        assert e in multiset(tail);
      }
      InsertNewestThenBy(s[0], sorted, key);
    }
  }

  class MockTicketHistoryRepository {
    var history: map<string, TicketHistory>
    var order: seq<string>
    var nextId: nat

    /** The map's key order is known, every entry is stored under its own
        id, and no identifier the counter will issue is in use yet. */
    ghost predicate Valid()
      reads this
    {
      && IsKeyOrder(history, order)
      && (forall k :: k in history ==> history[k].id == k)
      && (forall n: nat :: nextId <= n ==> HistoryId(n) !in history)
    }

    constructor ()
      ensures Valid()
      ensures history == map[] && order == [] && nextId == 0
    {
      history, order, nextId := map[], [], 0;
    }

    /** `Array.from(this.history.values())`: the entries in the order they
        were recorded. */
    function Entries(): (r: seq<TicketHistory>)
      reads this
      requires Valid()
      ensures |r| == |order|
      ensures forall i :: 0 <= i < |r| ==> r[i] == history[order[i]]
    {
      MapValues(history, order)
    }

    /** `create`: stores the entry under a fresh id, stamped now, and returns
        what it stored. The recorded entries grow by exactly that one. */
    method Create(entry: TicketHistory, now: nat) returns (stored: TicketHistory)
      requires Valid()
      modifies this
      ensures Valid()
      ensures stored == entry.(id := HistoryId(old(nextId)), timestamp := now)
      ensures stored.id !in old(history)
      ensures history == old(history)[stored.id := stored]
      ensures order == old(order) + [stored.id]
      ensures nextId == old(nextId) + 1
      ensures Entries() == old(Entries()) + [stored]
    {
      ghost var before := Entries();
      stored := entry.(id := HistoryId(nextId), timestamp := now);
      SetKeepsKeyOrder(history, order, stored.id, stored);
      order := order + [stored.id];
      history := history[stored.id := stored];
      nextId := nextId + 1;
      forall n: nat | nextId <= n
        ensures HistoryId(n) != stored.id
      {
        IdOfInjective(HistoryIdPrefix, n, nextId - 1);
      }
      assert Entries() == before + [stored];
    }

    /** `findByTicketId`: the entries of that ticket, each once, newest
        first, and entries with the same timestamp in the order they were
        recorded. */
    function FindByTicketId(ticketId: string): (r: seq<TicketHistory>)
      reads this
      requires Valid()
      ensures forall e :: e in r <==> e in Entries() && e.ticketId == ticketId
      ensures NewestFirst(r)
      ensures TiesInOrder(r, order)
      ensures DistinctIds(r)
    {
      var p := (e: TicketHistory) => e.ticketId == ticketId;
      var r := SortNewestFirst(Filter(Entries(), p));
      SortedSelection(this, p, r);
      r
    }
  }

  /** Entries sharing a timestamp appear in the order their ids have in
      `order`. */
  predicate TiesInOrder(r: seq<TicketHistory>, order: seq<string>) {
    forall i, j :: 0 <= i < j < |r| && r[i].timestamp == r[j].timestamp ==>
      IndexOf(order, r[i].id) < IndexOf(order, r[j].id)
  }

  /** No id occurs twice. */
  predicate DistinctIds(r: seq<TicketHistory>) {
    forall i, j :: 0 <= i < j < |r| ==> r[i].id != r[j].id
  }

  /** Sorting a selection of the recorded entries keeps exactly the selected
      entries, puts those with equal timestamps in record order and lists
      every id once, because the store holds one entry per id. */
  lemma SortedSelection(repo: MockTicketHistoryRepository, p: TicketHistory -> bool, r: seq<TicketHistory>)
    requires repo.Valid()
    requires r == SortNewestFirst(Filter(repo.Entries(), p))
    ensures forall e :: e in r <==> e in repo.Entries() && p(e)
    ensures TiesInOrder(r, repo.order)
    ensures DistinctIds(r)
  {
    var order := repo.order;
    var key := (e: TicketHistory) => IndexOf(order, e.id);
    var mine := Filter(repo.Entries(), p);
    SortedInRecordOrder(repo, p, key);
    assert forall e :: e in r <==> e in mine by {
      forall e ensures e in r <==> e in mine {
        assert e in r <==> e in multiset(r);
      }
    }
    forall i | 0 <= i < |r|
      ensures r[i].id in repo.history && repo.history[r[i].id] == r[i]
    {
      SelectionStored(repo, mine, r[i]);
    }
    StoredInOrder(repo, r, key);
  }

  /** Stored entries ordered newest first and then by record position have
      their ties in record order and distinct ids. */
  lemma StoredInOrder(repo: MockTicketHistoryRepository, r: seq<TicketHistory>, key: TicketHistory -> int)
    requires forall e :: key(e) == IndexOf(repo.order, e.id)
    requires NewestThenBy(r, key)
    requires forall i :: 0 <= i < |r| ==> r[i].id in repo.history && repo.history[r[i].id] == r[i]
    ensures TiesInOrder(r, repo.order)
    ensures DistinctIds(r)
  {
    forall i, j | 0 <= i < j < |r|
      ensures r[i].id != r[j].id
    {
      assert Before(r[i], r[j], key);
    }
  }

  lemma SortedInRecordOrder(repo: MockTicketHistoryRepository, p: TicketHistory -> bool, key: TicketHistory -> int)
    requires repo.Valid()
    requires forall e :: key(e) == IndexOf(repo.order, e.id)
    ensures NewestThenBy(SortNewestFirst(Filter(repo.Entries(), p)), key)
  {
    var all := repo.Entries();
    forall i | 0 <= i < |all|
      ensures key(all[i]) == i
    {
      IndexOfKey(repo.history, repo.order, i);
    }
    FilterIncreasingBy(all, p, key);
    SortNewestThenBy(Filter(all, p), key);
  }

  lemma SelectionStored(repo: MockTicketHistoryRepository, mine: seq<TicketHistory>, e: TicketHistory)
    requires repo.Valid()
    requires forall x :: x in mine ==> x in repo.Entries()
    requires e in mine
    ensures e.id in repo.history && repo.history[e.id] == e
  {
    var all := repo.Entries();
    var k :| 0 <= k < |all| && all[k] == e;
    assert all[k] == repo.history[repo.order[k]];
  }
}
