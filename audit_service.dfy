/** The audit recorder: every ticket action becomes one appended history
    entry. */
module Audit {
  import opened Wrappers
  import opened TicketEntities
  import opened HistoryRepository

  /** The loosely typed details bag of an audit call: absent (`null` or
      `undefined`) or a record of string-valued properties. A property set
      to `undefined` is simply not among the keys. */
  type Details = Option<map<string, string>>

  /** `details?.[key]` */
  function Detail(details: Details, key: string): (v: Option<string>)
    ensures v.Some? <==> details.Some? && key in details.value
    ensures v.Some? ==> v.value == details.value[key]
  {
    if details.Some? && key in details.value then Some(details.value[key]) else None
  }

  /** The entry `recordTicketAction` hands to the history store, before the
      store gives it an id: `id` is empty and the timestamp is the clock
      reading of the call. */
  function BuildEntry(ticketId: string, action: TicketAction, userId: string, details: Details, now: nat): (e: TicketHistory)
    ensures e.id == "" && e.ticketId == ticketId && e.userId == userId && e.action == action && e.timestamp == now
    ensures e.previousValue == Detail(details, "previousValue")
    ensures e.newValue == Detail(details, "newValue")
    ensures e.comment == Detail(details, "comment")
  {
    TicketHistory("", ticketId, userId, action,
      Detail(details, "previousValue"), Detail(details, "newValue"), Detail(details, "comment"), now)
  }

  /** Only `previousValue`, `newValue` and `comment` survive from the
      details bag: two bags that agree on those three keys give the same
      entry, whatever else they hold. */
  lemma OnlyThreeDetailsSurvive(ticketId: string, action: TicketAction, userId: string, d1: Details, d2: Details, now: nat)
    requires forall k :: k in {"previousValue", "newValue", "comment"} ==> Detail(d1, k) == Detail(d2, k)
    ensures BuildEntry(ticketId, action, userId, d1, now) == BuildEntry(ticketId, action, userId, d2, now)
  {
    assert Detail(d1, "previousValue") == Detail(d2, "previousValue");
    assert Detail(d1, "newValue") == Detail(d2, "newValue");
    assert Detail(d1, "comment") == Detail(d2, "comment");
  }

  /** With no details bag, or one without the three keys, the entry carries
      no previous value, new value or comment. */
  lemma NoValuesWithoutThem(ticketId: string, action: TicketAction, userId: string, details: Details, now: nat)
    requires details.None? || forall k :: k in details.value ==> k !in {"previousValue", "newValue", "comment"}
    ensures var e := BuildEntry(ticketId, action, userId, details, now);
      e.previousValue.None? && e.newValue.None? && e.comment.None?
  {
    if details.Some? {
      assert "previousValue" !in details.value && "newValue" !in details.value && "comment" !in details.value;
    }
  }

  class AuditService {
    const historyRepository: MockTicketHistoryRepository

    ghost predicate Valid()
      reads this, historyRepository
    {
      historyRepository.Valid()
    }

    constructor (historyRepository: MockTicketHistoryRepository)
      requires historyRepository.Valid()
      ensures Valid()
      ensures this.historyRepository == historyRepository
    {
      this.historyRepository := historyRepository;
    }

    /** `recordTicketAction`: appends exactly one entry, for any action and
        whether or not the ticket exists; the history store assigns the
        entry's id. Nothing else changes. */
    method RecordTicketAction(ticketId: string, action: TicketAction, userId: string, details: Details, now: nat)
      requires Valid()
      modifies historyRepository
      ensures Valid()
      ensures historyRepository.nextId == old(historyRepository.nextId) + 1
      ensures historyRepository.Entries() == old(historyRepository.Entries())
        + [BuildEntry(ticketId, action, userId, details, now).(id := HistoryId(old(historyRepository.nextId)))]
    {
      var entry := BuildEntry(ticketId, action, userId, details, now);
      var _ := historyRepository.Create(entry, now);
    }
  }
}
