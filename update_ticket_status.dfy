/** Moving a ticket along the status machine: look the ticket up, check the
    transition, store the new status with its resolution or closing time,
    and record a STATUS_CHANGED entry. */
module UpdateTicketStatus {
  import opened Wrappers
  import opened TicketEntities
  import opened TicketBusinessRules
  import opened TicketRepository
  import opened HistoryRepository
  import opened Audit

  datatype UpdateTicketStatusRequest = UpdateTicketStatusRequest(
    status: TicketStatus,
    comment: Option<string>,
    userId: string)


  const InvalidTransitionPrefix := "Invalid status transition from "

  function InvalidTransitionMessage(current: TicketStatus, target: TicketStatus): string {
    InvalidTransitionPrefix + (StatusName(current) + " to " + StatusName(target))
  }

  /** The refusal names both statuses unambiguously: equal messages come from
      the same current and the same target status. */
  lemma InvalidTransitionMessageNamesBoth(a: TicketStatus, b: TicketStatus, c: TicketStatus, d: TicketStatus)
    requires InvalidTransitionMessage(a, b) == InvalidTransitionMessage(c, d)
    ensures a == c && b == d
  {
    var p := InvalidTransitionPrefix;
    var m1 := StatusName(a) + " to " + StatusName(b);
    var m2 := StatusName(c) + " to " + StatusName(d);
    assert m1 == (p + m1)[|p|..];
    assert m2 == (p + m2)[|p|..];
    StatusNameHasNoSpace(a);
    StatusNameHasNoSpace(c);
    SplitAtFirstSpace(StatusName(a), StatusName(b), StatusName(c), StatusName(d));
    StatusNameInjective(a, c);
    StatusNameInjective(b, d);
  }

  lemma StatusNameHasNoSpace(s: TicketStatus)
    ensures forall i :: 0 <= i < |StatusName(s)| ==> StatusName(s)[i] != ' '
  {
  }

  lemma StatusNameInjective(s: TicketStatus, t: TicketStatus)
    requires StatusName(s) == StatusName(t)
    ensures s == t
  {
    assert StatusName(s)[0] == StatusName(t)[0];
    assert StatusName(s)[1] == StatusName(t)[1];
  }

  /** Words without spaces joined by " to " can be split back apart. */
  lemma SplitAtFirstSpace(a: string, b: string, c: string, d: string)
    requires forall i :: 0 <= i < |a| ==> a[i] != ' '
    requires forall i :: 0 <= i < |c| ==> c[i] != ' '
    requires a + " to " + b == c + " to " + d
    ensures a == c && b == d
  {
    var x := a + " to " + b;
    assert x == a + (" to " + b);
    assert x == c + (" to " + d);
    UpToSpaceOf(a, " to " + b);
    UpToSpaceOf(c, " to " + d);
    assert b == x[|a| + 4..];
  }

  /** The text of `s` before its first space. */
  function UpToSpace(s: string): string {
    if s == [] || s[0] == ' ' then [] else [s[0]] + UpToSpace(s[1..])
  }

  lemma {:induction false} UpToSpaceOf(a: string, rest: string)
    requires forall i :: 0 <= i < |a| ==> a[i] != ' '
    requires rest != [] && rest[0] == ' '
    ensures UpToSpace(a + rest) == a
  {
    if a == [] {
      assert a + rest == rest;
    } else {
      assert (a + rest)[1..] == a[1..] + rest;
      UpToSpaceOf(a[1..], rest);
    }
  }

  /** The ticket after the move to `target` at time `now`: `resolvedAt` is
      stamped whenever the target is RESOLVED (again on re-entry) and
      `closedAt` whenever it is CLOSED; every other field is kept. */
  function WithStatus(t: Ticket, target: TicketStatus, now: nat): (u: Ticket)
    ensures u.status == target && u.updatedAt == now
    ensures u.resolvedAt == (if target == Resolved then Some(now) else t.resolvedAt)
    ensures u.closedAt == (if target == Closed then Some(now) else t.closedAt)
    ensures u.(status := t.status, updatedAt := t.updatedAt, resolvedAt := t.resolvedAt, closedAt := t.closedAt) == t
  {
    t.(status := target, updatedAt := now,
       resolvedAt := if target == Resolved then Some(now) else t.resolvedAt,
       closedAt := if target == Closed then Some(now) else t.closedAt)
  }

  /** The outcome of `execute` for the ticket the store held (or not): not
      found, a refused transition, or the moved ticket. */
  function Decide(found: Option<Ticket>, request: UpdateTicketStatusRequest, now: nat): (r: Result<Ticket>)
    ensures found.None? ==> r == Failure(TicketNotFound)
    ensures found.Some? && !ValidateStatusTransition(found.value.status, request.status) ==>
      r == Failure(InvalidTransitionMessage(found.value.status, request.status))
    ensures r.Success? <==> found.Some? && ValidateStatusTransition(found.value.status, request.status)
    ensures r.Success? ==> r.value == WithStatus(found.value, request.status, now)
  {
    match found
    case None => Failure(TicketNotFound)
    case Some(t) =>
      if !ValidateStatusTransition(t.status, request.status) then
        Failure(InvalidTransitionMessage(t.status, request.status))
      else
        Success(WithStatus(t, request.status, now))
  }

  /** The details bag of the STATUS_CHANGED entry; an absent comment is an
      absent key. */
  function StatusChangeDetails(previous: TicketStatus, request: UpdateTicketStatusRequest): (d: Details)
    ensures Detail(d, "previousValue") == Some(StatusName(previous))
    ensures Detail(d, "newValue") == Some(StatusName(request.status))
    ensures Detail(d, "comment") == request.comment
  {
    var base := map["previousValue" := StatusName(previous), "newValue" := StatusName(request.status)];
    Some(if request.comment.Some? then base["comment" := request.comment.value] else base)
  }

  class UpdateTicketStatusUseCase {
    const ticketRepository: MockTicketRepository
    const auditService: AuditService

    ghost predicate Valid()
      reads this, ticketRepository, auditService, auditService.historyRepository
    {
      ticketRepository.Valid() && ticketRepository.IdsUnissued() && auditService.Valid()
    }

    constructor (ticketRepository: MockTicketRepository, auditService: AuditService)
      requires ticketRepository.Valid() && ticketRepository.IdsUnissued() && auditService.Valid()
      ensures Valid()
      ensures this.ticketRepository == ticketRepository && this.auditService == auditService
    {
      this.ticketRepository := ticketRepository;
      this.auditService := auditService;
    }

    /** `execute`: the outcome is `Decide` on the stored ticket. A failure
        changes nothing; a success replaces the stored ticket in place and
        records one STATUS_CHANGED entry from the old to the new status. */
    method Execute(ticketId: string, request: UpdateTicketStatusRequest, now: nat) returns (r: Result<Ticket>)
      requires Valid()
      modifies ticketRepository, auditService.historyRepository
      ensures Valid()
      ensures r == Decide(old(ticketRepository.FindById(ticketId)), request, now)
      ensures r.Failure? ==> unchanged(ticketRepository) && unchanged(auditService.historyRepository)
      ensures r.Success? ==>
        && ticketRepository.tickets == old(ticketRepository.tickets)[ticketId := r.value]
        && ticketRepository.order == old(ticketRepository.order)
        && ticketRepository.nextId == old(ticketRepository.nextId)
        && auditService.historyRepository.Entries() == old(auditService.historyRepository.Entries())
             + [BuildEntry(ticketId, StatusChanged, request.userId,
                  StatusChangeDetails(old(ticketRepository.tickets)[ticketId].status, request), now)
                  .(id := HistoryId(old(auditService.historyRepository.nextId)))]
    {
      var found := ticketRepository.FindById(ticketId);
      if found.None? {
        return Failure(TicketNotFound);
      }
      var ticket := found.value;
      if !ValidateStatusTransition(ticket.status, request.status) {
        return Failure(InvalidTransitionMessage(ticket.status, request.status));
      }
      var previousStatus := ticket.status;
      var updatedTicket := WithStatus(ticket, request.status, now);
      var result := ticketRepository.Update(updatedTicket, now);
      auditService.RecordTicketAction(ticketId, StatusChanged, request.userId,
        StatusChangeDetails(previousStatus, request), now);
      r := Success(result);
    }
  }
}
