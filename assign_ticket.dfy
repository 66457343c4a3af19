/** Handing a ticket to an agent: look the ticket up, check the assignment,
    store the new agent (a NEW ticket becomes ASSIGNED), and record an
    ASSIGNED entry. */
module AssignTicket {
  import opened Wrappers
  import opened JsBuiltins
  import opened TicketEntities
  import opened TicketBusinessRules
  import opened TicketRepository
  import opened HistoryRepository
  import opened Audit

  datatype AssignTicketRequest = AssignTicketRequest(agentId: string, assignedBy: string)

  const AssignmentFailedPrefix := "Assignment failed: "

  /** The ticket after assignment to `agentId` at time `now`: the agent is
      replaced, a NEW ticket becomes ASSIGNED and any other status stays
      (the transition table is not consulted); every other field is kept,
      `resolvedAt` and `closedAt` included. */
  function WithAgent(t: Ticket, agentId: string, now: nat): (u: Ticket)
    ensures u.assignedAgentId == Some(agentId) && u.updatedAt == now
    ensures u.status == (if t.status == New then Assigned else t.status)
    ensures u.(assignedAgentId := t.assignedAgentId, status := t.status, updatedAt := t.updatedAt) == t
  {
    t.(assignedAgentId := Some(agentId), status := if t.status == New then Assigned else t.status, updatedAt := now)
  }

  /** The outcome of `execute` for the ticket the store held (or not): not
      found, a refused assignment with its joined errors, or the assigned
      ticket. */
  function Decide(found: Option<Ticket>, request: AssignTicketRequest, now: nat): (r: Result<Ticket>)
    ensures found.None? ==> r == Failure(TicketNotFound)
    ensures found.Some? && !ValidateTicketAssignment(found.value, request.agentId).isValid ==>
      r == Failure(AssignmentFailedPrefix + Join(ValidateTicketAssignment(found.value, request.agentId).errors, ", "))
    ensures r.Success? <==> found.Some? && found.value.status != Closed && request.agentId != ""
    ensures r.Success? ==> r.value == WithAgent(found.value, request.agentId, now)
  {
    match found
    case None => Failure(TicketNotFound)
    case Some(t) =>
      var validation := ValidateTicketAssignment(t, request.agentId);
      if !validation.isValid then
        Failure(AssignmentFailedPrefix + Join(validation.errors, ", "))
      else
        Success(WithAgent(t, request.agentId, now))
  }

  /** The details bag of the ASSIGNED entry: the agent's id, and none of the
      keys the recorder keeps. */
  function AssignmentDetails(request: AssignTicketRequest): (d: Details)
    ensures Detail(d, "agentId") == Some(request.agentId)
    ensures Detail(d, "previousValue").None? && Detail(d, "newValue").None? && Detail(d, "comment").None?
  {
    Some(map["agentId" := request.agentId])
  }

  /** The ASSIGNED entry carries no previous value, new value or comment:
      the agent's id is not among the details the recorder keeps. */
  lemma AssignedEntryCarriesNoValues(ticketId: string, request: AssignTicketRequest, now: nat)
    ensures var e := BuildEntry(ticketId, AssignedAction, request.assignedBy, AssignmentDetails(request), now);
      e.previousValue.None? && e.newValue.None? && e.comment.None?
  {
    NoValuesWithoutThem(ticketId, AssignedAction, request.assignedBy, AssignmentDetails(request), now);
  }

  /** Assigning a closed ticket fails with exactly the closed-ticket error,
      or with both errors when the agent id is empty as well. */
  lemma ClosedTicketAssignmentMessage(t: Ticket, request: AssignTicketRequest, now: nat)
    requires t.status == Closed
    ensures Decide(Some(t), request, now) == Failure(
      if request.agentId == "" then AssignmentFailedPrefix + AgentIdRequired + ", " + CannotAssignClosed
      else AssignmentFailedPrefix + CannotAssignClosed)
  {
    var errors := ValidateTicketAssignment(t, request.agentId).errors;
    if request.agentId == "" {
      assert errors == [AgentIdRequired, CannotAssignClosed] by {
        assert AgentIdRequired != CannotAssignClosed by { assert AgentIdRequired[0] != CannotAssignClosed[0]; }
        assert |errors| >= 2 by {
          assert AgentIdRequired in errors && CannotAssignClosed in errors;
        }
      }
      assert Join(errors, ", ") == AgentIdRequired + ", " + CannotAssignClosed;
    } else {
      assert errors == [CannotAssignClosed] by {
        assert CannotAssignClosed in errors;
      }
    }
  }

  class AssignTicketUseCase {
    const ticketRepository: MockTicketRepository
    const auditService: AuditService

    ghost predicate Valid()
      reads this, ticketRepository, auditService, auditService.historyRepository
    {
      ticketRepository.Valid() && ticketRepository.IdsUnissued() && auditService.Valid()
    }

    constructor (ticketRepository: MockTicketRepository, auditService: AuditService)
      requires ticketRepository.Valid() && ticketRepository.IdsUnissued() && auditService.Valid()
      ensures Valid()
      ensures this.ticketRepository == ticketRepository && this.auditService == auditService
    {
      this.ticketRepository := ticketRepository;
      this.auditService := auditService;
    }

    /** `execute`: the outcome is `Decide` on the stored ticket. A failure
        changes nothing; a success replaces the stored ticket in place and
        records one ASSIGNED entry by the assigner. */
    method Execute(ticketId: string, request: AssignTicketRequest, now: nat) returns (r: Result<Ticket>)
      requires Valid()
      modifies ticketRepository, auditService.historyRepository
      ensures Valid()
      ensures r == Decide(old(ticketRepository.FindById(ticketId)), request, now)
      ensures r.Failure? ==> unchanged(ticketRepository) && unchanged(auditService.historyRepository)
      ensures r.Success? ==>
        && ticketRepository.tickets == old(ticketRepository.tickets)[ticketId := r.value]
        && ticketRepository.order == old(ticketRepository.order)
        && ticketRepository.nextId == old(ticketRepository.nextId)
        && auditService.historyRepository.Entries() == old(auditService.historyRepository.Entries())
             + [BuildEntry(ticketId, AssignedAction, request.assignedBy, AssignmentDetails(request), now)
                  .(id := HistoryId(old(auditService.historyRepository.nextId)))]
    {
      var found := ticketRepository.FindById(ticketId);
      if found.None? {
        return Failure(TicketNotFound);
      }
      var ticket := found.value;
      var validation := ValidateTicketAssignment(ticket, request.agentId);
      if !validation.isValid {
        return Failure(AssignmentFailedPrefix + Join(validation.errors, ", "));
      }
      var updatedTicket := WithAgent(ticket, request.agentId, now);
      var result := ticketRepository.Update(updatedTicket, now);
      auditService.RecordTicketAction(ticketId, AssignedAction, request.assignedBy, AssignmentDetails(request), now);
      r := Success(result);
    }
  }
}
