/** Opening a ticket: validate the request, store a NEW ticket with the
    text fields trimmed, and record a CREATED entry. */
module CreateTicket {
  import opened Wrappers
  import opened JsBuiltins
  import opened TicketEntities
  import opened TicketBusinessRules
  import opened TicketRepository
  import opened HistoryRepository
  import opened Audit

  datatype CreateTicketRequest = CreateTicketRequest(
    title: string,
    description: string,
    priority: TicketPriority,
    category: string,
    customerId: string)

  const ValidationFailedPrefix := "Validation failed: "

  /** The request as the creation rules see it: every field present and the
      priority as its string value. */
  function CreationInputOf(request: CreateTicketRequest): (c: CreationInput)
    ensures c.priority == Some(PriorityName(request.priority))
  {
    CreationInput(Some(request.title), Some(request.description), Some(request.customerId),
      Some(PriorityName(request.priority)), Some(request.category))
  }

  /** The ticket handed to the store: no id yet, status NEW, title,
      description and category trimmed, nothing assigned, resolved or
      closed. */
  function NewTicket(request: CreateTicketRequest, now: nat): (t: Ticket)
    ensures t.status == New && t.assignedAgentId.None? && t.resolvedAt.None? && t.closedAt.None?
    ensures t.createdAt == now && t.updatedAt == now
    ensures t.priority == request.priority && t.customerId == request.customerId
  {
    Ticket("", Trim(request.title), Trim(request.description), New, request.priority,
      Trim(request.category), request.customerId, None, now, now, None, None)
  }

  /** The details bag of the CREATED entry: the title as submitted and the
      priority's string value, and none of the keys the recorder keeps. */
  function CreatedDetails(request: CreateTicketRequest): (d: Details)
    ensures Detail(d, "title") == Some(request.title)
    ensures Detail(d, "priority") == Some(PriorityName(request.priority))
    ensures Detail(d, "previousValue").None? && Detail(d, "newValue").None? && Detail(d, "comment").None?
  {
    Some(map["title" := request.title, "priority" := PriorityName(request.priority)])
  }

  /** The stored text fields are trimmed already, and no longer than what
      was submitted. */
  lemma NewTicketIsTrimmed(request: CreateTicketRequest, now: nat)
    ensures var t := NewTicket(request, now);
      && Trim(t.title) == t.title && Trim(t.description) == t.description && Trim(t.category) == t.category
      && |t.title| <= |request.title| && |t.description| <= |request.description| && |t.category| <= |request.category|
  {
    TrimIdempotent(request.title);
    TrimIdempotent(request.description);
    TrimIdempotent(request.category);
  }

  /** The failure a rejected request produces: its message opens with the
      message of the first check the request fails, and is just that when
      no other check fails. */
  function ValidationFailure(request: CreateTicketRequest): (r: Result<Ticket>)
    ensures r.Failure?
    ensures var c := CreationInputOf(request);
      var lead := ValidationFailedPrefix + FirstFailure(c);
      !ValidateTicketCreation(c).isValid ==> |lead| <= |r.message| && r.message[..|lead|] == lead
    ensures var v := ValidateTicketCreation(CreationInputOf(request));
      |v.errors| == 1 ==> r.message == ValidationFailedPrefix + FirstFailure(CreationInputOf(request))
  {
    var c := CreationInputOf(request);
    var errors := ValidateTicketCreation(c).errors;
    FirstErrorIsFirstFailure(c);
    Failure(ValidationFailedPrefix + Join(errors, ", "))
  }

  /** A request whose title alone is blank is refused with exactly the
      title message. */
  lemma TitleOnlyFailureMessage(request: CreateTicketRequest)
    requires var c := CreationInputOf(request);
      TitleFails(c) && !DescriptionFails(c) && !CustomerIdFails(c) && !CategoryFails(c)
    ensures ValidationFailure(request).message == ValidationFailedPrefix + TitleRequired
  {
    var c := CreationInputOf(request);
    TypedPriorityNeverFails(request);
    TitleOnlyFailure(c);
    assert FirstFailure(c) == TitleRequired;
  }

  /** A typed request can only fail on its text fields: its priority is
      always one of the four. */
  lemma TypedPriorityNeverFails(request: CreateTicketRequest)
    ensures !PriorityFails(CreationInputOf(request))
    ensures InvalidPriority !in ValidateTicketCreation(CreationInputOf(request)).errors
  {
    PriorityNamesAreThePriorities(PriorityName(request.priority));
  }

  /** A ticket built from an accepted request is NEW, unassigned and neither
      resolved nor closed, and its title and description are non-empty and
      already trimmed. */
  lemma AcceptedRequestBuildsNewTicket(request: CreateTicketRequest, now: nat)
    requires ValidateTicketCreation(CreationInputOf(request)).isValid
    ensures var t := NewTicket(request, now);
      && t.status == New && t.assignedAgentId.None? && t.resolvedAt.None? && t.closedAt.None?
      && t.title != [] && Trim(t.title) == t.title
      && t.description != [] && Trim(t.description) == t.description
      && t.priority == request.priority && t.customerId == request.customerId && t.customerId != []
  {
    var c := CreationInputOf(request);
    assert !TitleFails(c) && !DescriptionFails(c) && !CustomerIdFails(c);
    PresentTextIsTrimmedNonEmpty(request.title);
    PresentTextIsTrimmedNonEmpty(request.description);
  }

  lemma PresentTextIsTrimmedNonEmpty(s: string)
    requires !MissingOrBlank(Some(s))
    ensures Trim(s) != [] && Trim(Trim(s)) == Trim(s)
  {
    MissingOrBlankIffWhitespace(Some(s));
    TrimEmptyIffAllWhitespace(s);
    TrimIdempotent(s);
  }

  /** The CREATED entry carries no previous value, new value or comment. */
  lemma CreatedEntryCarriesNoValues(id: string, request: CreateTicketRequest, now: nat)
    ensures var e := BuildEntry(id, Created, request.customerId, CreatedDetails(request), now);
      e.previousValue.None? && e.newValue.None? && e.comment.None?
  {
    NoValuesWithoutThem(id, Created, request.customerId, CreatedDetails(request), now);
  }

  class CreateTicketUseCase {
    const ticketRepository: MockTicketRepository
    const auditService: AuditService

    ghost predicate Valid()
      reads this, ticketRepository, auditService, auditService.historyRepository
    {
      ticketRepository.Valid() && ticketRepository.IdsUnissued() && auditService.Valid()
    }

    constructor (ticketRepository: MockTicketRepository, auditService: AuditService)
      requires ticketRepository.Valid() && ticketRepository.IdsUnissued() && auditService.Valid()
      ensures Valid()
      ensures this.ticketRepository == ticketRepository && this.auditService == auditService
    {
      this.ticketRepository := ticketRepository;
      this.auditService := auditService;
    }

    /** `execute`: a rejected request fails with the joined errors and
        touches nothing; an accepted one stores the new ticket once, then
        records one CREATED entry by the customer, and returns the stored
        ticket. */
    method Execute(request: CreateTicketRequest, now: nat) returns (r: Result<Ticket>)
      requires Valid()
      modifies ticketRepository, auditService.historyRepository
      ensures Valid()
      ensures !ValidateTicketCreation(CreationInputOf(request)).isValid ==>
        && r == ValidationFailure(request)
        && unchanged(ticketRepository) && unchanged(auditService.historyRepository)
      ensures ValidateTicketCreation(CreationInputOf(request)).isValid ==>
        && r == Success(NewTicket(request, now).(id := TicketId(old(ticketRepository.nextId))))
        && r.value.id !in old(ticketRepository.tickets)
        && ticketRepository.tickets == old(ticketRepository.tickets)[r.value.id := r.value]
        && ticketRepository.order == old(ticketRepository.order) + [r.value.id]
        && ticketRepository.nextId == old(ticketRepository.nextId) + 1
        && auditService.historyRepository.Entries() == old(auditService.historyRepository.Entries())
             + [BuildEntry(r.value.id, Created, request.customerId, CreatedDetails(request), now)
                  .(id := HistoryId(old(auditService.historyRepository.nextId)))]
    {
      var validation := ValidateTicketCreation(CreationInputOf(request));
      if !validation.isValid {
        return ValidationFailure(request);
      }
      var created := StoreAndRecord(NewTicket(request, now), request.customerId, CreatedDetails(request), now);
      r := Success(created);
    }

    /** Stores the ticket, then records its CREATED entry. */
    method StoreAndRecord(ticket: Ticket, customerId: string, details: Details, now: nat) returns (created: Ticket)
      requires Valid()
      modifies ticketRepository, auditService.historyRepository
      ensures Valid()
      ensures created == ticket.(id := TicketId(old(ticketRepository.nextId)), createdAt := now, updatedAt := now)
      ensures created.id !in old(ticketRepository.tickets)
      ensures ticketRepository.tickets == old(ticketRepository.tickets)[created.id := created]
      ensures ticketRepository.order == old(ticketRepository.order) + [created.id]
      ensures ticketRepository.nextId == old(ticketRepository.nextId) + 1
      ensures auditService.historyRepository.Entries() == old(auditService.historyRepository.Entries())
             + [BuildEntry(created.id, Created, customerId, details, now)
                  .(id := HistoryId(old(auditService.historyRepository.nextId)))]
    {
      created := ticketRepository.Create(ticket, now);
      auditService.RecordTicketAction(created.id, Created, customerId, details, now);
    }
  }
}
