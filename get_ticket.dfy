/** Read-only queries: each delegates to one store lookup and writes
    nothing. */
module GetTicket {
  import opened Wrappers
  import opened TicketEntities
  import opened TicketRepository

  class GetTicketUseCase {
    const ticketRepository: MockTicketRepository

    constructor (ticketRepository: MockTicketRepository)
      ensures this.ticketRepository == ticketRepository
    {
      this.ticketRepository := ticketRepository;
    }

    /** `execute`: the stored ticket, or nothing for an unknown id. */
    function Execute(ticketId: string): (r: Option<Ticket>)
      reads ticketRepository
      ensures r.Some? <==> ticketId in ticketRepository.tickets
      ensures r.Some? ==> r.value == ticketRepository.tickets[ticketId]
    {
      ticketRepository.FindById(ticketId)
    }

    /** `executeMany`: the store's page, unchanged. Its tickets are stored
        and pass the filters, and its total counts all that pass. */
    function ExecuteMany(filters: TicketFilters): (r: PaginatedResult<Ticket>)
      reads ticketRepository
      requires ticketRepository.Valid()
      ensures r == ticketRepository.FindMany(filters)
      ensures r.total == |MatchingTickets(ticketRepository.All(), filters)|
      ensures forall i :: 0 <= i < |r.items| ==> r.items[i] in ticketRepository.tickets.Values && Matches(r.items[i], filters)
    {
      FindManySound(ticketRepository, filters);
      ticketRepository.FindMany(filters)
    }

    /** `executeByCustomer`: the store's list of the customer's tickets,
        unpaged and unchanged. */
    function ExecuteByCustomer(customerId: string): (r: seq<Ticket>)
      reads ticketRepository
      requires ticketRepository.Valid()
      ensures r == ticketRepository.FindByCustomerId(customerId)
      ensures forall t :: t in r <==> t in ticketRepository.tickets.Values && t.customerId == customerId
    {
      ticketRepository.FindByCustomerId(customerId)
    }

    /** `executeByAgent`: the store's list of the agent's tickets, unpaged
        and unchanged. */
    function ExecuteByAgent(agentId: string): (r: seq<Ticket>)
      reads ticketRepository
      requires ticketRepository.Valid()
      ensures r == ticketRepository.FindByAssignedAgent(agentId)
      ensures forall t :: t in r <==> t in ticketRepository.tickets.Values && t.assignedAgentId == Some(agentId)
    {
      ticketRepository.FindByAssignedAgent(agentId)
    }
  }
}
