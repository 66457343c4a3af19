/** The ticket domain's records: `Ticket` with its status and priority
    enumerations, the `TicketHistory` audit entry, and the filter and page
    records of the ticket store's listing operation. Timestamps are readings
    of an abstract clock, in whole clock units (`Date` objects are not
    modelled). */
module TicketEntities {
  import opened Wrappers

  datatype TicketStatus = New | Assigned | InProgress | Pending | Resolved | Closed

  /** The string value of each status, as stored and as compared by filters. */
  function StatusName(s: TicketStatus): string {
    match s
    case New => "new"
    case Assigned => "assigned"
    case InProgress => "in_progress"
    case Pending => "pending"
    case Resolved => "resolved"
    case Closed => "closed"
  }

  datatype TicketPriority = Low | Medium | High | Urgent

  function PriorityName(p: TicketPriority): string {
    match p
    case Low => "low"
    case Medium => "medium"
    case High => "high"
    case Urgent => "urgent"
  }

  /** The string values the priority enumeration admits. */
  const PriorityNames: seq<string> := ["low", "medium", "high", "urgent"]

  lemma PriorityNamesAreThePriorities(name: string)
    ensures name in PriorityNames <==> exists p :: PriorityName(p) == name
  {
    if name in PriorityNames {
      var i :| 0 <= i < 4 && PriorityNames[i] == name;
      var p := [Low, Medium, High, Urgent][i];
      assert PriorityName(p) == name;
    }
  }

  datatype Ticket = Ticket(
    id: string,
    title: string,
    description: string,
    status: TicketStatus,
    priority: TicketPriority,
    category: string,
    customerId: string,
    assignedAgentId: Option<string>,
    createdAt: nat,
    updatedAt: nat,
    resolvedAt: Option<nat>,
    closedAt: Option<nat>)

  datatype TicketAction =
    | Created | StatusChanged | AssignedAction | CommentAdded | PriorityChanged | ResolvedAction | ClosedAction

  datatype TicketHistory = TicketHistory(
    id: string,
    ticketId: string,
    userId: string,
    action: TicketAction,
    previousValue: Option<string>,
    newValue: Option<string>,
    comment: Option<string>,
    timestamp: nat)

  /** Listing filters; every field may be left out. `page` and `limit` are
      whole numbers as the caller parsed them, possibly zero or negative. */
  datatype TicketFilters = TicketFilters(
    status: Option<string>,
    priority: Option<string>,
    category: Option<string>,
    customerId: Option<string>,
    assignedAgentId: Option<string>,
    search: Option<string>,
    page: Option<int>,
    limit: Option<int>)

  datatype PaginatedResult<T> = PaginatedResult(
    items: seq<T>,
    total: nat,
    page: int,
    limit: int,
    totalPages: int)
}
