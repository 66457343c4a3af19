/** A ticket's life after creation: any sequence of status changes and
    assignments, each decided exactly as the use cases decide it. A step
    that fails leaves the ticket as it was and records nothing; a step that
    succeeds records one entry. */
module Lifecycle {
  import opened Wrappers
  import opened TicketEntities
  import opened TicketBusinessRules
  import opened Audit
  import opened CreateTicket
  import UpdateTicketStatus
  import AssignTicket

  /** A request against the ticket, with the clock reading of its call. */
  datatype Command =
    | ChangeStatus(statusRequest: UpdateTicketStatus.UpdateTicketStatusRequest, at: nat)
    | Assign(assignRequest: AssignTicket.AssignTicketRequest, at: nat)

  /** The ticket after a run of commands and the entries the run recorded,
      oldest first. */
  datatype Trace = Trace(final: Ticket, log: seq<TicketHistory>)

  /** One request against the stored ticket `t`, as its use case decides it. */
  function Step(t: Ticket, c: Command): Result<Ticket> {
    match c
    case ChangeStatus(request, at) => UpdateTicketStatus.Decide(Some(t), request, at)
    case Assign(request, at) => AssignTicket.Decide(Some(t), request, at)
  }

  /** The entry a successful step records (before the history store gives
      it an id). */
  function EntryOf(t: Ticket, c: Command): TicketHistory {
    match c
    case ChangeStatus(request, at) =>
      BuildEntry(t.id, StatusChanged, request.userId, UpdateTicketStatus.StatusChangeDetails(t.status, request), at)
    case Assign(request, at) =>
      BuildEntry(t.id, AssignedAction, request.assignedBy, AssignTicket.AssignmentDetails(request), at)
  }

  function Run(t: Ticket, cmds: seq<Command>): Trace
    decreases |cmds|
  {
    if cmds == [] then Trace(t, [])
    else
      match Step(t, cmds[0])
      case Failure(_) => Run(t, cmds[1..])
      case Success(u) =>
        var rest := Run(u, cmds[1..]);
        Trace(rest.final, [EntryOf(t, cmds[0])] + rest.log)
  }

  /** The number of commands that succeed, counted along the prefixes of
      the run: command `i` succeeds when it succeeds on the ticket the first
      `i` commands left. */
  function Successes(t: Ticket, cmds: seq<Command>): nat {
    if cmds == [] then 0
    else
      var n := |cmds| - 1;
      Successes(t, cmds[..n]) + (if Step(Run(t, cmds[..n]).final, cmds[n]).Success? then 1 else 0)
  }

  /** Timestamps of a ticket that only status changes and assignments have
      touched: resolved tickets carry a resolution time, exactly the closed
      tickets carry a closing time, and every stamp lies between creation
      and the last update, resolution before closing. */
  ghost predicate Inv(t: Ticket) {
    && (t.status == Resolved ==> t.resolvedAt.Some?)
    && (t.status == Closed <==> t.closedAt.Some?)
    && t.createdAt <= t.updatedAt
    && (t.resolvedAt.Some? ==> t.createdAt <= t.resolvedAt.value <= t.updatedAt)
    && (t.closedAt.Some? ==> t.createdAt <= t.closedAt.value <= t.updatedAt)
    && (t.resolvedAt.Some? && t.closedAt.Some? ==> t.resolvedAt.value <= t.closedAt.value)
  }

  /** The clock never runs backwards over the commands, and starts no
      earlier than `start`. */
  ghost predicate ClockFrom(start: nat, cmds: seq<Command>) {
    && (forall i :: 0 <= i < |cmds| ==> start <= cmds[i].at)
    && (forall i, j :: 0 <= i < j < |cmds| ==> cmds[i].at <= cmds[j].at)
  }

  /** A successful step keeps the invariant when its clock reading is no
      earlier than the ticket's last update. */
  lemma StepKeepsInv(t: Ticket, c: Command)
    requires Inv(t) && t.updatedAt <= c.at
    ensures Step(t, c).Success? ==> Inv(Step(t, c).value) && Step(t, c).value.updatedAt == c.at
    ensures Step(t, c).Success? ==> Step(t, c).value.id == t.id && Step(t, c).value.createdAt == t.createdAt
  {
    match c
    case ChangeStatus(request, at) =>
      if Step(t, c).Success? {
        assert ValidateStatusTransition(t.status, request.status);
        assert t.status != Closed;
      }
    case Assign(request, at) =>
  }

  /** A closed ticket is final: every command fails, the ticket stays as it
      is and nothing is recorded. */
  lemma {:induction false} ClosedIsAbsorbing(t: Ticket, cmds: seq<Command>)
    requires t.status == Closed
    ensures Run(t, cmds) == Trace(t, [])
  {
    if cmds != [] {
      ClosedIsAbsorbing(t, cmds[1..]);
    }
  }

  /** Running two batches in turn is running them together. */
  lemma {:induction false} RunAppend(t: Ticket, a: seq<Command>, b: seq<Command>)
    ensures Run(t, a + b).final == Run(Run(t, a).final, b).final
    ensures Run(t, a + b).log == Run(t, a).log + Run(Run(t, a).final, b).log
    decreases |a|
  {
    if a != [] {
      assert (a + b)[0] == a[0] && (a + b)[1..] == a[1..] + b;
      match Step(t, a[0])
      case Failure(_) =>
        RunAppend(t, a[1..], b);
      case Success(u) =>
        RunAppend(u, a[1..], b);
    } else {
      assert a + b == b;
    }
  }

  /** Once a run has closed the ticket, later commands change nothing. */
  lemma ClosedStaysClosed(t: Ticket, cmds: seq<Command>, k: nat)
    requires k <= |cmds| && Run(t, cmds[..k]).final.status == Closed
    ensures Run(t, cmds) == Run(t, cmds[..k])
  {
    assert cmds == cmds[..k] + cmds[k..];
    RunAppend(t, cmds[..k], cmds[k..]);
    ClosedIsAbsorbing(Run(t, cmds[..k]).final, cmds[k..]);
  }

  /** The history grows by exactly one entry per successful command. */
  lemma {:induction false} LogCountsSuccesses(t: Ticket, cmds: seq<Command>)
    ensures |Run(t, cmds).log| == Successes(t, cmds)
  {
    if cmds != [] {
      var n := |cmds| - 1;
      assert cmds == cmds[..n] + [cmds[n]];
      LogCountsSuccesses(t, cmds[..n]);
      RunAppend(t, cmds[..n], [cmds[n]]);
      assert [cmds[n]][1..] == [];
    }
  }

  /** Every recorded entry is about the ticket the run started from, and the
      ticket keeps its id and creation time. */
  lemma {:induction false} RunStaysOnTicket(t: Ticket, cmds: seq<Command>)
    ensures Run(t, cmds).final.id == t.id && Run(t, cmds).final.createdAt == t.createdAt
    ensures forall e :: e in Run(t, cmds).log ==> e.ticketId == t.id
    decreases |cmds|
  {
    if cmds != [] {
      match Step(t, cmds[0])
      case Failure(_) =>
        RunStaysOnTicket(t, cmds[1..]);
      case Success(u) =>
        RunStaysOnTicket(u, cmds[1..]);
        assert u.id == t.id && u.createdAt == t.createdAt by {
          match cmds[0]
          case ChangeStatus(_, _) =>
          case Assign(_, _) =>
        }
    }
  }

  /** Under a clock that never runs backwards, the invariant holds after
      any run. */
  lemma {:induction false} RunKeepsInv(t: Ticket, cmds: seq<Command>)
    requires Inv(t) && ClockFrom(t.updatedAt, cmds)
    ensures Inv(Run(t, cmds).final)
    decreases |cmds|
  {
    if cmds != [] {
      StepKeepsInv(t, cmds[0]);
      match Step(t, cmds[0])
      case Failure(_) =>
        RunKeepsInv(t, cmds[1..]);
      case Success(u) =>
        assert ClockFrom(u.updatedAt, cmds[1..]);
        RunKeepsInv(u, cmds[1..]);
    }
  }

  /** A freshly created ticket satisfies the invariant. */
  lemma CreatedTicketSatisfiesInv(request: CreateTicketRequest, now: nat, id: string)
    ensures Inv(NewTicket(request, now).(id := id))
  {
  }

  /** The lifecycle property: starting from a ticket as creation stores it,
      under any commands on a clock that never runs backwards, a resolved
      ticket has its resolution time, exactly a closed ticket has its
      closing time, the resolution time is never negative, and the history
      grows by one entry per successful command. A closed ticket stays
      closed. */
  lemma LifecycleFromCreation(request: CreateTicketRequest, now: nat, id: string, cmds: seq<Command>)
    requires ClockFrom(now, cmds)
    ensures var r := Run(NewTicket(request, now).(id := id), cmds);
      && (r.final.status == Resolved ==> r.final.resolvedAt.Some?)
      && (r.final.status == Closed <==> r.final.closedAt.Some?)
      && (r.final.status == Resolved ==> CalculateResolutionTime(r.final).Some?)
      && (CalculateResolutionTime(r.final).Some? ==> CalculateResolutionTime(r.final).value >= 0)
      && |r.log| == Successes(NewTicket(request, now).(id := id), cmds)
    ensures forall k :: 0 <= k <= |cmds| && Run(NewTicket(request, now).(id := id), cmds[..k]).final.status == Closed ==>
      Run(NewTicket(request, now).(id := id), cmds) == Run(NewTicket(request, now).(id := id), cmds[..k])
  {
    var t := NewTicket(request, now).(id := id);
    CreatedTicketSatisfiesInv(request, now, id);
    RunKeepsInv(t, cmds);
    LogCountsSuccesses(t, cmds);
    forall k | 0 <= k <= |cmds| && Run(t, cmds[..k]).final.status == Closed
      ensures Run(t, cmds) == Run(t, cmds[..k])
    {
      ClosedStaysClosed(t, cmds, k);
    }
  }
}
