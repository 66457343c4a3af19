# Ticket lifecycle, modelled in Dafny

This project models the core of a support-ticket service: the ticket
business rules, the four use cases that drive a ticket through its life
(create, update status, assign, get), the audit recorder that turns every
action into one history entry, and the two in-memory stores behind them
(the mock ticket repository and the mock ticket-history repository).

How the source's forms map to Dafny:
- Pure code is written as functions: the validators, the transition table,
  the record builders, and the filter-and-sort reads.
- Code that changes state is written as classes with `modifies` clauses:
  - the stores hold a `map` plus the insertion order of its keys, which is
    the iteration order of a JavaScript `Map`;
  - the use cases hold their stores as constant fields.
- Every failing `throw` becomes a `Failure` value of a `Result`.
- `new Date()` and `uuidv4()` become a `now: nat` clock parameter and a
  per-store id counter. Ids are written `ticket-<n>` and `history-<n>`.

Files:

| file | module | what it holds |
|---|---|---|
| `wrappers.dfy` | `Wrappers` | `Option` and `Result` |
| `js_builtins.dfy` | `JsBuiltins` | the JavaScript built-ins the source relies on |
| `ids.dfy` | `Ids` | decimal ids and their injectivity |
| `ticket_entities.dfy` | `TicketEntities` | the records and enumerations |
| `business_rules.dfy` | `TicketBusinessRules` | the validators |
| `ticket_repository.dfy` | `TicketRepository` | the ticket store |
| `history_repository.dfy` | `HistoryRepository` | the history store |
| `audit_service.dfy` | `Audit` | the audit recorder |
| `create_ticket.dfy` | `CreateTicket` | the create use case |
| `update_ticket_status.dfy` | `UpdateTicketStatus` | the update-status use case |
| `assign_ticket.dfy` | `AssignTicket` | the assign use case |
| `get_ticket.dfy` | `GetTicket` | the read-only use case |
| `lifecycle.dfy` | `Lifecycle` | whole runs of status changes and assignments |

The JavaScript built-ins modelled in `JsBuiltins` are:
- `trim` with the ECMAScript whitespace set;
- `length` counted in UTF-16 code units;
- `Array.join`, `Array.filter` and `Array.slice`, with negative and
  out-of-range indices;
- `Math.ceil` of a quotient;
- truthiness.

The lifecycle module decides each step with the same `Decide` functions
that the use-case methods are proved against. It proves the following for a
ticket as creation stores it, under any sequence of successful or failing
status changes and assignments on a clock that never runs backwards:
- CLOSED is absorbing;
- a resolved ticket carries its resolution time;
- exactly the closed tickets carry a closing time;
- the history grows by one entry per successful call.

## Model

| member | source | states |
|---|---|---|
| TicketEntities.PriorityNamesAreThePriorities | src/modules/ticket/domain/entities/Ticket.ts:10-15 | the four priority strings are exactly the values of the priority enumeration |
| JsBuiltins.Trim | src/modules/ticket/application/usecases/CreateTicketUseCase.ts:31-35 | `trim()` returns the stretch of the string left after removing whitespace at both ends: what it removed is all whitespace, and what it keeps neither starts nor ends with whitespace |
| JsBuiltins.TrimEmptyIffAllWhitespace | src/modules/ticket/domain/rules/TicketBusinessRules.ts:12 | `s.trim().length === 0` holds exactly when every character of `s` is ECMAScript whitespace |
| JsBuiltins.TrimIdempotent | src/modules/ticket/application/usecases/CreateTicketUseCase.ts:31-35 | trimming an already trimmed string changes nothing |
| JsBuiltins.Utf16Length | src/modules/ticket/domain/rules/TicketBusinessRules.ts:74 | a string's JavaScript length lies between its code-point count and twice that |
| JsBuiltins.Utf16LengthOfBmp | src/modules/ticket/domain/rules/TicketBusinessRules.ts:74 | for text inside the Basic Multilingual Plane, the JavaScript length is the character count |
| JsBuiltins.Join | src/modules/ticket/application/usecases/CreateTicketUseCase.ts:25 | joining no errors gives the empty string, one error gives that error, and the joined text always starts with the first error |
| JsBuiltins.Filter | src/modules/ticket/infrastructure/repositories/MockTicketRepository.ts:39 | `filter` keeps exactly the elements that pass the predicate, and no more |
| JsBuiltins.FilterThenFilter | src/modules/ticket/infrastructure/repositories/MockTicketRepository.ts:38-52 | filtering twice in turn is filtering once by the conjunction |
| JsBuiltins.FilterAppend | src/modules/ticket/infrastructure/repositories/MockTicketRepository.ts:38-52 | filtering distributes over concatenation |
| JsBuiltins.FilterAll | src/modules/ticket/infrastructure/repositories/MockTicketRepository.ts:38-52 | a filter that every element passes returns the list unchanged |
| JsBuiltins.FilterIncreasingBy | src/modules/ticket/infrastructure/repositories/MockTicketRepository.ts:69 | `filter` keeps the relative order of the elements it keeps |
| JsBuiltins.Slice | src/modules/ticket/infrastructure/repositories/MockTicketRepository.ts:57 | `slice(start, end)` is never longer than the list, nor than `end - start` for a non-negative window |
| JsBuiltins.CeilDiv | src/modules/ticket/infrastructure/repositories/MockTicketRepository.ts:64 | `Math.ceil(a / b)` is the least `r` with `a <= r * b` for positive `b`, and mirrored for negative `b` |
| JsBuiltins.MapValues | src/modules/ticket/infrastructure/repositories/MockTicketRepository.ts:35 | `Array.from(map.values())` lists the values in key-insertion order |
| JsBuiltins.SetKeepsKeyOrder | src/modules/ticket/infrastructure/repositories/MockTicketRepository.ts:16 | `Map.set` appends a new key, keeps an existing key in its place, and keeps every key listed once |
| Ids.ParseDecimalOfDecimal | src/modules/ticket/infrastructure/repositories/MockTicketRepository.ts:11 | reading back the decimal digits of a counter value gives the value: issued ids can be decoded |
| Ids.IdOfInjective | src/modules/ticket/infrastructure/repositories/MockTicketRepository.ts:11 | distinct counter values give distinct ids, the role `uuidv4()` plays |
| TicketBusinessRules.PushIf | src/modules/ticket/domain/rules/TicketBusinessRules.ts:12-14 | a conditional `errors.push(msg)` adds `msg` exactly when its check failed, and drops nothing |
| TicketBusinessRules.CreationErrors | src/modules/ticket/domain/rules/TicketBusinessRules.ts:10-30 | each creation message is present exactly when its check failed, in the fixed order title, description, customer, priority, category |
| TicketBusinessRules.ValidateTicketCreation | src/modules/ticket/domain/rules/TicketBusinessRules.ts:9-33 | valid exactly when there are no errors, which is exactly when all five checks pass; every failed check adds exactly one message, all are reported without stopping at the first, and they come in the fixed order |
| TicketBusinessRules.FirstErrorIsFirstFailure | src/modules/ticket/domain/rules/TicketBusinessRules.ts:9-33 | the first error of a rejected input is the message of the first check, in check order, that it fails |
| TicketBusinessRules.TitleOnlyFailure | src/modules/ticket/domain/rules/TicketBusinessRules.ts:9-33 | an input failing only the title check has exactly the one title error |
| TicketBusinessRules.MissingOrBlankIffWhitespace | src/modules/ticket/domain/rules/TicketBusinessRules.ts:12-18 | a title or description is rejected exactly when it is absent or all whitespace, which includes empty |
| TicketBusinessRules.CategoryRule | src/modules/ticket/domain/rules/TicketBusinessRules.ts:28-30 | an empty category is accepted, and a present category is rejected exactly when it is non-empty and all whitespace |
| TicketBusinessRules.PriorityRule | src/modules/ticket/domain/rules/TicketBusinessRules.ts:24-26 | an absent priority is accepted, and a present one is rejected exactly when it names none of the four priorities |
| TicketBusinessRules.ValidateStatusTransition | src/modules/ticket/domain/rules/TicketBusinessRules.ts:35-46 | CLOSED has no successor, no status moves to itself, NEW is never a target, and every other status may close |
| TicketBusinessRules.TransitionPairsDistinct | src/modules/ticket/domain/rules/TicketBusinessRules.ts:36-43 | the table lists 13 distinct pairs |
| TicketBusinessRules.TransitionTableIsThePairs | src/modules/ticket/domain/rules/TicketBusinessRules.ts:35-46 | a transition is allowed exactly when it is one of those 13 pairs |
| TicketBusinessRules.ValidateTicketAssignment | src/modules/ticket/domain/rules/TicketBusinessRules.ts:48-60 | valid exactly when there are no errors; an empty agent id and a CLOSED ticket are two independent errors, in that order, and nothing else is an error |
| TicketBusinessRules.CalculateResolutionTime | src/modules/ticket/domain/rules/TicketBusinessRules.ts:62-65 | none without a resolution time, and otherwise the time from creation to resolution |
| TicketBusinessRules.ValidateComment | src/modules/ticket/domain/rules/TicketBusinessRules.ts:67-79 | valid exactly when there are no errors; a blank comment and a comment over 5000 UTF-16 units are the two errors, in that order |
| TicketBusinessRules.CommentAtLimitAccepted | src/modules/ticket/domain/rules/TicketBusinessRules.ts:74 | a non-blank comment of exactly 5000 characters is accepted |
| TicketRepository.FilterIsMatching | src/modules/ticket/infrastructure/repositories/MockTicketRepository.ts:38-52 | filtering by the match predicate gives the matching tickets in stored order |
| TicketRepository.ApplyFilters | src/modules/ticket/infrastructure/repositories/MockTicketRepository.ts:35-52 | the chain of filters, each applied only when its value is truthy, equals the single AND of all the given filters; `search` plays no part |
| TicketRepository.ApplyFiltersIsMatching | src/modules/ticket/infrastructure/repositories/MockTicketRepository.ts:38-52 | the five conditional filter stages compose into the conjunctive match |
| TicketRepository.MatchingTickets | src/modules/ticket/infrastructure/repositories/MockTicketRepository.ts:38-52 | a ticket is among the matches exactly when it is in the list and passes every given filter, and there are never more matches than tickets |
| TicketRepository.SliceWindow | src/modules/ticket/infrastructure/repositories/MockTicketRepository.ts:57 | element `i` of a non-negative slice is element `start + i` of the list; the slice is empty exactly when it starts at or past the end, and otherwise it holds `end - start` elements or all the rest of the list, whichever is fewer |
| TicketRepository.PageStartBound | src/modules/ticket/infrastructure/repositories/MockTicketRepository.ts:56-64 | with a positive limit, a page's first index lies before the total exactly when the page is at most `totalPages` |
| TicketRepository.Paginate | src/modules/ticket/infrastructure/repositories/MockTicketRepository.ts:54-65 | the total is the size of the filtered list; page and limit default to 1 and 20 when absent or zero; `totalPages` is the ceiling of total over limit |
| TicketRepository.OrDefault | src/modules/ticket/infrastructure/repositories/MockTicketRepository.ts:54-55 | the fallback of an absent or zero value is either the given value or the default, keeps any non-zero given value, and is zero only if the default is |
| TicketRepository.PageOf | src/modules/ticket/infrastructure/repositories/MockTicketRepository.ts:56-65 | the page reports the list's full size as its total, the page and limit it was asked for, and `totalPages` as the least count of `limit`-sized pages covering the total |
| TicketRepository.PaginateWindow | src/modules/ticket/infrastructure/repositories/MockTicketRepository.ts:54-57 | with a positive page and limit, item `i` of the page is filtered ticket `(page - 1) * limit + i`; the page is empty exactly past `totalPages`; otherwise it holds `limit` tickets, or all the remaining ones when fewer are left |
| TicketRepository.PageOfWindow | src/modules/ticket/infrastructure/repositories/MockTicketRepository.ts:56-57 | the same window, length and emptiness facts for an explicit positive page and limit |
| TicketRepository.PageItemsFrom | src/modules/ticket/infrastructure/repositories/MockTicketRepository.ts:57 | every item on a page comes from the filtered list, whatever the page and limit |
| TicketRepository.MockTicketRepository.All | src/modules/ticket/infrastructure/repositories/MockTicketRepository.ts:35 | the stored tickets in insertion order |
| TicketRepository.MockTicketRepository.Create | src/modules/ticket/infrastructure/repositories/MockTicketRepository.ts:8-18 | stores and returns a copy under a fresh id with creation and update time now, all other fields as passed; with unissued ids it is a new last key and freshness is kept |
| TicketRepository.MockTicketRepository.FindById | src/modules/ticket/infrastructure/repositories/MockTicketRepository.ts:20-22 | the ticket stored under the id, or none exactly when no ticket is stored under it; reads only |
| TicketRepository.MockTicketRepository.Update | src/modules/ticket/infrastructure/repositories/MockTicketRepository.ts:24-32 | stores the ticket under its own id with update time now, replacing or inserting; every other key is unchanged, an existing key keeps its place, and freshness is kept for an existing key |
| TicketRepository.MockTicketRepository.FindMany | src/modules/ticket/infrastructure/repositories/MockTicketRepository.ts:34-66 | the page of the stored tickets that match, in stored order |
| TicketRepository.FindManySound | src/modules/ticket/infrastructure/repositories/MockTicketRepository.ts:34-66 | every ticket on the page is stored and matches, and the total counts every stored match, not the whole store |
| TicketRepository.MockTicketRepository.FindByCustomerId | src/modules/ticket/infrastructure/repositories/MockTicketRepository.ts:68-70 | exactly the stored tickets of that customer, each once, in the order the store holds them |
| TicketRepository.MockTicketRepository.FindByAssignedAgent | src/modules/ticket/infrastructure/repositories/MockTicketRepository.ts:72-74 | exactly the stored tickets assigned to that agent, each once, in the order the store holds them |
| TicketRepository.StoredSelection | src/modules/ticket/infrastructure/repositories/MockTicketRepository.ts:68-74 | filtering the stored tickets selects exactly the stored tickets that pass, in storage order |
| HistoryRepository.Insert | src/modules/ticket/infrastructure/repositories/MockTicketHistoryRepository.ts:22 | inserting one entry adds exactly it and keeps a newest-first list newest-first |
| HistoryRepository.InsertKeepsOrder | src/modules/ticket/infrastructure/repositories/MockTicketHistoryRepository.ts:22 | putting the newest entry in front keeps a newest-first list newest-first |
| HistoryRepository.SortNewestFirst | src/modules/ticket/infrastructure/repositories/MockTicketHistoryRepository.ts:22 | the sort by descending timestamp is a permutation with timestamps non-increasing |
| HistoryRepository.InsertStable | src/modules/ticket/infrastructure/repositories/MockTicketHistoryRepository.ts:22 | insertion keeps entries with equal timestamps in their order |
| HistoryRepository.SortStable | src/modules/ticket/infrastructure/repositories/MockTicketHistoryRepository.ts:22 | the sort is stable: entries sharing a timestamp keep their recorded order |
| HistoryRepository.InsertNewestThenBy | src/modules/ticket/infrastructure/repositories/MockTicketHistoryRepository.ts:22 | inserting an entry whose key is below every other keeps a list ordered newest first and then by key |
| HistoryRepository.SortNewestThenBy | src/modules/ticket/infrastructure/repositories/MockTicketHistoryRepository.ts:22 | sorting a list whose keys increase orders it newest first and, among equal timestamps, by key: ties keep their original order |
| HistoryRepository.SortedSelection | src/modules/ticket/infrastructure/repositories/MockTicketHistoryRepository.ts:19-23 | the sorted entries of one ticket hold every id once, and entries with equal timestamps appear in the order they were recorded |
| HistoryRepository.MockTicketHistoryRepository.Entries | src/modules/ticket/infrastructure/repositories/MockTicketHistoryRepository.ts:20 | the recorded entries in insertion order |
| HistoryRepository.MockTicketHistoryRepository.Create | src/modules/ticket/infrastructure/repositories/MockTicketHistoryRepository.ts:8-17 | stores the entry under a fresh id stamped now, overriding the incoming id and timestamp; the history grows by exactly that entry at the end and nothing else changes |
| HistoryRepository.MockTicketHistoryRepository.FindByTicketId | src/modules/ticket/infrastructure/repositories/MockTicketHistoryRepository.ts:19-23 | exactly the recorded entries of that ticket, so none for an unknown id, each once, newest first, with equal timestamps in recording order; reads only |
| Audit.Detail | src/shared/services/AuditService.ts:19-21 | `details?.key` is present exactly when the bag exists and holds the key |
| Audit.BuildEntry | src/shared/services/AuditService.ts:14-23 | the entry has an empty id, the given ticket, user and action, and the call's time, and it carries only the three detail values |
| Audit.OnlyThreeDetailsSurvive | src/shared/services/AuditService.ts:19-21 | two details bags that agree on previousValue, newValue and comment give the same entry |
| Audit.NoValuesWithoutThem | src/shared/services/AuditService.ts:19-21 | with no bag, or none of the three keys, the entry carries no previous value, new value or comment |
| Audit.AuditService.RecordTicketAction | src/shared/services/AuditService.ts:8-26 | appends exactly one entry for any action and ticket, with the history store's fresh id |
| CreateTicket.CreationInputOf | src/modules/ticket/application/usecases/CreateTicketUseCase.ts:23 | the typed request is validated with its priority as the priority's string value |
| CreateTicket.ValidationFailure | src/modules/ticket/application/usecases/CreateTicketUseCase.ts:24-26 | a rejected request's message opens with `Validation failed: ` and the message of the first check it fails, and is exactly that when only one check fails |
| CreateTicket.TitleOnlyFailureMessage | src/modules/ticket/application/usecases/CreateTicketUseCase.ts:24-26 | a request whose title alone is blank is refused with exactly `Validation failed: Ticket title is required` |
| CreateTicket.TypedPriorityNeverFails | src/modules/ticket/application/usecases/CreateTicketUseCase.ts:10 | a priority typed as the enumeration never triggers the invalid-priority error |
| CreateTicket.NewTicket | src/modules/ticket/application/usecases/CreateTicketUseCase.ts:29-39 | the ticket handed to the store is NEW, unassigned, neither resolved nor closed, created and updated now, with the request's priority and customer |
| CreateTicket.NewTicketIsTrimmed | src/modules/ticket/application/usecases/CreateTicketUseCase.ts:31-35 | its title, description and category are already trimmed and no longer than submitted |
| CreateTicket.CreatedDetails | src/modules/ticket/application/usecases/CreateTicketUseCase.ts:48 | the CREATED details carry the submitted title and the priority's string value, and none of the three keys the recorder keeps |
| CreateTicket.AcceptedRequestBuildsNewTicket | src/modules/ticket/application/usecases/CreateTicketUseCase.ts:29-39 | an accepted request gives a NEW, unassigned, unresolved ticket; its title and description are trimmed and non-empty; priority and customer pass through |
| CreateTicket.PresentTextIsTrimmedNonEmpty | src/modules/ticket/application/usecases/CreateTicketUseCase.ts:31-32 | text that passed the required check trims to non-empty, already-trimmed text |
| CreateTicket.CreatedEntryCarriesNoValues | src/modules/ticket/application/usecases/CreateTicketUseCase.ts:44-49 | the CREATED entry has no previous value, new value or comment, since the bag holds only title and priority |
| CreateTicket.CreateTicketUseCase.Execute | src/modules/ticket/application/usecases/CreateTicketUseCase.ts:21-52 | on rejection the validation failure, with neither store touched; on acceptance the store's created ticket is returned under a new id that becomes the last key, after one create and then one CREATED entry by the customer |
| UpdateTicketStatus.WithStatus | src/modules/ticket/application/usecases/UpdateTicketStatusUseCase.ts:34-40 | the status becomes the target; resolvedAt is stamped exactly when the target is RESOLVED and closedAt exactly when it is CLOSED; every other field is kept |
| UpdateTicketStatus.InvalidTransitionMessageNamesBoth | src/modules/ticket/application/usecases/UpdateTicketStatusUseCase.ts:28 | the refusal message names both statuses unambiguously: equal messages come from the same current and target status |
| UpdateTicketStatus.Decide | src/modules/ticket/application/usecases/UpdateTicketStatusUseCase.ts:19-40 | `Ticket not found` for an unknown id; the invalid-transition message for a refused pair; success exactly for a known ticket and an allowed transition |
| UpdateTicketStatus.StatusChangeDetails | src/modules/ticket/application/usecases/UpdateTicketStatusUseCase.ts:49-53 | the entry's previous value is the old status, its new value the requested status, and its comment the request's comment |
| UpdateTicketStatus.UpdateTicketStatusUseCase.Execute | src/modules/ticket/application/usecases/UpdateTicketStatusUseCase.ts:19-57 | the outcome is `Decide` on the stored ticket; a failure changes neither store; a success replaces the stored ticket in place and appends one STATUS_CHANGED entry by the request's user |
| AssignTicket.WithAgent | src/modules/ticket/application/usecases/AssignTicketUseCase.ts:29-34 | the agent is overwritten; NEW becomes ASSIGNED and any other status stays; every other field, resolution and closing times included, is kept |
| AssignTicket.Decide | src/modules/ticket/application/usecases/AssignTicketUseCase.ts:18-34 | `Ticket not found` for an unknown id; `Assignment failed: ` plus the joined errors when validation fails; success exactly for a known, non-closed ticket and a non-empty agent id |
| AssignTicket.AssignedEntryCarriesNoValues | src/modules/ticket/application/usecases/AssignTicketUseCase.ts:38-43 | the ASSIGNED entry has no previous value, new value or comment, since the bag holds only the agent id |
| AssignTicket.AssignmentDetails | src/modules/ticket/application/usecases/AssignTicketUseCase.ts:42 | the ASSIGNED details carry the agent's id and none of the three keys the recorder keeps |
| AssignTicket.ClosedTicketAssignmentMessage | src/modules/ticket/application/usecases/AssignTicketUseCase.ts:24-27 | assigning a closed ticket fails with the closed-ticket message, preceded by the agent-id message when the id is empty |
| AssignTicket.AssignTicketUseCase.Execute | src/modules/ticket/application/usecases/AssignTicketUseCase.ts:18-46 | the outcome is `Decide` on the stored ticket; a failure changes neither store; a success replaces the stored ticket in place and appends one ASSIGNED entry by the assigner |
| GetTicket.GetTicketUseCase.Execute | src/modules/ticket/application/usecases/GetTicketUseCase.ts:7-9 | the stored ticket, or none exactly for an unknown id; reads only |
| GetTicket.GetTicketUseCase.ExecuteMany | src/modules/ticket/application/usecases/GetTicketUseCase.ts:11-13 | exactly the store's page for the filters; its tickets are stored and match, and its total counts every match |
| GetTicket.GetTicketUseCase.ExecuteByCustomer | src/modules/ticket/application/usecases/GetTicketUseCase.ts:15-17 | exactly the store's list of the customer's tickets, unpaginated: each stored ticket of the customer once, in storage order |
| GetTicket.GetTicketUseCase.ExecuteByAgent | src/modules/ticket/application/usecases/GetTicketUseCase.ts:19-21 | exactly the store's list of the agent's tickets, unpaginated: each stored ticket assigned to the agent once, in storage order |
| Lifecycle.StepKeepsInv | src/modules/ticket/application/usecases/UpdateTicketStatusUseCase.ts:34-40 | a successful status change or assignment, no earlier than the last update, keeps the timestamp invariant, the id and the creation time |
| Lifecycle.ClosedIsAbsorbing | src/modules/ticket/domain/rules/TicketBusinessRules.ts:42 | from a closed ticket every command fails: the ticket stays and nothing is recorded |
| Lifecycle.RunAppend | src/modules/ticket/application/usecases/UpdateTicketStatusUseCase.ts:19-57 | running two batches of calls in turn is running them together |
| Lifecycle.ClosedStaysClosed | src/modules/ticket/application/usecases/AssignTicketUseCase.ts:24-27 | once a run has closed the ticket, later calls change nothing |
| Lifecycle.LogCountsSuccesses | src/shared/services/AuditService.ts:25 | the history grows by exactly one entry per successful call |
| Lifecycle.RunStaysOnTicket | src/modules/ticket/application/usecases/UpdateTicketStatusUseCase.ts:45-47 | every recorded entry names the ticket, which keeps its id and creation time |
| Lifecycle.RunKeepsInv | src/modules/ticket/application/usecases/UpdateTicketStatusUseCase.ts:38-39 | under a clock that never runs backwards, a run keeps the timestamp invariant |
| Lifecycle.LifecycleFromCreation | src/modules/ticket/application/usecases/CreateTicketUseCase.ts:29-39 | from a created ticket: a resolved ticket has its resolution time; exactly a closed ticket has its closing time; the resolution time is never negative; one entry per success; closed stays closed |

## Left out

- HTTP controllers, routes, status-code mapping and the Joi request schemas
  are not part of this model. So the length bounds on title and
  description are not enforced: they exist only in the schemas.
- The DynamoDB repositories, the dependency container, logging and the
  deployment tooling are not part of this model.
- Wall-clock time and random ids are not modelled:
  - every call takes one clock reading `now`;
  - the several `new Date()` readings of one request are taken to be that
    one reading;
  - `uuidv4()` is a per-store counter rendered as `ticket-<n>` and
    `history-<n>`.
- Interleaving of concurrent requests is not modelled: each use case is one
  atomic method. So the lost update between `findById` and `update` is not
  captured.
- Request bodies are typed as declared: every field of a create request is
  present and priorities and statuses are enumeration values. The
  `TypeError` a missing category would raise at `category.trim()` is
  therefore outside the model. The validator itself is modelled on the
  partial input it is written for.
- TicketFilters.page and TicketFilters.limit are whole numbers. The `NaN`
  a failed `parseInt` would yield, which falls back to the default, is not
  modelled.
- TicketRepository.MockTicketRepository.Update: freshness of future ids is
  proved only for an update whose id is already stored, which is the only
  kind the use cases make. An update under a forged future id would take
  that id.
- CalculateResolutionTime works in whole clock units, not JavaScript
  `Date` milliseconds.
- The `search` field of the ticket filters is ignored by the source and by the
  model alike.
- The lifecycle theorem is stated over the pure `Decide` functions. The
  store-level `Execute` methods are each proved to return `Decide` of the
  stored ticket and to store its result. Chaining several `Execute` calls
  on one ticket therefore follows the same run. This chaining is argued,
  not stated as one lemma.
