/** The ticket business rules: validation of creation input, of an
    assignment and of a comment, each collecting every applicable error in a
    fixed order rather than stopping at the first; the status transition
    table; and the resolution time of a ticket. */
module TicketBusinessRules {
  import opened Wrappers
  import opened JsBuiltins
  import opened TicketEntities

  datatype ValidationResult = ValidationResult(isValid: bool, errors: seq<string>)

  /** The fields creation validation reads from a partial ticket. An absent
      field is `None`; `priority` is whatever string the caller supplied. */
  datatype CreationInput = CreationInput(
    title: Option<string>,
    description: Option<string>,
    customerId: Option<string>,
    priority: Option<string>,
    category: Option<string>)

  const TitleRequired := "Ticket title is required"
  const DescriptionRequired := "Ticket description is required"
  const CustomerIdRequired := "Customer ID is required"
  const InvalidPriority := "Invalid ticket priority"
  const CategoryEmpty := "Category cannot be empty if provided"
  const AgentIdRequired := "Agent ID is required for assignment"
  const CannotAssignClosed := "Cannot assign closed tickets"
  const CommentEmpty := "Comment cannot be empty"
  const CommentTooLong := "Comment cannot exceed 5000 characters"

  const MaxCommentLength := 5000

  /** `!s || s.trim().length === 0` */
  predicate MissingOrBlank(s: Option<string>) {
    !Truthy(s) || Trim(s.value) == []
  }

  predicate TitleFails(t: CreationInput) { MissingOrBlank(t.title) }
  predicate DescriptionFails(t: CreationInput) { MissingOrBlank(t.description) }
  predicate CustomerIdFails(t: CreationInput) { !Truthy(t.customerId) }
  predicate PriorityFails(t: CreationInput) { Truthy(t.priority) && t.priority.value !in PriorityNames }
  predicate CategoryFails(t: CreationInput) { Truthy(t.category) && Trim(t.category.value) == [] }

  /** Position of each creation message in the order the checks run. */
  function CreationRank(msg: string): int {
    if msg == TitleRequired then 0
    else if msg == DescriptionRequired then 1
    else if msg == CustomerIdRequired then 2
    else if msg == InvalidPriority then 3
    else if msg == CategoryEmpty then 4
    else -1
  }

  /** `if (failed) errors.push(msg)` */
  function PushIf(errors: seq<string>, failed: bool, msg: string): (r: seq<string>)
    ensures forall m :: m in r <==> m in errors || (failed && m == msg)
  {
    if failed then errors + [msg] else errors
  }

  /** Every message of `e` is a creation message of rank below `k`, and
      ranks strictly increase along `e`. */
  ghost predicate RankedBelow(e: seq<string>, k: int) {
    && (forall i :: 0 <= i < |e| ==> 0 <= CreationRank(e[i]) < k)
    && (forall i, j :: 0 <= i < j < |e| ==> CreationRank(e[i]) < CreationRank(e[j]))
  }

  lemma PushIfRanked(e: seq<string>, failed: bool, msg: string, k: int)
    requires RankedBelow(e, k) && 0 <= k && CreationRank(msg) == k
    ensures RankedBelow(PushIf(e, failed, msg), k + 1)
  {
    var r := PushIf(e, failed, msg);
    if failed {
      assert r == e + [msg];
      assert forall i :: 0 <= i < |e| ==> r[i] == e[i];
    }
  }

  lemma CreationMessagesDistinct()
    ensures TitleRequired != DescriptionRequired && TitleRequired != CustomerIdRequired
    ensures TitleRequired != InvalidPriority && TitleRequired != CategoryEmpty
    ensures DescriptionRequired != CustomerIdRequired && DescriptionRequired != InvalidPriority
    ensures DescriptionRequired != CategoryEmpty && CustomerIdRequired != InvalidPriority
    ensures CustomerIdRequired != CategoryEmpty && InvalidPriority != CategoryEmpty
    ensures CreationRank(TitleRequired) == 0
    ensures CreationRank(DescriptionRequired) == 1
    ensures CreationRank(CustomerIdRequired) == 2
    ensures CreationRank(InvalidPriority) == 3
    ensures CreationRank(CategoryEmpty) == 4
  {
    assert TitleRequired[7] != DescriptionRequired[7];
    assert TitleRequired[0] != CustomerIdRequired[0] && DescriptionRequired[0] != CustomerIdRequired[0];
    assert TitleRequired[0] != InvalidPriority[0] && DescriptionRequired[0] != InvalidPriority[0];
    assert CustomerIdRequired[0] != InvalidPriority[0];
    assert TitleRequired[0] != CategoryEmpty[0] && DescriptionRequired[0] != CategoryEmpty[0];
    assert CustomerIdRequired[1] != CategoryEmpty[1] && InvalidPriority[0] != CategoryEmpty[0];
  }

  /** The error list `validateTicketCreation` builds from the outcome of its
      five checks, pushing one message per failed check in check order. */
  function CreationErrors(title: bool, description: bool, customerId: bool, priority: bool, category: bool): (r: seq<string>)
    ensures TitleRequired in r <==> title
    ensures DescriptionRequired in r <==> description
    ensures CustomerIdRequired in r <==> customerId
    ensures InvalidPriority in r <==> priority
    ensures CategoryEmpty in r <==> category
    ensures forall i :: 0 <= i < |r| ==> CreationRank(r[i]) >= 0
    ensures forall i, j :: 0 <= i < j < |r| ==> CreationRank(r[i]) < CreationRank(r[j])
  {
    CreationMessagesDistinct();
    var e1 := PushIf([], title, TitleRequired);
    PushIfRanked([], title, TitleRequired, 0);
    var e2 := PushIf(e1, description, DescriptionRequired);
    PushIfRanked(e1, description, DescriptionRequired, 1);
    var e3 := PushIf(e2, customerId, CustomerIdRequired);
    PushIfRanked(e2, customerId, CustomerIdRequired, 2);
    var e4 := PushIf(e3, priority, InvalidPriority);
    PushIfRanked(e3, priority, InvalidPriority, 3);
    var e5 := PushIf(e4, category, CategoryEmpty);
    PushIfRanked(e4, category, CategoryEmpty, 4);
    e5
  }

  /** `validateTicketCreation`: one message per failed check, every check
      run, messages in the order title, description, customer, priority,
      category; valid exactly when no check failed. */
  function ValidateTicketCreation(t: CreationInput): (r: ValidationResult)
    ensures r.isValid <==> r.errors == []
    ensures r.isValid <==> !TitleFails(t) && !DescriptionFails(t) && !CustomerIdFails(t) && !PriorityFails(t) && !CategoryFails(t)
    ensures TitleRequired in r.errors <==> TitleFails(t)
    ensures DescriptionRequired in r.errors <==> DescriptionFails(t)
    ensures CustomerIdRequired in r.errors <==> CustomerIdFails(t)
    ensures InvalidPriority in r.errors <==> PriorityFails(t)
    ensures CategoryEmpty in r.errors <==> CategoryFails(t)
    ensures forall i :: 0 <= i < |r.errors| ==> CreationRank(r.errors[i]) >= 0
    ensures forall i, j :: 0 <= i < j < |r.errors| ==> CreationRank(r.errors[i]) < CreationRank(r.errors[j])
  {
    var errors := CreationErrors(TitleFails(t), DescriptionFails(t), CustomerIdFails(t), PriorityFails(t), CategoryFails(t));
    ValidationResult(|errors| == 0, errors)
  }
  /** The message of the first check, in check order, that `t` fails. */
  function FirstFailure(t: CreationInput): string {
    if TitleFails(t) then TitleRequired
    else if DescriptionFails(t) then DescriptionRequired
    else if CustomerIdFails(t) then CustomerIdRequired
    else if PriorityFails(t) then InvalidPriority
    else CategoryEmpty
  }

  /** A rejected input's first error is the message of the first check it
      fails. */
  lemma FirstErrorIsFirstFailure(t: CreationInput)
    ensures !ValidateTicketCreation(t).isValid ==> ValidateTicketCreation(t).errors[0] == FirstFailure(t)
  {
    if ValidateTicketCreation(t).isValid {
      return;
    }
    var e := ValidateTicketCreation(t).errors;
    var m := FirstFailure(t);
    CreationMessagesDistinct();
    assert m in e;
    var k :| 0 <= k < |e| && e[k] == m;
    assert CreationRank(e[0]) <= CreationRank(m) by {
      if k > 0 {
        assert CreationRank(e[0]) < CreationRank(e[k]);
      }
    }
    assert CreationRank(e[0]) >= 0;
  }

  /** An input that fails only the title check is rejected with that one
      error. */
  lemma TitleOnlyFailure(t: CreationInput)
    requires TitleFails(t) && !DescriptionFails(t) && !CustomerIdFails(t) && !PriorityFails(t) && !CategoryFails(t)
    ensures ValidateTicketCreation(t).errors == [TitleRequired]
  {
    var e := ValidateTicketCreation(t).errors;
    CreationMessagesDistinct();
    assert forall i :: 0 <= i < |e| ==> e[i] == TitleRequired by {
      forall i | 0 <= i < |e| ensures e[i] == TitleRequired {
        assert e[i] in e;
        assert CreationRank(e[i]) >= 0;
      }
    }
    assert TitleRequired in e;
  }


  /** A title or description is rejected exactly when it is absent or made
      of whitespace only (the empty string included). */
  lemma MissingOrBlankIffWhitespace(s: Option<string>)
    ensures MissingOrBlank(s) <==> s.None? || AllWhitespace(s.value)
  {
    if s.Some? {
      TrimEmptyIffAllWhitespace(s.value);
    }
  }

  /** An empty category counts as not provided and passes; a non-empty
      category of whitespace only fails. */
  lemma CategoryRule(c: string)
    ensures !CategoryFails(CreationInput(None, None, None, None, Some("")))
    ensures CategoryFails(CreationInput(None, None, None, None, Some(c))) <==> c != "" && AllWhitespace(c)
  {
    TrimEmptyIffAllWhitespace(c);
  }

  /** A priority is checked only when given: an absent or empty one passes,
      a given one passes exactly when it names a `TicketPriority`. */
  lemma PriorityRule(p: Option<string>)
    ensures p.None? ==> !PriorityFails(CreationInput(None, None, None, p, None))
    ensures Truthy(p) ==> (PriorityFails(CreationInput(None, None, None, p, None)) <==> !exists q :: PriorityName(q) == p.value)
  {
    if p.Some? {
      PriorityNamesAreThePriorities(p.value);
    }
  }

  /** The successors of each status in the transition table. */
  function Successors(s: TicketStatus): seq<TicketStatus> {
    match s
    case New => [Assigned, Closed]
    case Assigned => [InProgress, Pending, Closed]
    case InProgress => [Pending, Resolved, Closed]
    case Pending => [InProgress, Resolved, Closed]
    case Resolved => [Closed, InProgress]
    case Closed => []
  }

  /** `validateStatusTransition`: Closed has no successor, no status goes to
      itself, New is never a target, and every other status may close. */
  function ValidateStatusTransition(current: TicketStatus, target: TicketStatus): (ok: bool)
    ensures current == Closed ==> !ok
    ensures current == target ==> !ok
    ensures target == New ==> !ok
    ensures current != Closed && target == Closed ==> ok
  {
    target in Successors(current)
  }

  /** The transition table written out as its list of (current, target)
      pairs. */
  const TransitionPairs: seq<(TicketStatus, TicketStatus)> := [
    (New, Assigned), (New, Closed),
    (Assigned, InProgress), (Assigned, Pending), (Assigned, Closed),
    (InProgress, Pending), (InProgress, Resolved), (InProgress, Closed),
    (Pending, InProgress), (Pending, Resolved), (Pending, Closed),
    (Resolved, Closed), (Resolved, InProgress)]

  /** The list holds thirteen distinct pairs. */
  lemma TransitionPairsDistinct()
    ensures |TransitionPairs| == 13
    ensures forall i, j :: 0 <= i < j < |TransitionPairs| ==> TransitionPairs[i] != TransitionPairs[j]
  {
  }

  /** `validateStatusTransition` allows exactly the listed pairs. */
  lemma TransitionTableIsThePairs(a: TicketStatus, b: TicketStatus)
    ensures ValidateStatusTransition(a, b) <==> (a, b) in TransitionPairs
  {
  }

  /** `validateTicketAssignment`: a missing agent and a closed ticket are two
      independent errors, reported in that order. */
  function ValidateTicketAssignment(ticket: Ticket, agentId: string): (r: ValidationResult)
    ensures r.isValid <==> r.errors == []
    ensures AgentIdRequired in r.errors <==> agentId == ""
    ensures CannotAssignClosed in r.errors <==> ticket.status == Closed
    ensures forall i :: 0 <= i < |r.errors| ==> r.errors[i] == AgentIdRequired || r.errors[i] == CannotAssignClosed
    ensures forall i, j :: 0 <= i < j < |r.errors| ==> r.errors[i] == AgentIdRequired && r.errors[j] == CannotAssignClosed
  {
    var e1 := if agentId == "" then [AgentIdRequired] else [];
    var e2 := if ticket.status == Closed then e1 + [CannotAssignClosed] else e1;
    ValidationResult(|e2| == 0, e2)
  }

  /** `calculateResolutionTime`: none for an unresolved ticket, otherwise the
      clock units from creation to resolution. */
  function CalculateResolutionTime(ticket: Ticket): (r: Option<int>)
    ensures r.None? <==> ticket.resolvedAt.None?
    ensures r.Some? ==> ticket.createdAt + r.value == ticket.resolvedAt.value
  {
    match ticket.resolvedAt
    case None => None
    case Some(resolved) => Some(resolved - ticket.createdAt)
  }

  /** `validateComment`: a blank comment and one over 5000 UTF-16 code units
      are two independent errors, reported in that order. */
  function ValidateComment(comment: string): (r: ValidationResult)
    ensures r.isValid <==> r.errors == []
    ensures CommentEmpty in r.errors <==> AllWhitespace(comment)
    ensures CommentTooLong in r.errors <==> Utf16Length(comment) > MaxCommentLength
    ensures forall i :: 0 <= i < |r.errors| ==> r.errors[i] == CommentEmpty || r.errors[i] == CommentTooLong
    ensures forall i, j :: 0 <= i < j < |r.errors| ==> r.errors[i] == CommentEmpty && r.errors[j] == CommentTooLong
  {
    TrimEmptyIffAllWhitespace(comment);
    var e1 := if comment == "" || Trim(comment) == [] then [CommentEmpty] else [];
    var e2 := if Utf16Length(comment) > MaxCommentLength then e1 + [CommentTooLong] else e1;
    ValidationResult(|e2| == 0, e2)
  }

  /** A comment of exactly 5000 characters from the Basic Multilingual Plane
      is accepted as long as it is not blank. */
  lemma CommentAtLimitAccepted(comment: string)
    requires |comment| == MaxCommentLength && !AllWhitespace(comment)
    requires forall i :: 0 <= i < |comment| ==> comment[i] as int <= 0xFFFF
    ensures ValidateComment(comment).isValid
  {
    Utf16LengthOfBmp(comment);
  }
}
