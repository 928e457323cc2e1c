/**
 * The current implementation's entry point: the project-number check made
 * when the module loads, the resolver of the statuses to move between,
 * the project query, the paginated collector of watched cards and the
 * decision chain of one run.
 */
module Main {
  import opened Wrappers
  import opened Js
  import opened Const
  import opened Board
  import opened Utils

  // ---------------------------------------------------------------------
  // The project-number check made when the module loads
  // ---------------------------------------------------------------------

  const ProjectNumberPrefix := "Project number must be a positive integer, got: "

  function ProjectNumberMessage(n: Number): string {
    ProjectNumberPrefix + NumberToString(n)
  }

  /**
   * The check on the configured project number: it passes exactly for a
   * positive integer, and otherwise throws an `InvariantError` naming the
   * number it got.
   */
  function CheckProjectNumber(n: Number): (r: Completion)
    ensures r.Normal? <==> IsPositiveInteger(n)
    ensures r.Abrupt? ==> r.error == InvariantError(ProjectNumberMessage(n))
  {
    Invariant(n.Integer? && n.value > 0, ProjectNumberMessage(n))
  }

  /**
   * A rejected integer is reported in decimal, with a minus sign when it
   * is negative, and the digits read back as its magnitude.
   */
  lemma RejectedNumberIsNamed(v: int)
    requires v <= 0
    ensures CheckProjectNumber(Integer(v)).Abrupt?
    ensures CheckProjectNumber(Integer(v)).error.message == ProjectNumberPrefix + NumberToString(Integer(v))
    ensures v == 0 ==> NumberToString(Integer(v)) == "0"
    ensures v < 0 ==> NumberToString(Integer(v)) == "-" + NatToDecimal(-v)
    ensures DecimalValue(NatToDecimal(-v)) == -v
  {
    assert NatToDecimal(0) == "0";
    DecimalRoundTrip(-v);
  }

  // ---------------------------------------------------------------------
  // getActionParams
  // ---------------------------------------------------------------------

  /** The statuses a card is taken from, and the status it is moved to (`undefined` when absent). */
  datatype ActionParams = ActionParams(getFrom: seq<string>, moveTo: Option<string>)

  /**
   * `getActionParams()`: on "assigned", move from the watched statuses to
   * the target; on "unassigned" with no assignee left, move back from the
   * target to the first watched status; otherwise there is nothing to do.
   * Reading the length of absent assignees throws a `TypeError`.
   */
  function GetActionParams(ctx: Context): (r: Result<Option<ActionParams>, Thrown>)
    ensures r.Err? <==> ctx.actionType == Unassigned && ctx.assignees.None?
    ensures r.Err? ==> r.error == TypeError(ReadLengthOfUndefined)
    ensures r.Ok? && r.value.Some? ==> ctx.actionType in {Assigned, Unassigned}
    ensures ctx.actionType == Assigned ==>
              r == Ok(Some(ActionParams(DelimitString(ctx.sourceStatus), Some(ctx.targetStatus))))
    ensures ctx.actionType == Unassigned && ctx.assignees == Some([]) ==>
              r.Ok? && r.value.Some? && r.value.value.getFrom == [ctx.targetStatus] &&
              (r.value.value.moveTo.Some? <==> !IsBlankList(ctx.sourceStatus, ',')) &&
              (DelimitString(ctx.sourceStatus) != [] ==> r.value.value.moveTo == Some(DelimitString(ctx.sourceStatus)[0]))
  {
    DelimitEmptyIffBlank(ctx.sourceStatus, ',');
    var getFrom := DelimitString(ctx.sourceStatus);
    if ctx.actionType == Assigned then
      Ok(Some(ActionParams(getFrom, Some(ctx.targetStatus))))
    else if ctx.actionType != Unassigned then
      Ok(None)
    else
      match ctx.assignees
      case None => Err(TypeError(ReadLengthOfUndefined))
      case Some(logins) =>
        if |logins| == 0 then
          Ok(Some(ActionParams([ctx.targetStatus], if getFrom == [] then None else Some(getFrom[0]))))
        else
          Ok(None)
  }

  /** There is nothing to do exactly when the event is neither an assignment nor the last unassignment. */
  lemma NoActionIff(ctx: Context)
    ensures GetActionParams(ctx) == Ok(None) <==>
            ctx.actionType != Assigned &&
            (ctx.actionType != Unassigned || (ctx.assignees.Some? && |ctx.assignees.value| != 0))
  {
  }

  /** An assignment moves from every watched status to the target, whoever the assignees are. */
  lemma AssignedParams(ctx: Context)
    requires ctx.actionType == Assigned
    ensures GetActionParams(ctx) == Ok(Some(ActionParams(DelimitString(ctx.sourceStatus), Some(ctx.targetStatus))))
  {
  }

  /**
   * With the default statuses an assignment moves cards from "Todo" to
   * "In Progress", and the last unassignment moves them back.
   */
  lemma DefaultParams(ctx: Context)
    requires ctx.sourceStatus == DefaultSource && ctx.targetStatus == DefaultTarget
    ensures ctx.actionType == Assigned ==>
              GetActionParams(ctx) == Ok(Some(ActionParams(["Todo"], Some("In Progress"))))
    ensures ctx.actionType == Unassigned && ctx.assignees == Some([]) ==>
              GetActionParams(ctx) == Ok(Some(ActionParams(["In Progress"], Some("Todo"))))
  {
    DelimitDefaultSource();
  }

  /**
   * For a single watched status `w`, the last unassignment is the exact
   * reverse of an assignment: it moves from the target back to `w`.
   */
  lemma UnassignReverses(ctx: Context, w: string)
    requires ctx.actionType == Unassigned && ctx.assignees == Some([])
    requires w != "" && IsTrimmed(w) && ',' !in w && ctx.sourceStatus == w
    ensures GetActionParams(ctx) == Ok(Some(ActionParams([ctx.targetStatus], Some(w))))
    ensures GetActionParams(ctx.(actionType := Assigned)) == Ok(Some(ActionParams([w], Some(ctx.targetStatus))))
  {
    DelimitWord(w, ',');
  }

  /**
   * The last unassignment moves back to the first watched status: the
   * trimmed text before the first comma, when that text is not blank.
   */
  lemma MoveBackToFirstWatched(ctx: Context, first: string, rest: string)
    requires ctx.actionType == Unassigned && ctx.assignees == Some([])
    requires ',' !in first && !IsBlank(first)
    requires ctx.sourceStatus == first || ctx.sourceStatus == first + [','] + rest
    ensures GetActionParams(ctx) == Ok(Some(ActionParams([ctx.targetStatus], Some(Trim(first)))))
  {
    DelimitSingle(first, ',');
    if ctx.sourceStatus != first {
      DelimitConcat(first, rest, ',');
    }
  }

  /** When the watch list names no status, the last unassignment has no status to move back to. */
  lemma UnassignWithoutWatchList(ctx: Context)
    requires ctx.actionType == Unassigned && ctx.assignees == Some([])
    requires IsBlankList(ctx.sourceStatus, ',')
    ensures GetActionParams(ctx) == Ok(Some(ActionParams([ctx.targetStatus], None)))
  {
    DelimitEmptyIffBlank(ctx.sourceStatus, ',');
  }

  // ---------------------------------------------------------------------
  // getProject
  // ---------------------------------------------------------------------

  /**
   * `getProject()`: the project of the answer; a rejected request throws
   * its error and a null project an `InvariantError`.
   */
  function GetProject(reply: Reply<ProjectResponse>): (r: Result<Project, Thrown>)
    ensures r.Ok? <==> reply.Answered? && reply.value.project.Some?
    ensures r.Ok? ==> r.value == reply.value.project.value
    ensures reply.Rejected? ==> r == Err(RequestError(reply.message))
    ensures reply.Answered? && reply.value.project.None? ==> r == Err(InvariantError(ProjectNotFound))
  {
    match reply
    case Rejected(message) => Err(RequestError(message))
    case Answered(response) =>
      match Invariant(response.project.Some?, ProjectNotFound)
      case Abrupt(error) => Err(error)
      case Normal => Ok(response.project.value)
  }

  // ---------------------------------------------------------------------
  // getProjectIssuesByFilter
  // ---------------------------------------------------------------------

  /** A card is watched when it has a status and that status is in the filter. */
  predicate Watched(item: Item, filter: seq<string>) {
    item.status.Some? && item.status.value in filter
  }

  /** `nodes.filter(...)`: the watched cards, in page order. */
  function FilterNodes(nodes: seq<Item>, filter: seq<string>): (r: seq<Item>)
    ensures forall x :: x in r <==> x in nodes && Watched(x, filter)
    ensures |r| <= |nodes|
  {
    if nodes == [] then []
    else (if Watched(nodes[0], filter) then [nodes[0]] else []) + FilterNodes(nodes[1..], filter)
  }

  /** Filtering keeps the order of the cards: it distributes over concatenation. */
  lemma {:induction false} FilterNodesConcat(xs: seq<Item>, ys: seq<Item>, filter: seq<string>)
    ensures FilterNodes(xs + ys, filter) == FilterNodes(xs, filter) + FilterNodes(ys, filter)
  {
    if xs == [] {
      assert xs + ys == ys;
    } else {
      var head := if Watched(xs[0], filter) then [xs[0]] else [];
      calc {
        FilterNodes(xs + ys, filter);
        == { assert (xs + ys)[0] == xs[0] && (xs + ys)[1..] == xs[1..] + ys; }
        head + FilterNodes(xs[1..] + ys, filter);
        == { FilterNodesConcat(xs[1..], ys, filter); }
        head + (FilterNodes(xs[1..], filter) + FilterNodes(ys, filter));
        == { SeqAssoc(head, FilterNodes(xs[1..], filter), FilterNodes(ys, filter)); }
        FilterNodes(xs, filter) + FilterNodes(ys, filter);
      }
    }
  }

  /** The answer has a project and an item list. */
  predicate HasItems(reply: Reply<PageResponse>) {
    reply.Answered? && reply.value.project.Some? && reply.value.project.value.items.Some?
  }

  /** The answer asks the collector to request another page. */
  predicate Continues(reply: Reply<PageResponse>) {
    HasItems(reply) && reply.value.project.value.items.value.pageInfo.hasNextPage
  }

  function EndCursor(reply: Reply<PageResponse>): Option<string>
    requires HasItems(reply)
  {
    reply.value.project.value.items.value.pageInfo.endCursor
  }

  /** The watched cards one page contributes; a page without `nodes` contributes none. */
  function PageIssues(reply: Reply<PageResponse>, filter: seq<string>): seq<Item> {
    FilterNodes(PageNodes(reply), filter)
  }

  /** `xs` followed by the cards of `c`; errors and a missing list are kept. */
  function Prepend(xs: seq<Item>, c: Collection): Collection {
    match c
    case Issues(ys) => Issues(xs + ys)
    case _ => c
  }

  lemma PrependNothing(c: Collection)
    ensures Prepend([], c) == c
  {
    if c.Issues? {
      assert [] + c.items == c.items;
    }
  }

  lemma PrependPrepend(xs: seq<Item>, ys: seq<Item>, c: Collection)
    ensures Prepend(xs, Prepend(ys, c)) == Prepend(xs + ys, c)
  {
    if c.Issues? {
      assert xs + (ys + c.items) == (xs + ys) + c.items;
    }
  }

  /**
   * What the collector ends with once `done` requests have been made and
   * every one of them asked for another page: request `done` is answered
   * by `pages(done)`, unless the ceiling of 500 requests is reached.
   */
  function CollectFrom(pages: PageOracle, filter: seq<string>, done: nat): (r: Collection)
    ensures !r.StillPaging?
    decreases PaginationLimit - done
  {
    if done >= PaginationLimit then Threw(InvariantError(PaginationLimitExceeded))
    else
      var reply := pages(done);
      if reply.Rejected? then Threw(RequestError(reply.message))
      else if reply.value.project.None? then Threw(InvariantError(ProjectNotFound))
      else if reply.value.project.value.items.None? then NoList
      else if reply.value.project.value.items.value.pageInfo.hasNextPage then
        Prepend(PageIssues(reply, filter), CollectFrom(pages, filter, done + 1))
      else
        Issues(PageIssues(reply, filter))
  }

  /** What `getProjectIssuesByFilter(filter)` ends with. */
  function Collect(pages: PageOracle, filter: seq<string>): (r: Collection)
    ensures !r.StillPaging?
  {
    CollectFrom(pages, filter, 0)
  }

  /** The number of requests made after the first `done`, which all asked for another page. */
  function RequestsFrom(pages: PageOracle, done: nat): (n: nat)
    ensures done <= PaginationLimit ==> done + n <= PaginationLimit
    ensures done < PaginationLimit ==> n >= 1
    decreases PaginationLimit - done
  {
    if done >= PaginationLimit then 0
    else if Continues(pages(done)) then 1 + RequestsFrom(pages, done + 1)
    else 1
  }

  /** The number of requests one collection makes: at least one, and never more than the ceiling. */
  function Requests(pages: PageOracle): (n: nat)
    ensures 1 <= n <= PaginationLimit
  {
    RequestsFrom(pages, 0)
  }

  /**
   * One more answered page with an item list: its cards join the gathered
   * ones, and the collection either goes on after it or ends with it.
   */
  lemma CollectAdvance(pages: PageOracle, filter: seq<string>, done: nat, issues: seq<Item>)
    requires done < PaginationLimit && HasItems(pages(done))
    requires Collect(pages, filter) == Prepend(issues, CollectFrom(pages, filter, done))
    requires Requests(pages) == done + RequestsFrom(pages, done)
    ensures Continues(pages(done)) ==>
              Collect(pages, filter) == Prepend(issues + PageIssues(pages(done), filter), CollectFrom(pages, filter, done + 1)) &&
              Requests(pages) == done + 1 + RequestsFrom(pages, done + 1)
    ensures !Continues(pages(done)) ==>
              Collect(pages, filter) == Issues(issues + PageIssues(pages(done), filter)) &&
              Requests(pages) == done + 1
  {
    PrependPrepend(issues, PageIssues(pages(done), filter), CollectFrom(pages, filter, done + 1));
  }

  /** What a collection ends with at a page that does not ask for another. */
  function StopAt(reply: Reply<PageResponse>, filter: seq<string>): Collection {
    if reply.Rejected? then Threw(RequestError(reply.message))
    else if reply.value.project.None? then Threw(InvariantError(ProjectNotFound))
    else if reply.value.project.value.items.None? then NoList
    else Issues(PageIssues(reply, filter))
  }

  lemma {:induction false} CollectFromStopsAt(pages: PageOracle, filter: seq<string>, done: nat, k: nat)
    requires done <= k < PaginationLimit && !Continues(pages(k))
    requires forall j: nat :: done <= j < k ==> Continues(pages(j))
    ensures CollectFrom(pages, filter, done) == Prepend(Gathered(pages, filter, done, k - done), StopAt(pages(k), filter))
    ensures RequestsFrom(pages, done) == k + 1 - done
    decreases k - done
  {
    if done == k {
      assert Gathered(pages, filter, done, 0) == [];
      if HasItems(pages(k)) {
        assert [] + PageIssues(pages(k), filter) == PageIssues(pages(k), filter);
      }
    } else {
      assert Continues(pages(done));
      CollectFromStopsAt(pages, filter, done + 1, k);
      PrependPrepend(PageIssues(pages(done), filter), Gathered(pages, filter, done + 1, k - done - 1),
                     StopAt(pages(k), filter));
    }
  }

  /**
   * A collection that stops at page `k`, the first below the ceiling not
   * asking for another, makes `k + 1` requests and ends as that page says:
   * its rejection, "Project not found" for a null project, no list for a
   * missing item list, and otherwise the watched cards of pages 0 to `k`.
   */
  lemma CollectStopsAt(pages: PageOracle, filter: seq<string>, k: nat)
    requires k < PaginationLimit && !Continues(pages(k))
    requires forall j: nat :: j < k ==> Continues(pages(j))
    ensures Requests(pages) == k + 1
    ensures pages(k).Rejected? ==> Collect(pages, filter) == Threw(RequestError(pages(k).message))
    ensures pages(k).Answered? && pages(k).value.project.None? ==>
              Collect(pages, filter) == Threw(InvariantError(ProjectNotFound))
    ensures pages(k).Answered? && pages(k).value.project.Some? && pages(k).value.project.value.items.None? ==>
              Collect(pages, filter) == NoList
    ensures HasItems(pages(k)) ==>
              Collect(pages, filter) == Issues(Gathered(pages, filter, 0, k) + PageIssues(pages(k), filter))
  {
    CollectFromStopsAt(pages, filter, 0, k);
  }

  /**
   * A page without an item list ends the collection with what that page
   * alone gives, and it is the last one requested.
   */
  lemma CollectHalts(pages: PageOracle, filter: seq<string>, done: nat, issues: seq<Item>)
    requires done < PaginationLimit && !HasItems(pages(done))
    requires Collect(pages, filter) == Prepend(issues, CollectFrom(pages, filter, done))
    requires Requests(pages) == done + RequestsFrom(pages, done)
    ensures Collect(pages, filter) == CollectFrom(pages, filter, done) && !CollectFrom(pages, filter, done).Issues?
    ensures Requests(pages) == done + 1
  {
    var c := CollectFrom(pages, filter, done);
    assert !c.Issues?;
    assert Prepend(issues, c) == c;
    assert RequestsFrom(pages, done) == 1;
  }

  /**
   * `cursors` are the `after` arguments of the first `|cursors|` requests:
   * the first request starts at the beginning and each later one passes
   * the end cursor of the page before it.
   */
  predicate SentCursors(pages: PageOracle, cursors: seq<Option<string>>) {
    (|cursors| > 0 ==> cursors[0] == None) &&
    forall k: nat :: k + 1 < |cursors| ==> HasItems(pages(k)) && cursors[k + 1] == EndCursor(pages(k))
  }

  lemma SentCursorsExtend(pages: PageOracle, cursors: seq<Option<string>>, next: Option<string>)
    requires SentCursors(pages, cursors)
    requires |cursors| == 0 ==> next == None
    requires |cursors| > 0 ==> HasItems(pages(|cursors| - 1)) && next == EndCursor(pages(|cursors| - 1))
    ensures SentCursors(pages, cursors + [next])
  {
    var extended := cursors + [next];
    assert extended[0] == if |cursors| == 0 then next else cursors[0];
    forall k: nat | k + 1 < |extended|
      ensures HasItems(pages(k)) && extended[k + 1] == EndCursor(pages(k))
    {
      if k + 1 < |cursors| {
        assert extended[k + 1] == cursors[k + 1];
      }
    }
  }

  /**
   * `getProjectIssuesByFilter(filter)`: requests page after page, passing
   * each page's end cursor to the next request, until a page says there
   * is no next one. `cursors` are the cursors the requests were sent with.
   */
  method CollectIssues(pages: PageOracle, filter: seq<string>) returns (result: Collection, cursors: seq<Option<string>>)
    ensures result == Collect(pages, filter)
    ensures |cursors| == Requests(pages)
    ensures SentCursors(pages, cursors)
  {
    var issues: seq<Item> := [];
    var hasNextPage := false;
    var endCursor: Option<string> := None;
    var iteration: nat := 0;
    cursors := [];
    while iteration == 0 || hasNextPage
      invariant iteration <= PaginationLimit
      invariant |cursors| == iteration
      invariant iteration == 0 ==> endCursor == None
      invariant SentCursors(pages, cursors)
      invariant iteration > 0 ==> HasItems(pages(iteration - 1)) &&
                                  hasNextPage == Continues(pages(iteration - 1)) &&
                                  endCursor == EndCursor(pages(iteration - 1))
      invariant iteration == 0 || hasNextPage ==>
                  Collect(pages, filter) == Prepend(issues, CollectFrom(pages, filter, iteration)) &&
                  Requests(pages) == iteration + RequestsFrom(pages, iteration)
      invariant !(iteration == 0 || hasNextPage) ==>
                  Collect(pages, filter) == Issues(issues) && Requests(pages) == iteration
      decreases PaginationLimit - iteration
    {
      iteration := iteration + 1;
      var withinLimit := Invariant(iteration <= PaginationLimit, PaginationLimitExceeded);
      if withinLimit.Abrupt? {
        return Threw(withinLimit.error), cursors;
      }
      SentCursorsExtend(pages, cursors, endCursor);
      cursors := cursors + [endCursor];
      var reply := pages(iteration - 1);
      if !HasItems(reply) {
        CollectHalts(pages, filter, iteration - 1, issues);
      }
      if reply.Rejected? {
        return Threw(RequestError(reply.message)), cursors;
      }
      var project := reply.value.project;
      var found := Invariant(project.Some?, ProjectNotFound);
      if found.Abrupt? {
        return Threw(found.error), cursors;
      }
      if project.value.items.None? {
        return NoList, cursors;
      }
      var connection := project.value.items.value;
      hasNextPage := connection.pageInfo.hasNextPage;
      endCursor := connection.pageInfo.endCursor;
      CollectAdvance(pages, filter, iteration - 1, issues);
      if connection.nodes.None? {
        assert issues + PageIssues(reply, filter) == issues;
        continue;
      }
      var filtered := FilterNodes(connection.nodes.value, filter);
      issues := issues + filtered;
    }
    result := Issues(issues);
  }

  // ---------------------------------------------------------------------
  // What the collector gathers
  // ---------------------------------------------------------------------

  /** The watched cards of the `n` pages from request `from` on, page after page. */
  function Gathered(pages: PageOracle, filter: seq<string>, from: nat, n: nat): seq<Item>
    decreases n
  {
    if n == 0 then [] else PageIssues(pages(from), filter) + Gathered(pages, filter, from + 1, n - 1)
  }

  /**
   * A collection that succeeds holds exactly the watched cards of the
   * pages it requested, in the order the pages came.
   */
  lemma {:induction false} CollectGathers(pages: PageOracle, filter: seq<string>, done: nat)
    ensures CollectFrom(pages, filter, done).Issues? ==>
              CollectFrom(pages, filter, done).items == Gathered(pages, filter, done, RequestsFrom(pages, done))
    decreases PaginationLimit - done
  {
    if done < PaginationLimit && Continues(pages(done)) {
      CollectGathers(pages, filter, done + 1);
    }
  }

  /** Every gathered card is watched and comes from one of the pages. */
  lemma {:induction false} GatheredFromPages(pages: PageOracle, filter: seq<string>, from: nat, n: nat)
    ensures forall x :: x in Gathered(pages, filter, from, n) ==>
              Watched(x, filter) && exists k: nat :: from <= k < from + n && x in PageNodes(pages(k))
    decreases n
  {
    if n > 0 {
      GatheredFromPages(pages, filter, from + 1, n - 1);
      forall x | x in Gathered(pages, filter, from, n)
        ensures Watched(x, filter) && exists k: nat :: from <= k < from + n && x in PageNodes(pages(k))
      {
        if x in PageIssues(pages(from), filter) {
          assert x in PageNodes(pages(from));
        }
      }
    }
  }

  /**
   * Every card the collector returns has one of the filter's statuses and
   * sits on one of the pages it requested.
   */
  lemma CollectSound(pages: PageOracle, filter: seq<string>)
    ensures Collect(pages, filter).Issues? ==>
              forall x :: x in Collect(pages, filter).items ==>
                Watched(x, filter) && exists k: nat :: k < Requests(pages) && x in PageNodes(pages(k))
  {
    CollectGathers(pages, filter, 0);
    GatheredFromPages(pages, filter, 0, Requests(pages));
  }

  /**
   * The ceiling is hit exactly when every one of the first 500 pages asks
   * for another, and then exactly 500 requests have been made.
   */
  lemma {:induction false} CollectFromHitsLimit(pages: PageOracle, filter: seq<string>, done: nat)
    requires done <= PaginationLimit
    ensures CollectFrom(pages, filter, done) == Threw(InvariantError(PaginationLimitExceeded)) <==>
            forall k: nat :: done <= k < PaginationLimit ==> Continues(pages(k))
    ensures (forall k: nat :: done <= k < PaginationLimit ==> Continues(pages(k))) ==>
            RequestsFrom(pages, done) == PaginationLimit - done
    decreases PaginationLimit - done
  {
    if done < PaginationLimit {
      CollectFromHitsLimit(pages, filter, done + 1);
      if !Continues(pages(done)) {
        assert !(forall k: nat :: done <= k < PaginationLimit ==> Continues(pages(k)));
        assert InvariantError(PaginationLimitExceeded) != InvariantError(ProjectNotFound) by {
          assert PaginationLimitExceeded[1] != ProjectNotFound[1];
        }
      }
    }
  }

  lemma CollectHitsLimit(pages: PageOracle, filter: seq<string>)
    ensures Collect(pages, filter) == Threw(InvariantError(PaginationLimitExceeded)) <==>
            forall k: nat :: k < PaginationLimit ==> Continues(pages(k))
    ensures (forall k: nat :: k < PaginationLimit ==> Continues(pages(k))) ==> Requests(pages) == PaginationLimit
  {
    CollectFromHitsLimit(pages, filter, 0);
  }

  // ---------------------------------------------------------------------
  // run
  // ---------------------------------------------------------------------

  predicate IsStatusField(f: Field) {
    f.name == StatusFieldName
  }

  /** `o.name === moveTo`; an absent `moveTo` matches no option. */
  function OptionNamed(moveTo: Option<string>): StatusOption -> bool {
    (o: StatusOption) => Some(o.name) == moveTo
  }

  /** `i.content && i.content.number == issueNumber`. */
  function HasNumber(n: int): Item -> bool {
    (i: Item) => i.content == Some(n)
  }

  /** `${moveTo}`: the status, or "undefined" when it is absent. */
  function Render(moveTo: Option<string>): string {
    match moveTo
    case Some(s) => s
    case None => "undefined"
  }

  function SuccessMessage(issueNumber: int, moveTo: string, title: string): string {
    "Successfully moved issue #" + NumberToString(Integer(issueNumber)) + " to \"" + moveTo + "\" in project \"" + title + "\""
  }

  function OptionNotFoundMessage(moveTo: Option<string>): string {
    StatusOptionNotFound + " (\"" + Render(moveTo) + "\")"
  }

  /**
   * The end of `run` once the card is found: look up the Status field and
   * the option named `moveTo`, then send the mutation. `mutationFailure`
   * is the error the API rejects the mutation with, if it does.
   */
  function SetStatus(project: Project, issue: Item, moveTo: Option<string>, issueNumber: int,
                     mutationFailure: Option<string>): (o: Outcome)
    ensures o.Fail? || Mutated(o)
    ensures Mutated(o) ==> o.mutation.projectId == project.id && o.mutation.itemId == issue.id
    ensures Mutated(o) ==> (o.MoveRejected? <==> mutationFailure.Some?)
  {
    match Find(project.fields, IsStatusField)
    case None => Fail(StatusFieldNotFound)
    case Some(field) =>
      match field.options
      case None => Fail(StatusFieldNoOptions)
      case Some(options) =>
        match Find(options, OptionNamed(moveTo))
        case None => Fail(OptionNotFoundMessage(moveTo))
        case Some(option) =>
          var mutation := Mutation(project.id, field.id, issue.id, option.id);
          match mutationFailure
          case Some(message) => MoveRejected(mutation, message)
          case None => Move(mutation, SuccessMessage(issueNumber, Render(moveTo), project.title))
  }

  /** The part of `run` after both queries succeed: skip unless the issue's card was collected. */
  function MoveCard(project: Project, issues: seq<Item>, params: ActionParams, issueNumber: int,
                    mutationFailure: Option<string>): (o: Outcome)
    ensures o.Skip? || o.Fail? || Mutated(o)
    ensures o.Skip? <==> forall x :: x in issues ==> x.content != Some(issueNumber)
    ensures o.Skip? ==> o.channel == Info
  {
    if |issues| == 0 then Skip(Info, Skipping(NoWatchIssues))
    else
      match Find(issues, HasNumber(issueNumber))
      case None => Skip(Info, Skipping(IssueNotFound))
      case Some(issue) => SetStatus(project, issue, params.moveTo, issueNumber, mutationFailure)
  }

  /**
   * `run()`: resolve what to move, query the project and collect the
   * watched cards, then move the issue's card. Every error is caught and
   * reported as a failure. When both queries fail, the project query's
   * error is the one reported.
   */
  function Run(ctx: Context, projectReply: Reply<ProjectResponse>, pages: PageOracle,
               mutationFailure: Option<string>): (o: Outcome)
    ensures !o.Uncaught? && !o.Paging?
    ensures o.Skip? ==> o.channel == Info
  {
    match GetActionParams(ctx)
    case Err(error) => Fail(error.message)
    case Ok(None) => Skip(Info, Skipping(NoActionRequired))
    case Ok(Some(params)) =>
      match GetProject(projectReply)
      case Err(error) => Fail(error.message)
      case Ok(project) =>
        match Collect(pages, params.getFrom)
        case Threw(error) => Fail(error.message)
        case NoList => Fail(ReadLengthOfUndefined)
        case StillPaging => Paging
        case Issues(issues) => MoveCard(project, issues, params, ctx.issueNumber, mutationFailure)
  }

  /**
   * Loading the module and calling `run()`: a bad project number throws
   * before `run` starts, outside its error handler.
   */
  function Program(ctx: Context, projectReply: Reply<ProjectResponse>, pages: PageOracle,
                   mutationFailure: Option<string>): (o: Outcome)
    ensures !IsPositiveInteger(ctx.projectNumber) ==>
              o == Uncaught(InvariantError(ProjectNumberMessage(ctx.projectNumber)))
    ensures IsPositiveInteger(ctx.projectNumber) ==> o == Run(ctx, projectReply, pages, mutationFailure)
  {
    match CheckProjectNumber(ctx.projectNumber)
    case Abrupt(error) => Uncaught(error)
    case Normal => Run(ctx, projectReply, pages, mutationFailure)
  }

  // ---------------------------------------------------------------------
  // Properties of a run
  // ---------------------------------------------------------------------

  /**
   * Every error thrown inside `run` is reported with its own message: the
   * resolver's TypeError, the project query's error, the collector's
   * error, and the TypeError of reading `length` of the `undefined` a
   * page without an item list leaves; a successful collection goes on
   * to the issue's card.
   */
  lemma RunFailures(ctx: Context, projectReply: Reply<ProjectResponse>, pages: PageOracle,
                    mutationFailure: Option<string>)
    ensures GetActionParams(ctx).Err? ==>
              Run(ctx, projectReply, pages, mutationFailure) == Fail(GetActionParams(ctx).error.message)
    ensures GetActionParams(ctx).Ok? && GetActionParams(ctx).value.Some? && GetProject(projectReply).Err? ==>
              Run(ctx, projectReply, pages, mutationFailure) == Fail(GetProject(projectReply).error.message)
    ensures GetActionParams(ctx).Ok? && GetActionParams(ctx).value.Some? && GetProject(projectReply).Ok? ==>
              var params := GetActionParams(ctx).value.value;
              var collected := Collect(pages, params.getFrom);
              (collected.Threw? ==> Run(ctx, projectReply, pages, mutationFailure) == Fail(collected.error.message)) &&
              (collected.NoList? ==> Run(ctx, projectReply, pages, mutationFailure) == Fail(ReadLengthOfUndefined)) &&
              (collected.Issues? ==>
                 Run(ctx, projectReply, pages, mutationFailure)
                 == MoveCard(GetProject(projectReply).value, collected.items, params, ctx.issueNumber, mutationFailure))
  {
  }

  /** When there is nothing to do, the run skips without looking at the board. */
  lemma SkipIgnoresBoard(ctx: Context, projectReply: Reply<ProjectResponse>, pages: PageOracle,
                         mutationFailure: Option<string>)
    requires GetActionParams(ctx) == Ok(None)
    ensures Run(ctx, projectReply, pages, mutationFailure) == Skip(Info, Skipping(NoActionRequired))
  {
  }

  /** `SetStatus` writes only through the Status field and its option named `moveTo`. */
  lemma SetStatusJustified(project: Project, issue: Item, moveTo: Option<string>, issueNumber: int,
                           mutationFailure: Option<string>)
    requires Mutated(SetStatus(project, issue, moveTo, issueNumber, mutationFailure))
    ensures var m := SetStatus(project, issue, moveTo, issueNumber, mutationFailure).mutation;
            m.projectId == project.id && m.itemId == issue.id &&
            exists f :: f in project.fields && f.name == StatusFieldName && f.id == m.fieldId &&
                        f.options.Some? &&
                        exists o :: o in f.options.value && Some(o.name) == moveTo && o.id == m.optionId
  {
    var field := Find(project.fields, IsStatusField).value;
    var option := Find(field.options.value, OptionNamed(moveTo)).value;
    assert option in field.options.value && Some(option.name) == moveTo;
  }

  /** `MoveCard` writes only to a collected card that carries the issue's number. */
  lemma MoveCardJustified(project: Project, issues: seq<Item>, params: ActionParams, issueNumber: int,
                          mutationFailure: Option<string>)
    requires Mutated(MoveCard(project, issues, params, issueNumber, mutationFailure))
    ensures exists x :: x in issues && x.content == Some(issueNumber) &&
                        MoveCard(project, issues, params, issueNumber, mutationFailure)
                        == SetStatus(project, x, params.moveTo, issueNumber, mutationFailure)
  {
    var x := Find(issues, HasNumber(issueNumber)).value;
    assert x in issues && HasNumber(issueNumber)(x);
  }

  /**
   * A run writes only with everything in place: the project, a collected
   * card with the issue's number in a watched status, the project's Status
   * field, and its option named `moveTo`; the mutation carries their ids.
   */
  lemma MoveIsJustified(ctx: Context, projectReply: Reply<ProjectResponse>, pages: PageOracle,
                        mutationFailure: Option<string>)
    requires Mutated(Run(ctx, projectReply, pages, mutationFailure))
    ensures GetActionParams(ctx).Ok? && GetActionParams(ctx).value.Some?
    ensures GetProject(projectReply).Ok?
    ensures var params := GetActionParams(ctx).value.value;
            var project := GetProject(projectReply).value;
            var m := Run(ctx, projectReply, pages, mutationFailure).mutation;
            Collect(pages, params.getFrom).Issues? &&
            m.projectId == project.id &&
            (exists x :: x in Collect(pages, params.getFrom).items && x.id == m.itemId &&
                         x.content == Some(ctx.issueNumber) && Watched(x, params.getFrom)) &&
            (exists f :: f in project.fields && f.name == StatusFieldName && f.id == m.fieldId &&
                         f.options.Some? &&
                         exists o :: o in f.options.value && Some(o.name) == params.moveTo && o.id == m.optionId)
  {
    var params := GetActionParams(ctx).value.value;
    var project := GetProject(projectReply).value;
    var issues := Collect(pages, params.getFrom).items;
    var o := Run(ctx, projectReply, pages, mutationFailure);
    assert o == MoveCard(project, issues, params, ctx.issueNumber, mutationFailure);
    MoveCardJustified(project, issues, params, ctx.issueNumber, mutationFailure);
    var x :| x in issues && x.content == Some(ctx.issueNumber) &&
             o == SetStatus(project, x, params.moveTo, ctx.issueNumber, mutationFailure);
    SetStatusJustified(project, x, params.moveTo, ctx.issueNumber, mutationFailure);
    CollectSound(pages, params.getFrom);
    assert x.id == o.mutation.itemId && Watched(x, params.getFrom);
  }

  /** `SetStatus` writes when the Status field has the option named `moveTo`. */
  lemma SetStatusWrites(project: Project, issue: Item, moveTo: Option<string>, issueNumber: int,
                        mutationFailure: Option<string>)
    requires exists f :: f in project.fields && IsStatusField(f)
    requires forall f :: f in project.fields && IsStatusField(f) ==>
               f.options.Some? && exists o :: o in f.options.value && Some(o.name) == moveTo
    ensures Mutated(SetStatus(project, issue, moveTo, issueNumber, mutationFailure))
    ensures moveTo.Some?
  {
    var f :| f in project.fields && IsStatusField(f);
    assert IsStatusField(f);
    var field := Find(project.fields, IsStatusField).value;
    var o :| o in field.options.value && Some(o.name) == moveTo;
    assert OptionNamed(moveTo)(o);
  }

  /**
   * The three lookups before the mutation fail with their own messages: no
   * field named "Status"; a first Status field without options; no option
   * named `moveTo` in the Status field.
   */
  lemma SetStatusFails(project: Project, issue: Item, moveTo: Option<string>, issueNumber: int,
                       mutationFailure: Option<string>)
    ensures (forall f :: f in project.fields ==> f.name != StatusFieldName) ==>
              SetStatus(project, issue, moveTo, issueNumber, mutationFailure) == Fail(StatusFieldNotFound)
    ensures (exists i :: 0 <= i < |project.fields| && IsStatusField(project.fields[i]) && project.fields[i].options.None? &&
                         forall j :: 0 <= j < i ==> !IsStatusField(project.fields[j])) ==>
              SetStatus(project, issue, moveTo, issueNumber, mutationFailure) == Fail(StatusFieldNoOptions)
    ensures (exists f :: f in project.fields && IsStatusField(f)) &&
            (forall f :: f in project.fields && IsStatusField(f) ==>
               f.options.Some? && forall o :: o in f.options.value ==> Some(o.name) != moveTo) ==>
              SetStatus(project, issue, moveTo, issueNumber, mutationFailure) == Fail(OptionNotFoundMessage(moveTo))
  {
    if i :| 0 <= i < |project.fields| && IsStatusField(project.fields[i]) && project.fields[i].options.None? &&
            forall j :: 0 <= j < i ==> !IsStatusField(project.fields[j]) {
      FirstStatusFieldWithoutOptions(project, issue, moveTo, issueNumber, mutationFailure, i);
    }
    if (exists f :: f in project.fields && IsStatusField(f)) &&
       (forall f :: f in project.fields && IsStatusField(f) ==>
          f.options.Some? && forall o :: o in f.options.value ==> Some(o.name) != moveTo) {
      NoOptionNamed(project, issue, moveTo, issueNumber, mutationFailure);
    }
  }

  lemma FirstStatusFieldWithoutOptions(project: Project, issue: Item, moveTo: Option<string>, issueNumber: int,
                                       mutationFailure: Option<string>, i: nat)
    requires i < |project.fields| && IsStatusField(project.fields[i]) && project.fields[i].options.None?
    requires forall j :: 0 <= j < i ==> !IsStatusField(project.fields[j])
    ensures SetStatus(project, issue, moveTo, issueNumber, mutationFailure) == Fail(StatusFieldNoOptions)
  {
    FindFirst(project.fields, IsStatusField, i);
  }

  lemma NoOptionNamed(project: Project, issue: Item, moveTo: Option<string>, issueNumber: int,
                      mutationFailure: Option<string>)
    requires exists f :: f in project.fields && IsStatusField(f)
    requires forall f :: f in project.fields && IsStatusField(f) ==>
               f.options.Some? && forall o :: o in f.options.value ==> Some(o.name) != moveTo
    ensures SetStatus(project, issue, moveTo, issueNumber, mutationFailure) == Fail(OptionNotFoundMessage(moveTo))
  {
    var f :| f in project.fields && IsStatusField(f);
    assert IsStatusField(f);
    var field := Find(project.fields, IsStatusField).value;
    assert forall i :: 0 <= i < |field.options.value| ==> !OptionNamed(moveTo)(field.options.value[i]);
  }

  /**
   * Conversely, a run with everything in place writes: it moves the card
   * and reports success, or reports the mutation's error.
   */
  lemma MovesWhenFound(ctx: Context, projectReply: Reply<ProjectResponse>, pages: PageOracle,
                       mutationFailure: Option<string>, params: ActionParams, project: Project, issues: seq<Item>)
    requires GetActionParams(ctx) == Ok(Some(params))
    requires GetProject(projectReply) == Ok(project)
    requires Collect(pages, params.getFrom) == Issues(issues)
    requires exists x :: x in issues && x.content == Some(ctx.issueNumber)
    requires exists f :: f in project.fields && IsStatusField(f)
    requires forall f :: f in project.fields && IsStatusField(f) ==>
               f.options.Some? && exists o :: o in f.options.value && Some(o.name) == params.moveTo
    ensures Mutated(Run(ctx, projectReply, pages, mutationFailure))
    ensures params.moveTo.Some?
    ensures mutationFailure.None? ==>
              Run(ctx, projectReply, pages, mutationFailure).message
              == SuccessMessage(ctx.issueNumber, params.moveTo.value, project.title)
    ensures mutationFailure.Some? ==>
              Run(ctx, projectReply, pages, mutationFailure).message == mutationFailure.value
  {
    var x :| x in issues && x.content == Some(ctx.issueNumber);
    assert HasNumber(ctx.issueNumber)(x);
    var issue := Find(issues, HasNumber(ctx.issueNumber)).value;
    assert Run(ctx, projectReply, pages, mutationFailure)
           == SetStatus(project, issue, params.moveTo, ctx.issueNumber, mutationFailure);
    SetStatusWrites(project, issue, params.moveTo, ctx.issueNumber, mutationFailure);
  }

  /** No card with number `n` sits in a watched status on any page. */
  ghost predicate NoWatchedCard(pages: PageOracle, n: int, filter: seq<string>) {
    forall k: nat, x :: x in PageNodes(pages(k)) && x.content == Some(n) ==> !Watched(x, filter)
  }

  /**
   * Moving is idempotent: once the issue's card has left the watched
   * statuses (a move puts it in `moveTo`), running again does not write.
   */
  lemma RerunDoesNotMove(ctx: Context, projectReply: Reply<ProjectResponse>, pages: PageOracle,
                         mutationFailure: Option<string>, params: ActionParams)
    requires GetActionParams(ctx) == Ok(Some(params))
    requires NoWatchedCard(pages, ctx.issueNumber, params.getFrom)
    ensures !Mutated(Run(ctx, projectReply, pages, mutationFailure))
  {
    if Mutated(Run(ctx, projectReply, pages, mutationFailure)) {
      MoveIsJustified(ctx, projectReply, pages, mutationFailure);
      CollectSound(pages, params.getFrom);
      assert false;
    }
  }

  /**
   * After a move to a status outside the watched ones, every card of the
   * issue sits in `moveTo`: none of them is watched, so the next run with
   * the same parameters does not write.
   */
  lemma MovedCardIsNotWatched(ctx: Context, projectReply: Reply<ProjectResponse>, pages: PageOracle,
                              mutationFailure: Option<string>, params: ActionParams)
    requires GetActionParams(ctx) == Ok(Some(params))
    requires params.moveTo.Some? && params.moveTo.value !in params.getFrom
    requires forall k: nat, x :: x in PageNodes(pages(k)) && x.content == Some(ctx.issueNumber) ==>
               x.status == params.moveTo
    ensures NoWatchedCard(pages, ctx.issueNumber, params.getFrom)
    ensures !Mutated(Run(ctx, projectReply, pages, mutationFailure))
  {
    RerunDoesNotMove(ctx, projectReply, pages, mutationFailure, params);
  }

  /** The skips come before any check of the project's fields. */
  lemma SkipsPrecedeFieldChecks(project: Project, issues: seq<Item>, params: ActionParams, issueNumber: int,
                                mutationFailure: Option<string>)
    requires forall x :: x in issues ==> x.content != Some(issueNumber)
    ensures MoveCard(project, issues, params, issueNumber, mutationFailure).Skip?
    ensures issues == [] ==> MoveCard(project, issues, params, issueNumber, mutationFailure).message == Skipping(NoWatchIssues)
    ensures issues != [] ==> MoveCard(project, issues, params, issueNumber, mutationFailure).message == Skipping(IssueNotFound)
  {
  }

  /** A bad project number stops everything before any request is made. */
  lemma BadProjectNumberStops(ctx: Context, projectReply: Reply<ProjectResponse>, pages: PageOracle,
                              mutationFailure: Option<string>)
    requires !IsPositiveInteger(ctx.projectNumber)
    ensures !Mutated(Program(ctx, projectReply, pages, mutationFailure))
    ensures Program(ctx, projectReply, pages, mutationFailure).Uncaught?
    ensures Program(ctx, projectReply, pages, mutationFailure).error.name == "InvariantError"
  {
  }
}
