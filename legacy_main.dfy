/**
 * The legacy entry point: the watched statuses parsed when the module
 * loads, the project-number check, the resolver of the statuses to move
 * between, the project query, the unbounded paginated collector and the
 * decision chain of `main`.
 */
module LegacyMain {
  import opened Wrappers
  import opened Js
  import opened Const
  import opened Board
  import LegacyUtils
  import opened Main

  // ---------------------------------------------------------------------
  // Module load: the watched statuses and the project-number check
  // ---------------------------------------------------------------------

  /** The number of occurrences of `c` in `s`. */
  function Occurrences(s: string, c: char): nat {
    if s == [] then 0 else (if s[0] == c then 1 else 0) + Occurrences(s[1..], c)
  }

  /**
   * `SOURCE_STATUS.split(',').map(s => s.trim())`: one trimmed entry per
   * comma-separated piece, blank pieces kept as empty strings.
   */
  function SourceStatuses(text: string): (r: seq<string>)
    ensures |r| >= 1
  {
    TrimAll(Split(text, ','))
  }

  lemma {:induction false} SplitCount(s: string, d: char)
    ensures |Split(s, d)| == Occurrences(s, d) + 1
  {
    if s != [] {
      SplitCount(s[1..], d);
    }
  }

  /** There is exactly one entry more than there are commas: no piece is dropped. */
  lemma SourceStatusesCount(text: string)
    ensures |SourceStatuses(text)| == Occurrences(text, ',') + 1
  {
    SplitCount(text, ',');
  }

  /** Each entry is the trimmed piece between two commas, in order. */
  lemma SourceStatusesPieces(text: string)
    ensures |SourceStatuses(text)| == |Split(text, ',')|
    ensures forall i :: 0 <= i < |Split(text, ',')| ==> SourceStatuses(text)[i] == Trim(Split(text, ',')[i])
    ensures forall e :: e in SourceStatuses(text) ==> IsTrimmed(e) && ',' !in e
  {
    SplitExcludes(text, ',');
    TrimAllKeepsOut(Split(text, ','), ',');
  }

  /** Trimming pieces that hold no `c` gives trimmed entries that hold no `c`. */
  lemma TrimAllKeepsOut(parts: seq<string>, c: char)
    requires forall p :: p in parts ==> c !in p
    ensures forall e :: e in TrimAll(parts) ==> IsTrimmed(e) && c !in e
  {
    var entries := TrimAll(parts);
    forall e | e in entries
      ensures IsTrimmed(e) && c !in e
    {
      var i :| 0 <= i < |entries| && entries[i] == e;
      assert parts[i] in parts;
      TrimKeepsOut(parts[i], c);
    }
  }

  const LegacyProjectNumberPrefix := "Project number must be a positive integer, got: "

  /** The check on the configured project number, throwing a plain `Error`. */
  function LegacyCheckProjectNumber(n: Number): (r: Completion)
    ensures r.Normal? <==> IsPositiveInteger(n)
    ensures r.Abrupt? ==> r.error == Thrown("Error", LegacyProjectNumberPrefix + NumberToString(n))
  {
    LegacyUtils.Invariant(n.Integer? && n.value > 0, LegacyProjectNumberPrefix + NumberToString(n))
  }

  // ---------------------------------------------------------------------
  // getActionBasedQueryParams
  // ---------------------------------------------------------------------

  /** The statuses a card is taken from and the status it is moved to, which is always defined. */
  datatype QueryParams = QueryParams(issuesFilter: seq<string>, targetStatus: string)

  /**
   * `getActionBasedQueryParams()`: on "assigned", move from the watched
   * statuses to the target; on "unassigned" when the assignees are absent
   * or empty, move back from the target to the first watched entry;
   * otherwise there is nothing to do. It never throws.
   */
  function LegacyParams(ctx: Context): (r: Option<QueryParams>)
    ensures r.Some? <==> ctx.actionType == Assigned ||
                         (ctx.actionType == Unassigned && (ctx.assignees.None? || |ctx.assignees.value| == 0))
    ensures ctx.actionType == Assigned ==> r == Some(QueryParams(SourceStatuses(ctx.sourceStatus), ctx.targetStatus))
    ensures ctx.actionType == Unassigned && (ctx.assignees.None? || |ctx.assignees.value| == 0) ==>
              r.value.issuesFilter == [ctx.targetStatus] &&
              r.value.targetStatus == Trim(Split(ctx.sourceStatus, ',')[0])
  {
    SourceStatusesPieces(ctx.sourceStatus);
    if ctx.actionType == Assigned then
      Some(QueryParams(SourceStatuses(ctx.sourceStatus), ctx.targetStatus))
    else if ctx.actionType == Unassigned && (ctx.assignees.None? || |ctx.assignees.value| == 0) then
      Some(QueryParams([ctx.targetStatus], SourceStatuses(ctx.sourceStatus)[0]))
    else
      None
  }

  /**
   * Moving back goes to the first entry of the watch list, trimmed and
   * possibly empty: the part before the first comma, or the whole text
   * when it has no comma.
   */
  lemma MoveBackTarget(ctx: Context, head: string, tail: string)
    requires ctx.actionType == Unassigned && (ctx.assignees.None? || ctx.assignees == Some([]))
    requires ',' !in head && (ctx.sourceStatus == head || ctx.sourceStatus == head + [','] + tail)
    ensures LegacyParams(ctx) == Some(QueryParams([ctx.targetStatus], Trim(head)))
  {
    SplitNoDelimiter(head, ',');
    if ctx.sourceStatus != head {
      SplitConcat(head, tail, ',');
    }
  }

  /** A text without the delimiter is a single piece. */
  lemma {:induction false} SplitNoDelimiter(s: string, d: char)
    requires d !in s
    ensures Split(s, d) == [s]
  {
    if s != [] {
      SplitNoDelimiter(s[1..], d);
      assert [s[0]] + s[1..] == s;
    }
  }

  // ---------------------------------------------------------------------
  // getProject
  // ---------------------------------------------------------------------

  /** `getProject()`: the project, a rejected request's error, or a plain `Error` for a null project. */
  function LegacyGetProject(reply: Reply<ProjectResponse>): (r: Result<Project, Thrown>)
    ensures r.Ok? <==> reply.Answered? && reply.value.project.Some?
    ensures r.Ok? ==> r.value == reply.value.project.value
    ensures reply.Rejected? ==> r == Err(RequestError(reply.message))
    ensures reply.Answered? && reply.value.project.None? ==> r == Err(Thrown("Error", ProjectNotFound))
  {
    match reply
    case Rejected(message) => Err(RequestError(message))
    case Answered(response) =>
      match LegacyUtils.Invariant(response.project.Some?, ProjectNotFound)
      case Abrupt(error) => Err(error)
      case Normal => Ok(response.project.value)
  }

  // ---------------------------------------------------------------------
  // getProjectIssuesByFilter
  // ---------------------------------------------------------------------

  /**
   * `nodes.filter(item => filter.includes(item.fieldValueByName.name))`:
   * the first card without a status throws; with every status present it
   * keeps the same cards as the current filter.
   */
  function LegacyFilter(nodes: seq<Item>, filter: seq<string>): (r: Result<seq<Item>, Thrown>)
    ensures r.Err? <==> exists x :: x in nodes && x.status.None?
    ensures r.Err? ==> r.error == TypeError(ReadNameOfNull)
    ensures r.Ok? ==> r.value == FilterNodes(nodes, filter)
  {
    if nodes == [] then Ok([])
    else if nodes[0].status.None? then Err(TypeError(ReadNameOfNull))
    else
      assert forall x :: x in nodes <==> x == nodes[0] || x in nodes[1..];
      match LegacyFilter(nodes[1..], filter)
      case Err(error) => Err(error)
      case Ok(rest) => Ok((if nodes[0].status.value in filter then [nodes[0]] else []) + rest)
  }

  /**
   * What the legacy collector ends with once `done` requests have been
   * made, each asking for another page. It has no ceiling: when the
   * `budget` of observed pages runs out it is still paging.
   */
  function LegacyCollectFrom(pages: PageOracle, filter: seq<string>, done: nat, budget: nat): (r: Collection)
    ensures !r.NoList?
    decreases budget - done
  {
    if done >= budget then StillPaging
    else
      var reply := pages(done);
      if reply.Rejected? then Threw(RequestError(reply.message))
      else if reply.value.project.None? then Threw(Thrown("Error", ProjectNotFound))
      else if reply.value.project.value.items.None? then Threw(TypeError(DestructureItemsOfNull))
      else
        var connection := reply.value.project.value.items.value;
        if connection.nodes.None? then Threw(TypeError(ReadFilterOfNull))
        else
          match LegacyFilter(connection.nodes.value, filter)
          case Err(error) => Threw(error)
          case Ok(found) =>
            if connection.pageInfo.hasNextPage then Prepend(found, LegacyCollectFrom(pages, filter, done + 1, budget))
            else Issues(found)
  }

  function LegacyCollect(pages: PageOracle, filter: seq<string>, budget: nat): (r: Collection)
    ensures !r.NoList?
    ensures r.Issues? ==> forall x :: x in r.items ==> Watched(x, filter)
    ensures r.Issues? ==> r.items == Gathered(pages, filter, 0, LegacyRequestsFrom(pages, 0, budget))
  {
    LegacyCollectFromSound(pages, filter, 0, budget);
    LegacyCollectGathers(pages, filter, 0, budget);
    LegacyCollectFrom(pages, filter, 0, budget)
  }

  /** The answer has a list of cards, every one of them with a status. */
  predicate FullPage(reply: Reply<PageResponse>) {
    HasItems(reply) && reply.value.project.value.items.value.nodes.Some? &&
    forall x :: x in reply.value.project.value.items.value.nodes.value ==> x.status.Some?
  }

  /** The number of requests the legacy collector makes within the budget. */
  function LegacyRequestsFrom(pages: PageOracle, done: nat, budget: nat): (n: nat)
    ensures done <= budget ==> done + n <= budget
    decreases budget - done
  {
    if done >= budget then 0
    else if Continues(pages(done)) && FullPage(pages(done)) then 1 + LegacyRequestsFrom(pages, done + 1, budget)
    else 1
  }

  /** A continuing full page adds its watched cards ahead of what the next requests give. */
  lemma LegacyCollectStep(pages: PageOracle, filter: seq<string>, done: nat, budget: nat)
    requires done < budget && Continues(pages(done)) && FullPage(pages(done))
    ensures LegacyCollectFrom(pages, filter, done, budget)
            == Prepend(PageIssues(pages(done), filter), LegacyCollectFrom(pages, filter, done + 1, budget))
    ensures LegacyRequestsFrom(pages, done, budget) == 1 + LegacyRequestsFrom(pages, done + 1, budget)
  {
    var nodes := pages(done).value.project.value.items.value.nodes.value;
    assert LegacyFilter(nodes, filter) == Ok(PageIssues(pages(done), filter));
  }

  /** A page that does not both ask for another and hold a full list is the last one requested. */
  lemma LegacyCollectStop(pages: PageOracle, filter: seq<string>, done: nat, budget: nat)
    requires done < budget && !(Continues(pages(done)) && FullPage(pages(done)))
    ensures LegacyCollectFrom(pages, filter, done, budget) == LegacyStopAt(pages(done), filter)
    ensures LegacyRequestsFrom(pages, done, budget) == 1
  {
    if HasItems(pages(done)) && pages(done).value.project.value.items.value.nodes.Some? {
      var nodes := pages(done).value.project.value.items.value.nodes.value;
      if !FullPage(pages(done)) {
        assert LegacyFilter(nodes, filter).Err?;
      }
    }
  }

  /**
   * A successful legacy collection holds exactly the watched cards of the
   * pages it requested, in the order the pages came.
   */
  lemma {:induction false} LegacyCollectGathers(pages: PageOracle, filter: seq<string>, done: nat, budget: nat)
    ensures LegacyCollectFrom(pages, filter, done, budget).Issues? ==>
              LegacyCollectFrom(pages, filter, done, budget).items
              == Gathered(pages, filter, done, LegacyRequestsFrom(pages, done, budget))
    decreases budget - done
  {
    if done < budget && FullPage(pages(done)) && Continues(pages(done)) {
      LegacyCollectStep(pages, filter, done, budget);
      LegacyCollectGathers(pages, filter, done + 1, budget);
    } else if done < budget {
      LegacyCollectStop(pages, filter, done, budget);
      assert Gathered(pages, filter, done, 1) == PageIssues(pages(done), filter) + [];
    }
  }

  /** What the legacy collection ends with at a page that does not both ask for another and hold a full list. */
  function LegacyStopAt(reply: Reply<PageResponse>, filter: seq<string>): Collection {
    if reply.Rejected? then Threw(RequestError(reply.message))
    else if reply.value.project.None? then Threw(Thrown("Error", ProjectNotFound))
    else if reply.value.project.value.items.None? then Threw(TypeError(DestructureItemsOfNull))
    else if reply.value.project.value.items.value.nodes.None? then Threw(TypeError(ReadFilterOfNull))
    else
      match LegacyFilter(reply.value.project.value.items.value.nodes.value, filter)
      case Err(error) => Threw(error)
      case Ok(found) => Issues(found)
  }

  /** The pages from `from` up to, not including, `to` all ask for another and hold a full list. */
  predicate FullRun(pages: PageOracle, from: nat, to: nat)
    decreases to - from
  {
    from >= to || (Continues(pages(from)) && FullPage(pages(from)) && FullRun(pages, from + 1, to))
  }

  lemma {:induction false} FullRunFrom(pages: PageOracle, done: nat, k: nat)
    requires forall j: nat :: done <= j < k ==> Continues(pages(j)) && FullPage(pages(j))
    ensures FullRun(pages, done, k)
    decreases k - done
  {
    if done < k {
      FullRunFrom(pages, done + 1, k);
    }
  }

  /** Pages `done` to `k - 1` all continue with a full list: their cards come ahead of what request `k` gives. */
  lemma {:induction false} LegacyCollectFromReaches(pages: PageOracle, filter: seq<string>, done: nat, budget: nat, k: nat)
    requires done <= k <= budget && FullRun(pages, done, k)
    ensures LegacyCollectFrom(pages, filter, done, budget)
            == Prepend(Gathered(pages, filter, done, k - done), LegacyCollectFrom(pages, filter, k, budget))
    decreases k - done
  {
    if done == k {
      PrependNothing(LegacyCollectFrom(pages, filter, done, budget));
    } else {
      LegacyCollectFromReaches(pages, filter, done + 1, budget, k);
      LegacyCollectStepTo(pages, filter, done, budget, k - done, LegacyCollectFrom(pages, filter, k, budget));
    }
  }

  /** A continuing full page puts its cards ahead of the `n - 1` pages gathered after it. */
  lemma LegacyCollectStepTo(pages: PageOracle, filter: seq<string>, done: nat, budget: nat, n: nat, rest: Collection)
    requires done < budget && n >= 1 && Continues(pages(done)) && FullPage(pages(done))
    requires LegacyCollectFrom(pages, filter, done + 1, budget) == Prepend(Gathered(pages, filter, done + 1, n - 1), rest)
    ensures LegacyCollectFrom(pages, filter, done, budget) == Prepend(Gathered(pages, filter, done, n), rest)
  {
    LegacyCollectStep(pages, filter, done, budget);
    PrependPrepend(PageIssues(pages(done), filter), Gathered(pages, filter, done + 1, n - 1), rest);
  }

  lemma {:induction false} LegacyRequestsStopAt(pages: PageOracle, done: nat, budget: nat, k: nat)
    requires done <= k < budget && !(Continues(pages(k)) && FullPage(pages(k)))
    requires forall j: nat :: done <= j < k ==> Continues(pages(j)) && FullPage(pages(j))
    ensures LegacyRequestsFrom(pages, done, budget) == k + 1 - done
    decreases k - done
  {
    if done < k {
      assert Continues(pages(done)) && FullPage(pages(done));
      LegacyRequestsStopAt(pages, done + 1, budget, k);
    }
  }

  /**
   * A legacy collection that stops at page `k`, the first within the
   * budget not both asking for another and holding a full list, makes
   * `k + 1` requests and ends as that page says: its rejection, a plain
   * "Project not found" Error for a null project, a TypeError for a null
   * item list, a null node list or a card without a status, and
   * otherwise the watched cards of pages 0 to `k`.
   */
  lemma LegacyCollectStopsAt(pages: PageOracle, filter: seq<string>, budget: nat, k: nat)
    requires k < budget && !(Continues(pages(k)) && FullPage(pages(k)))
    requires forall j: nat :: j < k ==> Continues(pages(j)) && FullPage(pages(j))
    ensures LegacyRequestsFrom(pages, 0, budget) == k + 1
    ensures pages(k).Rejected? ==> LegacyCollect(pages, filter, budget) == Threw(RequestError(pages(k).message))
    ensures pages(k).Answered? && pages(k).value.project.None? ==>
              LegacyCollect(pages, filter, budget) == Threw(Thrown("Error", ProjectNotFound))
    ensures pages(k).Answered? && pages(k).value.project.Some? && pages(k).value.project.value.items.None? ==>
              LegacyCollect(pages, filter, budget) == Threw(TypeError(DestructureItemsOfNull))
    ensures HasItems(pages(k)) && pages(k).value.project.value.items.value.nodes.None? ==>
              LegacyCollect(pages, filter, budget) == Threw(TypeError(ReadFilterOfNull))
    ensures HasItems(pages(k)) && pages(k).value.project.value.items.value.nodes.Some? && !FullPage(pages(k)) ==>
              LegacyCollect(pages, filter, budget) == Threw(TypeError(ReadNameOfNull))
    ensures FullPage(pages(k)) ==>
              LegacyCollect(pages, filter, budget) == Issues(Gathered(pages, filter, 0, k) + PageIssues(pages(k), filter))
  {
    FullRunFrom(pages, 0, k);
    LegacyCollectFromReaches(pages, filter, 0, budget, k);
    LegacyCollectStop(pages, filter, k, budget);
    LegacyStopAtCases(pages(k), filter);
    LegacyRequestsStopAt(pages, 0, budget, k);
    var stop := LegacyStopAt(pages(k), filter);
    if stop.Issues? {
      assert LegacyCollect(pages, filter, budget) == Issues(Gathered(pages, filter, 0, k) + stop.items);
    }
  }

  /** The outcome of the last page, case by case. */
  lemma LegacyStopAtCases(reply: Reply<PageResponse>, filter: seq<string>)
    ensures reply.Rejected? ==> LegacyStopAt(reply, filter) == Threw(RequestError(reply.message))
    ensures reply.Answered? && reply.value.project.None? ==>
              LegacyStopAt(reply, filter) == Threw(Thrown("Error", ProjectNotFound))
    ensures reply.Answered? && reply.value.project.Some? && reply.value.project.value.items.None? ==>
              LegacyStopAt(reply, filter) == Threw(TypeError(DestructureItemsOfNull))
    ensures HasItems(reply) && reply.value.project.value.items.value.nodes.None? ==>
              LegacyStopAt(reply, filter) == Threw(TypeError(ReadFilterOfNull))
    ensures HasItems(reply) && reply.value.project.value.items.value.nodes.Some? && !FullPage(reply) ==>
              LegacyStopAt(reply, filter) == Threw(TypeError(ReadNameOfNull))
    ensures FullPage(reply) ==> LegacyStopAt(reply, filter) == Issues(PageIssues(reply, filter))
  {
  }

  lemma LegacyCollectAdvance(pages: PageOracle, filter: seq<string>, done: nat, budget: nat, issues: seq<Item>)
    requires done < budget && FullPage(pages(done))
    requires LegacyCollect(pages, filter, budget) == Prepend(issues, LegacyCollectFrom(pages, filter, done, budget))
    requires LegacyRequestsFrom(pages, 0, budget) == done + LegacyRequestsFrom(pages, done, budget)
    ensures Continues(pages(done)) ==>
              LegacyCollect(pages, filter, budget)
              == Prepend(issues + PageIssues(pages(done), filter), LegacyCollectFrom(pages, filter, done + 1, budget)) &&
              LegacyRequestsFrom(pages, 0, budget) == done + 1 + LegacyRequestsFrom(pages, done + 1, budget)
    ensures !Continues(pages(done)) ==>
              LegacyCollect(pages, filter, budget) == Issues(issues + PageIssues(pages(done), filter)) &&
              LegacyRequestsFrom(pages, 0, budget) == done + 1
  {
    PrependPrepend(issues, PageIssues(pages(done), filter), LegacyCollectFrom(pages, filter, done + 1, budget));
  }

  /**
   * `getProjectIssuesByFilter(filter)` of the legacy entry point: requests
   * page after page until a page says there is no next one, with no
   * ceiling; it stops as still paging once `budget` pages were observed.
   */
  method LegacyCollectIssues(pages: PageOracle, filter: seq<string>, budget: nat)
    returns (result: Collection, cursors: seq<Option<string>>)
    ensures result == LegacyCollect(pages, filter, budget)
    ensures |cursors| == LegacyRequestsFrom(pages, 0, budget)
    ensures SentCursors(pages, cursors)
  {
    var issues: seq<Item> := [];
    var hasNextPage := false;
    var endCursor: Option<string> := None;
    var requests: nat := 0;
    cursors := [];
    while requests == 0 || hasNextPage
      invariant requests <= budget
      invariant |cursors| == requests
      invariant requests == 0 ==> endCursor == None
      invariant SentCursors(pages, cursors)
      invariant requests > 0 ==> HasItems(pages(requests - 1)) &&
                                 hasNextPage == Continues(pages(requests - 1)) &&
                                 endCursor == EndCursor(pages(requests - 1))
      invariant requests == 0 || hasNextPage ==>
                  LegacyCollect(pages, filter, budget) == Prepend(issues, LegacyCollectFrom(pages, filter, requests, budget)) &&
                  LegacyRequestsFrom(pages, 0, budget) == requests + LegacyRequestsFrom(pages, requests, budget)
      invariant !(requests == 0 || hasNextPage) ==>
                  LegacyCollect(pages, filter, budget) == Issues(issues) &&
                  LegacyRequestsFrom(pages, 0, budget) == requests
      decreases budget - requests
    {
      if requests == budget {
        return StillPaging, cursors;
      }
      SentCursorsExtend(pages, cursors, endCursor);
      cursors := cursors + [endCursor];
      requests := requests + 1;
      var reply := pages(requests - 1);
      if reply.Rejected? {
        return Threw(RequestError(reply.message)), cursors;
      }
      var found := LegacyUtils.Invariant(reply.value.project.Some?, ProjectNotFound);
      if found.Abrupt? {
        return Threw(found.error), cursors;
      }
      var items := reply.value.project.value.items;
      if items.None? {
        return Threw(TypeError(DestructureItemsOfNull)), cursors;
      }
      var connection := items.value;
      if connection.nodes.None? {
        return Threw(TypeError(ReadFilterOfNull)), cursors;
      }
      var filtered := LegacyFilter(connection.nodes.value, filter);
      if filtered.Err? {
        return Threw(filtered.error), cursors;
      }
      LegacyCollectAdvance(pages, filter, requests - 1, budget, issues);
      issues := issues + filtered.value;
      hasNextPage := connection.pageInfo.hasNextPage;
      endCursor := connection.pageInfo.endCursor;
    }
    result := Issues(issues);
  }

  /** Every card the legacy collector returns has one of the filter's statuses. */
  lemma {:induction false} LegacyCollectFromSound(pages: PageOracle, filter: seq<string>, done: nat, budget: nat)
    ensures LegacyCollectFrom(pages, filter, done, budget).Issues? ==>
              forall x :: x in LegacyCollectFrom(pages, filter, done, budget).items ==> Watched(x, filter)
    decreases budget - done
  {
    if done < budget && Continues(pages(done)) {
      LegacyCollectFromSound(pages, filter, done + 1, budget);
    }
  }

  // ---------------------------------------------------------------------
  // main
  // ---------------------------------------------------------------------

  /**
   * `issues.find(x => x.content.number == ISSUE_NUMBER)`: reading the
   * number of a card without content throws, unless a match comes first.
   */
  function LegacyFindIssue(xs: seq<Item>, n: int): (r: Result<Option<Item>, Thrown>)
    ensures r.Ok? && r.value.Some? ==> r.value.value in xs && r.value.value.content == Some(n)
    ensures r.Ok? && r.value.Some? ==> exists i :: FirstMatchAt(xs, n, i) && xs[i] == r.value.value
    ensures r.Ok? && r.value.None? ==> forall x :: x in xs ==> x.content.Some? && x.content.value != n
    ensures r.Err? ==> r.error == TypeError(ReadNumberOfNull)
    ensures r.Err? <==> exists i :: FirstMissingAt(xs, n, i)
  {
    if xs == [] then Ok(None)
    else if xs[0].content.None? then
      assert FirstMissingAt(xs, n, 0);
      Err(TypeError(ReadNumberOfNull))
    else if xs[0].content.value == n then
      assert FirstMatchAt(xs, n, 0);
      Ok(Some(xs[0]))
    else
      var r := LegacyFindIssue(xs[1..], n);
      assert forall x :: x in xs ==> x == xs[0] || x in xs[1..];
      FindIssueShift(xs, n, r);
      r
  }

  /** Card `i` carries `n`, and every card before it has content with another number. */
  predicate FirstMatchAt(xs: seq<Item>, n: int, i: int) {
    0 <= i < |xs| && xs[i].content == Some(n) &&
    forall j :: 0 <= j < i ==> xs[j].content.Some? && xs[j].content.value != n
  }

  /** Card `i` has no content, and no card before it carries `n`. */
  predicate FirstMissingAt(xs: seq<Item>, n: int, i: int) {
    0 <= i < |xs| && xs[i].content.None? && forall j :: 0 <= j < i ==> xs[j].content != Some(n)
  }

  /** Passing over a first card with another number shifts the first match and the first missing content by one. */
  lemma FindIssueShift(xs: seq<Item>, n: int, r: Result<Option<Item>, Thrown>)
    requires xs != [] && xs[0].content.Some? && xs[0].content.value != n
    requires r.Ok? && r.value.Some? ==> exists i :: FirstMatchAt(xs[1..], n, i) && xs[1..][i] == r.value.value
    requires r.Err? <==> exists i :: FirstMissingAt(xs[1..], n, i)
    ensures r.Ok? && r.value.Some? ==> exists i :: FirstMatchAt(xs, n, i) && xs[i] == r.value.value
    ensures r.Err? <==> exists i :: FirstMissingAt(xs, n, i)
  {
    if r.Ok? && r.value.Some? {
      var i :| FirstMatchAt(xs[1..], n, i) && xs[1..][i] == r.value.value;
      assert FirstMatchAt(xs, n, i + 1);
    }
    if r.Err? {
      var i :| FirstMissingAt(xs[1..], n, i);
      assert FirstMissingAt(xs, n, i + 1);
    }
    if i :| FirstMissingAt(xs, n, i) {
      assert i > 0;
      assert FirstMissingAt(xs[1..], n, i - 1);
    }
  }

  /** When every card has content, the legacy lookup finds the same card as the current one. */
  lemma {:induction false} LegacyFindAgrees(xs: seq<Item>, n: int)
    requires forall x :: x in xs ==> x.content.Some?
    ensures LegacyFindIssue(xs, n) == Ok(Find(xs, HasNumber(n)))
  {
    if xs != [] {
      if xs[0].content.value == n {
        FindFirst(xs, HasNumber(n), 0);
      } else {
        assert forall x :: x in xs[1..] ==> x in xs;
        LegacyFindAgrees(xs[1..], n);
        FindSkip(xs, HasNumber(n));
      }
    }
  }

  /** `find` passes over a first element that does not match. */
  lemma FindSkip<T>(xs: seq<T>, p: T -> bool)
    requires xs != [] && !p(xs[0])
    ensures Find(xs, p) == Find(xs[1..], p)
  {
    var r := Find(xs[1..], p);
    if r.Some? {
      var i :| 0 <= i < |xs[1..]| && xs[1..][i] == r.value && forall j :: 0 <= j < i ==> !p(xs[1..][j]);
      FindFirst(xs, p, i + 1);
    } else {
      assert forall i :: 0 < i < |xs| ==> xs[i] == xs[1..][i - 1];
    }
  }

  /** The part of `main` after both queries succeed: skip, with a notice, unless the issue's card was collected. */
  function LegacyMoveCard(project: Project, issues: seq<Item>, params: QueryParams, issueNumber: int,
                          mutationFailure: Option<string>): (o: Outcome)
    ensures o.Skip? || o.Fail? || Mutated(o)
    ensures o.Skip? <==> forall x :: x in issues ==> x.content.Some? && x.content.value != issueNumber
    ensures o.Skip? ==> o.channel == Notice
    ensures (exists i :: FirstMissingAt(issues, issueNumber, i)) ==> o == Fail(ReadNumberOfNull)
  {
    if |issues| == 0 then Skip(Notice, Skipping(NoWatchIssues))
    else
      match LegacyFindIssue(issues, issueNumber)
      case Err(error) => Fail(error.message)
      case Ok(None) => Skip(Notice, Skipping(IssueNotFound))
      case Ok(Some(issue)) => SetStatus(project, issue, Some(params.targetStatus), issueNumber, mutationFailure)
  }

  /**
   * `main()`: resolve what to move, query the project and collect the
   * watched cards, then move the issue's card; skips are reported as
   * notices and every error as a failure. The Status field and option
   * lookups and the mutation are the same as the current implementation's.
   */
  function LegacyRun(ctx: Context, projectReply: Reply<ProjectResponse>, pages: PageOracle, budget: nat,
                     mutationFailure: Option<string>): (o: Outcome)
    ensures !o.Uncaught?
    ensures o.Skip? ==> o.channel == Notice
  {
    match LegacyParams(ctx)
    case None => Skip(Notice, Skipping(NoActionRequired))
    case Some(params) =>
      match LegacyGetProject(projectReply)
      case Err(error) => Fail(error.message)
      case Ok(project) =>
        match LegacyCollect(pages, params.issuesFilter, budget)
        case Threw(error) => Fail(error.message)
        case NoList => Fail(ReadLengthOfUndefined)
        case StillPaging => Paging
        case Issues(issues) => LegacyMoveCard(project, issues, params, ctx.issueNumber, mutationFailure)
  }

  /**
   * Every error thrown inside `main` is reported with its own message:
   * the project query's error or the collector's error; a successful
   * collection goes on to the issue's card.
   */
  lemma LegacyRunFailures(ctx: Context, projectReply: Reply<ProjectResponse>, pages: PageOracle, budget: nat,
                          mutationFailure: Option<string>)
    ensures LegacyParams(ctx).Some? && LegacyGetProject(projectReply).Err? ==>
              LegacyRun(ctx, projectReply, pages, budget, mutationFailure) == Fail(LegacyGetProject(projectReply).error.message)
    ensures LegacyParams(ctx).Some? && LegacyGetProject(projectReply).Ok? ==>
              var params := LegacyParams(ctx).value;
              var collected := LegacyCollect(pages, params.issuesFilter, budget);
              (collected.Threw? ==> LegacyRun(ctx, projectReply, pages, budget, mutationFailure) == Fail(collected.error.message)) &&
              (collected.Issues? ==>
                 LegacyRun(ctx, projectReply, pages, budget, mutationFailure)
                 == LegacyMoveCard(LegacyGetProject(projectReply).value, collected.items, params, ctx.issueNumber, mutationFailure))
  {
  }

  /** Loading the legacy module runs `main()` once the project-number check passes. */
  function LegacyProgram(ctx: Context, projectReply: Reply<ProjectResponse>, pages: PageOracle, budget: nat,
                         mutationFailure: Option<string>): (o: Outcome)
    ensures !IsPositiveInteger(ctx.projectNumber) ==>
              o == Uncaught(Thrown("Error", LegacyProjectNumberPrefix + NumberToString(ctx.projectNumber)))
    ensures IsPositiveInteger(ctx.projectNumber) ==> o == LegacyRun(ctx, projectReply, pages, budget, mutationFailure)
  {
    match LegacyCheckProjectNumber(ctx.projectNumber)
    case Abrupt(error) => Uncaught(error)
    case Normal => LegacyRun(ctx, projectReply, pages, budget, mutationFailure)
  }

  /**
   * A legacy run writes only to a collected card with the issue's number
   * in a watched status, through the project's Status field.
   */
  lemma LegacyMoveIsJustified(ctx: Context, projectReply: Reply<ProjectResponse>, pages: PageOracle, budget: nat,
                              mutationFailure: Option<string>)
    requires Mutated(LegacyRun(ctx, projectReply, pages, budget, mutationFailure))
    ensures LegacyParams(ctx).Some? && LegacyGetProject(projectReply).Ok?
    ensures var params := LegacyParams(ctx).value;
            var project := LegacyGetProject(projectReply).value;
            var m := LegacyRun(ctx, projectReply, pages, budget, mutationFailure).mutation;
            LegacyCollect(pages, params.issuesFilter, budget).Issues? &&
            m.projectId == project.id &&
            (exists x :: x in LegacyCollect(pages, params.issuesFilter, budget).items && x.id == m.itemId &&
                         x.content == Some(ctx.issueNumber) && Watched(x, params.issuesFilter)) &&
            (exists f :: f in project.fields && f.name == StatusFieldName && f.id == m.fieldId &&
                         f.options.Some? &&
                         exists o :: o in f.options.value && o.name == params.targetStatus && o.id == m.optionId)
  {
    var params := LegacyParams(ctx).value;
    var project := LegacyGetProject(projectReply).value;
    var issues := LegacyCollect(pages, params.issuesFilter, budget).items;
    var issue := LegacyFindIssue(issues, ctx.issueNumber).value.value;
    var o := LegacyRun(ctx, projectReply, pages, budget, mutationFailure);
    assert o == LegacyMoveCard(project, issues, params, ctx.issueNumber, mutationFailure);
    assert o == SetStatus(project, issue, Some(params.targetStatus), ctx.issueNumber, mutationFailure);
    SetStatusJustified(project, issue, Some(params.targetStatus), ctx.issueNumber, mutationFailure);
    LegacyCollectFromSound(pages, params.issuesFilter, 0, budget);
  }
}
