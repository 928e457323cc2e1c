/**
 * How the current implementation and the legacy one differ, and where
 * they agree: the watch-list parse, the pagination ceiling, cards without
 * a status or content, absent assignees and the skip channel.
 */
module Differences {
  import opened Wrappers
  import opened Js
  import opened Const
  import opened Board
  import opened Utils
  import opened Main
  import opened LegacyMain

  // ---------------------------------------------------------------------
  // The watch list
  // ---------------------------------------------------------------------

  /** The current parse is the legacy one with the empty entries dropped. */
  lemma ParseDropsEmpties(text: string)
    ensures DelimitString(text) == DropEmpty(SourceStatuses(text))
    ensures (forall x :: x in SourceStatuses(text) ==> x != "") ==> DelimitString(text) == SourceStatuses(text)
  {
  }

  /** A watch list starting with a comma: the legacy parse keeps the leading empty entry. */
  lemma LeadingCommaParse(w: string)
    requires w != "" && IsTrimmed(w) && ',' !in w
    ensures SourceStatuses([','] + w) == ["", w]
    ensures DelimitString([','] + w) == [w]
  {
    LeadingCommaSplit(w);
    TrimEmptyAndWord(w);
    DropLeadingEmpty(w);
  }

  lemma LeadingCommaSplit(w: string)
    requires ',' !in w
    ensures Split([','] + w, ',') == ["", w]
  {
    SplitConcat("", w, ',');
    assert "" + [','] + w == [','] + w;
    SplitNoDelimiter(w, ',');
  }

  lemma TrimEmptyAndWord(w: string)
    requires IsTrimmed(w)
    ensures TrimAll(["", w]) == ["", w]
  {
    TrimAllPair(w);
    PairOf(Trim(""), Trim(w), w);
  }

  lemma TrimAllPair(w: string)
    ensures TrimAll(["", w]) == [Trim("")] + ([Trim(w)] + [])
  {
    assert ["", w][1..] == [w] && [w][1..] == [];
  }

  lemma PairOf(a: string, b: string, w: string)
    requires a == "" && b == w
    ensures [a] + ([b] + []) == ["", w]
  {
  }

  lemma DropLeadingEmpty(w: string)
    requires w != ""
    ensures DropEmpty(["", w]) == [w]
  {
    assert ["", w][1..] == [w];
    assert forall x :: x in [w] ==> x != "";
  }

  /**
   * With the watch list ",w", the last unassignment moves the card back to
   * `w` in the current implementation and to the empty status in the
   * legacy one.
   */
  lemma MoveBackAfterLeadingComma(ctx: Context, w: string)
    requires ctx.actionType == Unassigned && ctx.assignees == Some([])
    requires w != "" && IsTrimmed(w) && ',' !in w && ctx.sourceStatus == [','] + w
    ensures GetActionParams(ctx) == Ok(Some(ActionParams([ctx.targetStatus], Some(w))))
    ensures LegacyParams(ctx) == Some(QueryParams([ctx.targetStatus], ""))
  {
    LeadingCommaParse(w);
  }

  // ---------------------------------------------------------------------
  // Absent assignees
  // ---------------------------------------------------------------------

  /**
   * An unassignment whose payload has no assignee list fails in the
   * current implementation and resolves a move back in the legacy one.
   */
  lemma AbsentAssignees(ctx: Context, projectReply: Reply<ProjectResponse>, pages: PageOracle,
                        mutationFailure: Option<string>)
    requires ctx.actionType == Unassigned && ctx.assignees.None?
    ensures Run(ctx, projectReply, pages, mutationFailure) == Fail(ReadLengthOfUndefined)
    ensures LegacyParams(ctx) == Some(QueryParams([ctx.targetStatus], SourceStatuses(ctx.sourceStatus)[0]))
  {
  }

  // ---------------------------------------------------------------------
  // Pagination
  // ---------------------------------------------------------------------

  /** Every page observed from `done` on asks for another, with a full list of cards. */
  ghost predicate EndlessFrom(pages: PageOracle, done: nat) {
    forall k: nat :: done <= k ==> Continues(pages(k)) && FullPage(pages(k))
  }

  lemma {:induction false} LegacyKeepsPaging(pages: PageOracle, filter: seq<string>, done: nat, budget: nat)
    requires EndlessFrom(pages, done)
    ensures LegacyCollectFrom(pages, filter, done, budget) == StillPaging
    decreases budget - done
  {
    if done < budget {
      LegacyKeepsPaging(pages, filter, done + 1, budget);
      assert EndlessFrom(pages, done + 1);
    }
  }

  /**
   * When the API keeps answering that there is a next page, the current
   * collector gives up after 500 requests while the legacy one never stops,
   * however many pages it is allowed to observe.
   */
  lemma EndlessPaging(pages: PageOracle, filter: seq<string>, budget: nat)
    requires EndlessFrom(pages, 0)
    ensures Collect(pages, filter) == Threw(InvariantError(PaginationLimitExceeded))
    ensures Requests(pages) == PaginationLimit
    ensures LegacyCollect(pages, filter, budget) == StillPaging
  {
    CollectHitsLimit(pages, filter);
    LegacyKeepsPaging(pages, filter, 0, budget);
  }

  /** A page the two collectors treat alike: rejected, or a full list of cards. */
  predicate Tidy(reply: Reply<PageResponse>) {
    reply.Rejected? || FullPage(reply)
  }

  /** The collection ends at one of the pages from `done` to the ceiling. */
  ghost predicate EndsBefore(pages: PageOracle, done: nat) {
    exists k: nat :: done <= k < PaginationLimit && !Continues(pages(k))
  }

  lemma {:induction false} CollectorsAgreeFrom(pages: PageOracle, filter: seq<string>, done: nat, budget: nat)
    requires done <= PaginationLimit <= budget
    requires forall k: nat :: done <= k < PaginationLimit ==> Tidy(pages(k))
    requires EndsBefore(pages, done)
    ensures LegacyCollectFrom(pages, filter, done, budget) == CollectFrom(pages, filter, done)
    decreases PaginationLimit - done
  {
    assert Tidy(pages(done));
    if Continues(pages(done)) {
      var k: nat :| done <= k < PaginationLimit && !Continues(pages(k));
      assert EndsBefore(pages, done + 1);
      CollectorsAgreeFrom(pages, filter, done + 1, budget);
    }
  }

  /**
   * On tidy pages that end within the ceiling, the two collectors return
   * the same thing, given the legacy one may observe that many pages.
   */
  lemma CollectorsAgree(pages: PageOracle, filter: seq<string>, budget: nat)
    requires PaginationLimit <= budget
    requires forall k: nat :: k < PaginationLimit ==> Tidy(pages(k))
    requires exists k: nat :: k < PaginationLimit && !Continues(pages(k))
    ensures LegacyCollect(pages, filter, budget) == Collect(pages, filter)
  {
    CollectorsAgreeFrom(pages, filter, 0, budget);
  }

  // ---------------------------------------------------------------------
  // Cards without a status
  // ---------------------------------------------------------------------

  /**
   * A first page holding a card without a status: the legacy collector
   * throws, while the current one leaves that card out.
   */
  lemma StatuslessCard(pages: PageOracle, filter: seq<string>, budget: nat, card: Item)
    requires budget > 0 && HasItems(pages(0))
    requires card in PageNodes(pages(0)) && card.status.None?
    ensures LegacyCollect(pages, filter, budget) == Threw(TypeError(ReadNameOfNull))
    ensures Collect(pages, filter).Issues? ==> card !in Collect(pages, filter).items
  {
    CollectSound(pages, filter);
  }

  // ---------------------------------------------------------------------
  // Cards without content
  // ---------------------------------------------------------------------

  /**
   * A collected card without content ahead of the issue's card: the legacy
   * lookup throws and its run fails, while the current one finds the card
   * and goes on to the Status field.
   */
  lemma ContentlessCard(project: Project, issues: seq<Item>, filter: seq<string>, target: string, n: int,
                        mutationFailure: Option<string>, i: nat)
    requires i < |issues| && issues[i].content == Some(n) && issues[0].content.None?
    ensures LegacyFindIssue(issues, n) == Err(TypeError(ReadNumberOfNull))
    ensures LegacyMoveCard(project, issues, QueryParams(filter, target), n, mutationFailure) == Fail(ReadNumberOfNull)
    ensures Find(issues, HasNumber(n)).Some? && Find(issues, HasNumber(n)).value.content == Some(n)
    ensures !MoveCard(project, issues, ActionParams(filter, Some(target)), n, mutationFailure).Skip?
  {
    assert FirstMissingAt(issues, n, 0);
    assert HasNumber(n)(issues[i]);
  }

  // ---------------------------------------------------------------------
  // Whole runs
  // ---------------------------------------------------------------------

  /** Two outcomes agree, up to the channel a skip is reported on. */
  predicate SameOutcome(a: Outcome, b: Outcome) {
    a == b || (a.Skip? && b.Skip? && a.message == b.message)
  }

  /** When there is nothing to do, both skip with the same message, on different channels. */
  lemma NothingToDo(ctx: Context, projectReply: Reply<ProjectResponse>, pages: PageOracle, budget: nat,
                    mutationFailure: Option<string>)
    requires GetActionParams(ctx) == Ok(None)
    ensures Run(ctx, projectReply, pages, mutationFailure) == Skip(Info, Skipping(NoActionRequired))
    ensures LegacyRun(ctx, projectReply, pages, budget, mutationFailure) == Skip(Notice, Skipping(NoActionRequired))
  {
    NoActionIff(ctx);
  }

  /** With a clean watch list and assignees present, the two resolvers agree. */
  lemma ParamsAgree(ctx: Context)
    requires ctx.assignees.Some?
    requires forall x :: x in SourceStatuses(ctx.sourceStatus) ==> x != ""
    ensures LegacyParams(ctx).None? ==> GetActionParams(ctx) == Ok(None)
    ensures LegacyParams(ctx).Some? ==>
              GetActionParams(ctx) == Ok(Some(ActionParams(LegacyParams(ctx).value.issuesFilter,
                                                           Some(LegacyParams(ctx).value.targetStatus))))
  {
    ParseDropsEmpties(ctx.sourceStatus);
  }

  /** When every collected card has content, the two ends of a run agree. */
  lemma MoveCardAgrees(project: Project, issues: seq<Item>, filter: seq<string>, target: string, n: int,
                       mutationFailure: Option<string>)
    requires forall x :: x in issues ==> x.content.Some?
    ensures SameOutcome(MoveCard(project, issues, ActionParams(filter, Some(target)), n, mutationFailure),
                        LegacyMoveCard(project, issues, QueryParams(filter, target), n, mutationFailure))
  {
    LegacyFindAgrees(issues, n);
  }

  /**
   * On a tidy board whose cards all have content, and with a watch list
   * without blank entries, a run of either implementation has the same
   * outcome, up to the channel of a skip.
   */
  lemma RunsAgree(ctx: Context, projectReply: Reply<ProjectResponse>, pages: PageOracle, budget: nat,
                  mutationFailure: Option<string>)
    requires ctx.assignees.Some?
    requires forall x :: x in SourceStatuses(ctx.sourceStatus) ==> x != ""
    requires PaginationLimit <= budget
    requires forall k: nat :: k < PaginationLimit ==> Tidy(pages(k))
    requires exists k: nat :: k < PaginationLimit && !Continues(pages(k))
    requires forall k: nat, x :: x in PageNodes(pages(k)) ==> x.content.Some?
    ensures SameOutcome(Run(ctx, projectReply, pages, mutationFailure),
                        LegacyRun(ctx, projectReply, pages, budget, mutationFailure))
  {
    ParamsAgree(ctx);
    match LegacyParams(ctx)
    case None =>
    case Some(params) =>
      CollectorsAgree(pages, params.issuesFilter, budget);
      match Collect(pages, params.issuesFilter)
      case Issues(issues) =>
        CollectSound(pages, params.issuesFilter);
        if projectReply.Answered? && projectReply.value.project.Some? {
          MoveCardAgrees(projectReply.value.project.value, issues, params.issuesFilter, params.targetStatus,
                         ctx.issueNumber, mutationFailure);
        }
      case _ =>
  }
}
