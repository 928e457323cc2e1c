/**
 * Runs of the current implementation on the board of the action's test
 * fixtures: a project "Test Project" with one Status field offering
 * "Todo", "In Progress" and "Done", and a single page of cards.
 */
module MainScenarios {
  import opened Wrappers
  import opened Js
  import opened Const
  import opened Board
  import opened Utils
  import opened Main

  const TodoOption := StatusOption("f75ad846", "Todo")
  const InProgressOption := StatusOption("47fc9ee4", "In Progress")
  const DoneOption := StatusOption("98236657", "Done")

  function StatusFieldWith(options: Option<seq<StatusOption>>): Field {
    Field("123456zgM4qZo", "Status", options)
  }

  const FixtureOptions := [TodoOption, InProgressOption, DoneOption]

  function FixtureProject(fields: seq<Field>): Project {
    Project("h12htj89", "Test Project", fields)
  }

  function ProjectAnswer(fields: seq<Field>): Reply<ProjectResponse> {
    Answered(ProjectResponse(Some(FixtureProject(fields))))
  }

  /** Every request is answered with the same single page of `nodes`. */
  function OnePage(nodes: seq<Item>): PageOracle {
    _ => Answered(PageResponse(Some(PagedProject(Some(ItemConnection(Some(nodes), PageInfo(false, None)))))))
  }

  /** Every request is rejected with `message`. */
  function RejectAll(message: string): PageOracle {
    _ => Rejected(message)
  }

  /** The collector throws the rejection of the first request. */
  lemma RejectedPagesThrow(message: string, filter: seq<string>)
    ensures Collect(RejectAll(message), filter) == Threw(RequestError(message))
  {
    assert RejectAll(message)(0).Rejected?;
  }

  /** The fixture project is answered. */
  lemma FixtureProjectFound(fields: seq<Field>)
    ensures GetProject(ProjectAnswer(fields)) == Ok(FixtureProject(fields))
  {
  }

  function Card(id: string, number: int, status: string): Item {
    Item(id, Some(number), Some(status))
  }

  /** The event of the fixtures: issue #1 of project 1 assigned, default statuses. */
  function FixtureContext(actionType: string, assignees: seq<string>): Context {
    Context(actionType, Some(assignees), 1, Integer(1), DefaultSource, DefaultTarget)
  }

  /** The collector returns the watched cards of the single page. */
  lemma OnePageCollects(nodes: seq<Item>, filter: seq<string>)
    ensures Collect(OnePage(nodes), filter) == Issues(FilterNodes(nodes, filter))
    ensures Requests(OnePage(nodes)) == 1
  {
    assert !Continues(OnePage(nodes)(0));
  }

  /** The fixture's options are found by name. */
  lemma FixtureOptionsFound()
    ensures Find(FixtureOptions, OptionNamed(Some("Todo"))) == Some(TodoOption)
    ensures Find(FixtureOptions, OptionNamed(Some("In Progress"))) == Some(InProgressOption)
  {
    FindFirst(FixtureOptions, OptionNamed(Some("Todo")), 0);
    assert |"Todo"| != |"In Progress"|;
    FindFirst(FixtureOptions, OptionNamed(Some("In Progress")), 1);
  }

  /** Issue #1 in "Todo" is moved to "In Progress" on assignment. */
  lemma AssignedMovesToInProgress()
    ensures Run(FixtureContext(Assigned, ["test-user"]),
                ProjectAnswer([StatusFieldWith(Some(FixtureOptions))]),
                OnePage([Card("123zgM4o_1", 1, "Todo")]), None)
            == Move(Mutation("h12htj89", "123456zgM4qZo", "123zgM4o_1", "47fc9ee4"),
                    SuccessMessage(1, "In Progress", "Test Project"))
  {
    var card := Card("123zgM4o_1", 1, "Todo");
    assert Watched(card, ["Todo"]);
    AssignedFixtureRun([StatusFieldWith(Some(FixtureOptions))], [card], None);
    FindFirst([card], HasNumber(1), 0);
    FixtureFieldFound(Some(FixtureOptions));
    FixtureOptionsFound();
  }

  /** The success message names the project's own title, whatever it is. */
  lemma CustomTitleIsReported(title: string)
    ensures Run(FixtureContext(Assigned, ["test-user"]),
                Answered(ProjectResponse(Some(Project("h12htj89", title, [StatusFieldWith(Some(FixtureOptions))])))),
                OnePage([Card("123zgM4o_1", 1, "Todo")]), None)
            == Move(Mutation("h12htj89", "123456zgM4qZo", "123zgM4o_1", "47fc9ee4"),
                    SuccessMessage(1, "In Progress", title))
  {
    AssignedFixtureParams();
    var card := Card("123zgM4o_1", 1, "Todo");
    var project := Project("h12htj89", title, [StatusFieldWith(Some(FixtureOptions))]);
    assert GetProject(Answered(ProjectResponse(Some(project)))) == Ok(project);
    OnePageCollects([card], ["Todo"]);
    assert Run(FixtureContext(Assigned, ["test-user"]), Answered(ProjectResponse(Some(project))), OnePage([card]), None)
           == MoveCard(project, FilterNodes([card], ["Todo"]), ActionParams(["Todo"], Some("In Progress")), 1, None);
    assert Watched(card, ["Todo"]);
    FindFirst([card], HasNumber(1), 0);
    FixtureFieldFound(Some(FixtureOptions));
    FixtureOptionsFound();
  }

  /** The fixture's single Status field is the one `run` looks up. */
  lemma FixtureFieldFound(options: Option<seq<StatusOption>>)
    ensures Find([StatusFieldWith(options)], IsStatusField) == Some(StatusFieldWith(options))
  {
    FindFirst([StatusFieldWith(options)], IsStatusField, 0);
  }

  /**
   * An assignment on the fixture board, up to the move: the watched cards
   * of the single page go to `MoveCard`.
   */
  lemma AssignedFixtureRun(fields: seq<Field>, nodes: seq<Item>, mutationFailure: Option<string>)
    ensures Run(FixtureContext(Assigned, ["test-user"]), ProjectAnswer(fields), OnePage(nodes), mutationFailure)
            == MoveCard(FixtureProject(fields), FilterNodes(nodes, ["Todo"]), ActionParams(["Todo"], Some("In Progress")),
                        1, mutationFailure)
  {
    AssignedFixtureParams();
    FixtureProjectFound(fields);
    OnePageCollects(nodes, ["Todo"]);
  }

  /** With the default statuses, an assignment watches "Todo" and moves to "In Progress". */
  lemma AssignedFixtureParams()
    ensures GetActionParams(FixtureContext(Assigned, ["test-user"])) == Ok(Some(ActionParams(["Todo"], Some("In Progress"))))
  {
    DefaultParams(FixtureContext(Assigned, ["test-user"]));
  }

  /** Issue #1 in "In Progress" is moved back to "Todo" once its last assignee leaves. */
  lemma UnassignedMovesBackToTodo()
    ensures Run(FixtureContext(Unassigned, []),
                ProjectAnswer([StatusFieldWith(Some(FixtureOptions))]),
                OnePage([Card("id_1", 1, "In Progress")]), None)
            == Move(Mutation("h12htj89", "123456zgM4qZo", "id_1", "f75ad846"),
                    SuccessMessage(1, "Todo", "Test Project"))
  {
    DefaultParams(FixtureContext(Unassigned, []));
    var card := Card("id_1", 1, "In Progress");
    assert Watched(card, ["In Progress"]);
    OnePageCollects([card], ["In Progress"]);
    FindFirst([card], HasNumber(1), 0);
    FixtureFieldFound(Some(FixtureOptions));
    FixtureOptionsFound();
  }

  const ThreeCards := [Card("id_1", 1, "Todo"), Card("id_2", 2, "In Progress"), Card("id_3", 3, "Done")]

  /** Of the three cards only the one in "Todo" is watched. */
  lemma ThreeCardsFiltered()
    ensures FilterNodes(ThreeCards, ["Todo"]) == [ThreeCards[0]]
  {
    assert |"In Progress"| != |"Todo"| && "Done"[0] != "Todo"[0];
    assert !Watched(ThreeCards[1], ["Todo"]) && !Watched(ThreeCards[2], ["Todo"]);
    assert ThreeCards[1..][1..] == [ThreeCards[2]];
  }

  /** No option of "Todo" and "Done" is named "In Progress". */
  lemma InProgressMissing()
    ensures Find([TodoOption, DoneOption], OptionNamed(Some("In Progress"))) == None
  {
    assert |"Todo"| != |"In Progress"| && |"Done"| != |"In Progress"|;
    assert !OptionNamed(Some("In Progress"))(TodoOption) && !OptionNamed(Some("In Progress"))(DoneOption);
  }

  /** Of several cards, only the watched one with the issue's number is moved. */
  lemma MovesTheWatchedCardAmongOthers()
    ensures Run(FixtureContext(Assigned, ["test-user"]),
                ProjectAnswer([StatusFieldWith(Some(FixtureOptions))]),
                OnePage(ThreeCards), None)
            == Move(Mutation("h12htj89", "123456zgM4qZo", "id_1", "47fc9ee4"),
                    SuccessMessage(1, "In Progress", "Test Project"))
  {
    ThreeCardsFiltered();
    AssignedFixtureRun([StatusFieldWith(Some(FixtureOptions))], ThreeCards, None);
    FindFirst([ThreeCards[0]], HasNumber(1), 0);
    FixtureFieldFound(Some(FixtureOptions));
    FixtureOptionsFound();
  }

  /** An unassignment that leaves an assignee behind does nothing. */
  lemma UnassignedWithAssigneeSkips(projectReply: Reply<ProjectResponse>, pages: PageOracle)
    ensures Run(FixtureContext(Unassigned, ["test-user"]), projectReply, pages, None)
            == Skip(Info, Skipping(NoActionRequired))
  {
    NoActionIff(FixtureContext(Unassigned, ["test-user"]));
  }

  /** A board without watched cards is skipped. */
  lemma EmptyBoardSkips()
    ensures Run(FixtureContext(Assigned, ["test-user"]),
                ProjectAnswer([StatusFieldWith(Some(FixtureOptions))]), OnePage([]), None)
            == Skip(Info, Skipping(NoWatchIssues))
  {
    AssignedFixtureRun([StatusFieldWith(Some(FixtureOptions))], [], None);
  }

  /** A board whose watched cards are other issues' is skipped. */
  lemma OtherIssueSkips()
    ensures Run(FixtureContext(Assigned, ["test-user"]),
                ProjectAnswer([StatusFieldWith(Some(FixtureOptions))]),
                OnePage([Card("id_2", 2, "Todo")]), None)
            == Skip(Info, Skipping(IssueNotFound))
  {
    var card := Card("id_2", 2, "Todo");
    assert Watched(card, ["Todo"]);
    AssignedFixtureRun([StatusFieldWith(Some(FixtureOptions))], [card], None);
    assert !HasNumber(1)(card);
  }

  /** A missing project fails the run with "Project not found". */
  lemma MissingProjectFails()
    ensures Run(FixtureContext(Assigned, ["test-user"]),
                Answered(ProjectResponse(None)), _ => Answered(PageResponse(None)), None)
            == Fail(ProjectNotFound)
  {
    AssignedFixtureParams();
  }

  /** A project without a Status field fails the run. */
  lemma MissingStatusFieldFails()
    ensures Run(FixtureContext(Assigned, ["test-user"]), ProjectAnswer([]),
                OnePage([Card("123zgM4o_1", 1, "Todo")]), None)
            == Fail(StatusFieldNotFound)
  {
    var card := Card("123zgM4o_1", 1, "Todo");
    assert Watched(card, ["Todo"]);
    AssignedFixtureRun([], [card], None);
    FindFirst([card], HasNumber(1), 0);
  }

  /** A Status field without options fails the run. */
  lemma StatusFieldWithoutOptionsFails()
    ensures Run(FixtureContext(Assigned, ["test-user"]), ProjectAnswer([StatusFieldWith(None)]),
                OnePage([Card("123zgM4o_1", 1, "Todo")]), None)
            == Fail(StatusFieldNoOptions)
  {
    var card := Card("123zgM4o_1", 1, "Todo");
    assert Watched(card, ["Todo"]);
    AssignedFixtureRun([StatusFieldWith(None)], [card], None);
    FindFirst([card], HasNumber(1), 0);
    FixtureFieldFound(None);
  }

  /** A Status field without the target option fails the run, naming the option. */
  lemma MissingOptionFails()
    ensures Run(FixtureContext(Assigned, ["test-user"]),
                ProjectAnswer([StatusFieldWith(Some([TodoOption, DoneOption]))]),
                OnePage([Card("123zgM4o_1", 1, "Todo")]), None)
            == Fail(OptionNotFoundMessage(Some("In Progress")))
  {
    var card := Card("123zgM4o_1", 1, "Todo");
    assert Watched(card, ["Todo"]);
    AssignedFixtureRun([StatusFieldWith(Some([TodoOption, DoneOption]))], [card], None);
    FindFirst([card], HasNumber(1), 0);
    FixtureFieldFound(Some([TodoOption, DoneOption]));
    InProgressMissing();
  }

  /** A rejected mutation fails the run with the API's message, after the write was attempted. */
  lemma RejectedMutationFails()
    ensures Run(FixtureContext(Assigned, ["test-user"]),
                ProjectAnswer([StatusFieldWith(Some(FixtureOptions))]),
                OnePage([Card("123zgM4o_1", 1, "Todo")]), Some("GraphQL mutation failed"))
            == MoveRejected(Mutation("h12htj89", "123456zgM4qZo", "123zgM4o_1", "47fc9ee4"),
                            "GraphQL mutation failed")
  {
    var card := Card("123zgM4o_1", 1, "Todo");
    assert Watched(card, ["Todo"]);
    AssignedFixtureRun([StatusFieldWith(Some(FixtureOptions))], [card], Some("GraphQL mutation failed"));
    FindFirst([card], HasNumber(1), 0);
    FixtureFieldFound(Some(FixtureOptions));
    FixtureOptionsFound();
  }

  /** A rejected item query fails the run with the API's message. */
  lemma RejectedItemQueryFails()
    ensures Run(FixtureContext(Assigned, ["test-user"]),
                ProjectAnswer([StatusFieldWith(Some(FixtureOptions))]),
                RejectAll("Project query failed"), None)
            == Fail("Project query failed")
  {
    AssignedFixtureParams();
    FixtureProjectFound([StatusFieldWith(Some(FixtureOptions))]);
    RejectedPagesThrow("Project query failed", ["Todo"]);
  }
}
