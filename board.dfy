/**
 * The shapes the action exchanges with the project board's GraphQL API,
 * the event context it runs in, and what one run reports.
 */
module Board {
  import opened Wrappers
  import opened Js

  // ---------------------------------------------------------------------
  // Get-project query: organization.projectV2
  // ---------------------------------------------------------------------

  datatype StatusOption = StatusOption(id: string, name: string)

  /** A field of the project; `options` is absent for fields that have none. */
  datatype Field = Field(id: string, name: string, options: Option<seq<StatusOption>>)

  datatype Project = Project(id: string, title: string, fields: seq<Field>)

  /** The response to the get-project query: the project, or null. */
  datatype ProjectResponse = ProjectResponse(project: Option<Project>)

  // ---------------------------------------------------------------------
  // Collect-issues query: one page of organization.projectV2.items
  // ---------------------------------------------------------------------

  /**
   * A card on the board: its item id, `content.number` (absent when the
   * card has no content) and `fieldValueByName.name` (absent when the
   * card has no status).
   */
  datatype Item = Item(id: string, content: Option<int>, status: Option<string>)

  datatype PageInfo = PageInfo(hasNextPage: bool, endCursor: Option<string>)

  datatype ItemConnection = ItemConnection(nodes: Option<seq<Item>>, pageInfo: PageInfo)

  datatype PagedProject = PagedProject(items: Option<ItemConnection>)

  /** The response to one collect-issues request: the project, or null. */
  datatype PageResponse = PageResponse(project: Option<PagedProject>)

  // ---------------------------------------------------------------------
  // The transport
  // ---------------------------------------------------------------------

  /** A request either gets an answer or is rejected with an error message. */
  datatype Reply<T> = Answered(value: T) | Rejected(message: string)

  /**
   * The replies the API gives to the collect-issues requests of one run:
   * request number `k` (counting from 0) receives `pages(k)`.
   */
  type PageOracle = nat -> Reply<PageResponse>

  /** The error a rejected request throws. */
  function RequestError(message: string): Thrown {
    Thrown("Error", message)
  }

  /**
   * What a collector ends with: the watched cards it gathered, no list at
   * all (`undefined`), a thrown error, or, when the pages it may observe
   * ran out, a paging loop that has not finished.
   */
  datatype Collection = Issues(items: seq<Item>) | NoList | Threw(error: Thrown) | StillPaging

  /** The cards of an answered page that has a project and an item list. */
  function PageNodes(reply: Reply<PageResponse>): seq<Item> {
    if reply.Answered? && reply.value.project.Some? && reply.value.project.value.items.Some?
       && reply.value.project.value.items.value.nodes.Some?
    then reply.value.project.value.items.value.nodes.value
    else []
  }

  /** The ids the move-issue mutation writes. */
  datatype Mutation = Mutation(projectId: string, fieldId: string, itemId: string, optionId: string)

  // ---------------------------------------------------------------------
  // The event context
  // ---------------------------------------------------------------------

  /**
   * One run's context: the event's action, its assignee logins (absent
   * when the payload has none), the issue number, the configured project
   * number and the configured `watch` and `moveTo` statuses (already
   * defaulted to "Todo" and "In Progress").
   */
  datatype Context = Context(
    actionType: string,
    assignees: Option<seq<string>>,
    issueNumber: int,
    projectNumber: Number,
    sourceStatus: string,
    targetStatus: string)

  // ---------------------------------------------------------------------
  // What a run reports
  // ---------------------------------------------------------------------

  /** The logging channel a skip is reported on. */
  datatype Channel = Info | Notice

  datatype Outcome =
      /** Nothing to do; reported as an informational message. */
    | Skip(channel: Channel, message: string)
      /** An error caught by the top-level handler, reported as a failure; nothing was written. */
    | Fail(message: string)
      /** The mutation was sent and succeeded; the success message follows it. */
    | Move(mutation: Mutation, message: string)
      /** The mutation was sent and the API rejected it; its message is reported as a failure. */
    | MoveRejected(mutation: Mutation, message: string)
      /** An error thrown before the run starts, outside the top-level handler. */
    | Uncaught(error: Thrown)
      /** The run is still paging when the pages it was allowed to observe ran out. */
    | Paging

  /** The run wrote to the board. */
  predicate Mutated(o: Outcome) {
    o.Move? || o.MoveRejected?
  }
}
