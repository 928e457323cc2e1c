/**
 * The constants the action is configured with: the name of the board's
 * status field, the default statuses, the two event actions, the messages
 * it reports and the ceiling on pagination.
 */
module Const {

  const StatusFieldName := "Status"

  const DefaultSource := "Todo"
  const DefaultTarget := "In Progress"

  const Assigned := "assigned"
  const Unassigned := "unassigned"

  const IssueNotFound := "Issue not found"
  const NoActionRequired := "No action required"
  const NoWatchIssues := "No issues require watching"
  const PaginationLimitExceeded := "Pagination limit exceeded. Possible API error"
  const ProjectNotFound := "Project not found"
  const StatusFieldNoOptions := "Status field has no options"
  const StatusFieldNotFound := "Status field not found"
  const StatusOptionNotFound := "Status option not found"

  /** The largest number of item pages one run may request. */
  const PaginationLimit := 500

  /** The text reported for a skip: the reason, an en dash and "skipping". */
  function Skipping(reason: string): string {
    reason + " \U{2013} skipping"
  }
}
