/**
 * The one piece of the router the model needs: how an accepted query string
 * becomes the options of the pending-list query.
 */
module Routes {
  import opened Common
  import opened TaskQueries
  import opened Validation

  /**
   * The options the pending-list route passes on: each given parameter, or
   * `submitted_at`, `asc` and 10 in place of a missing or empty one; the
   * service then parses the limit as a decimal integer.
   */
  function PendingOptionsFromQuery(q: QueryParams): (opts: PendingOptions)
    requires ValidateQueryParams(q).Accept?
    ensures opts.sortBy.Some? && opts.order.Some? && opts.limit.Some?
    ensures opts.limit.value > 0
    ensures Given(q.sortBy) ==> SortKeyName(opts.sortBy.value) == q.sortBy.value
    ensures !Given(q.sortBy) ==> opts.sortBy.value == SubmittedAt
    ensures Ascending(opts) <==> !Given(q.order) || q.order.value == "asc"
    ensures Given(q.limit) ==> IsDecimal(q.limit.value) && opts.limit.value == DecimalValue(q.limit.value)
    ensures !Given(q.limit) ==> opts.limit.value == 10
  {
    var sortBy := if Given(q.sortBy) then q.sortBy.value else "submitted_at";
    var order := if Given(q.order) then q.order.value else "asc";
    assert Given(q.limit) ==> DecimalValue(q.limit.value) > 0 by {
      if Given(q.limit) {
        DecimalPositiveIffNonzeroDigit(q.limit.value);
      }
    }
    var limit := if Given(q.limit) then DecimalValue(q.limit.value) else 10;
    PendingOptions(ParseSortKey(sortBy), Some(order), Some(limit))
  }

  /** A request without query parameters gets the same list as the service's own defaults. */
  lemma RouteDefaultsAgreeWithService(rows: seq<TaskModel.Task>)
    ensures ValidateQueryParams(QueryParams(None, None, None)).Accept?
    ensures GetPendingTasks(rows, PendingOptionsFromQuery(QueryParams(None, None, None))) ==
            GetPendingTasks(rows, DefaultPendingOptions)
  {
  }

  /** A `limit` the request gives is the length of the list whenever that many tasks are pending. */
  lemma GivenLimitIsTheLength(rows: seq<TaskModel.Task>, q: QueryParams)
    requires ValidateQueryParams(q).Accept? && Given(q.limit)
    requires DecimalValue(q.limit.value) <= |PendingOf(rows)|
    ensures |GetPendingTasks(rows, PendingOptionsFromQuery(q))| == DecimalValue(q.limit.value)
  {
  }

  /** `?limit=3` on a table with at least three pending tasks lists exactly three. */
  lemma LimitThreeListsThree(rows: seq<TaskModel.Task>)
    requires |PendingOf(rows)| >= 3
    ensures ValidateQueryParams(QueryParams(None, None, Some("3"))).Accept?
    ensures |GetPendingTasks(rows, PendingOptionsFromQuery(QueryParams(None, None, Some("3"))))| == 3
  {
    var q := QueryParams(None, None, Some("3"));
    assert IsDigit('3') && q.limit.value[0] == '3';
    assert DecimalValue(q.limit.value) == 3;
    GivenLimitIsTheLength(rows, q);
  }
}
