/**
 * The read-only queries of the task service, stated as functions of the
 * table's rows: what the store must return for the filter, ordering and
 * limit that each query chain asks for.
 */
module TaskQueries {
  import opened Common
  import opened TaskModel

  /** The table's unique constraint: no two rows share a `task_str_id`. */
  predicate UniqueStrIds(rows: seq<Task>)
  {
    forall i, j :: 0 <= i < j < |rows| ==> rows[i].taskStrId != rows[j].taskStrId
  }

  /** Whether any row carries the external id `sid`. */
  predicate HasStrId(rows: seq<Task>, sid: string)
  {
    exists i :: 0 <= i < |rows| && rows[i].taskStrId == sid
  }

  // ---------------------------------------------------------------- lookup

  /** The row whose `task_str_id` equals `sid`, or None when there is none. */
  function GetTaskByStrId(rows: seq<Task>, sid: string): (r: Option<Task>)
    ensures r.None? <==> !HasStrId(rows, sid)
    ensures r.Some? ==> r.value in rows && r.value.taskStrId == sid
    decreases |rows|
  {
    if rows == [] then None
    else if rows[0].taskStrId == sid then Some(rows[0])
    else
      var rest := GetTaskByStrId(rows[1..], sid);
      assert HasStrId(rows, sid) ==> HasStrId(rows[1..], sid) by {
        if HasStrId(rows, sid) {
          var i :| 0 <= i < |rows| && rows[i].taskStrId == sid;
          assert rows[1..][i - 1] == rows[i];
        }
      }
      assert HasStrId(rows[1..], sid) ==> HasStrId(rows, sid) by {
        if HasStrId(rows[1..], sid) {
          var i :| 0 <= i < |rows[1..]| && rows[1..][i].taskStrId == sid;
          assert rows[i + 1] == rows[1..][i];
        }
      }
      rest
  }

  /** Under the unique constraint the lookup finds the one row with that id. */
  lemma {:induction false} LookupUnique(rows: seq<Task>, i: int)
    requires UniqueStrIds(rows)
    requires 0 <= i < |rows|
    ensures GetTaskByStrId(rows, rows[i].taskStrId) == Some(rows[i])
  {
    var sid := rows[i].taskStrId;
    assert HasStrId(rows, sid);
    var r := GetTaskByStrId(rows, sid);
    var j :| 0 <= j < |rows| && rows[j] == r.value;
    assert rows[j].taskStrId == rows[i].taskStrId;
  }

  /** Appending a row changes no lookup of an id already present, and finds the new row by its own id. */
  lemma {:induction false} LookupAfterAppend(rows: seq<Task>, t: Task, sid: string)
    ensures GetTaskByStrId(rows + [t], sid) ==
              if HasStrId(rows, sid) then GetTaskByStrId(rows, sid)
              else if t.taskStrId == sid then Some(t)
              else None
    decreases |rows|
  {
    if rows == [] {
      assert [] + [t] == [t];
    } else {
      assert (rows + [t])[1..] == rows[1..] + [t];
      if rows[0].taskStrId != sid {
        LookupAfterAppend(rows[1..], t, sid);
        assert HasStrId(rows, sid) == HasStrId(rows[1..], sid) by {
          if HasStrId(rows, sid) {
            var i :| 0 <= i < |rows| && rows[i].taskStrId == sid;
            assert rows[1..][i - 1] == rows[i];
          }
          if HasStrId(rows[1..], sid) {
            var i :| 0 <= i < |rows[1..]| && rows[1..][i].taskStrId == sid;
            assert rows[i + 1] == rows[1..][i];
          }
        }
      }
    }
  }

  // ------------------------------------------------------------- next task

  /** `a` comes strictly before `b` in the order (estimated_time_minutes, submitted_at). */
  predicate KeyBefore(a: Task, b: Task)
  {
    a.estimatedTimeMinutes < b.estimatedTimeMinutes ||
    (a.estimatedTimeMinutes == b.estimatedTimeMinutes && a.submittedAt < b.submittedAt)
  }

  /**
   * The pending task with the smallest (estimated_time_minutes, submitted_at),
   * or None when no task is pending. Of equal keys the earlier row is taken.
   */
  function GetNextTaskToProcess(rows: seq<Task>): (r: Option<Task>)
    ensures r.None? <==> forall i :: 0 <= i < |rows| ==> rows[i].status != Pending
    ensures r.Some? ==> r.value in rows && r.value.status == Pending
    ensures r.Some? ==> forall i :: 0 <= i < |rows| && rows[i].status == Pending ==> !KeyBefore(rows[i], r.value)
    decreases |rows|
  {
    if rows == [] then None
    else
      var rest := GetNextTaskToProcess(rows[1..]);
      assert forall i :: 1 <= i < |rows| ==> rows[i] == rows[1..][i - 1];
      if rows[0].status != Pending then rest
      else if rest.Some? && KeyBefore(rest.value, rows[0]) then rest
      else Some(rows[0])
  }

  /** Any two answers meeting the next-task contract have the same key. */
  lemma NextTaskKeyIsDetermined(rows: seq<Task>, t: Task)
    requires t in rows && t.status == Pending
    requires forall i :: 0 <= i < |rows| && rows[i].status == Pending ==> !KeyBefore(rows[i], t)
    ensures GetNextTaskToProcess(rows).Some?
    ensures GetNextTaskToProcess(rows).value.estimatedTimeMinutes == t.estimatedTimeMinutes
    ensures GetNextTaskToProcess(rows).value.submittedAt == t.submittedAt
  {
    var r := GetNextTaskToProcess(rows);
    var i :| 0 <= i < |rows| && rows[i] == t;
    var j :| 0 <= j < |rows| && rows[j] == r.value;
    assert !KeyBefore(rows[i], r.value) && !KeyBefore(rows[j], t);
  }

  /** Two pending tasks with estimates 10 and 5: the shorter one is next. */
  lemma ShorterTaskIsNext(a: Task, b: Task)
    requires a.status == Pending && a.estimatedTimeMinutes == 10
    requires b.status == Pending && b.estimatedTimeMinutes == 5
    ensures GetNextTaskToProcess([a, b]) == Some(b)
  {
    var r := GetNextTaskToProcess([a, b]);
    assert !KeyBefore([a, b][1], r.value);
  }

  // ---------------------------------------------------------- pending list

  /** The columns the pending list may be ordered by. */
  datatype SortKey = EstimatedTimeMinutes | SubmittedAt

  /** The column name a client gives for a sort key. */
  function SortKeyName(key: SortKey): string
  {
    match key
    case EstimatedTimeMinutes => "estimated_time_minutes"
    case SubmittedAt => "submitted_at"
  }

  /** Reads a column name back; only the two sortable columns are keys. */
  function ParseSortKey(name: string): (r: Option<SortKey>)
    ensures forall key :: r == Some(key) <==> name == SortKeyName(key)
  {
    if name == "estimated_time_minutes" then Some(EstimatedTimeMinutes)
    else if name == "submitted_at" then Some(SubmittedAt)
    else None
  }

  function KeyOf(t: Task, key: SortKey): int
  {
    match key
    case EstimatedTimeMinutes => t.estimatedTimeMinutes
    case SubmittedAt => t.submittedAt
  }

  /** `a` may stand before `b` when ordering by `key`, ascending or descending. */
  predicate InOrder(a: Task, b: Task, key: SortKey, ascending: bool)
  {
    if ascending then KeyOf(a, key) <= KeyOf(b, key) else KeyOf(a, key) >= KeyOf(b, key)
  }

  /** Non-strictly sorted: every earlier element may stand before every later one. */
  predicate SortedBy(s: seq<Task>, key: SortKey, ascending: bool)
  {
    forall i, j :: 0 <= i < j < |s| ==> InOrder(s[i], s[j], key, ascending)
  }

  /** The rows the filter `status = 'pending'` keeps, in table order. */
  function PendingOf(rows: seq<Task>): (r: seq<Task>)
    ensures forall t :: multiset(r)[t] == if t.status == Pending then multiset(rows)[t] else 0
    decreases |rows|
  {
    if rows == [] then []
    else
      assert rows == [rows[0]] + rows[1..];
      if rows[0].status == Pending then [rows[0]] + PendingOf(rows[1..]) else PendingOf(rows[1..])
  }

  /** A sorted sequence stays sorted under a new head that may precede all its elements. */
  lemma SortedCons(h: Task, s: seq<Task>, key: SortKey, ascending: bool)
    requires SortedBy(s, key, ascending)
    requires forall x :: x in s ==> InOrder(h, x, key, ascending)
    ensures SortedBy([h] + s, key, ascending)
  {
    var r := [h] + s;
    forall i, j | 0 <= i < j < |r| ensures InOrder(r[i], r[j], key, ascending) {
      assert r[j] == s[j - 1];
      if i > 0 {
        assert r[i] == s[i - 1];
      }
    }
  }

  /** Puts `t` into the sorted `s` before the first element it may precede. */
  function Insert(t: Task, s: seq<Task>, key: SortKey, ascending: bool): (r: seq<Task>)
    requires SortedBy(s, key, ascending)
    ensures multiset(r) == multiset(s) + multiset{t}
    ensures forall x :: x in r ==> x == t || x in s
    ensures SortedBy(r, key, ascending)
    decreases |s|
  {
    if s == [] then [t]
    else if InOrder(t, s[0], key, ascending) then
      assert forall x :: x in s ==> InOrder(s[0], x, key, ascending) by {
        forall x | x in s ensures InOrder(s[0], x, key, ascending) {
          var k :| 0 <= k < |s| && s[k] == x;
          if k > 0 {
            assert InOrder(s[0], s[k], key, ascending);
          }
        }
      }
      SortedCons(t, s, key, ascending);
      [t] + s
    else
      assert s == [s[0]] + s[1..];
      var rest := Insert(t, s[1..], key, ascending);
      assert forall x :: x in rest ==> InOrder(s[0], x, key, ascending) by {
        forall x | x in rest ensures InOrder(s[0], x, key, ascending) {
          if x != t {
            var k :| 0 <= k < |s[1..]| && s[1..][k] == x;
            assert s[k + 1] == x;
          }
        }
      }
      SortedCons(s[0], rest, key, ascending);
      [s[0]] + rest
  }

  /** The rows in an order the store may return for `order(key, { ascending })`. */
  function SortTasks(s: seq<Task>, key: SortKey, ascending: bool): (r: seq<Task>)
    ensures multiset(r) == multiset(s)
    ensures SortedBy(r, key, ascending)
    decreases |s|
  {
    if s == [] then []
    else
      assert s == [s[0]] + s[1..];
      Insert(s[0], SortTasks(s[1..], key, ascending), key, ascending)
  }

  /** The options of the pending-list query; an absent option takes its default. */
  datatype PendingOptions = PendingOptions(sortBy: Option<SortKey>, order: Option<string>, limit: Option<nat>)

  /** The default options: `submitted_at`, `asc`, 10. */
  const DefaultPendingOptions := PendingOptions(None, None, None)

  function SortColumn(opts: PendingOptions): SortKey
  {
    if opts.sortBy.Some? then opts.sortBy.value else SubmittedAt
  }

  /** The query orders ascending exactly when `order` is `asc`; every other string means descending. */
  predicate Ascending(opts: PendingOptions)
  {
    opts.order.None? || opts.order.value == "asc"
  }

  function Limit(opts: PendingOptions): nat
  {
    if opts.limit.Some? then opts.limit.value else 10
  }

  /** Without options the list is ordered by `submitted_at`, ascending, and cut at 10. */
  lemma DefaultOptions()
    ensures SortColumn(DefaultPendingOptions) == SubmittedAt
    ensures Ascending(DefaultPendingOptions)
    ensures Limit(DefaultPendingOptions) == 10
  {
  }

  function Min(a: int, b: int): int
  {
    if a <= b then a else b
  }

  /**
   * Cutting a sorted sequence at `n` keeps a sorted part of it and leaves
   * behind only elements no earlier than every kept one.
   */
  lemma {:induction false} PrefixKeepsTheFirst(s: seq<Task>, n: nat, key: SortKey, ascending: bool)
    requires SortedBy(s, key, ascending) && n <= |s|
    ensures SortedBy(s[..n], key, ascending)
    ensures multiset(s[..n]) <= multiset(s)
    ensures forall t :: t in multiset(s) - multiset(s[..n]) ==>
              forall j :: 0 <= j < n ==> InOrder(s[..n][j], t, key, ascending)
  {
    assert s == s[..n] + s[n..];
    assert multiset(s) - multiset(s[..n]) == multiset(s[n..]);
    forall t | t in multiset(s[n..])
      ensures forall j :: 0 <= j < n ==> InOrder(s[..n][j], t, key, ascending)
    {
      var k :| n <= k < |s| && s[k] == t by {
        assert t in s[n..];
        var m :| 0 <= m < |s[n..]| && s[n..][m] == t;
        assert s[n + m] == t;
      }
      forall j | 0 <= j < n ensures InOrder(s[..n][j], t, key, ascending) {
        assert s[..n][j] == s[j];
      }
    }
    forall i, j | 0 <= i < j < n ensures InOrder(s[..n][i], s[..n][j], key, ascending) {
      assert s[..n][i] == s[i] && s[..n][j] == s[j];
    }
  }

  /** Sorted in the sense of `InOrder` is sorted by the column's value in the requested direction. */
  lemma SortedKeys(r: seq<Task>, key: SortKey, ascending: bool)
    requires SortedBy(r, key, ascending)
    ensures ascending ==> forall i, j :: 0 <= i < j < |r| ==> KeyOf(r[i], key) <= KeyOf(r[j], key)
    ensures !ascending ==> forall i, j :: 0 <= i < j < |r| ==> KeyOf(r[i], key) >= KeyOf(r[j], key)
  {
    forall i, j | 0 <= i < j < |r| ensures InOrder(r[i], r[j], key, ascending) {
    }
  }

  /** Everything the pending filter keeps is a pending row of the table. */
  lemma InPending(rows: seq<Task>, t: Task)
    requires t in multiset(PendingOf(rows))
    ensures t in rows && t.status == Pending
  {
    assert multiset(PendingOf(rows))[t] > 0;
  }

  /**
   * The pending tasks ordered by the chosen column in the chosen direction
   * and cut to the limit.
   */
  function GetPendingTasks(rows: seq<Task>, opts: PendingOptions): (r: seq<Task>)
    ensures forall t :: t in r ==> t in rows && t.status == Pending
    ensures multiset(r) <= multiset(PendingOf(rows))
    ensures |r| == Min(Limit(opts), |PendingOf(rows)|)
    ensures Ascending(opts) ==>
              forall i, j :: 0 <= i < j < |r| ==> KeyOf(r[i], SortColumn(opts)) <= KeyOf(r[j], SortColumn(opts))
    ensures !Ascending(opts) ==>
              forall i, j :: 0 <= i < j < |r| ==> KeyOf(r[i], SortColumn(opts)) >= KeyOf(r[j], SortColumn(opts))
  {
    var key, ascending := SortColumn(opts), Ascending(opts);
    var p := PendingOf(rows);
    var sorted := SortTasks(p, key, ascending);
    var n := Min(Limit(opts), |sorted|);
    var r := sorted[..n];
    PrefixKeepsTheFirst(sorted, n, key, ascending);
    SortedKeys(r, key, ascending);
    assert forall t :: t in r ==> t in rows && t.status == Pending by {
      forall t | t in r ensures t in rows && t.status == Pending {
        assert t in multiset(r);
        InPending(rows, t);
      }
    }
    r
  }

  /**
   * The limit cuts off only the end of the ordering: no pending task left out
   * of the list comes before a task in it.
   */
  lemma {:induction false} PendingTasksLeaveOutOnlyLater(rows: seq<Task>, opts: PendingOptions)
    ensures var r := GetPendingTasks(rows, opts);
            forall t :: t in multiset(PendingOf(rows)) - multiset(r) ==>
              forall j :: 0 <= j < |r| ==> InOrder(r[j], t, SortColumn(opts), Ascending(opts))
  {
    var key, ascending := SortColumn(opts), Ascending(opts);
    var sorted := SortTasks(PendingOf(rows), key, ascending);
    var n := Min(Limit(opts), |sorted|);
    PrefixKeepsTheFirst(sorted, n, key, ascending);
  }

  /** When the pending tasks fit in the limit, the list holds every one of them. */
  lemma {:induction false} PendingTasksComplete(rows: seq<Task>, opts: PendingOptions)
    requires |PendingOf(rows)| <= Limit(opts)
    ensures multiset(GetPendingTasks(rows, opts)) == multiset(PendingOf(rows))
  {
    var sorted := SortTasks(PendingOf(rows), SortColumn(opts), Ascending(opts));
    assert sorted[..|sorted|] == sorted;
  }

  /**
   * The next task and the one-element pending list ordered by estimate agree:
   * both exist exactly when a task is pending, with the same estimate.
   */
  lemma NextAgreesWithShortestPending(rows: seq<Task>)
    ensures var l := GetPendingTasks(rows, PendingOptions(Some(EstimatedTimeMinutes), Some("asc"), Some(1)));
            var n := GetNextTaskToProcess(rows);
            (n.Some? <==> |l| == 1) &&
            (n.Some? ==> n.value.estimatedTimeMinutes == l[0].estimatedTimeMinutes)
  {
    var opts := PendingOptions(Some(EstimatedTimeMinutes), Some("asc"), Some(1));
    var l := GetPendingTasks(rows, opts);
    var n := GetNextTaskToProcess(rows);
    var p := PendingOf(rows);
    if n.Some? {
      assert multiset(p)[n.value] > 0;
      assert |l| == 1;
      assert l[0] in l;
      var i :| 0 <= i < |rows| && rows[i] == l[0];
      assert !KeyBefore(rows[i], n.value);
      if n.value in multiset(l) {
        assert n.value == l[0];
      } else {
        assert n.value in multiset(p) - multiset(l);
      }
    }
    if |l| == 1 {
      assert l[0] in l;
    }
  }
}
