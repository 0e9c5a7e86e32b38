/**
 * The request validators that run before the task service: each one either
 * lets the request through or answers 400 with an error title and a list of
 * detail strings.
 */
module Validation {
  import opened Common
  import opened TaskModel
  import opened TaskQueries

  /** What a validator decides: pass the request on, or reject it with a body `{ error, details }`. */
  datatype Verdict = Accept | Reject(error: string, details: seq<string>)

  // ------------------------------------------------------------ JSON values

  /**
   * A field of a parsed JSON body. `Undefined` is a field that was not sent;
   * `Structured` stands for an array or an object.
   */
  datatype JsonValue = Undefined | Null | Bool(b: bool) | Number(n: real) | Str(s: string) | Structured

  /** The values a JavaScript condition treats as false (JSON cannot carry NaN). */
  predicate Falsy(v: JsonValue)
  {
    v == Undefined || v == Null || v == Bool(false) || v == Number(0.0) || v == Str("")
  }

  /** The characters `String.prototype.trim` removes: white space and line terminators. */
  predicate IsWhitespace(c: char)
  {
    c == ' ' || c == '\t' || c == '\n' || c == '\r' || c == '\U{000B}' || c == '\U{000C}' ||
    c == '\U{00A0}' || c == '\U{1680}' || ('\U{2000}' <= c <= '\U{200A}') ||
    c == '\U{2028}' || c == '\U{2029}' || c == '\U{202F}' || c == '\U{205F}' ||
    c == '\U{3000}' || c == '\U{FEFF}'
  }

  /** Drops the leading white space. */
  function TrimStart(s: string): string
    decreases |s|
  {
    if s != [] && IsWhitespace(s[0]) then TrimStart(s[1..]) else s
  }

  /** Drops the trailing white space. */
  function TrimEnd(s: string): string
    decreases |s|
  {
    if s != [] && IsWhitespace(s[|s| - 1]) then TrimEnd(s[..|s| - 1]) else s
  }

  /** `trim()`: both ends at once. */
  function Trim(s: string): string
  {
    TrimEnd(TrimStart(s))
  }

  /** TrimStart leaves a suffix that does not start with white space, and drops only white space. */
  lemma {:induction false} TrimStartSpec(s: string)
    ensures var r := TrimStart(s);
            |r| <= |s| && r == s[|s| - |r|..] &&
            (forall i :: 0 <= i < |s| - |r| ==> IsWhitespace(s[i])) &&
            (r != [] ==> !IsWhitespace(r[0]))
    decreases |s|
  {
    if s != [] && IsWhitespace(s[0]) {
      TrimStartSpec(s[1..]);
      var r := TrimStart(s[1..]);
      assert s[1..][|s[1..]| - |r|..] == s[|s| - |r|..];
      forall i | 0 <= i < |s| - |r| ensures IsWhitespace(s[i]) {
        if i > 0 {
          assert s[i] == s[1..][i - 1];
        }
      }
    }
  }

  /** TrimEnd leaves a prefix that does not end with white space, and drops only white space. */
  lemma {:induction false} TrimEndSpec(s: string)
    ensures var r := TrimEnd(s);
            |r| <= |s| && r == s[..|r|] &&
            (forall i :: |r| <= i < |s| ==> IsWhitespace(s[i])) &&
            (r != [] ==> !IsWhitespace(r[|r| - 1]))
    decreases |s|
  {
    if s != [] && IsWhitespace(s[|s| - 1]) {
      var init := s[..|s| - 1];
      TrimEndSpec(init);
      var r := TrimEnd(init);
      assert init[..|r|] == s[..|r|];
      forall i | |r| <= i < |s| ensures IsWhitespace(s[i]) {
        if i < |s| - 1 {
          assert s[i] == init[i];
        }
      }
    }
  }

  /** A string trims to nothing exactly when every character of it is white space. */
  lemma TrimmedEmptyIffBlank(s: string)
    ensures |Trim(s)| == 0 <==> forall i :: 0 <= i < |s| ==> IsWhitespace(s[i])
  {
    var a := TrimStart(s);
    TrimStartSpec(s);
    TrimEndSpec(a);
    assert |Trim(s)| == 0 <==> |a| == 0;
    assert |a| > 0 ==> a[0] == s[|s| - |a|];
  }

  // ------------------------------------------------------ create-task body

  /** The three fields of a create-task request body. */
  datatype CreateTaskBody = CreateTaskBody(taskStrId: JsonValue, description: JsonValue, estimatedTimeMinutes: JsonValue)

  /** The rejection test for `task_str_id` and `description`: falsy, not a string, or blank after trimming. */
  predicate StringFieldInvalid(v: JsonValue)
  {
    Falsy(v) || !v.Str? || |Trim(v.s)| == 0
  }

  /** The rejection test for `estimated_time_minutes`: falsy, not a number, or not above zero. */
  predicate EstimateFieldInvalid(v: JsonValue)
  {
    Falsy(v) || !v.Number? || v.n <= 0.0
  }

  /** A text field passes exactly when it is a string with a character that is not white space. */
  lemma StringFieldRule(v: JsonValue)
    ensures !StringFieldInvalid(v) <==> v.Str? && exists i :: 0 <= i < |v.s| && !IsWhitespace(v.s[i])
  {
    if v.Str? {
      TrimmedEmptyIffBlank(v.s);
    }
  }

  /** The estimate passes exactly when it is a number above zero; zero itself is rejected. */
  lemma EstimateFieldRule(v: JsonValue)
    ensures !EstimateFieldInvalid(v) <==> v.Number? && v.n > 0.0
    ensures EstimateFieldInvalid(Number(0.0))
  {
  }

  /** The fields in the order they are checked. */
  datatype CreateField = TaskStrIdField | DescriptionField | EstimateField

  predicate FieldInvalid(body: CreateTaskBody, f: CreateField)
  {
    match f
    case TaskStrIdField => StringFieldInvalid(body.taskStrId)
    case DescriptionField => StringFieldInvalid(body.description)
    case EstimateField => EstimateFieldInvalid(body.estimatedTimeMinutes)
  }

  const TaskStrIdMessage := "task_str_id is required and must be a non-empty string"
  const DescriptionMessage := "description is required and must be a non-empty string"
  const EstimateMessage := "estimated_time_minutes is required and must be a positive integer"

  function FieldMessage(f: CreateField): string
  {
    match f
    case TaskStrIdField => TaskStrIdMessage
    case DescriptionField => DescriptionMessage
    case EstimateField => EstimateMessage
  }

  /** Where a field stands in the checking order. */
  function FieldRank(f: CreateField): nat
  {
    match f
    case TaskStrIdField => 0
    case DescriptionField => 1
    case EstimateField => 2
  }

  /** Fields listed in strictly increasing checking order. */
  predicate Ranked(fields: seq<CreateField>)
  {
    forall i, j :: 0 <= i < j < |fields| ==> FieldRank(fields[i]) < FieldRank(fields[j])
  }

  /** The fields whose flag is raised, in checking order. */
  function Flagged(badId: bool, badDescription: bool, badEstimate: bool): (fs: seq<CreateField>)
    ensures |fs| <= 3
    ensures Ranked(fs)
    ensures TaskStrIdField in fs <==> badId
    ensures DescriptionField in fs <==> badDescription
    ensures EstimateField in fs <==> badEstimate
  {
    var fs := (if badId then [TaskStrIdField] else []) +
              (if badDescription then [DescriptionField] else []) +
              (if badEstimate then [EstimateField] else []);
    if badId then
      if badDescription then
        if badEstimate then assert fs == [TaskStrIdField, DescriptionField, EstimateField]; fs
        else assert fs == [TaskStrIdField, DescriptionField]; fs
      else
        if badEstimate then assert fs == [TaskStrIdField, EstimateField]; fs
        else assert fs == [TaskStrIdField]; fs
    else
      if badDescription then
        if badEstimate then assert fs == [DescriptionField, EstimateField]; fs
        else assert fs == [DescriptionField]; fs
      else
        if badEstimate then assert fs == [EstimateField]; fs
        else assert fs == []; fs
  }

  /**
   * The fields a create-task request gets an error for: exactly the invalid
   * ones, each once, in checking order, so between none and three.
   */
  function CreateTaskErrorFields(body: CreateTaskBody): (fs: seq<CreateField>)
    ensures |fs| <= 3
    ensures Ranked(fs)
    ensures forall f :: f in fs <==> FieldInvalid(body, f)
    ensures fs == [] <==> forall f :: !FieldInvalid(body, f)
  {
    var fs := Flagged(FieldInvalid(body, TaskStrIdField), FieldInvalid(body, DescriptionField),
                      FieldInvalid(body, EstimateField));
    assert fs != [] ==> fs[0] in fs;
    fs
  }

  /** The message of each field, in the order of `fields`. */
  function Messages(fields: seq<CreateField>): (ms: seq<string>)
    ensures |ms| == |fields|
    ensures forall i :: 0 <= i < |fields| ==> ms[i] == FieldMessage(fields[i])
  {
    seq(|fields|, i requires 0 <= i < |fields| => FieldMessage(fields[i]))
  }

  lemma MessagesAppend(fields: seq<CreateField>, f: CreateField)
    ensures Messages(fields + [f]) == Messages(fields) + [FieldMessage(f)]
  {
  }

  /**
   * Collects one message per invalid field, checking `task_str_id`,
   * `description` and `estimated_time_minutes` in turn, and accepts the
   * request only when none was collected.
   */
  method ValidateCreateTask(body: CreateTaskBody) returns (v: Verdict)
    ensures v.Accept? <==> CreateTaskErrorFields(body) == []
    ensures v.Reject? ==> v.error == "Validation failed" && v.details == Messages(CreateTaskErrorFields(body))
  {
    var errors: seq<string> := [];
    ghost var fields: seq<CreateField> := [];
    if StringFieldInvalid(body.taskStrId) {
      MessagesAppend(fields, TaskStrIdField);
      errors, fields := errors + [TaskStrIdMessage], fields + [TaskStrIdField];
    }
    assert errors == Messages(fields) && fields == if StringFieldInvalid(body.taskStrId) then [TaskStrIdField] else [];
    if StringFieldInvalid(body.description) {
      MessagesAppend(fields, DescriptionField);
      errors, fields := errors + [DescriptionMessage], fields + [DescriptionField];
    }
    assert errors == Messages(fields) &&
           fields == (if StringFieldInvalid(body.taskStrId) then [TaskStrIdField] else []) +
                     (if StringFieldInvalid(body.description) then [DescriptionField] else []);
    if EstimateFieldInvalid(body.estimatedTimeMinutes) {
      MessagesAppend(fields, EstimateField);
      errors, fields := errors + [EstimateMessage], fields + [EstimateField];
    }
    assert errors == Messages(fields) && fields == CreateTaskErrorFields(body);
    if |errors| > 0 {
      return Reject("Validation failed", errors);
    }
    v := Accept;
  }

  // ---------------------------------------------------- status update body

  const StatusNames: seq<string> := ["pending", "processing", "completed"]

  /** Accepts `new_status` exactly when it is the name of one of the three statuses. */
  function ValidateStatusUpdate(newStatus: JsonValue): (v: Verdict)
    ensures v.Accept? <==> exists s :: newStatus == Str(StatusName(s))
    ensures v.Accept? ==> ParseStatus(newStatus.s).Some?
    ensures v.Reject? ==>
              v == Reject("Invalid status", ["new_status must be one of: pending, processing, completed"])
  {
    if Falsy(newStatus) || !(newStatus.Str? && newStatus.s in StatusNames) then
      Reject("Invalid status", ["new_status must be one of: pending, processing, completed"])
    else
      assert newStatus.s == StatusName(ParseStatus(newStatus.s).value);
      Accept
  }

  // ------------------------------------------------------ query parameters

  /** The three query parameters of the pending list; each may be missing. */
  datatype QueryParams = QueryParams(sortBy: Option<string>, order: Option<string>, limit: Option<string>)

  /** A parameter takes part in a check only when it is present and not the empty string. */
  predicate Given(p: Option<string>)
  {
    p.Some? && p.value != ""
  }

  predicate IsDigit(c: char)
  {
    '0' <= c <= '9'
  }

  predicate IsDecimal(s: string)
  {
    |s| > 0 && forall i :: 0 <= i < |s| ==> IsDigit(s[i])
  }

  /** The value of a string of decimal digits, read left to right. */
  function DecimalValue(s: string): nat
    requires forall i :: 0 <= i < |s| ==> IsDigit(s[i])
    decreases |s|
  {
    if s == [] then 0
    else
      assert IsDigit(s[|s| - 1]);
      DecimalValue(s[..|s| - 1]) * 10 + (s[|s| - 1] as int - '0' as int)
  }

  /** A digit string stands for a positive number exactly when one of its digits is not zero. */
  lemma {:induction false} DecimalPositiveIffNonzeroDigit(s: string)
    requires forall i :: 0 <= i < |s| ==> IsDigit(s[i])
    ensures DecimalValue(s) > 0 <==> exists i :: 0 <= i < |s| && s[i] != '0'
    decreases |s|
  {
    if s != [] {
      var init := s[..|s| - 1];
      DecimalPositiveIffNonzeroDigit(init);
      if exists i :: 0 <= i < |init| && init[i] != '0' {
        var i :| 0 <= i < |init| && init[i] != '0';
        assert s[i] == init[i];
      }
      if exists i :: 0 <= i < |s| && s[i] != '0' {
        var i :| 0 <= i < |s| && s[i] != '0';
        if i < |init| {
          assert init[i] == s[i];
        }
      }
    }
  }

  /** The `limit` test: rejected when it is not a number or does not parse to a positive integer. */
  predicate LimitRejected(s: string)
  {
    !IsDecimal(s) || DecimalValue(s) <= 0
  }

  const SortByError := Reject("Invalid sort_by parameter", ["sort_by must be either \"estimated_time_minutes\" or \"submitted_at\""])
  const OrderError := Reject("Invalid order parameter", ["order must be either \"asc\" or \"desc\""])
  const LimitError := Reject("Invalid limit parameter", ["limit must be a positive integer"])

  predicate SortByOk(q: QueryParams)
  {
    !Given(q.sortBy) || ParseSortKey(q.sortBy.value).Some?
  }

  predicate OrderOk(q: QueryParams)
  {
    !Given(q.order) || q.order.value == "asc" || q.order.value == "desc"
  }

  predicate LimitOk(q: QueryParams)
  {
    !Given(q.limit) ||
    (IsDecimal(q.limit.value) && exists i :: 0 <= i < |q.limit.value| && q.limit.value[i] != '0')
  }

  /**
   * Checks `sort_by`, then `order`, then `limit`, and reports only the first
   * parameter that fails.
   */
  function ValidateQueryParams(q: QueryParams): (v: Verdict)
    ensures v.Accept? <==> SortByOk(q) && OrderOk(q) && LimitOk(q)
    ensures !SortByOk(q) ==> v == SortByError
    ensures SortByOk(q) && !OrderOk(q) ==> v == OrderError
    ensures SortByOk(q) && OrderOk(q) && !LimitOk(q) ==> v == LimitError
  {
    assert Given(q.limit) && IsDecimal(q.limit.value) ==>
             (DecimalValue(q.limit.value) > 0 <==> exists i :: 0 <= i < |q.limit.value| && q.limit.value[i] != '0') by {
      if Given(q.limit) && IsDecimal(q.limit.value) {
        DecimalPositiveIffNonzeroDigit(q.limit.value);
      }
    }
    if q.sortBy.Some? && q.sortBy.value != "" && q.sortBy.value !in ["estimated_time_minutes", "submitted_at"] then
      SortByError
    else if q.order.Some? && q.order.value != "" && q.order.value !in ["asc", "desc"] then
      OrderError
    else if q.limit.Some? && q.limit.value != "" && LimitRejected(q.limit.value) then
      LimitError
    else
      Accept
  }
}
