/**
 * The delivery submitter: POSTs one check-in per merged row that has an
 * employee, retrying each row a bounded number of times; a row that never
 * succeeds is abandoned without affecting the others.
 */
module Delivery {
  import opened Wrappers
  import opened Records

  /** The default of `max_retries`, the one the scheduler uses. */
  const DefaultMaxRetries: int := 2

  /** The JSON body of a check-in POST: `{employee, time, shift}`. */
  datatype Payload = Payload(employee: string, time: string, shift: Option<string>)

  /**
   * What happened to one row: skipped for a null employee, or submitted with
   * `payload`, the replies `statuses` to its POSTs (the first of which was
   * the process's POST number `first`) and whether one of them succeeded.
   */
  datatype RowReport =
    | Skipped
    | Submitted(payload: Payload, first: nat, statuses: seq<PostOutcome>, success: bool)

  /** The success criterion: status 200 or 201, nothing else. */
  predicate Accepted(o: PostOutcome) {
    o.Status? && (o.code == 200 || o.code == 201)
  }

  /** The number of attempts `max_retries` allows: none when it is zero or negative. */
  function Budget(maxRetries: int): nat {
    if maxRetries < 0 then 0 else maxRetries
  }

  /** The POST body for a row with an employee; `iso` renders the timestamp as ISO text. */
  function PayloadOf(row: Row, iso: int -> string): Payload
    requires row.matched.Some?
  {
    Payload(row.matched.value.employee, iso(row.event.timestamp), row.event.shift)
  }

  /**
   * The retry loop's trace: `statuses` are the replies to consecutive POSTs
   * numbered from `first`, at most `Budget(maxRetries)` of them, every one
   * but the last a failure; `success` holds exactly when the last one is
   * accepted, and a row without success used its whole budget.
   */
  ghost predicate RetryTrace(replies: nat -> PostOutcome, first: nat, maxRetries: int,
                             statuses: seq<PostOutcome>, success: bool)
  {
    && |statuses| <= Budget(maxRetries)
    && (forall j :: 0 <= j < |statuses| ==> statuses[j] == replies(first + j))
    && (forall j :: 0 <= j < |statuses| - 1 ==> !Accepted(statuses[j]))
    && (success <==> |statuses| > 0 && Accepted(statuses[|statuses| - 1]))
    && (!success ==> |statuses| == Budget(maxRetries))
  }

  /**
   * Reference count of attempts: POST until a reply is accepted or `budget`
   * attempts are spent.
   */
  function Attempts(replies: nat -> PostOutcome, first: nat, budget: nat): nat
    decreases budget
  {
    if budget == 0 then 0
    else if Accepted(replies(first)) then 1
    else 1 + Attempts(replies, first + 1, budget - 1)
  }

  /** The retry loop makes exactly the reference number of attempts. */
  lemma {:induction false} RetryTraceAttempts(replies: nat -> PostOutcome, first: nat, maxRetries: int,
                                              statuses: seq<PostOutcome>, success: bool)
    requires RetryTrace(replies, first, maxRetries, statuses, success)
    ensures |statuses| == Attempts(replies, first, Budget(maxRetries))
  {
    AttemptsFrom(replies, first, Budget(maxRetries), statuses, success);
  }

  lemma {:induction false} AttemptsFrom(replies: nat -> PostOutcome, first: nat, budget: nat,
                                        statuses: seq<PostOutcome>, success: bool)
    requires |statuses| <= budget
    requires forall j :: 0 <= j < |statuses| ==> statuses[j] == replies(first + j)
    requires forall j :: 0 <= j < |statuses| - 1 ==> !Accepted(statuses[j])
    requires success <==> |statuses| > 0 && Accepted(statuses[|statuses| - 1])
    requires !success ==> |statuses| == budget
    ensures |statuses| == Attempts(replies, first, budget)
    decreases budget
  {
    if budget == 0 {
      assert |statuses| == 0;
    } else if Accepted(replies(first)) {
      assert statuses != [] && statuses[0] == replies(first);
      assert |statuses| == 1;
    } else {
      assert statuses != [] && statuses[0] == replies(first);
      var rest := statuses[1..];
      assert forall j :: 0 <= j < |rest| ==> rest[j] == replies(first + 1 + j);
      assert rest != [] ==> rest[|rest| - 1] == statuses[|statuses| - 1];
      AttemptsFrom(replies, first + 1, budget - 1, rest, success);
    }
  }

  /** Against an endpoint that always answers `code`, a status other than 200 and 201, a row is abandoned after exactly its budget of attempts. */
  lemma AlwaysFailing(replies: nat -> PostOutcome, code: int, first: nat, maxRetries: int,
                      statuses: seq<PostOutcome>, success: bool)
    requires code != 200 && code != 201
    requires forall k :: replies(k) == Status(code)
    requires RetryTrace(replies, first, maxRetries, statuses, success)
    ensures !success && |statuses| == Budget(maxRetries)
  {
  }

  /** The per-row retry loop of `push_data_to_erp`: POSTs until a 200/201 reply or until `max_retries` failures. */
  method SubmitRow(maxRetries: int, replies: nat -> PostOutcome, first: nat)
    returns (statuses: seq<PostOutcome>, success: bool)
    ensures RetryTrace(replies, first, maxRetries, statuses, success)
  {
    var retryCount := 0;
    success := false;
    statuses := [];
    while retryCount < maxRetries && !success
      invariant 0 <= retryCount <= Budget(maxRetries)
      invariant |statuses| == retryCount + (if success then 1 else 0)
      invariant |statuses| <= Budget(maxRetries)
      invariant forall j :: 0 <= j < |statuses| ==> statuses[j] == replies(first + j)
      invariant forall j :: 0 <= j < retryCount ==> !Accepted(statuses[j])
      invariant success ==> Accepted(statuses[|statuses| - 1])
      decreases Budget(maxRetries) - |statuses|
    {
      var response := replies(first + |statuses|);
      statuses := statuses + [response];
      if Accepted(response) {
        success := true;
      } else {
        retryCount := retryCount + 1;
      }
    }
  }

  /** The number of POSTs a batch of reports accounts for. */
  function PostsMade(reports: seq<RowReport>): nat {
    if reports == [] then 0
    else
      var last := reports[|reports| - 1];
      PostsMade(reports[..|reports| - 1]) + (if last.Submitted? then |last.statuses| else 0)
  }

  /** What the submitter does with one row. */
  ghost predicate ReportFor(row: Row, report: RowReport, maxRetries: int, iso: int -> string,
                            replies: nat -> PostOutcome)
  {
    if row.matched.None? then report.Skipped?
    else
      && report.Submitted?
      && report.payload == PayloadOf(row, iso)
      && RetryTrace(replies, report.first, maxRetries, report.statuses, report.success)
  }

  /** Every submitted row's POSTs follow, in order, those of the rows before it. */
  ghost predicate Numbered(reports: seq<RowReport>, first: nat) {
    forall i :: 0 <= i < |reports| && reports[i].Submitted? ==>
      reports[i].first == first + PostsMade(reports[..i])
  }

  /**
   * `push_data_to_erp(df, max_retries)`: visits the rows in order, skips a
   * row whose employee is null, POSTs the others with bounded retries,
   * never stops early and always returns true. `first` is the number of
   * POSTs the process made before; `next` is that number afterwards.
   */
  method PushDataToErp(rows: seq<Row>, maxRetries: int, iso: int -> string,
                       replies: nat -> PostOutcome, first: nat)
    returns (done: bool, reports: seq<RowReport>, next: nat)
    ensures done
    ensures |reports| == |rows|
    ensures forall i :: 0 <= i < |rows| ==> ReportFor(rows[i], reports[i], maxRetries, iso, replies)
    ensures Numbered(reports, first)
    ensures next == first + PostsMade(reports)
  {
    reports := [];
    next := first;
    for index := 0 to |rows|
      invariant |reports| == index
      invariant forall i :: 0 <= i < index ==> ReportFor(rows[i], reports[i], maxRetries, iso, replies)
      invariant Numbered(reports, first)
      invariant next == first + PostsMade(reports)
    {
      var row := rows[index];
      var report;
      if row.matched.None? {
        report := Skipped;
      } else {
        var payload := PayloadOf(row, iso);
        var statuses, success := SubmitRow(maxRetries, replies, next);
        report := Submitted(payload, next, statuses, success);
      }
      assert (reports + [report])[..index] == reports;
      assert forall i :: 0 <= i < index ==> (reports + [report])[..i] == reports[..i];
      reports := reports + [report];
      next := next + (if report.Submitted? then |report.statuses| else 0);
    }
    done := true;
  }

  /** The submitter never POSTs a row whose employee is null, and every POST body is the row's `{employee, time, shift}`. */
  lemma PostsOnlyEmployees(rows: seq<Row>, reports: seq<RowReport>, maxRetries: int, iso: int -> string,
                           replies: nat -> PostOutcome, i: nat)
    requires |reports| == |rows| && i < |rows|
    requires forall k :: 0 <= k < |rows| ==> ReportFor(rows[k], reports[k], maxRetries, iso, replies)
    ensures reports[i].Submitted? <==> rows[i].EmployeeId().Some?
    ensures reports[i].Submitted? ==>
      && Some(reports[i].payload.employee) == rows[i].EmployeeId()
      && reports[i].payload.time == iso(rows[i].event.timestamp)
      && reports[i].payload.shift == rows[i].event.shift
      && |reports[i].statuses| <= Budget(maxRetries)
  {
    assert ReportFor(rows[i], reports[i], maxRetries, iso, replies);
  }
}
