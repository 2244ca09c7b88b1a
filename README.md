# Biometric attendance to HR check-in synchronisation, in Dafny

This project models the synchronisation pipeline of `employee_app.py`. One pass of the
scheduler visits every configured biometric terminal once. For each terminal it polls
the attendance records and tags each one with a shift label. It joins the records to
the employee roster fetched from the HR backend, keeps the rows inside the configured
date window, and submits up to five of them as check-ins with bounded per-row retries.

The terminal, the HR backend and pandas are replaced by values:

- `poll: string -> seq<Punch>` gives the records a terminal at a given IP address reports.
  An empty sequence stands both for a terminal that returned no records and for an error.
  `fetch_biometric_data` turns errors inside its `try` into an empty list. An error that
  escapes it (building the client, `disconnect`, the final comprehension) makes the merge
  return None (lines 88-92), which is the same result as for no data.
- `Backend(pages)` is the roster resource. `Roster.Respond` answers a request at
  `limit_start = offset` with page `offset / 1000`: a page of entries, a body without
  `data`, or a failed request. Past the end of `pages` the listing is exhausted and the
  answer is an empty page.
- `replies: nat -> PostOutcome` is the backend's answer to the process's k-th check-in
  POST (a status code or a transport error). The reports record which POST numbers each
  row used.
- Timestamps are integers (the result of `pd.to_datetime`). `iso: int -> string` is the
  `isoformat` rendering.

Modules:

- `Records` holds the entities.
- `Roster` models the pagination loop of `fetch_employee_data`.
- `Merge` models `process_and_merge_biometric_with_employee_data`. The shift tagging is an
  in-place loop over an array of records. The join and the date filter are functions.
- `Delivery` models `push_data_to_erp` and its per-row retry loop.
- `Scheduler` models `main_loop`.

The left join follows pandas `how='left'`:

- Record order is kept.
- A record without a roster match gives one row whose `employee` is null.
- A record matching k roster entries gives k rows, in roster order.
- Two null keys match each other. This is documented pandas behaviour. So a record
  without `user_id`, in a batch where other records have one, is joined to every
  employee who has no `attendance_device_id`.

The merge is a function (`Merge.MergeRows`) of the polled records, the shift, the roster
and the window. Re-running it on the same inputs therefore gives the same rows.

Where the written design and the code differ, the model follows the code:

- The code treats only 200 and 201 as success. Every other status is retried, a 2xx
  such as 204 included.
- `max_retries` bounds the total number of POST attempts per row, not the retries after
  a first attempt.
- The merge result still holds rows with a null employee. `head(5)` counts those rows, so
  a cycle can POST fewer than five check-ins even when more than five rows matched.

## Model

| member | source | states |
|---|---|---|
| `Roster.FetchEmployeeData` | employee_app.py:45-72 | requests offsets 0, 1000, 2000, … in order; the last request is the first page that is empty, lacks `data` or fails; returns the concatenation of the pages before it (a partial roster, never an error) |
| `Roster.ListingIsPages` | employee_app.py:49-72 | the roster the loop builds page by page equals the concatenation of the pages before the first stopping page |
| `Roster.FirstStopUnique` | employee_app.py:56-72 | the page where pagination stops is unique: the first empty, `data`-less or failed page |
| `Roster.PagesMembers` | employee_app.py:62-65 | an entry is in the roster exactly when it appears on one of the pages received before the stop |
| `Merge.TagShift` | employee_app.py:100-101 | tags every record in place with the shift, changing nothing else in it |
| `Merge.Matches` | employee_app.py:117 | the roster entries joined to a key are exactly those whose `attendance_device_id` equals it (null matching null) |
| `Merge.MatchesOne` | employee_app.py:117 | a single roster entry is matched exactly when it carries the key |
| `Merge.MatchesAppend` | employee_app.py:117 | matching distributes over a split roster, so every matching entry is matched once, in roster order |
| `Merge.JoinEventRows` | employee_app.py:117 | a record with no match gives one row with a null employee; with k matches it gives k rows, the j-th joined to the j-th match in roster order, each carrying the record |
| `Merge.LeftJoinAppend` | employee_app.py:117 | the join of two runs of records is the join of the first followed by the join of the second |
| `Merge.LeftJoinAt` | employee_app.py:117 | no record is dropped and order is kept: record i's rows form one block between those of the earlier and later records |
| `Merge.LeftJoinOneToOne` | employee_app.py:117 | when no record matches two roster entries, the join has exactly one row per record, in record order |
| `Merge.FilterWindow` | employee_app.py:120-123 | a row is kept exactly when it is an input row with `START_DATE <= timestamp <= END_DATE`, both bounds inclusive |
| `Merge.FilterWindowAppend` | employee_app.py:123 | the date filter keeps the order of the rows it keeps |
| `Merge.MergeRowsShape` | employee_app.py:94-125 | no result exactly for an empty poll or records without a `user_id` column; otherwise every row is inside the window, carries the cycle's shift and comes from one of the polled records |
| `Merge.MergeRowsAt` | employee_app.py:117-123 | in the merge result record i's rows stay in record order, and they are all kept when its timestamp is in the window and all dropped otherwise |
| `Merge.ProcessAndMerge` | employee_app.py:83-125 | picks `devices[i % len(devices)]` and `SHIFT[i % len(SHIFT)]`; returns the merge of that device's records with the fetched roster; makes no roster request exactly when it returns no result |
| `Delivery.SubmitRow` | employee_app.py:151-170 | POSTs consecutive replies until a 200/201 or until `max_retries` failures; at most `max_retries` attempts (none when it is 0); every attempt but the last failed; success exactly when the last one was accepted |
| `Delivery.RetryTraceAttempts` | employee_app.py:151-163 | the retry loop makes exactly the reference number of attempts: up to and including the first accepted reply, capped by the budget |
| `Delivery.AlwaysFailing` | employee_app.py:151-171 | against an endpoint that always fails with the same status, a row is abandoned after exactly `max_retries` attempts |
| `Delivery.PushDataToErp` | employee_app.py:128-173 | visits every row in order; skips exactly the rows with a null employee; submits the others with bounded retries, their POSTs numbered consecutively; one row's failure does not stop the batch; always returns true |
| `Delivery.PostsOnlyEmployees` | employee_app.py:136-147 | a row is POSTed exactly when its employee is not null, with body `{employee, time, shift}` of that row, at most `max_retries` times |
| `Scheduler.Head` | employee_app.py:218 | `head(5)` is the prefix of length min(5, rows) |
| `Scheduler.MainLoop` | employee_app.py:200-225 | runs exactly `len(devices)` cycles; cycle i uses device i and shift `i mod len(SHIFT)`; it skips on no result or no rows and otherwise pushes the first five rows with the default retry budget |
| `Scheduler.PushedBatch` | employee_app.py:212-222 | a pushed cycle sends between one and five merged rows, a prefix in order; rows past the fifth are never attempted |
| `Scheduler.SilentDeviceSkipped` | employee_app.py:95-97 | a device that reports no records gives a skipped cycle that makes no POST |
| `Scheduler.TwoDeviceRun` | employee_app.py:200-225 | two devices, the first with one in-window punch of a known employee, the second silent, every POST accepted: exactly one POST, for that employee with the first shift, and the second device is skipped |

## Left out

- `fetch_biometric_data` (the terminal protocol, connect and disconnect) is replaced by the `poll` function. An error escaping the adapter makes lines 88-92 return None. That is the same result as an empty poll (None and no roster request), so `poll` returning `[]` stands for both cases.
- HTTP transport is replaced by the `Backend` and `replies` values. This covers the session, the urllib3 `Retry`/`HTTPAdapter` backoff on 5xx, timeouts and the authorisation headers. A POST exception other than `requests.exceptions.RequestException` would propagate in the source; that is not modelled.
- pandas internals, `json.dumps`, timestamp parsing and `isoformat` are modelled only through sequences of records, integer timestamps and the `iso` parameter. A record whose timestamp cannot be parsed, and dtype coercion of join keys (an integer key never equal to a string key), are not modelled.
- A `user_id` key present with a null value is not distinguished from an absent key. `Punch.userId` is `None` for both. The terminal library always supplies the key.
- `time.sleep` pacing, `print` logging and the `local_config` import are left out. They do not affect state.
- The commented-out infinite variant of `main_loop` (lines 176-197) is dead code.
- `Roster.FetchEmployeeData`: the backend's listing is finite (pages past `pages` are empty). A backend that serves non-empty pages forever makes the source's `while True` loop run forever; the model cannot express that.
- `Scheduler.MainLoop`: every cycle gets the same `Backend`. A roster that changes between cycles is not modelled.
- `Scheduler.MainLoop`: requires a non-empty shift list when there are devices. With an empty `SHIFT` the source raises `ZeroDivisionError` in the first cycle.
- `Merge.ProcessAndMerge`: requires non-empty device and shift lists. The source raises `ZeroDivisionError` otherwise, and the scheduler only calls it while a device is left.
