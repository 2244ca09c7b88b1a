/**
 * The merge & filter engine: tag one device's attendance records with the
 * cycle's shift, left-join them to the roster on the device-assigned id, and
 * keep the rows whose timestamp lies in the configured date window.
 */
module Merge {
  import opened Wrappers
  import opened Records
  import Roster

  /** `attendance['shift'] = shift` applied to every record. */
  function Tagged(events: seq<Punch>, shift: string): seq<Punch> {
    seq(|events|, i requires 0 <= i < |events| => events[i].(shift := Some(shift)))
  }

  /** The loop that tags each attendance record in place. */
  method TagShift(records: array<Punch>, shift: string)
    modifies records
    ensures records[..] == Tagged(old(records[..]), shift)
  {
    for i := 0 to records.Length
      invariant forall j :: 0 <= j < i ==> records[j] == old(records[j]).(shift := Some(shift))
      invariant forall j :: i <= j < records.Length ==> records[j] == old(records[j])
    {
      records[i] := records[i].(shift := Some(shift));
    }
  }

  /** The frame built from the records has a `user_id` column: some record carries the key. */
  predicate HasUserIdColumn(events: seq<Punch>) {
    exists i :: 0 <= i < |events| && events[i].userId.Some?
  }

  /**
   * The roster entries whose `attendance_device_id` equals `key`, in roster
   * order. As in pandas, a null key matches the entries whose id is null.
   */
  function Matches(key: Option<string>, roster: seq<Employee>): (ms: seq<Employee>)
    ensures |ms| <= |roster|
    ensures forall e :: e in ms <==> e in roster && e.attendanceDeviceId == key
  {
    if roster == [] then []
    else
      var rest := Matches(key, roster[1..]);
      assert forall e :: e in roster <==> e == roster[0] || e in roster[1..];
      if roster[0].attendanceDeviceId == key then [roster[0]] + rest else rest
  }

  /** A one-entry roster matches its entry exactly when the entry carries the key. */
  lemma MatchesOne(key: Option<string>, e: Employee)
    ensures Matches(key, [e]) == if e.attendanceDeviceId == key then [e] else []
  {
    assert [e][1..] == [];
  }

  /**
   * The matches of a roster split in two are the matches of the first part
   * followed by those of the second: together with `MatchesOne`, every
   * matching entry is matched once, in roster order.
   */
  lemma {:induction false} MatchesAppend(key: Option<string>, a: seq<Employee>, b: seq<Employee>)
    ensures Matches(key, a + b) == Matches(key, a) + Matches(key, b)
  {
    if a == [] {
      assert a + b == b;
    } else {
      assert (a + b)[1..] == a[1..] + b;
      MatchesAppend(key, a[1..], b);
    }
  }

  /** The left join's rows for one attendance record. */
  function JoinEvent(p: Punch, roster: seq<Employee>): seq<Row> {
    var ms := Matches(p.userId, roster);
    if ms == [] then [Row(p, None)]
    else seq(|ms|, j requires 0 <= j < |ms| => Row(p, Some(ms[j])))
  }

  /** `pd.merge(df, emp_df, on='attendance_device_id', how='left')`. */
  function LeftJoin(events: seq<Punch>, roster: seq<Employee>): seq<Row> {
    if events == [] then [] else JoinEvent(events[0], roster) + LeftJoin(events[1..], roster)
  }

  /** The inclusive date filter `start <= t <= end`. */
  predicate InWindow(t: int, start: int, end: int) {
    start <= t && t <= end
  }

  /** `result_df[(timestamp >= start_date) & (timestamp <= end_date)]`. */
  function FilterWindow(rows: seq<Row>, start: int, end: int): (kept: seq<Row>)
    ensures |kept| <= |rows|
    ensures forall r :: r in kept <==> r in rows && InWindow(r.event.timestamp, start, end)
  {
    if rows == [] then []
    else
      var rest := FilterWindow(rows[1..], start, end);
      assert forall r :: r in rows <==> r == rows[0] || r in rows[1..];
      if InWindow(rows[0].event.timestamp, start, end) then [rows[0]] + rest else rest
  }

  /**
   * What `process_and_merge_biometric_with_employee_data` returns for the
   * records a device reported, the cycle's shift and the fetched roster:
   * `None` for no records or no `user_id` column, otherwise the joined rows
   * inside the window, each tagged with the shift.
   */
  function MergeRows(events: seq<Punch>, shift: string, roster: seq<Employee>, start: int, end: int): Option<seq<Row>>
  {
    if events == [] || !HasUserIdColumn(events) then None
    else Some(FilterWindow(LeftJoin(Tagged(events, shift), roster), start, end))
  }

  /**
   * The merge gives no result exactly for no records or no `user_id`
   * column; otherwise every row it keeps is inside the window, carries the
   * shift and is one of the polled records, tagged.
   */
  lemma MergeRowsShape(events: seq<Punch>, shift: string, roster: seq<Employee>, start: int, end: int)
    ensures var r := MergeRows(events, shift, roster, start, end);
      && (r.None? <==> events == [] || !HasUserIdColumn(events))
      && (r.Some? ==> forall row :: row in r.value ==>
            && InWindow(row.event.timestamp, start, end)
            && row.event.shift == Some(shift)
            && exists i :: 0 <= i < |events| && row.event == events[i].(shift := Some(shift)))
  {
    var tagged := Tagged(events, shift);
    LeftJoinEvents(tagged, roster);
    assert forall p :: p in tagged ==> exists i :: 0 <= i < |events| && p == events[i].(shift := Some(shift));
  }

  /** Every row of the join comes from one of the joined records. */
  lemma {:induction false} LeftJoinEvents(events: seq<Punch>, roster: seq<Employee>)
    ensures forall row :: row in LeftJoin(events, roster) ==> row.event in events
  {
    if events != [] {
      LeftJoinEvents(events[1..], roster);
    }
  }

  /**
   * The rows of one record: each names the record; a null employee exactly
   * when no roster entry has the record's key; otherwise a roster entry with
   * that key, and every such entry gives a row.
   */
  lemma JoinEventRows(p: Punch, roster: seq<Employee>)
    ensures var ms := Matches(p.userId, roster);
      |JoinEvent(p, roster)| == if ms == [] then 1 else |ms|
    ensures forall row :: row in JoinEvent(p, roster) ==>
      && row.event == p
      && (row.matched.None? <==> forall e :: e in roster ==> e.attendanceDeviceId != p.userId)
      && (row.matched.Some? ==> row.matched.value in roster && row.matched.value.attendanceDeviceId == p.userId)
    ensures forall e :: e in roster && e.attendanceDeviceId == p.userId ==> Row(p, Some(e)) in JoinEvent(p, roster)
    ensures var ms := Matches(p.userId, roster);
      ms != [] ==> forall j :: 0 <= j < |ms| ==> JoinEvent(p, roster)[j] == Row(p, Some(ms[j]))
  {
    var ms := Matches(p.userId, roster);
    var rows := JoinEvent(p, roster);
    if ms != [] {
      forall e | e in roster && e.attendanceDeviceId == p.userId
        ensures Row(p, Some(e)) in rows
      {
        var j :| 0 <= j < |ms| && ms[j] == e;
        assert rows[j] == Row(p, Some(e));
      }
      forall row | row in rows
        ensures row.matched.Some? && row.matched.value in ms
      {
        var j :| 0 <= j < |rows| && rows[j] == row;
        assert ms[j] in ms;
      }
    }
  }

  /** The join of two runs of records is the join of the first followed by the join of the second. */
  lemma {:induction false} LeftJoinAppend(a: seq<Punch>, b: seq<Punch>, roster: seq<Employee>)
    ensures LeftJoin(a + b, roster) == LeftJoin(a, roster) + LeftJoin(b, roster)
  {
    if a == [] {
      assert a + b == b;
    } else {
      assert (a + b)[1..] == a[1..] + b;
      LeftJoinAppend(a[1..], b, roster);
    }
  }

  /**
   * The join keeps record order and drops no record: the rows of record `i`
   * form one block after those of every earlier record and before those of
   * every later one.
   */
  lemma LeftJoinAt(events: seq<Punch>, roster: seq<Employee>, i: nat)
    requires i < |events|
    ensures LeftJoin(events, roster)
         == LeftJoin(events[..i], roster) + JoinEvent(events[i], roster) + LeftJoin(events[i + 1..], roster)
  {
    assert events == events[..i] + ([events[i]] + events[i + 1..]);
    LeftJoinAppend(events[..i], [events[i]] + events[i + 1..], roster);
    LeftJoinAppend([events[i]], events[i + 1..], roster);
    assert LeftJoin([events[i]], roster) == JoinEvent(events[i], roster) + LeftJoin([], roster);
  }

  /**
   * When no record matches more than one roster entry, the join has exactly
   * one row per record, in record order.
   */
  lemma {:induction false} LeftJoinOneToOne(events: seq<Punch>, roster: seq<Employee>)
    requires forall i :: 0 <= i < |events| ==> |Matches(events[i].userId, roster)| <= 1
    ensures |LeftJoin(events, roster)| == |events|
    ensures forall i :: 0 <= i < |events| ==> LeftJoin(events, roster)[i].event == events[i]
  {
    if events != [] {
      LeftJoinOneToOne(events[1..], roster);
      var first := JoinEvent(events[0], roster);
      assert |first| == 1 && first[0].event == events[0];
      var rows := LeftJoin(events, roster);
      assert rows == first + LeftJoin(events[1..], roster);
      forall i | 1 <= i < |events|
        ensures rows[i].event == events[i]
      {
        assert rows[i] == LeftJoin(events[1..], roster)[i - 1];
      }
    }
  }

  /** The date filter keeps the order of the rows it keeps. */
  lemma {:induction false} FilterWindowAppend(a: seq<Row>, b: seq<Row>, start: int, end: int)
    ensures FilterWindow(a + b, start, end) == FilterWindow(a, start, end) + FilterWindow(b, start, end)
  {
    if a == [] {
      assert a + b == b;
    } else {
      assert (a + b)[1..] == a[1..] + b;
      FilterWindowAppend(a[1..], b, start, end);
    }
  }

  /** The date filter keeps a record's whole block of rows or none of it. */
  lemma {:induction false} FilterWindowBlock(p: Punch, rows: seq<Row>, start: int, end: int)
    requires forall row :: row in rows ==> row.event == p
    ensures FilterWindow(rows, start, end) == if InWindow(p.timestamp, start, end) then rows else []
  {
    if rows != [] {
      FilterWindowBlock(p, rows[1..], start, end);
      assert rows == [rows[0]] + rows[1..];
    }
  }

  /**
   * In a merge that produces rows, record `i`'s rows follow those of the
   * earlier records and precede those of the later ones, and they are all
   * kept when its timestamp is inside the window and all dropped otherwise.
   */
  lemma MergeRowsAt(events: seq<Punch>, shift: string, roster: seq<Employee>, start: int, end: int, i: nat)
    requires i < |events| && HasUserIdColumn(events)
    ensures var t := Tagged(events, shift);
      MergeRows(events, shift, roster, start, end)
      == Some(FilterWindow(LeftJoin(t[..i], roster), start, end)
              + (if InWindow(events[i].timestamp, start, end) then JoinEvent(t[i], roster) else [])
              + FilterWindow(LeftJoin(t[i + 1..], roster), start, end))
  {
    var t := Tagged(events, shift);
    LeftJoinAt(t, roster, i);
    var block := JoinEvent(t[i], roster);
    FilterWindowAppend(LeftJoin(t[..i], roster) + block, LeftJoin(t[i + 1..], roster), start, end);
    FilterWindowAppend(LeftJoin(t[..i], roster), block, start, end);
    JoinEventRows(t[i], roster);
    FilterWindowBlock(t[i], block, start, end);
  }

  /**
   * `process_and_merge_biometric_with_employee_data` for cycle `shiftIndex`:
   * picks the device and the shift by position modulo the list lengths,
   * polls the device, gives up on no records or no `user_id` column (and
   * then never asks for the roster), otherwise tags the records in place,
   * fetches the roster and returns the joined rows inside the window.
   * `requests` lists the offsets of the roster requests made.
   */
  method ProcessAndMerge(cfg: Config, shiftIndex: nat, poll: string -> seq<Punch>, backend: Backend)
    returns (result: Option<seq<Row>>, requests: seq<nat>)
    requires |cfg.devices| > 0 && |cfg.shifts| > 0
    ensures result == MergeRows(poll(cfg.devices[shiftIndex % |cfg.devices|].ip), cfg.shifts[shiftIndex % |cfg.shifts|],
                                Roster.Listing(backend, 0), cfg.startDate, cfg.endDate)
    ensures result.None? <==> requests == []
    ensures result.Some? ==> Roster.FirstStop(backend, |requests| - 1)
    ensures forall j :: 0 <= j < |requests| ==> requests[j] == j * Roster.PageLength
  {
    var device := cfg.devices[shiftIndex % |cfg.devices|];
    var shift := cfg.shifts[shiftIndex % |cfg.shifts|];
    var deviceData := poll(device.ip);
    if deviceData == [] {
      return None, [];
    }
    var records := new Punch[|deviceData|](i requires 0 <= i < |deviceData| => deviceData[i]);
    assert records[..] == deviceData;
    TagShift(records, shift);
    var df := records[..];
    if !HasUserIdColumn(df) {
      assert forall i :: 0 <= i < |df| ==> df[i].userId == deviceData[i].userId;
      return None, [];
    }
    assert forall i :: 0 <= i < |df| ==> df[i].userId == deviceData[i].userId;
    var roster;
    roster, requests := Roster.FetchEmployeeData(backend);
    result := Some(FilterWindow(LeftJoin(df, roster), cfg.startDate, cfg.endDate));
  }
}
