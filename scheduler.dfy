/**
 * The round-robin scheduler (`main_loop`): one pass over the configured
 * devices with a single counter; each cycle merges one device's records,
 * skips the cycle when that gives nothing, and otherwise pushes the first
 * five rows.
 */
module Scheduler {
  import opened Wrappers
  import opened Records
  import Roster
  import Merge
  import Delivery

  /** `filtered_df.head(5)`: the per-cycle cap on pushed rows. */
  const BatchCap: nat := 5

  /** What one cycle did: skipped, or pushed `batch` with one report per row. */
  datatype Cycle =
    | Skip(device: Device, shift: string)
    | Push(device: Device, shift: string, batch: seq<Row>, reports: seq<Delivery.RowReport>)

  /** `head(n)`: the first `n` rows, in order (all of them when fewer). */
  function Head(rows: seq<Row>, n: nat): (h: seq<Row>)
    ensures |h| == if |rows| < n then |rows| else n
    ensures h == rows[..|h|]
  {
    if |rows| <= n then rows else rows[..n]
  }

  /** The POSTs a cycle made. */
  function CyclePosts(c: Cycle): nat {
    if c.Push? then Delivery.PostsMade(c.reports) else 0
  }

  /** The POSTs a run of cycles made. */
  function RunPosts(cycles: seq<Cycle>): nat {
    if cycles == [] then 0 else RunPosts(cycles[..|cycles| - 1]) + CyclePosts(cycles[|cycles| - 1])
  }

  /** The merge result of cycle `i`, with the roster the backend serves. */
  function CycleMerge(cfg: Config, poll: string -> seq<Punch>, backend: Backend, i: nat): Option<seq<Row>>
    requires i < |cfg.devices| && |cfg.shifts| > 0
  {
    Merge.MergeRows(poll(cfg.devices[i].ip), cfg.shifts[i % |cfg.shifts|],
                    Roster.Listing(backend, 0), cfg.startDate, cfg.endDate)
  }

  /**
   * Cycle `i` used device `i` and shift `i mod |shifts|`; it was skipped
   * exactly when the merge gave no result or no rows, and otherwise pushed
   * the first five merged rows with the default retry budget, its POSTs
   * numbered from `first`.
   */
  ghost predicate CycleFor(cfg: Config, poll: string -> seq<Punch>, backend: Backend, iso: int -> string,
                           replies: nat -> PostOutcome, i: nat, c: Cycle, first: nat)
    requires i < |cfg.devices| && |cfg.shifts| > 0
  {
    var m := CycleMerge(cfg, poll, backend, i);
    && c.device == cfg.devices[i]
    && c.shift == cfg.shifts[i % |cfg.shifts|]
    && (if m.None? || m.value == [] then c.Skip?
        else
          && c.Push?
          && c.batch == Head(m.value, BatchCap)
          && |c.reports| == |c.batch|
          && (forall j :: 0 <= j < |c.batch| ==>
                Delivery.ReportFor(c.batch[j], c.reports[j], Delivery.DefaultMaxRetries, iso, replies))
          && Delivery.Numbered(c.reports, first))
  }

  /** Cycle `i` of a run followed its rule, its POSTs numbered after those of the cycles before it. */
  ghost predicate CycleAt(cfg: Config, poll: string -> seq<Punch>, backend: Backend, iso: int -> string,
                          replies: nat -> PostOutcome, cycles: seq<Cycle>, i: nat)
  {
    i < |cycles| && i < |cfg.devices| && |cfg.shifts| > 0
    && CycleFor(cfg, poll, backend, iso, replies, i, cycles[i], RunPosts(cycles[..i]))
  }

  /** Every cycle of a run followed its rule. */
  ghost predicate RunFor(cfg: Config, poll: string -> seq<Punch>, backend: Backend, iso: int -> string,
                         replies: nat -> PostOutcome, cycles: seq<Cycle>)
  {
    && |cycles| <= |cfg.devices|
    && forall i :: 0 <= i < |cycles| ==> CycleAt(cfg, poll, backend, iso, replies, cycles, i)
  }

  lemma CycleAtExtend(cfg: Config, poll: string -> seq<Punch>, backend: Backend, iso: int -> string,
                      replies: nat -> PostOutcome, cycles: seq<Cycle>, c: Cycle, i: nat)
    requires CycleAt(cfg, poll, backend, iso, replies, cycles, i)
    ensures CycleAt(cfg, poll, backend, iso, replies, cycles + [c], i)
  {
    var run := cycles + [c];
    assert run[..i] == cycles[..i] && run[i] == cycles[i];
  }

  lemma RunForAppend(cfg: Config, poll: string -> seq<Punch>, backend: Backend, iso: int -> string,
                     replies: nat -> PostOutcome, cycles: seq<Cycle>, c: Cycle)
    requires RunFor(cfg, poll, backend, iso, replies, cycles)
    requires |cycles| < |cfg.devices| && |cfg.shifts| > 0
    requires CycleFor(cfg, poll, backend, iso, replies, |cycles|, c, RunPosts(cycles))
    ensures RunFor(cfg, poll, backend, iso, replies, cycles + [c])
    ensures RunPosts(cycles + [c]) == RunPosts(cycles) + CyclePosts(c)
  {
    var run := cycles + [c];
    assert run[..|cycles|] == cycles;
    forall i | 0 <= i < |cycles|
      ensures CycleAt(cfg, poll, backend, iso, replies, run, i)
    {
      CycleAtExtend(cfg, poll, backend, iso, replies, cycles, c, i);
    }
    assert CycleAt(cfg, poll, backend, iso, replies, run, |cycles|);
  }

  lemma IndexBelowLength(i: nat, n: nat)
    requires i < n
    ensures i % n == i
  {
  }

  /**
   * `main_loop`: `shift_index` starts at 0 and grows by exactly one on the
   * skip path and on the push path, the loop stops once it reaches the
   * number of devices, so the devices are visited once each, in list order.
   * `posts` is the number of check-in POSTs made.
   */
  method MainLoop(cfg: Config, poll: string -> seq<Punch>, backend: Backend, iso: int -> string,
                  replies: nat -> PostOutcome)
    returns (cycles: seq<Cycle>, posts: nat)
    requires |cfg.devices| > 0 ==> |cfg.shifts| > 0
    ensures |cycles| == |cfg.devices|
    ensures forall i :: 0 <= i < |cycles| ==>
      CycleFor(cfg, poll, backend, iso, replies, i, cycles[i], RunPosts(cycles[..i]))
    ensures posts == RunPosts(cycles)
  {
    var shiftIndex := 0;
    cycles := [];
    posts := 0;
    while true
      invariant 0 <= shiftIndex <= |cfg.devices|
      invariant |cycles| == shiftIndex
      invariant RunFor(cfg, poll, backend, iso, replies, cycles)
      invariant posts == RunPosts(cycles)
      decreases |cfg.devices| - shiftIndex
    {
      if shiftIndex >= |cfg.devices| {
        forall i | 0 <= i < |cycles|
          ensures CycleFor(cfg, poll, backend, iso, replies, i, cycles[i], RunPosts(cycles[..i]))
        {
          assert CycleAt(cfg, poll, backend, iso, replies, cycles, i);
        }
        break;
      }
      IndexBelowLength(shiftIndex, |cfg.devices|);
      var device := cfg.devices[shiftIndex % |cfg.devices|];
      var shift := cfg.shifts[shiftIndex % |cfg.shifts|];
      var filteredDf, _ := Merge.ProcessAndMerge(cfg, shiftIndex, poll, backend);
      assert filteredDf == CycleMerge(cfg, poll, backend, shiftIndex);
      var cycle;
      if filteredDf.None? || filteredDf.value == [] {
        cycle := Skip(device, shift);
      } else {
        var batch := Head(filteredDf.value, BatchCap);
        var _, reports, next := Delivery.PushDataToErp(batch, Delivery.DefaultMaxRetries, iso, replies, posts);
        cycle := Push(device, shift, batch, reports);
      }
      assert CycleFor(cfg, poll, backend, iso, replies, shiftIndex, cycle, posts);
      RunForAppend(cfg, poll, backend, iso, replies, cycles, cycle);
      cycles := cycles + [cycle];
      posts := posts + CyclePosts(cycle);
      shiftIndex := shiftIndex + 1;
    }
  }

  /**
   * A pushed cycle sends between one and five rows: a prefix, in order, of
   * the merged rows; any merged row past the fifth is never attempted.
   */
  lemma PushedBatch(cfg: Config, poll: string -> seq<Punch>, backend: Backend, iso: int -> string,
                    replies: nat -> PostOutcome, i: nat, c: Cycle, first: nat)
    requires i < |cfg.devices| && |cfg.shifts| > 0
    requires CycleFor(cfg, poll, backend, iso, replies, i, c, first)
    requires c.Push?
    ensures var m := CycleMerge(cfg, poll, backend, i);
      && m.Some?
      && 1 <= |c.batch| <= BatchCap
      && c.batch == m.value[..|c.batch|]
      && (|m.value| >= BatchCap ==> |c.batch| == BatchCap)
  {
  }

  /** A device that reports no records gives a skipped cycle without POSTs. */
  lemma SilentDeviceSkipped(cfg: Config, poll: string -> seq<Punch>, backend: Backend, iso: int -> string,
                            replies: nat -> PostOutcome, i: nat, c: Cycle, first: nat)
    requires i < |cfg.devices| && |cfg.shifts| > 0
    requires poll(cfg.devices[i].ip) == []
    requires CycleFor(cfg, poll, backend, iso, replies, i, c, first)
    ensures c.Skip? && CyclePosts(c) == 0
  {
  }

  // A two-device run: the first device reports one punch inside the window
  // by a user the roster knows as E1, the second reports nothing, and the
  // backend accepts every POST.

  function ScenarioConfig(): Config {
    Config([Device("D1", "10.0.0.1", 4370), Device("D2", "10.0.0.2", 4370)], ["S1", "S2"], 0, 100)
  }

  function ScenarioPoll(ip: string): seq<Punch> {
    if ip == "10.0.0.1" then [Punch(Some("7"), 50, 0, None)] else []
  }

  function ScenarioBackend(): Backend {
    Backend([Page([Employee("E1", "Ann", Some("7"))])])
  }

  function AlwaysAccepted(k: nat): PostOutcome {
    Status(200)
  }

  /** The first cycle's merge gives the one punch joined to E1; the second gives nothing. */
  lemma ScenarioMerges()
    ensures CycleMerge(ScenarioConfig(), ScenarioPoll, ScenarioBackend(), 0)
         == Some([Row(Punch(Some("7"), 50, 0, Some("S1")), Some(Employee("E1", "Ann", Some("7"))))])
    ensures CycleMerge(ScenarioConfig(), ScenarioPoll, ScenarioBackend(), 1).None?
  {
    var cfg, backend := ScenarioConfig(), ScenarioBackend();
    var e1 := Employee("E1", "Ann", Some("7"));
    var p := Punch(Some("7"), 50, 0, None);
    var tagged := p.(shift := Some("S1"));
    assert Roster.PageAnswer(backend, 0) == Page([e1]);
    assert Roster.PageAnswer(backend, 1) == Page([]);
    assert Roster.Listing(backend, 1) == [];
    assert Roster.Listing(backend, 0) == [e1];
    assert ScenarioPoll(cfg.devices[0].ip) == [p];
    assert [p][0].userId.Some?;
    assert Merge.HasUserIdColumn([p]);
    assert Merge.Tagged([p], "S1") == [tagged];
    assert Merge.Matches(Some("7"), [e1]) == [e1];
    assert Merge.JoinEvent(tagged, [e1]) == [Row(tagged, Some(e1))];
    assert Merge.LeftJoin([tagged], [e1]) == [Row(tagged, Some(e1))];
    assert Merge.FilterWindow([Row(tagged, Some(e1))], 0, 100) == [Row(tagged, Some(e1))];
    assert ScenarioPoll(cfg.devices[1].ip) == [];
  }

  /**
   * In the two-device run the first cycle makes exactly one POST, for E1
   * with the first shift, which succeeds at once; the second device is
   * skipped; the run makes one POST in all.
   */
  lemma TwoDeviceRun(cfg: Config, poll: string -> seq<Punch>, backend: Backend, replies: nat -> PostOutcome,
                     iso: int -> string, cycles: seq<Cycle>)
    requires cfg == ScenarioConfig() && poll == ScenarioPoll && backend == ScenarioBackend()
    requires replies == AlwaysAccepted
    requires |cycles| == 2
    requires forall i :: 0 <= i < 2 ==> CycleFor(cfg, poll, backend, iso, replies, i, cycles[i], RunPosts(cycles[..i]))
    ensures cycles[0] == Push(Device("D1", "10.0.0.1", 4370), "S1",
                              [Row(Punch(Some("7"), 50, 0, Some("S1")), Some(Employee("E1", "Ann", Some("7"))))],
                              [Delivery.Submitted(Delivery.Payload("E1", iso(50), Some("S1")), 0, [Status(200)], true)])
    ensures cycles[1] == Skip(Device("D2", "10.0.0.2", 4370), "S2")
    ensures RunPosts(cycles) == 1
  {
    assert cycles[..0] == [];
    ScenarioFirstCycle(cfg, poll, backend, replies, iso, cycles[0]);
    assert RunPosts(cycles[..1]) == 1 by {
      assert cycles[..1][..0] == [];
    }
    ScenarioSecondCycle(cfg, poll, backend, replies, iso, cycles[1], RunPosts(cycles[..1]));
    assert cycles[..2][..1] == cycles[..1];
    assert cycles[..2] == cycles;
  }

  lemma ScenarioFirstCycle(cfg: Config, poll: string -> seq<Punch>, backend: Backend, replies: nat -> PostOutcome,
                           iso: int -> string, c: Cycle)
    requires cfg == ScenarioConfig() && poll == ScenarioPoll && backend == ScenarioBackend()
    requires replies == AlwaysAccepted
    requires CycleFor(cfg, poll, backend, iso, replies, 0, c, 0)
    ensures c == Push(Device("D1", "10.0.0.1", 4370), "S1",
                      [Row(Punch(Some("7"), 50, 0, Some("S1")), Some(Employee("E1", "Ann", Some("7"))))],
                      [Delivery.Submitted(Delivery.Payload("E1", iso(50), Some("S1")), 0, [Status(200)], true)])
    ensures CyclePosts(c) == 1
  {
    var row := Row(Punch(Some("7"), 50, 0, Some("S1")), Some(Employee("E1", "Ann", Some("7"))));
    ScenarioMerges();
    assert CycleMerge(cfg, poll, backend, 0) == Some([row]);
    CycleFor0(cfg, poll, backend, iso, replies, c, row);
    var r := c.reports[0];
    assert r.statuses == [Status(200)] && r.success by {
      assert r.statuses != [];
      assert r.statuses[0] == replies(0) == Status(200);
      assert Delivery.Accepted(r.statuses[0]);
    }
    assert c.reports == [r];
    assert Delivery.PostsMade([r]) == 1 by {
      assert [r][..0] == [];
    }
  }

  lemma ScenarioSecondCycle(cfg: Config, poll: string -> seq<Punch>, backend: Backend, replies: nat -> PostOutcome,
                            iso: int -> string, c: Cycle, first: nat)
    requires cfg == ScenarioConfig() && poll == ScenarioPoll && backend == ScenarioBackend()
    requires CycleFor(cfg, poll, backend, iso, replies, 1, c, first)
    ensures c == Skip(Device("D2", "10.0.0.2", 4370), "S2")
  {
    ScenarioMerges();
    assert CycleMerge(cfg, poll, backend, 1).None?;
    assert c.Skip?;
    assert c.device == cfg.devices[1] && c.shift == cfg.shifts[1 % |cfg.shifts|];
    assert cfg.devices[1] == Device("D2", "10.0.0.2", 4370) && cfg.shifts[1 % 2] == "S2";
  }

  lemma CycleFor0(cfg: Config, poll: string -> seq<Punch>, backend: Backend, iso: int -> string,
                  replies: nat -> PostOutcome, c: Cycle, row: Row)
    requires |cfg.devices| > 0 && |cfg.shifts| > 0
    requires CycleMerge(cfg, poll, backend, 0) == Some([row])
    requires row.matched.Some?
    requires CycleFor(cfg, poll, backend, iso, replies, 0, c, 0)
    ensures c.Push? && c.device == cfg.devices[0] && c.shift == cfg.shifts[0]
    ensures c.batch == [row] && |c.reports| == 1
    ensures c.reports[0].Submitted? && c.reports[0].payload == Delivery.PayloadOf(row, iso)
    ensures c.reports[0].first == 0
    ensures Delivery.RetryTrace(replies, c.reports[0].first, Delivery.DefaultMaxRetries, c.reports[0].statuses, c.reports[0].success)
  {
    assert Head([row], BatchCap) == [row];
    assert c.reports[..0] == [];
    assert Delivery.ReportFor(c.batch[0], c.reports[0], Delivery.DefaultMaxRetries, iso, replies);
  }
}
