/**
 * `getAnalytics`: the workspace dashboard's four charts, computed from the
 * status, creation time and due date of every task in the workspace.
 *
 * Times are integers (milliseconds); a calendar day is `DayOf(t)`, the
 * whole number of days since the epoch. "Now" is a parameter.
 */
module Analytics {
  import opened Wrappers

  const DayLength: int := 86_400_000
  const BucketCount: nat := 30
  const Done: string := "done"

  datatype TaskRecord = TaskRecord(status: string, createdAt: Option<int>, dueDate: Option<int>)

  datatype DayCount = DayCount(day: int, tasks: nat)
  datatype Slice = Slice(name: string, value: int, color: string)

  function DayOf(t: int): int { t / DayLength }

  /** `thirtyDaysAgo`: the same moment thirty days earlier. */
  function ThirtyDaysAgo(now: int): int { now - 30 * DayLength }

  /** The filter for "completed in the last 30 days": done, with a creation time no earlier than thirty days ago. */
  predicate IsRecentlyCompleted(t: TaskRecord, now: int)
  {
    t.status == Done && t.createdAt.Some? && t.createdAt.value >= ThirtyDaysAgo(now)
  }

  function RecentlyCompleted(tasks: seq<TaskRecord>, now: int): (r: seq<TaskRecord>)
    ensures |r| <= |tasks|
    ensures forall i | 0 <= i < |r| :: IsRecentlyCompleted(r[i], now)
  {
    if tasks == [] then []
    else
      var rest := RecentlyCompleted(tasks[..|tasks| - 1], now);
      if IsRecentlyCompleted(tasks[|tasks| - 1], now) then rest + [tasks[|tasks| - 1]] else rest
  }

  /** The filter keeps every recently completed task, as often as it occurs, and nothing else. */
  lemma {:induction false} RecentlyCompletedKeepsExactly(tasks: seq<TaskRecord>, now: int)
    ensures forall t :: multiset(RecentlyCompleted(tasks, now))[t]
                        == if IsRecentlyCompleted(t, now) then multiset(tasks)[t] else 0
  {
    if tasks != [] {
      var front, last := tasks[..|tasks| - 1], tasks[|tasks| - 1];
      assert tasks == front + [last];
      RecentlyCompletedKeepsExactly(front, now);
    }
  }

  /** How many of `tasks` were created on calendar day `day`. */
  function CountCreatedOn(tasks: seq<TaskRecord>, day: int): nat
  {
    if tasks == [] then 0
    else
      var last := tasks[|tasks| - 1];
      CountCreatedOn(tasks[..|tasks| - 1], day) + Created(last, day)
  }

  /** One if `t` was created on `day`, else zero. */
  function Created(t: TaskRecord, day: int): nat
  {
    if t.createdAt.Some? && DayOf(t.createdAt.value) == day then 1 else 0
  }

  lemma CountCreatedOnStep(s: seq<TaskRecord>, k: int, day: int)
    requires 0 <= k < |s|
    ensures CountCreatedOn(s[..k + 1], day) == CountCreatedOn(s[..k], day) + Created(s[k], day)
  {
    assert s[..k + 1][..k] == s[..k];
  }

  function Sum(s: seq<int>): int
  {
    if s == [] then 0 else Sum(s[..|s| - 1]) + s[|s| - 1]
  }

  lemma {:induction false} SumUpdate(s: seq<int>, j: int, v: int)
    requires 0 <= j < |s|
    ensures Sum(s[j := v]) == Sum(s) - s[j] + v
  {
    if j < |s| - 1 {
      assert s[j := v][..|s| - 1] == s[..|s| - 1][j := v];
      SumUpdate(s[..|s| - 1], j, v);
    } else {
      assert s[j := v][..|s| - 1] == s[..|s| - 1];
    }
  }

  lemma {:induction false} SumOfZeros(s: seq<int>)
    requires forall i | 0 <= i < |s| :: s[i] == 0
    ensures Sum(s) == 0
  {
    if s != [] {
      SumOfZeros(s[..|s| - 1]);
    }
  }

  function TotalTasks(data: seq<DayCount>): int
  {
    if data == [] then 0 else TotalTasks(data[..|data| - 1]) + data[|data| - 1].tasks
  }

  lemma {:induction false} TotalTasksIsSum(data: seq<DayCount>, counts: seq<int>)
    requires |data| == |counts| && forall j | 0 <= j < |data| :: data[j].tasks == counts[j]
    ensures TotalTasks(data) == Sum(counts)
  {
    if data != [] {
      TotalTasksIsSum(data[..|data| - 1], counts[..|counts| - 1]);
    }
  }

  /**
   * `tasksCompletedData`: thirty buckets, oldest day first and today last,
   * each counting the recently completed tasks created on its day. A task
   * created thirty days ago, later in the day than now, passes the filter
   * but has no bucket, so the buckets may add up to less than the filter.
   */
  method TasksCompletedData(tasks: seq<TaskRecord>, now: int) returns (data: seq<DayCount>)
    ensures |data| == BucketCount
    ensures forall j | 0 <= j < BucketCount :: data[j].day == DayOf(now) - (BucketCount - 1) + j
    ensures forall j | 0 <= j < BucketCount :: data[j].tasks == CountCreatedOn(RecentlyCompleted(tasks, now), data[j].day)
    ensures TotalTasks(data) <= |RecentlyCompleted(tasks, now)|
  {
    var completed := RecentlyCompleted(tasks, now);
    var first := DayOf(now) - (BucketCount - 1);
    var finalCounts := CountBuckets(completed, first);
    data := seq(BucketCount, j requires 0 <= j < BucketCount => DayCount(first + j, finalCounts[j] as nat));
    TotalTasksIsSum(data, finalCounts);
    BucketsBound(completed, first, BucketCount);
  }

  /** The loop over the completed tasks that fills the thirty day buckets. */
  method CountBuckets(completed: seq<TaskRecord>, first: int) returns (r: seq<int>)
    ensures r == Buckets(completed, first, BucketCount)
  {
    var counts := new int[BucketCount](_ => 0);
    for k := 0 to |completed|
      invariant forall j | 0 <= j < BucketCount :: counts[j] == CountCreatedOn(completed[..k], first + j)
    {
      var task := completed[k];
      forall d ensures CountCreatedOn(completed[..k + 1], d) == CountCreatedOn(completed[..k], d) + Created(task, d) {
        CountCreatedOnStep(completed, k, d);
      }
      if task.createdAt.Some? {
        var day := DayOf(task.createdAt.value);
        var index := if first <= day < first + BucketCount then day - first else -1;
        if index != -1 {
          counts[index] := counts[index] + 1;
        }
      }
    }
    assert completed[..|completed|] == completed;
    r := counts[..];
  }

  /** The count of `tasks` created on each of the `n` days from `first`. */
  function Buckets(tasks: seq<TaskRecord>, first: int, n: nat): (r: seq<int>)
    ensures |r| == n
    ensures forall j | 0 <= j < n :: r[j] == CountCreatedOn(tasks, first + j)
  {
    seq(n, j requires 0 <= j < n => CountCreatedOn(tasks, first + j) as int)
  }

  /** Each task lands in at most one bucket, so the buckets never add up to more than the tasks. */
  lemma {:induction false} BucketsBound(tasks: seq<TaskRecord>, first: int, n: nat)
    ensures Sum(Buckets(tasks, first, n)) <= |tasks|
  {
    var after := Buckets(tasks, first, n);
    if tasks == [] {
      assert forall j | 0 <= j < n :: after[j] == 0;
      SumOfZeros(after);
    } else {
      var front, t := tasks[..|tasks| - 1], tasks[|tasks| - 1];
      BucketsBound(front, first, n);
      var before := Buckets(front, first, n);
      assert forall j | 0 <= j < n :: after[j] == before[j] + Created(t, first + j);
      if t.createdAt.Some? && first <= DayOf(t.createdAt.value) < first + n {
        var index := DayOf(t.createdAt.value) - first;
        assert after == before[index := before[index] + 1];
        SumUpdate(before, index, before[index] + 1);
      } else {
        assert after == before;
      }
    }
  }

  /** The number of tasks with a given status. */
  function CountStatus(tasks: seq<TaskRecord>, status: string): (r: nat)
    ensures r <= |tasks|
  {
    if tasks == [] then 0
    else CountStatus(tasks[..|tasks| - 1], status) + if tasks[|tasks| - 1].status == status then 1 else 0
  }

  predicate HasStatus(tasks: seq<TaskRecord>, status: string)
  {
    exists i | 0 <= i < |tasks| :: tasks[i].status == status
  }

  /** The statuses in order of first appearance: the key order of the object the reduce builds. */
  function DistinctStatuses(tasks: seq<TaskRecord>): (r: seq<string>)
    ensures forall i, j | 0 <= i < j < |r| :: r[i] != r[j]
    ensures forall s :: s in r <==> HasStatus(tasks, s)
  {
    if tasks == [] then []
    else
      var front := tasks[..|tasks| - 1];
      var rest := DistinctStatuses(front);
      var s := tasks[|tasks| - 1].status;
      assert forall x :: HasStatus(tasks, x) <==> HasStatus(front, x) || x == s by {
        forall x
          ensures HasStatus(tasks, x) <==> HasStatus(front, x) || x == s
        {
          if HasStatus(tasks, x) {
            var i :| 0 <= i < |tasks| && tasks[i].status == x;
            if i < |front| { assert front[i].status == x; }
          }
          if HasStatus(front, x) {
            var i :| 0 <= i < |front| && front[i].status == x;
            assert tasks[i].status == x;
          }
          assert tasks[|tasks| - 1].status == s;
        }
      }
      if s in rest then rest else rest + [s]
  }


  /** `getStatusColor`: a colour for every string, grey for anything outside the four known statuses. */
  function GetStatusColor(status: string): (r: string)
    ensures status == "to-do" ==> r == "#a1a1aa"
    ensures status == "in-progress" ==> r == "#3b82f6"
    ensures status == "done" ==> r == "#22c55e"
    ensures status == "canceled" ==> r == "#ef4444"
    ensures status !in ["to-do", "in-progress", "done", "canceled"] ==> r == "#a1a1aa"
  {
    match status
    case "to-do" => "#a1a1aa"
    case "in-progress" => "#3b82f6"
    case "done" => "#22c55e"
    case "canceled" => "#ef4444"
    case _ => "#a1a1aa"
  }

  lemma {:induction false} CountStatusAbsent(tasks: seq<TaskRecord>, status: string)
    requires !HasStatus(tasks, status)
    ensures CountStatus(tasks, status) == 0
  {
    if tasks != [] {
      var front := tasks[..|tasks| - 1];
      assert tasks[|tasks| - 1].status != status;
      CountStatusAbsent(front, status);
    }
  }

  /** Where a status sits in the accumulator's key list, or -1. */
  function IndexOf(names: seq<string>, name: string): (r: int)
    ensures r == -1 <==> name !in names
    ensures r != -1 ==> 0 <= r < |names| && names[r] == name
  {
    if names == [] then -1
    else if names[|names| - 1] == name then |names| - 1
    else IndexOf(names[..|names| - 1], name)
  }

  function SliceTotal(data: seq<Slice>): int
  {
    if data == [] then 0 else SliceTotal(data[..|data| - 1]) + data[|data| - 1].value
  }

  lemma {:induction false} SliceTotalIsSum(data: seq<Slice>, counts: seq<int>)
    requires |data| == |counts| && forall j | 0 <= j < |data| :: data[j].value == counts[j]
    ensures SliceTotal(data) == Sum(counts)
  {
    if data != [] {
      SliceTotalIsSum(data[..|data| - 1], counts[..|counts| - 1]);
    }
  }

  /**
   * `taskStatusData`: the reduce counts each status into an object, and
   * `Object.entries` lists its keys in the order they were first set.
   */
  method TaskStatusData(tasks: seq<TaskRecord>) returns (data: seq<Slice>)
    ensures |data| == |DistinctStatuses(tasks)|
    ensures forall j | 0 <= j < |data| ::
      && data[j].name == DistinctStatuses(tasks)[j]
      && data[j].value == CountStatus(tasks, data[j].name)
      && data[j].color == GetStatusColor(data[j].name)
    ensures SliceTotal(data) == |tasks|
  {
    var names: seq<string> := [];
    var counts: seq<int> := [];
    for i := 0 to |tasks|
      invariant StatusTally(tasks[..i], names, counts)
    {
      StatusStep(tasks, i, names, counts);
      var next := AddStatus(names, counts, tasks[i].status);
      names, counts := next.0, next.1;
    }
    assert tasks[..|tasks|] == tasks;
    data := seq(|names|, j requires 0 <= j < |names| => Slice(names[j], counts[j], GetStatusColor(names[j])));
    SliceTotalIsSum(data, counts);
  }

  /** The accumulator holds, key by key in first-seen order, the count of each status of `tasks`. */
  predicate StatusTally(tasks: seq<TaskRecord>, names: seq<string>, counts: seq<int>)
  {
    && names == DistinctStatuses(tasks)
    && |counts| == |names|
    && (forall j | 0 <= j < |names| :: counts[j] == CountStatus(tasks, names[j]))
    && Sum(counts) == |tasks|
  }

  /** The reduce step `acc[status] = (acc[status] || 0) + 1` on the key list and the counts. */
  function AddStatus(names: seq<string>, counts: seq<int>, status: string): (r: (seq<string>, seq<int>))
    requires |counts| == |names|
  {
    var j := IndexOf(names, status);
    if j == -1 then (names + [status], counts + [1]) else (names, counts[j := counts[j] + 1])
  }

  /** One reduce step keeps the tally exact. */
  lemma StatusStep(tasks: seq<TaskRecord>, i: int, names: seq<string>, counts: seq<int>)
    requires 0 <= i < |tasks| && StatusTally(tasks[..i], names, counts)
    ensures StatusTally(tasks[..i + 1], AddStatus(names, counts, tasks[i].status).0, AddStatus(names, counts, tasks[i].status).1)
  {
    var status := tasks[i].status;
    assert tasks[..i + 1][..i] == tasks[..i];
    var j := IndexOf(names, status);
    if j == -1 {
      CountStatusAbsent(tasks[..i], status);
      assert Sum(counts + [1]) == Sum(counts) + 1 by { assert (counts + [1])[..|counts|] == counts; }
    } else {
      SumUpdate(counts, j, counts[j] + 1);
    }
  }

  /** `resolvedVsRemainingData`: done tasks against the rest. */
  function ResolvedVsRemaining(tasks: seq<TaskRecord>): (r: seq<Slice>)
    ensures |r| == 2 && r[0].name == "Resolved" && r[1].name == "Remaining"
    ensures r[0].value == CountStatus(tasks, Done) && r[1].value >= 0
    ensures r[0].value + r[1].value == |tasks|
  {
    var resolved := CountStatus(tasks, Done);
    [Slice("Resolved", resolved, "#22c55e"), Slice("Remaining", |tasks| - resolved, "#a1a1aa")]
  }

  /** A task is overdue when it has a due date strictly before now and is not done. */
  predicate IsOverdue(t: TaskRecord, now: int)
  {
    t.dueDate.Some? && t.dueDate.value < now && t.status != Done
  }

  function CountOverdue(tasks: seq<TaskRecord>, now: int): (r: nat)
    ensures r <= |tasks|
    ensures r == 0 <==> forall i | 0 <= i < |tasks| :: !IsOverdue(tasks[i], now)
    ensures r == |tasks| <==> forall i | 0 <= i < |tasks| :: IsOverdue(tasks[i], now)
  {
    if tasks == [] then 0
    else
      var front := tasks[..|tasks| - 1];
      assert forall i | 0 <= i < |front| :: front[i] == tasks[i];
      CountOverdue(front, now) + if IsOverdue(tasks[|tasks| - 1], now) then 1 else 0
  }

  /** `overdueTasksData`: overdue tasks against the rest. */
  function OverdueVsOnTime(tasks: seq<TaskRecord>, now: int): (r: seq<Slice>)
    ensures |r| == 2 && r[0].name == "Overdue" && r[1].name == "On Time"
    ensures r[0].value == CountOverdue(tasks, now) && r[1].value >= 0
    ensures r[0].value + r[1].value == |tasks|
  {
    var overdue := CountOverdue(tasks, now);
    [Slice("Overdue", overdue, "#ef4444"), Slice("On Time", |tasks| - overdue, "#22c55e")]
  }

  /** A done task is never overdue, so the done and the overdue tasks together are at most all tasks. */
  lemma {:induction false} DoneAndOverdueDisjoint(tasks: seq<TaskRecord>, now: int)
    ensures CountStatus(tasks, Done) + CountOverdue(tasks, now) <= |tasks|
  {
    if tasks != [] {
      DoneAndOverdueDisjoint(tasks[..|tasks| - 1], now);
    }
  }

  datatype Dashboard = Dashboard(
    tasksCompletedData: seq<DayCount>,
    taskStatusData: seq<Slice>,
    resolvedVsRemainingData: seq<Slice>,
    overdueTasksData: seq<Slice>)

  method GetAnalytics(tasks: seq<TaskRecord>, now: int) returns (d: Dashboard)
    ensures |d.tasksCompletedData| == BucketCount
    ensures forall j | 0 <= j < BucketCount ::
      d.tasksCompletedData[j].day == DayOf(now) - (BucketCount - 1) + j
      && d.tasksCompletedData[j].tasks == CountCreatedOn(RecentlyCompleted(tasks, now), d.tasksCompletedData[j].day)
    ensures TotalTasks(d.tasksCompletedData) <= |RecentlyCompleted(tasks, now)|
    ensures |d.taskStatusData| == |DistinctStatuses(tasks)|
    ensures forall j | 0 <= j < |d.taskStatusData| ::
      && d.taskStatusData[j].name == DistinctStatuses(tasks)[j]
      && d.taskStatusData[j].value == CountStatus(tasks, d.taskStatusData[j].name)
      && d.taskStatusData[j].color == GetStatusColor(d.taskStatusData[j].name)
    ensures SliceTotal(d.taskStatusData) == |tasks|
    ensures d.resolvedVsRemainingData == ResolvedVsRemaining(tasks)
    ensures d.overdueTasksData == OverdueVsOnTime(tasks, now)
  {
    var completed := TasksCompletedData(tasks, now);
    var statuses := TaskStatusData(tasks);
    d := Dashboard(completed, statuses, ResolvedVsRemaining(tasks), OverdueVsOnTime(tasks, now));
  }
}
