/** The task utilities of the web front end: the display helpers, the team metrics
    computed from a task list, the top performer, list filtering, the task form's
    validation and the per-action check the interface uses to show or hide controls.

    Task statuses are kept as the raw strings the front end receives, so a status
    outside `todo`, `in_progress` and `done` can be described. A deadline is an
    instant in whole seconds (`None` when the task has none); the current time is a
    parameter. Numbers follow JavaScript truthiness: a missing id and 0 are false. */
module TeamMetrics {
  import opened Util
  import opened Roles
  import opened Accounts
  import opened Tasks

  // ---------------------------------------------------------------------------
  // Constants and records

  /** The status values the front end shares with the backend. */
  const TodoValue: string := "todo"
  const InProgressValue: string := "in_progress"
  const DoneValue: string := "done"

  /** The role values the front end compares a user's role with. */
  const AdminRoleValue: string := "ADMIN"
  const ManagerRoleValue: string := "MANAGER"

  datatype FrontUser = FrontUser(
    id: int,
    role: string,
    username: Option<string>,
    email: Option<string>,
    firstName: Option<string>,
    lastName: Option<string>)

  datatype FrontTask = FrontTask(
    status: string,
    assignee: Option<int>,
    createdBy: Option<int>,
    deadline: Option<int>)

  /** A string read with JavaScript truthiness: present and not empty. */
  predicate Present(v: Option<string>) {
    v.Some? && v.value != ""
  }

  // ---------------------------------------------------------------------------
  // Display helpers

  /** `getUserDisplayName`: the full name when both parts are given, else the user name,
      else the e-mail, else `Unknown`. The name shown is never empty. */
  function GetUserDisplayName(user: Option<FrontUser>): (r: string)
    ensures r != ""
    ensures user.None? ==> r == "Unknown"
    ensures user.Some? && Present(user.value.firstName) && Present(user.value.lastName) ==>
      r == user.value.firstName.value + " " + user.value.lastName.value
    ensures user.Some? && !(Present(user.value.firstName) && Present(user.value.lastName)) ==>
      && (Present(user.value.username) ==> r == user.value.username.value)
      && (!Present(user.value.username) && Present(user.value.email) ==> r == user.value.email.value)
      && (!Present(user.value.username) && !Present(user.value.email) ==> r == "Unknown")
  {
    if user.None? then "Unknown"
    else
      var u := user.value;
      if Present(u.firstName) && Present(u.lastName) then u.firstName.value + " " + u.lastName.value
      else if Present(u.username) then u.username.value
      else if Present(u.email) then u.email.value
      else "Unknown"
  }

  const DoneColor: string := "#10b981"
  const InProgressColor: string := "#f59e0b"
  const TodoColor: string := "#6b7280"

  /** `getStatusColor`: green for done, amber for in progress, and the grey of `todo` for
      every other status, known or not. */
  function GetStatusColor(status: string): (r: string)
    ensures r == DoneColor <==> status == DoneValue
    ensures r == InProgressColor <==> status == InProgressValue
    ensures status != DoneValue && status != InProgressValue ==> r == TodoColor
  {
    if status == DoneValue then DoneColor
    else if status == InProgressValue then InProgressColor
    else if status == TodoValue then TodoColor
    else TodoColor
  }

  // ---------------------------------------------------------------------------
  // Team metrics: specification

  /** The number of elements of `s` that satisfy `p`. */
  function Count<T>(s: seq<T>, p: T -> bool): (n: nat)
    ensures n <= |s|
    decreases |s|
  {
    if s == [] then 0 else Count(s[..|s| - 1], p) + (if p(s[|s| - 1]) then 1 else 0)
  }

  /** The count is 0 exactly when no element satisfies the test, and |s| exactly when
      every element does. */
  lemma {:induction false} CountExtremes<T>(s: seq<T>, p: T -> bool)
    ensures Count(s, p) == 0 <==> forall i | 0 <= i < |s| :: !p(s[i])
    ensures Count(s, p) == |s| <==> forall i | 0 <= i < |s| :: p(s[i])
    decreases |s|
  {
    if s != [] {
      var init := s[..|s| - 1];
      CountExtremes(init, p);
      assert forall i | 0 <= i < |init| :: init[i] == s[i];
    }
  }

  function HasStatus(status: string): FrontTask -> bool {
    (t: FrontTask) => t.status == status
  }

  /** A task is overdue when it has a deadline strictly before `now` and is not done. */
  function OverdueAt(now: int): FrontTask -> bool {
    (t: FrontTask) => t.deadline.Some? && t.deadline.value < now && t.status != DoneValue
  }

  function AssignedTo(id: int): FrontTask -> bool {
    (t: FrontTask) => t.assignee == Some(id)
  }

  function AssignedWithStatus(id: int, status: string): FrontTask -> bool {
    (t: FrontTask) => t.assignee == Some(id) && t.status == status
  }

  function UnassignedWithStatus(status: string): FrontTask -> bool {
    (t: FrontTask) => !Truthy(t.assignee) && t.status == status
  }

  predicate KnownStatus(status: string) {
    status == TodoValue || status == InProgressValue || status == DoneValue
  }

  /** A counter record: `total` and one counter per known status. */
  datatype Counts = Counts(total: nat, todo: nat, inProgress: nat, done: nat)

  const NoCounts: Counts := Counts(0, 0, 0, 0)

  /** `stats.total++` followed by `stats[status]++`. A status that names the `total`
      counter increments it a second time; a status naming no counter adds a key whose
      value is NaN, which is not modelled. */
  function Tally(c: Counts, status: string): Counts {
    var c := c.(total := c.total + 1);
    if status == "total" then c.(total := c.total + 1)
    else if status == TodoValue then c.(todo := c.todo + 1)
    else if status == InProgressValue then c.(inProgress := c.inProgress + 1)
    else if status == DoneValue then c.(done := c.done + 1)
    else c
  }

  /** One entry of `member_stats`: the counters and the `overdue` counter, which only a
      status spelled `overdue` ever increments. */
  datatype MemberStats = MemberStats(counts: Counts, overdue: nat)

  const NewMember: MemberStats := MemberStats(NoCounts, 0)

  function TallyMember(m: MemberStats, status: string): MemberStats {
    MemberStats(Tally(m.counts, status), if status == "overdue" then m.overdue + 1 else m.overdue)
  }

  /** `member_stats` after the tasks of `s` have been visited in order. */
  function MemberStatsOf(s: seq<FrontTask>): map<int, MemberStats>
    decreases |s|
  {
    if s == [] then map[]
    else
      var m := MemberStatsOf(s[..|s| - 1]);
      var t := s[|s| - 1];
      if Truthy(t.assignee) then
        var a := t.assignee.value;
        m[a := TallyMember(if a in m then m[a] else NewMember, t.status)]
      else m
  }

  /** `unassigned_stats` after the tasks of `s` have been visited in order. */
  function UnassignedOf(s: seq<FrontTask>): Counts
    decreases |s|
  {
    if s == [] then NoCounts
    else
      var t := s[|s| - 1];
      if Truthy(t.assignee) then UnassignedOf(s[..|s| - 1])
      else Tally(UnassignedOf(s[..|s| - 1]), t.status)
  }

  /** The distinct truthy assignees of `s`. */
  function AssigneeIds(s: seq<FrontTask>): set<int> {
    set i | 0 <= i < |s| && Truthy(s[i].assignee) :: s[i].assignee.value
  }

  /** `part / whole * 100`, or 0 when `whole` is 0: the share of `part` in `whole` as
      a percentage, between 0 and 100 when `part` is among `whole`. */
  function Percentage(part: nat, whole: nat): (r: real)
    ensures whole == 0 ==> r == 0.0
    ensures whole > 0 ==> r * (whole as real) == (part as real) * 100.0
    ensures part <= whole ==> 0.0 <= r <= 100.0
  {
    if whole > 0 then
      var q := part as real / whole as real;
      assert q * (whole as real) == part as real;
      assert part <= whole ==> q <= 1.0;
      q * 100.0
    else 0.0
  }

  /** `total / count`, or 0 when `count` is 0: the share of each of `count` users. */
  function PerMember(total: nat, count: nat): (r: real)
    ensures count == 0 ==> r == 0.0
    ensures count > 0 ==> r * (count as real) == total as real
  {
    if count > 0 then total as real / count as real else 0.0
  }

  datatype Distribution = Distribution(todo: nat, inProgress: nat, done: nat)

  datatype Metrics = Metrics(
    total: nat,
    todo: nat,
    inProgress: nat,
    done: nat,
    overdue: nat,
    completionRate: real,
    avgCompletionTime: real,
    tasksPerMember: real,
    activeMembers: nat,
    memberStats: map<int, MemberStats>,
    unassignedStats: Counts,
    distribution: Distribution)

  // ---------------------------------------------------------------------------
  // Team metrics: the computation

  /** The `forEach` pass of `computeTeamMetrics`: the status and overdue counters, the
      per-member entries and the unassigned counters after visiting every task. */
  method VisitTasks(tasks: seq<FrontTask>, now: int)
    returns (todo: nat, inProgress: nat, done: nat, overdue: nat,
             memberStats: map<int, MemberStats>, unassigned: Counts)
    ensures todo == Count(tasks, HasStatus(TodoValue))
    ensures inProgress == Count(tasks, HasStatus(InProgressValue))
    ensures done == Count(tasks, HasStatus(DoneValue))
    ensures overdue == Count(tasks, OverdueAt(now))
    ensures memberStats == MemberStatsOf(tasks) && unassigned == UnassignedOf(tasks)
  {
    todo, inProgress, done, overdue := 0, 0, 0, 0;
    memberStats := map[];
    unassigned := NoCounts;
    var i := 0;
    while i < |tasks|
      invariant 0 <= i <= |tasks|
      invariant todo == Count(tasks[..i], HasStatus(TodoValue))
      invariant inProgress == Count(tasks[..i], HasStatus(InProgressValue))
      invariant done == Count(tasks[..i], HasStatus(DoneValue))
      invariant overdue == Count(tasks[..i], OverdueAt(now))
      invariant memberStats == MemberStatsOf(tasks[..i])
      invariant unassigned == UnassignedOf(tasks[..i])
    {
      var task := tasks[i];
      MetricsStep(tasks, i, now);
      if task.status == TodoValue {
        todo := todo + 1;
      } else if task.status == InProgressValue {
        inProgress := inProgress + 1;
      } else if task.status == DoneValue {
        done := done + 1;
      }
      assert todo == Count(tasks[..i + 1], HasStatus(TodoValue))
        && inProgress == Count(tasks[..i + 1], HasStatus(InProgressValue))
        && done == Count(tasks[..i + 1], HasStatus(DoneValue));
      if task.deadline.Some? && task.deadline.value < now && task.status != DoneValue {
        overdue := overdue + 1;
      }
      assert overdue == Count(tasks[..i + 1], OverdueAt(now));
      if Truthy(task.assignee) {
        var a := task.assignee.value;
        var entry := if a in memberStats then memberStats[a] else NewMember;
        memberStats := memberStats[a := TallyMember(entry, task.status)];
      } else {
        unassigned := Tally(unassigned, task.status);
      }
      assert memberStats == MemberStatsOf(tasks[..i + 1]) && unassigned == UnassignedOf(tasks[..i + 1]);
      i := i + 1;
    }
    assert tasks[..|tasks|] == tasks;
  }

  /** `computeTeamMetrics`: the pass over the tasks, then the derived figures: the
      completion rate as a percentage of all tasks, the tasks per user, and the number
      of members with an entry. */
  method ComputeTeamMetrics(tasks: seq<FrontTask>, users: seq<FrontUser>, now: int) returns (m: Metrics)
    ensures m.total == |tasks|
    ensures m.todo == Count(tasks, HasStatus(TodoValue))
    ensures m.inProgress == Count(tasks, HasStatus(InProgressValue))
    ensures m.done == Count(tasks, HasStatus(DoneValue))
    ensures m.overdue == Count(tasks, OverdueAt(now))
    ensures m.memberStats == MemberStatsOf(tasks) && m.unassignedStats == UnassignedOf(tasks)
    ensures m.activeMembers == |AssigneeIds(tasks)|
    ensures m.completionRate == Percentage(m.done, m.total)
    ensures m.tasksPerMember == PerMember(m.total, |users|)
    ensures m.avgCompletionTime == 0.0
    ensures m.distribution == Distribution(m.todo, m.inProgress, m.done)
  {
    var todo, inProgress, done, overdue, memberStats, unassigned := VisitTasks(tasks, now);
    var total := |tasks|;
    var rate := Percentage(done, total);
    var perMember := PerMember(total, |users|);
    MemberKeys(tasks);
    m := Metrics(total, todo, inProgress, done, overdue, rate, 0.0, perMember, |memberStats|,
                 memberStats, unassigned, Distribution(todo, inProgress, done));
  }

  /** What visiting task `i` adds to each counter, entry and the unassigned counts. */
  lemma MetricsStep(tasks: seq<FrontTask>, i: nat, now: int)
    requires i < |tasks|
    ensures var s, t := tasks[..i + 1], tasks[i];
      && Count(s, HasStatus(TodoValue)) == Count(tasks[..i], HasStatus(TodoValue)) + (if t.status == TodoValue then 1 else 0)
      && Count(s, HasStatus(InProgressValue)) == Count(tasks[..i], HasStatus(InProgressValue)) + (if t.status == InProgressValue then 1 else 0)
      && Count(s, HasStatus(DoneValue)) == Count(tasks[..i], HasStatus(DoneValue)) + (if t.status == DoneValue then 1 else 0)
      && Count(s, OverdueAt(now)) == Count(tasks[..i], OverdueAt(now)) + (if OverdueAt(now)(t) then 1 else 0)
      && MemberStatsOf(s) == (if Truthy(t.assignee) then
             var m := MemberStatsOf(tasks[..i]);
             m[t.assignee.value := TallyMember(if t.assignee.value in m then m[t.assignee.value] else NewMember, t.status)]
           else MemberStatsOf(tasks[..i]))
      && UnassignedOf(s) == (if Truthy(t.assignee) then UnassignedOf(tasks[..i]) else Tally(UnassignedOf(tasks[..i]), t.status))
  {
    var s := tasks[..i + 1];
    assert s[..i] == tasks[..i] && s[i] == tasks[i];
    CountLast(s, HasStatus(TodoValue));
    CountLast(s, HasStatus(InProgressValue));
    CountLast(s, HasStatus(DoneValue));
    CountLast(s, OverdueAt(now));
  }

  // ---------------------------------------------------------------------------
  // Team metrics: properties

  /** The three status counters never exceed the number of tasks, and they add up to it
      when every status is one of the three known values. */
  lemma {:induction false} StatusCountsAddUp(tasks: seq<FrontTask>)
    ensures Count(tasks, HasStatus(TodoValue)) + Count(tasks, HasStatus(InProgressValue))
            + Count(tasks, HasStatus(DoneValue)) <= |tasks|
    ensures (forall i | 0 <= i < |tasks| :: KnownStatus(tasks[i].status)) ==>
      Count(tasks, HasStatus(TodoValue)) + Count(tasks, HasStatus(InProgressValue))
      + Count(tasks, HasStatus(DoneValue)) == |tasks|
    decreases |tasks|
  {
    if tasks != [] {
      var init := tasks[..|tasks| - 1];
      StatusCountsAddUp(init);
      if forall i | 0 <= i < |tasks| :: KnownStatus(tasks[i].status) {
        assert forall i | 0 <= i < |init| :: init[i] == tasks[i];
      }
    }
  }

  /** The completion rate is a percentage: 0 exactly when nothing is done, 100 exactly
      when there are tasks and all are done. */
  lemma PercentageExtremes(part: nat, whole: nat)
    requires part <= whole
    ensures Percentage(part, whole) == 0.0 <==> part == 0 || whole == 0
    ensures Percentage(part, whole) == 100.0 <==> whole > 0 && part == whole
  {
    if whole > 0 {
      var r := Percentage(part, whole);
      assert r * (whole as real) == (part as real) * 100.0;
    }
  }

  /** The keys of `member_stats` are exactly the truthy assignees, so `active_members`
      counts the distinct assignees; unassigned tasks and the id 0 make no entry. */
  lemma {:induction false} MemberKeys(tasks: seq<FrontTask>)
    ensures MemberStatsOf(tasks).Keys == AssigneeIds(tasks)
    decreases |tasks|
  {
    if tasks != [] {
      var init := tasks[..|tasks| - 1];
      var t := tasks[|tasks| - 1];
      MemberKeys(init);
      assert forall i | 0 <= i < |init| :: init[i] == tasks[i];
      assert AssigneeIds(tasks) == AssigneeIds(init) + (if Truthy(t.assignee) then {t.assignee.value} else {}) by {
        forall a | a in AssigneeIds(tasks)
          ensures a in AssigneeIds(init) || (Truthy(t.assignee) && a == t.assignee.value)
        {
          var i :| 0 <= i < |tasks| && Truthy(tasks[i].assignee) && tasks[i].assignee.value == a;
          if i < |init| {
            assert init[i] == tasks[i];
          }
        }
        forall a | a in AssigneeIds(init) ensures a in AssigneeIds(tasks) {
          var i :| 0 <= i < |init| && Truthy(init[i].assignee) && init[i].assignee.value == a;
          assert tasks[i] == init[i];
        }
      }
    }
  }

  /** Each member's entry counts exactly that member's tasks: `total` once per task (and
      once more for a task whose status is the string `total`), each status counter the
      tasks with that status, `overdue` the tasks whose status is the string `overdue`. */
  lemma {:induction false} MemberCounts(tasks: seq<FrontTask>, a: int)
    requires a in MemberStatsOf(tasks)
    ensures a != 0
    ensures var e := MemberStatsOf(tasks)[a];
      && e.counts.total == Count(tasks, AssignedTo(a)) + Count(tasks, AssignedWithStatus(a, "total"))
      && e.counts.todo == Count(tasks, AssignedWithStatus(a, TodoValue))
      && e.counts.inProgress == Count(tasks, AssignedWithStatus(a, InProgressValue))
      && e.counts.done == Count(tasks, AssignedWithStatus(a, DoneValue))
      && e.overdue == Count(tasks, AssignedWithStatus(a, "overdue"))
    decreases |tasks|
  {
    var init := tasks[..|tasks| - 1];
    var t := tasks[|tasks| - 1];
    var before := if a in MemberStatsOf(init) then MemberStatsOf(init)[a] else NewMember;
    if a in MemberStatsOf(init) {
      MemberCounts(init, a);
    } else {
      MemberStatsStep(tasks, a);
      MemberAbsent(init, a);
    }
    MemberStatsStep(tasks, a);
    CountLast(tasks, AssignedTo(a));
    CountLast(tasks, AssignedWithStatus(a, "total"));
    CountLast(tasks, AssignedWithStatus(a, TodoValue));
    CountLast(tasks, AssignedWithStatus(a, InProgressValue));
    CountLast(tasks, AssignedWithStatus(a, DoneValue));
    CountLast(tasks, AssignedWithStatus(a, "overdue"));
  }

  /** How the last task changes one member's entry. */
  lemma MemberStatsStep(tasks: seq<FrontTask>, a: int)
    requires tasks != []
    ensures var init, t := tasks[..|tasks| - 1], tasks[|tasks| - 1];
      var before := if a in MemberStatsOf(init) then MemberStatsOf(init)[a] else NewMember;
      && (a in MemberStatsOf(tasks) <==> a in MemberStatsOf(init) || (Truthy(t.assignee) && t.assignee.value == a))
      && (a in MemberStatsOf(tasks) && a != 0 && t.assignee == Some(a) ==> MemberStatsOf(tasks)[a] == TallyMember(before, t.status))
      && (a in MemberStatsOf(tasks) && t.assignee != Some(a) ==> MemberStatsOf(tasks)[a] == before)
  {
  }

  /** Counting over a list is counting over all but its last element, plus the last. */
  lemma CountLast<T>(s: seq<T>, p: T -> bool)
    requires s != []
    ensures Count(s, p) == Count(s[..|s| - 1], p) + (if p(s[|s| - 1]) then 1 else 0)
  {
  }

  /** A member without an entry has no tasks in the list. */
  lemma {:induction false} MemberAbsent(tasks: seq<FrontTask>, a: int)
    requires a != 0 && a !in MemberStatsOf(tasks)
    ensures Count(tasks, AssignedTo(a)) == 0
    ensures forall status :: Count(tasks, AssignedWithStatus(a, status)) == 0
  {
    MemberKeys(tasks);
    forall i | 0 <= i < |tasks| ensures tasks[i].assignee != Some(a) {
      if tasks[i].assignee == Some(a) {
        assert false;
      }
    }
    CountExtremes(tasks, AssignedTo(a));
    forall status ensures Count(tasks, AssignedWithStatus(a, status)) == 0 {
      CountExtremes(tasks, AssignedWithStatus(a, status));
    }
  }

  /** The total of all member entries. */
  ghost function SumTotals(m: map<int, MemberStats>): nat
    decreases |m.Keys|
  {
    if m == map[] then 0
    else
      var k := PickKey(m);
      m[k].counts.total + SumTotals(m - {k})
  }

  ghost function PickKey(m: map<int, MemberStats>): (k: int)
    requires m != map[]
    ensures k in m
  {
    NonEmptyHasKey(m);
    var key :| key in m; key
  }

  lemma NonEmptyHasKey(m: map<int, MemberStats>)
    requires m != map[]
    ensures exists k :: k in m
  {
    if forall k :: k !in m {
      assert false;
    }
  }

  /** The total may be summed starting from any key. */
  lemma {:induction false} SumTotalsRemove(m: map<int, MemberStats>, k: int)
    requires k in m
    ensures SumTotals(m) == m[k].counts.total + SumTotals(m - {k})
    decreases |m.Keys|
  {
    var j := PickKey(m);
    if j != k {
      var mj, mk := m - {j}, m - {k};
      assert mj - {k} == mk - {j};
      SumTotalsRemove(mj, k);
      SumTotalsRemove(mk, j);
    }
  }

  lemma SumTotalsUpdate(m: map<int, MemberStats>, k: int, v: MemberStats)
    ensures SumTotals(m[k := v]) == SumTotals(m) - (if k in m then m[k].counts.total else 0) + v.counts.total
  {
    SumTotalsRemove(m[k := v], k);
    assert m[k := v] - {k} == m - {k};
    if k in m {
      SumTotalsRemove(m, k);
    } else {
      assert m - {k} == m;
    }
  }

  /** Every task is counted once, either in its assignee's entry or in the unassigned
      counters: the member totals and the unassigned total add up to the number of
      tasks, plus one for each task whose status is the string `total`. */
  lemma {:induction false} TotalsAddUp(tasks: seq<FrontTask>)
    ensures SumTotals(MemberStatsOf(tasks)) + UnassignedOf(tasks).total
            == |tasks| + Count(tasks, HasStatus("total"))
    ensures (forall i | 0 <= i < |tasks| :: tasks[i].status != "total") ==>
      SumTotals(MemberStatsOf(tasks)) + UnassignedOf(tasks).total == |tasks|
    decreases |tasks|
  {
    if tasks != [] {
      var init := tasks[..|tasks| - 1];
      var t := tasks[|tasks| - 1];
      TotalsAddUp(init);
      if Truthy(t.assignee) {
        var m := MemberStatsOf(init);
        var a := t.assignee.value;
        SumTotalsUpdate(m, a, TallyMember(if a in m then m[a] else NewMember, t.status));
      }
    }
  }

  // ---------------------------------------------------------------------------
  // Top performer

  datatype UserMetrics = UserMetrics(user: FrontUser, total: nat, completed: nat)

  datatype TopPerformer = TopPerformer(user: FrontUser, totalTasks: nat, completedTasks: nat, completionRate: real)

  /** The completion rate of one entry: `completed / total * 100`, and 0 for an entry with
      nothing completed or no tasks (an entry without tasks is never a candidate). */
  function Score(e: UserMetrics): (r: real)
    ensures r >= 0.0
    ensures r > 0.0 <==> e.total > 0 && e.completed > 0
  {
    if e.completed > 0 && e.total > 0 then (e.completed as real / e.total as real) * 100.0 else 0.0
  }

  function Crown(e: UserMetrics): TopPerformer {
    TopPerformer(e.user, e.total, e.completed, Score(e))
  }

  /** `computeTopPerformer` over the entries in iteration order: null for a missing or
      empty table and when nobody has completed anything; otherwise the first entry
      with the highest completion rate. */
  method ComputeTopPerformer(perUser: Option<seq<UserMetrics>>) returns (top: Option<TopPerformer>)
    ensures perUser.None? ==> top.None?
    ensures perUser.Some? ==>
      var es := perUser.value;
      && (top.None? <==> forall i | 0 <= i < |es| :: Score(es[i]) == 0.0)
      && (top.Some? ==> exists i | 0 <= i < |es| ::
            && top.value == Crown(es[i])
            && Score(es[i]) > 0.0
            && (forall j | 0 <= j < |es| :: Score(es[j]) <= Score(es[i]))
            && (forall j | 0 <= j < i :: Score(es[j]) < Score(es[i])))
  {
    if perUser.None? || |perUser.value| == 0 {
      return None;
    }
    var es := perUser.value;
    top := None;
    var best := 0.0;
    ghost var bi := 0;
    var i := 0;
    while i < |es|
      invariant 0 <= i <= |es|
      invariant top.None? ==> best == 0.0 && forall j | 0 <= j < i :: Score(es[j]) == 0.0
      invariant top.Some? ==> 0 <= bi < i && top.value == Crown(es[bi]) && best == Score(es[bi]) && best > 0.0
      invariant top.Some? ==> forall j | 0 <= j < i :: Score(es[j]) <= best
      invariant top.Some? ==> forall j | 0 <= j < bi :: Score(es[j]) < best
    {
      var e := es[i];
      if e.total > 0 {
        var rate := if e.completed > 0 then (e.completed as real / e.total as real) * 100.0 else 0.0;
        if rate > best {
          best := rate;
          top := Some(TopPerformer(e.user, e.total, e.completed, rate));
          bi := i;
        }
      }
      i := i + 1;
    }
  }

  // ---------------------------------------------------------------------------
  // Filtering

  predicate StatusKeeps(statusFilter: string, t: FrontTask) {
    statusFilter == "all" || t.status == statusFilter
  }

  /** `mine` keeps the tasks assigned to the current user (strict equality, so with no
      current user it keeps the unassigned tasks); `unassigned` the falsy assignees;
      `assigned` the truthy ones; any other value keeps everything. */
  predicate AssigneeKeeps(assigneeFilter: string, me: Option<int>, t: FrontTask) {
    if assigneeFilter == "mine" then t.assignee == me
    else if assigneeFilter == "unassigned" then !Truthy(t.assignee)
    else if assigneeFilter == "assigned" then Truthy(t.assignee)
    else true
  }

  function StatusStep(statusFilter: string): FrontTask -> bool {
    (t: FrontTask) => StatusKeeps(statusFilter, t)
  }

  function AssigneeStep(assigneeFilter: string, me: Option<int>): FrontTask -> bool {
    (t: FrontTask) => AssigneeKeeps(assigneeFilter, me, t)
  }

  function Shown(statusFilter: string, assigneeFilter: string, me: Option<int>): FrontTask -> bool {
    (t: FrontTask) => StatusKeeps(statusFilter, t) && AssigneeKeeps(assigneeFilter, me, t)
  }

  function IsMine(me: Option<int>): FrontTask -> bool {
    (t: FrontTask) => t.assignee == me
  }

  function WithoutAssignee(): FrontTask -> bool {
    (t: FrontTask) => !Truthy(t.assignee)
  }

  function WithAssignee(): FrontTask -> bool {
    (t: FrontTask) => Truthy(t.assignee)
  }

  /** `filterTasks`: the status filter, then the assignee filter, each keeping order. */
  method FilterTasks(tasks: seq<FrontTask>, statusFilter: string, assigneeFilter: string, me: Option<int>)
    returns (filtered: seq<FrontTask>)
    ensures filtered == Filter(tasks, Shown(statusFilter, assigneeFilter, me))
    ensures IsSubsequence(filtered, tasks)
    ensures forall t :: t in filtered <==>
      t in tasks && StatusKeeps(statusFilter, t) && AssigneeKeeps(assigneeFilter, me, t)
  {
    filtered := tasks;
    if statusFilter != "all" {
      filtered := Filter(filtered, HasStatus(statusFilter));
    }
    StatusPass(tasks, statusFilter);
    ghost var afterStatus := filtered;
    if assigneeFilter == "mine" {
      filtered := Filter(filtered, IsMine(me));
    } else if assigneeFilter == "unassigned" {
      filtered := Filter(filtered, WithoutAssignee());
    } else if assigneeFilter == "assigned" {
      filtered := Filter(filtered, WithAssignee());
    }
    AssigneePass(afterStatus, assigneeFilter, me);
    ShownFacts(tasks, statusFilter, assigneeFilter, me);
  }

  /** The status pass keeps exactly the tasks `StatusKeeps` accepts. */
  lemma StatusPass(tasks: seq<FrontTask>, statusFilter: string)
    ensures (if statusFilter != "all" then Filter(tasks, HasStatus(statusFilter)) else tasks)
            == Filter(tasks, StatusStep(statusFilter))
  {
    if statusFilter != "all" {
      FilterSameTest(tasks, HasStatus(statusFilter), StatusStep(statusFilter));
    } else {
      FilterAll(tasks, StatusStep(statusFilter));
    }
  }

  /** The assignee pass keeps exactly the tasks `AssigneeKeeps` accepts. */
  lemma AssigneePass(xs: seq<FrontTask>, assigneeFilter: string, me: Option<int>)
    ensures (if assigneeFilter == "mine" then Filter(xs, IsMine(me))
             else if assigneeFilter == "unassigned" then Filter(xs, WithoutAssignee())
             else if assigneeFilter == "assigned" then Filter(xs, WithAssignee())
             else xs) == Filter(xs, AssigneeStep(assigneeFilter, me))
  {
    var step := AssigneeStep(assigneeFilter, me);
    if assigneeFilter == "mine" {
      FilterSameTest(xs, IsMine(me), step);
    } else if assigneeFilter == "unassigned" {
      FilterSameTest(xs, WithoutAssignee(), step);
    } else if assigneeFilter == "assigned" {
      FilterSameTest(xs, WithAssignee(), step);
    } else {
      FilterAll(xs, step);
    }
  }

  /** The two passes together keep, in order, exactly the tasks shown. */
  lemma ShownFacts(tasks: seq<FrontTask>, statusFilter: string, assigneeFilter: string, me: Option<int>)
    ensures Filter(Filter(tasks, StatusStep(statusFilter)), AssigneeStep(assigneeFilter, me))
            == Filter(tasks, Shown(statusFilter, assigneeFilter, me))
    ensures IsSubsequence(Filter(tasks, Shown(statusFilter, assigneeFilter, me)), tasks)
    ensures forall t :: t in Filter(tasks, Shown(statusFilter, assigneeFilter, me)) <==>
      t in tasks && StatusKeeps(statusFilter, t) && AssigneeKeeps(assigneeFilter, me, t)
  {
    var shown := Shown(statusFilter, assigneeFilter, me);
    FilterFilter(tasks, StatusStep(statusFilter), AssigneeStep(assigneeFilter, me), shown);
    FilterIsSubsequence(tasks, shown);
    FilterMembers(tasks, shown);
  }

  // ---------------------------------------------------------------------------
  // Task form validation

  /** The task form: a title, a description and a deadline, each possibly absent. */
  datatype TaskForm = TaskForm(title: Option<string>, description: Option<string>, deadline: Option<int>)

  datatype FormCheck = FormCheck(isValid: bool, errors: map<string, string>)

  const TitleTooShort: string := "Title must be at least 3 characters long"
  const TitleTooLong: string := "Title must be less than 200 characters"
  const DescriptionTooLong: string := "Description must be less than 2000 characters"
  const DeadlineInPast: string := "Deadline must be in the future"

  /** `validateTask`: the trimmed title needs 3 characters; a raw title over 200
      characters replaces that message; a description over 2000 characters and a
      deadline that is not after `now` are errors; the form is valid exactly when no
      error was recorded. */
  method ValidateTask(task: TaskForm, now: int) returns (r: FormCheck)
    ensures r.isValid <==> r.errors == map[]
    ensures r.errors.Keys <= {"title", "description", "deadline"}
    ensures "title" in r.errors <==>
      !Present(task.title) || |Trim(task.title.value, IsJsWhitespace)| < 3 || |task.title.value| > 200
    ensures "title" in r.errors ==>
      r.errors["title"] == (if Present(task.title) && |task.title.value| > 200 then TitleTooLong else TitleTooShort)
    ensures "description" in r.errors <==> Present(task.description) && |task.description.value| > 2000
    ensures "description" in r.errors ==> r.errors["description"] == DescriptionTooLong
    ensures "deadline" in r.errors <==> task.deadline.Some? && task.deadline.value <= now
    ensures "deadline" in r.errors ==> r.errors["deadline"] == DeadlineInPast
  {
    var errors: map<string, string> := map[];
    if !Present(task.title) || |Trim(task.title.value, IsJsWhitespace)| < 3 {
      errors := errors["title" := TitleTooShort];
    }
    if Present(task.title) && |task.title.value| > 200 {
      errors := errors["title" := TitleTooLong];
    }
    if Present(task.description) && |task.description.value| > 2000 {
      errors := errors["description" := DescriptionTooLong];
    }
    if task.deadline.Some? && task.deadline.value <= now {
      errors := errors["deadline" := DeadlineInPast];
    }
    r := FormCheck(errors == map[], errors);
  }

  /** A title the form accepts is one the task record accepts, before and after trimming. */
  lemma FormTitleFitsRecord(title: string)
    requires |Trim(title, IsJsWhitespace)| >= 3 && |title| <= 200
    ensures TitleValid(title) && TitleValid(Trim(title, IsJsWhitespace))
  {
  }

  // ---------------------------------------------------------------------------
  // Per-action check

  const FrontActions: set<string> := {"view", "create", "edit", "delete", "assign", "update_status", "comment"}

  /** `canUserPerformAction`: false without a user or a task; `view` for everybody;
      `create` and `assign` for administrators and managers; `edit` and `update_status`
      also for the assignee; `delete` for administrators and the creator; `comment` for
      all four; any other action for nobody. */
  function CanUserPerformAction(user: Option<FrontUser>, task: Option<FrontTask>, action: string): (r: bool)
    ensures user.None? || task.None? ==> !r
    ensures action !in FrontActions ==> !r
    ensures user.Some? && task.Some? && action == "view" ==> r
    ensures r && action != "view" && action != "comment" ==>
      user.value.role == AdminRoleValue || user.value.role == ManagerRoleValue
      || task.value.assignee == Some(user.value.id) || task.value.createdBy == Some(user.value.id)
    ensures user.Some? && task.Some? ==>
      var admin, manager := user.value.role == AdminRoleValue, user.value.role == ManagerRoleValue;
      var assignee, creator := task.value.assignee == Some(user.value.id), task.value.createdBy == Some(user.value.id);
      && (action == "create" ==> (r <==> admin || manager))
      && (action == "edit" ==> (r <==> admin || manager || assignee))
      && (action == "delete" ==> (r <==> admin || creator))
      && (action == "assign" ==> (r <==> admin || manager))
      && (action == "update_status" ==> (r <==> admin || manager || assignee))
      && (action == "comment" ==> (r <==> admin || manager || assignee || creator))
  {
    if user.None? || task.None? then false
    else
      var u, t := user.value, task.value;
      var isAdmin := u.role == AdminRoleValue;
      var isManager := u.role == ManagerRoleValue;
      var isAssignee := t.assignee == Some(u.id);
      var isCreator := t.createdBy == Some(u.id);
      if action == "view" then true
      else if action == "create" then isAdmin || isManager
      else if action == "edit" then isAdmin || isManager || isAssignee
      else if action == "delete" then isAdmin || isCreator
      else if action == "assign" then isAdmin || isManager
      else if action == "update_status" then isAdmin || isManager || isAssignee
      else if action == "comment" then isAdmin || isManager || isAssignee || isCreator
      else false
  }

  /** How the rights nest: assigning goes with creating and status updates with editing;
      whoever may create may edit; whoever may edit or delete may comment; and commenting
      needs one of those two. */
  lemma {:induction false} ActionRightsNest(u: FrontUser, t: FrontTask)
    ensures var can := (action: string) => CanUserPerformAction(Some(u), Some(t), action);
      && (can("assign") <==> can("create"))
      && (can("update_status") <==> can("edit"))
      && (can("create") ==> can("edit"))
      && (can("edit") || can("delete") <==> can("comment"))
  {
  }

  /** The backend task with the front-end task's people. */
  predicate SamePeople(t: FrontTask, bt: Task) {
    bt.assignee == t.assignee && bt.createdBy == t.createdBy
  }

  /** The interface and the task record disagree on deleting exactly for a manager who
      did not create the task (the record allows it, the interface hides it) and for a
      creator who is neither administrator nor manager (the interface offers it, the
      record refuses it). */
  lemma DeleteRulesDisagree(u: FrontUser, t: FrontTask, bt: Task)
    requires SamePeople(t, bt)
    ensures (CanUserPerformAction(Some(u), Some(t), "delete") != CanBeDeletedBy(bt, Actor(u.id, ParseChoice(u.role))))
      <==> ((u.role == ManagerRoleValue && t.createdBy != Some(u.id))
            || (u.role != AdminRoleValue && u.role != ManagerRoleValue && t.createdBy == Some(u.id)))
  {
    assert ParseChoice(u.role) == Some(Admin) <==> u.role == AdminRoleValue;
    assert ParseChoice(u.role) == Some(Manager) <==> u.role == ManagerRoleValue;
  }

  /** On editing they disagree only for an assignee whose role is none of the three
      values: the interface offers the edit, the record refuses it. */
  lemma EditRulesDisagree(u: FrontUser, t: FrontTask, bt: Task)
    requires SamePeople(t, bt)
    ensures (CanUserPerformAction(Some(u), Some(t), "edit") != CanBeEditedBy(bt, Actor(u.id, ParseChoice(u.role))))
      <==> (ParseChoice(u.role).None? && t.assignee == Some(u.id))
  {
    assert ParseChoice(u.role) == Some(Admin) <==> u.role == AdminRoleValue;
    assert ParseChoice(u.role) == Some(Manager) <==> u.role == ManagerRoleValue;
  }

  /** On assigning they agree: the interface offers it exactly to the roles holding the
      assignment capability. */
  lemma AssignRulesAgree(u: FrontUser, t: FrontTask)
    ensures CanUserPerformAction(Some(u), Some(t), "assign") <==> CanAssignTasks(ParseChoice(u.role))
  {
    assert ParseChoice(u.role) == Some(Admin) <==> u.role == AdminRoleValue;
    assert ParseChoice(u.role) == Some(Manager) <==> u.role == ManagerRoleValue;
  }
}
