/** The dashboard: the caller's 30-day presence strip, each founder's
    contribution (activities posted, tasks completed), the count of dead
    tasks across all plans, and one founder's contribution details. */
module DashboardController {
  import opened Common
  import opened Models
  import opened Ordering
  import opened PlanModel
  import opened Store

  const MsgFounderNotFound: string := "Founder not found"
  const TrendDays: nat := 30
  const RecentActivityLimit: nat := 10

  /** Every task of every plan, in plan order and then task order: the order
      the nested `forEach` loops visit them. */
  function AllTasks(plans: seq<Plan>): seq<Task>
    decreases |plans|
  {
    if plans == [] then [] else AllTasks(plans[..|plans| - 1]) + plans[|plans| - 1].tasks
  }

  lemma AllTasksStep(plans: seq<Plan>, i: nat)
    requires i < |plans|
    ensures AllTasks(plans[..i + 1]) == AllTasks(plans[..i]) + plans[i].tasks
  {
    assert plans[..i + 1][..i] == plans[..i];
  }

  /** `task.completedBy && task.completedBy.toString() === id`. */
  predicate CreditedTo(t: Task, founder: UserId)
  {
    t.completedBy == Some(founder)
  }

  /** The number of tasks credited to `founder`. */
  function CreditedCount(tasks: seq<Task>, founder: UserId): nat
  {
    CountIf(tasks, (t: Task) => CreditedTo(t, founder))
  }

  lemma CreditedCountAppend(a: seq<Task>, b: seq<Task>, founder: UserId)
    ensures CreditedCount(a + b, founder) == CreditedCount(a, founder) + CreditedCount(b, founder)
  {
    CountIfAppend(a, b, (t: Task) => CreditedTo(t, founder));
  }

  lemma CreditedCountSnoc(a: seq<Task>, t: Task, founder: UserId)
    ensures CreditedCount(a + [t], founder) == CreditedCount(a, founder) + (if CreditedTo(t, founder) then 1 else 0)
  {
    CreditedCountAppend(a, [t], founder);
    CountIfOne(t, (t: Task) => CreditedTo(t, founder));
  }

  /** The `tasksDone` loop of `getStats` for one founder: every task of every
      plan credited to that founder, counted once. */
  method TasksDone(plans: seq<Plan>, founder: UserId) returns (n: nat)
    ensures n == CreditedCount(AllTasks(plans), founder)
  {
    n := 0;
    for i := 0 to |plans|
      invariant n == CreditedCount(AllTasks(plans[..i]), founder)
    {
      var tasks := plans[i].tasks;
      ghost var before := AllTasks(plans[..i]);
      assert before + tasks[..0] == before;
      for j := 0 to |tasks|
        invariant n == CreditedCount(before + tasks[..j], founder)
      {
        CreditedCountSnoc(before + tasks[..j], tasks[j], founder);
        assert before + tasks[..j + 1] == (before + tasks[..j]) + [tasks[j]];
        if CreditedTo(tasks[j], founder) {
          n := n + 1;
        }
      }
      assert tasks[..|tasks|] == tasks;
      AllTasksStep(plans, i);
    }
    assert plans[..|plans|] == plans;
  }

  /** A task not DONE whose last update is at or before `cutoff`: the
      dashboard's test, inclusive where the plan virtual's is strict. */
  predicate IsDeadBy(t: Task, cutoff: Time)
  {
    t.status != Done && t.lastUpdated <= cutoff
  }

  function DeadByCount(tasks: seq<Task>, cutoff: Time): nat
  {
    CountIf(tasks, (t: Task) => IsDeadBy(t, cutoff))
  }

  lemma DeadByCountAppend(a: seq<Task>, b: seq<Task>, cutoff: Time)
    ensures DeadByCount(a + b, cutoff) == DeadByCount(a, cutoff) + DeadByCount(b, cutoff)
  {
    CountIfAppend(a, b, (t: Task) => IsDeadBy(t, cutoff));
  }

  lemma DeadByCountSnoc(a: seq<Task>, t: Task, cutoff: Time)
    ensures DeadByCount(a + [t], cutoff) == DeadByCount(a, cutoff) + (if IsDeadBy(t, cutoff) then 1 else 0)
  {
    DeadByCountAppend(a, [t], cutoff);
    CountIfOne(t, (t: Task) => IsDeadBy(t, cutoff));
  }

  /** The `deadTaskCount` loop of `getStats`: the tasks of all plans that are
      not DONE and were last updated five days ago or earlier. */
  method DeadTaskCount(plans: seq<Plan>, now: Time) returns (n: nat)
    ensures n == DeadByCount(AllTasks(plans), now - DeadAge)
    ensures n <= |AllTasks(plans)|
  {
    var cutoff := now - DeadAge;
    n := 0;
    for i := 0 to |plans|
      invariant n == DeadByCount(AllTasks(plans[..i]), cutoff)
    {
      var tasks := plans[i].tasks;
      ghost var before := AllTasks(plans[..i]);
      assert before + tasks[..0] == before;
      for j := 0 to |tasks|
        invariant n == DeadByCount(before + tasks[..j], cutoff)
      {
        DeadByCountSnoc(before + tasks[..j], tasks[j], cutoff);
        assert before + tasks[..j + 1] == (before + tasks[..j]) + [tasks[j]];
        if tasks[j].status != Done && tasks[j].lastUpdated <= cutoff {
          n := n + 1;
        }
      }
      assert tasks[..|tasks|] == tasks;
      AllTasksStep(plans, i);
    }
    assert plans[..|plans|] == plans;
    CountIfBound(AllTasks(plans), (t: Task) => IsDeadBy(t, cutoff));
  }

  /** The plans' `deadTasksCount` virtuals added up. */
  function VirtualDeadTotal(plans: seq<Plan>, now: Time): nat
    decreases |plans|
  {
    if plans == [] then 0
    else VirtualDeadTotal(plans[..|plans| - 1], now) + DeadTasksCount(plans[|plans| - 1].tasks, now)
  }

  /** The dashboard never counts fewer dead tasks than the plan virtuals add
      up to, and counts the same unless some open task was last updated
      exactly at the five-day cutoff. */
  lemma {:induction false} DeadCountCoversVirtual(plans: seq<Plan>, now: Time)
    ensures VirtualDeadTotal(plans, now) <= DeadByCount(AllTasks(plans), now - DeadAge)
    ensures (forall t :: t in AllTasks(plans) ==> t.status == Done || t.lastUpdated != now - DeadAge)
            ==> VirtualDeadTotal(plans, now) == DeadByCount(AllTasks(plans), now - DeadAge)
    decreases |plans|
  {
    if plans != [] {
      var cutoff := now - DeadAge;
      var init, last := plans[..|plans| - 1], plans[|plans| - 1].tasks;
      DeadCountCoversVirtual(init, now);
      DeadByCountAppend(AllTasks(init), last, cutoff);
      CountIfMonotone(last, (t: Task) => IsDeadBefore(t, now - DeadAge), (t: Task) => IsDeadBy(t, cutoff));
      if forall t :: t in AllTasks(plans) ==> t.status == Done || t.lastUpdated != cutoff {
        assert forall t :: t in AllTasks(init) ==> t in AllTasks(plans);
        assert forall i :: 0 <= i < |last| ==> last[i] in AllTasks(plans);
        CountIfMonotone(last, (t: Task) => IsDeadBy(t, cutoff), (t: Task) => IsDeadBefore(t, now - DeadAge));
      }
    }
  }

  /** One open task updated exactly five days before `now` is dead on the
      dashboard but not in the plan's own `deadTasksCount`. */
  lemma DeadCountsDisagreeAtCutoff(now: Time)
    ensures var plan := Plan(0, "Launch", "", 0, PlanStatus.Pending, [Task(0, "Ship", Todo, None, None, now - DeadAge)]);
      VirtualDeadTotal([plan], now) == 0 && DeadByCount(AllTasks([plan]), now - DeadAge) == 1
  {
    var t := Task(0, "Ship", Todo, None, None, now - DeadAge);
    var plan := Plan(0, "Launch", "", 0, PlanStatus.Pending, [t]);
    assert [plan][..0] == [];
    assert AllTasks([plan]) == [] + [t];
    DeadByCountSnoc([], t, now - DeadAge);
    assert [t][1..] == [];
    assert DeadTasksCount([t], now) == 0;
  }

  /** One founder's row of `contributionData`. */
  datatype Contribution = Contribution(id: UserId, name: string, activities: nat, tasksDone: nat, status: UserStatus)

  /** The dates on which `founder` posted an activity. */
  function ActivityDates(activities: map<DayKey, Activity>, founder: UserId): set<string>
  {
    set k | k in activities && k.0 == founder :: k.1
  }

  /** `Activity.countDocuments({ user })`: one activity per (user, date). */
  function ActivityCount(activities: map<DayKey, Activity>, founder: UserId): (n: nat)
    ensures n == 0 <==> forall k :: k in activities ==> k.0 != founder
  {
    var ds := ActivityDates(activities, founder);
    assert forall k :: k in activities && k.0 == founder ==> k.1 in ds;
    |ds|
  }

  function ContributionOf(db: Db, founder: UserId): Contribution
    requires founder in db.users
    reads db
  {
    Contribution(founder, db.users[founder].name, ActivityCount(db.activities, founder),
                 CreditedCount(AllTasks(db.plans), founder), db.users[founder].status)
  }

  function TotalTasksDone(cs: seq<Contribution>): nat
    decreases |cs|
  {
    if cs == [] then 0 else TotalTasksDone(cs[..|cs| - 1]) + cs[|cs| - 1].tasksDone
  }

  function ContributorIds(cs: seq<Contribution>): set<UserId>
    decreases |cs|
  {
    if cs == [] then {} else ContributorIds(cs[..|cs| - 1]) + {cs[|cs| - 1].id}
  }

  lemma ContributorIdsSnoc(cs: seq<Contribution>, c: Contribution)
    ensures ContributorIds(cs + [c]) == ContributorIds(cs) + {c.id}
  {
    assert (cs + [c])[..|cs|] == cs;
  }

  /** An id no row carries is not among the contributors. */
  lemma {:induction false} ContributorIdsWithout(cs: seq<Contribution>, x: UserId)
    requires forall k :: 0 <= k < |cs| ==> cs[k].id != x
    ensures x !in ContributorIds(cs)
    decreases |cs|
  {
    if cs != [] {
      ContributorIdsWithout(cs[..|cs| - 1], x);
    }
  }

  predicate CreditedToAny(t: Task, founders: set<UserId>)
  {
    t.completedBy.Some? && t.completedBy.value in founders
  }

  /** Over founders listed once each, the `tasksDone` figures add up to the
      number of tasks credited to any of them: no task is counted twice. */
  lemma {:induction false} TotalTasksDoneCounts(tasks: seq<Task>, cs: seq<Contribution>)
    requires forall k :: 0 <= k < |cs| ==> cs[k].tasksDone == CreditedCount(tasks, cs[k].id)
    requires forall i, j :: 0 <= i < j < |cs| ==> cs[i].id != cs[j].id
    ensures TotalTasksDone(cs) == CountIf(tasks, (t: Task) => CreditedToAny(t, ContributorIds(cs)))
    decreases |cs|
  {
    if cs == [] {
      CountIfBound(tasks, (t: Task) => CreditedToAny(t, ContributorIds(cs)));
    } else {
      var init, last := cs[..|cs| - 1], cs[|cs| - 1];
      TotalTasksDoneCounts(tasks, init);
      ContributorIdsWithout(init, last.id);
      CountIfUnion(tasks, (t: Task) => CreditedToAny(t, ContributorIds(init)),
                   (t: Task) => CreditedTo(t, last.id),
                   (t: Task) => CreditedToAny(t, ContributorIds(cs)));
    }
  }

  /** The sum of `tasksDone` over the founders never exceeds the number of tasks. */
  lemma TotalTasksDoneBound(tasks: seq<Task>, cs: seq<Contribution>)
    requires forall k :: 0 <= k < |cs| ==> cs[k].tasksDone == CreditedCount(tasks, cs[k].id)
    requires forall i, j :: 0 <= i < j < |cs| ==> cs[i].id != cs[j].id
    ensures TotalTasksDone(cs) <= |tasks|
  {
    TotalTasksDoneCounts(tasks, cs);
    CountIfBound(tasks, (t: Task) => CreditedToAny(t, ContributorIds(cs)));
  }

  /** `contributionData`: one row per founder, each founder once, in the
      order `User.find()` returns them (left to the store). */
  method ContributionData(db: Db) returns (cs: seq<Contribution>)
    ensures forall k :: 0 <= k < |cs| ==> cs[k].id in db.users && cs[k] == ContributionOf(db, cs[k].id)
    ensures forall i, j :: 0 <= i < j < |cs| ==> cs[i].id != cs[j].id
    ensures ContributorIds(cs) == db.users.Keys
    ensures TotalTasksDone(cs) <= |AllTasks(db.plans)|
  {
    cs := [];
    var rest := db.users.Keys;
    while rest != {}
      invariant Tabulated(db, cs, rest)
      decreases |rest|
    {
      var u :| u in rest;
      var done := TasksDone(db.plans, u);
      var c := Contribution(u, db.users[u].name, ActivityCount(db.activities, u), done, db.users[u].status);
      TabulatedStep(db, cs, rest, c);
      cs := cs + [c];
      rest := rest - {u};
    }
    TotalTasksDoneBound(AllTasks(db.plans), cs);
  }

  /** The loop state of `ContributionData`: one correct row per founder
      already handled, and `rest` the founders still to handle. */
  ghost predicate Tabulated(db: Db, cs: seq<Contribution>, rest: set<UserId>)
    reads db
  {
    && rest <= db.users.Keys
    && (forall k :: 0 <= k < |cs| ==> cs[k].id in db.users && cs[k] == ContributionOf(db, cs[k].id))
    && (forall i, j :: 0 <= i < j < |cs| ==> cs[i].id != cs[j].id)
    && (forall k :: 0 <= k < |cs| ==> cs[k].id !in rest)
    && ContributorIds(cs) == db.users.Keys - rest
  }

  lemma TabulatedStep(db: Db, cs: seq<Contribution>, rest: set<UserId>, c: Contribution)
    requires Tabulated(db, cs, rest) && c.id in rest && c == ContributionOf(db, c.id)
    ensures Tabulated(db, cs + [c], rest - {c.id})
    ensures |rest - {c.id}| < |rest|
  {
    ContributorIdsSnoc(cs, c);
    var cs' := cs + [c];
    forall i, j | 0 <= i < j < |cs'|
      ensures cs'[i].id != cs'[j].id
    {
      if j == |cs| {
        assert cs'[i] == cs[i];
      }
    }
  }

  /** One day of the presence strip. The weekday label is locale formatting
      and is not modelled. */
  datatype DayEntry = DayEntry(date: string, present: bool)

  /** The days of `window` that are not after `today`, in window order. */
  function DaysUpTo(window: seq<string>, today: string): (ds: seq<string>)
    ensures |ds| <= |window|
    decreases |window|
  {
    if window == [] then []
    else
      var d := window[|window| - 1];
      DaysUpTo(window[..|window| - 1], today) + (if Less(today, d) then [] else [d])
  }

  lemma {:induction false} DaysUpToMembers(window: seq<string>, today: string)
    ensures forall d :: d in DaysUpTo(window, today) <==> d in window && !Less(today, d)
    decreases |window|
  {
    if window != [] {
      var init := window[..|window| - 1];
      DaysUpToMembers(init, today);
      assert window == init + [window[|window| - 1]];
    }
  }

  /** Keeping the days up to `today` keeps an ascending window ascending. */
  lemma {:induction false} DaysUpToAscending(window: seq<string>, today: string)
    requires forall i, j :: 0 <= i < j < |window| ==> Less(window[i], window[j])
    ensures forall i, j :: 0 <= i < j < |DaysUpTo(window, today)| ==> Less(DaysUpTo(window, today)[i], DaysUpTo(window, today)[j])
    decreases |window|
  {
    if window != [] {
      var init := window[..|window| - 1];
      var last := window[|window| - 1];
      DaysUpToAscending(init, today);
      DaysUpToMembers(init, today);
      var kept := DaysUpTo(init, today);
      forall k | 0 <= k < |kept|
        ensures Less(kept[k], last)
      {
        assert kept[k] in init;
      }
    }
  }

  /** `myActivities.some(a => a.date === d)`, where `myActivities` holds the
      caller's activities dated `since` or later. */
  predicate PostedOn(activities: map<DayKey, Activity>, caller: UserId, since: string, d: string)
  {
    (caller, d) in activities && !Less(d, since)
  }

  function Entries(activities: map<DayKey, Activity>, caller: UserId, since: string, days: seq<string>): (es: seq<DayEntry>)
    ensures |es| == |days|
    decreases |days|
  {
    if days == [] then []
    else
      var d := days[|days| - 1];
      Entries(activities, caller, since, days[..|days| - 1]) + [DayEntry(d, PostedOn(activities, caller, since, d))]
  }

  lemma {:induction false} EntriesMeaning(activities: map<DayKey, Activity>, caller: UserId, since: string, days: seq<string>)
    ensures forall k :: 0 <= k < |days| ==>
      Entries(activities, caller, since, days)[k] == DayEntry(days[k], PostedOn(activities, caller, since, days[k]))
    decreases |days|
  {
    if days != [] {
      EntriesMeaning(activities, caller, since, days[..|days| - 1]);
    }
  }

  /** The `attendanceData` loop of `getStats`. The clock supplies `window`,
      the 30 dates the loop visits (29 days ago first, today last), `today`
      and `since`, the date 30 days ago that bounds the activity query. A
      date after `today` is skipped; each other date is marked present
      exactly when the caller posted an activity on it. */
  method AttendanceTrend(db: Db, caller: UserId, window: seq<string>, today: string, since: string)
    returns (data: seq<DayEntry>)
    requires |window| == TrendDays
    ensures data == Entries(db.activities, caller, since, DaysUpTo(window, today))
    ensures |data| <= TrendDays
    ensures forall k :: 0 <= k < |data| ==> data[k].date in window && !Less(today, data[k].date)
    ensures forall k :: 0 <= k < |data| ==> (data[k].present <==> PostedOn(db.activities, caller, since, data[k].date))
  {
    data := [];
    for i := 0 to |window|
      invariant data == Entries(db.activities, caller, since, DaysUpTo(window[..i], today))
    {
      var d := window[i];
      DaysUpToStep(window, i, today);
      if Less(today, d) {
        continue;
      }
      var present := (caller, d) in db.activities && !Less(d, since);
      EntriesStep(db.activities, caller, since, DaysUpTo(window[..i], today), d);
      data := data + [DayEntry(d, present)];
    }
    assert window[..|window|] == window;
    TrendMeaning(db.activities, caller, since, window, today);
  }

  lemma DaysUpToStep(window: seq<string>, i: nat, today: string)
    requires i < |window|
    ensures Less(today, window[i]) ==> DaysUpTo(window[..i + 1], today) == DaysUpTo(window[..i], today)
    ensures !Less(today, window[i]) ==> DaysUpTo(window[..i + 1], today) == DaysUpTo(window[..i], today) + [window[i]]
  {
    assert window[..i + 1][..i] == window[..i];
    assert DaysUpTo(window[..i], today) + [] == DaysUpTo(window[..i], today);
  }

  lemma EntriesStep(activities: map<DayKey, Activity>, caller: UserId, since: string, days: seq<string>, d: string)
    ensures Entries(activities, caller, since, days + [d])
      == Entries(activities, caller, since, days) + [DayEntry(d, PostedOn(activities, caller, since, d))]
  {
    assert (days + [d])[..|days|] == days;
  }

  lemma TrendMeaning(activities: map<DayKey, Activity>, caller: UserId, since: string, window: seq<string>, today: string)
    ensures var data := Entries(activities, caller, since, DaysUpTo(window, today));
      forall k :: 0 <= k < |data| ==> data[k].date in window && !Less(today, data[k].date)
    ensures var data := Entries(activities, caller, since, DaysUpTo(window, today));
      forall k :: 0 <= k < |data| ==> (data[k].present <==> PostedOn(activities, caller, since, data[k].date))
  {
    var days := DaysUpTo(window, today);
    DaysUpToMembers(window, today);
    EntriesMeaning(activities, caller, since, days);
    forall k | 0 <= k < |days|
      ensures days[k] in window && !Less(today, days[k])
    {
      assert days[k] in days;
    }
  }

  /** What `getStats` answers. */
  datatype Stats = Stats(attendance: seq<DayEntry>, contributions: seq<Contribution>, deadTasks: nat)

  /** `getStats`: the three parts above, with the clock's dates as parameters. */
  method GetStats(db: Db, caller: UserId, window: seq<string>, today: string, since: string, now: Time)
    returns (s: Stats)
    requires |window| == TrendDays
    ensures s.attendance == Entries(db.activities, caller, since, DaysUpTo(window, today))
    ensures |s.attendance| <= TrendDays
    ensures forall k :: 0 <= k < |s.contributions| ==> s.contributions[k].id in db.users
    ensures forall k :: 0 <= k < |s.contributions| && s.contributions[k].id in db.users ==>
      s.contributions[k] == ContributionOf(db, s.contributions[k].id)
    ensures ContributorIds(s.contributions) == db.users.Keys
    ensures TotalTasksDone(s.contributions) <= |AllTasks(db.plans)|
    ensures s.deadTasks == DeadByCount(AllTasks(db.plans), now - DeadAge)
    ensures VirtualDeadTotal(db.plans, now) <= s.deadTasks
  {
    var attendance := AttendanceTrend(db, caller, window, today, since);
    var contributions := ContributionData(db);
    var dead := DeadTaskCount(db.plans, now);
    DeadCountCoversVirtual(db.plans, now);
    s := Stats(attendance, contributions, dead);
  }

  /** One entry of `completedTasks`. */
  datatype CompletedTask = CompletedTask(taskTitle: string, planTitle: string, completedAt: Time)

  /** The entries one plan contributes, in task order. */
  function CompletedIn(planTitle: string, tasks: seq<Task>, founder: UserId): seq<CompletedTask>
    decreases |tasks|
  {
    if tasks == [] then []
    else
      var t := tasks[|tasks| - 1];
      CompletedIn(planTitle, tasks[..|tasks| - 1], founder)
        + (if CreditedTo(t, founder) then [CompletedTask(t.title, planTitle, t.lastUpdated)] else [])
  }

  /** The entries of all plans, in plan order. */
  function CompletedAcross(plans: seq<Plan>, founder: UserId): seq<CompletedTask>
    decreases |plans|
  {
    if plans == [] then []
    else
      var p := plans[|plans| - 1];
      CompletedAcross(plans[..|plans| - 1], founder) + CompletedIn(p.title, p.tasks, founder)
  }

  /** A plan lists one entry per task credited to the founder, and every
      entry is such a task under that plan's title. */
  lemma {:induction false} CompletedInMeaning(planTitle: string, tasks: seq<Task>, founder: UserId)
    ensures |CompletedIn(planTitle, tasks, founder)| == CreditedCount(tasks, founder)
    ensures forall e :: e in CompletedIn(planTitle, tasks, founder) ==>
      exists t :: t in tasks && CreditedTo(t, founder) && e == CompletedTask(t.title, planTitle, t.lastUpdated)
    ensures forall t :: t in tasks && CreditedTo(t, founder) ==>
      CompletedTask(t.title, planTitle, t.lastUpdated) in CompletedIn(planTitle, tasks, founder)
    decreases |tasks|
  {
    if tasks != [] {
      var init, t := tasks[..|tasks| - 1], tasks[|tasks| - 1];
      CompletedInMeaning(planTitle, init, founder);
      assert tasks == init + [t];
      CreditedCountSnoc(init, t, founder);
    }
  }

  /** The contributions page lists exactly as many tasks as the dashboard's
      `tasksDone` counts for that founder. */
  lemma {:induction false} CompletedAcrossCount(plans: seq<Plan>, founder: UserId)
    ensures |CompletedAcross(plans, founder)| == CreditedCount(AllTasks(plans), founder)
    decreases |plans|
  {
    if plans != [] {
      var init, p := plans[..|plans| - 1], plans[|plans| - 1];
      CompletedAcrossCount(init, founder);
      CompletedInMeaning(p.title, p.tasks, founder);
      CreditedCountAppend(AllTasks(init), p.tasks, founder);
    }
  }

  /** The nested loops of `getFounderContributions` that push `completedTasks`. */
  method CompletedTasks(plans: seq<Plan>, founder: UserId) returns (done: seq<CompletedTask>)
    ensures done == CompletedAcross(plans, founder)
  {
    done := [];
    for i := 0 to |plans|
      invariant done == CompletedAcross(plans[..i], founder)
    {
      var p := plans[i];
      for j := 0 to |p.tasks|
        invariant done == CompletedAcross(plans[..i], founder) + CompletedIn(p.title, p.tasks[..j], founder)
      {
        var t := p.tasks[j];
        assert p.tasks[..j + 1][..j] == p.tasks[..j];
        if t.completedBy == Some(founder) {
          done := done + [CompletedTask(t.title, p.title, t.lastUpdated)];
        }
      }
      assert p.tasks[..|p.tasks|] == p.tasks;
      assert plans[..i + 1][..i] == plans[..i];
    }
    assert plans[..|plans|] == plans;
  }

  /** `Activity.find({ user }).sort({ date: -1 }).limit(10)`: the founder's
      latest activities, newest first. */
  ghost function LatestActivities(activities: map<DayKey, Activity>, founder: UserId): (r: seq<Activity>)
    ensures |r| == Min(RecentActivityLimit, |ActivityDates(activities, founder)|)
    ensures forall k :: 0 <= k < |r| ==> (founder, NewestFirstOf(ActivityDates(activities, founder))[k]) in activities
    ensures forall k :: 0 <= k < |r| && (founder, NewestFirstOf(ActivityDates(activities, founder))[k]) in activities ==>
      r[k] == activities[(founder, NewestFirstOf(ActivityDates(activities, founder))[k])]
  {
    var dates := ActivityDates(activities, founder);
    var ds := NewestFirstOf(dates);
    NewestFirstOfMeaning(dates);
    assert forall k :: 0 <= k < |ds| ==> ds[k] in dates;
    seq(Min(RecentActivityLimit, |ds|), k requires 0 <= k < Min(RecentActivityLimit, |ds|) => activities[(founder, ds[k])])
  }

  /** The latest activities are the founder's own, strictly newest first, and
      when the founder has no more than ten they are all there. */
  lemma LatestActivitiesMeaning(activities: map<DayKey, Activity>, founder: UserId)
    requires ActivitiesKeyed(activities)
    ensures forall k :: 0 <= k < |LatestActivities(activities, founder)| ==>
      LatestActivities(activities, founder)[k].user == founder
      && (founder, LatestActivities(activities, founder)[k].date) in activities
    ensures forall i, j :: 0 <= i < j < |LatestActivities(activities, founder)| ==>
      Less(LatestActivities(activities, founder)[j].date, LatestActivities(activities, founder)[i].date)
    ensures |ActivityDates(activities, founder)| <= RecentActivityLimit ==>
      forall d :: (founder, d) in activities ==>
        exists k :: (0 <= k < |LatestActivities(activities, founder)|
                     && LatestActivities(activities, founder)[k].date == d)
  {
    var dates := ActivityDates(activities, founder);
    var ds := NewestFirstOf(dates);
    var r := LatestActivities(activities, founder);
    NewestFirstOfMeaning(dates);
    assert forall k :: 0 <= k < |r| ==> r[k].date == ds[k];
    if |dates| <= RecentActivityLimit {
      forall d | (founder, d) in activities
        ensures exists k :: 0 <= k < |r| && r[k].date == d
      {
        assert d in dates;
        var k :| 0 <= k < |ds| && ds[k] == d;
        assert r[k].date == d;
      }
    }
  }

  /** The founder's ten latest activities, newest first: the dates by
      `NewestFirst`, then each date's document. */
  method RecentActivities(activities: map<DayKey, Activity>, founder: UserId) returns (recent: seq<Activity>)
    ensures recent == LatestActivities(activities, founder)
  {
    var dates := ActivityDates(activities, founder);
    var latest := NewestFirst(dates, RecentActivityLimit);
    NewestFirstOfMeaning(dates);
    assert forall k :: 0 <= k < |latest| ==> latest[k] == NewestFirstOf(dates)[k] && latest[k] in dates;
    recent := seq(|latest|, k requires 0 <= k < |latest| => activities[(founder, latest[k])]);
    assert forall k :: 0 <= k < |recent| ==> recent[k] == LatestActivities(activities, founder)[k];
  }

  /** What `getFounderContributions` answers. */
  datatype FounderContributions = FounderContributions(
    founder: UserId, name: string, email: string, status: UserStatus,
    recentActivities: seq<Activity>, completedTasks: seq<CompletedTask>)

  /** `getFounderContributions`: an unknown founder is not found; otherwise
      the founder's ten latest activities, newest first, and every task
      credited to them, in plan order and then task order. */
  method GetFounderContributions(db: Db, id: UserId) returns (r: Result<FounderContributions>)
    requires db.Valid()
    ensures r.Err? <==> id !in db.users
    ensures r.Err? ==> r.failure == Failure(404, MsgFounderNotFound)
    ensures r.Ok? ==> r.value.founder == id && r.value.name == db.users[id].name
    ensures r.Ok? ==> r.value.email == db.users[id].email && r.value.status == db.users[id].status
    ensures r.Ok? ==> r.value.recentActivities == LatestActivities(db.activities, id)
    ensures r.Ok? ==> r.value.completedTasks == CompletedAcross(db.plans, id)
    ensures r.Ok? ==> |r.value.completedTasks| == CreditedCount(AllTasks(db.plans), id)
  {
    if id !in db.users {
      return Err(Failure(404, MsgFounderNotFound));
    }
    var recent := RecentActivities(db.activities, id);
    var done := CompletedTasks(db.plans, id);
    CompletedAcrossCount(db.plans, id);
    var u := db.users[id];
    r := Ok(FounderContributions(id, u.name, u.email, u.status, recent, done));
  }
}
