/**
 * The object-side user: per-habit completion histories, streaks recomputed from the
 * whole history, and the milestone bonus. Dates are day numbers.
 */
module Users {
  import opened Common

  /** Points a running streak earns each time it reaches a multiple of `MilestoneEvery`. */
  const StreakBonus := 5

  /** The streak length that earns a bonus, and every multiple of it. */
  const MilestoneEvery := 7

  /**
   * A user object. `habitsCompleted` maps a habit to its completion dates in the order
   * they were tracked; `bonusClaimed` maps a bonus habit to the week key it was last
   * claimed in.
   */
  datatype User = User(
    username: string,
    household: string,
    habitsCompleted: map<string, seq<int>>,
    streaks: map<string, int>,
    bonusClaimed: map<string, string>,
    points: int)

  /** A user as the constructor makes it: no history, no streaks, no claims. */
  function NewUser(username: string, household: string, points: int): User {
    User(username, household, map[], map[], map[], points)
  }

  /** Every tracked habit has at least one completion, as `track_completion` ensures. */
  ghost predicate HistoriesNonEmpty(u: User) {
    forall h :: h in u.habitsCompleted ==> |u.habitsCompleted[h]| > 0
  }

  /** `has_completed_today`: the habit's latest completion is today. */
  function HasCompletedToday(u: User, habit: string, today: int): (r: bool)
    requires habit in u.habitsCompleted ==> |u.habitsCompleted[habit]| > 0
    ensures r ==> habit in u.habitsCompleted && today in u.habitsCompleted[habit]
    ensures r <==> habit in u.habitsCompleted
                   && u.habitsCompleted[habit] == u.habitsCompleted[habit][..|u.habitsCompleted[habit]| - 1] + [today]
  {
    habit in u.habitsCompleted && u.habitsCompleted[habit][|u.habitsCompleted[habit]| - 1] == today
  }

  /**
   * A gap of `delta` days between two completions continues the streak when it is
   * exactly one period: 1 day for a daily habit, 7 days for a weekly one.
   */
  predicate Continues(p: Periodicity, delta: int) {
    delta == ThresholdDays(p)
  }

  /** The streak counter of the `update_streak` loop once it has looked at `c[..i+1]`. */
  function RunAt(c: seq<int>, p: Periodicity, i: nat): nat
    requires i < |c|
  {
    if i == 0 then 1
    else if Continues(p, c[i] - c[i - 1]) then RunAt(c, p, i - 1) + 1
    else 1
  }

  /** How many loop steps `1 <= j < n` left the counter on a multiple of 7. */
  function Milestones(c: seq<int>, p: Periodicity, n: nat): nat
    requires n <= |c|
  {
    if n <= 1 then 0
    else Milestones(c, p, n - 1) + (if RunAt(c, p, n - 1) % MilestoneEvery == 0 then 1 else 0)
  }

  /**
   * The running streak at `i` is one more than the number of continuing gaps that end
   * the prefix: all of those continue, and the gap just before them does not.
   */
  lemma {:induction false} RunAtIsTrailingRun(c: seq<int>, p: Periodicity, i: nat)
    requires i < |c|
    ensures 1 <= RunAt(c, p, i) <= i + 1
    ensures forall j :: i + 1 - RunAt(c, p, i) < j <= i ==> Continues(p, c[j] - c[j - 1])
    ensures RunAt(c, p, i) <= i ==> !Continues(p, c[i + 1 - RunAt(c, p, i)] - c[i - RunAt(c, p, i)])
  {
    if i > 0 && Continues(p, c[i] - c[i - 1]) {
      RunAtIsTrailingRun(c, p, i - 1);
    }
  }

  /** `update_streak`: recompute the streak and the milestone bonus from the whole history. */
  function UpdateStreak(u: User, habit: string, p: Periodicity): (r: User)
    requires habit in u.habitsCompleted
    ensures r.username == u.username && r.household == u.household
    ensures r.habitsCompleted == u.habitsCompleted && r.bonusClaimed == u.bonusClaimed
    ensures r.streaks.Keys == u.streaks.Keys + {habit}
    ensures forall h :: h in u.streaks && h != habit ==> r.streaks[h] == u.streaks[h]
    ensures var c := u.habitsCompleted[habit];
            var s := r.streaks[habit];
            && 1 <= s
            && (|c| < 2 ==> s == 1)
            && (|c| > 0 ==> s <= |c|)
            && (|c| > 0 ==> forall j :: |c| - s < j < |c| ==> Continues(p, c[j] - c[j - 1]))
            && (s < |c| ==> !Continues(p, c[|c| - s] - c[|c| - s - 1]))
    ensures var c := u.habitsCompleted[habit];
            r.points == u.points + StreakBonus * Milestones(c, p, |c|)
    ensures r.points >= u.points
  {
    var c := u.habitsCompleted[habit];
    if |c| < 2 then
      u.(streaks := u.streaks[habit := 1])
    else
      RunAtIsTrailingRun(c, p, |c| - 1);
      u.(streaks := u.streaks[habit := RunAt(c, p, |c| - 1)],
         points := u.points + StreakBonus * Milestones(c, p, |c|))
  }

  /** `track_completion`: append the date to the habit's history, then update the streak. */
  function TrackCompletion(u: User, habit: string, date: int, p: Periodicity): (r: User)
    ensures var before := if habit in u.habitsCompleted then u.habitsCompleted[habit] else [];
            r.habitsCompleted == u.habitsCompleted[habit := before + [date]]
    ensures r.username == u.username && r.household == u.household
    ensures r.bonusClaimed == u.bonusClaimed
    ensures r.streaks.Keys == u.streaks.Keys + {habit} && r.streaks[habit] >= 1
    ensures forall h :: h in u.streaks && h != habit ==> r.streaks[h] == u.streaks[h]
    ensures var c := (if habit in u.habitsCompleted then u.habitsCompleted[habit] else []) + [date];
            && r.streaks[habit] == RunAt(c, p, |c| - 1)
            && r.points == u.points + StreakBonus * Milestones(c, p, |c|)
    ensures r.points >= u.points
    ensures HistoriesNonEmpty(u) ==> HistoriesNonEmpty(r)
  {
    var started := if habit in u.habitsCompleted then u
      else u.(habitsCompleted := u.habitsCompleted[habit := []], streaks := u.streaks[habit := 0]);
    var appended := started.(habitsCompleted :=
      started.habitsCompleted[habit := started.habitsCompleted[habit] + [date]]);
    UpdateStreak(appended, habit, p)
  }

  /** Right after tracking a date, the habit counts as completed on that date and on no other. */
  lemma TrackedDateIsToday(u: User, habit: string, date: int, p: Periodicity)
    ensures var r := TrackCompletion(u, habit, date, p);
            && |r.habitsCompleted[habit]| > 0
            && forall day :: HasCompletedToday(r, habit, day) <==> day == date
  {
  }

  /** `get_bonus_points`: 5 when the stored streak (0 if none) is a multiple of 7. */
  function GetBonusPoints(u: User, habit: string): (r: int)
    ensures r == 0 || r == StreakBonus
    ensures r == StreakBonus <==> (if habit in u.streaks then u.streaks[habit] else 0) % MilestoneEvery == 0
  {
    if (if habit in u.streaks then u.streaks[habit] else 0) % MilestoneEvery == 0 then StreakBonus else 0
  }

  /** A habit with no streak yet counts as a multiple of 7 and so earns the bonus. */
  lemma UntrackedEarnsBonus(u: User, habit: string)
    requires habit !in u.streaks
    ensures GetBonusPoints(u, habit) == StreakBonus
  {
  }

  /** A history of `n` completions spaced exactly one period apart. */
  function Consecutive(start: int, n: nat, p: Periodicity): (c: seq<int>)
    ensures |c| == n
    ensures forall j :: 0 < j < n ==> Continues(p, c[j] - c[j - 1])
  {
    seq(n, i => start + i * ThresholdDays(p))
  }

  /** On an unbroken history the running streak counts every completion so far. */
  lemma {:induction false} UnbrokenRun(c: seq<int>, p: Periodicity, i: nat)
    requires i < |c|
    requires forall j :: 0 < j < |c| ==> Continues(p, c[j] - c[j - 1])
    ensures RunAt(c, p, i) == i + 1
  {
    if i > 0 {
      UnbrokenRun(c, p, i - 1);
    }
  }

  /** On an unbroken history of `n` completions, the loop passes `n / 7` milestones. */
  lemma {:induction false} UnbrokenMilestones(c: seq<int>, p: Periodicity, n: nat)
    requires n <= |c|
    requires forall j :: 0 < j < |c| ==> Continues(p, c[j] - c[j - 1])
    ensures Milestones(c, p, n) == n / MilestoneEvery
  {
    if n > 1 {
      UnbrokenMilestones(c, p, n - 1);
      UnbrokenRun(c, p, n - 1);
    }
  }

  /**
   * Because the bonus is recomputed over the whole history, tracking the `n`-th
   * consecutive completion pays `5 * (n / 7)` again: from the seventh on, every call
   * re-awards every milestone already passed.
   */
  lemma ConsecutiveCompletionsReaward(u: User, habit: string, start: int, n: nat, p: Periodicity)
    requires habit !in u.habitsCompleted
    ensures var c := Consecutive(start, n, p);
            var r := UpdateStreak(u.(habitsCompleted := u.habitsCompleted[habit := c]), habit, p);
            && r.points == u.points + StreakBonus * (n / MilestoneEvery)
            && r.streaks[habit] == (if n < 2 then 1 else n)
  {
    var c := Consecutive(start, n, p);
    UnbrokenMilestones(c, p, n);
    if n >= 2 {
      UnbrokenRun(c, p, n - 1);
    }
  }

  /**
   * Tracking `date` one period after the last of an unbroken history (or as the first
   * completion) stores a streak equal to the new history's length, and pays the milestone
   * bonus for every multiple of 7 up to it.
   */
  lemma UnbrokenTracking(u: User, habit: string, date: int, p: Periodicity)
    requires habit in u.habitsCompleted ==>
               var c := u.habitsCompleted[habit];
               && |c| > 0
               && (forall j :: 0 < j < |c| ==> Continues(p, c[j] - c[j - 1]))
               && Continues(p, date - c[|c| - 1])
    ensures var before := if habit in u.habitsCompleted then u.habitsCompleted[habit] else [];
            var r := TrackCompletion(u, habit, date, p);
            && r.streaks[habit] == |before| + 1
            && r.points == u.points + StreakBonus * ((|before| + 1) / MilestoneEvery)
  {
    var before := if habit in u.habitsCompleted then u.habitsCompleted[habit] else [];
    UnbrokenExtended(before, date, p);
  }

  /**
   * Adding a date one period after the last of an unbroken history (or to an empty one)
   * keeps it unbroken: the counter reaches its length and passes one milestone per 7 dates.
   */
  lemma UnbrokenExtended(before: seq<int>, date: int, p: Periodicity)
    requires |before| > 0 ==>
               && (forall j :: 0 < j < |before| ==> Continues(p, before[j] - before[j - 1]))
               && Continues(p, date - before[|before| - 1])
    ensures RunAt(before + [date], p, |before|) == |before| + 1
    ensures Milestones(before + [date], p, |before| + 1) == (|before| + 1) / MilestoneEvery
  {
    var c := before + [date];
    var n := |c|;
    forall j | 0 < j < n ensures Continues(p, c[j] - c[j - 1]) {
      if j < n - 1 {
        assert c[j] == before[j] && c[j - 1] == before[j - 1];
      }
    }
    UnbrokenRun(c, p, n - 1);
    UnbrokenMilestones(c, p, n);
  }
}
