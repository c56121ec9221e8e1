/**
 * The habit object: completing it for a user, the points it pays, and its dictionary
 * form as stored in the document.
 */
module Habits {
  import opened Common
  import opened Users

  /** A habit object. `createdAt` is the creation timestamp the constructor reads from the clock. */
  datatype Habit = Habit(name: string, periodicity: Periodicity, createdAt: int, points: int, isBonus: bool)

  /**
   * A habit as a stored dictionary. `to_dict` writes no `last_completed_at` key, so a
   * fresh dictionary answers `None` for it; `reset_habits` writes it as `None` too.
   */
  datatype HabitDict = HabitDict(
    name: string,
    periodicity: Periodicity,
    createdAt: int,
    points: int,
    isBonus: bool,
    lastCompletedAt: Option<int>)

  /** `to_dict`. */
  function ToDict(h: Habit): (d: HabitDict)
    ensures d.lastCompletedAt.None?
  {
    HabitDict(h.name, h.periodicity, h.createdAt, h.points, h.isBonus, None)
  }

  /** `from_dict`: the constructor runs again, so the creation time is the clock's `now`. */
  function FromDict(d: HabitDict, now: int): Habit {
    Habit(d.name, d.periodicity, now, d.points, d.isBonus)
  }

  /** A round trip through the dictionary form keeps everything but the creation time. */
  lemma DictRoundTrip(h: Habit, now: int)
    ensures var h' := FromDict(ToDict(h), now);
            && h'.name == h.name
            && h'.periodicity == h.periodicity
            && h'.points == h.points
            && h'.isBonus == h.isBonus
            && h'.createdAt == now
  {
  }

  /** `calculate_points`: base points plus the user's streak bonus for this habit. */
  function CalculatePoints(h: Habit, u: User): (r: int)
    ensures h.points <= r <= h.points + StreakBonus
    ensures r == h.points || r == h.points + StreakBonus
    ensures r == h.points + StreakBonus <==> (if h.name in u.streaks then u.streaks[h.name] else 0) % MilestoneEvery == 0
  {
    h.points + GetBonusPoints(u, h.name)
  }

  /** What `complete` leaves behind: the user, whether it was accepted, and the points paid. */
  datatype Completion = Completion(user: User, accepted: bool, earned: int)

  /** Whether `complete` turns the completion away, and leaves the user as it was. */
  predicate Rejects(h: Habit, u: User, today: int, weekKey: string)
    requires h.name in u.habitsCompleted ==> |u.habitsCompleted[h.name]| > 0
  {
    || HasCompletedToday(u, h.name, today)
    || (h.isBonus && h.name in u.bonusClaimed && u.bonusClaimed[h.name] == weekKey)
  }

  /**
   * The accepted branch of `complete(user)` on day `today`, whose week key is `weekKey`:
   * record the claim of a bonus habit, track the completion and pay the points.
   */
  function Accept(h: Habit, u: User, today: int, weekKey: string): (r: Completion)
    ensures r.accepted
    ensures var before := if h.name in u.habitsCompleted then u.habitsCompleted[h.name] else [];
            && r.user.habitsCompleted == u.habitsCompleted[h.name := before + [today]]
            && r.user.streaks.Keys == u.streaks.Keys + {h.name}
            && r.user.streaks[h.name] == RunAt(before + [today], h.periodicity, |before|)
            && (forall k :: k in u.streaks && k != h.name ==> r.user.streaks[k] == u.streaks[k])
            && r.user.points
                 == u.points + StreakBonus * Milestones(before + [today], h.periodicity, |before| + 1) + r.earned
    ensures r.earned == h.points + (if r.user.streaks[h.name] % MilestoneEvery == 0 then StreakBonus else 0)
    ensures h.points <= r.earned <= h.points + StreakBonus
    ensures r.user.username == u.username && r.user.household == u.household
    ensures h.isBonus ==> r.user.bonusClaimed == u.bonusClaimed[h.name := weekKey]
    ensures !h.isBonus ==> r.user.bonusClaimed == u.bonusClaimed
    ensures HistoriesNonEmpty(u) ==> HistoriesNonEmpty(r.user)
  {
    var claimed := if h.isBonus then u.(bonusClaimed := u.bonusClaimed[h.name := weekKey]) else u;
    var tracked := TrackCompletion(claimed, h.name, today, h.periodicity);
    var earned := CalculatePoints(h, tracked);
    Completion(tracked.(points := tracked.points + earned), true, earned)
  }

  /**
   * `complete(user)`: refuse a second completion on the same day and a second claim of
   * a bonus habit in the same week, changing nothing; otherwise accept it.
   */
  function Complete(h: Habit, u: User, today: int, weekKey: string): (r: Completion)
    requires h.name in u.habitsCompleted ==> |u.habitsCompleted[h.name]| > 0
    ensures !r.accepted <==> Rejects(h, u, today, weekKey)
    ensures !r.accepted ==> r.user == u && r.earned == 0
    ensures r.accepted ==> r == Accept(h, u, today, weekKey)
    ensures HistoriesNonEmpty(u) ==> HistoriesNonEmpty(r.user)
  {
    if HasCompletedToday(u, h.name, today) then Completion(u, false, 0)
    else if h.isBonus && h.name in u.bonusClaimed && u.bonusClaimed[h.name] == weekKey then
      Completion(u, false, 0)
    else
      Accept(h, u, today, weekKey)
  }

  /** Completing a habit twice on the same day: the second attempt changes nothing. */
  lemma {:induction false} SecondCompletionSameDayRejected(h: Habit, u: User, today: int, weekKey: string, weekKey': string)
    requires h.name in u.habitsCompleted ==> |u.habitsCompleted[h.name]| > 0
    requires Complete(h, u, today, weekKey).accepted
    ensures var u' := Complete(h, u, today, weekKey).user;
            && h.name in u'.habitsCompleted && |u'.habitsCompleted[h.name]| > 0
            && Complete(h, u', today, weekKey') == Completion(u', false, 0)
  {
    var u' := Complete(h, u, today, weekKey).user;
    var before := if h.name in u.habitsCompleted then u.habitsCompleted[h.name] else [];
    assert u'.habitsCompleted[h.name] == before + [today];
    assert HasCompletedToday(u', h.name, today);
  }

  /** A bonus habit completed once in a week is refused on any later day of that week. */
  lemma {:induction false} BonusOncePerWeek(h: Habit, u: User, today: int, later: int, weekKey: string)
    requires h.isBonus && today != later
    requires h.name in u.habitsCompleted ==> |u.habitsCompleted[h.name]| > 0
    requires Complete(h, u, today, weekKey).accepted
    ensures var u' := Complete(h, u, today, weekKey).user;
            && h.name in u'.habitsCompleted && |u'.habitsCompleted[h.name]| > 0
            && Complete(h, u', later, weekKey) == Completion(u', false, 0)
  {
    var u' := Complete(h, u, today, weekKey).user;
    var before := if h.name in u.habitsCompleted then u.habitsCompleted[h.name] else [];
    assert u'.habitsCompleted[h.name] == before + [today];
  }

  /**
   * A completion one period after the last of an unbroken history, n completions in all:
   * the stored streak becomes n, `calculate_points` pays the base points plus 5 exactly
   * when n is a multiple of 7, and on top of that `update_streak` re-awards 5 for every
   * multiple of 7 up to n. On a multiple of 7 the newest milestone is thus paid twice.
   */
  lemma UnbrokenCompletionPays(h: Habit, u: User, today: int, weekKey: string)
    requires h.name in u.habitsCompleted ==>
               var c := u.habitsCompleted[h.name];
               && |c| > 0
               && (forall j :: 0 < j < |c| ==> Continues(h.periodicity, c[j] - c[j - 1]))
               && Continues(h.periodicity, today - c[|c| - 1])
    requires !(h.isBonus && h.name in u.bonusClaimed && u.bonusClaimed[h.name] == weekKey)
    ensures var n := if h.name in u.habitsCompleted then |u.habitsCompleted[h.name]| + 1 else 1;
            var r := Complete(h, u, today, weekKey);
            && r.accepted
            && r.user.streaks[h.name] == n
            && r.earned == h.points + (if n % MilestoneEvery == 0 then StreakBonus else 0)
            && r.user.points == u.points + StreakBonus * (n / MilestoneEvery) + r.earned
  {
    var before := if h.name in u.habitsCompleted then u.habitsCompleted[h.name] else [];
    UnbrokenExtended(before, today, h.periodicity);
  }

  /**
   * A newly constructed user completing a habit for the first time: it is accepted, the
   * history is that one day, the streak is 1, and the user gains exactly the base points.
   */
  lemma FirstCompletionOfNewUser(h: Habit, username: string, household: string, points: int, today: int, weekKey: string)
    ensures var u := NewUser(username, household, points);
            var r := Complete(h, u, today, weekKey);
            && r.accepted
            && r.user.habitsCompleted == map[h.name := [today]]
            && r.user.streaks == map[h.name := 1]
            && r.earned == h.points
            && r.user.points == points + h.points
  {
    var u := NewUser(username, household, points);
    var r := Complete(h, u, today, weekKey);
    assert [] + [today] == [today];
    assert r.user.streaks.Keys == {h.name};
  }
}
