/** Read-only queries over the tracker's list of habit records. */
module Analytics {
  import opened Common
  import Seqs

  /**
   * A habit record of the tracker's data. Name and periodicity are always written;
   * the other keys may be absent.
   */
  datatype TrackedHabit = TrackedHabit(
    name: string,
    periodicity: Periodicity,
    completions: Option<seq<string>>,
    streak: Option<int>,
    bonusPoints: Option<int>)

  /** `habit.get('streak', 0)`. */
  function StreakOf(h: TrackedHabit): int {
    h.streak.GetOr(0)
  }

  function HasPeriodicity(p: Periodicity): TrackedHabit -> bool {
    (h: TrackedHabit) => h.periodicity == p
  }

  /** `filter_by_periodicity`: the habits with that periodicity, in list order. */
  function FilterByPeriodicity(hs: seq<TrackedHabit>, p: Periodicity): (r: seq<TrackedHabit>)
    ensures |r| <= |hs|
    ensures forall i :: 0 <= i < |r| ==> r[i] in hs && r[i].periodicity == p
    ensures forall i :: 0 <= i < |hs| && hs[i].periodicity == p ==> hs[i] in r
  {
    Seqs.FilterMembers(hs, HasPeriodicity(p));
    Seqs.Filter(hs, HasPeriodicity(p))
  }

  /** The daily and the weekly habits together account for every habit exactly once. */
  lemma {:induction false} PeriodicitiesPartition(hs: seq<TrackedHabit>)
    ensures |FilterByPeriodicity(hs, Daily)| + |FilterByPeriodicity(hs, Weekly)| == |hs|
  {
    if |hs| > 0 {
      PeriodicitiesPartition(hs[1..]);
    }
  }

  /** Filtering keeps list order: the filter of a concatenation is the concatenation of filters. */
  lemma FilterKeepsOrder(a: seq<TrackedHabit>, b: seq<TrackedHabit>, p: Periodicity)
    ensures FilterByPeriodicity(a + b, p) == FilterByPeriodicity(a, p) + FilterByPeriodicity(b, p)
  {
    Seqs.FilterAppend(a, b, HasPeriodicity(p));
  }

  /** `longest_streak`: the first habit with the largest streak, or none for an empty list. */
  function LongestStreak(hs: seq<TrackedHabit>): (r: Option<TrackedHabit>)
    ensures r.None? <==> |hs| == 0
    ensures r.Some? ==> r.value in hs
    ensures r.Some? ==> forall i :: 0 <= i < |hs| ==> StreakOf(hs[i]) <= StreakOf(r.value)
    ensures r.Some? ==>
              exists k :: 0 <= k < |hs| && hs[k] == r.value && forall i :: 0 <= i < k ==> StreakOf(hs[i]) < StreakOf(r.value)
  {
    if |hs| == 0 then None
    else
      var k := Seqs.FirstMaxIndex(hs, StreakOf);
      Some(hs[k])
  }

  function NameIs(name: string): TrackedHabit -> bool {
    (h: TrackedHabit) => h.name == name
  }

  /** Position `k` holds the first record with this name. */
  predicate FirstNamedAt(hs: seq<TrackedHabit>, name: string, k: int) {
    && 0 <= k < |hs|
    && hs[k].name == name
    && forall i :: 0 <= i < k ==> hs[i].name != name
  }

  /** The first habit record with this name, as `next(...)` finds it. */
  function FindNamed(hs: seq<TrackedHabit>, name: string): (r: Option<TrackedHabit>)
    ensures r.None? <==> forall i :: 0 <= i < |hs| ==> hs[i].name != name
    ensures r.Some? ==> exists k :: FirstNamedAt(hs, name, k) && hs[k] == r.value
  {
    match Seqs.FirstIndex(hs, NameIs(name))
    case None =>
      assert forall i :: 0 <= i < |hs| ==> !NameIs(name)(hs[i]);
      None
    case Some(k) =>
      assert forall i :: 0 <= i < k ==> !NameIs(name)(hs[i]);
      assert FirstNamedAt(hs, name, k);
      Some(hs[k])
  }

  /** `longest_streak_for_habit`: the streak of the first habit with that name, else 0. */
  function LongestStreakForHabit(hs: seq<TrackedHabit>, name: string): (r: int)
    ensures (forall i :: 0 <= i < |hs| ==> hs[i].name != name) ==> r == 0
    ensures forall k :: FirstNamedAt(hs, name, k) ==> r == StreakOf(hs[k])
  {
    match FindNamed(hs, name)
    case None => 0
    case Some(h) => StreakOf(h)
  }

  /** Whether the record lists the user among its completions. */
  predicate CompletedBy(h: TrackedHabit, username: string) {
    h.completions.Some? && username in h.completions.value
  }

  /** Names of the records that list the user among their completions. */
  function CompletedNames(hs: seq<TrackedHabit>, username: string): set<string> {
    set j | 0 <= j < |hs| && CompletedBy(hs[j], username) :: hs[j].name
  }

  function CompletedByTest(username: string): TrackedHabit -> bool {
    (h: TrackedHabit) => CompletedBy(h, username)
  }

  /** The names of the records, in order. */
  function Names(hs: seq<TrackedHabit>): (r: seq<string>)
    ensures |r| == |hs|
    ensures forall i :: 0 <= i < |hs| ==> r[i] == hs[i].name
  {
    seq(|hs|, i requires 0 <= i < |hs| => hs[i].name)
  }

  /** `habits_completed_by_user`: names of the habits the user completed, in list order. */
  function HabitsCompletedByUser(hs: seq<TrackedHabit>, username: string): (r: seq<string>)
    ensures |r| <= |hs|
    ensures forall i :: 0 <= i < |r| ==> r[i] in CompletedNames(hs, username)
  {
    var kept := Seqs.Filter(hs, CompletedByTest(username));
    Seqs.FilterMembers(hs, CompletedByTest(username));
    assert forall i :: 0 <= i < |kept| ==> Names(kept)[i] in CompletedNames(hs, username) by {
      forall i | 0 <= i < |kept| ensures Names(kept)[i] in CompletedNames(hs, username) {
        var j :| 0 <= j < |hs| && hs[j] == kept[i];
        assert CompletedByTest(username)(kept[i]);
      }
    }
    Names(kept)
  }

  /** A name is listed exactly when some habit of that name records a completion by the user. */
  lemma HabitsCompletedByUserMembers(hs: seq<TrackedHabit>, username: string)
    ensures forall n :: n in HabitsCompletedByUser(hs, username) <==> n in CompletedNames(hs, username)
  {
    var kept := Seqs.Filter(hs, CompletedByTest(username));
    Seqs.FilterMembers(hs, CompletedByTest(username));
    forall n | n in CompletedNames(hs, username) ensures n in HabitsCompletedByUser(hs, username) {
      var j :| 0 <= j < |hs| && CompletedBy(hs[j], username) && hs[j].name == n;
      assert CompletedByTest(username)(hs[j]);
      var i :| 0 <= i < |kept| && kept[i] == hs[j];
      assert Names(kept)[i] == n;
    }
  }

  /** The names of a concatenation are the names of each part. */
  lemma NamesAppend(a: seq<TrackedHabit>, b: seq<TrackedHabit>)
    ensures Names(a + b) == Names(a) + Names(b)
  {
  }

  /** The user's completed habits over a concatenation: those of each part, in order. */
  lemma CompletedByUserAppend(a: seq<TrackedHabit>, b: seq<TrackedHabit>, username: string)
    ensures HabitsCompletedByUser(a + b, username)
         == HabitsCompletedByUser(a, username) + HabitsCompletedByUser(b, username)
  {
    var p := CompletedByTest(username);
    Seqs.FilterAppend(a, b, p);
    NamesAppend(Seqs.Filter(a, p), Seqs.Filter(b, p));
  }

  /** The record `habit_statistics` returns, with absent keys defaulted. */
  datatype Statistics = Statistics(
    name: string,
    periodicity: Periodicity,
    completions: seq<string>,
    streak: int,
    bonusPoints: int)

  /** `habit_statistics`: the first record with that name, absent keys defaulted, or none. */
  function HabitStatistics(hs: seq<TrackedHabit>, name: string): (r: Option<Statistics>)
    ensures r.None? <==> forall i :: 0 <= i < |hs| ==> hs[i].name != name
    ensures forall k :: FirstNamedAt(hs, name, k) ==>
              r == Some(Statistics(name, hs[k].periodicity, hs[k].completions.GetOr([]),
                                   hs[k].streak.GetOr(0), hs[k].bonusPoints.GetOr(0)))
  {
    match FindNamed(hs, name)
    case None => None
    case Some(h) =>
      Some(Statistics(h.name, h.periodicity, h.completions.GetOr([]), h.streak.GetOr(0), h.bonusPoints.GetOr(0)))
  }
}
