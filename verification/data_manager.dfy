/**
 * The document engine: every operation loads the whole document, changes it and saves it
 * back, so each is modelled as a pure function from the document before to the document
 * after, with the clock and the period keys passed in.
 */
module DataManager {
  import opened Common
  import Dicts
  import Habits
  import Leaderboard
  import Seqs

  /** Timestamps are integers in microseconds, the resolution of a `timedelta`. */
  const TicksPerDay := 86_400_000_000

  /** A household as stored: its member list and each member's points. */
  datatype HouseholdRecord = HouseholdRecord(members: seq<string>, points: map<string, int>)

  /** The persisted document, `data.json`. */
  datatype Doc = Doc(
    households: Dicts.Dict<string, HouseholdRecord>,
    habits: seq<Habits.HabitDict>,
    bonusHabits: seq<Habits.HabitDict>,
    streaks: map<string, map<string, int>>,
    completedHabits: map<string, map<string, string>>,
    board: Leaderboard.Board)

  /** The document `load_data` falls back to when there is none. */
  const DefaultDoc: Doc := Doc(Dicts.Empty(), [], [], map[], map[], Leaderboard.EmptyBoard)

  /** The document after an operation, and whether the operation went through. */
  datatype Step = Step(doc: Doc, ok: bool)

  /** Every member of the household has a points entry. */
  ghost predicate MembersScored(hr: HouseholdRecord) {
    forall u :: u in hr.members ==> u in hr.points
  }

  /**
   * What the operations keep true of every document they produce: the households form a
   * dictionary, every member has a points entry, and the rankings are sorted.
   */
  ghost predicate DocOk(doc: Doc) {
    HouseholdsOk(doc.households) && Leaderboard.BoardOk(doc.board)
  }

  ghost predicate HouseholdsOk(hs: Dicts.Dict<string, HouseholdRecord>) {
    Dicts.Valid(hs) && forall h :: h in hs.values ==> MembersScored(hs.values[h])
  }

  lemma DefaultDocOk()
    ensures DocOk(DefaultDoc)
  {
    Dicts.EmptyValid<string, HouseholdRecord>();
  }

  /** The members of a household, or none when it does not exist. */
  function MembersOf(doc: Doc, household: string): Option<seq<string>> {
    if household in doc.households.values then Some(doc.households.values[household].members) else None
  }

  /** `data["households"][household]["points"].get(username)`. */
  function PointsOf(doc: Doc, household: string, username: string): Option<int> {
    if household in doc.households.values && username in doc.households.values[household].points
    then Some(doc.households.values[household].points[username])
    else None
  }

  /** Storing a record whose members all have points keeps the households well kept. */
  lemma PutKeepsHouseholdsOk(hs: Dicts.Dict<string, HouseholdRecord>, household: string, hr: HouseholdRecord)
    requires HouseholdsOk(hs) && MembersScored(hr)
    ensures HouseholdsOk(Dicts.Put(hs, household, hr))
  {
    Dicts.PutValid(hs, household, hr);
  }

  /** The user's points in the household once `amount` is added. */
  function Credited(hs: Dicts.Dict<string, HouseholdRecord>, household: string, username: string, amount: int): int
    requires household in hs.values && username in hs.values[household].points
  {
    hs.values[household].points[username] + amount
  }

  /** `data["households"][household]["points"][username] += amount`. */
  function Credit(hs: Dicts.Dict<string, HouseholdRecord>, household: string, username: string, amount: int)
    : Dicts.Dict<string, HouseholdRecord>
    requires household in hs.values && username in hs.values[household].points
  {
    var hr := hs.values[household];
    Dicts.Put(hs, household, hr.(points := hr.points[username := Credited(hs, household, username, amount)]))
  }

  /**
   * Crediting adds `amount` to the user's entry in the household, and changes no other
   * points entry, no member list and no household order.
   */
  lemma CreditEffect(doc: Doc, after: Doc, household: string, username: string, amount: int)
    requires household in doc.households.values && username in doc.households.values[household].points
    requires after.households == Credit(doc.households, household, username, amount)
    ensures PointsOf(doc, household, username).Some?
    ensures PointsOf(after, household, username) == Some(PointsOf(doc, household, username).value + amount)
    ensures forall h, u :: (h, u) != (household, username) ==> PointsOf(after, h, u) == PointsOf(doc, h, u)
    ensures forall h :: MembersOf(after, h) == MembersOf(doc, h)
    ensures after.households.keys == doc.households.keys
  {
  }

  lemma CreditKeepsHouseholdsOk(hs: Dicts.Dict<string, HouseholdRecord>, household: string, username: string, amount: int)
    requires HouseholdsOk(hs)
    requires household in hs.values && username in hs.values[household].points
    ensures HouseholdsOk(Credit(hs, household, username, amount))
  {
    var hr := hs.values[household];
    assert MembersScored(hr);
    PutKeepsHouseholdsOk(hs, household, hr.(points := hr.points[username := Credited(hs, household, username, amount)]));
  }

  // ---------------------------------------------------------------- create_household

  /** `create_household`: add an empty household unless the name is taken. */
  function CreateHousehold(doc: Doc, name: string): (r: Step)
    ensures r.ok <==> name !in doc.households.values
    ensures !r.ok ==> r.doc == doc
    ensures r.ok ==>
              && r.doc.households.keys == doc.households.keys + [name]
              && Dicts.Get(r.doc.households, name) == Some(HouseholdRecord([], map[]))
              && (forall h :: h != name ==> Dicts.Get(r.doc.households, h) == Dicts.Get(doc.households, h))
              && r.doc.(households := doc.households) == doc
  {
    if name in doc.households.values then Step(doc, false)
    else Step(doc.(households := Dicts.Put(doc.households, name, HouseholdRecord([], map[]))), true)
  }

  lemma CreateHouseholdKeepsDocOk(doc: Doc, name: string)
    requires DocOk(doc)
    ensures DocOk(CreateHousehold(doc, name).doc)
  {
    PutKeepsHouseholdsOk(doc.households, name, HouseholdRecord([], map[]));
  }

  // ---------------------------------------------------------------- save_user

  /**
   * `save_user`: add the user to an existing household with 0 points, and give the user
   * an empty streak map if there is none yet.
   */
  function SaveUser(doc: Doc, username: string, household: string): (r: Step)
    ensures r.ok <==> MembersOf(doc, household).Some? && username !in MembersOf(doc, household).value
    ensures !r.ok ==> r.doc == doc
    ensures r.ok ==>
              var before := doc.households.values[household];
              && Dicts.Get(r.doc.households, household)
                   == Some(HouseholdRecord(before.members + [username], before.points[username := 0]))
              && r.doc.households.keys == doc.households.keys
              && (forall h :: h != household ==> Dicts.Get(r.doc.households, h) == Dicts.Get(doc.households, h))
              && r.doc.streaks.Keys == doc.streaks.Keys + {username}
              && (forall u :: u in doc.streaks ==> r.doc.streaks[u] == doc.streaks[u])
              && r.doc.streaks[username] == StreaksOfUser(doc, username)
              && r.doc.(households := doc.households, streaks := doc.streaks) == doc
  {
    if household !in doc.households.values then Step(doc, false)
    else
      var hr := doc.households.values[household];
      if username in hr.members then Step(doc, false)
      else
        var hr' := HouseholdRecord(hr.members + [username], hr.points[username := 0]);
        var streaks := if username in doc.streaks then doc.streaks else doc.streaks[username := map[]];
        Step(doc.(households := Dicts.Put(doc.households, household, hr'), streaks := streaks), true)
  }

  lemma SaveUserKeepsDocOk(doc: Doc, username: string, household: string)
    requires DocOk(doc)
    ensures DocOk(SaveUser(doc, username, household).doc)
  {
    if SaveUser(doc, username, household).ok {
      var hr := doc.households.values[household];
      PutKeepsHouseholdsOk(doc.households, household, HouseholdRecord(hr.members + [username], hr.points[username := 0]));
      assert SaveUser(doc, username, household).doc.board == doc.board;
    }
  }

  // ---------------------------------------------------------------- habits

  /** Some habit of the list has this name: `any(h["name"] == name for h in hs)`. */
  ghost predicate Named(hs: seq<Habits.HabitDict>, name: string) {
    exists i :: 0 <= i < |hs| && hs[i].name == name
  }

  function HabitNamed(name: string): Habits.HabitDict -> bool {
    (h: Habits.HabitDict) => h.name == name
  }

  /** The first habit of the list with this name: `next((h for h in hs if ...), None)`. */
  function FindHabit(hs: seq<Habits.HabitDict>, name: string): (r: Option<Habits.HabitDict>)
    ensures r.None? <==> !Named(hs, name)
    ensures r.Some? ==> r.value in hs && r.value.name == name
  {
    match Seqs.FirstIndex(hs, HabitNamed(name))
    case None =>
      assert forall i :: 0 <= i < |hs| ==> !HabitNamed(name)(hs[i]);
      None
    case Some(k) =>
      assert HabitNamed(name)(hs[k]);
      Some(hs[k])
  }

  /** The habit found is the first with the name. */
  lemma FindHabitFirst(hs: seq<Habits.HabitDict>, name: string)
    requires FindHabit(hs, name).Some?
    ensures exists k :: 0 <= k < |hs| && hs[k] == FindHabit(hs, name).value
              && forall i :: 0 <= i < k ==> hs[i].name != name
  {
    var k := Seqs.FirstIndex(hs, HabitNamed(name)).value;
    assert forall i :: 0 <= i < k ==> !HabitNamed(name)(hs[i]);
  }

  /**
   * `save_habit`: append the habit to the bonus list when it is a bonus habit and to the
   * regular list otherwise. Only the regular list is searched for a duplicate name.
   */
  function SaveHabit(doc: Doc, habit: Habits.Habit): (r: Step)
    ensures r.ok <==> !Named(doc.habits, habit.name)
    ensures !r.ok ==> r.doc == doc
    ensures r.ok && habit.isBonus ==> r.doc == doc.(bonusHabits := doc.bonusHabits + [Habits.ToDict(habit)])
    ensures r.ok && !habit.isBonus ==> r.doc == doc.(habits := doc.habits + [Habits.ToDict(habit)])
  {
    if FindHabit(doc.habits, habit.name).Some? then Step(doc, false)
    else if habit.isBonus then Step(doc.(bonusHabits := doc.bonusHabits + [Habits.ToDict(habit)]), true)
    else Step(doc.(habits := doc.habits + [Habits.ToDict(habit)]), true)
  }

  /**
   * `save_bonus_habit`: append to the bonus list unless a bonus habit has that name. The
   * habit's own bonus flag is not looked at.
   */
  function SaveBonusHabit(doc: Doc, habit: Habits.Habit): (r: Step)
    ensures r.ok <==> !Named(doc.bonusHabits, habit.name)
    ensures !r.ok ==> r.doc == doc
    ensures r.ok ==> r.doc == doc.(bonusHabits := doc.bonusHabits + [Habits.ToDict(habit)])
  {
    if FindHabit(doc.bonusHabits, habit.name).Some? then Step(doc, false)
    else Step(doc.(bonusHabits := doc.bonusHabits + [Habits.ToDict(habit)]), true)
  }

  /** Saving a habit touches neither the households nor the leaderboard. */
  lemma SaveHabitKeepsDocOk(doc: Doc, habit: Habits.Habit)
    requires DocOk(doc)
    ensures DocOk(SaveHabit(doc, habit).doc) && DocOk(SaveBonusHabit(doc, habit).doc)
  {
  }

  /** `load_habits`: the regular habits followed by the bonus habits. */
  function LoadHabits(doc: Doc): (r: seq<Habits.HabitDict>)
    ensures |r| == |doc.habits| + |doc.bonusHabits|
    ensures r[..|doc.habits|] == doc.habits && r[|doc.habits|..] == doc.bonusHabits
  {
    doc.habits + doc.bonusHabits
  }

  /** `get_habit`: the first regular habit with the name, else the first bonus habit with it. */
  function GetHabit(doc: Doc, name: string): (r: Option<Habits.HabitDict>)
    ensures r.Some? <==> Named(doc.habits, name) || Named(doc.bonusHabits, name)
    ensures r.Some? ==> r.value.name == name && r.value in LoadHabits(doc)
    ensures Named(doc.habits, name) ==> r == FindHabit(doc.habits, name)
    ensures !Named(doc.habits, name) ==> r == FindHabit(doc.bonusHabits, name)
  {
    match FindHabit(doc.habits, name)
    case Some(h) => Some(h)
    case None => FindHabit(doc.bonusHabits, name)
  }

  /** A habit saved by `save_habit` is listed by `load_habits`, once more than before. */
  lemma SavedHabitIsLoaded(doc: Doc, habit: Habits.Habit)
    requires SaveHabit(doc, habit).ok
    ensures multiset(LoadHabits(SaveHabit(doc, habit).doc)) == multiset(LoadHabits(doc)) + multiset{Habits.ToDict(habit)}
  {
    var d := Habits.ToDict(habit);
    if habit.isBonus {
      assert LoadHabits(SaveHabit(doc, habit).doc) == LoadHabits(doc) + [d];
    } else {
      assert LoadHabits(SaveHabit(doc, habit).doc) == doc.habits + [d] + doc.bonusHabits;
    }
  }

  /** A habit saved by `save_habit` is found by `get_habit`; a regular one exactly as saved. */
  lemma SavedHabitIsFound(doc: Doc, habit: Habits.Habit)
    requires SaveHabit(doc, habit).ok
    ensures GetHabit(SaveHabit(doc, habit).doc, habit.name).Some?
    ensures !habit.isBonus ==> GetHabit(SaveHabit(doc, habit).doc, habit.name) == Some(Habits.ToDict(habit))
  {
    var after := SaveHabit(doc, habit).doc;
    var d := Habits.ToDict(habit);
    if habit.isBonus {
      assert after.bonusHabits[|doc.bonusHabits|] == d;
    } else {
      assert after.habits[|doc.habits|] == d;
      FindHabitFirst(after.habits, habit.name);
    }
  }

  /** `reset_habits`: forget the last completion time of every habit. */
  function ResetHabits(doc: Doc): (r: Doc)
    ensures NoTimestamps(r)
    ensures |r.habits| == |doc.habits| && |r.bonusHabits| == |doc.bonusHabits|
    ensures forall i :: 0 <= i < |doc.habits| ==> r.habits[i].(lastCompletedAt := None) == doc.habits[i].(lastCompletedAt := None)
    ensures forall i :: 0 <= i < |doc.bonusHabits| ==>
              r.bonusHabits[i].(lastCompletedAt := None) == doc.bonusHabits[i].(lastCompletedAt := None)
    ensures r.(habits := doc.habits, bonusHabits := doc.bonusHabits) == doc
  {
    doc.(habits := ClearTimestamps(doc.habits), bonusHabits := ClearTimestamps(doc.bonusHabits))
  }

  function ClearTimestamps(hs: seq<Habits.HabitDict>): (r: seq<Habits.HabitDict>)
    ensures |r| == |hs|
    ensures forall i :: 0 <= i < |hs| ==> r[i] == hs[i].(lastCompletedAt := None)
  {
    seq(|hs|, i requires 0 <= i < |hs| => hs[i].(lastCompletedAt := None))
  }

  /** No habit carries a last completion time. */
  ghost predicate NoTimestamps(doc: Doc) {
    && (forall i :: 0 <= i < |doc.habits| ==> doc.habits[i].lastCompletedAt.None?)
    && (forall i :: 0 <= i < |doc.bonusHabits| ==> doc.bonusHabits[i].lastCompletedAt.None?)
  }

  // ---------------------------------------------------------------- the user's household

  /** Household `name` exists and lists the user as a member. */
  predicate Lists(doc: Doc, name: string, username: string) {
    name in doc.households.values && username in doc.households.values[name].members
  }

  /** The first household from position `i` on, in dictionary order, that lists the user. */
  function HouseholdFrom(doc: Doc, username: string, i: nat): (r: Option<string>)
    requires i <= |doc.households.keys|
    ensures r.None? <==> forall j :: i <= j < |doc.households.keys| ==> !Lists(doc, doc.households.keys[j], username)
    ensures r.Some? ==>
              exists j :: i <= j < |doc.households.keys| && doc.households.keys[j] == r.value
                && Lists(doc, r.value, username)
                && forall l :: i <= l < j ==> !Lists(doc, doc.households.keys[l], username)
    decreases |doc.households.keys| - i
  {
    if i == |doc.households.keys| then None
    else if Lists(doc, doc.households.keys[i], username) then Some(doc.households.keys[i])
    else HouseholdFrom(doc, username, i + 1)
  }

  /**
   * The household `complete_habit` and `claim_bonus_habit` find for the user: the first,
   * in dictionary order, whose member list holds the user.
   */
  function HouseholdOf(doc: Doc, username: string): Option<string> {
    HouseholdFrom(doc, username, 0)
  }

  /**
   * The user belongs to a household the engine accepts. The source tests the household
   * name for truth, so a household named "" counts as none.
   */
  predicate Resolved(doc: Doc, username: string) {
    HouseholdOf(doc, username).Some? && HouseholdOf(doc, username).value != ""
  }

  /**
   * The source adds to the user's points entry in their household without checking that
   * it exists, and fails when it does not. Callers must not reach that case.
   */
  predicate PointsDefined(doc: Doc, username: string) {
    Resolved(doc, username) ==>
      var hh := HouseholdOf(doc, username).value;
      hh in doc.households.values && username in doc.households.values[hh].points
  }

  /** In a well-kept document the user's household scores the user. */
  lemma ResolvedHasPoints(doc: Doc, username: string)
    requires DocOk(doc)
    ensures PointsDefined(doc, username)
  {
    if HouseholdOf(doc, username).Some? {
      var hh := HouseholdOf(doc, username).value;
      assert MembersScored(doc.households.values[hh]);
    }
  }

  /** Which household is found at or after position `i` depends only on the names and member lists. */
  lemma {:induction false} HouseholdFromDependsOnMembers(a: Doc, b: Doc, username: string, i: nat)
    requires a.households.keys == b.households.keys && i <= |a.households.keys|
    requires forall h :: MembersOf(a, h) == MembersOf(b, h)
    ensures HouseholdFrom(a, username, i) == HouseholdFrom(b, username, i)
    decreases |a.households.keys| - i
  {
    if i < |a.households.keys| {
      var h := a.households.keys[i];
      assert MembersOf(a, h) == MembersOf(b, h);
      assert Lists(a, h, username) == Lists(b, h, username);
      HouseholdFromDependsOnMembers(a, b, username, i + 1);
    }
  }

  /** Which household a user resolves to depends only on the names and member lists. */
  lemma HouseholdOfDependsOnMembers(a: Doc, b: Doc, username: string)
    requires a.households.keys == b.households.keys
    requires forall h :: MembersOf(a, h) == MembersOf(b, h)
    ensures HouseholdOf(a, username) == HouseholdOf(b, username)
  {
    HouseholdFromDependsOnMembers(a, b, username, 0);
  }

  // ---------------------------------------------------------------- complete_habit

  /** The reset threshold in ticks: one day for a daily habit, seven for a weekly one. */
  function Threshold(p: Periodicity): int {
    ThresholdDays(p) * TicksPerDay
  }

  /** Whether `complete_habit` increments the stored streak rather than setting it to 1. */
  predicate Increments(habit: Habits.HabitDict, now: int) {
    habit.lastCompletedAt.Some? && now - habit.lastCompletedAt.value <= Threshold(habit.periodicity)
  }

  /** The user's streak map, empty when there is none yet. */
  function StreaksOfUser(doc: Doc, username: string): map<string, int> {
    if username in doc.streaks then doc.streaks[username] else map[]
  }

  /** The user's streak for the habit, if one is stored. */
  function StreakOf(doc: Doc, username: string, habitName: string): Option<int> {
    if habitName in StreaksOfUser(doc, username) then Some(StreaksOfUser(doc, username)[habitName]) else None
  }

  /**
   * The source increments the stored streak without checking that it exists, and fails
   * when it does not. Callers must not reach that case.
   */
  predicate IncrementDefined(doc: Doc, username: string, habitName: string, now: int) {
    match FindHabit(doc.habits, habitName)
    case None => true
    case Some(habit) =>
      Resolved(doc, username) && Increments(habit, now) ==> habitName in StreaksOfUser(doc, username)
  }

  /** The streak a completion stores: the reset rule of `complete_habit`. */
  function NextStreak(doc: Doc, username: string, habit: Habits.HabitDict, now: int): int
    requires Increments(habit, now) ==> habit.name in StreaksOfUser(doc, username)
  {
    if habit.lastCompletedAt.None? then 1
    else if now - habit.lastCompletedAt.value > Threshold(habit.periodicity) then 1
    else StreaksOfUser(doc, username)[habit.name] + 1
  }

  /**
   * The document after `username`, a member of household `hh`, completes `habit` at
   * `now`: the new streak is stored, the habit's base points are added to the user's
   * entry, and the leaderboard is refreshed with the new total.
   */
  function CompletedDoc(doc: Doc, username: string, hh: string, habit: Habits.HabitDict, now: int): Doc
    requires hh in doc.households.values && username in doc.households.values[hh].points
    requires Increments(habit, now) ==> habit.name in StreaksOfUser(doc, username)
  {
    doc.(households := Credit(doc.households, hh, username, habit.points),
         streaks := doc.streaks[username := StreaksOfUser(doc, username)[habit.name := NextStreak(doc, username, habit, now)]],
         board := Leaderboard.Update(doc.board, hh, username, Credited(doc.households, hh, username, habit.points)))
  }

  /**
   * `complete_habit(username, habit_name)` at time `now`: find the regular habit and the
   * user's household, update the streak against the reset threshold, add the habit's
   * base points to the user's household points, and refresh the leaderboard. The streak
   * bonus is only reported, never added, and a second completion on the same day is
   * not refused.
   */
  function CompleteHabit(doc: Doc, username: string, habitName: string, now: int): (r: Step)
    requires IncrementDefined(doc, username, habitName, now) && PointsDefined(doc, username)
    ensures r.ok <==> Named(doc.habits, habitName) && Resolved(doc, username)
    ensures !r.ok ==> r.doc == doc
    ensures r.ok ==>
              r.doc == CompletedDoc(doc, username, HouseholdOf(doc, username).value, FindHabit(doc.habits, habitName).value, now)
  {
    match FindHabit(doc.habits, habitName)
    case None => Step(doc, false)
    case Some(habit) =>
      if !Resolved(doc, username) then Step(doc, false)
      else Step(CompletedDoc(doc, username, HouseholdOf(doc, username).value, habit, now), true)
  }

  /** Storing one streak changes that streak and no other. */
  lemma StreakStored(doc: Doc, after: Doc, username: string, habitName: string, v: int)
    requires after.streaks == doc.streaks[username := StreaksOfUser(doc, username)[habitName := v]]
    ensures StreakOf(after, username, habitName) == Some(v)
    ensures forall u, n :: (u, n) != (username, habitName) ==> StreakOf(after, u, n) == StreakOf(doc, u, n)
  {
  }

  /**
   * The streak a completion stores: 1 without a last completion time or when more than
   * the threshold has elapsed since it, else one more than the stored streak. No other
   * streak changes.
   */
  lemma CompletedDocStreak(doc: Doc, username: string, hh: string, habit: Habits.HabitDict, now: int)
    requires hh in doc.households.values && username in doc.households.values[hh].points
    requires Increments(habit, now) ==> habit.name in StreaksOfUser(doc, username)
    ensures var streak := StreakOf(CompletedDoc(doc, username, hh, habit, now), username, habit.name);
            && (habit.lastCompletedAt.None? ==> streak == Some(1))
            && ((habit.lastCompletedAt.Some? && now - habit.lastCompletedAt.value > Threshold(habit.periodicity))
                  ==> streak == Some(1))
            && (Increments(habit, now) ==> streak == Some(StreakOf(doc, username, habit.name).value + 1))
    ensures forall u, n :: (u, n) != (username, habit.name) ==>
              StreakOf(CompletedDoc(doc, username, hh, habit, now), u, n) == StreakOf(doc, u, n)
  {
    StreakStored(doc, CompletedDoc(doc, username, hh, habit, now), username, habit.name, NextStreak(doc, username, habit, now));
  }

  /**
   * A completion adds exactly the habit's base points to the user's entry in the
   * household and changes no other points entry, no member list and no household order.
   */
  lemma CompletedDocPoints(doc: Doc, username: string, hh: string, habit: Habits.HabitDict, now: int)
    requires hh in doc.households.values && username in doc.households.values[hh].points
    requires Increments(habit, now) ==> habit.name in StreaksOfUser(doc, username)
    ensures var after := CompletedDoc(doc, username, hh, habit, now);
            && PointsOf(after, hh, username) == Some(doc.households.values[hh].points[username] + habit.points)
            && (forall h, u :: (h, u) != (hh, username) ==> PointsOf(after, h, u) == PointsOf(doc, h, u))
            && (forall h :: MembersOf(after, h) == MembersOf(doc, h))
            && after.households.keys == doc.households.keys
  {
    CreditEffect(doc, CompletedDoc(doc, username, hh, habit, now), hh, username, habit.points);
  }

  /**
   * After a completion the household's sorted ranking shows the user's new total, the
   * household's other ranked users keep their points, other households' rankings are as
   * they were, and so are the habit lists, the claims and the past-rankings log.
   */
  lemma CompletedDocLeaderboard(doc: Doc, username: string, hh: string, habit: Habits.HabitDict, now: int)
    requires hh in doc.households.values && username in doc.households.values[hh].points
    requires Increments(habit, now) ==> habit.name in StreaksOfUser(doc, username)
    ensures var after := CompletedDoc(doc, username, hh, habit, now);
            && Dicts.Get(Leaderboard.GetSortedRankings(after.board, hh), username) == PointsOf(after, hh, username)
            && (forall u :: u != username ==>
                  Dicts.Get(Leaderboard.RankingOf(after.board, hh), u) == Dicts.Get(Leaderboard.RankingOf(doc.board, hh), u))
            && (forall h :: h != hh ==> Dicts.Get(after.board.rankings, h) == Dicts.Get(doc.board.rankings, h))
            && after.board.pastRankings == doc.board.pastRankings
            && after.habits == doc.habits && after.bonusHabits == doc.bonusHabits
            && after.completedHabits == doc.completedHabits
  {
    var total := Credited(doc.households, hh, username, habit.points);
    CreditEffect(doc, CompletedDoc(doc, username, hh, habit, now), hh, username, habit.points);
    Leaderboard.UpdateEffect(doc.board, hh, username, total);
    Leaderboard.UpdateShowsPoints(doc.board, hh, username, total);
  }

  /** Storing a completion keeps the document well kept. */
  lemma CompletedDocOk(doc: Doc, username: string, hh: string, habit: Habits.HabitDict, now: int)
    requires DocOk(doc)
    requires hh in doc.households.values && username in doc.households.values[hh].points
    requires Increments(habit, now) ==> habit.name in StreaksOfUser(doc, username)
    ensures DocOk(CompletedDoc(doc, username, hh, habit, now))
  {
    CreditKeepsHouseholdsOk(doc.households, hh, username, habit.points);
    Leaderboard.UpdateKeepsBoardOk(doc.board, hh, username, Credited(doc.households, hh, username, habit.points));
  }

  /** On a well-kept document a completion is defined and keeps the document well kept. */
  lemma CompleteHabitKeepsDocOk(doc: Doc, username: string, habitName: string, now: int)
    requires DocOk(doc) && IncrementDefined(doc, username, habitName, now)
    ensures PointsDefined(doc, username)
    ensures DocOk(CompleteHabit(doc, username, habitName, now).doc)
  {
    ResolvedHasPoints(doc, username);
    if CompleteHabit(doc, username, habitName, now).ok {
      CompletedDocOk(doc, username, HouseholdOf(doc, username).value, FindHabit(doc.habits, habitName).value, now);
    }
  }

  /** Without completion times no completion increments a streak, so none can fail on a missing one. */
  lemma WithoutTimestampIncrementDefined(doc: Doc, username: string, habitName: string, now: int)
    requires NoTimestamps(doc)
    ensures IncrementDefined(doc, username, habitName, now)
  {
    var h := FindHabit(doc.habits, habitName);
    if h.Some? {
      var k :| 0 <= k < |doc.habits| && doc.habits[k] == h.value;
    }
  }

  /**
   * Nothing writes a last completion time, so on a document without one every
   * completion sets the streak to 1 and leaves the document without one.
   */
  lemma CompletionWithoutTimestampStartsOver(doc: Doc, username: string, habitName: string, now: int)
    requires NoTimestamps(doc) && PointsDefined(doc, username)
    ensures IncrementDefined(doc, username, habitName, now)
    ensures var r := CompleteHabit(doc, username, habitName, now);
            && NoTimestamps(r.doc)
            && (r.ok ==> StreakOf(r.doc, username, habitName) == Some(1))
  {
    var h := FindHabit(doc.habits, habitName);
    if h.Some? {
      var k :| 0 <= k < |doc.habits| && doc.habits[k] == h.value;
      assert h.value.lastCompletedAt.None?;
      if Resolved(doc, username) {
        CompletedDocStreak(doc, username, HouseholdOf(doc, username).value, h.value, now);
      }
    }
  }

  /** After `reset_habits`, the next completion of any habit starts its streak at 1. */
  lemma CompletionAfterResetStartsOver(doc: Doc, username: string, habitName: string, now: int)
    requires PointsDefined(doc, username)
    ensures PointsDefined(ResetHabits(doc), username) && IncrementDefined(ResetHabits(doc), username, habitName, now)
    ensures var r := CompleteHabit(ResetHabits(doc), username, habitName, now);
            r.ok ==> StreakOf(r.doc, username, habitName) == Some(1)
  {
    CompletionWithoutTimestampStartsOver(ResetHabits(doc), username, habitName, now);
  }

  /**
   * `complete_habit` does not refuse a repeat: after a completion on a document without
   * completion times, the same completion is accepted again, finds the same habit and the
   * same household, and so pays the base points again.
   */
  lemma CompletionRepeats(doc: Doc, username: string, habitName: string, now: int)
    requires NoTimestamps(doc) && PointsDefined(doc, username)
    requires Named(doc.habits, habitName) && Resolved(doc, username)
    ensures IncrementDefined(doc, username, habitName, now)
    ensures var after := CompleteHabit(doc, username, habitName, now).doc;
            && NoTimestamps(after) && PointsDefined(after, username)
            && Named(after.habits, habitName) && FindHabit(after.habits, habitName) == FindHabit(doc.habits, habitName)
            && HouseholdOf(after, username) == HouseholdOf(doc, username)
  {
    CompletionWithoutTimestampStartsOver(doc, username, habitName, now);
    var hh := HouseholdOf(doc, username).value;
    var habit := FindHabit(doc.habits, habitName).value;
    var after := CompleteHabit(doc, username, habitName, now).doc;
    CompletedDocPoints(doc, username, hh, habit, now);
    assert after.habits == doc.habits;
    HouseholdOfDependsOnMembers(doc, after, username);
  }

  // ---------------------------------------------------------------- claim_bonus_habit

  /** The period a claim of the habit falls in: the day key for a daily habit, else the week key. */
  function Period(habit: Habits.HabitDict, dayKey: string, weekKey: string): string {
    if habit.periodicity == Daily then dayKey else weekKey
  }

  /** The claims recorded for a period: bonus habit name to the user who claimed it. */
  function ClaimsOf(doc: Doc, period: string): map<string, string> {
    if period in doc.completedHabits then doc.completedHabits[period] else map[]
  }

  /**
   * The document after `username`, a member of household `hh`, claims bonus `habit` in
   * `period`: the claim is recorded, the habit's points are added to the user's entry, and
   * the leaderboard is refreshed with the new total.
   */
  function ClaimedDoc(doc: Doc, username: string, hh: string, habit: Habits.HabitDict, period: string): Doc
    requires hh in doc.households.values && username in doc.households.values[hh].points
  {
    doc.(households := Credit(doc.households, hh, username, habit.points),
         completedHabits := doc.completedHabits[period := ClaimsOf(doc, period)[habit.name := username]],
         board := Leaderboard.Update(doc.board, hh, username, Credited(doc.households, hh, username, habit.points)))
  }

  /** The bonus habit a claim finds: the first of the bonus list with the name, if it carries the bonus flag. */
  function ClaimableHabit(doc: Doc, habitName: string): Option<Habits.HabitDict> {
    match FindHabit(doc.bonusHabits, habitName)
    case None => None
    case Some(habit) => if habit.isBonus then Some(habit) else None
  }

  /**
   * `claim_bonus_habit(username, habit_name)` on the day `dayKey` of week `weekKey`: find
   * the user's household and the bonus habit, and refuse a habit some user has already
   * claimed in the current period; otherwise record the claim, add the habit's points to
   * the user's household points and refresh the leaderboard.
   */
  function ClaimBonusHabit(doc: Doc, username: string, habitName: string, dayKey: string, weekKey: string): (r: Step)
    requires PointsDefined(doc, username)
    ensures r.ok <==>
              && Resolved(doc, username)
              && ClaimableHabit(doc, habitName).Some?
              && habitName !in ClaimsOf(doc, Period(ClaimableHabit(doc, habitName).value, dayKey, weekKey))
    ensures !r.ok ==> r.doc == doc
    ensures r.ok ==>
              var habit := ClaimableHabit(doc, habitName).value;
              r.doc == ClaimedDoc(doc, username, HouseholdOf(doc, username).value, habit, Period(habit, dayKey, weekKey))
  {
    if !Resolved(doc, username) then Step(doc, false)
    else match ClaimableHabit(doc, habitName)
      case None => Step(doc, false)
      case Some(habit) =>
        var period := Period(habit, dayKey, weekKey);
        if habitName in ClaimsOf(doc, period) then Step(doc, false)
        else Step(ClaimedDoc(doc, username, HouseholdOf(doc, username).value, habit, period), true)
  }

  /** A claimable habit is a bonus habit of that name from the bonus list. */
  lemma ClaimableHabitIsBonus(doc: Doc, habitName: string)
    ensures ClaimableHabit(doc, habitName).Some? <==>
              FindHabit(doc.bonusHabits, habitName).Some? && FindHabit(doc.bonusHabits, habitName).value.isBonus
    ensures ClaimableHabit(doc, habitName).Some? ==>
              var habit := ClaimableHabit(doc, habitName).value;
              habit in doc.bonusHabits && habit.name == habitName && habit.isBonus
  {
  }

  /** Recording one claim changes that period's claims by that habit and no other period's. */
  lemma ClaimStored(doc: Doc, after: Doc, period: string, habitName: string, username: string)
    requires after.completedHabits == doc.completedHabits[period := ClaimsOf(doc, period)[habitName := username]]
    ensures ClaimsOf(after, period) == ClaimsOf(doc, period)[habitName := username]
    ensures forall p :: p != period ==> ClaimsOf(after, p) == ClaimsOf(doc, p)
  {
  }

  /**
   * A successful claim records the user as the period's claimant of the habit and leaves
   * every other period's claims, the streaks and the habit lists as they were.
   */
  lemma ClaimedDocClaims(doc: Doc, username: string, hh: string, habit: Habits.HabitDict, period: string)
    requires hh in doc.households.values && username in doc.households.values[hh].points
    ensures var after := ClaimedDoc(doc, username, hh, habit, period);
            && ClaimsOf(after, period) == ClaimsOf(doc, period)[habit.name := username]
            && (forall p :: p != period ==> ClaimsOf(after, p) == ClaimsOf(doc, p))
            && after.streaks == doc.streaks && after.habits == doc.habits && after.bonusHabits == doc.bonusHabits
  {
    ClaimStored(doc, ClaimedDoc(doc, username, hh, habit, period), period, habit.name, username);
  }

  /**
   * A successful claim adds the habit's points to the user's entry and to nobody else's,
   * and keeps every member list and the household order.
   */
  lemma ClaimedDocPoints(doc: Doc, username: string, hh: string, habit: Habits.HabitDict, period: string)
    requires hh in doc.households.values && username in doc.households.values[hh].points
    ensures var after := ClaimedDoc(doc, username, hh, habit, period);
            && PointsOf(after, hh, username) == Some(doc.households.values[hh].points[username] + habit.points)
            && (forall h, u :: (h, u) != (hh, username) ==> PointsOf(after, h, u) == PointsOf(doc, h, u))
            && (forall h :: MembersOf(after, h) == MembersOf(doc, h))
            && after.households.keys == doc.households.keys
  {
    CreditEffect(doc, ClaimedDoc(doc, username, hh, habit, period), hh, username, habit.points);
  }

  /**
   * After a successful claim the household's sorted ranking shows the user's new total,
   * the household's other ranked users keep their points, and other households' rankings
   * and the past-rankings log are as they were.
   */
  lemma ClaimedDocLeaderboard(doc: Doc, username: string, hh: string, habit: Habits.HabitDict, period: string)
    requires hh in doc.households.values && username in doc.households.values[hh].points
    ensures var after := ClaimedDoc(doc, username, hh, habit, period);
            && Dicts.Get(Leaderboard.GetSortedRankings(after.board, hh), username) == PointsOf(after, hh, username)
            && (forall u :: u != username ==>
                  Dicts.Get(Leaderboard.RankingOf(after.board, hh), u) == Dicts.Get(Leaderboard.RankingOf(doc.board, hh), u))
            && (forall h :: h != hh ==> Dicts.Get(after.board.rankings, h) == Dicts.Get(doc.board.rankings, h))
            && after.board.pastRankings == doc.board.pastRankings
  {
    var total := Credited(doc.households, hh, username, habit.points);
    CreditEffect(doc, ClaimedDoc(doc, username, hh, habit, period), hh, username, habit.points);
    Leaderboard.UpdateEffect(doc.board, hh, username, total);
    Leaderboard.UpdateShowsPoints(doc.board, hh, username, total);
  }

  /** Storing a claim keeps the document well kept. */
  lemma ClaimedDocOk(doc: Doc, username: string, hh: string, habit: Habits.HabitDict, period: string)
    requires DocOk(doc)
    requires hh in doc.households.values && username in doc.households.values[hh].points
    ensures DocOk(ClaimedDoc(doc, username, hh, habit, period))
  {
    CreditKeepsHouseholdsOk(doc.households, hh, username, habit.points);
    Leaderboard.UpdateKeepsBoardOk(doc.board, hh, username, Credited(doc.households, hh, username, habit.points));
  }

  /** On a well-kept document a claim is defined and keeps the document well kept. */
  lemma ClaimBonusHabitKeepsDocOk(doc: Doc, username: string, habitName: string, dayKey: string, weekKey: string)
    requires DocOk(doc)
    ensures PointsDefined(doc, username)
    ensures DocOk(ClaimBonusHabit(doc, username, habitName, dayKey, weekKey).doc)
  {
    ResolvedHasPoints(doc, username);
    if ClaimBonusHabit(doc, username, habitName, dayKey, weekKey).ok {
      var habit := ClaimableHabit(doc, habitName).value;
      ClaimedDocOk(doc, username, HouseholdOf(doc, username).value, habit, Period(habit, dayKey, weekKey));
    }
  }

  /** A claim keeps every user's household and points entry, so a later claim stays defined. */
  lemma ClaimedDocKeepsPointsDefined(doc: Doc, username: string, hh: string, habit: Habits.HabitDict, period: string,
                                     other: string)
    requires hh in doc.households.values && username in doc.households.values[hh].points
    requires PointsDefined(doc, other)
    ensures PointsDefined(ClaimedDoc(doc, username, hh, habit, period), other)
  {
    var after := ClaimedDoc(doc, username, hh, habit, period);
    ClaimedDocPoints(doc, username, hh, habit, period);
    HouseholdOfDependsOnMembers(doc, after, other);
    if Resolved(after, other) {
      var hh' := HouseholdOf(doc, other).value;
      assert PointsOf(doc, hh', other).Some?;
      assert PointsOf(after, hh', other).Some?;
    }
  }

  /**
   * One winner per period: a claim of a bonus habit nobody has claimed in the period goes
   * through, and afterwards every claim of it in the same period is refused, whoever
   * makes it.
   */
  lemma BonusClaimedOncePerPeriod(doc: Doc, username: string, other: string, habitName: string,
                                  dayKey: string, weekKey: string)
    requires PointsDefined(doc, username) && PointsDefined(doc, other)
    requires Resolved(doc, username) && ClaimableHabit(doc, habitName).Some?
    requires habitName !in ClaimsOf(doc, Period(ClaimableHabit(doc, habitName).value, dayKey, weekKey))
    ensures ClaimBonusHabit(doc, username, habitName, dayKey, weekKey).ok
    ensures PointsDefined(ClaimBonusHabit(doc, username, habitName, dayKey, weekKey).doc, other)
    ensures var after := ClaimBonusHabit(doc, username, habitName, dayKey, weekKey).doc;
            ClaimBonusHabit(after, other, habitName, dayKey, weekKey) == Step(after, false)
  {
    var hh := HouseholdOf(doc, username).value;
    var habit := ClaimableHabit(doc, habitName).value;
    var period := Period(habit, dayKey, weekKey);
    var after := ClaimBonusHabit(doc, username, habitName, dayKey, weekKey).doc;
    assert after == ClaimedDoc(doc, username, hh, habit, period);
    ClaimedDocKeepsPointsDefined(doc, username, hh, habit, period, other);
    ClaimableHabitIsBonus(doc, habitName);
    ClaimedDocClaims(doc, username, hh, habit, period);
    assert ClaimableHabit(after, habitName) == ClaimableHabit(doc, habitName);
    assert habitName in ClaimsOf(after, period);
  }

  // ---------------------------------------------------------------- reset_monthly_scores

  /** Every entry of a points map set to 0. */
  function Zeroed(points: map<string, int>): (r: map<string, int>)
    ensures r.Keys == points.Keys
    ensures forall u :: u in r ==> r[u] == 0
  {
    map u | u in points :: 0
  }

  /**
   * `reset_monthly_scores`: every points entry of every household becomes 0. Member lists,
   * the leaderboard and everything else stay as they were.
   */
  function ResetMonthlyScores(doc: Doc): (r: Doc)
    ensures r.households.keys == doc.households.keys
    ensures forall h, u :: PointsOf(r, h, u) == if PointsOf(doc, h, u).Some? then Some(0) else None
    ensures forall h :: MembersOf(r, h) == MembersOf(doc, h)
    ensures r.(households := doc.households) == doc
  {
    var hs := doc.households.values;
    doc.(households := Dicts.Dict(doc.households.keys,
                                  map h | h in hs :: hs[h].(points := Zeroed(hs[h].points))))
  }

  /** The reset keeps the document well kept and every user in the same household. */
  lemma ResetMonthlyScoresKeepsDocOk(doc: Doc, username: string)
    requires DocOk(doc)
    ensures DocOk(ResetMonthlyScores(doc))
    ensures HouseholdOf(ResetMonthlyScores(doc), username) == HouseholdOf(doc, username)
  {
    var r := ResetMonthlyScores(doc);
    forall h | h in r.households.values ensures MembersScored(r.households.values[h]) {
      assert MembersOf(r, h) == MembersOf(doc, h);
      assert MembersScored(doc.households.values[h]);
    }
    HouseholdOfDependsOnMembers(doc, r, username);
  }
}
