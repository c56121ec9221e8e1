# HomeStreak in Dafny

A model of the core of HomeStreak, a household habit tracker in which members complete
habits, keep streaks, earn points and compete on a leaderboard. The program has two
engines and a query layer, and the model follows the same split:

- **The document engine** (`DataManager`, `Leaderboard`). Every operation loads one JSON
  document, changes it and saves it back. The document holds:
  - the households, each with a member list and a points map;
  - the regular and bonus habit lists;
  - a streak map per user;
  - the bonus claims per period;
  - the leaderboard rankings and the past-rankings log.

  Each operation is a pure function of the document. The guarded ones (`CreateHousehold`,
  `SaveUser`, `SaveHabit`, `SaveBonusHabit`, `CompleteHabit`, `ClaimBonusHabit`) return the
  document after together with a success flag (`Step`). `ResetHabits` and
  `ResetMonthlyScores` return the document after. The `Leaderboard` operations map one
  board (rankings and past-rankings log) to the next. The clock reading and the day, week
  and month keys are parameters.
- **The object engine** (`Users`, `Habits`, `Households`):
  - a user's per-habit completion history (dates as day numbers);
  - the streak fold that `update_streak` recomputes over the whole history, with its
    milestone bonus;
  - `Habit.complete` with its two rejection guards;
  - a household's member list and its points leaderboard.
- **The analytics queries** (`Analytics`): filter, max and find queries over a list of
  habit records.

Shared pieces:

- `Dicts` models Python's insertion-ordered dictionaries. The order matters wherever the
  program iterates over households or rankings.
- `Sorting` models `sorted(..., reverse=True)` as a stable descending insertion sort.
- `Seqs` holds `next(...)`-style search, `max(...)` (the first maximal element) and list
  comprehension filters.

Every completion, claim or leaderboard change is stated three ways:

- what it changes;
- that nothing else changes;
- that it keeps the document well kept (`DataManager.DocOk`). A document is well kept
  when:
  - the households form a proper dictionary;
  - every member has a points entry;
  - every ranking is sorted by points.

## Model

| member | source | states |
|---|---|---|
| Seqs.FirstMaxIndex | services/analytics.py:29 | the index picked holds a maximal key and every earlier element's key is strictly smaller, as `max` returns the first maximal element |
| Sorting.SortDesc | classes/household.py:11 | the sort returns a permutation of its input ordered by non-increasing key |
| Sorting.SortStable | classes/household.py:11 | for every key value, the elements holding it keep their input order (`sorted` is stable) |
| Sorting.SortIdempotent | services/leaderboard.py:58-62 | sorting an already sorted ranking changes nothing |
| Dicts.Put | services/leaderboard.py:56 | assignment gives the key the new value, leaves every other key's value, keeps the position of an existing key and appends a new one |
| Dicts.PutValid | services/data_manager.py:46 | assignment keeps a dictionary's keys listed once each, exactly those with values |
| Dicts.ItemsOfKeys | services/leaderboard.py:58-62 | building a dictionary from pairs taken from one dictionary lists exactly those pairs in that order |
| Dicts.ItemsIff | services/leaderboard.py:58 | a pair is among a dictionary's items exactly when it is one of its entries |
| Users.HasCompletedToday | user.py:16-18 | true exactly when the habit has a history whose last date is today |
| Users.TrackCompletion | user.py:20-44 | the date is appended to that habit's history and a new habit gets one; the stored streak is the `update_streak` counter over the new history (at least 1) and points grow by 5 per milestone it passes; other habits' histories and streaks are unchanged |
| Users.TrackedDateIsToday | user.py:16-26 | right after tracking a date, the habit counts as completed on that date and on no other |
| Users.RunAtIsTrailingRun | user.py:34-40 | the running streak is one more than the number of one-period gaps ending the prefix; the gap before them breaks the run |
| Users.UpdateStreak | user.py:28-44 | the stored streak is between 1 and the history length, is 1 for a history of fewer than two dates, and equals the trailing run of one-period gaps plus one; points grow by 5 per position where the running streak hit a multiple of 7; nothing else changes |
| Users.GetBonusPoints | user.py:46-47 | the bonus is 5 exactly when the stored streak (0 if none) is a multiple of 7, else 0 |
| Users.UntrackedEarnsBonus | user.py:47 | a habit with no streak yet earns the 5-point bonus |
| Users.UnbrokenRun | user.py:35-40 | on a history with no broken gap the running streak at position i is i + 1 |
| Users.UnbrokenMilestones | user.py:41-42 | on a history with no broken gap the bonus count over n dates is n / 7 |
| Users.ConsecutiveCompletionsReaward | user.py:34-44 | recomputing over n consecutive completions yields streak n and re-awards 5 points for every multiple of 7 up to n, not only the newest |
| Users.UnbrokenExtended | user.py:34-42 | a date one period after the last of an unbroken history of n - 1 dates leaves the counter at n and the milestone count at n / 7 |
| Users.UnbrokenTracking | user.py:20-44 | tracking a date one period after the last of an unbroken history of n - 1 dates stores streak n and adds 5 for every multiple of 7 up to n |
| Habits.ToDict | classes/habit.py:38-45 | the dictionary form carries no last completion time |
| Habits.DictRoundTrip | classes/habit.py:38-49 | `from_dict(to_dict(h))` keeps name, periodicity, points and the bonus flag; the creation time is the clock's |
| Habits.CalculatePoints | classes/habit.py:35-36 | the points paid are the base points, plus 5 exactly when the stored streak for the habit (0 if none) is a multiple of 7 |
| Habits.Complete | classes/habit.py:17-33 | refused exactly when the habit was already completed today or is a bonus habit claimed in the same week, changing nothing; otherwise the outcome is the accepted branch `Habits.Accept` |
| Habits.Accept | classes/habit.py:23-33 | today is appended to the history; the stored streak is the `update_streak` counter over the new history and other habits' streaks are unchanged; a bonus habit's week key is recorded; the points paid are the base points plus 5 exactly when that streak is a multiple of 7, and the user gains them plus 5 per milestone of the history |
| Habits.SecondCompletionSameDayRejected | classes/habit.py:20-21 | a second completion on the same day is refused and changes nothing |
| Habits.BonusOncePerWeek | classes/habit.py:23-27 | after a bonus habit is completed, a completion on another day of the same week is refused |
| Habits.FirstCompletionOfNewUser | user.py:8-14 | a newly constructed user's first completion of a habit is accepted, stores a one-day history and streak 1, and pays exactly the base points |
| Habits.UnbrokenCompletionPays | classes/habit.py:29-36 | completing one period after the last of an unbroken history makes the n-th completion: it is accepted, the streak is n, the points paid are the base plus 5 when 7 divides n, and the user also gains 5 per multiple of 7 up to n, so the newest milestone is paid twice |
| Households.AddMember | classes/household.py:6-8 | an existing member leaves the household as it was; a new one is appended, growing the list by one |
| Households.AddMemberIdempotent | classes/household.py:6-8 | adding the same member twice is the same as adding it once |
| Households.GetLeaderboard | classes/household.py:10-11 | the leaderboard is a permutation of the members ordered by non-increasing points, missing points counting as 0 |
| Households.LeaderboardKeepsJoinOrder | classes/household.py:11 | members with equal points appear in the order they joined |
| Analytics.FilterByPeriodicity | services/analytics.py:17-21 | every habit kept has the periodicity asked for, and every habit with it is kept |
| Analytics.PeriodicitiesPartition | services/analytics.py:21 | the daily and the weekly filter together account for every habit exactly once |
| Analytics.FilterKeepsOrder | services/analytics.py:21 | the filter keeps list order: filtering a concatenation concatenates the filtered parts |
| Analytics.LongestStreak | services/analytics.py:24-29 | none exactly for an empty list; otherwise a listed habit whose streak (0 if absent) is at least every habit's, the first such |
| Analytics.FindNamed | services/analytics.py:36 | none exactly when no habit has the name; otherwise the first habit with it |
| Analytics.LongestStreakForHabit | services/analytics.py:32-39 | the streak of the first habit with the name, 0 when none has it |
| Analytics.HabitsCompletedByUser | services/analytics.py:42-50 | every name listed belongs to a habit that has the user among its completions |
| Analytics.HabitsCompletedByUserMembers | services/analytics.py:42-50 | a name is listed exactly when some habit of that name has the user among its completions |
| Analytics.CompletedByUserAppend | services/analytics.py:46-50 | the names come out in list order: the result for a concatenation is the concatenation of the results |
| Analytics.HabitStatistics | services/analytics.py:53-66 | none exactly for an unknown name; otherwise the first such habit's record with completions defaulting to empty and streak and bonus points to 0 |
| Leaderboard.SortEffect | services/leaderboard.py:58-62 | the re-sorted ranking has the same entries and lists them as the stable descending sort of the original items |
| Leaderboard.SortKeepsTies | services/leaderboard.py:58-62 | users with equal points keep their dictionary order through the sort |
| Leaderboard.UpdateEffect | services/leaderboard.py:47-67 | after an update the household has a sorted ranking in which the user has the new points and everyone else what they had; other households' rankings and the log are unchanged |
| Leaderboard.UpdateKeepsBoardOk | services/leaderboard.py:58-63 | an update keeps every ranking sorted by non-increasing points |
| Leaderboard.UpdateKeepsTies | services/leaderboard.py:56-62 | in the refreshed ranking, users with equal points keep the order the updated dictionary had them in |
| Leaderboard.AllScoresListed | services/leaderboard.py:78 | a pair is collected exactly when some household's ranking holds it |
| Leaderboard.TopScoreIsBest | services/leaderboard.py:78-80 | the first highest collected score belongs to a ranked user and beats every ranked score; there is none exactly when nothing is ranked |
| Leaderboard.ResetMonthly | services/leaderboard.py:69-84 | the log keeps its old entries and gains the month's rankings, then the month's top scorer when anyone is ranked (one or two entries); the top scorer is the first highest score, at least every ranked score; the rankings end empty |
| Leaderboard.GetSortedRankings | services/leaderboard.py:86-91 | the result lists the household's entries (none for an unknown household), as a permutation of the stored items sorted by non-increasing points; when the stored ranking is a well-formed dictionary, so is the result, each user listed once |
| Leaderboard.SortKeepsValid | services/leaderboard.py:91 | `dict(sorted(r.items(), ...))` of a well-formed ranking is well formed: each user once, exactly the users with points |
| Dicts.PermutedItemsValid | services/leaderboard.py:91 | `dict(pairs)` over any rearrangement of a well-formed dictionary's items lists every key once and exactly the keys with values |
| Leaderboard.SortedRankingsDescend | services/leaderboard.py:91 | every entry of the sorted rankings has at least the points of every entry after it |
| Leaderboard.SortedRankingsAreStored | services/leaderboard.py:86-91 | on a board where every ranking is sorted, the sorted view lists the stored ranking's items in the same order |
| Leaderboard.UpdateShowsPoints | services/leaderboard.py:56-63 | right after an update the household's sorted ranking shows the user with the new points |
| Leaderboard.TopPerformersAppendOnly | services/leaderboard.py:93-95 | over any series of updates and resets, the log returned by `get_top_performers` only grows at its end |
| Leaderboard.RunKeepsBoardOk | services/leaderboard.py:47-84 | over any series of updates and resets, every ranking stays sorted |
| DataManager.DefaultDocOk | services/data_manager.py:19-25 | the default document is well kept |
| DataManager.CreateHousehold | services/data_manager.py:40-47 | an existing name changes nothing; a new name adds exactly that household, with no members and no points, after the others |
| DataManager.CreateHouseholdKeepsDocOk | services/data_manager.py:46 | creating a household keeps the document well kept |
| DataManager.SaveUser | services/data_manager.py:50-65 | nothing changes for an unknown household or an existing member; otherwise the user is appended to the members with 0 points and given an empty streak map if they had none, and nothing else changes |
| DataManager.SaveUserKeepsDocOk | services/data_manager.py:59-60 | adding a member keeps every member scored |
| DataManager.FindHabit | services/data_manager.py:101 | none exactly when no habit has the name; otherwise a listed habit of that name |
| DataManager.FindHabitFirst | services/data_manager.py:101 | the habit found is the first of its name |
| DataManager.SaveHabit | services/data_manager.py:69-83 | refused, changing nothing, exactly when the regular list already has the name; otherwise the habit's dictionary is appended to the bonus list for a bonus habit and to the regular list else |
| DataManager.SaveBonusHabit | services/data_manager.py:86-94 | refused, changing nothing, exactly when the bonus list already has the name; otherwise appended to the bonus list |
| DataManager.SaveHabitKeepsDocOk | services/data_manager.py:69-94 | saving a habit keeps the document well kept |
| DataManager.LoadHabits | services/data_manager.py:204-207 | the regular habits followed by the bonus habits |
| DataManager.GetHabit | services/data_manager.py:210-219 | found exactly when either list has the name, preferring the regular list; the result has the name and is among the loaded habits |
| DataManager.SavedHabitIsLoaded | services/data_manager.py:74-81 | a saved habit adds its dictionary to the loaded habits and nothing else |
| DataManager.SavedHabitIsFound | services/data_manager.py:74-81 | a saved habit is found by name afterwards, and a saved regular habit is found as saved |
| DataManager.ResetHabits | services/data_manager.py:222-230 | every habit in both lists loses its last completion time and keeps everything else; nothing else changes |
| DataManager.ClearTimestamps | services/data_manager.py:225-229 | each habit of the list is kept with its last completion time cleared |
| DataManager.HouseholdFrom | services/data_manager.py:106-110 | the household found is the first in dictionary order that lists the user, none when none does |
| DataManager.ResolvedHasPoints | services/data_manager.py:136-137 | in a well-kept document the user's household has a points entry for the user |
| DataManager.HouseholdOfDependsOnMembers | services/data_manager.py:106-110 | which household a user belongs to depends only on the household order and member lists |
| DataManager.CompleteHabit | services/data_manager.py:97-144 | succeeds exactly when the regular list has the habit and the user is in a household with a non-empty name; a failure changes nothing; a success stores the completion |
| DataManager.CompletedDocStreak | services/data_manager.py:115-131 | the stored streak is 1 without a last completion time or once more than the threshold has passed, else one more than before; no other streak changes |
| DataManager.CompletedDocPoints | services/data_manager.py:133-137 | a completion adds exactly the habit's base points, without the streak bonus, to the user's entry and changes no other points entry, member list or household order |
| DataManager.CompletedDocLeaderboard | services/data_manager.py:140-141 | after a completion the household's sorted ranking shows the user's new total and its other users keep their points; other rankings, the log, the habit lists and the claims are unchanged |
| DataManager.CompletedDocOk | services/data_manager.py:136-141 | storing a completion keeps the document well kept |
| DataManager.CompleteHabitKeepsDocOk | services/data_manager.py:97-144 | on a well-kept document a completion is defined and keeps the document well kept |
| DataManager.WithoutTimestampIncrementDefined | services/data_manager.py:124-129 | without last completion times no completion reaches the increment, so none can fail on a missing streak |
| DataManager.CompletionWithoutTimestampStartsOver | services/data_manager.py:120-131 | since nothing writes a last completion time, on a document without one every completion sets the streak to 1 and leaves the document without one |
| DataManager.CompletionAfterResetStartsOver | services/data_manager.py:222-230 | after `reset_habits`, the next completion of any habit starts its streak at 1 |
| DataManager.CompletionRepeats | services/data_manager.py:97-144 | a completion does not refuse a repeat: afterwards the same habit and household are found again |
| DataManager.ClaimBonusHabit | services/data_manager.py:148-191 | succeeds exactly when the user is in a household, the bonus list has the habit with the bonus flag, and nobody claimed it in the habit's period; a failure changes nothing; a success stores the claim |
| DataManager.ClaimableHabitIsBonus | services/data_manager.py:162-165 | a claimable habit is the first of its name in the bonus list and carries the bonus flag |
| DataManager.ClaimedDocClaims | services/data_manager.py:167-184 | a claim records the user as the period's claimant of the habit and changes no other period's claims, no streak and no habit list |
| DataManager.ClaimedDocPoints | services/data_manager.py:181-182 | a claim adds exactly the habit's points to the user's entry and changes no other points entry, member list or household order |
| DataManager.ClaimedDocLeaderboard | services/data_manager.py:187-188 | after a claim the household's sorted ranking shows the user's new total and its other users keep their points; other rankings and the log are unchanged |
| DataManager.ClaimedDocOk | services/data_manager.py:181-188 | storing a claim keeps the document well kept |
| DataManager.ClaimBonusHabitKeepsDocOk | services/data_manager.py:148-191 | on a well-kept document a claim is defined and keeps the document well kept |
| DataManager.BonusClaimedOncePerPeriod | services/data_manager.py:167-184 | a claim of a bonus habit nobody has claimed in its period goes through, and afterwards every claim of it in that period, by anyone, is refused and changes nothing |
| DataManager.Zeroed | services/data_manager.py:199-200 | every entry of the points map becomes 0 and no entry is added or removed |
| DataManager.ResetMonthlyScores | services/data_manager.py:195-201 | every points entry of every household becomes 0; member lists, household order, the leaderboard and everything else are unchanged |
| DataManager.ResetMonthlyScoresKeepsDocOk | services/data_manager.py:195-201 | the reset keeps the document well kept and every user in the same household |

## Left out

- File I/O and JSON: `load_data`, `save_data` and `clear_data` in both engines. The document is an in-memory value. A document missing `bonus_habits`, `streaks` or `completed_habits` is modelled as having them empty. A document without a `leaderboard` key, on which the leaderboard would fail, is not modelled.
- Logging and the DEBUG prints. The streak bonus that `complete_habit` computes only for its log message is not modelled either, because it changes no state.
- The command-line interface and the tracker: argument parsing and file glue with no logic of their own.
- The clock and calendar:
  - `datetime.now()` becomes a `now` parameter, an integer count of microseconds.
  - The `%Y-%m-%d`, `%Y-%W`, `%W-%Y` and `%m-%Y` keys become string parameters.
  - Object-engine dates are integer day numbers.
  - No calendar arithmetic is modelled.
- `User.from_dict`, because it calls the constructor without a household and cannot succeed. `User.to_dict` and `Household.to_dict` are left out too, because they only format.
- The `created_at` timestamp, because the clock sets it. `Habits.FromDict` takes it as a parameter.
- The analytics helpers `get_all_users` and `all_habits`, which only read a key of the tracker's data.
- DataManager.CompleteHabit: requires `IncrementDefined` and `PointsDefined`. Without them the source fails on a missing entry: the `+= 1` on an absent streak, or the points of a member with no entry. `CompleteHabitKeepsDocOk` and `WithoutTimestampIncrementDefined` show when these hold.
- DataManager.ClaimBonusHabit: requires `PointsDefined`, for the same missing-entry failure. On a well-kept document it always holds (`ClaimBonusHabitKeepsDocOk`).
- Users.HasCompletedToday: requires a non-empty history for a tracked habit. The source would fail on an empty one, and `track_completion` never leaves one (`Users.HistoriesNonEmpty`).
- Users.UpdateStreak: requires the habit to have a history. The source fails otherwise, and its only caller creates one first.
- Households.AddMember: Python compares member objects by identity, and the model compares them by value.
- Leaderboard.BoardOk: does not track that each ranking is a well-formed dictionary, because every ranking the program stores is rebuilt from its own items.
- Periodicity: only `daily` and `weekly` are modelled, the two values the program creates. The source treats any other string differently from place to place, and none of these behaviours is modelled:
  - `complete_habit` (services/data_manager.py:122) and `claim_bonus_habit` (services/data_manager.py:167) treat it as weekly;
  - `update_streak` (user.py:37) never continues a streak for it;
  - `reset_habits` (services/data_manager.py:226-229) leaves its last completion time in place;
  - `filter_by_periodicity` (services/analytics.py:21) compares the raw strings.
