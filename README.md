# Steam achievement streak tracker — a Dafny model

This project models the core of a Steam achievement streak tracker. `UserStreakTracker` keeps one Firestore document per Steam ID. Each document holds a current streak, a longest streak, a completion total and the instant of the last completion. A confirmed completion moves the record through a four-way state machine, keyed on the time since the last completion:

- first ever completion;
- under 24 hours: the streak is unchanged;
- from 24 up to 48 hours: the streak is extended;
- 48 hours or more: the streak is reset to 1.

The stats screen classifies the same elapsed time as *warning*, *ready* or *wait*. A small pure helper picks a random achievement, optionally only from those the player has unlocked.

Files:

- `wrappers.dfy`: `Option`, which stands for Python's `None`.
- `streak.dfy` (module `Streak`): the record, the thresholds, the pure transition `Advance` (the specification of a completion), the `Replay` of several completions, the status classification, and the lemmas about them.
- `tracker.dfy` (module `Tracker`): the class `UserStreakTracker`. Its field `users: map<string, UserRecord>` stands for the `users` collection. Its methods are written imperatively, as in the source: the record is updated field by field in an if/elif chain and then written back. Each method is proved against `NewUser`, `Advance` and `Classify`.
- `achievements.dfy` (module `Achievements`): the candidate filter of `get_random_achievement`.

Modelling choices:

- Time is whole seconds on one absolute clock. 24 h is `86400` and 48 h is `172800`. The current instant `now` is a parameter.
- The stats screen converts both instants to one US/Central zone object and subtracts them (Backend/3380.3.py:137-142). Python subtracts two datetimes that share a zone object as wall-clock times. The screen's elapsed time is therefore `WallClockElapsed`: the true difference plus the change of UTC offset in between. The zone's offset at each instant is a parameter `offset`. `complete_achievement` subtracts in UTC and is not affected.
- The two Steam Web API replies are parameters, and so is the outcome of `random.choice` (`choice`, which selects `candidates[choice % |candidates|]`).
- Python truthiness is modelled explicitly:
  - an empty username hint falls back to the default;
  - an empty Steam ID disables the filter;
  - an empty reply counts the same as no reply.

Two invariants carry the core's promises. `Streak.WellFormed` says a record with no completion has all counters at 0, a record with a completion has a streak of at least 1, and current ≤ longest ≤ total. `Tracker.UserStreakTracker.Valid` says every stored document is filed under its own Steam ID and is well-formed.

The case lemmas `FirstCompletion`, `SameDayCompletion`, `NextDayCompletion` and `LapsedCompletion` spell out each branch of `Advance` in terms of the thresholds. They document the cases; the proofs are in `Advance`'s invariants and the `Replay` lemmas.

Behaviour of the code that the model keeps as written:

- On the first completion the code *sets* `longest_streak = 1` and `total_achievements_completed = 1`. It takes no maximum and adds nothing to the old values. On every record the tracker itself writes (`WellFormed`: no completion means all counters are 0), the two readings agree.
- `complete_achievement` on an unknown Steam ID returns `None`. It raises no error.
- When the player-achievement request fails, or its reply has no `playerstats`, the filter is skipped. The pick is then made from the whole catalog.
- For a record with no completion, the stats screen does not report "no completions yet": it dereferences `None` (Backend/3380.3.py:132). The message at line 157 is shown only when there is no document at all.

## Model

| member | source | states |
|---|---|---|
| Streak.WellFormed | Backend/3380.3.py:35-107 | no completion means all counters are 0; after a completion the streak is at least 1; current ≤ longest ≤ total |
| Streak.LastFour | Backend/3380.3.py:37 | `steam_id[-4:]` is a suffix of the id, of length min(4, length) |
| Streak.DefaultUsername | Backend/3380.3.py:37 | the placeholder is `"User_"` followed by the last four (or all) characters of the Steam ID |
| Streak.NewUser | Backend/3380.3.py:35-43 | a new record has the given id, counters 0, no last completion, `created_at = now`, the hint as name when non-empty and otherwise the default; it is well-formed |
| Streak.WindowOf | Backend/3380.3.py:79-102 | elapsed time falls in exactly one half-open band: < 24 h, [24 h, 48 h), ≥ 48 h |
| Streak.Advance | Backend/3380.3.py:62-107 | a completion keeps id, name and creation time, sets last = now, keeps the record well-formed (current ≤ longest ≤ total, streak ≥ 1 after a completion), adds exactly one completion and never lowers the longest streak |
| Streak.FirstCompletion | Backend/3380.3.py:62-66 | with no last completion: current = longest = total = 1 and last = now |
| Streak.SameDayCompletion | Backend/3380.3.py:79-82 | under 24 h (negative elapsed included) only the total (+1) and the last instant change |
| Streak.NextDayCompletion | Backend/3380.3.py:89-97 | from exactly 24 h up to 48 h: current + 1, longest = max(old longest, new current), total + 1, last = now |
| Streak.LapsedCompletion | Backend/3380.3.py:102-107 | from exactly 48 h on: current = 1, longest unchanged, total + 1, last = now |
| Streak.CompletionAfterCreation | Backend/3380.3.py:25-66 | the first completion after `get_or_create_user` gives current = longest = total = 1 |
| Streak.Replay | Backend/3380.3.py:50-114 | a run of completions on a well-formed record keeps it well-formed, adds one completion per call and never lowers the longest streak |
| Streak.LongestBoundsHistory | Backend/3380.3.py:95-97 | the longest streak is at least the current streak at every earlier point of the run |
| Streak.LongestIsAttained | Backend/3380.3.py:95-97 | the longest streak after a run is its old value or a current streak reached during the run: it is the historical maximum |
| Streak.ThreeCompletionTrace | Backend/3380.3.py:62-107 | completions at 0 h, 30 h and 100 h give streaks 1, 2, 1, with longest 2 and total 3 |
| Streak.Classify | Backend/3380.3.py:149-154 | the status is exhaustive and exclusive: warning iff ≥ 48 h, ready iff in [24 h, 48 h), wait iff < 24 h; wait carries a positive remaining time that reaches the 24 h mark |
| Streak.StatusPredictsCompletion | Backend/3380.3.py:149-154 | on the true elapsed time, warning means a completion now resets the streak to 1, ready means it extends it by one, wait means it leaves it unchanged |
| Streak.WallClockElapsed | Backend/3380.3.py:137-142 | the screen's elapsed time differs from the true elapsed time by exactly the change of UTC offset between the two instants, and equals it when the offset is unchanged |
| Streak.ScreenStatusPredictsCompletion | Backend/3380.3.py:137-154 | when the zone's offset is the same at both instants, the status the screen shows predicts what a completion now does to the streak |
| Streak.DstChangeMisleadsStatus | Backend/3380.3.py:137-154 | across the 2024 spring change, 23.5 h after the last completion, the screen reports ready while a completion keeps the streak unchanged |
| Streak.WaitEndsReady | Backend/3380.3.py:153-154 | after waiting the remaining time shown, the status is ready |
| Tracker.UserStreakTracker.Valid | Backend/3380.3.py:25-114 | every stored document is filed under its own Steam ID and is well-formed |
| Tracker.UserStreakTracker.constructor | Backend/3380.3.py:15-22 | the tracker starts over an empty collection that satisfies the store invariant |
| Tracker.UserStreakTracker.GetOrCreateUser | Backend/3380.3.py:25-46 | an existing record is returned unchanged without a write; otherwise `NewUser` is stored under the id and returned; the store invariant is kept |
| Tracker.UserStreakTracker.CompleteAchievement | Backend/3380.3.py:50-114 | an unknown id gives None and no write; otherwise exactly that document is replaced by `Advance` of it, which is returned; no other document changes and the store invariant is kept |
| Tracker.UserStreakTracker.DisplayUserStats | Backend/3380.3.py:117-157 | no document gives None; otherwise the report shows the stored counters and name, the last completion, the US/Central wall-clock time since it (`WallClockElapsed`) and that time's `Classify` status; nothing is written |
| Tracker.GetOrCreateIsIdempotent | Backend/3380.3.py:25-46 | two lookups of the same id return the same record, and the second one writes nothing |
| Achievements.UnlockedNames | Backend/3380.3.py:221-222 | a name is listed iff some player entry with that name has `achieved == 1` |
| Achievements.Matching | Backend/3380.3.py:223 | the result is the catalog with every entry whose name is not unlocked dropped, at the same multiplicity |
| Achievements.FiltersByUnlocked | Backend/3380.3.py:218-220 | filtering applies iff `unlocked_only` holds, the Steam ID is present and non-empty, and the reply exists and has `playerstats` |
| Achievements.Candidates | Backend/3380.3.py:218-223 | with filtering on, the candidates are exactly the catalog entries whose name is unlocked; otherwise they are the whole catalog |
| Achievements.GetRandomAchievement | Backend/3380.3.py:212-229 | None iff the catalog is missing or empty or no candidate is left; otherwise a candidate, hence a catalog entry, and an unlocked one when filtering applies |
| Achievements.EveryCandidateCanBeDrawn | Backend/3380.3.py:229 | every candidate is the pick for some outcome of `random.choice` |

## Left out

- Firestore initialisation and credentials (Backend/3380.3.py:15-22): the collection is an in-memory map that starts empty.
- The read-then-update race between concurrent completions for one user: concurrency is not modelled, and each method runs atomically.
- `get_game_achievements` and `get_user_achievements` (Backend/3380.3.py:169-207): HTTP, JSON parsing and the Web API URLs. Their results are parameters of `GetRandomAchievement`. A catalog reply of `None` and one of `[]` are treated alike, as in the source.
- Backend/3380.1.py and Backend/3380.2.py: earlier copies of the same Web API wrapper and menus. They are not part of this model.
- `random.choice` as a uniform distribution: only "some candidate, and every candidate is possible" is modelled.
- Float hours, `round(..., 1)` and `strftime` (Backend/3380.3.py:142-146): elapsed time is exact integer seconds. Rounding of float hours near the 24 h and 48 h marks is not modelled.
- The `zoneinfo` database: the US/Central UTC offset at each instant is the parameter `offset`. `CentralSpring2024` is one sample offset, covering the 2024 spring change.
- The naive-timestamp fix-up (`replace(tzinfo=timezone.utc)`, lines 72-73 and 132-134): every instant is already absolute.
- All printed messages, including the congratulations and the old streak shown on a reset. The `input()` loops, `main_menu`, `get_valid_app_id`, and `get_user_steam_id` with its 17-digit check (lines 232-395) are also left out.
- Tracker.UserStreakTracker.DisplayUserStats: requires a stored record to have a last completion. The source raises on `None.tzinfo` at line 132 for a user who has no completion yet, and no result is modelled for that case.
- Streak.StatusPredictsCompletion: holds for the true elapsed time. The screen shows US/Central wall-clock time, which is off by 3600 s when a daylight-saving change lies between the two instants. `ScreenStatusPredictsCompletion` restates it for the screen only when the offset is unchanged, and `DstChangeMisleadsStatus` shows it failing otherwise.
- Achievements: a catalog or player entry without a `name` key raises `KeyError` in the source. Here every entry has a name.

## Findings

| source | as written | input that shows it | evidently intended | confidence | as-written member | corrected member |
|---|---|---|---|---|---|---|
| Backend/3380.3.py:137-142 | the hours since the last completion are the difference of two US/Central wall-clock times, off by 1 h across a daylight-saving change | last = 2024-03-10T07:00Z, now = 2024-03-11T06:30Z: 23.5 h apart, shown as 24.5 h and "Ready to continue streak", yet a completion then is same-day (line 79) | the true elapsed time, as `complete_achievement` uses at line 76, so that the status predicts the completion | high for the arithmetic, medium for intent; not executed | Streak.DstChangeMisleadsStatus | Streak.StatusPredictsCompletion |

`DisplayUserStats` keeps the screen's behaviour as written. The corrected status is `Classify` of the true difference `now - last`, and `StatusPredictsCompletion` proves that it predicts the completion in every case.
