/**
  The streak rules of the user streak tracker, as pure values and functions.

  A user record is the document stored per Steam ID. Instants are whole seconds
  on one absolute clock (UTC), and the completion rules are stated on the
  difference of two instants. The stats screen instead subtracts two US/Central
  wall-clock times, which is modelled with an explicit UTC offset.
*/
module Streak {
  import opened Wrappers

  /** An absolute instant in seconds. */
  type Instant = int

  const SecondsPerHour: int := 3600
  /** 24 hours: the start of the window in which a completion extends the streak. */
  const ExtendAfter: int := 24 * SecondsPerHour
  /** 48 hours: from here on a completion resets the streak. */
  const LapseAfter: int := 48 * SecondsPerHour

  /** The document stored under `users/<steamId>`. */
  datatype UserRecord = UserRecord(
    steamId: string,
    username: string,
    currentStreak: nat,
    longestStreak: nat,
    totalCompleted: nat,
    lastAchievement: Option<Instant>,
    createdAt: Instant)

  /**
    The invariant every record written by the tracker keeps: a record with no
    completion has all counters at zero, and otherwise the streak is at least one
    and current <= longest <= total.
  */
  ghost predicate WellFormed(r: UserRecord) {
    && (r.lastAchievement.None? ==> r.currentStreak == 0 && r.longestStreak == 0 && r.totalCompleted == 0)
    && (r.lastAchievement.Some? ==> 1 <= r.currentStreak)
    && r.currentStreak <= r.longestStreak <= r.totalCompleted
  }

  /** Python's `s[-4:]`: the last four characters, or all of `s` when it is shorter. */
  function LastFour(s: string): (r: string)
    ensures |r| == if |s| < 4 then |s| else 4
    ensures s == s[..|s| - |r|] + r
  {
    if |s| <= 4 then s else s[|s| - 4..]
  }

  /** The placeholder name given to a user created without a username. */
  function DefaultUsername(steamId: string): (r: string)
    ensures |r| == 5 + (if |steamId| < 4 then |steamId| else 4)
    ensures r[..5] == "User_"
    ensures steamId == steamId[..|steamId| - (|r| - 5)] + r[5..]
  {
    "User_" + LastFour(steamId)
  }

  /**
    The record created on the first lookup of `steamId`. Python's `username or
    default` takes the default for a missing and for an empty username.
  */
  function NewUser(steamId: string, username: Option<string>, now: Instant): (r: UserRecord)
    ensures r.steamId == steamId && r.createdAt == now
    ensures r.currentStreak == 0 && r.longestStreak == 0 && r.totalCompleted == 0
    ensures r.lastAchievement == None
    ensures username.Some? && username.value != "" ==> r.username == username.value
    ensures username.None? || username.value == "" ==> r.username == DefaultUsername(steamId)
    ensures WellFormed(r)
  {
    var name := match username
      case Some(u) => if u != "" then u else DefaultUsername(steamId)
      case None => DefaultUsername(steamId);
    UserRecord(steamId, name, 0, 0, 0, None, now)
  }

  /** Where an elapsed time since the last completion falls. */
  datatype Window =
    | SameDay   // under 24 hours, including a negative difference from clock skew
    | NextDay   // from 24 hours up to, not including, 48 hours
    | Lapsed    // 48 hours or more

  function WindowOf(elapsed: int): (w: Window)
    ensures w == SameDay <==> elapsed < ExtendAfter
    ensures w == NextDay <==> ExtendAfter <= elapsed < LapseAfter
    ensures w == Lapsed <==> LapseAfter <= elapsed
  {
    if elapsed < ExtendAfter then SameDay
    else if elapsed < LapseAfter then NextDay
    else Lapsed
  }

  function Max(a: int, b: int): (m: int)
    ensures m >= a && m >= b && (m == a || m == b)
  {
    if a >= b then a else b
  }

  /**
    The record after a confirmed completion at `now`: the specification of
    `complete_achievement`. On a well-formed record it keeps the record
    well-formed, adds exactly one completion, never lowers the longest streak and
    touches neither the identity fields nor the creation time.
  */
  function Advance(r: UserRecord, now: Instant): (r': UserRecord)
    ensures r'.steamId == r.steamId && r'.username == r.username && r'.createdAt == r.createdAt
    ensures r'.lastAchievement == Some(now)
    ensures WellFormed(r) ==> WellFormed(r')
    ensures WellFormed(r) ==> r'.totalCompleted == r.totalCompleted + 1
    ensures WellFormed(r) ==> r'.longestStreak >= r.longestStreak
    ensures r'.longestStreak == r.longestStreak || r'.longestStreak == r'.currentStreak
  {
    match r.lastAchievement
    case None =>
      r.(currentStreak := 1, longestStreak := 1, totalCompleted := 1, lastAchievement := Some(now))
    case Some(last) =>
      var counted := r.(totalCompleted := r.totalCompleted + 1, lastAchievement := Some(now));
      match WindowOf(now - last)
      case SameDay => counted
      case NextDay =>
        counted.(currentStreak := r.currentStreak + 1,
                 longestStreak := Max(r.longestStreak, r.currentStreak + 1))
      case Lapsed => counted.(currentStreak := 1)
  }

  // The four cases of a completion, each with its half-open boundaries.

  /** The first completion ever starts a streak of one. */
  lemma FirstCompletion(r: UserRecord, now: Instant)
    requires r.lastAchievement.None?
    ensures var r' := Advance(r, now);
      && r'.currentStreak == 1 && r'.longestStreak == 1 && r'.totalCompleted == 1
      && r'.lastAchievement == Some(now)
  {
  }

  /** Under 24 hours (a negative difference included) only the total and the instant change. */
  lemma SameDayCompletion(r: UserRecord, last: Instant, now: Instant)
    requires r.lastAchievement == Some(last) && now - last < ExtendAfter
    ensures Advance(r, now) == r.(totalCompleted := r.totalCompleted + 1, lastAchievement := Some(now))
  {
  }

  /** From exactly 24 hours up to 48 hours the streak grows by one. */
  lemma NextDayCompletion(r: UserRecord, last: Instant, now: Instant)
    requires r.lastAchievement == Some(last) && ExtendAfter <= now - last < LapseAfter
    ensures var r' := Advance(r, now);
      && r'.currentStreak == r.currentStreak + 1
      && r'.longestStreak == Max(r.longestStreak, r.currentStreak + 1)
      && r'.totalCompleted == r.totalCompleted + 1
      && r'.lastAchievement == Some(now)
  {
  }

  /** From exactly 48 hours on the streak restarts at one; the longest streak is kept. */
  lemma LapsedCompletion(r: UserRecord, last: Instant, now: Instant)
    requires r.lastAchievement == Some(last) && LapseAfter <= now - last
    ensures Advance(r, now) == r.(currentStreak := 1, totalCompleted := r.totalCompleted + 1, lastAchievement := Some(now))
  {
  }

  /** A completion right after the record is created is always the first one. */
  lemma CompletionAfterCreation(steamId: string, username: Option<string>, created: Instant, now: Instant)
    ensures var r' := Advance(NewUser(steamId, username, created), now);
      r'.currentStreak == 1 && r'.longestStreak == 1 && r'.totalCompleted == 1
  {
  }

  /** The record after completions at each of `times`, in order. */
  function Replay(r: UserRecord, times: seq<Instant>): (r': UserRecord)
    ensures WellFormed(r) ==> WellFormed(r')
    ensures WellFormed(r) ==> r'.totalCompleted == r.totalCompleted + |times|
    ensures WellFormed(r) ==> r'.longestStreak >= r.longestStreak
    decreases |times|
  {
    if times == [] then r else Replay(Advance(r, times[0]), times[1..])
  }

  lemma {:induction false} ReplayAppend(r: UserRecord, xs: seq<Instant>, ys: seq<Instant>)
    ensures Replay(r, xs + ys) == Replay(Replay(r, xs), ys)
    decreases |xs|
  {
    if xs == [] {
      assert xs + ys == ys;
    } else {
      assert (xs + ys)[1..] == xs[1..] + ys;
      ReplayAppend(Advance(r, xs[0]), xs[1..], ys);
    }
  }

  /** The longest streak bounds the current streak at every earlier point of the history. */
  lemma {:induction false} LongestBoundsHistory(r: UserRecord, times: seq<Instant>, k: nat)
    requires WellFormed(r) && k <= |times|
    ensures Replay(r, times[..k]).currentStreak <= Replay(r, times).longestStreak
  {
    assert times == times[..k] + times[k..];
    ReplayAppend(r, times[..k], times[k..]);
  }

  /**
    The longest streak never exceeds what was there before or what the current
    streak reached at some point: it is exactly the historical maximum.
  */
  lemma {:induction false} LongestIsAttained(r: UserRecord, times: seq<Instant>)
    ensures var r' := Replay(r, times);
      || r'.longestStreak == r.longestStreak
      || exists k :: 1 <= k <= |times| && Replay(r, times[..k]).currentStreak == r'.longestStreak
    decreases |times|
  {
    if times != [] {
      var r1 := Advance(r, times[0]);
      var longest := Replay(r, times).longestStreak;
      LongestIsAttained(r1, times[1..]);
      assert Replay(r, times[..1]) == r1 by {
        assert times[..1][1..] == [];
      }
      if longest != r1.longestStreak {
        var k' :| 1 <= k' <= |times[1..]| && Replay(r1, times[1..][..k']).currentStreak == longest;
        assert times[..k' + 1][1..] == times[1..][..k'];
        assert Replay(r, times[..k' + 1]).currentStreak == longest;
      }
    }
  }

  /** Completions at 0 h, 30 h and 100 h: first, extended to 2, reset to 1 with 2 kept as longest. */
  lemma ThreeCompletionTrace(r: UserRecord, t: Instant)
    requires WellFormed(r) && r.lastAchievement.None?
    ensures Replay(r, [t]).currentStreak == 1
    ensures Replay(r, [t, t + 30 * SecondsPerHour]).currentStreak == 2
    ensures var r' := Replay(r, [t, t + 30 * SecondsPerHour, t + 100 * SecondsPerHour]);
      r'.currentStreak == 1 && r'.longestStreak == 2 && r'.totalCompleted == 3
  {
    var t1, t2 := t + 30 * SecondsPerHour, t + 100 * SecondsPerHour;
    var r1 := Advance(r, t);
    var r2 := Advance(r1, t1);
    assert Replay(r, [t]) == r1 by { assert [t][1..] == []; }
    assert Replay(r, [t, t1]) == Replay(r1, [t1]) by { assert [t, t1][1..] == [t1]; }
    assert Replay(r1, [t1]) == r2 by { assert [t1][1..] == []; }
    assert Replay(r, [t, t1, t2]) == Replay(r2, [t2]) by {
      assert [t, t1, t2][1..] == [t1, t2];
      assert [t1, t2][1..] == [t2];
    }
    assert Replay(r2, [t2]) == Advance(r2, t2) by { assert [t2][1..] == []; }
  }

  /** The streak health shown with the user's statistics. */
  datatype Status =
    | Warning              // 48 hours or more: the streak is lost on the next completion
    | Ready                // 24 to 48 hours: a completion now extends the streak
    | Wait(remaining: int) // under 24 hours: seconds left until the 24-hour mark

  /** The classification of `display_user_stats`: exhaustive and exclusive. */
  function Classify(elapsed: int): (s: Status)
    ensures s == Warning <==> LapseAfter <= elapsed
    ensures s == Ready <==> ExtendAfter <= elapsed < LapseAfter
    ensures s.Wait? <==> elapsed < ExtendAfter
    ensures s.Wait? ==> 0 < s.remaining && elapsed + s.remaining == ExtendAfter
  {
    if elapsed >= LapseAfter then Warning
    else if elapsed >= ExtendAfter then Ready
    else Wait(ExtendAfter - elapsed)
  }

  /** The status shown is what a completion at the same instant would do to the streak. */
  lemma StatusPredictsCompletion(r: UserRecord, last: Instant, now: Instant)
    requires r.lastAchievement == Some(last)
    ensures Classify(now - last) == Warning ==> Advance(r, now).currentStreak == 1
    ensures Classify(now - last) == Ready ==> Advance(r, now).currentStreak == r.currentStreak + 1
    ensures Classify(now - last).Wait? ==> Advance(r, now).currentStreak == r.currentStreak
  {
  }

  /** Waiting the remaining time shown makes the user ready to extend the streak. */
  lemma WaitEndsReady(elapsed: int)
    requires Classify(elapsed).Wait?
    ensures Classify(elapsed + Classify(elapsed).remaining) == Ready
  {
  }

  /** The UTC offset, in seconds, of the display zone at each instant. */
  type UtcOffset = Instant -> int

  /**
    The elapsed time the stats screen computes. Both instants are converted to
    the one US/Central zone object, and Python subtracts two datetimes that share
    a zone object as wall-clock times: the result is the true elapsed time
    corrected by the change of offset in between.
  */
  function WallClockElapsed(last: Instant, now: Instant, offset: UtcOffset): (e: int)
    ensures e - (now - last) == offset(now) - offset(last)
    ensures offset(now) == offset(last) ==> e == now - last
  {
    (now + offset(now)) - (last + offset(last))
  }

  /** US/Central around the spring change of 2024: CST (UTC-6) until 2024-03-10T08:00Z, then CDT (UTC-5). */
  function CentralSpring2024(t: Instant): (off: int)
    ensures off == -6 * SecondsPerHour || off == -5 * SecondsPerHour
  {
    if t < 1710057600 then -6 * SecondsPerHour else -5 * SecondsPerHour
  }

  /**
    Across a daylight-saving change the screen's status and the completion rule
    disagree: last at 2024-03-10T07:00Z and now at 2024-03-11T06:30Z are 23.5 h
    apart, so a completion keeps the streak, yet the screen sees 24.5 h and
    reports that the streak can be extended.
  */
  lemma DstChangeMisleadsStatus(r: UserRecord)
    requires r.lastAchievement == Some(1710054000)
    ensures Classify(WallClockElapsed(1710054000, 1710138600, CentralSpring2024)) == Ready
    ensures Advance(r, 1710138600).currentStreak == r.currentStreak
    ensures Advance(r, 1710138600).currentStreak != r.currentStreak + 1
  {
  }

  /** When the offset is the same at both instants, the screen's status predicts the completion. */
  lemma ScreenStatusPredictsCompletion(r: UserRecord, last: Instant, now: Instant, offset: UtcOffset)
    requires r.lastAchievement == Some(last) && offset(last) == offset(now)
    ensures var s := Classify(WallClockElapsed(last, now, offset));
      && (s == Warning ==> Advance(r, now).currentStreak == 1)
      && (s == Ready ==> Advance(r, now).currentStreak == r.currentStreak + 1)
      && (s.Wait? ==> Advance(r, now).currentStreak == r.currentStreak)
  {
  }
}
