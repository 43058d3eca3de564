/**
  The `UserStreakTracker`: the Firestore `users` collection is a map from Steam
  ID to the stored record, and each operation reads, decides and writes it back.
*/
module Tracker {
  import opened Wrappers
  import opened Streak

  /** What `display_user_stats` shows for a stored record. */
  datatype StatsReport = StatsReport(
    username: string,
    currentStreak: nat,
    longestStreak: nat,
    totalCompleted: nat,
    lastAchievement: Instant,
    secondsSince: int,
    status: Status)

  class UserStreakTracker {
    /** The `users` collection: one document per Steam ID. */
    var users: map<string, UserRecord>

    /** Every document is filed under its own Steam ID and is well-formed. */
    ghost predicate Valid()
      reads this
    {
      forall id :: id in users ==> users[id].steamId == id && WellFormed(users[id])
    }

    /** A tracker over an empty collection (the Firestore connection is not modelled). */
    constructor ()
      ensures users == map[]
      ensures Valid()
    {
      users := map[];
    }

    /**
      Returns the stored record of `steamId` without writing; otherwise stores
      and returns a fresh record created at `now`.
    */
    method GetOrCreateUser(steamId: string, username: Option<string>, now: Instant) returns (r: UserRecord)
      modifies this
      ensures steamId in old(users) ==> r == old(users)[steamId] && users == old(users)
      ensures steamId !in old(users) ==> r == NewUser(steamId, username, now) && users == old(users)[steamId := r]
      ensures steamId in users && users[steamId] == r
      ensures old(Valid()) ==> Valid()
    {
      if steamId in users {
        return users[steamId];
      }
      r := NewUser(steamId, username, now);
      users := users[steamId := r];
    }

    /**
      Records a confirmed completion at `now`. An unknown Steam ID yields None
      and leaves the collection alone; otherwise exactly that user's document is
      replaced by its advanced version, which is also returned.
    */
    method CompleteAchievement(steamId: string, now: Instant) returns (result: Option<UserRecord>)
      modifies this
      ensures steamId !in old(users) ==> result == None && users == old(users)
      ensures steamId in old(users) ==>
        && result == Some(Advance(old(users)[steamId], now))
        && users == old(users)[steamId := result.value]
      ensures users.Keys == old(users).Keys
      ensures forall id :: id in old(users) && id != steamId ==> users[id] == old(users)[id]
      ensures old(Valid()) ==> Valid()
    {
      if steamId !in users {
        return None;
      }
      var data := users[steamId];
      match data.lastAchievement {
        case None =>
          data := data.(currentStreak := 1, longestStreak := 1, totalCompleted := 1);
          data := data.(lastAchievement := Some(now));
        case Some(last) =>
          var secondsSince := now - last;
          if secondsSince < 24 * SecondsPerHour {
            data := data.(totalCompleted := data.totalCompleted + 1);
            data := data.(lastAchievement := Some(now));
          } else if 24 * SecondsPerHour <= secondsSince < 48 * SecondsPerHour {
            data := data.(currentStreak := data.currentStreak + 1);
            data := data.(totalCompleted := data.totalCompleted + 1);
            data := data.(lastAchievement := Some(now));
            if data.currentStreak > data.longestStreak {
              data := data.(longestStreak := data.currentStreak);
            }
          } else {
            data := data.(currentStreak := 1);
            data := data.(totalCompleted := data.totalCompleted + 1);
            data := data.(lastAchievement := Some(now));
          }
      }
      users := users[steamId := data];
      result := Some(data);
    }

    /**
      The statistics shown for `steamId` at `now`, or None when no document
      exists. A stored record must have a completion: `display_user_stats`
      dereferences the last completion instant unconditionally. The elapsed time
      is the US/Central wall-clock difference, with `offset` giving the zone's
      UTC offset at each instant.
    */
    method DisplayUserStats(steamId: string, now: Instant, offset: UtcOffset) returns (report: Option<StatsReport>)
      requires steamId in users ==> users[steamId].lastAchievement.Some?
      ensures steamId !in users ==> report == None
      ensures steamId in users ==> report.Some?
      ensures report.Some? ==>
        var r := users[steamId];
        var last := r.lastAchievement.value;
        && report.value.username == r.username
        && report.value.currentStreak == r.currentStreak
        && report.value.longestStreak == r.longestStreak
        && report.value.totalCompleted == r.totalCompleted
        && report.value.lastAchievement == last
        && report.value.secondsSince == WallClockElapsed(last, now, offset)
        && report.value.status == Classify(report.value.secondsSince)
    {
      if steamId !in users {
        return None;
      }
      var data := users[steamId];
      var last := data.lastAchievement.value;
      var nowLocal := now + offset(now);
      var lastLocal := last + offset(last);
      var secondsSince := nowLocal - lastLocal;
      var status: Status;
      if secondsSince >= 48 * SecondsPerHour {
        status := Warning;
      } else if secondsSince >= 24 * SecondsPerHour {
        status := Ready;
      } else {
        status := Wait(24 * SecondsPerHour - secondsSince);
      }
      report := Some(StatsReport(data.username, data.currentStreak, data.longestStreak,
                                 data.totalCompleted, last, secondsSince, status));
    }
  }

  /** Looking a user up twice returns the same record and the second call writes nothing. */
  method GetOrCreateIsIdempotent(t: UserStreakTracker, steamId: string,
                                 name1: Option<string>, name2: Option<string>, now1: Instant, now2: Instant)
      returns (first: UserRecord, second: UserRecord)
    modifies t
    ensures first == second
    ensures t.users == old(t.users)[steamId := first]
    ensures steamId in old(t.users) ==> first == old(t.users)[steamId]
    ensures steamId !in old(t.users) ==> first == NewUser(steamId, name1, now1)
  {
    first := t.GetOrCreateUser(steamId, name1, now1);
    ghost var between := t.users;
    second := t.GetOrCreateUser(steamId, name2, now2);
    assert t.users == between;
  }
}
