/**
  The candidate filter of `SteamAchievementFetcher.get_random_achievement`. The
  two Steam Web API replies it consumes are parameters; `random.choice` is a
  `choice` parameter that selects one candidate.
*/
module Achievements {
  import opened Wrappers

  /** An entry of a game's achievement schema. */
  datatype Achievement = Achievement(name: string, displayName: string, description: string)

  /** An entry of a player's achievement list; `achieved` is absent when the reply omits it. */
  datatype PlayerAchievement = PlayerAchievement(name: string, achieved: Option<int>)

  /** The reply of `get_user_achievements`, as far as the filter looks at it. */
  datatype UserAchievements =
    | NoReply                                      // the request failed, or the reply is empty
    | NoPlayerStats                                // the reply has no `playerstats`
    | PlayerStats(achievements: seq<PlayerAchievement>)  // a missing list reads as []

  /** `n` names an entry of `ua` whose `achieved` is 1. */
  ghost predicate Unlocked(ua: seq<PlayerAchievement>, n: string) {
    exists a :: a in ua && a.achieved == Some(1) && a.name == n
  }

  /** The names of the unlocked entries, in order. */
  function UnlockedNames(ua: seq<PlayerAchievement>): (names: seq<string>)
    ensures |names| <= |ua|
    ensures forall n :: n in names <==> Unlocked(ua, n)
  {
    if ua == [] then []
    else
      var rest := UnlockedNames(ua[1..]);
      assert forall a :: a in ua <==> a == ua[0] || a in ua[1..];
      if ua[0].achieved == Some(1) then [ua[0].name] + rest else rest
  }

  /**
    The catalog entries whose name is in `names`, in catalog order and with
    their multiplicity: a filter of the catalog, nothing added.
  */
  function Matching(catalog: seq<Achievement>, names: seq<string>): (r: seq<Achievement>)
    ensures |r| <= |catalog|
    ensures forall a :: multiset(r)[a] == if a.name in names then multiset(catalog)[a] else 0
    ensures forall a :: a in r <==> a in catalog && a.name in names
  {
    if catalog == [] then []
    else
      var rest := Matching(catalog[1..], names);
      assert catalog == [catalog[0]] + catalog[1..];
      if catalog[0].name in names then [catalog[0]] + rest else rest
  }

  /** The filter applies only with `unlocked_only`, a non-empty Steam ID and a reply that has `playerstats`. */
  predicate FiltersByUnlocked(unlockedOnly: bool, steamId: Option<string>, user: UserAchievements) {
    unlockedOnly && steamId.Some? && steamId.value != "" && user.PlayerStats?
  }

  /** The list `random.choice` draws from. */
  function Candidates(catalog: seq<Achievement>, unlockedOnly: bool, steamId: Option<string>,
                      user: UserAchievements): (r: seq<Achievement>)
    ensures forall a :: a in r ==> a in catalog
    ensures FiltersByUnlocked(unlockedOnly, steamId, user) ==>
      forall a :: a in r <==> a in catalog && Unlocked(user.achievements, a.name)
    ensures !FiltersByUnlocked(unlockedOnly, steamId, user) ==> r == catalog
  {
    if FiltersByUnlocked(unlockedOnly, steamId, user)
    then Matching(catalog, UnlockedNames(user.achievements))
    else catalog
  }

  /**
    `get_random_achievement`: None for a missing or empty catalog and for an
    empty candidate list; otherwise the candidate `choice` selects, which is a
    catalog entry and, when filtering applies, an unlocked one.
  */
  function GetRandomAchievement(catalog: Option<seq<Achievement>>, unlockedOnly: bool,
                                steamId: Option<string>, user: UserAchievements, choice: nat)
    : (r: Option<Achievement>)
    ensures r.None? <==>
      catalog.None? || catalog.value == [] || Candidates(catalog.value, unlockedOnly, steamId, user) == []
    ensures r.Some? ==> r.value in catalog.value
    ensures r.Some? ==> r.value in Candidates(catalog.value, unlockedOnly, steamId, user)
    ensures r.Some? && FiltersByUnlocked(unlockedOnly, steamId, user) ==>
      Unlocked(user.achievements, r.value.name)
  {
    match catalog
    case None => None
    case Some(all) =>
      if all == [] then None
      else
        var candidates := Candidates(all, unlockedOnly, steamId, user);
        if candidates == [] then None
        else Some(candidates[choice % |candidates|])
  }

  /** Every candidate is drawn for some choice: the model does not narrow `random.choice`. */
  lemma EveryCandidateCanBeDrawn(catalog: seq<Achievement>, unlockedOnly: bool,
                                 steamId: Option<string>, user: UserAchievements, a: Achievement)
    requires a in Candidates(catalog, unlockedOnly, steamId, user)
    ensures exists choice: nat :: GetRandomAchievement(Some(catalog), unlockedOnly, steamId, user, choice) == Some(a)
  {
    var candidates := Candidates(catalog, unlockedOnly, steamId, user);
    var i :| 0 <= i < |candidates| && candidates[i] == a;
    assert catalog != [] && candidates != [];
    assert i % |candidates| == i;
    assert GetRandomAchievement(Some(catalog), unlockedOnly, steamId, user, i) == Some(a);
  }
}
