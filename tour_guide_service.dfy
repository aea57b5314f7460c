/**
 * The tracking service and user registry: registration keyed by user
 * name, location tracking that appends a fix and then scores the user,
 * read-through location lookup, the nearby-attractions query, trip deals
 * priced from the reward-point total, and tracking of a list of users.
 */
module TourGuide {
  import opened GpsTypes
  import opened Users
  import opened RewardRules
  import opened Rewards
  import Nearby

  const TwoTo31: int := 0x8000_0000
  const TwoTo32: int := 0x1_0000_0000

  /** Java int arithmetic: x reduced into [-2^31, 2^31) modulo 2^32. */
  function WrapInt32(x: int): (r: int)
    ensures -TwoTo31 <= r < TwoTo31
    ensures (r - x) % TwoTo32 == 0
    ensures -TwoTo31 <= x < TwoTo31 ==> r == x
  {
    (x + TwoTo31) % TwoTo32 - TwoTo31
  }

  /** The mathematical sum of the points of a reward list. */
  function SumRewardPoints(rs: seq<UserReward>): (s: int)
    ensures s >= 0
    decreases |rs|
  {
    if rs == [] then 0 else rs[0].rewardPoints + SumRewardPoints(rs[1..])
  }

  lemma {:induction false} SumRewardPointsAppend(a: seq<UserReward>, b: seq<UserReward>)
    ensures SumRewardPoints(a + b) == SumRewardPoints(a) + SumRewardPoints(b)
    decreases |a|
  {
    if a == [] {
      assert a + b == b;
    } else {
      assert (a + b)[0] == a[0] && (a + b)[1..] == a[1..] + b;
      SumRewardPointsAppend(a[1..], b);
    }
  }

  /**
   * The reward-point total handed to the trip pricer: an int stream sum,
   * so the true sum wrapped to 32 bits; it is the true sum whenever that
   * fits in an int.
   */
  function TotalRewardPoints(rs: seq<UserReward>): (t: int)
    ensures -TwoTo31 <= t < TwoTo31
    ensures (t - SumRewardPoints(rs)) % TwoTo32 == 0
    ensures SumRewardPoints(rs) < TwoTo31 ==> t == SumRewardPoints(rs)
  {
    WrapInt32(SumRewardPoints(rs))
  }

  /** Appending one reward moves the total by that reward's points under int addition, as the stream's running sum does. */
  lemma TotalRewardPointsAppend(rs: seq<UserReward>, r: UserReward)
    ensures TotalRewardPoints(rs + [r]) == WrapInt32(TotalRewardPoints(rs) + r.rewardPoints)
  {
    SumRewardPointsAppend(rs, [r]);
    assert SumRewardPoints([r]) == r.rewardPoints by {
      assert [r][1..] == [];
    }
    var s := SumRewardPoints(rs);
    var t := TotalRewardPoints(rs);
    var k := (s - t) / TwoTo32;
    assert s - t == k * TwoTo32;
    assert WrapInt32(s + r.rewardPoints) == WrapInt32(t + r.rewardPoints) by {
      WrapShift(t + r.rewardPoints, k);
    }
  }

  lemma WrapShift(x: int, k: int)
    ensures WrapInt32(x + k * TwoTo32) == WrapInt32(x)
  {
    assert (x + k * TwoTo32 + TwoTo31) % TwoTo32 == (x + TwoTo31) % TwoTo32;
  }

  /** How many times u occurs in the list. */
  function Occurrences(users: seq<User>, u: User): nat
    decreases |users|
  {
    if users == [] then 0
    else Occurrences(users[..|users| - 1], u) + (if users[|users| - 1] == u then 1 else 0)
  }

  lemma OccurrencesAppend(users: seq<User>, x: User)
    ensures forall u :: Occurrences(users + [x], u) == Occurrences(users, u) + (if x == u then 1 else 0)
  {
    assert (users + [x])[..|users|] == users;
  }

  /** Every listed user is listed at least once, so bulk tracking tracks it at least once. */
  lemma {:induction false} OccurrencesMember(users: seq<User>, u: User)
    requires u in users
    ensures Occurrences(users, u) > 0
    decreases |users|
  {
    if users[|users| - 1] != u {
      var front := users[..|users| - 1];
      assert users == front + [users[|users| - 1]];
      OccurrencesMember(front, u);
    }
  }

  /** n copies of v. */
  function Repeat(v: VisitedLocation, n: nat): (r: seq<VisitedLocation>)
    ensures |r| == n && forall p :: 0 <= p < n ==> r[p] == v
  {
    if n == 0 then [] else Repeat(v, n - 1) + [v]
  }

  /**
   * Where a user stands after k of its tracking calls, starting from
   * history visits0 and rewards rewards0, every call fixing it at fix:
   * k fixes appended, earlier rewards kept as a prefix, distinct names
   * kept distinct, the rewards covering the history once tracked, and
   * after exactly one call exactly one scan's rewards appended.
   */
  ghost predicate TrackedAs(sc: Scoring, fix: VisitedLocation, catalog: seq<Attraction>,
                            visits0: seq<VisitedLocation>, rewards0: seq<UserReward>,
                            visits: seq<VisitedLocation>, rewards: seq<UserReward>, k: nat)
  {
    && visits == visits0 + Repeat(fix, k)
    && rewards0 <= rewards
    && (DistinctNames(rewards0) ==> DistinctNames(rewards))
    && (k > 0 ==> Complete(sc, visits, catalog, rewards))
    && (k == 0 ==> rewards == rewards0)
    && (k == 1 ==> rewards == rewards0 + NewRewards(sc, visits, catalog, rewards0))
  }

  /** One more tracking call (append the fix, then scan) keeps TrackedAs, one call further on. */
  lemma TrackedAsStep(sc: Scoring, fix: VisitedLocation, catalog: seq<Attraction>,
                      visits0: seq<VisitedLocation>, rewards0: seq<UserReward>,
                      visits: seq<VisitedLocation>, rewards: seq<UserReward>, k: nat)
    requires TrackedAs(sc, fix, catalog, visits0, rewards0, visits, rewards, k)
    ensures TrackedAs(sc, fix, catalog, visits0, rewards0,
      visits + [fix], rewards + NewRewards(sc, visits + [fix], catalog, rewards), k + 1)
  {
    var earned := NewRewards(sc, visits + [fix], catalog, rewards);
    assert visits0 + Repeat(fix, k + 1) == visits + [fix];
    NewRewardsFacts(sc, visits + [fix], catalog, rewards);
    assert rewards0 <= rewards + earned by {
      assert (rewards + earned)[..|rewards|] == rewards;
    }
  }

  class TourGuideService {
    const rewardsService: RewardsService
    /** The key the trip pricer is called with. */
    const tripPricerApiKey: string := "test-server-api-key"
    /** The user registry, keyed by user name. */
    var internalUserMap: map<string, User>

    /** Every registered user is filed under its own name. */
    ghost predicate Valid()
      reads this
    {
      forall name :: name in internalUserMap ==> internalUserMap[name].userName == name
    }

    constructor (rewardsService: RewardsService)
      ensures Valid() && this.rewardsService == rewardsService && internalUserMap == map[]
    {
      this.rewardsService := rewardsService;
      internalUserMap := map[];
    }

    /** The user filed under userName, or null when there is none. */
    function GetUser(userName: string): (u: User?)
      reads this
      requires Valid()
      ensures u == null <==> userName !in internalUserMap
      ensures u != null ==> u == internalUserMap[userName] && u.userName == userName
    {
      if userName in internalUserMap then internalUserMap[userName] else null
    }

    /**
     * A fresh list of all registered users, each once, in an unspecified
     * order (a hash map's iteration order).
     */
    method GetAllUsers() returns (users: seq<User>)
      requires Valid()
      ensures forall u :: u in users <==> u in internalUserMap.Values
      ensures forall p, q :: 0 <= p < q < |users| ==> users[p] != users[q]
      ensures |users| == |internalUserMap|
    {
      users := [];
      var remaining := internalUserMap.Keys;
      while remaining != {}
        invariant remaining <= internalUserMap.Keys
        invariant forall u :: u in users ==> u in internalUserMap.Values && u.userName !in remaining
        invariant forall k :: k in internalUserMap && k !in remaining ==> internalUserMap[k] in users
        invariant forall p, q :: 0 <= p < q < |users| ==> users[p] != users[q]
        invariant |users| + |remaining| == |internalUserMap.Keys|
        decreases remaining
      {
        var name :| name in remaining;
        var user := internalUserMap[name];
        users := users + [user];
        remaining := remaining - {name};
      }
      assert |internalUserMap.Keys| == |internalUserMap|;
    }

    /** Registers user under its name unless that name is taken; an existing entry is never replaced. */
    method AddUser(user: User)
      requires Valid()
      modifies this`internalUserMap
      ensures Valid()
      ensures old(user.userName in internalUserMap) ==> internalUserMap == old(internalUserMap)
      ensures old(user.userName !in internalUserMap) ==> internalUserMap == old(internalUserMap)[user.userName := user]
      ensures GetUser(user.userName) == if old(user.userName in internalUserMap) then old(internalUserMap[user.userName]) else user
    {
      if user.userName !in internalUserMap {
        internalUserMap := internalUserMap[user.userName := user];
      }
    }

    /**
     * Asks the pricer for offers for the user's preferences and reward-point
     * total, stores them on the user and returns them.
     */
    method GetTripDeals(user: User, getPrice: (string, Uuid, int, int, int, int) -> seq<Provider>) returns (providers: seq<Provider>)
      modifies user`tripDeals
      ensures providers == getPrice(tripPricerApiKey, user.userId, user.userPreferences.numberOfAdults,
        user.userPreferences.numberOfChildren, user.userPreferences.tripDuration, TotalRewardPoints(user.userRewards))
      ensures user.tripDeals == providers
    {
      var totalRewardPoints := TotalRewardPoints(user.userRewards);
      providers := getPrice(tripPricerApiKey, user.userId, user.userPreferences.numberOfAdults,
        user.userPreferences.numberOfChildren, user.userPreferences.tripDuration, totalRewardPoints);
      user.SetTripDeals(providers);
    }

    /**
     * Appends the location provider's current fix for the user to the
     * history, scores the extended history, and returns that fix.
     */
    method TrackUserLocation(user: User, getUserLocation: Uuid -> VisitedLocation) returns (visitedLocation: VisitedLocation)
      modifies user`visitedLocations, user`userRewards
      ensures visitedLocation == getUserLocation(user.userId)
      ensures user.visitedLocations == old(user.visitedLocations) + [visitedLocation]
      ensures user.userRewards == old(user.userRewards)
        + NewRewards(rewardsService.ScoringFor(user), user.visitedLocations, rewardsService.attractions, old(user.userRewards))
    {
      visitedLocation := getUserLocation(user.userId);
      user.AddToVisitedLocations(visitedLocation);
      rewardsService.CalculateRewards(user);
    }

    /**
     * The last check-in when the history is non-empty, changing nothing;
     * otherwise exactly what TrackUserLocation does.
     */
    method GetUserLocation(user: User, getUserLocation: Uuid -> VisitedLocation) returns (visitedLocation: VisitedLocation)
      modifies user`visitedLocations, user`userRewards
      ensures old(|user.visitedLocations|) > 0 ==>
        && visitedLocation == old(user.visitedLocations)[old(|user.visitedLocations|) - 1]
        && user.visitedLocations == old(user.visitedLocations)
        && user.userRewards == old(user.userRewards)
      ensures old(|user.visitedLocations|) == 0 ==>
        && visitedLocation == getUserLocation(user.userId)
        && user.visitedLocations == [visitedLocation]
        && user.userRewards == old(user.userRewards)
          + NewRewards(rewardsService.ScoringFor(user), user.visitedLocations, rewardsService.attractions, old(user.userRewards))
    {
      if |user.visitedLocations| > 0 {
        visitedLocation := user.GetLastVisitedLocation();
      } else {
        visitedLocation := TrackUserLocation(user, getUserLocation);
      }
    }

    /**
     * The five (or fewer) catalog attractions nearest to the check-in, by
     * the distance from the check-in's location, nearest first.
     */
    function GetNearByAttractions(visitedLocation: VisitedLocation): (r: seq<Attraction>)
      ensures |r| == Nearby.Min(Nearby.NearbyLimit, |rewardsService.attractions|)
      ensures forall p :: 0 <= p < |r| ==> r[p] in rewardsService.attractions
      ensures forall p, q :: 0 <= p < q < |r| ==>
        rewardsService.distance(visitedLocation.location, r[p].location)
          <= rewardsService.distance(visitedLocation.location, r[q].location)
    {
      Nearby.NearestAttractionsSorted(rewardsService.attractions, rewardsService.distance, visitedLocation.location);
      Nearby.NearestAttractions(rewardsService.attractions, rewardsService.distance, visitedLocation.location)
    }

    /**
     * Tracks every listed user in turn (the thread pool's units, run one
     * after another): every listed user ends TrackedAs after as many
     * tracking calls as it occurs in the list, from its state on entry:
     * that many fixes appended to its history, earlier rewards kept as a
     * prefix, distinct names kept distinct, the extended history covered,
     * and exactly one scan's rewards for a user listed once.
     */
    method CalculateAllTrackUserLocationAsync(users: seq<User>, getUserLocation: Uuid -> VisitedLocation)
      modifies (set u | u in users)`visitedLocations, (set u | u in users)`userRewards
      ensures forall u :: u in users ==>
        TrackedAs(rewardsService.ScoringFor(u), getUserLocation(u.userId), rewardsService.attractions,
          old(u.visitedLocations), old(u.userRewards), u.visitedLocations, u.userRewards, Occurrences(users, u))
    {
      var i := 0;
      while i < |users|
        invariant 0 <= i <= |users|
        invariant forall u :: u in users ==>
          TrackedAs(rewardsService.ScoringFor(u), getUserLocation(u.userId), rewardsService.attractions,
            old(u.visitedLocations), old(u.userRewards), u.visitedLocations, u.userRewards, Occurrences(users[..i], u))
      {
        var user := users[i];
        TrackedAsStep(rewardsService.ScoringFor(user), getUserLocation(user.userId), rewardsService.attractions,
          old(user.visitedLocations), old(user.userRewards), user.visitedLocations, user.userRewards,
          Occurrences(users[..i], user));
        var _ := TrackUserLocation(user, getUserLocation);
        assert users[..i + 1] == users[..i] + [user];
        OccurrencesAppend(users[..i], user);
        forall u | u in users
          ensures TrackedAs(rewardsService.ScoringFor(u), getUserLocation(u.userId), rewardsService.attractions,
            old(u.visitedLocations), old(u.userRewards), u.visitedLocations, u.userRewards, Occurrences(users[..i + 1], u))
        {
          if u != user {
            assert Occurrences(users[..i + 1], u) == Occurrences(users[..i], u);
          }
        }
        i := i + 1;
      }
      assert users[..|users|] == users;
    }
  }
}
