/**
 * The reward engine service: the reward radius configuration, the
 * proximity checks and the scan that turns a user's check-ins into rewards,
 * single-user and for a list of users.
 */
module Rewards {
  import opened GpsTypes
  import opened Users
  import opened RewardRules

  class RewardsService {
    /** Default reward radius in miles. */
    const defaultProximityBuffer: int := 10
    /** Fixed discovery radius in miles. */
    const attractionProximityRange: int := 200

    /** Reward radius in miles, configurable at run time. */
    var proximityBuffer: int

    /** The location provider's attraction catalog, in its order. */
    const attractions: seq<Attraction>
    /** Great-circle distance in statute miles. */
    const distance: (Location, Location) -> real
    /** The points provider: points for (attraction id, user id). */
    const attractionRewardPoints: (Uuid, Uuid) -> Points

    constructor (attractions: seq<Attraction>, distance: (Location, Location) -> real, rewardPoints: (Uuid, Uuid) -> Points)
      ensures this.attractions == attractions && this.distance == distance && attractionRewardPoints == rewardPoints
      ensures proximityBuffer == 10
    {
      this.attractions := attractions;
      this.distance := distance;
      attractionRewardPoints := rewardPoints;
      proximityBuffer := defaultProximityBuffer;
    }

    /** The reward radius in force. */
    function Policy(): Proximity
      reads this
    {
      Proximity(distance, proximityBuffer)
    }

    /** What a scan of user's history depends on. */
    function ScoringFor(user: User): Scoring
      reads this
    {
      Scoring(Policy(), attractionRewardPoints, user.userId)
    }

    method SetProximityBuffer(proximityBuffer: int)
      modifies this`proximityBuffer
      ensures this.proximityBuffer == proximityBuffer
      ensures forall v, a :: NearAttraction(v, a) <==> distance(a.location, v.location) <= proximityBuffer as real
    {
      this.proximityBuffer := proximityBuffer;
    }

    method SetDefaultProximityBuffer()
      modifies this`proximityBuffer
      ensures proximityBuffer == 10
      ensures forall v, a :: NearAttraction(v, a) <==> distance(a.location, v.location) <= 10.0
    {
      proximityBuffer := defaultProximityBuffer;
    }

    /** A check-in is near an attraction under the current reward radius. */
    predicate NearAttraction(visitedLocation: VisitedLocation, attraction: Attraction): (near: bool)
      reads this
      ensures near <==> distance(attraction.location, visitedLocation.location) <= proximityBuffer as real
    {
      Within(Policy(), attraction, visitedLocation.location)
    }

    /**
     * Discovery-range check: it reads no mutable state, so the reward radius
     * cannot affect it; the radius is always 200 miles, and everything near
     * under any reward radius up to 200 miles is within it.
     */
    function IsWithinAttractionProximity(attraction: Attraction, location: Location): (r: bool)
      ensures r <==> distance(attraction.location, location) <= 200.0
      ensures forall radius :: radius <= 200 && Within(Proximity(distance, radius), attraction, location) ==> r
    {
      Within(Proximity(distance, attractionProximityRange), attraction, location)
    }

    function GetDistance(loc1: Location, loc2: Location): real
    {
      distance(loc1, loc2)
    }

    function GetRewardPoints(attraction: Attraction, user: User): Points
    {
      attractionRewardPoints(attraction.attractionId, user.userId)
    }

    /**
     * Scores the user's history against the catalog: appends exactly
     * NewRewards to the rewards held on entry and touches nothing else.
     * The inner loop over the catalog is RewardVisit.
     */
    method CalculateRewards(user: User)
      modifies user`userRewards
      ensures user.userRewards == old(user.userRewards)
        + NewRewards(ScoringFor(user), user.visitedLocations, attractions, old(user.userRewards))
    {
      var visitedLocations := user.visitedLocations;
      var catalog := attractions;
      var rewardedAttractions := RewardNames(user.userRewards);
      ghost var sc := ScoringFor(user);
      ghost var goal := user.userRewards + HistoryRewards(sc, visitedLocations, catalog, rewardedAttractions);

      var i := 0;
      while i < |visitedLocations|
        invariant 0 <= i <= |visitedLocations|
        invariant goal == user.userRewards + HistoryRewards(sc, visitedLocations[i..], catalog, rewardedAttractions)
      {
        ghost var rewardsBefore := user.userRewards;
        ghost var earned := VisitRewards(sc, visitedLocations[i], catalog, rewardedAttractions);
        HistoryRewardsStep(sc, visitedLocations, i, catalog, rewardedAttractions);
        assert goal == rewardsBefore + earned
          + HistoryRewards(sc, visitedLocations[i + 1..], catalog, rewardedAttractions + RewardNames(earned));
        rewardedAttractions := RewardVisit(user, visitedLocations[i], catalog, rewardedAttractions);
        i := i + 1;
      }
      assert visitedLocations[|visitedLocations|..] == [];
    }

    /**
     * The inner loop of CalculateRewards: one check-in against the catalog,
     * in catalog order. Appends the rewards VisitRewards prescribes and
     * returns the rewarded names, grown by the names just rewarded.
     */
    method RewardVisit(user: User, visitedLocation: VisitedLocation, catalog: seq<Attraction>, rewardedAttractions: set<string>)
      returns (rewarded: set<string>)
      modifies user`userRewards
      ensures user.userRewards == old(user.userRewards)
        + VisitRewards(ScoringFor(user), visitedLocation, catalog, rewardedAttractions)
      ensures rewarded == rewardedAttractions
        + RewardNames(VisitRewards(ScoringFor(user), visitedLocation, catalog, rewardedAttractions))
    {
      ghost var sc := ScoringFor(user);
      ghost var earned := VisitRewards(sc, visitedLocation, catalog, rewardedAttractions);
      rewarded := rewardedAttractions;
      assert catalog[0..] == catalog;
      var j := 0;
      while j < |catalog|
        invariant 0 <= j <= |catalog|
        invariant user.userRewards + VisitRewards(sc, visitedLocation, catalog[j..], rewarded)
          == old(user.userRewards) + earned
        invariant rewarded + RewardNames(VisitRewards(sc, visitedLocation, catalog[j..], rewarded))
          == rewardedAttractions + RewardNames(earned)
      {
        var attraction := catalog[j];
        var attractionName := attraction.attractionName;
        var near := NearAttraction(visitedLocation, attraction);
        if !(attractionName in rewarded) && near {
          VisitScanAward(sc, visitedLocation, catalog, j, rewarded,
            user.userRewards, old(user.userRewards) + earned, rewardedAttractions + RewardNames(earned));
          var rewardPoints := GetRewardPoints(attraction, user);
          user.AddUserReward(UserReward(visitedLocation, attraction, rewardPoints));
          rewarded := rewarded + {attractionName};
        } else {
          VisitScanSkip(sc, visitedLocation, catalog, j, rewarded,
            user.userRewards, old(user.userRewards) + earned, rewardedAttractions + RewardNames(earned));
        }
        j := j + 1;
      }
      assert catalog[|catalog|..] == [];
      assert rewarded + RewardNames([]) == rewarded;
    }

    /**
     * Scores every listed user in turn, as the thread pool does in some
     * order: each listed user ends with exactly one scan's rewards appended
     * (a user listed twice gains nothing from the second scan), and no
     * history changes.
     */
    method CalculateAllUsersRewardsAsync(users: seq<User>)
      modifies (set u | u in users)`userRewards
      ensures forall u :: u in users ==> u.visitedLocations == old(u.visitedLocations)
      ensures forall u :: u in users ==>
        u.userRewards == old(u.userRewards) + NewRewards(ScoringFor(u), u.visitedLocations, attractions, old(u.userRewards))
    {
      var i := 0;
      while i < |users|
        invariant 0 <= i <= |users|
        invariant forall u :: u in users ==> u.visitedLocations == old(u.visitedLocations)
        invariant forall u :: u in users[..i] ==>
          u.userRewards == old(u.userRewards) + NewRewards(ScoringFor(u), u.visitedLocations, attractions, old(u.userRewards))
        invariant forall u :: u in users && u !in users[..i] ==> u.userRewards == old(u.userRewards)
      {
        var user := users[i];
        NewRewardsIdempotent(ScoringFor(user), user.visitedLocations, attractions, old(user.userRewards));
        CalculateRewards(user);
        assert users[..i + 1] == users[..i] + [user];
        i := i + 1;
      }
      assert users[..|users|] == users;
    }
  }
}
