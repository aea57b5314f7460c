/**
 * The traveller and the records attached to them. User.java and
 * UserPreferences.java are not part of this model: the mutators are taken
 * to be plain appends and setters, the last-location getter to return the
 * last history entry, and the initial preferences are a constructor argument.
 */
module Users {
  import opened GpsTypes

  /** An award: the check-in that earned it, the attraction and its points. */
  datatype UserReward = UserReward(visitedLocation: VisitedLocation, attraction: Attraction, rewardPoints: Points)

  /** Trip preferences read when asking the pricing provider for offers. */
  datatype UserPreferences = UserPreferences(numberOfAdults: int, numberOfChildren: int, tripDuration: int)

  /** A trip offer returned by the pricing provider. */
  datatype Provider = Provider(name: string, price: real, tripId: Uuid)

  class User {
    const userId: Uuid
    const userName: string
    var visitedLocations: seq<VisitedLocation>
    var userRewards: seq<UserReward>
    var userPreferences: UserPreferences
    var tripDeals: seq<Provider>

    /** A new traveller: empty history, rewards and offers; the initial preferences are given. */
    constructor (userId: Uuid, userName: string, userPreferences: UserPreferences)
      ensures this.userId == userId && this.userName == userName && this.userPreferences == userPreferences
      ensures visitedLocations == [] && userRewards == [] && tripDeals == []
    {
      this.userId := userId;
      this.userName := userName;
      visitedLocations := [];
      userRewards := [];
      this.userPreferences := userPreferences;
      tripDeals := [];
    }

    /** Appends one check-in to the end of the history. */
    method AddToVisitedLocations(v: VisitedLocation)
      modifies this`visitedLocations
      ensures visitedLocations == old(visitedLocations) + [v]
    {
      visitedLocations := visitedLocations + [v];
    }

    /** Appends one reward to the end of the reward list. */
    method AddUserReward(r: UserReward)
      modifies this`userRewards
      ensures userRewards == old(userRewards) + [r]
    {
      userRewards := userRewards + [r];
    }

    /** The most recent check-in. */
    function GetLastVisitedLocation(): (v: VisitedLocation)
      reads this
      requires |visitedLocations| > 0
      ensures visitedLocations == visitedLocations[..|visitedLocations| - 1] + [v]
    {
      visitedLocations[|visitedLocations| - 1]
    }

    /** Replaces the stored trip offers. */
    method SetTripDeals(deals: seq<Provider>)
      modifies this`tripDeals
      ensures tripDeals == deals
    {
      tripDeals := deals;
    }
  }
}
