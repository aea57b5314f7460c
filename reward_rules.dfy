/**
 * The reward rule as a pure specification: which rewards one scan of a
 * user's check-in history against the attraction catalog appends, and the
 * facts about that scan (no name rewarded twice, earlier rewards kept,
 * every nearby attraction rewarded, a second scan adds nothing).
 * RewardsService.CalculateRewards is proved to append exactly NewRewards.
 */
module RewardRules {
  import opened GpsTypes
  import opened Users

  /** A distance function (miles) together with a radius (miles). */
  datatype Proximity = Proximity(distance: (Location, Location) -> real, radius: int)

  /**
   * What one scan depends on: the reward radius in force with the distance
   * function, the points provider, keyed by (attraction id, user id), and the
   * id of the user being scored.
   */
  datatype Scoring = Scoring(policy: Proximity, rewardPoints: (Uuid, Uuid) -> Points, userId: Uuid)

  /** A location is within a range of an attraction when its distance from the attraction is at most the radius; the int radius is widened to a real, as Java widens it to double. */
  predicate Within(p: Proximity, a: Attraction, loc: Location)
  {
    p.distance(a.location, loc) <= p.radius as real
  }

  /** A check-in is "at" an attraction when it lies within the reward radius. */
  predicate Near(sc: Scoring, v: VisitedLocation, a: Attraction)
  {
    Within(sc.policy, a, v.location)
  }

  /** The reward created for attraction a at check-in v, with the provider's points for (a, user). */
  function Award(sc: Scoring, v: VisitedLocation, a: Attraction): UserReward
  {
    UserReward(v, a, sc.rewardPoints(a.attractionId, sc.userId))
  }

  /** The attraction names a reward list already covers (the dedup key is the name, not the id). */
  function RewardNames(rs: seq<UserReward>): set<string>
  {
    set r | r in rs :: r.attraction.attractionName
  }

  /** No two rewards of the list share an attraction name. */
  predicate DistinctNames(rs: seq<UserReward>)
  {
    forall i, j :: 0 <= i < j < |rs| ==> rs[i].attraction.attractionName != rs[j].attraction.attractionName
  }

  /** Rewards earned at one check-in, scanning the catalog in order; seen holds the names already rewarded. */
  function VisitRewards(sc: Scoring, v: VisitedLocation, catalog: seq<Attraction>, seen: set<string>): (r: seq<UserReward>)
    ensures |r| <= |catalog|
    ensures forall x :: x in r ==> x.visitedLocation == v
    decreases |catalog|
  {
    if catalog == [] then []
    else
      var a := catalog[0];
      if a.attractionName !in seen && Near(sc, v, a) then
        [Award(sc, v, a)] + VisitRewards(sc, v, catalog[1..], seen + {a.attractionName})
      else
        VisitRewards(sc, v, catalog[1..], seen)
  }

  /** Rewards earned over a whole history, check-ins in order, each scanning the whole catalog. */
  function HistoryRewards(sc: Scoring, visits: seq<VisitedLocation>, catalog: seq<Attraction>, seen: set<string>): (r: seq<UserReward>)
    ensures forall x :: x in r ==> x.visitedLocation in visits
    decreases |visits|
  {
    if visits == [] then []
    else
      var here := VisitRewards(sc, visits[0], catalog, seen);
      assert forall w :: w in visits[1..] ==> w in visits;
      here + HistoryRewards(sc, visits[1..], catalog, seen + RewardNames(here))
  }

  /** The check-in recorded in r occurs in the history, and no earlier check-in is near r's attraction. */
  predicate FirstNearVisit(sc: Scoring, visits: seq<VisitedLocation>, r: UserReward)
  {
    exists i :: 0 <= i < |visits| && visits[i] == r.visitedLocation
      && (forall k :: 0 <= k < i ==> !Near(sc, visits[k], r.attraction))
  }

  /** The rewards one call of the reward engine appends to a user holding the rewards existing. */
  function NewRewards(sc: Scoring, visits: seq<VisitedLocation>, catalog: seq<Attraction>, existing: seq<UserReward>): seq<UserReward>
  {
    HistoryRewards(sc, visits, catalog, RewardNames(existing))
  }

  lemma RewardNamesAppend(a: seq<UserReward>, b: seq<UserReward>)
    ensures RewardNames(a + b) == RewardNames(a) + RewardNames(b)
  {
    assert forall r :: r in a + b <==> r in a || r in b;
  }

  /** One step of a check-in's scan at catalog position j, and the rewarded names it leaves behind. */
  lemma VisitRewardsStep(sc: Scoring, v: VisitedLocation, catalog: seq<Attraction>, j: nat, seen: set<string>)
    requires j < |catalog|
    ensures var a := catalog[j];
      if a.attractionName !in seen && Near(sc, v, a) then
        && VisitRewards(sc, v, catalog[j..], seen)
           == [Award(sc, v, a)] + VisitRewards(sc, v, catalog[j + 1..], seen + {a.attractionName})
        && seen + RewardNames(VisitRewards(sc, v, catalog[j..], seen))
           == (seen + {a.attractionName}) + RewardNames(VisitRewards(sc, v, catalog[j + 1..], seen + {a.attractionName}))
      else
        VisitRewards(sc, v, catalog[j..], seen) == VisitRewards(sc, v, catalog[j + 1..], seen)
  {
    var a := catalog[j];
    assert catalog[j..][0] == a && catalog[j..][1..] == catalog[j + 1..];
    if a.attractionName !in seen && Near(sc, v, a) {
      var rest := VisitRewards(sc, v, catalog[j + 1..], seen + {a.attractionName});
      RewardNamesAppend([Award(sc, v, a)], rest);
      assert RewardNames([Award(sc, v, a)]) == {a.attractionName};
    }
  }

  /**
   * The scan's bookkeeping across a catalog position that earns a reward:
   * rewards so far plus the rest of this check-in's scan stay equal to
   * target, and the rewarded names plus those still to come stay equal to
   * targetNames.
   */
  lemma VisitScanAward(sc: Scoring, v: VisitedLocation, catalog: seq<Attraction>, j: nat, seen: set<string>,
                       rewards: seq<UserReward>, target: seq<UserReward>, targetNames: set<string>)
    requires j < |catalog| && catalog[j].attractionName !in seen && Near(sc, v, catalog[j])
    requires rewards + VisitRewards(sc, v, catalog[j..], seen) == target
    requires seen + RewardNames(VisitRewards(sc, v, catalog[j..], seen)) == targetNames
    ensures (rewards + [Award(sc, v, catalog[j])])
      + VisitRewards(sc, v, catalog[j + 1..], seen + {catalog[j].attractionName}) == target
    ensures (seen + {catalog[j].attractionName})
      + RewardNames(VisitRewards(sc, v, catalog[j + 1..], seen + {catalog[j].attractionName})) == targetNames
  {
    VisitRewardsStep(sc, v, catalog, j, seen);
    var a := catalog[j];
    var rest := VisitRewards(sc, v, catalog[j + 1..], seen + {a.attractionName});
    assert rewards + ([Award(sc, v, a)] + rest) == (rewards + [Award(sc, v, a)]) + rest;
  }

  /** The same bookkeeping across a catalog position that earns nothing. */
  lemma VisitScanSkip(sc: Scoring, v: VisitedLocation, catalog: seq<Attraction>, j: nat, seen: set<string>,
                      rewards: seq<UserReward>, target: seq<UserReward>, targetNames: set<string>)
    requires j < |catalog| && !(catalog[j].attractionName !in seen && Near(sc, v, catalog[j]))
    requires rewards + VisitRewards(sc, v, catalog[j..], seen) == target
    requires seen + RewardNames(VisitRewards(sc, v, catalog[j..], seen)) == targetNames
    ensures rewards + VisitRewards(sc, v, catalog[j + 1..], seen) == target
    ensures seen + RewardNames(VisitRewards(sc, v, catalog[j + 1..], seen)) == targetNames
  {
    VisitRewardsStep(sc, v, catalog, j, seen);
  }

  /** One step of a history scan at position i. */
  lemma HistoryRewardsStep(sc: Scoring, visits: seq<VisitedLocation>, i: nat, catalog: seq<Attraction>, seen: set<string>)
    requires i < |visits|
    ensures HistoryRewards(sc, visits[i..], catalog, seen)
      == VisitRewards(sc, visits[i], catalog, seen)
        + HistoryRewards(sc, visits[i + 1..], catalog, seen + RewardNames(VisitRewards(sc, visits[i], catalog, seen)))
  {
    assert visits[i..][0] == visits[i] && visits[i..][1..] == visits[i + 1..];
  }

  /** Every reward earned at one check-in is an award at that check-in for a near catalog attraction with a fresh name, and the names are distinct. */
  lemma {:induction false} VisitRewardsSound(sc: Scoring, v: VisitedLocation, catalog: seq<Attraction>, seen: set<string>)
    ensures forall r :: r in VisitRewards(sc, v, catalog, seen) ==>
      r.attraction in catalog && r == Award(sc, v, r.attraction) && Near(sc, v, r.attraction)
      && r.attraction.attractionName !in seen
    ensures DistinctNames(VisitRewards(sc, v, catalog, seen))
  {
    if catalog != [] {
      var a := catalog[0];
      if a.attractionName !in seen && Near(sc, v, a) {
        var seen' := seen + {a.attractionName};
        VisitRewardsSound(sc, v, catalog[1..], seen');
        var rest := VisitRewards(sc, v, catalog[1..], seen');
        assert VisitRewards(sc, v, catalog, seen) == [Award(sc, v, a)] + rest;
        forall i | 0 < i < |rest| + 1
          ensures ([Award(sc, v, a)] + rest)[i].attraction.attractionName != a.attractionName
        {
          assert ([Award(sc, v, a)] + rest)[i] == rest[i - 1];
        }
      } else {
        VisitRewardsSound(sc, v, catalog[1..], seen);
      }
    }
  }

  /** After one check-in's scan, every near catalog attraction's name is rewarded (earlier or now). */
  lemma {:induction false} VisitRewardsComplete(sc: Scoring, v: VisitedLocation, catalog: seq<Attraction>, seen: set<string>)
    ensures forall a :: a in catalog && Near(sc, v, a) ==>
      a.attractionName in seen + RewardNames(VisitRewards(sc, v, catalog, seen))
  {
    if catalog != [] {
      var a := catalog[0];
      if a.attractionName !in seen && Near(sc, v, a) {
        var seen' := seen + {a.attractionName};
        VisitRewardsComplete(sc, v, catalog[1..], seen');
        RewardNamesAppend([Award(sc, v, a)], VisitRewards(sc, v, catalog[1..], seen'));
      } else {
        VisitRewardsComplete(sc, v, catalog[1..], seen);
      }
      assert forall b :: b in catalog ==> b == a || b in catalog[1..];
    }
  }

  /** With nothing left to reward at a check-in, its scan adds nothing. */
  lemma {:induction false} VisitNothingLeft(sc: Scoring, v: VisitedLocation, catalog: seq<Attraction>, seen: set<string>)
    requires forall a :: a in catalog && Near(sc, v, a) ==> a.attractionName in seen
    ensures VisitRewards(sc, v, catalog, seen) == []
  {
    if catalog != [] {
      assert forall b :: b in catalog[1..] ==> b in catalog;
      VisitNothingLeft(sc, v, catalog[1..], seen);
    }
  }

  /**
   * Every reward a history scan appends is the award at one of the history's
   * check-ins for a near catalog attraction whose name was not rewarded
   * before, and no two of them share a name.
   */
  lemma {:induction false} HistoryRewardsSound(sc: Scoring, visits: seq<VisitedLocation>, catalog: seq<Attraction>, seen: set<string>)
    ensures forall r :: r in HistoryRewards(sc, visits, catalog, seen) ==>
      r.attraction in catalog && r.visitedLocation in visits && r == Award(sc, r.visitedLocation, r.attraction)
      && Near(sc, r.visitedLocation, r.attraction) && r.attraction.attractionName !in seen
    ensures DistinctNames(HistoryRewards(sc, visits, catalog, seen))
  {
    if visits != [] {
      var here := VisitRewards(sc, visits[0], catalog, seen);
      var seen' := seen + RewardNames(here);
      var rest := HistoryRewards(sc, visits[1..], catalog, seen');
      VisitRewardsSound(sc, visits[0], catalog, seen);
      HistoryRewardsSound(sc, visits[1..], catalog, seen');
      assert HistoryRewards(sc, visits, catalog, seen) == here + rest;
      assert forall w :: w in visits[1..] ==> w in visits;
      forall i, j | 0 <= i < j < |here + rest|
        ensures (here + rest)[i].attraction.attractionName != (here + rest)[j].attraction.attractionName
      {
        if i < |here| && j >= |here| {
          assert (here + rest)[i] in here;
          assert (here + rest)[j] == rest[j - |here|];
        }
        if i >= |here| {
          assert (here + rest)[i] == rest[i - |here|] && (here + rest)[j] == rest[j - |here|];
        }
      }
    }
  }

  /** The check-in recorded in each new reward is the first one in history order that is near its attraction. */
  lemma {:induction false} HistoryRewardsFirst(sc: Scoring, visits: seq<VisitedLocation>, catalog: seq<Attraction>, seen: set<string>)
    ensures forall r :: r in HistoryRewards(sc, visits, catalog, seen) ==> FirstNearVisit(sc, visits, r)
  {
    if visits != [] {
      var here := VisitRewards(sc, visits[0], catalog, seen);
      var seen' := seen + RewardNames(here);
      var rest := HistoryRewards(sc, visits[1..], catalog, seen');
      VisitRewardsSound(sc, visits[0], catalog, seen);
      VisitRewardsComplete(sc, visits[0], catalog, seen);
      HistoryRewardsSound(sc, visits[1..], catalog, seen');
      HistoryRewardsFirst(sc, visits[1..], catalog, seen');
      assert HistoryRewards(sc, visits, catalog, seen) == here + rest;
      forall r: UserReward | r in here + rest
        ensures FirstNearVisit(sc, visits, r)
      {
        if r in here {
          assert visits[0] == r.visitedLocation;
        } else {
          assert r in rest;
          assert FirstNearVisit(sc, visits[1..], r);
          var i' :| 0 <= i' < |visits[1..]| && visits[1..][i'] == r.visitedLocation
            && (forall k :: 0 <= k < i' ==> !Near(sc, visits[1..][k], r.attraction));
          assert !Near(sc, visits[0], r.attraction);
          forall k | 0 <= k < i' + 1 ensures !Near(sc, visits[k], r.attraction) {
            if k > 0 { assert visits[k] == visits[1..][k - 1]; }
          }
          assert visits[i' + 1] == r.visitedLocation;
        }
      }
    }
  }

  /** After a history scan, every catalog attraction near any check-in of the history has its name rewarded. */
  lemma {:induction false} HistoryRewardsComplete(sc: Scoring, visits: seq<VisitedLocation>, catalog: seq<Attraction>, seen: set<string>)
    ensures forall v, a :: v in visits && a in catalog && Near(sc, v, a) ==>
      a.attractionName in seen + RewardNames(HistoryRewards(sc, visits, catalog, seen))
  {
    if visits != [] {
      var here := VisitRewards(sc, visits[0], catalog, seen);
      var seen' := seen + RewardNames(here);
      var rest := HistoryRewards(sc, visits[1..], catalog, seen');
      VisitRewardsComplete(sc, visits[0], catalog, seen);
      HistoryRewardsComplete(sc, visits[1..], catalog, seen');
      RewardNamesAppend(here, rest);
      assert forall w :: w in visits ==> w == visits[0] || w in visits[1..];
    }
  }

  /** A history in which every near attraction's name is already rewarded earns nothing. */
  lemma {:induction false} HistoryNothingLeft(sc: Scoring, visits: seq<VisitedLocation>, catalog: seq<Attraction>, seen: set<string>)
    requires forall v, a :: v in visits && a in catalog && Near(sc, v, a) ==> a.attractionName in seen
    ensures HistoryRewards(sc, visits, catalog, seen) == []
  {
    if visits != [] {
      VisitNothingLeft(sc, visits[0], catalog, seen);
      assert seen + RewardNames([]) == seen;
      assert forall w :: w in visits[1..] ==> w in visits;
      HistoryNothingLeft(sc, visits[1..], catalog, seen);
    }
  }

  /** Scoring the same history against the same catalog and radius a second time appends no reward. */
  lemma NewRewardsIdempotent(sc: Scoring, visits: seq<VisitedLocation>, catalog: seq<Attraction>, existing: seq<UserReward>)
    ensures NewRewards(sc, visits, catalog, existing + NewRewards(sc, visits, catalog, existing)) == []
  {
    var added := NewRewards(sc, visits, catalog, existing);
    HistoryRewardsComplete(sc, visits, catalog, RewardNames(existing));
    RewardNamesAppend(existing, added);
    HistoryNothingLeft(sc, visits, catalog, RewardNames(existing + added));
  }

  /** Pairwise-distinct reward names stay pairwise distinct, and no new reward reuses a name already rewarded. */
  lemma NewRewardsKeepNamesDistinct(sc: Scoring, visits: seq<VisitedLocation>, catalog: seq<Attraction>, existing: seq<UserReward>)
    ensures forall r :: r in NewRewards(sc, visits, catalog, existing) ==> r.attraction.attractionName !in RewardNames(existing)
    ensures DistinctNames(existing) ==> DistinctNames(existing + NewRewards(sc, visits, catalog, existing))
  {
    var added := NewRewards(sc, visits, catalog, existing);
    HistoryRewardsSound(sc, visits, catalog, RewardNames(existing));
    if DistinctNames(existing) {
      forall i, j | 0 <= i < j < |existing + added|
        ensures (existing + added)[i].attraction.attractionName != (existing + added)[j].attraction.attractionName
      {
        if i < |existing| && j >= |existing| {
          assert (existing + added)[i] in existing;
          assert (existing + added)[j] == added[j - |existing|];
        }
        if i >= |existing| {
          assert (existing + added)[i] == added[i - |existing|] && (existing + added)[j] == added[j - |existing|];
        }
      }
    }
  }

  /** Every catalog attraction near a check-in of the history has its name among the rewards. */
  predicate Complete(sc: Scoring, visits: seq<VisitedLocation>, catalog: seq<Attraction>, rewards: seq<UserReward>)
  {
    forall v, a :: v in visits && a in catalog && Near(sc, v, a) ==> a.attractionName in RewardNames(rewards)
  }

  /**
   * What a user's reward list looks like after one scan: every near
   * attraction's name is covered, distinct names stay distinct, and a
   * further scan appends nothing.
   */
  lemma NewRewardsFacts(sc: Scoring, visits: seq<VisitedLocation>, catalog: seq<Attraction>, existing: seq<UserReward>)
    ensures Complete(sc, visits, catalog, existing + NewRewards(sc, visits, catalog, existing))
    ensures DistinctNames(existing) ==> DistinctNames(existing + NewRewards(sc, visits, catalog, existing))
    ensures NewRewards(sc, visits, catalog, existing + NewRewards(sc, visits, catalog, existing)) == []
  {
    HistoryRewardsComplete(sc, visits, catalog, RewardNames(existing));
    RewardNamesAppend(existing, NewRewards(sc, visits, catalog, existing));
    NewRewardsKeepNamesDistinct(sc, visits, catalog, existing);
    NewRewardsIdempotent(sc, visits, catalog, existing);
  }

  /**
   * One check-in and a one-attraction catalog: a reward exactly when the
   * check-in is near and the name is not yet rewarded, and then exactly one.
   */
  lemma NewRewardsSingle(sc: Scoring, v: VisitedLocation, a: Attraction, existing: seq<UserReward>)
    ensures NewRewards(sc, [v], [a], existing)
      == if Near(sc, v, a) && a.attractionName !in RewardNames(existing) then [Award(sc, v, a)] else []
  {
    var seen := RewardNames(existing);
    var here := VisitRewards(sc, v, [a], seen);
    assert [v][1..] == [] && [a][1..] == [];
    assert NewRewards(sc, [v], [a], existing) == here + HistoryRewards(sc, [], [a], seen + RewardNames(here));
    if Near(sc, v, a) && a.attractionName !in seen {
      assert here == [Award(sc, v, a)] + VisitRewards(sc, v, [], seen + {a.attractionName});
    } else {
      assert here == VisitRewards(sc, v, [], seen);
    }
  }

  /**
   * A reward radius below every check-in's distance from every catalog
   * attraction earns nothing; in particular radius 0 earns nothing when no
   * check-in sits exactly on an attraction.
   */
  lemma NewRewardsOutOfRange(sc: Scoring, visits: seq<VisitedLocation>, catalog: seq<Attraction>, existing: seq<UserReward>)
    requires forall v, a :: v in visits && a in catalog ==> sc.policy.distance(a.location, v.location) > sc.policy.radius as real
    ensures NewRewards(sc, visits, catalog, existing) == []
  {
    HistoryNothingLeft(sc, visits, catalog, RewardNames(existing));
  }
}
