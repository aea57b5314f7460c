# TourGuide reward engine and tracking service, in Dafny

This project models the two services at the centre of TourGuide, a travel
application. Its proofs are about that model.

- **The reward engine** (`RewardsService`). It walks a user's check-ins
  (visited locations) in history order. For each check-in it scans the
  attraction catalog in catalog order. An attraction earns a reward when
  the check-in lies within the current reward radius (`proximityBuffer`,
  10 miles by default and settable at run time) and no reward yet carries
  the attraction's *name*. The name, not the id, is the key used to avoid
  duplicates. Rewards are only ever appended. A separate discovery check
  always uses a fixed 200-mile range.
- **The tracking service and user registry** (`TourGuideService`). It
  covers:
  - a registry keyed by user name that never replaces an entry;
  - location tracking: append the location provider's fix, then score;
  - a read-through location lookup;
  - the five nearest attractions: a stable sort by distance, then the
    first five;
  - trip offers priced from the user's reward-point total, an `int` stream
    sum that wraps at 32 bits;
  - tracking of a whole list of users.

The module layout follows the program:

| module | file | contents |
|---|---|---|
| `GpsTypes` | `gps_types.dfy` | locations, check-ins, attractions, points (a non-negative Java `int`) |
| `Users` | `users.dfy` | the `User` class and the records attached to it (`UserReward`, preferences, offers) |
| `RewardRules` | `reward_rules.dfy` | the reward scan as pure functions (`VisitRewards`, `HistoryRewards`, `NewRewards`) and the lemmas about them |
| `Rewards` | `rewards_service.dfy` | the `RewardsService` class: radius state, proximity checks, the nested scan loops, the bulk variant |
| `Nearby` | `nearby.dfy` | stable sort of catalog indices by distance, and the first five |
| `TourGuide` | `tour_guide_service.dfy` | the `TourGuideService` class, the points total, the per-user state after bulk tracking (`TrackedAs`) |

The imperative operations are methods. Each is proved against a pure
specification function of its inputs and old state:

- `CalculateRewards` appends exactly `NewRewards(...)`.
- `RewardVisit` is its inner catalog loop and appends exactly
  `VisitRewards(...)`.
- The lemmas in `RewardRules` prove what the source promises about that
  function: soundness, first-visit attribution, completeness, no
  duplicate names, and idempotence.

## Model

| member | source | states |
|---|---|---|
| `RewardRules.VisitRewardsSound` | src/main/java/com/openclassrooms/tourguide/service/RewardsService.java:96-110 | every reward one check-in earns is for a catalog attraction near the check-in and has the provider's points; its name was not already rewarded; no two of its rewards share a name |
| `RewardRules.VisitRewardsComplete` | src/main/java/com/openclassrooms/tourguide/service/RewardsService.java:96-110 | after one check-in's scan, every catalog attraction near it has its name either rewarded before the scan or rewarded by it |
| `RewardRules.VisitNothingLeft` | src/main/java/com/openclassrooms/tourguide/service/RewardsService.java:99-100 | a check-in whose near attractions are all already rewarded earns nothing |
| `RewardRules.HistoryRewardsSound` | src/main/java/com/openclassrooms/tourguide/service/RewardsService.java:95-113 | every reward a scan of the history appends names a check-in of the history and a catalog attraction near it, carries the provider's points for (attraction id, user id), and has a name that was not rewarded at entry; the new names are pairwise distinct |
| `RewardRules.HistoryRewardsFirst` | src/main/java/com/openclassrooms/tourguide/service/RewardsService.java:95-106 | the check-in recorded in each new reward is the first check-in, in history order, that is near its attraction |
| `RewardRules.HistoryRewardsComplete` | src/main/java/com/openclassrooms/tourguide/service/RewardsService.java:95-113 | after the scan, every catalog attraction near any check-in of the history has its name among the reward names |
| `RewardRules.HistoryNothingLeft` | src/main/java/com/openclassrooms/tourguide/service/RewardsService.java:95-113 | a history whose near attractions are all already rewarded earns nothing |
| `RewardRules.NewRewardsIdempotent` | src/main/java/com/openclassrooms/tourguide/service/RewardsService.java:86-114 | a second call with the same history, catalog and radius appends no reward |
| `RewardRules.NewRewardsKeepNamesDistinct` | src/main/java/com/openclassrooms/tourguide/service/RewardsService.java:91-110 | no new reward reuses a name rewarded at entry; reward names that are pairwise distinct at entry stay pairwise distinct |
| `RewardRules.NewRewardsFacts` | src/main/java/com/openclassrooms/tourguide/service/RewardsService.java:86-114 | after a call, the rewards cover every near attraction, distinct names stay distinct, and a further call appends nothing |
| `RewardRules.NewRewardsSingle` | src/main/java/com/openclassrooms/tourguide/service/RewardsService.java:95-110 | one check-in against a one-attraction catalog yields exactly one reward when the check-in is near and the name is new, and none otherwise |
| `RewardRules.NewRewardsOutOfRange` | src/main/java/com/openclassrooms/tourguide/service/RewardsService.java:99-100 | a reward radius below the distance of every check-in from every catalog attraction earns no reward; radius 0 earns none when no check-in sits exactly on an attraction |
| `RewardRules.VisitRewards` | src/main/java/com/openclassrooms/tourguide/service/RewardsService.java:96-111 | the rewards one check-in earns in a catalog-order scan: at most one per catalog entry, each recorded at that check-in |
| `RewardRules.HistoryRewards` | src/main/java/com/openclassrooms/tourguide/service/RewardsService.java:95-113 | the rewards a scan of the whole history earns, the rewarded names carried from one check-in to the next; each is recorded at a check-in of the history |
| `RewardRules.NewRewards` | src/main/java/com/openclassrooms/tourguide/service/RewardsService.java:86-114 | the rewards one call appends, the name set seeded from the rewards held at entry (lines 91-93); its properties are the lemmas above |
| `Rewards.RewardsService.NearAttraction` | src/main/java/com/openclassrooms/tourguide/service/RewardsService.java:166-168 | a check-in is near an attraction exactly when the distance from the attraction to the check-in's location is at most the current reward radius |
| `Rewards.RewardsService.constructor` | src/main/java/com/openclassrooms/tourguide/service/RewardsService.java:35-38 | a new service starts with the default reward radius of 10 and keeps its providers and catalog |
| `Rewards.RewardsService.SetProximityBuffer` | src/main/java/com/openclassrooms/tourguide/service/RewardsService.java:65-67 | after `setProximityBuffer(r)`, a check-in is near an attraction exactly when the distance is at most r |
| `Rewards.RewardsService.SetDefaultProximityBuffer` | src/main/java/com/openclassrooms/tourguide/service/RewardsService.java:72-74 | restores radius 10, after which nearness means a distance of at most 10 |
| `Rewards.RewardsService.IsWithinAttractionProximity` | src/main/java/com/openclassrooms/tourguide/service/RewardsService.java:155-157 | true exactly when the distance is at most 200, whatever the reward radius; anything near under a reward radius up to 200 passes |
| `Rewards.RewardsService.CalculateRewards` | src/main/java/com/openclassrooms/tourguide/service/RewardsService.java:86-114 | the rewards become the rewards held at entry followed by exactly `NewRewards` of the history; only the reward list is written, so the history is untouched |
| `Rewards.RewardsService.RewardVisit` | src/main/java/com/openclassrooms/tourguide/service/RewardsService.java:96-111 | the catalog loop for one check-in appends exactly `VisitRewards`, and the rewarded-name set grows by exactly the names it rewarded |
| `Rewards.RewardsService.CalculateAllUsersRewardsAsync` | src/main/java/com/openclassrooms/tourguide/service/RewardsService.java:124-145 | every listed user ends with exactly one scan's rewards appended, even if listed twice (the scans run one after another); only reward lists are written |
| `Users.User.constructor` | src/test/java/com/openclassrooms/tourguide/TestTourGuideService.java:52-53 | a new user has the given id and name, and empty history, rewards and offers |
| `Users.User.AddToVisitedLocations` | src/main/java/com/openclassrooms/tourguide/service/TourGuideService.java:180 | appends the check-in to the end of the history |
| `Users.User.AddUserReward` | src/main/java/com/openclassrooms/tourguide/service/RewardsService.java:105-107 | appends the reward to the end of the reward list |
| `Users.User.GetLastVisitedLocation` | src/main/java/com/openclassrooms/tourguide/service/TourGuideService.java:87-88 | a non-empty history is its front followed by the returned check-in |
| `Users.User.SetTripDeals` | src/main/java/com/openclassrooms/tourguide/service/TourGuideService.java:146 | replaces the stored offers |
| `Nearby.Insert` | src/main/java/com/openclassrooms/tourguide/service/TourGuideService.java:196-198 | inserting an index into a sorted index list keeps it sorted by (distance, catalog position) and adds exactly that index |
| `Nearby.SortIndices` | src/main/java/com/openclassrooms/tourguide/service/TourGuideService.java:196-198 | the first n catalog indices, each exactly once, sorted by distance with ties in catalog order |
| `Nearby.NearestIndices` | src/main/java/com/openclassrooms/tourguide/service/TourGuideService.java:196-199 | min(5, catalog size) distinct indices, sorted with ties in catalog order; every index left out comes after every kept one |
| `Nearby.NearestAttractions` | src/main/java/com/openclassrooms/tourguide/service/TourGuideService.java:192-201 | min(5, catalog size) attractions, each drawn from the catalog at the index `NearestIndices` picks |
| `Nearby.NearestAttractionsSorted` | src/main/java/com/openclassrooms/tourguide/service/TourGuideService.java:196-198 | the result is in non-decreasing distance from the location |
| `Nearby.NearestAttractionsStable` | src/main/java/com/openclassrooms/tourguide/service/TourGuideService.java:196-198 | attractions at equal distance keep their catalog order |
| `Nearby.NearestAttractionsClosest` | src/main/java/com/openclassrooms/tourguide/service/TourGuideService.java:196-200 | no catalog attraction left out is nearer than one returned |
| `TourGuide.WrapInt32` | src/main/java/com/openclassrooms/tourguide/service/TourGuideService.java:133-135 | Java `int` arithmetic: the result lies in [-2^31, 2^31), agrees with its argument modulo 2^32, and equals it when the argument fits |
| `TourGuide.SumRewardPoints` | src/main/java/com/openclassrooms/tourguide/service/TourGuideService.java:133-135 | the mathematical sum of the points is non-negative |
| `TourGuide.SumRewardPointsAppend` | src/main/java/com/openclassrooms/tourguide/service/TourGuideService.java:133-135 | the sum over a concatenation is the sum of the sums |
| `TourGuide.TotalRewardPoints` | src/main/java/com/openclassrooms/tourguide/service/TourGuideService.java:133-135 | the points total handed to the pricer is an `int`, agrees with the true sum modulo 2^32, and equals the true sum whenever that sum fits in an `int` |
| `TourGuide.TotalRewardPointsAppend` | src/main/java/com/openclassrooms/tourguide/service/TourGuideService.java:133-135 | appending a reward moves the total by the reward's points under wrapping `int` addition, as the stream's running sum does |
| `TourGuide.OccurrencesMember` | src/main/java/com/openclassrooms/tourguide/service/TourGuideService.java:159-161 | every listed user is listed at least once, so bulk tracking tracks it at least once |
| `TourGuide.TrackedAsStep` | src/main/java/com/openclassrooms/tourguide/service/TourGuideService.java:178-183 | one more tracking call takes a user from `TrackedAs` after k calls to `TrackedAs` after k + 1 calls |
| `TourGuide.TourGuideService.constructor` | src/main/java/com/openclassrooms/tourguide/service/TourGuideService.java:40 | the registry starts empty |
| `TourGuide.TourGuideService.GetUser` | src/main/java/com/openclassrooms/tourguide/service/TourGuideService.java:99-101 | returns null exactly for an unregistered name; otherwise returns the user filed under it, whose name it is |
| `TourGuide.TourGuideService.GetAllUsers` | src/main/java/com/openclassrooms/tourguide/service/TourGuideService.java:109-111 | a new list holding exactly the registered users, each once |
| `TourGuide.TourGuideService.AddUser` | src/main/java/com/openclassrooms/tourguide/service/TourGuideService.java:119-123 | a name that is taken leaves the registry unchanged; a free name is filed with this user, which `GetUser` then returns; every user stays filed under its own name |
| `TourGuide.TourGuideService.GetTripDeals` | src/main/java/com/openclassrooms/tourguide/service/TourGuideService.java:132-148 | the pricer gets the API key, the user's id and preferences and the wrapped points total; its offers are stored on the user and returned |
| `TourGuide.TourGuideService.TrackUserLocation` | src/main/java/com/openclassrooms/tourguide/service/TourGuideService.java:178-183 | returns the provider's fix for the user's id, appended as the last history entry; the rewards then gain exactly `NewRewards` of the extended history |
| `TourGuide.TourGuideService.GetUserLocation` | src/main/java/com/openclassrooms/tourguide/service/TourGuideService.java:86-90 | with a history, returns its last entry and changes nothing; with none, behaves exactly like `TrackUserLocation`, leaving a one-entry history |
| `TourGuide.TourGuideService.GetNearByAttractions` | src/main/java/com/openclassrooms/tourguide/service/TourGuideService.java:192-201 | min(5, catalog size) catalog attractions, in non-decreasing distance from the check-in |
| `TourGuide.TourGuideService.CalculateAllTrackUserLocationAsync` | src/main/java/com/openclassrooms/tourguide/service/TourGuideService.java:157-166 | every listed user ends in `TrackedAs` after as many tracking calls as it occurs in the list |

The last row uses `TrackedAs`. For a user tracked k times, it means:
- the old history followed by k copies of the fix;
- the old rewards as a prefix;
- distinct names still distinct;
- when k > 0, every near attraction of the new history rewarded;
- when k = 1, exactly one call's `NewRewards` appended.

## Left out

- Great-circle distance (`getDistance`, RewardsService.java:191-202) is floating-point trigonometry. The model uses an unconstrained `distance: (Location, Location) -> real` held by the service. It has no NaN, so how a NaN distance would compare or sort is not modelled.
- The external providers are parameters:
  - the attraction catalog is a constant of the service, fixed at construction; the source re-reads the same library catalog on every call;
  - reward points are an unconstrained function of (attraction id, user id), taken to be a non-negative `int`;
  - the location fix is a function of the user id, passed to each tracking call;
  - the trip pricer is a function argument of `GetTripDeals`;
  - the fields of an offer are not modelled.
- Concurrency is not modelled:
  - the thread pools and `CompletableFuture` joins;
  - the `synchronized (user)` block;
  - the catch-and-log of exceptions in the bulk reward call.

  Both bulk operations are sequential loops over the list, in list order.
- The executor's `shutdown()` at the end of bulk tracking (TourGuideService.java:168) is left out. In the source, a second bulk tracking call on the same service would have its tasks rejected; the model lets it run again.
- CalculateAllTrackUserLocationAsync: the model hands every tracking call for one user the same fix. For a user listed more than once, it does not state the rewards exactly; it states the prefix, distinctness and completeness facts of `TrackedAs`. Both are needed because the location function is a fixed parameter and the source's concurrent calls on the same user race.
- `getUserRewards` (TourGuideService.java:75-77) is a plain getter of `User.userRewards` and is read as that field.
- User.java and UserPreferences.java are not part of this model:
  - the user's mutators are taken to be plain appends and setters;
  - `getLastVisitedLocation` is taken to return the last history entry;
  - the initial preferences are a constructor argument;
  - phone and e-mail are dropped.
- The provider is expected to report the user's own id in each fix (TestTourGuideService.java:107). That is a property of the GPS library and is not stated.
- The Tracker thread, both controllers, `NearbyAttractionDTO`, the interface files, logging, `Locale`, and the internal test-user generation (TourGuideService.java:55-62, 217-265) are left out.
- `getRewardPoints` (RewardsService.java:177-179) is a single call into the points provider, and `GetRewardPoints` forwards it. `GetDistance` stands for the local great-circle formula (RewardsService.java:191-202); it is the abstract `distance` function described above. Neither states anything.
- Provider failures are not modelled: every provider is a total function. In the source, an exception from `getRewardPoints` (RewardsService.java:102) partway through a scan leaves the rewards that scan already appended (line 106) and propagates out of `calculateRewards` and `trackUserLocation`. In bulk tracking, a failing unit makes `join` (TourGuideService.java:165) throw, so the call aborts before `shutdown()` (line 168).
- CalculateAllUsersRewardsAsync: its exact result for a user listed twice holds for the sequential loop only. In the source, two concurrent scans of the same user race: each reads the reward list unsynchronised (RewardsService.java:91) while the other appends (line 106), so both can start from the same name set and append the same name twice.
