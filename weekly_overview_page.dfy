/** The member weekly-overview page: the leaderboard order chosen by the
    sort buttons, the summary figures above it and the vault-tier colour. */
module WeeklyOverviewPage {

  import opened Common
  import Ordering

  /** The fields of one activity row the page computes with. */
  datatype Activity = Activity(
    characterId: string,
    mythicPlusRuns: int,
    highestKeyLevel: int,
    raidBossesKilled: int,
    vaultMythicPlusTier: int,
    equippedItemLevel: Option<int>)

  datatype SortChoice = Mythic | Raid | ItemLevel

  /** `character.equipped_item_level || 0`. */
  function ItemLevelOrZero(a: Activity): int {
    a.equippedItemLevel.GetOr(0)
  }

  /** The comparator of each choice as a key (lines 105-117): every column
      descending. */
  function KeyFor(choice: SortChoice): Activity -> Ordering.Key {
    match choice
    case Mythic => (a: Activity) => Ordering.Key(-a.mythicPlusRuns, -a.highestKeyLevel)
    case Raid => (a: Activity) => Ordering.Key(-a.raidBossesKilled, 0)
    case ItemLevel => (a: Activity) => Ordering.Key(-ItemLevelOrZero(a), 0)
  }

  /** `[...activities].sort(...)`: a sorted copy. */
  function SortedActivities(activities: seq<Activity>, choice: SortChoice): seq<Activity>
  {
    Ordering.SortBy(activities, KeyFor(choice))
  }

  /** Whether a comes no later than b under the choice. */
  predicate Ahead(a: Activity, b: Activity, choice: SortChoice) {
    match choice
    case Mythic =>
      a.mythicPlusRuns > b.mythicPlusRuns
      || (a.mythicPlusRuns == b.mythicPlusRuns && a.highestKeyLevel >= b.highestKeyLevel)
    case Raid => a.raidBossesKilled >= b.raidBossesKilled
    case ItemLevel => ItemLevelOrZero(a) >= ItemLevelOrZero(b)
  }

  /** The leaderboard lists every activity once: 'mythic' by runs and then
      by highest key, 'raid' by bosses killed, 'ilvl' by item level with a
      missing level counted as 0, all highest first. */
  lemma LeaderboardOrder(activities: seq<Activity>, choice: SortChoice)
    ensures var s := SortedActivities(activities, choice);
      && multiset(s) == multiset(activities)
      && forall i, j :: 0 <= i < j < |s| ==> Ahead(s[i], s[j], choice)
  {
    var key := KeyFor(choice);
    var s := SortedActivities(activities, choice);
    Ordering.SortByPermutes(activities, key);
    Ordering.SortBySorted(activities, key);
    forall i, j | 0 <= i < j < |s|
      ensures Ahead(s[i], s[j], choice)
    {
      assert Ordering.KeyLe(key(s[i]), key(s[j]));
    }
  }

  /** A board already in the chosen order is shown as it is: ties keep
      their loaded order. */
  lemma OrderedBoardUnchanged(activities: seq<Activity>, choice: SortChoice)
    requires forall i, j :: 0 <= i < j < |activities| ==> Ahead(activities[i], activities[j], choice)
    ensures SortedActivities(activities, choice) == activities
  {
    var key := KeyFor(choice);
    forall i, j | 0 <= i < j < |activities|
      ensures Ordering.KeyLe(key(activities[i]), key(activities[j]))
    {
      assert Ahead(activities[i], activities[j], choice);
    }
    Ordering.SortByOfSorted(activities, key);
  }

  // ---------------------------------------------------------------------
  // stats

  datatype Stats = Stats(
    totalMembers: nat,
    totalMythicRuns: int,
    averageKeyLevel: int,
    totalRaidBosses: int,
    vaultReadyMembers: nat)

  function Runs(a: Activity): int { a.mythicPlusRuns }
  function KeyLevel(a: Activity): int { a.highestKeyLevel }
  function Bosses(a: Activity): int { a.raidBossesKilled }
  function VaultReady(a: Activity): bool { a.vaultMythicPlusTier >= 1 }

  /** `Math.round(total / n)` for n > 0: the quotient rounded half up. */
  function RoundedMean(total: int, n: nat): (m: int)
    requires n > 0
    ensures 2 * n * m <= 2 * total + n < 2 * n * (m + 1)
  {
    (2 * total + n) / (2 * n)
  }

  /** The `stats` object (lines 119-126). */
  function StatsOf(activities: seq<Activity>): (s: Stats)
    ensures s.totalMembers == |activities|
    ensures s.vaultReadyMembers <= s.totalMembers
    ensures activities == [] ==> s.averageKeyLevel == 0 && s.totalMythicRuns == 0 && s.totalRaidBosses == 0
    ensures s.totalMythicRuns == Sum(activities, Runs) && s.totalRaidBosses == Sum(activities, Bosses)
    ensures s.vaultReadyMembers == |Filter(activities, VaultReady)|
    ensures activities != [] ==> s.averageKeyLevel == RoundedMean(Sum(activities, KeyLevel), |activities|)
  {
    Stats(|activities|,
          Sum(activities, Runs),
          if |activities| > 0 then RoundedMean(Sum(activities, KeyLevel), |activities|) else 0,
          Sum(activities, Bosses),
          Count(activities, VaultReady))
  }

  /** A sum of terms no greater than hi is at most |s| * hi, and one of
      terms no less than lo is at least |s| * lo. */
  lemma {:induction false} SumBounds(s: seq<Activity>, f: Activity -> int, lo: int, hi: int)
    requires forall i :: 0 <= i < |s| ==> lo <= f(s[i]) <= hi
    ensures |s| * lo <= Sum(s, f) <= |s| * hi
  {
    if s != [] {
      SumBounds(s[1..], f, lo, hi);
    }
  }

  /** A rounded mean of n terms between lo and hi is between lo and hi. */
  lemma MeanBounds(total: int, n: nat, lo: int, hi: int)
    requires n > 0
    requires n * lo <= total <= n * hi
    ensures lo <= RoundedMean(total, n) <= hi
  {
    var m := RoundedMean(total, n);
    if m < lo {
      ScaleMonotone(2 * n, m + 1, lo);
      assert false;
    }
    if m > hi {
      ScaleMonotone(2 * n, hi + 1, m);
      assert false;
    }
  }

  lemma ScaleMonotone(k: nat, a: int, b: int)
    requires a <= b
    ensures k * a <= k * b
  {
    assert k * b - k * a == k * (b - a);
  }

  /** The average key level lies between the lowest and the highest key
      level of the week. */
  lemma AverageWithinKeyLevels(activities: seq<Activity>, lo: int, hi: int)
    requires |activities| > 0
    requires forall i :: 0 <= i < |activities| ==> lo <= activities[i].highestKeyLevel <= hi
    ensures lo <= StatsOf(activities).averageKeyLevel <= hi
  {
    SumBounds(activities, KeyLevel, lo, hi);
    MeanBounds(Sum(activities, KeyLevel), |activities|, lo, hi);
  }

  /** Totals are additive: a further activity adds its runs, bosses and
      vault readiness to the figures. */
  lemma StatsAddActivity(activities: seq<Activity>, a: Activity)
    ensures var before, after := StatsOf(activities), StatsOf(activities + [a]);
      && after.totalMembers == before.totalMembers + 1
      && after.totalMythicRuns == before.totalMythicRuns + a.mythicPlusRuns
      && after.totalRaidBosses == before.totalRaidBosses + a.raidBossesKilled
      && after.vaultReadyMembers == before.vaultReadyMembers + (if a.vaultMythicPlusTier >= 1 then 1 else 0)
  {
    SumAppend(activities, [a], Runs);
    SumAppend(activities, [a], Bosses);
    FilterAppend(activities, [a], VaultReady);
  }

  // ---------------------------------------------------------------------
  // vault colour

  /** `getVaultTierColor` (lines 98-103). */
  function VaultTierColor(tier: int): (c: string)
    ensures tier >= 3 ==> c == "text-purple-400"
    ensures 2 <= tier < 3 ==> c == "text-blue-400"
    ensures 1 <= tier < 2 ==> c == "text-green-400"
    ensures tier < 1 ==> c == "text-gray-500"
  {
    if tier >= 3 then "text-purple-400"
    else if tier >= 2 then "text-blue-400"
    else if tier >= 1 then "text-green-400"
    else "text-gray-500"
  }

  /** Tiers get the same colour iff they fall in the same band. */
  lemma VaultColorsDistinct(t: int, u: int)
    ensures VaultTierColor(t) == VaultTierColor(u) <==> Band(t) == Band(u)
  {
  }

  /** The band a tier falls in: below 1, 1, 2, 3 and above. */
  function Band(tier: int): (b: int)
    ensures 0 <= b <= 3
  {
    if tier >= 3 then 3 else if tier >= 2 then 2 else if tier >= 1 then 1 else 0
  }
}
