/** The stream overlay (`app/stream/overlay/emily/page.tsx`): its
    `calculateStats` aggregate and the "currently fighting" selection. */
module Overlay {
  import opened Optional
  import opened BossModel
  import opened Aggregates

  /** `total > 0 ? Math.round((completed / total) * 100) : 0`: the whole
      percentage within a half of `100 * completed / total`, and 0 for an
      empty list. */
  function CompletionPercentage(completed: nat, total: nat): (pct: int)
    requires completed <= total
    ensures total > 0 ==> 2 * total * pct <= 200 * completed + total < 2 * total * pct + 2 * total
    ensures 0 <= pct <= 100
    ensures total == 0 ==> pct == 0
    ensures total > 0 && completed == total ==> pct == 100
  {
    if total > 0 then RoundedPercentage(completed, total) else 0
  }

  /** `calculateStats`: the eight overlay figures for the list of bosses. */
  function CalculateStats(bosses: seq<Boss>): (s: ProgressStats)
    ensures s.total == |bosses|
    // each count is the number of rows with exactly that status
    ensures s.completed == CountStatus(bosses, Some(Completed))
    ensures s.inProgress == CountStatus(bosses, Some(InProgress))
    ensures s.notStarted == CountStatus(bosses, Some(NotStarted))
    // the three buckets plus the null-status rows account for every row
    ensures s.completed + s.inProgress + s.notStarted + CountStatus(bosses, None) == s.total
    ensures s.completed + s.inProgress + s.notStarted <= s.total
    ensures 0 <= s.completionPercentage <= 100
    ensures s.total == 0 ==> s.completionPercentage == 0
    ensures s.total > 0 ==> 2 * s.total * s.completionPercentage <= 200 * s.completed + s.total
                                < 2 * s.total * s.completionPercentage + 2 * s.total
    // only Emily's deaths are reported
    ensures s.totalDeaths == DeathSum(bosses, Emily)
    ensures s.averageLevelEmily == LevelAverage(bosses, Emily)
    ensures s.averageLevelAgent == LevelAverage(bosses, Agent)
  {
    var total := |bosses|;
    var completed := CountStatus(bosses, Some(Completed));
    var inProgress := CountStatus(bosses, Some(InProgress));
    var notStarted := CountStatus(bosses, Some(NotStarted));
    StatusBucketsPartition(bosses);
    var totalDeathsEmily := DeathSum(bosses, Emily);
    ProgressStats(
      total,
      completed,
      inProgress,
      notStarted,
      CompletionPercentage(completed, total),
      totalDeathsEmily,
      LevelAverage(bosses, Emily),
      LevelAverage(bosses, Agent))
  }

  /** Agent's death counts never reach the overlay: changing one of them
      leaves `totalDeaths` as it was. */
  lemma OverlayIgnoresAgentDeaths(pre: seq<Boss>, b: Boss, post: seq<Boss>, d: Option<int>)
    ensures CalculateStats(pre + [b.(deathCountAgent := d)] + post).totalDeaths
         == CalculateStats(pre + [b] + post).totalDeaths
  {
    var b' := b.(deathCountAgent := d);
    DeathSumAppend(pre + [b], post, Emily);
    DeathSumAppend(pre, [b], Emily);
    DeathSumAppend(pre + [b'], post, Emily);
    DeathSumAppend(pre, [b'], Emily);
  }

  /** The position `bosses.find(b => b.status === "In Progress")` stops at. */
  function FirstInProgress(bosses: seq<Boss>): (r: Option<nat>)
    ensures r.Some? ==> r.value < |bosses| && bosses[r.value].status == Some(InProgress)
    ensures r.Some? ==> forall j :: 0 <= j < r.value ==> bosses[j].status != Some(InProgress)
    ensures r.None? <==> forall j :: 0 <= j < |bosses| ==> bosses[j].status != Some(InProgress)
  {
    if |bosses| == 0 then
      None
    else if bosses[0].status == Some(InProgress) then
      Some(0)
    else
      assert forall j :: 1 <= j < |bosses| ==> bosses[j] == bosses[1..][j - 1];
      match FirstInProgress(bosses[1..])
      case None => None
      case Some(i) => Some(i + 1)
  }

  /** `inProgressBoss || null`: the boss shown as "currently fighting". It is
      present exactly when some row is In Progress, and is then an In
      Progress row of the list. */
  function CurrentBoss(bosses: seq<Boss>): (r: Option<Boss>)
    ensures r.Some? <==> CountStatus(bosses, Some(InProgress)) > 0
    ensures r.Some? ==> r.value in bosses && r.value.status == Some(InProgress)
    // `find` returns the first In Progress row by position
    ensures r == (if FirstInProgress(bosses).Some? then Some(bosses[FirstInProgress(bosses).value]) else None)
  {
    CountStatusPositive(bosses, Some(InProgress));
    match FirstInProgress(bosses)
    case None => None
    case Some(i) => Some(bosses[i])
  }

  /** The list as the query returns it: ascending by `order_index`. */
  predicate SortedByOrderIndex(bosses: seq<Boss>) {
    forall i, j :: 0 <= i <= j < |bosses| ==> bosses[i].orderIndex <= bosses[j].orderIndex
  }

  /** On a list sorted by `order_index`, no In Progress row comes before the
      current boss in that order. */
  lemma CurrentBossHasLowestOrderIndex(bosses: seq<Boss>, j: nat)
    requires SortedByOrderIndex(bosses)
    requires j < |bosses| && bosses[j].status == Some(InProgress)
    ensures CurrentBoss(bosses).Some?
    ensures CurrentBoss(bosses).value.orderIndex <= bosses[j].orderIndex
  {
    var i := FirstInProgress(bosses).value;
    assert i <= j;
  }

  /** On the sorted list, of two In Progress rows with different
      `order_index` values, the one with the lower value is chosen and the
      other never is; other rows may share keys. */
  lemma TwoInProgressPicksLower(bosses: seq<Boss>, i: nat, j: nat)
    requires SortedByOrderIndex(bosses)
    requires i < |bosses| && j < |bosses| && bosses[i].orderIndex < bosses[j].orderIndex
    requires bosses[i].status == Some(InProgress) && bosses[j].status == Some(InProgress)
    ensures CurrentBoss(bosses).Some?
    ensures CurrentBoss(bosses).value.orderIndex <= bosses[i].orderIndex < bosses[j].orderIndex
    ensures CurrentBoss(bosses) != Some(bosses[j])
  {
    var k := FirstInProgress(bosses).value;
    assert k <= i;
  }

  /** Two In Progress positions make the In Progress count at least two. */
  lemma {:induction false} CountStatusTwo(bosses: seq<Boss>, s: Option<BossStatus>, i: nat, j: nat)
    requires i < j < |bosses|
    requires bosses[i].status == s && bosses[j].status == s
    ensures CountStatus(bosses, s) >= 2
  {
    CountStatusStep(bosses, s);
    if i == 0 {
      CountStatusPositive(bosses[1..], s);
      assert bosses[1..][j - 1] == bosses[j];
    } else {
      assert bosses[1..][i - 1] == bosses[i];
      assert bosses[1..][j - 1] == bosses[j];
      CountStatusTwo(bosses[1..], s, i - 1, j - 1);
    }
  }

  /** When at most one row is In Progress, as the tracker expects, the
      current boss is that row. */
  lemma CurrentBossIsTheOnlyOne(bosses: seq<Boss>, j: nat)
    requires CountStatus(bosses, Some(InProgress)) <= 1
    requires j < |bosses| && bosses[j].status == Some(InProgress)
    ensures CurrentBoss(bosses) == Some(bosses[j])
  {
    var i := FirstInProgress(bosses).value;
    if i < j {
      CountStatusTwo(bosses, Some(InProgress), i, j);
    }
  }

  /** A row carrying only an Emily level, for the examples below. */
  function LevelRow(level: Option<int>, order: int): Boss {
    Boss("", "", Some(Completed), None, None, level, None, None, None, None, order, None, None)
  }

  /** Levels 40, 61 and 0 average to round(101 / 2) = 51: the 0 is left out. */
  lemma AverageLevelExample()
    ensures CalculateStats([LevelRow(Some(40), 1), LevelRow(Some(61), 2), LevelRow(Some(0), 3)]).averageLevelEmily == 51
    ensures CalculateStats([]).averageLevelEmily == 0
  {
    ExampleQualifyingLevels();
    ExampleAverage([LevelRow(Some(40), 1), LevelRow(Some(61), 2), LevelRow(Some(0), 3)]);
  }

  /** Rows whose qualifying levels are 40 and 61 average to 51. */
  lemma ExampleAverage(bosses: seq<Boss>)
    requires QualifyingLevels(bosses, Emily) == [40, 61]
    ensures CalculateStats(bosses).averageLevelEmily == 51
  {
    assert Sum([40, 61]) == 101;
  }

  /** Of the levels 40, 61 and 0, the first two qualify. */
  lemma ExampleQualifyingLevels()
    ensures QualifyingLevels([LevelRow(Some(40), 1), LevelRow(Some(61), 2), LevelRow(Some(0), 3)], Emily) == [40, 61]
  {
    var bosses := [LevelRow(Some(40), 1), LevelRow(Some(61), 2), LevelRow(Some(0), 3)];
    QualifyingLevelsStep(bosses, Emily);
    QualifyingLevelsStep(bosses[1..], Emily);
    QualifyingLevelsStep(bosses[2..], Emily);
  }
}
