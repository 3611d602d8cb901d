/** The landing page's progress summary
    (`components/landing/progress-summary.tsx`): counts, the completion
    percentage, combined and per-player deaths, and the level averages. */
module ProgressSummary {
  import opened Optional
  import opened BossModel
  import opened JsMath
  import opened Aggregates
  import Overlay

  /** The figures the summary cards display. `percentage` is `None` where the
      page shows `NaN` (an empty list divides 0 by 0). */
  datatype SummaryView = SummaryView(
    completed: nat,
    inProgress: nat,
    total: nat,
    percentage: Option<int>,
    totalDeaths: int,
    deathsEmily: int,
    deathsAgent: int,
    averageLevelEmily: int,
    averageLevelAgent: int,
    combinedLevel: int,
    awaiting: int)

  /** `Math.round((completed / total) * 100)` with no guard for an empty list:
      no value (`NaN`) for an empty list, otherwise the whole percentage within
      a half of `100 * completed / total`, which is the overlay's guarded one. */
  function DisplayedPercentage(completed: nat, total: nat): (pct: Option<int>)
    requires completed <= total
    ensures pct.None? <==> total == 0
    ensures pct.Some? ==> 2 * total * pct.value <= 200 * completed + total < 2 * total * pct.value + 2 * total
    ensures pct.Some? ==> 0 <= pct.value <= 100
    ensures pct.Some? ==> pct.value == Overlay.CompletionPercentage(completed, total)
  {
    if total == 0 then None else Some(RoundedPercentage(completed, total))
  }

  /** `Math.round((averageLevelEmily + averageLevelAgent) / 2)`: the integer
      within a half of the two averages' mean, a half rounding up, so it lies
      between them. */
  function CombinedLevel(a: int, b: int): (r: int)
    ensures 2 * r - 1 <= a + b < 2 * r + 1
    ensures (if a <= b then a else b) <= r <= (if a <= b then b else a)
  {
    var lo := if a <= b then a else b;
    var hi := if a <= b then b else a;
    RoundDivWithin(a + b, 2, lo, hi);
    RoundDiv(a + b, 2)
  }

  /** Everything the summary shows for the list of bosses. */
  function Summarize(bosses: seq<Boss>): (v: SummaryView)
    ensures v.total == |bosses|
    ensures v.completed == CountStatus(bosses, Some(Completed))
    ensures v.inProgress == CountStatus(bosses, Some(InProgress))
    // "Awaiting" is every row that is neither Completed nor In Progress,
    // null-status rows included
    ensures v.completed + v.inProgress + v.awaiting == v.total
    ensures v.awaiting == CountStatus(bosses, Some(NotStarted)) + CountStatus(bosses, None)
    ensures v.totalDeaths == v.deathsEmily + v.deathsAgent
    ensures v.deathsEmily == DeathSum(bosses, Emily) && v.deathsAgent == DeathSum(bosses, Agent)
    ensures v.percentage.None? <==> v.total == 0
    ensures v.percentage.Some? ==> 0 <= v.percentage.value <= 100
    ensures v.percentage.Some? ==> 2 * v.total * v.percentage.value <= 200 * v.completed + v.total
                                     < 2 * v.total * v.percentage.value + 2 * v.total
    ensures v.averageLevelEmily == LevelAverage(bosses, Emily)
    ensures v.averageLevelAgent == LevelAverage(bosses, Agent)
    ensures 2 * v.combinedLevel - 1 <= v.averageLevelEmily + v.averageLevelAgent < 2 * v.combinedLevel + 1
  {
    var completed := CountStatus(bosses, Some(Completed));
    var inProgress := CountStatus(bosses, Some(InProgress));
    var total := |bosses|;
    StatusBucketsPartition(bosses);
    var averageEmily := GuardedLevelAverage(bosses, Emily);
    var averageAgent := GuardedLevelAverage(bosses, Agent);
    SummaryView(
      completed,
      inProgress,
      total,
      DisplayedPercentage(completed, total),
      CombinedDeaths(bosses),
      DeathSum(bosses, Emily),
      DeathSum(bosses, Agent),
      averageEmily,
      averageAgent,
      CombinedLevel(averageEmily, averageAgent),
      total - completed - inProgress)
  }

  /** Where the summary and the overlay differ: "Awaiting" also counts
      null-status rows, which the overlay's `notStarted` leaves out, and the
      summary's deaths add Agent's to Emily's. Counts, averages and any
      defined percentage agree. */
  lemma SummaryVersusOverlay(bosses: seq<Boss>)
    ensures Summarize(bosses).awaiting == Overlay.CalculateStats(bosses).notStarted + CountStatus(bosses, None)
    ensures Summarize(bosses).awaiting >= Overlay.CalculateStats(bosses).notStarted
    ensures Summarize(bosses).totalDeaths == Overlay.CalculateStats(bosses).totalDeaths + DeathSum(bosses, Agent)
    ensures Summarize(bosses).completed == Overlay.CalculateStats(bosses).completed
    ensures Summarize(bosses).inProgress == Overlay.CalculateStats(bosses).inProgress
    ensures Summarize(bosses).averageLevelEmily == Overlay.CalculateStats(bosses).averageLevelEmily
    ensures Summarize(bosses).averageLevelAgent == Overlay.CalculateStats(bosses).averageLevelAgent
    ensures |bosses| > 0 ==> Summarize(bosses).percentage == Some(Overlay.CalculateStats(bosses).completionPercentage)
  {
  }
}
