/** The landing page's hero section (`components/landing/hero-section.tsx`):
    a second copy of the summary's counting, percentage, death and level
    computations, plus the "Remaining" bubble. */
module HeroSection {
  import opened Optional
  import opened BossModel
  import opened Aggregates
  import ProgressSummary

  /** The figures the hero section computes. `percentage` is `None` where the
      badge shows `NaN`. */
  datatype HeroView = HeroView(
    completed: nat,
    inProgress: nat,
    total: nat,
    percentage: Option<int>,
    totalDeaths: int,
    averageLevelEmily: int,
    averageLevelAgent: int,
    remaining: int)

  function Hero(bosses: seq<Boss>): (h: HeroView)
    ensures h.total == |bosses|
    ensures h.completed == CountStatus(bosses, Some(Completed))
    ensures h.inProgress == CountStatus(bosses, Some(InProgress))
    // the two counted buckets are disjoint, so "Remaining" is never negative
    ensures 0 <= h.remaining
    ensures h.completed + h.inProgress + h.remaining == h.total
    ensures h.totalDeaths == DeathSum(bosses, Emily) + DeathSum(bosses, Agent)
    ensures h.percentage.None? <==> h.total == 0
    ensures h.percentage.Some? ==> 0 <= h.percentage.value <= 100
    ensures h.percentage.Some? ==> 2 * h.total * h.percentage.value <= 200 * h.completed + h.total
                                     < 2 * h.total * h.percentage.value + 2 * h.total
    ensures h.averageLevelEmily == LevelAverage(bosses, Emily)
    ensures h.averageLevelAgent == LevelAverage(bosses, Agent)
  {
    var completed := CountStatus(bosses, Some(Completed));
    var inProgress := CountStatus(bosses, Some(InProgress));
    var total := |bosses|;
    StatusBucketsPartition(bosses);
    HeroView(
      completed,
      inProgress,
      total,
      ProgressSummary.DisplayedPercentage(completed, total),
      CombinedDeaths(bosses),
      GuardedLevelAverage(bosses, Emily),
      GuardedLevelAverage(bosses, Agent),
      total - completed - inProgress)
  }

  /** The two landing-page copies agree on every figure they share. */
  lemma HeroMatchesSummary(bosses: seq<Boss>)
    ensures Hero(bosses).completed == ProgressSummary.Summarize(bosses).completed
    ensures Hero(bosses).inProgress == ProgressSummary.Summarize(bosses).inProgress
    ensures Hero(bosses).percentage == ProgressSummary.Summarize(bosses).percentage
    ensures Hero(bosses).totalDeaths == ProgressSummary.Summarize(bosses).totalDeaths
    ensures Hero(bosses).remaining == ProgressSummary.Summarize(bosses).awaiting
    ensures Hero(bosses).averageLevelEmily == ProgressSummary.Summarize(bosses).averageLevelEmily
    ensures Hero(bosses).averageLevelAgent == ProgressSummary.Summarize(bosses).averageLevelAgent
  {
  }
}
