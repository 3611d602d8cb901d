/** The counting, summing and averaging steps that the overlay, the progress
    summary and the hero section each compute over the list of bosses. */
module Aggregates {
  import opened Optional
  import opened BossModel
  import opened JsMath

  /** The status column of the list, in row order. */
  function Statuses(bosses: seq<Boss>): seq<Option<BossStatus>> {
    if |bosses| == 0 then [] else [bosses[0].status] + Statuses(bosses[1..])
  }

  /** `bosses.filter(b => b.status === s)`; `None` selects the rows whose
      status is null. It keeps one row for every occurrence of `s` in the
      status column, and no other row. */
  function WithStatus(bosses: seq<Boss>, s: Option<BossStatus>): (r: seq<Boss>)
    ensures |r| <= |bosses|
    ensures |r| == multiset(Statuses(bosses))[s]
    ensures forall b :: b in r <==> b in bosses && b.status == s
  {
    if |bosses| == 0 then
      []
    else
      var rest := WithStatus(bosses[1..], s);
      assert forall b :: b in bosses <==> b == bosses[0] || b in bosses[1..];
      assert multiset(Statuses(bosses)) == multiset([bosses[0].status]) + multiset(Statuses(bosses[1..]));
      if bosses[0].status == s then [bosses[0]] + rest else rest
  }

  /** The number of rows whose status is `s` (the filtered list's `length`):
      how often `s` occurs in the status column. */
  function CountStatus(bosses: seq<Boss>, s: Option<BossStatus>): (n: nat)
    ensures n == multiset(Statuses(bosses))[s]
  {
    |WithStatus(bosses, s)|
  }

  /** Every row lands in exactly one of four buckets: the three statuses and null. */
  lemma {:induction false} StatusBucketsPartition(bosses: seq<Boss>)
    ensures CountStatus(bosses, Some(Completed)) + CountStatus(bosses, Some(InProgress))
          + CountStatus(bosses, Some(NotStarted)) + CountStatus(bosses, None) == |bosses|
  {
    if |bosses| > 0 {
      StatusBucketsPartition(bosses[1..]);
      CountStatusStep(bosses, Some(Completed));
      CountStatusStep(bosses, Some(InProgress));
      CountStatusStep(bosses, Some(NotStarted));
      CountStatusStep(bosses, None);
      match bosses[0].status
      case None =>
      case Some(NotStarted) =>
      case Some(InProgress) =>
      case Some(Completed) =>
    }
  }

  lemma CountStatusStep(bosses: seq<Boss>, s: Option<BossStatus>)
    requires |bosses| > 0
    ensures CountStatus(bosses, s) == (if bosses[0].status == s then 1 else 0) + CountStatus(bosses[1..], s)
  {
  }

  /** A row can be counted under a status only if some row has that status. */
  lemma CountStatusPositive(bosses: seq<Boss>, s: Option<BossStatus>)
    ensures CountStatus(bosses, s) > 0 <==> exists i :: 0 <= i < |bosses| && bosses[i].status == s
  {
    var r := WithStatus(bosses, s);
    if |r| > 0 {
      assert r[0] in r;
      var i :| 0 <= i < |bosses| && bosses[i] == r[0];
    }
    if exists i :: 0 <= i < |bosses| && bosses[i].status == s {
      var i :| 0 <= i < |bosses| && bosses[i].status == s;
      assert bosses[i] in r;
    }
  }

  /** `bosses.reduce((sum, b) => sum + (b.death_count_p || 0), 0)`. With no
      negative count stored the sum is non-negative, and with no count
      stored at all it is 0. */
  function DeathSum(bosses: seq<Boss>, p: Player): (total: int)
    ensures (forall i :: 0 <= i < |bosses| ==> OrZero(bosses[i].DeathCount(p)) >= 0) ==> total >= 0
    ensures (forall i :: 0 <= i < |bosses| ==> bosses[i].DeathCount(p).None?) ==> total == 0
  {
    if |bosses| == 0 then
      0
    else
      assert forall i :: 1 <= i < |bosses| ==> bosses[i] == bosses[1..][i - 1];
      OrZero(bosses[0].DeathCount(p)) + DeathSum(bosses[1..], p)
  }

  /** `bosses.reduce((sum, b) => sum + (b.death_count_emily || 0) + (b.death_count_agent || 0), 0)`:
      the single-pass sum equals Emily's sum plus Agent's sum. */
  function CombinedDeaths(bosses: seq<Boss>): (total: int)
    ensures total == DeathSum(bosses, Emily) + DeathSum(bosses, Agent)
  {
    if |bosses| == 0 then
      0
    else
      OrZero(bosses[0].deathCountEmily) + OrZero(bosses[0].deathCountAgent) + CombinedDeaths(bosses[1..])
  }

  /** Summing over a concatenation sums the two parts. */
  lemma {:induction false} DeathSumAppend(a: seq<Boss>, b: seq<Boss>, p: Player)
    ensures DeathSum(a + b, p) == DeathSum(a, p) + DeathSum(b, p)
  {
    if |a| == 0 {
      assert a + b == b;
    } else {
      DeathSumAppend(a[1..], b, p);
      assert (a + b)[1..] == a[1..] + b;
    }
  }

  /** A row whose death count is null contributes nothing, exactly as a 0 does. */
  lemma DeathSumNullIsZero(pre: seq<Boss>, b: Boss, post: seq<Boss>, p: Player)
    requires b.DeathCount(p).None? || b.DeathCount(p) == Some(0)
    ensures DeathSum(pre + [b] + post, p) == DeathSum(pre + post, p)
  {
    DeathSumAppend(pre + [b], post, p);
    DeathSumAppend(pre, [b], p);
    DeathSumAppend(pre, post, p);
  }

  /** `xs.reduce((sum, x) => sum + x, 0)`. */
  function Sum(xs: seq<int>): int {
    if |xs| == 0 then 0 else xs[0] + Sum(xs[1..])
  }

  /** A sum of values in `[lo, hi]` lies between `lo` and `hi` times the count. */
  lemma {:induction false} SumWithin(xs: seq<int>, lo: int, hi: int)
    requires forall k :: 0 <= k < |xs| ==> lo <= xs[k] <= hi
    ensures lo * |xs| <= Sum(xs) <= hi * |xs|
  {
    if |xs| > 0 {
      SumWithin(xs[1..], lo, hi);
    }
  }

  /** The overlay's level list: `bosses.filter(b => b.level && b.level > 0).map(b => b.level!)`. */
  function QualifyingLevels(bosses: seq<Boss>, p: Player): (r: seq<int>)
    ensures |r| <= |bosses|
    ensures forall k :: 0 <= k < |r| ==> r[k] > 0
    ensures forall v :: v in r ==> exists i :: 0 <= i < |bosses| && bosses[i].Level(p) == Some(v)
    ensures forall i :: 0 <= i < |bosses| && bosses[i].Level(p).Some? && bosses[i].Level(p).value > 0
              ==> bosses[i].Level(p).value in r
  {
    if |bosses| == 0 then
      []
    else
      var rest := QualifyingLevels(bosses[1..], p);
      assert forall i :: 1 <= i < |bosses| ==> bosses[i] == bosses[1..][i - 1];
      match bosses[0].Level(p)
      case Some(v) => if v > 0 then [v] + rest else rest
      case None => rest
  }

  lemma {:induction false} QualifyingLevelsAppend(a: seq<Boss>, b: seq<Boss>, p: Player)
    ensures QualifyingLevels(a + b, p) == QualifyingLevels(a, p) + QualifyingLevels(b, p)
  {
    if |a| == 0 {
      assert a + b == b;
    } else {
      var ab := a + b;
      assert ab[0] == a[0];
      assert ab[1..] == a[1..] + b;
      QualifyingLevelsAppend(a[1..], b, p);
      QualifyingLevelsStep(ab, p);
      QualifyingLevelsStep(a, p);
      ConsAppend(QualifyingLevels(ab, p), QualifyingLevels(a, p), QualifyingLevels(b, p),
                 QualifyingLevels(a[1..], p),
                 if OrZero(a[0].Level(p)) > 0 then [OrZero(a[0].Level(p))] else []);
    }
  }

  /** Putting the same head on both sides of `ys == xs + zs`. */
  lemma ConsAppend(hys: seq<int>, hxs: seq<int>, zs: seq<int>, xs: seq<int>, h: seq<int>)
    requires hxs == h + xs
    requires hys == h + (xs + zs)
    ensures hys == hxs + zs
  {
  }

  lemma QualifyingLevelsStep(bosses: seq<Boss>, p: Player)
    requires |bosses| > 0
    ensures QualifyingLevels(bosses, p)
         == (if OrZero(bosses[0].Level(p)) > 0 then [OrZero(bosses[0].Level(p))] else [])
            + QualifyingLevels(bosses[1..], p)
  {
  }

  /** No level qualifies exactly when no row has a positive level for the player. */
  lemma {:induction false} QualifyingLevelsEmpty(bosses: seq<Boss>, p: Player)
    ensures |QualifyingLevels(bosses, p)| == 0
        <==> forall i :: 0 <= i < |bosses| ==> OrZero(bosses[i].Level(p)) <= 0
  {
    if |bosses| > 0 {
      QualifyingLevelsEmpty(bosses[1..], p);
      assert forall i :: 1 <= i < |bosses| ==> bosses[i] == bosses[1..][i - 1];
    }
  }

  /** The mean of `xs` rounded half up, or 0 for an empty list. */
  function RoundedMean(xs: seq<int>): (m: int)
    ensures |xs| == 0 ==> m == 0
    ensures |xs| > 0 ==> 2 * |xs| * m <= 2 * Sum(xs) + |xs| < 2 * |xs| * m + 2 * |xs|
  {
    if |xs| > 0 then RoundDiv(Sum(xs), |xs|) else 0
  }

  /** The rounded mean of values in `[lo, hi]` stays in `[lo, hi]`. */
  lemma RoundedMeanWithin(xs: seq<int>, lo: int, hi: int)
    requires |xs| > 0
    requires forall k :: 0 <= k < |xs| ==> lo <= xs[k] <= hi
    ensures lo <= RoundedMean(xs) <= hi
  {
    SumWithin(xs, lo, hi);
    RoundDivWithin(Sum(xs), |xs|, lo, hi);
  }

  /** The overlay's per-player average level: the rounded mean of the
      qualifying levels, 0 when none qualifies. */
  function LevelAverage(bosses: seq<Boss>, p: Player): (avg: int)
    ensures var xs := QualifyingLevels(bosses, p);
      && (|xs| == 0 ==> avg == 0)
      && (|xs| > 0 ==> 2 * |xs| * avg <= 2 * Sum(xs) + |xs| < 2 * |xs| * avg + 2 * |xs|)
  {
    RoundedMean(QualifyingLevels(bosses, p))
  }

  /** The average is 0 exactly when no level qualifies; otherwise it is a
      positive value no larger than any bound on the qualifying levels. */
  lemma LevelAverageRange(bosses: seq<Boss>, p: Player, hi: int)
    requires forall i :: 0 <= i < |bosses| ==> OrZero(bosses[i].Level(p)) <= hi
    ensures LevelAverage(bosses, p) == 0 <==> forall i :: 0 <= i < |bosses| ==> OrZero(bosses[i].Level(p)) <= 0
    ensures 0 <= LevelAverage(bosses, p) <= if hi > 0 then hi else 0
  {
    var xs := QualifyingLevels(bosses, p);
    QualifyingLevelsEmpty(bosses, p);
    if |xs| > 0 {
      QualifyingLevelsBounded(bosses, p, hi);
      RoundedMeanWithin(xs, 1, hi);
    }
  }

  lemma {:induction false} QualifyingLevelsBounded(bosses: seq<Boss>, p: Player, hi: int)
    requires forall i :: 0 <= i < |bosses| ==> OrZero(bosses[i].Level(p)) <= hi
    ensures forall k :: 0 <= k < |QualifyingLevels(bosses, p)| ==> QualifyingLevels(bosses, p)[k] <= hi
  {
    if |bosses| > 0 {
      assert forall i :: 1 <= i < |bosses| ==> bosses[i] == bosses[1..][i - 1];
      QualifyingLevelsBounded(bosses[1..], p, hi);
    }
  }

  /** A row without a positive level (null, 0 or negative) does not move the
      average, wherever it sits in the list. */
  lemma LevelAverageIgnoresUnset(pre: seq<Boss>, b: Boss, post: seq<Boss>, p: Player)
    requires OrZero(b.Level(p)) <= 0
    ensures LevelAverage(pre + [b] + post, p) == LevelAverage(pre + post, p)
  {
    UnsetRowAddsNoLevel(pre, b, p);
    QualifyingLevelsAppend(pre + [b], post, p);
    QualifyingLevelsAppend(pre, post, p);
  }

  /** Appending a row without a positive level adds no qualifying level. */
  lemma UnsetRowAddsNoLevel(pre: seq<Boss>, b: Boss, p: Player)
    requires OrZero(b.Level(p)) <= 0
    ensures QualifyingLevels(pre + [b], p) == QualifyingLevels(pre, p)
  {
    QualifyingLevelsStep([b], p);
    assert QualifyingLevels([b], p) == [];
    QualifyingLevelsAppend(pre, [b], p);
    assert QualifyingLevels(pre, p) + [] == QualifyingLevels(pre, p);
  }

  /** The landing page's level list: `bosses.filter(b => (b.level || 0) > 0)`,
      exactly the rows with a positive level for the player. */
  function LevelledBosses(bosses: seq<Boss>, p: Player): (r: seq<Boss>)
    ensures |r| <= |bosses|
    ensures forall b :: b in r <==> b in bosses && OrZero(b.Level(p)) > 0
  {
    assert forall b :: b in bosses <==> |bosses| > 0 && (b == bosses[0] || b in bosses[1..]);
    if |bosses| == 0 then
      []
    else if OrZero(bosses[0].Level(p)) > 0 then
      [bosses[0]] + LevelledBosses(bosses[1..], p)
    else
      LevelledBosses(bosses[1..], p)
  }

  /** `bs.reduce((sum, b) => sum + (b.level || 0), 0)`. Over rows that all
      have a positive level the total is at least the number of rows, so the
      landing page's average of such rows is at least 1. */
  function LevelTotal(bs: seq<Boss>, p: Player): (total: int)
    ensures (forall i :: 0 <= i < |bs| ==> OrZero(bs[i].Level(p)) > 0) ==> total >= |bs|
  {
    if |bs| == 0 then
      0
    else
      assert forall i :: 1 <= i < |bs| ==> bs[i] == bs[1..][i - 1];
      OrZero(bs[0].Level(p)) + LevelTotal(bs[1..], p)
  }

  /** The landing page's average: `Math.round(total / count) || 0`, where an
      empty list divides 0 by 0, giving `NaN`, which `|| 0` turns into 0. */
  function GuardedLevelAverage(bosses: seq<Boss>, p: Player): (avg: int)
    ensures avg == LevelAverage(bosses, p)
  {
    var levelled := LevelledBosses(bosses, p);
    var rounded: Option<int> :=
      if |levelled| == 0 then None else Some(RoundDiv(LevelTotal(levelled, p), |levelled|));
    LandingFilterMatchesOverlay(bosses, p);
    OrZero(rounded)
  }

  /** The landing page's filter-then-sum visits the same levels as the
      overlay's filter-then-map: same count, same total. */
  lemma {:induction false} LandingFilterMatchesOverlay(bosses: seq<Boss>, p: Player)
    ensures |LevelledBosses(bosses, p)| == |QualifyingLevels(bosses, p)|
    ensures LevelTotal(LevelledBosses(bosses, p), p) == Sum(QualifyingLevels(bosses, p))
  {
    if |bosses| > 0 {
      LandingFilterMatchesOverlay(bosses[1..], p);
      var rest := LevelledBosses(bosses[1..], p);
      if OrZero(bosses[0].Level(p)) > 0 {
        assert ([bosses[0]] + rest)[1..] == rest;
      }
    }
  }

  /** `Math.round(completed / total * 100)` for a non-empty list, on exact
      rationals: the whole percentage within a half of `100 * completed / total`,
      so in `[0, 100]`, 0 with nothing completed and 100 with everything
      completed. */
  function RoundedPercentage(completed: int, total: int): (pct: int)
    requires total > 0
    requires 0 <= completed <= total
    ensures 2 * total * pct <= 200 * completed + total < 2 * total * pct + 2 * total
    ensures 0 <= pct <= 100
    ensures completed == 0 ==> pct == 0
    ensures completed == total ==> pct == 100
  {
    RoundDivWithin(100 * completed, total, 0, 100);
    if completed == 0 then
      RoundDivUnique(0, total, 0);
      RoundDiv(100 * completed, total)
    else if completed == total then
      RoundDivUnique(100 * total, total, 100);
      RoundDiv(100 * completed, total)
    else
      RoundDiv(100 * completed, total)
  }
}
