/** One boss on the landing page (`components/landing/boss-card.tsx`): the
    fight duration computed from the two `H:MM:SS` times, the panel the card
    shows for each status, and the guard on the "Watch" button. */
module BossCard {
  import opened Optional
  import opened Strings
  import opened JsMath
  import opened BossModel
  import opened Aggregates
  import ProgressSummary

  /** The `:`-separated parts of a time. */
  function ClockParts(t: string): seq<string> {
    Split(t, ":")
  }

  /** The first three parts (those the destructuring reads) are plain decimal
      digit strings, possibly empty, which `Number` reads as their value. */
  predicate ClockPartsNumeric(t: string) {
    forall k :: 0 <= k < 3 && k < |ClockParts(t)| ==> AllDigits(ClockParts(t)[k])
  }

  /** `h * 3600 + m * 60 + s` for `const [h, m, s] = t.split(":").map(Number)`.
      With fewer than three parts a missing one is `undefined` and the sum is
      `NaN`, here `None`; extra parts are ignored. */
  function ClockSeconds(t: string): (r: Option<int>)
    requires ClockPartsNumeric(t)
    ensures r.None? <==> |ClockParts(t)| < 3
    ensures r.Some? ==> r.value >= 0
  {
    var parts := ClockParts(t);
    if |parts| < 3 then None
    else Some(DigitsValue(parts[0]) * 3600 + DigitsValue(parts[1]) * 60 + DigitsValue(parts[2]))
  }

  /** Any three digit strings joined by colons read as hours, minutes and
      seconds, leading zeros and out-of-range minutes or seconds included. */
  lemma {:induction false} ClockSecondsOfParts(hs: string, ms: string, ss: string)
    requires AllDigits(hs) && AllDigits(ms) && AllDigits(ss)
    ensures ClockPartsNumeric(hs + [':'] + (ms + [':'] + ss))
    ensures ClockSeconds(hs + [':'] + (ms + [':'] + ss))
         == Some(DigitsValue(hs) * 3600 + DigitsValue(ms) * 60 + DigitsValue(ss))
  {
    DigitsHaveNoColon(hs);
    DigitsHaveNoColon(ms);
    DigitsHaveNoColon(ss);
    SplitThree(hs, ms, ss);
    var parts := ClockParts(hs + [':'] + (ms + [':'] + ss));
    assert parts[0] == hs && parts[1] == ms && parts[2] == ss;
  }

  /** Parts after the third are ignored: whatever follows the seconds after
      another `:` leaves the value unchanged. */
  lemma {:induction false} ClockSecondsIgnoresExtraParts(hs: string, ms: string, ss: string, rest: string)
    requires AllDigits(hs) && AllDigits(ms) && AllDigits(ss)
    requires rest == [] || rest[0] == ':'
    ensures ClockPartsNumeric(hs + [':'] + (ms + [':'] + (ss + rest)))
    ensures ClockSeconds(hs + [':'] + (ms + [':'] + (ss + rest)))
         == Some(DigitsValue(hs) * 3600 + DigitsValue(ms) * 60 + DigitsValue(ss))
  {
    DigitsHaveNoColon(hs);
    DigitsHaveNoColon(ms);
    DigitsHaveNoColon(ss);
    var t := hs + [':'] + (ms + [':'] + (ss + rest));
    SplitThreeThen(hs, ms, ss, rest, t);
    assert ClockParts(t)[0] == hs && ClockParts(t)[1] == ms && ClockParts(t)[2] == ss;
  }

  /** Three colon-free texts joined by colons, then anything that starts
      with a colon: the first three parts are the three texts. */
  lemma SplitThreeThen(a: string, b: string, c: string, rest: string, t: string)
    requires ':' !in a && ':' !in b && ':' !in c
    requires rest == [] || rest[0] == ':'
    requires t == a + [':'] + (b + [':'] + (c + rest))
    ensures |ClockParts(t)| >= 3
    ensures ClockParts(t)[0] == a && ClockParts(t)[1] == b && ClockParts(t)[2] == c
  {
    SplitAfterCharFree(a, ':', b + [':'] + (c + rest));
    SplitAfterCharFree(b, ':', c + rest);
    SplitFirstIsCut(c, rest);
  }

  /** A colon-free text followed by nothing or by a colon is the first part. */
  lemma SplitFirstIsCut(c: string, rest: string)
    requires ':' !in c
    requires rest == [] || rest[0] == ':'
    ensures Split(c + rest, [':'])[0] == c
  {
    if rest == [] {
      assert c + rest == c;
      SplitCharFree(c, ':');
    } else {
      assert c + rest == c + [':'] + rest[1..];
      SplitAfterCharFree(c, ':', rest[1..]);
    }
  }

  /** Two decimal digits, as minutes and seconds are written. */
  function TwoDigits(n: nat): (r: string)
    requires n < 100
    ensures |r| == 2 && AllDigits(r) && DigitsValue(r) == n
  {
    var r := [DigitChar(n / 10), DigitChar(n % 10)];
    assert r[..1] == [DigitChar(n / 10)] && r[..1][..0] == [];
    assert DigitsValue(r[..1]) == n / 10;
    r
  }

  lemma DigitsHaveNoColon(s: string)
    requires AllDigits(s)
    ensures ':' !in s
  {
  }

  /** Three colon-free texts joined by colons split back into the three. */
  lemma SplitThree(a: string, b: string, c: string)
    requires ':' !in a && ':' !in b && ':' !in c
    ensures ClockParts(a + [':'] + (b + [':'] + c)) == [a, b, c]
  {
    SplitTwo(b, c);
    SplitAfterCharFree(a, ':', b + [':'] + c);
  }

  lemma SplitTwo(b: string, c: string)
    requires ':' !in b && ':' !in c
    ensures Split(b + [':'] + c, [':']) == [b, c]
  {
    SplitAfterCharFree(b, ':', c);
    SplitCharFree(c, ':');
  }

  /** The `H:MM:SS` text of a time of day: its three parts are the hours and
      the two-digit minutes and seconds. */
  function ClockText(h: nat, m: nat, s: nat): (t: string)
    requires m < 60 && s < 60
    ensures ClockParts(t) == [NatToString(h), TwoDigits(m), TwoDigits(s)]
    ensures ClockPartsNumeric(t) && |t| >= 7
  {
    var hs, ms, ss := NatToString(h), TwoDigits(m), TwoDigits(s);
    DigitsHaveNoColon(hs);
    DigitsHaveNoColon(ms);
    DigitsHaveNoColon(ss);
    SplitThree(hs, ms, ss);
    hs + [':'] + (ms + [':'] + ss)
  }

  /** Reading an `H:MM:SS` text gives back the seconds it was written from. */
  lemma ClockRoundTrip(h: nat, m: nat, s: nat)
    requires m < 60 && s < 60
    ensures ClockSeconds(ClockText(h, m, s)) == Some(h * 3600 + m * 60 + s)
  {
  }

  /** `Math.floor(d / 3600)`: the whole hours in `d` seconds, rounded down. */
  function WholeHours(d: int): (h: int)
    ensures h * 3600 <= d < h * 3600 + 3600
  {
    d / 3600
  }

  /** `Math.floor((d % 3600) / 60)` with JavaScript's truncating `%`: for a
      non-negative duration the whole minutes left over after the hours; a
      negative one gives a value between -60 and 0. */
  function LeftoverMinutes(d: int): (m: int)
    ensures d >= 0 ==> 0 <= m < 60
    ensures d >= 0 ==> WholeHours(d) * 3600 + m * 60 <= d < WholeHours(d) * 3600 + m * 60 + 60
    ensures d < 0 ==> -60 <= m <= 0
  {
    TruncRem(d, 3600) / 60
  }

  /** The text for a duration: `${hours}h ${minutes}m` when there is at least
      one whole hour, `${minutes}m` otherwise. `NaN` fails the `> 0` test and
      renders as `NaNm`. */
  function DurationText(d: Option<int>): (t: string)
    ensures |t| >= 2 && t[|t| - 1] == 'm'
  {
    match d
    case None => "NaNm"
    case Some(d) =>
      var hours := WholeHours(d);
      var minutes := LeftoverMinutes(d);
      if hours > 0 then IntToString(hours) + "h " + IntToString(minutes) + "m"
      else IntToString(minutes) + "m"
  }

  /** The time fields the card may be given: any that `formatDuration` goes
      on to read are numeric. */
  predicate TimeReadable(t: Option<string>) {
    t.Some? && t.value != "" ==> ClockPartsNumeric(t.value)
  }

  /** `formatDuration(start, end)`: null when either time is null or empty,
      otherwise the text of `end - start` in seconds. */
  function FormatDuration(start: Option<string>, end: Option<string>): (r: Option<string>)
    requires TimeReadable(start) && TimeReadable(end)
    ensures r.None? <==> start.None? || end.None? || start.value == "" || end.value == ""
    ensures r.Some? && (|ClockParts(start.value)| < 3 || |ClockParts(end.value)| < 3) ==> r == Some("NaNm")
  {
    if start.None? || end.None? || start.value == "" || end.value == "" then
      None
    else
      Some(DurationText(Elapsed(ClockSeconds(start.value), ClockSeconds(end.value))))
  }

  /** `end - start` on two second counts, `NaN` when either one is. */
  function Elapsed(start: Option<int>, end: Option<int>): (d: Option<int>)
    ensures d.Some? <==> start.Some? && end.Some?
    ensures d.Some? ==> start.value + d.value == end.value
  {
    if start.Some? && end.Some? then Some(end.value - start.value) else None
  }

  /** Two readable times with three parts each show the text of the
      difference of their seconds. */
  lemma FormatDurationOfSeconds(start: string, end: string, a: int, b: int)
    requires start != "" && end != ""
    requires ClockPartsNumeric(start) && ClockPartsNumeric(end)
    requires ClockSeconds(start) == Some(a) && ClockSeconds(end) == Some(b)
    ensures FormatDuration(Some(start), Some(end)) == Some(DurationText(Some(b - a)))
  {
    assert Elapsed(ClockSeconds(start), ClockSeconds(end)) == Some(b - a);
  }

  /** A non-negative duration is shown as its whole hours, when there are
      any, and the whole minutes left over: together they account for every
      second of `d` except the under-a-minute rest. */
  lemma DurationTextNonNegative(d: int)
    requires d >= 0
    ensures 0 <= LeftoverMinutes(d) < 60 && 0 <= WholeHours(d)
    ensures WholeHours(d) * 3600 + LeftoverMinutes(d) * 60 <= d
            < WholeHours(d) * 3600 + LeftoverMinutes(d) * 60 + 60
    ensures DurationText(Some(d))
         == if WholeHours(d) > 0 then NatToString(WholeHours(d)) + "h " + NatToString(LeftoverMinutes(d)) + "m"
            else NatToString(LeftoverMinutes(d)) + "m"
  {
    DurationTextParts(d);
  }

  /** The text of a non-negative duration, in terms of its hours and minutes. */
  lemma DurationTextParts(d: int)
    requires d >= 0
    ensures 0 <= LeftoverMinutes(d) < 60 && 0 <= WholeHours(d)
    ensures DurationText(Some(d))
         == if WholeHours(d) > 0 then NatToString(WholeHours(d)) + "h " + NatToString(LeftoverMinutes(d)) + "m"
            else NatToString(LeftoverMinutes(d)) + "m"
  {
  }

  /** What the shown duration means: for an end no earlier than the start it
      names the whole hours and the whole minutes left over, with the hours
      omitted when there are none. */
  lemma FormatDurationMeaning(start: string, end: string, a: nat, b: nat)
    requires start != "" && end != ""
    requires ClockPartsNumeric(start) && ClockPartsNumeric(end)
    requires ClockSeconds(start) == Some(a) && ClockSeconds(end) == Some(b) && a <= b
    ensures exists h: nat, m: nat ::
              && m < 60
              && h * 3600 + m * 60 <= b - a < h * 3600 + m * 60 + 60
              && FormatDuration(Some(start), Some(end))
                 == Some(if h > 0 then NatToString(h) + "h " + NatToString(m) + "m" else NatToString(m) + "m")
  {
    var d := b - a;
    DurationTextParts(d);
    FormatDurationOfSeconds(start, end, a, b);
    var h: nat, m: nat := WholeHours(d), LeftoverMinutes(d);
    assert h * 3600 + m * 60 <= d < h * 3600 + m * 60 + 60;
  }

  /** The texts of the tracker's example times. */
  lemma ClockTextExample()
    ensures ClockText(0, 45, 20) == "0:45:20" && ClockText(2, 6, 36) == "2:06:36"
  {
    ClockTextStartExample();
    ClockTextEndExample();
  }

  /** The example's start time, 45 minutes and 20 seconds in. */
  lemma ClockTextStartExample()
    ensures ClockText(0, 45, 20) == "0:45:20"
  {
    ClockTextSpelled(0, "0", 45, "45", 20, "20");
  }

  /** The example's end time, two hours, 6 minutes and 36 seconds in. */
  lemma ClockTextEndExample()
    ensures ClockText(2, 6, 36) == "2:06:36"
  {
    ClockTextSpelled(2, "2", 6, "06", 36, "36");
  }

  /** `ClockText` puts the spelled-out parts between colons. */
  lemma ClockTextSpelled(h: nat, hs: string, m: nat, ms: string, s: nat, ss: string)
    requires m < 60 && s < 60
    requires NatToString(h) == hs && TwoDigits(m) == ms && TwoDigits(s) == ss
    ensures ClockText(h, m, s) == hs + ":" + ms + ":" + ss
  {
  }

  /** 4876 seconds are one hour and 21 minutes (and 16 seconds, dropped). */
  lemma DurationTextExample()
    ensures DurationText(Some(4876)) == "1h 21m"
  {
    assert NatToString(21) == NatToString(2) + [DigitChar(1)];
  }

  /** The tracker's own example: from 0:45:20 to 2:06:36 is "1h 21m". The
      times are written with `ClockText`, whose texts `ClockTextExample`
      spells out. */
  lemma FormatDurationExample()
    ensures FormatDuration(Some(ClockText(0, 45, 20)), Some(ClockText(2, 6, 36))) == Some("1h 21m")
  {
    ClockRoundTrip(0, 45, 20);
    ClockRoundTrip(2, 6, 36);
    FormatDurationOfSeconds(ClockText(0, 45, 20), ClockText(2, 6, 36), 2720, 7596);
    DurationTextExample();
  }

  /** A whole number of minutes under an hour is shown as just the minutes. */
  lemma DurationTextMinutes(m: nat)
    requires m < 60
    ensures DurationText(Some(m * 60)) == NatToString(m) + "m"
  {
    assert WholeHours(m * 60) == 0;
    assert LeftoverMinutes(m * 60) == m;
  }

  /** A missing or empty time shows no duration, whatever the other one is. */
  lemma FormatDurationMissingTime(t: Option<string>)
    requires TimeReadable(t)
    ensures FormatDuration(None, t) == None && FormatDuration(t, None) == None
    ensures FormatDuration(Some(""), t) == None && FormatDuration(t, Some("")) == None
  {
  }

  /** The body of a card: the victory panel for a Completed boss, the fight
      panel for one In Progress, and "Awaiting challenge" for any other
      status, null included. */
  datatype CardPanel = VictoryPanel | FightPanel | AwaitingPanel

  function PanelFor(status: Option<BossStatus>): (p: CardPanel)
    ensures p == VictoryPanel <==> status == Some(Completed)
    ensures p == FightPanel <==> status == Some(InProgress)
    ensures p == AwaitingPanel <==> status == None || status == Some(NotStarted)
  {
    match status
    case Some(Completed) => VictoryPanel
    case Some(InProgress) => FightPanel
    case _ => AwaitingPanel
  }

  /** How many cards of the grid show the given panel. */
  function CountPanel(bosses: seq<Boss>, p: CardPanel): nat {
    if |bosses| == 0 then 0
    else (if PanelFor(bosses[0].status) == p then 1 else 0) + CountPanel(bosses[1..], p)
  }

  /** The grid's "Awaiting challenge" cards are exactly the summary's
      "Awaiting" figure: Not Started rows and null-status rows together. */
  lemma AwaitingCardsMatchSummary(bosses: seq<Boss>)
    ensures CountPanel(bosses, AwaitingPanel) == ProgressSummary.Summarize(bosses).awaiting
  {
    AwaitingCardsCount(bosses);
  }

  /** A card awaits exactly when its row is Not Started or has no status. */
  lemma {:induction false} AwaitingCardsCount(bosses: seq<Boss>)
    ensures CountPanel(bosses, AwaitingPanel) == CountStatus(bosses, Some(NotStarted)) + CountStatus(bosses, None)
  {
    if |bosses| > 0 {
      AwaitingCardsCount(bosses[1..]);
      CountStatusStep(bosses, Some(NotStarted));
      CountStatusStep(bosses, None);
    }
  }

  /** The numbers a card prints for a player: `level || 0` and `deaths || 0`. */
  function CardFigures(b: Boss, p: Player): (r: (int, int))
    ensures b.Level(p).Some? ==> r.0 == b.Level(p).value
    ensures b.Level(p).None? ==> r.0 == 0
    ensures b.DeathCount(p).Some? ==> r.1 == b.DeathCount(p).value
    ensures b.DeathCount(p).None? ==> r.1 == 0
  {
    (OrZero(b.Level(p)), OrZero(b.DeathCount(p)))
  }

  /** `handleWatchClip`: the link handed to `onWatchClip`, if the button
      fires it at all. It fires only for a non-null, non-empty link and only
      when the grid supplied a callback; the link is passed unchanged. */
  function WatchClip(clipLink: Option<string>, hasCallback: bool): (r: Option<string>)
    ensures r.Some? <==> clipLink.Some? && clipLink.value != "" && hasCallback
    ensures r.Some? ==> r == clipLink
  {
    if clipLink.Some? && clipLink.value != "" && hasCallback then clipLink else None
  }
}
