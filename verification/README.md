# Elden Ring boss tracker — a Dafny model of its logic

The tracker shows a fixed list of boss fights for a two-player livestream
(Emily and Agent). Each row of the `bosses` table carries a status (Not
Started, In Progress, Completed or null), start and end times written
`H:MM:SS`, a level and a death count per player, and an optional link to a
Twitch victory clip. Three views derive statistics from the list:

- the stream overlay's `calculateStats`;
- the landing page's progress summary;
- the hero section.

The overlay also picks the boss being fought with `find`. A boss card formats
the fight's duration and turns a clip link into the address of the
embeddable Twitch player. The admin dashboard edits one row through a form:

- every input goes through `updateField`;
- number boxes store `parseInt(text) || 0`;
- text boxes store the typed text;
- the status selector shows `status || "Not Started"`;
- saving stamps `updated_at`.

The model is written over exact values.

- `Option` stands for `null` and also for `NaN` (module `Optional`).
- Numbers are unbounded integers.
- `Math.round(a / b)` is the integer within a half of `a / b`, halves rounded up (`JsMath.RoundDiv`).
- JavaScript's `%` is written out with the sign of the dividend (`JsMath.TruncRem`).
- `indexOf`, `includes` and `split` with a non-empty separator are modelled on `seq<char>` (module `Strings`).
- `parseInt` follows section 19.2.5 of ECMA-262 (numbering of the 2021 and later editions; 18.2.5 in the 2015 edition). It skips the white space and line terminators of sections 12.2 and 12.3 (11.2 and 11.3 in the 2015 edition), takes one sign, switches to radix 16 after `0x`/`0X`, and reads the longest run of digits (`AdminDashboard.ParseInt`).

Modules follow the source files:

| module | models |
|---|---|
| `BossModel` | the row, the statistics record and the status labels |
| `Aggregates` | the counting, summing and averaging shared by the three views |
| `Overlay` | the overlay page |
| `ProgressSummary` | the progress summary |
| `HeroSection` | the hero section |
| `StatusDisplay` | the badge text and style |
| `BossCard` | the boss card |
| `ClipViewer` | the clip dialog |
| `AdminDashboard` | the admin table and form |

Some behaviours the code shows, which its comments and labels do not say:

- **A null status.** A row with a null status is *shown* as Not Started but is not one. The overlay's `notStarted` leaves it out, while the landing page's "Awaiting" counts it (`ProgressSummary.SummaryVersusOverlay`). Saving the edit form untouched keeps it null (`AdminDashboard.UntouchedNullStatusStaysNull`).
- **Deaths.** The overlay's `totalDeaths` is Emily's deaths only. The landing page adds Agent's (`Overlay.OverlayIgnoresAgentDeaths`, `ProgressSummary.SummaryVersusOverlay`).
- **Empty list.** With no rows, the landing page's percentage is `NaN` and shows as `NaN%` (`ProgressSummary.DisplayedPercentage`). The overlay guards it to 0.
- **Negative durations.** A duration whose end is before its start is shown with negative minutes, through JavaScript's truncating `%` (`BossCard.LeftoverMinutes`). A time with fewer than three `:` parts shows `NaNm` (`BossCard.FormatDuration`).
- **A channel called `clip`.** In a link of the form `https://www.twitch.tv/clip/clip/<id>`, the channel name is taken for the marker, so the clip id read is `clip` (`ClipViewer.ChannelNamedClip`). Every other channel name gives back its id (`ClipViewer.ChannelLinkRoundTrip`).

## Model

| member | source | states |
|---|---|---|
| `BossModel.ParseStatus` | lib/database.types.ts:80 | exactly the three status labels are statuses, each the one it names; any other text is none of them |
| `BossModel.StatusLabel` | lib/database.types.ts:80 | each status is written as its own one of the enumeration's three labels, and no two statuses share a label |
| `BossModel.StatusLabelRoundTrip` | lib/database.types.ts:16 | the three labels are distinct: reading a status's label gives back that status |
| `BossModel.OrZero` | components/landing/boss-card.tsx:127 | `x \|\| 0` keeps a present number (0 included) and turns null into 0 |
| `JsMath.RoundDiv` | app/stream/overlay/emily/page.tsx:95-98 | `Math.round(a / b)` lies within a half of the exact quotient, a half rounding up |
| `JsMath.RoundDivUnique` | app/stream/overlay/emily/page.tsx:102-105 | no other integer lies within a half of the quotient, so the rounding is determined |
| `JsMath.RoundDivWithin` | components/landing/progress-summary.tsx:219 | rounding a quotient that lies in `[lo, hi]` stays in `[lo, hi]` |
| `JsMath.TruncRem` | components/landing/boss-card.tsx:46 | JavaScript's `%` has the sign of the dividend and agrees with the mathematical remainder on non-negative dividends |
| `JsMath.TruncRemOdd` | components/landing/boss-card.tsx:46 | negating the dividend negates the remainder |
| `Aggregates.WithStatus` | app/stream/overlay/emily/page.tsx:67-75 | the filtered list holds exactly the rows with the given status |
| `Aggregates.DeathSum` | app/stream/overlay/emily/page.tsx:77-84 | with no negative count stored the death sum is non-negative, and with no count stored at all it is 0 |
| `Aggregates.CountStatus` | app/stream/overlay/emily/page.tsx:67-75 | a `.filter(..).length` count is the number of times the status occurs in the status column |
| `Aggregates.StatusBucketsPartition` | app/stream/overlay/emily/page.tsx:66-75 | Completed, In Progress, Not Started and null counts add up to the number of rows |
| `Aggregates.CountStatusPositive` | app/stream/overlay/emily/page.tsx:55-57 | a status is counted at least once exactly when some row has it |
| `Aggregates.CombinedDeaths` | components/landing/progress-summary.tsx:22-26 | the one-pass sum of both players' deaths equals Emily's sum plus Agent's sum |
| `Aggregates.DeathSumAppend` | app/stream/overlay/emily/page.tsx:77-80 | the death sum of a concatenation is the sum of the parts' sums |
| `Aggregates.DeathSumNullIsZero` | app/stream/overlay/emily/page.tsx:78 | a row with a null death count adds nothing, like a 0, wherever it is |
| `Aggregates.SumWithin` | app/stream/overlay/emily/page.tsx:96 | a sum of values in `[lo, hi]` lies between `lo` and `hi` times the count |
| `Aggregates.QualifyingLevels` | app/stream/overlay/emily/page.tsx:86-91 | the overlay's level list holds exactly the positive levels of the rows: every entry is positive and is some row's level, every positive level of a row is in it, and it has no more entries than rows |
| `Aggregates.QualifyingLevelsAppend` | app/stream/overlay/emily/page.tsx:86-88 | filtering a concatenation concatenates the filtered parts, in order |
| `Aggregates.QualifyingLevelsEmpty` | app/stream/overlay/emily/page.tsx:93-99 | no level qualifies exactly when no row has a positive level for the player |
| `Aggregates.RoundedMeanWithin` | app/stream/overlay/emily/page.tsx:93-99 | the rounded mean of values in `[lo, hi]` stays in `[lo, hi]` |
| `Aggregates.LevelAverage` | app/stream/overlay/emily/page.tsx:93-106 | the average is 0 when no level qualifies, and otherwise the integer within a half of the mean of the qualifying levels, a half rounding up |
| `Aggregates.LevelAverageRange` | app/stream/overlay/emily/page.tsx:93-106 | the average is 0 exactly when no row has a positive level, and otherwise lies between 1 and any bound on the levels |
| `Aggregates.LevelAverageIgnoresUnset` | app/stream/overlay/emily/page.tsx:87 | a row with a null, 0 or negative level leaves the average unchanged, wherever it is inserted |
| `Aggregates.UnsetRowAddsNoLevel` | app/stream/overlay/emily/page.tsx:87 | appending a row without a positive level adds nothing to the level list |
| `Aggregates.LevelledBosses` | components/landing/progress-summary.tsx:31 | the landing page's filter keeps exactly the rows with a positive level for the player |
| `Aggregates.LevelTotal` | components/landing/progress-summary.tsx:32 | over rows that all have a positive level the total is at least their number, so such an average is at least 1 |
| `Aggregates.GuardedLevelAverage` | components/landing/progress-summary.tsx:28-34 | the landing page's `Math.round(total / count) \|\| 0` is the overlay's guarded average, the `NaN` of an empty filter included |
| `Aggregates.LandingFilterMatchesOverlay` | components/landing/progress-summary.tsx:30-33 | the landing page's filter-and-sum visits as many levels as the overlay's filter-and-map, with the same total |
| `Aggregates.RoundedPercentage` | app/stream/overlay/emily/page.tsx:109 | the percentage is the whole number within a half of `100 * completed / total`, a half rounding up; so it is within `[0, 100]`, 0 with nothing completed and 100 with everything completed |
| `Overlay.CompletionPercentage` | app/stream/overlay/emily/page.tsx:108-109 | for a non-empty list, the whole number within a half of `100 * completed / total`; 0 for an empty list; always within `[0, 100]` |
| `Overlay.CalculateStats` | app/stream/overlay/emily/page.tsx:65-121 | each count is the number of rows with exactly that status, so null rows are in none; the percentage is the rounded share of completed rows; deaths are Emily's only; the averages are the per-player level averages |
| `Overlay.OverlayIgnoresAgentDeaths` | app/stream/overlay/emily/page.tsx:81-116 | changing any Agent death count leaves the overlay's `totalDeaths` unchanged |
| `Overlay.FirstInProgress` | app/stream/overlay/emily/page.tsx:55-57 | `find` stops at an In Progress row with none before it, and finds nothing exactly when no row is In Progress |
| `Overlay.CurrentBoss` | app/stream/overlay/emily/page.tsx:55-58 | the current boss is the first In Progress row by position, as `find` returns it, and there is none exactly when no row is In Progress |
| `Overlay.CurrentBossHasLowestOrderIndex` | app/stream/overlay/emily/page.tsx:43-57 | on the list as fetched, ordered by `order_index`, no In Progress row has a lower `order_index` than the current boss |
| `Overlay.TwoInProgressPicksLower` | app/stream/overlay/emily/page.tsx:55-58 | on the list sorted by `order_index`, of two In Progress rows with different keys the lower one wins and the other is never chosen |
| `Overlay.CountStatusTwo` | app/stream/overlay/emily/page.tsx:70-72 | two rows with a status make that status's count at least two |
| `Overlay.CurrentBossIsTheOnlyOne` | app/stream/overlay/emily/page.tsx:58 | with at most one In Progress row, that row is the current boss |
| `Overlay.AverageLevelExample` | app/stream/overlay/emily/page.tsx:86-99 | levels 40, 61 and 0 average to 51, the 0 left out, and an empty list averages to 0 |
| `Overlay.ExampleAverage` | app/stream/overlay/emily/page.tsx:93-98 | qualifying levels 40 and 61 round to an average of 51 |
| `Overlay.ExampleQualifyingLevels` | app/stream/overlay/emily/page.tsx:86-88 | of the levels 40, 61 and 0, the first two qualify, in order |
| `ProgressSummary.DisplayedPercentage` | components/landing/progress-summary.tsx:20 | the unguarded percentage, as rounded where it is shown, has no value (`NaN`) exactly for an empty list, and is otherwise the whole number within a half of `100 * completed / total`, equal to the overlay's |
| `ProgressSummary.CombinedLevel` | components/landing/progress-summary.tsx:219 | the combined level is the integer within a half of the two averages' mean, a half rounding up, and lies between them |
| `ProgressSummary.Summarize` | components/landing/progress-summary.tsx:14-42 | "Completed" and "In Progress" count the rows with exactly that status; "Awaiting" is the rest, null-status rows included; the percentage is the rounded share of completed rows; deaths are both players'; the averages are the per-player ones and the combined level rounds their mean |
| `ProgressSummary.SummaryVersusOverlay` | components/landing/progress-summary.tsx:137-139 | "Awaiting" exceeds the overlay's `notStarted` by the null-status rows; deaths exceed it by Agent's; the other shared figures agree |
| `HeroSection.Hero` | components/landing/hero-section.tsx:15-43 | the two counts are the rows with exactly that status; "Remaining" is never negative and completes them to the total; deaths are both players' together; the percentage is `NaN` exactly for an empty list and otherwise the rounded share of completed rows; the averages are the per-player level averages |
| `HeroSection.HeroMatchesSummary` | components/landing/hero-section.tsx:16-43 | the hero section and the progress summary show the same figures |
| `StatusDisplay.StatusStyleOf` | components/landing/boss-card.tsx:24-33 | Completed and In Progress each get their own style; Not Started and null share the default |
| `StatusDisplay.ShownStatus` | components/landing/boss-card.tsx:79 | the badge text names the stored status, Not Started for null |
| `StatusDisplay.StyleMatchesShownText` | components/landing/boss-card.tsx:75-80 | the badge's style is the style of the status its text names |
| `StatusDisplay.NullShownAsNotStarted` | components/admin/admin-dashboard.tsx:147-149 | a null status looks exactly like a stored Not Started |
| `BossCard.ClockSeconds` | components/landing/boss-card.tsx:38-42 | a time is `NaN` exactly when it has fewer than three parts, and otherwise a non-negative count of seconds |
| `BossCard.ClockSecondsOfParts` | components/landing/boss-card.tsx:38-41 | any three digit strings joined by colons read as hours times 3600 plus minutes times 60 plus seconds, leading zeros and minutes or seconds of 60 and more included |
| `BossCard.ClockSecondsIgnoresExtraParts` | components/landing/boss-card.tsx:38-41 | a fourth part and any after it are ignored: whatever follows the seconds after another `:` leaves the value at hours times 3600 plus minutes times 60 plus seconds |
| `BossCard.ClockText` | components/admin/admin-dashboard.tsx:275 | an `H:MM:SS` text splits into the hour text and two two-digit texts |
| `BossCard.ClockRoundTrip` | components/landing/boss-card.tsx:38-41 | reading an `H:MM:SS` text gives back the seconds it was written from |
| `BossCard.WholeHours` | components/landing/boss-card.tsx:45 | the hours are the largest whole number of hours not exceeding the duration |
| `BossCard.LeftoverMinutes` | components/landing/boss-card.tsx:46 | for a non-negative duration, the whole minutes left after the hours, in `[0, 60)`; a negative duration gives minutes in `[-60, 0]` |
| `BossCard.DurationText` | components/landing/boss-card.tsx:48-51 | the duration text always ends in `m` |
| `BossCard.FormatDuration` | components/landing/boss-card.tsx:35-52 | no text exactly when a time is null or empty; `NaNm` when a time lacks a part |
| `BossCard.Elapsed` | components/landing/boss-card.tsx:44 | the difference exists exactly when both totals do, and added to the start gives the end |
| `BossCard.FormatDurationOfSeconds` | components/landing/boss-card.tsx:38-44 | two readable times show the text of the difference of their seconds |
| `BossCard.DurationTextNonNegative` | components/landing/boss-card.tsx:45-51 | for a non-negative duration of `d` seconds, the hours and leftover minutes shown satisfy `3600*h + 60*m <= d < 3600*h + 60*m + 60` with `m < 60`, so together they cover every whole minute of `d`; the hours are left out of the text when there are none |
| `BossCard.FormatDurationMeaning` | components/landing/boss-card.tsx:35-52 | for an end no earlier than the start, the text names whole hours and minutes that account for the duration to within a minute, with the hours omitted when there are none |
| `BossCard.ClockTextExample` | components/admin/admin-dashboard.tsx:275-288 | the form's example times 0:45:20 and 2:06:36 are the texts for those clock values |
| `BossCard.DurationTextExample` | components/landing/boss-card.tsx:48-49 | 4876 seconds are shown as `1h 21m` |
| `BossCard.FormatDurationExample` | components/landing/boss-card.tsx:35-52 | from 0:45:20 to 2:06:36 is shown as `1h 21m` |
| `BossCard.DurationTextMinutes` | components/landing/boss-card.tsx:51 | a whole number of minutes under an hour is shown as the minutes alone |
| `BossCard.FormatDurationMissingTime` | components/landing/boss-card.tsx:36 | a null or empty time on either side gives no duration |
| `BossCard.PanelFor` | components/landing/boss-card.tsx:86-257 | the victory panel is for Completed only, the fight panel for In Progress only, and "Awaiting challenge" for Not Started and null |
| `BossCard.AwaitingCardsMatchSummary` | components/landing/boss-card.tsx:251-256 | the number of "Awaiting challenge" cards equals the summary's "Awaiting" figure |
| `BossCard.AwaitingCardsCount` | components/landing/boss-card.tsx:250-257 | a card awaits exactly when its row is Not Started or has no status |
| `BossCard.CardFigures` | components/landing/boss-card.tsx:124-156 | the card shows a present level or death count as stored and a null one as 0 |
| `BossCard.WatchClip` | components/landing/boss-card.tsx:56-60 | the link is handed on, unchanged, exactly when it is non-empty and a callback exists |
| `Strings.IndexOf` | components/landing/clip-viewer.tsx:24 | the result is the leftmost occurrence, or none exactly when the pattern does not occur |
| `Strings.IndexOfIsFirst` | components/landing/clip-viewer.tsx:30 | an occurrence with none before it is the one reported |
| `Strings.Split` | components/landing/clip-viewer.tsx:21-42 | a split yields at least one piece, and every piece after the first uses up one occurrence of the separator, so the extra pieces number at most the string's length divided by the separator's; `Strings.JoinSplit` and `Strings.SplitLastFree` are its partners |
| `Strings.JoinSplit` | components/landing/clip-viewer.tsx:26 | joining the pieces of a split with the separator gives back the string |
| `Strings.SplitChars` | components/landing/clip-viewer.tsx:32 | every character of every piece comes from the string split |
| `Strings.SplitFirstPiece` | components/landing/clip-viewer.tsx:21 | the first piece is the text before the first occurrence, or all of it |
| `Strings.SplitCharFirstPiece` | components/landing/clip-viewer.tsx:42 | the first piece of a split on a character is the longest prefix without that character |
| `Strings.SplitSecondPiece` | components/landing/clip-viewer.tsx:28 | with the separator present, the second piece is the first piece of what follows its first occurrence |
| `Strings.SplitLastFree` | components/landing/clip-viewer.tsx:38 | the last piece holds no separator |
| `Strings.SplitEndingInChar` | components/landing/clip-viewer.tsx:38 | a string ending in the separator has an empty last piece |
| `Strings.CutAtPatternThenChar` | components/landing/clip-viewer.tsx:26-42 | cutting a text before the first occurrence of a pattern that starts with `/`, and then before its first `/`, is cutting it before its first `/` |
| `Strings.NatToString` | components/landing/boss-card.tsx:49 | the decimal text of a number has no leading zero and reads back as the number |
| `Strings.DigitsValue` | components/landing/boss-card.tsx:38-39 | `Number` of a digit string ignores a leading zero, so `"01"` reads as 1; `Strings.NatToString` and `BossCard.ClockSecondsOfParts` are its partners |
| `Strings.IntToString` | components/landing/boss-card.tsx:48-51 | the text of an integer is its magnitude's digits, after a `-` when it is negative, and those digits read back as the magnitude |
| `ClipViewer.CleanUrl` | components/landing/clip-viewer.tsx:21 | the cleaned link is the link up to its first `?` |
| `ClipViewer.RawClipId` | components/landing/clip-viewer.tsx:24-39 | the candidate id takes its characters from the cleaned link |
| `ClipViewer.ClipId` | components/landing/clip-viewer.tsx:18-42 | the id holds no `/` and no `?`, and its characters come from the link |
| `ClipViewer.ConvertClipToEmbed` | components/landing/clip-viewer.tsx:44-49 | the result is empty exactly when no id is found, and is otherwise the player address for the id and the host |
| `ClipViewer.QueryIgnored` | components/landing/clip-viewer.tsx:20-21 | appending a query changes neither the id nor the embed address |
| `ClipViewer.PathClipId` | components/landing/clip-viewer.tsx:24-29 | with a `/clip/` marker, the id is the text after the first one, up to the next `/` |
| `ClipViewer.DomainClipId` | components/landing/clip-viewer.tsx:30-35 | with one `clips.twitch.tv/` marker and no `/clip/`, the id is the text after it, up to the next `/` |
| `ClipViewer.FallbackClipId` | components/landing/clip-viewer.tsx:36-39 | with neither marker, the id is the last `/`-separated segment |
| `ClipViewer.NoIdGivesEmpty` | components/landing/clip-viewer.tsx:44-47 | an empty link, or one ending in `/` without a marker, gives the empty string |
| `ClipViewer.DomainLinkRoundTrip` | components/landing/clip-viewer.tsx:31 | `https://clips.twitch.tv/<id>`, with any query, embeds exactly `<id>` |
| `ClipViewer.ChannelLinkRoundTrip` | components/landing/clip-viewer.tsx:25 | `https://www.twitch.tv/<channel>/clip/<id>` embeds exactly `<id>` for every channel except one named `clip` |
| `ClipViewer.ChannelNamedClip` | components/landing/clip-viewer.tsx:24-29 | for a channel named `clip` the id read is `clip`, whatever the real id |
| `AdminDashboard.Get` | lib/database.types.ts:13-27 | every column's value has the type the row declares for it |
| `AdminDashboard.FieldsDetermineRow` | lib/database.types.ts:13-27 | two rows equal on every column are the same row |
| `AdminDashboard.UpdateField` | components/admin/admin-dashboard.tsx:226-228 | the named column takes the new value and every other column keeps its value |
| `AdminDashboard.UpdateSameValue` | components/admin/admin-dashboard.tsx:227 | writing back a column's own value changes nothing |
| `AdminDashboard.UpdateLastWins` | components/admin/admin-dashboard.tsx:227 | of two writes to one column, the later wins |
| `AdminDashboard.UpdatesCommute` | components/admin/admin-dashboard.tsx:226-228 | writes to different columns commute |
| `AdminDashboard.IsJsSpace` | components/admin/admin-dashboard.tsx:304 | no character `parseInt` skips is a digit or a sign, so the skipping stops at the first character of a number |
| `AdminDashboard.TrimStart` | components/admin/admin-dashboard.tsx:304 | `parseInt` drops exactly the leading white space: a suffix remains that starts with no white space |
| `AdminDashboard.DigitRun` | components/admin/admin-dashboard.tsx:319 | the run read is all digits and stops at the first non-digit or the end |
| `AdminDashboard.RadixDigit` | components/admin/admin-dashboard.tsx:304 | a digit's value is below the radix; in radix 10 exactly the decimal digits are digits, with their usual values, which radix 16 keeps |
| `AdminDashboard.ReadDigits` | components/admin/admin-dashboard.tsx:304 | after `0x`/`0X` something is read exactly when a hexadecimal digit follows the prefix; otherwise exactly when the text opens with a decimal digit |
| `AdminDashboard.ParseTrimmed` | components/admin/admin-dashboard.tsx:304 | a number is read only from a digit at the start or right after the sign; after a `-` it is never positive, otherwise never negative |
| `AdminDashboard.ParseInt` | components/admin/admin-dashboard.tsx:304 | a number comes out only when the text holds a decimal digit |
| `AdminDashboard.ParseIntRoundTrip` | components/admin/admin-dashboard.tsx:319 | `parseInt` reads back the decimal text of every integer |
| `AdminDashboard.ParseNegative` | components/admin/admin-dashboard.tsx:334 | a minus sign before decimal digits negates their value |
| `AdminDashboard.ParseIntSkipsSpace` | components/admin/admin-dashboard.tsx:349 | white space put in front does not change what is read |
| `AdminDashboard.ParseIntStopsAtNonDigit` | components/admin/admin-dashboard.tsx:334 | reading stops at the first non-digit: `12.5` reads 12 and `3e2` reads 3 |
| `AdminDashboard.ParseIntNoDigits` | components/admin/admin-dashboard.tsx:303-305 | empty text, a lone `-` and a bare `0x` are `NaN`, and an empty box stores 0 |
| `AdminDashboard.NumericInput` | components/admin/admin-dashboard.tsx:303-305 | a number box stores what `parseInt` reads, and 0 for `NaN` |
| `AdminDashboard.SelectedStatus` | components/admin/admin-dashboard.tsx:238 | the selector shows one of its three entries, naming the stored status or Not Started for null |
| `AdminDashboard.ChooseStatus` | components/admin/admin-dashboard.tsx:239 | picking an entry stores that status, the selector then shows it, and no other column changes |
| `AdminDashboard.ChooseShownStatus` | components/admin/admin-dashboard.tsx:237-239 | picking the shown entry is a no-op exactly when the status is not null |
| `AdminDashboard.InputText` | components/admin/admin-dashboard.tsx:258 | a text box shows the stored text, or nothing for null |
| `AdminDashboard.EditText` | components/admin/admin-dashboard.tsx:259 | typing stores the typed text, empty text included, the box then shows it, and no other column changes |
| `AdminDashboard.EditShownText` | components/admin/admin-dashboard.tsx:273-274 | typing back what a box shows is a no-op exactly when the column was not null |
| `AdminDashboard.InputNumber` | components/admin/admin-dashboard.tsx:302 | a number box shows the stored number, or 0 for null |
| `AdminDashboard.EditNumber` | components/admin/admin-dashboard.tsx:318-320 | typing stores `parseInt(text) \|\| 0`, never null, and no other column changes |
| `AdminDashboard.EditNumberRoundTrip` | components/admin/admin-dashboard.tsx:333-335 | typing the decimal text of a number stores that number |
| `AdminDashboard.EditShownNumber` | components/admin/admin-dashboard.tsx:347-350 | typing back the shown number is a no-op exactly when the column was not null |
| `AdminDashboard.SavePayload` | components/admin/admin-dashboard.tsx:61-69 | the saved row carries the new timestamp and the same `id`, every other column unchanged |
| `AdminDashboard.SaveTwice` | components/admin/admin-dashboard.tsx:65-68 | saving twice is saving once with the later timestamp |
| `AdminDashboard.UntouchedNullStatusStaysNull` | components/admin/admin-dashboard.tsx:221-224 | a null status shown as Not Started is saved still null |
| `AdminDashboard.StatusBadge` | components/admin/admin-dashboard.tsx:146-150 | the badge names the stored status, Not Started for null, and its style agrees with its text |
| `AdminDashboard.BattleTime` | components/admin/admin-dashboard.tsx:154-156 | the cell is `-` exactly when a time is null or empty, and is otherwise the two times joined by ` - ` |
| `AdminDashboard.BattleTimeMatchesDuration` | components/admin/admin-dashboard.tsx:154 | the table shows a battle time exactly when the card shows a duration |
| `AdminDashboard.ClearedTimeIsMissing` | components/admin/admin-dashboard.tsx:286-287 | a cleared time box makes both the table and the card treat the time as missing |
| `AdminDashboard.DeathCell` | components/admin/admin-dashboard.tsx:164 | a death cell shows the stored count, or 0 for null |
| `AdminDashboard.DeathColumn` | components/admin/admin-dashboard.tsx:160-172 | the column has one cell per row, each that row's death cell |
| `AdminDashboard.DeathColumnTotal` | components/admin/admin-dashboard.tsx:170 | the cells equal the card's death figures and add up to the landing page's per-player total |

## Left out

- Fetching, updating and subscribing through Supabase, login, React state, `useEffect`, and `console.error` are not modelled. The model starts from the list as fetched (ordered by `order_index`) and ends at the row sent to `update`.
- The page's host name (`window.location.hostname`) and the save time (`new Date().toISOString()`) are parameters.
- Markup, icons and CSS class strings are not modelled. The three class strings of `getStatusColor` are the three values of `StatusStyle`.
- Numbers are exact. JavaScript doubles are not modelled: `(completed / total) * 100` is taken as an exact rational before rounding, and large or fractional stored numbers are out of scope.
- `AdminDashboard.ParseInt`: reads hexadecimal and decimal digit runs of any length exactly. JavaScript's loss of precision beyond 2^53 is not modelled.
- `BossCard.FormatDuration`: requires that the first three `:`-parts of a non-empty time are plain decimal digits, possibly empty. `Number` on other text (signs, spaces, `1e3`, letters) is not modelled.
- `AdminDashboard.UpdateField`: requires the value to have the column's type. The source's `value: any` allows writing a value of any type. Every call in the form passes a value of the column's type. The status selector passes one of its three labels, modelled as the status it names (`AdminDashboard.ChooseStatus`).
- `Aggregates.QualifyingLevels`: its contract says which values the list holds, not their order or how many times each appears. `Aggregates.QualifyingLevelsAppend` and `Aggregates.QualifyingLevelsEmpty` give the order and the empty case.
- The statistics record and row types beyond `bosses.Row` (insert and update shapes, filters, sort fields) are not used by the modelled code.
