# Session table model

A Dafny model of the session table of the SWIP dashboard
(`components/SessionTable.tsx`): the React component that lists wearable
biometric sessions, one row per session, with the app name, the SWIP score
(as text, as a filled bar and as a colour tier), a shortened session ID, an
emotion badge and the relative time since the session started.

Everything in the component is a pure function of its inputs, so the model
is made of datatypes, functions and lemmas:

- `Wrappers.dfy` holds `Option`, used for every field typed `T | null`.
- `JsText.dfy` holds the string primitives the component relies on. These are
  ASCII `toLowerCase` and the decimal text a template literal gives for an
  integer. A reader for that text sits beside them, so the formatters can be
  shown to be unambiguous.
- `SessionTable.dfy` holds the session record, the helpers, the two emotion
  tables and the view selection with its row projection.

The current time is a parameter (`now`, in milliseconds). Session
timestamps are the milliseconds of `Date.getTime()`. Scores are `real`.
Durations are integers: JavaScript's truncating `%` is written out
(`JsRemainder60`), so negative durations are modelled exactly.
Colour classes are datatype tokens that stand for the CSS class strings;
only their identity matters.

Two facts about the code shape the model. First, inside the component the
inner `getEmotionColor` (lines 112-123) shadows the module-level one
(lines 62-68). So each badge's class comes from the seven-emotion table
(`BadgeColorOf`), while its text comes from the three-entry `normalizeEmotion`
table (`NormalizeEmotion`). For "calm" the two give the cyan class and the
text "Unknown". The module-level colour function, `getScoreColor`,
`formatDuration` and `formatDate` are never called by the render; the first
three are modelled anyway.

Three behaviours of the code are easy to misread:
- A score of 0 shows the text "0.0", not "N/A". The text is chosen with
  `?.toFixed(1) || 'N/A'`, and "0.0" is a non-empty string. The bar is still
  gray and empty (`ZeroScore`).
- The seven-emotion table is the one that governs the rendered badge
  class. It is the module-level three-label colour table that is unused.
- An empty emotion string is falsy. It gets the gray badge class, not the
  blue fallback, and the text "Unknown".

For a negative duration that is not a whole number of minutes,
`formatDuration` mixes the floored minutes with the truncated seconds. The two
parts then add up to one minute less than the duration (`FormatDurationNegative`).
Durations are not expected to be negative, so this is recorded as a property
rather than a finding.

## Model

| member | source | states |
|---|---|---|
| `JsText.LowerChar` | components/SessionTable.tsx:59 | one character folded: never a capital afterwards, a capital moved to its lower-case letter, anything else unchanged |
| `JsText.ToLower` | components/SessionTable.tsx:59 | `toLowerCase` on ASCII: same length, no capital left, every capital replaced by its lower-case letter and every other character kept |
| `JsText.ToLowerIgnoresCase` | components/SessionTable.tsx:59 | two strings that differ only in letter case have the same lower case |
| `JsText.ToLowerIsLower` | components/SessionTable.tsx:114 | a lower-cased key has no capital letters, and lower-casing again changes nothing |
| `JsText.ToLowerOfLower` | components/SessionTable.tsx:114 | a string without capitals is its own lower case, so the lower-case table keys match themselves |
| `JsText.NatToString` | components/SessionTable.tsx:36 | the decimal text of a natural number is non-empty, all digits, and has no leading zero |
| `JsText.IntToString` | components/SessionTable.tsx:36 | the text of an integer starts with a minus sign exactly when it is negative |
| `JsText.DigitsValueOfNatToString` | components/SessionTable.tsx:36 | the digits written for `n` stand for `n` |
| `JsText.ReadIntOfIntToString` | components/SessionTable.tsx:36 | reading back the text of any integer, followed by text that is empty or does not start with a digit, yields that integer and leaves the following text untouched |
| `SessionTable.JsRemainder60` | components/SessionTable.tsx:35 | JavaScript's `% 60`: strictly between -60 and 60, with the dividend's sign, and differing from it by a multiple of 60 |
| `SessionTable.FormatDuration` | components/SessionTable.tsx:32-37 | the text is "N/A" exactly when the duration is null or 0 |
| `SessionTable.FormatDurationRoundTrip` | components/SessionTable.tsx:32-37 | the text of a non-zero duration reads back as exactly the floored minutes and the truncated seconds |
| `SessionTable.ParseDurationText` | components/SessionTable.tsx:36 | text of the form minutes, "m ", seconds, "s" reads back as its two integers, whatever their signs |
| `SessionTable.FormatDurationPositive` | components/SessionTable.tsx:34-36 | for a positive duration the shown seconds are below 60 and `mins * 60 + secs` is the duration |
| `SessionTable.FormatDurationNegative` | components/SessionTable.tsx:34-36 | for a negative duration that is not whole minutes the shown parts sum to one minute less than the duration |
| `SessionTable.FlooredUnits` | components/SessionTable.tsx:136-138 | flooring minutes by 60 gives whole hours and flooring hours by 24 gives whole days, as if divided directly |
| `SessionTable.TimeAgoOf` | components/SessionTable.tsx:133-144 | "Just now" exactly when less than a minute has passed (the future included); otherwise the largest unit of which at least one whole has passed, with that whole count |
| `SessionTable.RenderTimeAgo` | components/SessionTable.tsx:140-143 | "Just now" for the just-now case; for a positive count the text is the count, the unit, "s" exactly when the count is not 1, and "ago" |
| `SessionTable.SuffixesDiffer` | components/SessionTable.tsx:140-142 | the day, hour and minute spellings are different texts |
| `SessionTable.ParseAgo` | components/SessionTable.tsx:140-142 | a positive count followed by its agreeing unit and "ago" reads back as that count and unit |
| `SessionTable.RenderTimeAgoRoundTrip` | components/SessionTable.tsx:140-143 | every classification with a positive count reads back from its text |
| `SessionTable.FormatTimeAgo` | components/SessionTable.tsx:133-144 | "Just now" exactly when less than a minute has passed; and the text of any two instants reads back as their classification by `TimeAgoOf`, so it is unambiguous |
| `SessionTable.FormatTimeAgoJustNow` | components/SessionTable.tsx:143 | under a minute shows "Just now" |
| `SessionTable.FormatTimeAgoFuture` | components/SessionTable.tsx:135-143 | a start in the future, a negative difference, shows "Just now" |
| `SessionTable.FormatTimeAgoExamples` | components/SessionTable.tsx:133-144 | 90 minutes shows "1 hour ago", 30 seconds "Just now", 3 days "3 days ago" |
| `SessionTable.ScoreLabel` | components/SessionTable.tsx:170 | the score text is "N/A" exactly when the score is null; any present score, 0 included, is shown as a number |
| `SessionTable.BarWidth` | components/SessionTable.tsx:174 | the width is at most 100, is 0 for a null or 0 score, is the score up to 100, and is not clamped below |
| `SessionTable.ScoreBarColor` | components/SessionTable.tsx:125-131 | gray exactly for null or 0, purple from 85, blue from 70, pink from 60, red for the rest |
| `SessionTable.ScoreBarColorMonotone` | components/SessionTable.tsx:125-131 | for positive scores the tier never drops as the score rises, and is never gray |
| `SessionTable.ScoreBarColorExamples` | components/SessionTable.tsx:125-131 | 92 purple with a 92% bar, 72 blue, 65 pink, 40 red, none gray with an empty bar |
| `SessionTable.BarWidthAndColor` | components/SessionTable.tsx:173-174 | the bar is empty exactly when its tier is gray, and has negative width exactly for a negative score, which is red |
| `SessionTable.ZeroScore` | components/SessionTable.tsx:170-174 | a score of 0 shows "0.0" but a gray, empty bar |
| `SessionTable.ScoreTextColor` | components/SessionTable.tsx:70-75 | gray exactly for null or 0, green from 70, yellow from 60, orange for the rest |
| `SessionTable.ScoreTextColorCoarsensBar` | components/SessionTable.tsx:70-75 | the text colour is the bar tier with its two top tiers merged |
| `SessionTable.SessionIdCell` | components/SessionTable.tsx:180 | the ID cell ends in "...", is at most 15 long, begins with a prefix of the ID, shows IDs of up to 12 characters whole and every longer one cut to 12 |
| `SessionTable.SessionIdCellExample` | components/SessionTable.tsx:180 | "abcdefghijklmnop" shows as "abcdefghijkl..." |
| `SessionTable.NormalizeEmotion` | components/SessionTable.tsx:51-60 | the badge text is one of Stressed, Neutral, Amused, Unknown; it is "Unknown" exactly for a null, empty or unmapped emotion, and otherwise the table's text for the lower-cased emotion |
| `SessionTable.NormalizeEmotionAsWritten` | components/SessionTable.tsx:57-59 | the lookup as written: a text result is one of the four labels, and an inherited result is an `Object.prototype` name, outside the display table, that is the lower case of a non-empty emotion; conversely every emotion whose lower case is such a name, in any casing, gives that inherited value |
| `SessionTable.ConstructorEmotionLeaks` | components/SessionTable.tsx:57-59 | as written, the emotion "Constructor" yields the inherited `constructor` member instead of text; corrected, it yields "Unknown" |
| `SessionTable.ProtoEmotionLeaks` | components/SessionTable.tsx:57-59 | as written, the emotion "__proto__" yields the inherited prototype object; corrected, "Unknown" |
| `SessionTable.NormalizeEmotionAsWrittenOtherwiseAgrees` | components/SessionTable.tsx:57-59 | only "constructor" and "__proto__" can leak, and whenever the as-written lookup gives text it is the corrected text |
| `SessionTable.LowerPrototypeKeys` | components/SessionTable.tsx:59 | of the names every object inherits, only "constructor" and "__proto__" contain no capital letter |
| `SessionTable.EmotionVariant` | components/SessionTable.tsx:62-68 | danger, success, info and default correspond exactly to the texts Stressed, Amused, Neutral and Unknown |
| `SessionTable.BadgeColorOf` | components/SessionTable.tsx:112-123 | gray exactly for a null or empty emotion; each of the seven named emotions gets its own class; any other text gets blue |
| `SessionTable.BadgeColorsOfNamedEmotions` | components/SessionTable.tsx:115-121 | the seven named emotions get their table's class, distinct from those of the other six |
| `SessionTable.BadgeColorOfOtherEmotion` | components/SessionTable.tsx:118-122 | any unnamed non-empty emotion gets the same class as "relaxed" |
| `SessionTable.EmotionIgnoresCase` | components/SessionTable.tsx:57-123 | badge text, badge class and badge variant are the same for emotions that differ only in letter case |
| `SessionTable.HappyIsAmused` | components/SessionTable.tsx:54-59 | "HAPPY" and "happy" both show as "Amused" |
| `SessionTable.BadgeTextAndClassDisagree` | components/SessionTable.tsx:183-185 | "calm" gets the cyan badge class but the text "Unknown" |
| `SessionTable.SessionsArray` | components/SessionTable.tsx:79 | an array prop is used as given and anything else becomes the empty list |
| `SessionTable.ClickFor` | components/SessionTable.tsx:162 | a click does nothing exactly when no handler is given, and otherwise calls that handler once with the row's own session |
| `SessionTable.RenderRow` | components/SessionTable.tsx:159-162 | a row is keyed by its session's ID and its click passes that session |
| `SessionTable.Rows` | components/SessionTable.tsx:159 | one row per session, the row at position i drawn from the session at position i |
| `SessionTable.SessionTableView` | components/SessionTable.tsx:77-110 | loading gives the loading view whatever the sessions; otherwise a non-array or empty list gives the empty view; the table appears exactly when not loading with a non-empty array, with as many rows as sessions |
| `SessionTable.RowsFollowSessions` | components/SessionTable.tsx:159-190 | in a populated table row i carries session i's key and app name, its score text, bar width and bar tier, its ID cell, the badge class from the inner seven-emotion table and the badge text from the display table, and its relative time; its click calls the handler with session i or does nothing |
| `SessionTable.RowsAppend` | components/SessionTable.tsx:159 | rendering a concatenation of session lists concatenates their rows, so row order follows input order |

## Findings

| source | as written | input that shows it | evidently intended | confidence | as-written member | corrected member |
|---|---|---|---|---|---|---|
| components/SessionTable.tsx:51-59 | the display table is a plain object, so the lookup also finds the members every object inherits from `Object.prototype`, and these are truthy | emotion "Constructor" (or "__proto__"), whose lower case names an inherited member | "Unknown", the fallback for every unmapped emotion | not executed; high, standard JavaScript property lookup | `SessionTable.ConstructorEmotionLeaks` | `SessionTable.NormalizeEmotion` |

The rows of the table use the corrected `NormalizeEmotion`. The as-written
lookup is `NormalizeEmotionAsWritten`. `NormalizeEmotionAsWrittenOtherwiseAgrees`
proves that the two differ only on emotions whose lower case is "constructor"
or "__proto__", in any casing of those two names.

## Left out

- `formatDate` (lines 39-48): it is a wrapper over `toLocaleString`, whose locale rules are not visible here. It is also never called.
- `ScoreLabel`: keeps the score itself rather than the `toFixed(1)` text. Decimal formatting of floating-point numbers is not modelled.
- Floating-point behaviour: NaN scores, NaN timestamps from invalid dates, and fractional seconds in durations. Scores are exact reals and times and durations are integers.
- `JsText.IntToString`: writes every integer in positional decimal. JavaScript switches to exponent notation at 1e21, and loses precision beyond 2^53. Neither applies to realistic durations or time counts.
- The wall clock read at line 134: `now` is a parameter instead. The source reads the clock anew in every `formatTimeAgo` call, so each row may see its own instant; `SessionTableView` passes the same `now` to every row.
- `JsText.ToLower`: folds ASCII letters only, not the full Unicode case mapping of `toLowerCase`.
- `SessionTable.SessionIdCell`: counts Dafny characters, where `substring` counts UTF-16 code units. The two agree on IDs without surrogate pairs.
- The JSX markup, the header row, CSS class strings, the SVG icons, the spinner and the placeholder texts (lines 82-108, 146-200). The views and colours are datatype tokens instead.
- The effect of the click handler: it belongs to the caller. The model records which handler a click calls and with which session.
- The `Badge` import (line 9): it is unused and its source is not part of this model.
- `SessionTable.RenderRow`: fills the badge text from the corrected `NormalizeEmotion`, so for the emotions "constructor" and "__proto__" the modelled row shows "Unknown". The source would instead pass the `Object` function (which React drops) or `Object.prototype` (which makes React throw for the whole table) as the badge's child. How React renders such values is not modelled.
- The caller's guarantee that session IDs are unique, which React relies on for row keys.
