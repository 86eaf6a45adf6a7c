# Study Focus Timer — a Dafny model of its record bookkeeping

Study Focus Timer is a browser page. It times study sessions, keeps a
per-date record of minutes studied per subject, and draws two charts of
those records: a bar chart and a pie chart. The charts can cover the last
day, the last week or the current month. All of its logic lives in
`script.js`.

This project models the part of `script.js` that works between the stored
data and the charts. It proves properties of that model.

- **Colour cache** (`getColor`): a table that only grows. The first time a
  subject is seen, it gets the hue `index * 60 % 360` at 70 % saturation
  and 55 % lightness. Every later call returns that same colour, whatever
  index is passed. Modelled as the class `Colors.ColorTable`, whose map
  field `GetColor` updates; `Bind` and `Replay` are its specification.
- **Subject list** (settings start-up and the add-subject handler): the
  input is trimmed exactly as `String.prototype.trim` does. It is appended
  only when it is non-empty and not yet listed. Modelled as the class
  `Subjects.Settings`, specified by `WithSubject`.
- **Range totals** (`getRangeData`): the store
  `date -> subject -> minutes` is folded into `subject -> total minutes`.
  Only dates that pass the range filter count. The nested loops become the
  method `RangeData.GetRangeData`, proved against the fold `Tally` over the
  kept entries.
- **Chart arithmetic** (`drawBar`, `drawPie`, `drawGraphs`):
  - the bar scale maximum, floored at 1;
  - the bar positions;
  - the `<h>h<m>m` value label, with JavaScript's truncating `%`;
  - the pie total and its zero guard;
  - the wedge angles, as exact fractions of a turn;
  - the order of the colour lookups, which fixes each subject's colour.

JavaScript objects iterate in insertion order, and that order decides
which index each subject's colour comes from. So the store and the totals
are ordered association lists (`seq<(string, int)>`), not maps. A date
key is turned into an instant by a caller-supplied `parse`. It returns the
milliseconds and the month index, or `None` where `new Date(d)` would be
an Invalid Date. "Now" is a parameter.

The `month` filter compares only the month index (`getMonth()`), not the
year. A record from the same month of an earlier year is counted, as
`RangeData.MonthIgnoresYear` shows. The model follows the code here. A
month-and-year reading of "current month" would differ.

Files: `wrappers.dfy` (Option), `sequences.dfy` (first index of an element), `decimal.dfy` (integer to decimal text and
back), `colors.dfy`, `subjects.dfy`, `range_data.dfy`, `charts.dfy`.

## Model

| member | source | states |
|---|---|---|
| Colors.Hue | script.js:40 | the hue `index * 60 % 360` is below 360 and a multiple of 60 |
| Colors.HueCycle | script.js:40 | the hue is `60 * (index mod 6)`; two indices give the same hue exactly when they agree mod 6 |
| Colors.Replay | script.js:38-43 | a run of `getColor` calls never removes a subject from the table |
| Colors.FreshColor | script.js:40 | a new colour has the hue of its index, saturation 70 and lightness 55 |
| Colors.Bind | script.js:38-43 | one `getColor` call on the table: the key set gains the subject; every existing binding is unchanged; an unbound subject gets the fresh colour of the index passed |
| Colors.ReplayKeepsBindings | script.js:38-43 | after any sequence of calls, every subject bound before keeps its colour |
| Colors.ReplayKeys | script.js:37-42 | after a sequence of calls, the table holds exactly the subjects it held plus the subjects requested; nothing is removed |
| Colors.FirstIndexWins | script.js:39-40 | a subject not bound at the start gets the colour of the index of the first call that names it; later indices do not matter |
| Colors.ColorTable.constructor | script.js:37 | the colour table starts empty |
| Colors.ColorTable.GetColor | script.js:38-43 | the table becomes `Bind` of the old table; a bound subject returns its stored colour whatever the index; an unbound one returns and stores the fresh colour of the index |
| Subjects.Trim | script.js:58 | the result is the window of the input from its first to its last non-white-space character; every non-space character lies inside it; it neither starts nor ends with white space |
| Subjects.TrimIdempotent | script.js:58 | trimming a trimmed text changes nothing |
| Subjects.WithSubject | script.js:57-60 | the old list is a prefix of the new one, in order; one element is added exactly when the trimmed input is non-empty and not listed, and that element is the trimmed input; a duplicate-free list stays duplicate-free |
| Subjects.WithSubjectIdempotent | script.js:57-60 | submitting the same text twice has the effect of submitting it once |
| Subjects.Settings.Load | script.js:22-26 | with no stored settings, timer mode and the five default subjects; otherwise the stored mode and subjects |
| Subjects.Settings.AddSubject | script.js:57-60 | the list becomes `WithSubject` of the old list; `added` holds exactly when the list changed; the mode is unchanged |
| Subjects.DefaultSubjectsDistinct | script.js:22 | the five default subjects are distinct |
| RangeData.Included | script.js:96-101 | a key that does not parse as a date never passes a filter |
| RangeData.InclusionRule | script.js:96-101 | `day` keeps a date whose elapsed days `(now - date) / 86400000` are below 1; `week` keeps one below 7; `month` keeps one whose month index equals now's; a key that is not a date is never kept |
| RangeData.DayWithinWeekDate | script.js:99-100 | every date kept for `day` is kept for `week` |
| RangeData.FutureDatesIncluded | script.js:97-100 | a date at or after now (difference not positive) passes the `day` and `week` filters |
| RangeData.MonthIgnoresYear | script.js:101 | every date whose month index is now's passes the `month` filter, whatever its year or instant |
| RangeData.Upsert | script.js:104 | `result[s] = (result[s] \|\| 0) + m`: a present key keeps its place and gains `m`; an absent key is appended with `m`; every other key's value is unchanged; unique keys stay unique |
| RangeData.Tally | script.js:103-105 | folding never yields more subjects than entries folded |
| RangeData.TallyCorrect | script.js:103-105 | folding entries gives each subject once, in first-seen order, holding the sum of its minutes |
| RangeData.RangeTotalsCorrect | script.js:94-108 | the range totals hold a subject exactly when it occurs in a kept date, each once, in first-seen order, with the sum of its minutes over the kept dates |
| RangeData.RangeTotals | script.js:91-109 | there are at most as many totals as kept (date, subject) entries; an empty store gives no totals |
| RangeData.RangeTotalsFacts | script.js:91-109 | the range totals have unique keys, hold a subject exactly when it occurs in a kept date, give each its total over the kept dates, and are empty for an empty store |
| RangeData.GetRangeData | script.js:91-109 | the nested loops produce the range totals: unique keys, a subject present exactly when it occurs in a kept date, each value the subject's total; an empty store gives an empty result |
| RangeData.DayTotalWithinWeek | script.js:99-100 | with non-negative minutes, a subject's `day` total is at most its `week` total |
| RangeData.DayWithinWeek | script.js:99-100 | with non-negative minutes, every subject in the `day` totals is in the `week` totals, with at most as many minutes |
| Decimal.IntToString | script.js:129 | the text of an integer starts with `-` exactly when the integer is negative, and is otherwise decimal digits |
| Decimal.IntToStringValue | script.js:129 | the text `${hh}` or `${mm}` reads back as the integer: digits worth `n` for `n >= 0`, and `-` then digits worth `-n` for `n < 0` |
| Decimal.DecimalRoundTrip | script.js:129 | reading back the decimal text of a non-negative integer gives the integer |
| Charts.ScaleMax | script.js:115 | `Math.max(...values, 1)` is at least 1, at least every value, and is 1 or one of the values |
| Charts.BarX | script.js:119 | bar `i` starts at `20 + 60 * i` |
| Charts.BarsApart | script.js:119-123 | bars 40 wide at those positions leave at least 20 between neighbours |
| Charts.JsRemainder60 | script.js:126 | `v % 60` lies strictly between -60 and 60, has the sign of `v`, and differs from `v` by a multiple of 60 |
| Charts.LabelText | script.js:129 | the label text has at least two characters and ends in `m`, with or without an hour part |
| Charts.MinuteLabel | script.js:125-129 | every total, negative ones included, gets a label of at least two characters ending in `m` |
| Charts.HourMark | script.js:125-129 | the label contains an `h` exactly when the total is at least 60 minutes |
| Charts.LabelRoundTrip | script.js:125-129 | for every non-negative total `v`, the label reads back as `v`, so `60 * hh + mm == v` |
| Charts.NegativeLabel | script.js:125-129 | a negative total loses its hour part: `-65` is labelled `-5m` |
| Charts.Sum | script.js:138 | the pie total of non-negative values is non-negative |
| Charts.ZeroTotal | script.js:138-139 | with non-negative values the pie total is non-negative, and it is 0 exactly when every value is 0 |
| Charts.WedgesAdjacent | script.js:141-160 | each wedge starts where the previous one ends |
| Charts.Fraction | script.js:143 | a wedge's share `v / total` lies between 0 and 1 when `0 <= v <= total`; the whole total is one full turn; a zero value sweeps nothing |
| Charts.StartTurn | script.js:141-160 | the first wedge starts at 12 o'clock (-1/4 turn) and the angle after the last wedge is 3/4 turn, so the wedges together sweep exactly one turn |
| Charts.WedgeStartsWithinTurn | script.js:141-160 | with no negative values every wedge starts within the turn that begins at 12 o'clock |
| Charts.BarsFor | script.js:117-123 | one bar per entry, in order: bar `k` has entry `k`'s subject, the position `20 + 60 * k`, entry `k`'s minutes and the subject's colour in the table |
| Charts.WedgesFor | script.js:142-148 | one wedge per entry, in order: wedge `k` has entry `k`'s subject, starts where the wedges before it end, sweeps entry `k`'s share of the total and has the subject's colour in the table |
| Charts.DrawBarStep | script.js:117-123 | one iteration calls `getColor(s, i)` and appends bar `i`, in the colour it returned, to the bars for the entries before it |
| Charts.DrawBar | script.js:112-131 | the scale maximum is `ScaleMax` of the values; the colour table is the old table after one `getColor(s, i)` per entry in order; the bars are `BarsFor` the entries in that table (subject, position, minutes, whose caption is the `<h>h<m>m` label, and colour); with distinct subjects, a newly coloured subject takes the hue of its own position |
| Charts.DrawPieStep | script.js:142-160 | one iteration draws wedge `i` from the running angle in the colour `getColor(s, i)` returned, and moves the angle to where wedge `i + 1` starts |
| Charts.DrawPie | script.js:135-161 | a zero total draws nothing and leaves the colour table untouched; otherwise the table gets one `getColor(s, i)` per entry in order, and wedge `i` starts at the running angle and sweeps its share of the total |
| Charts.BarsShowTotals | script.js:117-130 | the bars show the entries in order: one bar per entry with its subject and minutes |
| Charts.WedgesShowTotals | script.js:142-148 | the wedges show the entries' subjects in order, one wedge per entry |
| Charts.DrawGraphs | script.js:83-88 | an empty store draws nothing and looks up no colour; otherwise the colour table is the old one after the bar chart's `getColor` calls and then, unless the pie total is 0, the pie chart's; the wedges are absent exactly when the pie total is 0; the bars are `BarsFor` the bar-time range totals and present wedges are `WedgesFor` the pie-time range totals, in the final table; a subject in both charts has the same colour in both |

## Left out

- The DOM: element lookups, `renderSubjects`, the tab buttons and the
  start-up call are not modelled (script.js:1-19, 46-55, 62-65,
  164-175). `updateGraphVisibility` (script.js:73-80) only toggles styles
  and is not modelled. Its test `hasAnyRecord` is modelled as the
  empty-store guard of `DrawGraphs`.
- `localStorage` and `JSON.parse` / `JSON.stringify` are left out: stored
  settings and records are inputs, already decoded. Saving the settings
  after an added subject is not modelled.
- `new Date(d)`, the clock and time zones are left out. Each date key is
  turned into an instant and a month index by the caller's `parse`, and
  "now" is a parameter. The bar chart and the pie chart each call
  `getRangeData`, which reads the clock, so `DrawGraphs` takes one instant
  for each.
- Floating point is left out: bar heights and y positions, label
  positions, `Math.round` percentages, and the rounding of `Math.PI`
  angles. Angles are exact rationals in turns (one turn is `2 * Math.PI`).
  A colour is the triple (hue, saturation, lightness), not its CSS text.
- The timer is left out. Only its state variables are declared in this
  file (script.js:29-33); no start, stop, tick or record code is present.
- JavaScript object quirks are left out:
  - keys that look like integers, which JavaScript lists first in
    ascending order rather than insertion order;
  - subject names inherited from `Object.prototype` (such as
    `constructor`), which `result[s] || 0` and `subjectColors[subject]`
    would read as existing entries.
  The model treats every key as an ordinary key in insertion order.
- Charts.MinuteLabel: integers only. Minutes that are fractional, or too
  large for plain decimal notation (`1e21` and up), are outside the model.
- Minute totals are JavaScript numbers (script.js:104), exact only up to
  2^53; the model's totals are unbounded integers.
- Strings are sequences of Dafny characters, not UTF-16 code units.
