# Mood Tracker: a Dafny model of the entry store and its views

The Mood Tracker is a single-page journaling app. A user picks a mood, from a
palette of nine or typed freely, sets an intensity from 1 to 10, adds a note and
a date, and confirms. The page then puts a `MoodEntry` at the front of its
entry list. The history view edits an entry in place and keeps its id and
date. Three views are recomputed from the list on every render:

- a calendar that shows, for each day of the current month, the first listed
  entry of that day;
- a 30-day trend that holds the first listed entry's intensity for each day,
  or `null`;
- statistics: per-mood counts, the total, the average intensity and each
  mood's percentage.

The model has one module per source file, plus two shared modules:

- `Wrappers` holds `Option`.
- `Entries` holds `MoodEntry`, JavaScript's `find` (first match in list
  order), the prepend and the replace-by-id. It also holds `Filter`, which
  the source never calls; it only states which entries a view ignores.
- `Page` (app/page.tsx): class `Home`, with the page's state fields
  (`moodEntries`, `customMood`, `intensity`, `note`, `selectedDate`,
  `selectedMood`, `showMoodDialog`). Each handler is a method. `Trim` models
  JavaScript's `trim`.
- `History` (components/MoodHistory.tsx): class `History`, with `editingId`
  and the three edit buffers. The method `SaveEdit` wires a save to the page's
  `handleEditMood`.
- `Calendar` (components/MoodCalendar.tsx): the month's days, the cells, the
  hue, the background and JavaScript's `split(" ")`.
- `Trends` (components/MoodTrends.tsx): the 30-point series.
- `Stats` (components/MoodStats.tsx): the counting `reduce` as a loop method,
  the pie data, the average and the percentages.
- `Selector` (components/MoodSelector.tsx): the palette table and the string a
  button emits.

Dates and numbers:

- `MoodEntry.date` is an abstract instant (an `int`).
- Conversion to a calendar day in local time is the parameter
  `dayOf: Instant -> Day`. It stands for what `isSameDay` and
  `format(…, "yyyy-MM-dd")` compute.
- "Today" and the month's first and last day are parameters.
- Averages and percentages are `real` (exact rationals), not floats.
- Ids are parameters, because the source takes them from the clock.

Behaviour of the code worth noting:

- Loading does not swallow corrupt stored data. `JSON.parse` has no `try`.
  Loading is not modelled.
- Ids are not guaranteed unique. Properties that need unique ids say so in a
  `UniqueIds` precondition or premise.
- The average has no zero guard in the code. See Findings.
- The edit slider's range starts at 0, so an edited entry's intensity is only
  known to lie in [0, 10]. Only newly added entries are known to lie in [1, 10].

## Model

| member | source | states |
|---|---|---|
| Entries.Find | components/MoodCalendar.tsx:24 | `find` returns nothing exactly when no element matches. Otherwise it returns a matching element that no earlier element matches. |
| Entries.FirstOnDay | components/MoodCalendar.tsx:23-25 | The entry found for a day lies on that day and is the first such entry in the list. Nothing is found exactly when no entry lies on that day. |
| Entries.FindById | components/MoodHistory.tsx:34 | The `find` by id gives the first entry with that id. It gives nothing exactly when no entry has that id. |
| Entries.FirstOnDayIgnoresOtherDays | components/MoodCalendar.tsx:21-25 | Removing entries dated outside a day range does not change the first match for any day inside it. |
| Entries.FirstOnDayPrepended | app/page.tsx:89 | After a prepend, the new entry is the first match for its own day. Other days keep the match they had. |
| Entries.Prepend | app/page.tsx:89 | `[newEntry, ...moodEntries]` is one longer, starts with the new entry and continues with the old list unchanged. |
| Entries.ReplaceById | app/page.tsx:113-119 | The replace keeps the length and every position's id. Entries with the edited id become the edited entry. All others are untouched. |
| Entries.ReplaceUnknownIdIsNoOp | app/page.tsx:115-117 | An edit whose id is not in the list leaves the list unchanged. |
| Entries.ReplaceByIdIdempotent | app/page.tsx:113-119 | Applying the same edit twice gives the same list as applying it once. |
| Entries.ReplaceByIdKeepsUniqueIds | app/page.tsx:115-117 | If the list's ids are unique before an edit, they are unique after it. |
| Page.IntensityLevelsAreOneToTen | app/page.tsx:59 | `intensityLevels` holds exactly the integers 1 to 10, and the default 5 is one of them. |
| Page.TrimEmptyIff | app/page.tsx:106 | `trim()` gives the empty string exactly when every character is ECMAScript whitespace. |
| Page.IsSubmittable | app/page.tsx:106 | `customMood.trim()` is truthy exactly when the text has a character that is not whitespace. |
| Page.Home.constructor | app/page.tsx:44-56 | Initial state: empty list, empty inputs, intensity 5, no mood selected, dialog closed, date = the given now. |
| Page.Home.SelectMood | app/page.tsx:75-78 | `handleSelectMood` selects the given mood and opens the dialog. |
| Page.Home.SelectIntensity | app/page.tsx:284-293 | An intensity button sets the intensity to its level. Only the levels 1 to 10 exist, so the dialog's intensity stays in range. |
| Page.Home.EditNote | app/page.tsx:302-307 | The note input sets the note. |
| Page.Home.EditCustomMood | app/page.tsx:232-238 | The custom-mood input sets the custom mood. |
| Page.Home.PickDate | app/page.tsx:312-315 | Picking a date sets it. A cleared pick (`undefined`) keeps the previous date. |
| Page.Home.SetDialogOpen | app/page.tsx:270 | The dialog's open-change and its Cancel button set whether the dialog is shown. |
| Page.Home.AddMood | app/page.tsx:80-103 | With a non-empty selected mood: the list becomes the new entry followed by the old list. The new entry has the given id and the selected date, mood, intensity and note. Its intensity is in [1, 10]. Afterwards: note "", intensity 5, no mood selected, dialog closed, other fields unchanged. With no mood selected: no state changes. |
| Page.Home.CustomMoodSubmit | app/page.tsx:105-111 | If the typed mood has a non-whitespace character: it is selected as typed (untrimmed), the dialog opens and the input is cleared. Otherwise no state changes. |
| Page.Home.EditMood | app/page.tsx:113-119 | `handleEditMood` replaces the list by its replace-by-id with the edited entry. |
| History.History.constructor | components/MoodHistory.tsx:19-22 | Initial state: nothing in edit mode, empty mood and note buffers, intensity buffer 5. |
| History.History.Edit | components/MoodHistory.tsx:24-29 | `handleEdit` puts the entry's id in edit mode and loads its mood, intensity and note into the buffers. |
| History.History.EditMoodText | components/MoodHistory.tsx:57-61 | The mood input sets the mood buffer. |
| History.History.SlideIntensity | components/MoodHistory.tsx:66-71 | The slider sets the intensity buffer to the slid value. That value never exceeds 10. |
| History.History.EditNoteText | components/MoodHistory.tsx:73-77 | The note input sets the note buffer. |
| History.History.Save | components/MoodHistory.tsx:31-40 | Precondition: some entry has the id (the `!` on `find`). The emitted entry has that id, the date of the first entry with that id, and the buffered mood, intensity and note. Edit mode ends. |
| History.History.Cancel | components/MoodHistory.tsx:42-44 | `handleCancel` ends edit mode and emits nothing. |
| History.History.RowsInEditMode | components/MoodHistory.tsx:55 | The rows in edit mode are exactly those whose id is `editingId`. They all share one id, and with unique ids there is at most one such row. |
| History.SaveThenEditKeepsIdDateAndPosition | components/MoodHistory.tsx:31-38 | Save followed by replace-by-id keeps the list's length, order and ids. Entries with the saved id take the buffered mood, intensity and note. All other entries stay as they were. With unique ids, every date is kept. |
| History.SaveEdit | app/page.tsx:246-249 | Saving in the history view and handing the entry to `handleEditMood` replaces by id in the page's list, using the entry that `Save` builds. |
| Calendar.MonthDays | components/MoodCalendar.tsx:18-21 | The month's days run from the month's first day to its last, inclusive, one per day, ascending. |
| Calendar.MonthCells | components/MoodCalendar.tsx:41-42 | The grid has one cell per day of the month. |
| Calendar.CellIsFirstMatch | components/MoodCalendar.tsx:23-25 | Cell k is day start + k. It shows the first listed entry on that day, or nothing exactly when no entry is on that day. |
| Calendar.CalendarIgnoresOtherMonths | components/MoodCalendar.tsx:21-25 | Entries dated outside the month change no cell. |
| Calendar.CalendarShowsNewest | components/MoodCalendar.tsx:24 | Because adding prepends, the most recently added entry of a day in the month is the one its cell shows. |
| Calendar.Hue | components/MoodCalendar.tsx:27-29 | The hue lies in [0, 108] for intensities 1 to 10. It is 0 exactly at intensity 10. |
| Calendar.HueStrictlyDecreasing | components/MoodCalendar.tsx:28 | A higher intensity always gives a strictly smaller hue. |
| Calendar.CellBackground | components/MoodCalendar.tsx:46-55 | A cell gets `hsl(hue, 70%, 50%)` of its entry's intensity exactly when it has an entry. Otherwise it gets the grey default. |
| Calendar.SplitOnSpace | components/MoodCalendar.tsx:67-68 | `split(" ")` gives at least one piece, and no piece contains a space. |
| Calendar.SplitJoinRoundTrip | components/MoodCalendar.tsx:67-68 | Joining the pieces of `split(" ")` with spaces gives back the original string. |
| Calendar.DisplayParts | components/MoodCalendar.tsx:65-69 | A mood without spaces shows whole on the first line and shows no second line. A mood `a + " " + b`, with neither part containing a space, shows `a` then `b`. A mood of three or more words, `a + " " + b + " " + c`, shows `a` then `b` and drops the rest. |
| Calendar.PaletteMoodDisplay | components/MoodSelector.tsx:34 | A palette mood, once emitted and then split on spaces by the calendar, shows its emoji on the first line and its label on the second. |
| Trends.PointFor | components/MoodTrends.tsx:21-28 | A point carries its day. Its intensity is `null` exactly when no entry is on that day; otherwise it is the first such entry's intensity. |
| Trends.NewestFirst | components/MoodTrends.tsx:19-28 | `Array.from({ length: 30 }, …)` builds 30 points. |
| Trends.Reverse | components/MoodTrends.tsx:29 | `reverse` keeps the length and puts element k at position length − 1 − k. |
| Trends.Last30Days | components/MoodTrends.tsx:19-29 | Exactly 30 points. Point k is day today − (29 − k), so points run oldest first, strictly ascending, and end at today. |
| Trends.PointIsFirstMatch | components/MoodTrends.tsx:21-27 | A point holds the intensity of the first listed entry on its day. It holds `None`, not 0, exactly when no entry is on that day. |
| Trends.TrendIgnoresOutsideWindow | components/MoodTrends.tsx:19-24 | Entries dated outside [today − 29, today] do not change the series. |
| Trends.TrendShowsNewest | components/MoodTrends.tsx:21 | Because adding prepends, the most recently added entry of a day in the window sets that day's point. |
| Stats.CountPositive | components/MoodStats.tsx:27 | A mood occurs in the list exactly when its count is at least 1. |
| Stats.FirstOccurrences | components/MoodStats.tsx:26-31 | The dictionary's key order lists each occurring mood once, and nothing else. |
| Stats.CountsOf | components/MoodStats.tsx:26-29 | The key set of the reference counts is exactly the set of occurring moods. Each key's value is the number of entries with that mood, which is at least 1. |
| Stats.CountsOfSnoc | components/MoodStats.tsx:27 | Counting one more entry is the update `acc[mood] = (acc[mood] \|\| 0) + 1`. |
| Stats.MoodCounts | components/MoodStats.tsx:26-29 | The `reduce` loop gives exactly the reference counts: keys in first-occurrence order, and per-mood counts. |
| Stats.Data | components/MoodStats.tsx:31-34 | `Object.entries(…).map` gives one slice per key: slice i is named by key i, and each slice carries that key's count. |
| Stats.DataOnePerMood | components/MoodStats.tsx:26-34 | The pie data has one slice per distinct mood, no mood twice, and each slice's value is that mood's count. |
| Stats.CountsSumToTotal | components/MoodStats.tsx:26-36 | The slice values add up to `totalEntries`, the length of the list. |
| Stats.CountPermutation | components/MoodStats.tsx:26-29 | Reordering the list does not change any mood's count. |
| Stats.CountsOrderIndependent | components/MoodStats.tsx:26-29 | A reordered list gives the same mood-to-count map. The key order may differ. |
| Stats.AverageIntensity | components/MoodStats.tsx:37-38 | There is an average exactly when the list is non-empty. |
| Stats.AverageBetweenMinAndMax | components/MoodStats.tsx:37-38 | For a non-empty list, the average lies between the smallest and the largest intensity. |
| Stats.AverageWithinScale | components/MoodStats.tsx:37-38 | If every intensity is in [1, 10], so is the average. |
| Stats.Percentages | components/MoodStats.tsx:48-52 | There is one percentage per slice. |
| Stats.PercentagesSumTo100 | components/MoodStats.tsx:50 | For a non-empty list, the percentages add up to exactly 100 before rounding. |
| Stats.AverageAsWritten | components/MoodStats.tsx:36-38 | As written, the division gives the same mean for a non-empty list and NaN for the empty one. |
| Stats.CountsAsWritten | components/MoodStats.tsx:26-29 | As written, on a plain object, the counting still yields a well-formed dictionary (distinct keys, one value per key). |
| Stats.ProtoMoodNotCounted | components/MoodStats.tsx:27 | For one entry with the mood "__proto__", the counts as written sum to 0. The intended counts sum to 1, the total. |
| Selector.MoodStringParts | components/MoodSelector.tsx:34 | An emitted string is the emoji, one space, then the label. |
| Selector.Emitted | components/MoodSelector.tsx:31-34 | Every string a palette button emits is non-empty and contains the separating space. |
| Selector.MoodTableWellFormed | components/MoodSelector.tsx:6-16 | The palette has exactly nine rows. Every emoji and label is non-empty and contains no space. No label appears twice; labels are the button keys. |
| Selector.SameStringSameMood | components/MoodSelector.tsx:34 | With space-free emoji, the emitted string determines both the emoji and the label. |
| Selector.EmittedStringsDistinct | components/MoodSelector.tsx:31-34 | Different rows emit different strings. |
| Selector.EmittedCount | components/MoodSelector.tsx:31-34 | The palette emits exactly nine different strings, one per row. |

## Left out

- Persistence (app/page.tsx:61-73): reading and writing `localStorage` is browser I/O with the platform's JSON encoding, so it is not modelled. `JSON.parse` has no `try`, so corrupt data would throw; it is not swallowed.
- Id generation (app/page.tsx:83): `Date.now().toString()` reads the clock, so ids are a parameter of `Page.Home.AddMood`.
- Date handling in built-in Date methods (`toISOString`, `new Date(entry.date)`) and in date-fns (`isSameDay`, `format`, `subDays`, `startOfMonth`, `endOfMonth`, `eachDayOfInterval`, `isToday`) is foreign code. These calls become the `dayOf` parameter and the day-number parameters. The time-zone policy is whatever `dayOf` encodes.
- Labels: the "MMM dd", "d" and "PPP" labels are left out, and so is the today highlight of a calendar cell.
- Floating point: `toFixed`, the pie's `percent` label and IEEE rounding are left out. Averages and percentages are exact rationals.
- Rendering: JSX, recharts, framer-motion and CSS classes are left out, and so are the colour strings of the palette and the pie.
- Page UI: the toast after an add (app/page.tsx:94-101), the theme toggle, the sidebar, `handleViewChange` (app/page.tsx:121-126) and the `mounted` gate (app/page.tsx:128-130) are presentation only.
- Calendar grid: the weekday header row is presentation only. The grid emits no leading blanks, so there is no weekday alignment logic.
- React semantics: each handler is modelled as one atomic state update. Batching and stale closures are not modelled.
- Stats.Data: keys appear in first-occurrence order. JavaScript lists integer-like keys first, in ascending numeric order; a custom mood "5" is an example. That ordering is not modelled.
- Stats.MoodCounts: the model counts into a pure dictionary. In the source, the moods "constructor", "toString", "valueOf", "hasOwnProperty" and the other inherited `Object.prototype` names read an inherited function as their first value. They then store a string rather than a number, and the model does not capture that. The "__proto__" case is under Findings.
- History.History.SlideIntensity: its range [0, 10] assumes the slider's default lower end is 0 and its step is 1. The slider component (components/ui/slider) is not part of this model; only `max={10}` and `step={1}` appear in the source.
- History.History.Save: with duplicate ids, the replace gives every entry carrying that id the first one's date. The model states this; it does not pick one timeline for ids that collide.

## Findings

| source | as written | input that shows it | evidently intended | confidence | as-written member | corrected member |
|---|---|---|---|---|---|---|
| components/MoodStats.tsx:37-38 | `averageIntensity` divides the intensity sum by `totalEntries` without a guard | an empty entry list: 0 / 0 is NaN, shown as "NaN/10" | an explicit "no average" state for an empty list | high, not executed | Stats.AverageAsWritten | Stats.AverageIntensity |
| components/MoodStats.tsx:26-29 | the counts accumulate in the plain object `{}`, so `acc["__proto__"]` reads the prototype and the assignment of a non-object to `__proto__` is ignored | one entry with the custom mood "__proto__": no slice, and counts sum to 0 instead of 1 | every mood counted, counts summing to the total | medium, not executed | Stats.CountsAsWritten | Stats.MoodCounts |
