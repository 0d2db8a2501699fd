/**
 * The trend line (components/MoodTrends.tsx): thirty points, one per day from
 * 29 days ago to today, oldest first, each carrying the intensity of the first
 * entry of the list on that day or `null` when there is none.
 */
module Trends {
  import opened Wrappers
  import opened Entries

  /** Number of days in the window. */
  const WindowLength: nat := 30

  /** One chart point: its day (labelled `format(date, "MMM dd")`) and the intensity, `None` for `null`. */
  datatype TrendPoint = TrendPoint(day: Day, intensity: Option<int>)

  /** The point for one day: `entry ? entry.intensity : null` for the first entry on that day. */
  function PointFor(entries: seq<MoodEntry>, dayOf: Instant -> Day, day: Day): (p: TrendPoint)
    ensures p.day == day
    ensures p.intensity.None? <==> FirstOnDay(entries, dayOf, day).None?
    ensures p.intensity.Some? ==> p.intensity.value == FirstOnDay(entries, dayOf, day).value.intensity
  {
    match FirstOnDay(entries, dayOf, day)
    case Some(e) => TrendPoint(day, Some(e.intensity))
    case None => TrendPoint(day, None)
  }

  /** `Array.from({ length: 30 }, (_, i) => …subDays(today, i)…)`: today first. */
  function NewestFirst(entries: seq<MoodEntry>, dayOf: Instant -> Day, today: Day): (w: seq<TrendPoint>)
    ensures |w| == WindowLength
  {
    seq(WindowLength, i => PointFor(entries, dayOf, today - i))
  }

  /** Array `reverse`. */
  function Reverse<T>(s: seq<T>): (r: seq<T>)
    ensures |r| == |s|
    ensures forall k :: 0 <= k < |s| ==> r[k] == s[|s| - 1 - k]
  {
    if |s| == 0 then [] else [s[|s| - 1]] + Reverse(s[..|s| - 1])
  }

  /** `last30Days`: the window reversed, so oldest first. */
  function Last30Days(entries: seq<MoodEntry>, dayOf: Instant -> Day, today: Day): (points: seq<TrendPoint>)
    ensures |points| == 30
    ensures forall k :: 0 <= k < |points| ==> points[k].day == today - (29 - k)
    ensures points[29].day == today
    ensures forall k :: 0 <= k < |points| - 1 ==> points[k].day < points[k + 1].day
  {
    var w := NewestFirst(entries, dayOf, today);
    assert forall i :: 0 <= i < |w| ==> w[i] == PointFor(entries, dayOf, today - i);
    Reverse(w)
  }

  /** Point k holds the intensity of the first entry, in list order, on its day; it is `None` (never 0) exactly when no entry is on that day. */
  lemma PointIsFirstMatch(entries: seq<MoodEntry>, dayOf: Instant -> Day, today: Day, k: nat)
    requires k < 30
    ensures var p := Last30Days(entries, dayOf, today)[k];
      (p.intensity.None? <==> forall i :: 0 <= i < |entries| ==> dayOf(entries[i].date) != p.day) &&
      (p.intensity.Some? ==> exists i :: 0 <= i < |entries| && dayOf(entries[i].date) == p.day
                                         && p.intensity.value == entries[i].intensity
                                         && forall j :: 0 <= j < i ==> dayOf(entries[j].date) != p.day)
  {
    var p := Last30Days(entries, dayOf, today)[k];
    assert p == PointFor(entries, dayOf, p.day);
  }

  /** Entries whose day lies outside [today - 29, today] do not affect the series. */
  lemma TrendIgnoresOutsideWindow(entries: seq<MoodEntry>, dayOf: Instant -> Day, today: Day)
    ensures Last30Days(OnDays(entries, dayOf, today - 29, today), dayOf, today) == Last30Days(entries, dayOf, today)
  {
    var a := NewestFirst(OnDays(entries, dayOf, today - 29, today), dayOf, today);
    var b := NewestFirst(entries, dayOf, today);
    forall i | 0 <= i < 30 ensures a[i] == b[i] {
      PointIgnoresOutsideWindow(entries, dayOf, today, i);
    }
    assert a == b;
  }

  lemma PointIgnoresOutsideWindow(entries: seq<MoodEntry>, dayOf: Instant -> Day, today: Day, i: nat)
    requires i < 30
    ensures NewestFirst(OnDays(entries, dayOf, today - 29, today), dayOf, today)[i] == NewestFirst(entries, dayOf, today)[i]
  {
    FirstOnDayIgnoresOtherDays(entries, dayOf, today - 29, today, today - i);
    assert NewestFirst(OnDays(entries, dayOf, today - 29, today), dayOf, today)[i]
        == PointFor(OnDays(entries, dayOf, today - 29, today), dayOf, today - i);
    assert NewestFirst(entries, dayOf, today)[i] == PointFor(entries, dayOf, today - i);
  }

  /** Since adding prepends, the most recently added entry for a day in the window determines that day's point. */
  lemma TrendShowsNewest(e: MoodEntry, entries: seq<MoodEntry>, dayOf: Instant -> Day, today: Day)
    requires today - 29 <= dayOf(e.date) <= today
    ensures Last30Days(Prepend(e, entries), dayOf, today)[29 - (today - dayOf(e.date))] == TrendPoint(dayOf(e.date), Some(e.intensity))
  {
    var d := dayOf(e.date);
    FirstOnDayPrepended(e, entries, dayOf, d);
    var w := NewestFirst(Prepend(e, entries), dayOf, today);
    assert w[today - d] == PointFor(Prepend(e, entries), dayOf, d);
  }
}
