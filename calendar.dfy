/**
 * The calendar heat-map (components/MoodCalendar.tsx): one cell per day of the
 * month containing today, each showing the first entry of the list that falls
 * on that day, coloured by a hue computed from its intensity, with the mood
 * string split on spaces into an emoji line and a label line.
 */
module Calendar {
  import opened Wrappers
  import opened Entries
  import Selector

  /** `eachDayOfInterval({ start: monthStart, end: monthEnd })`, as day numbers. */
  function MonthDays(monthStart: Day, monthEnd: Day): (days: seq<Day>)
    requires monthStart <= monthEnd
    ensures |days| > 0 && days[0] == monthStart && days[|days| - 1] == monthEnd
    ensures forall k :: 0 <= k < |days| - 1 ==> days[k + 1] == days[k] + 1
    ensures forall d :: d in days <==> monthStart <= d <= monthEnd
  {
    var days := seq(monthEnd - monthStart + 1, k => monthStart + k);
    ConsecutiveDaysCoverRange(monthStart, monthEnd, days);
    days
  }

  lemma ConsecutiveDaysCoverRange(lo: Day, hi: Day, days: seq<Day>)
    requires |days| == hi - lo + 1
    requires forall k :: 0 <= k < |days| ==> days[k] == lo + k
    ensures forall d :: d in days <==> lo <= d <= hi
  {
    forall d | lo <= d <= hi ensures d in days {
      assert days[d - lo] == d;
    }
  }

  /** One grid cell: the day and the entry `getMoodForDay` found for it, if any. */
  datatype Cell = Cell(day: Day, entry: Option<MoodEntry>)

  /** The month grid: `days.map(day => getMoodForDay(day))`. */
  function MonthCells(entries: seq<MoodEntry>, dayOf: Instant -> Day, monthStart: Day, monthEnd: Day): (cells: seq<Cell>)
    requires monthStart <= monthEnd
    ensures |cells| == monthEnd - monthStart + 1
  {
    var days := MonthDays(monthStart, monthEnd);
    seq(|days|, k requires 0 <= k < |days| => Cell(days[k], FirstOnDay(entries, dayOf, days[k])))
  }

  /** Cell k is day monthStart + k, and holds the first entry in list order on that day, or nothing when no entry is on it. */
  lemma CellIsFirstMatch(entries: seq<MoodEntry>, dayOf: Instant -> Day, monthStart: Day, monthEnd: Day, k: nat)
    requires monthStart <= monthEnd && k < monthEnd - monthStart + 1
    ensures MonthCells(entries, dayOf, monthStart, monthEnd)[k].day == monthStart + k
    ensures var c := MonthCells(entries, dayOf, monthStart, monthEnd)[k];
      (c.entry.None? <==> forall i :: 0 <= i < |entries| ==> dayOf(entries[i].date) != c.day) &&
      (c.entry.Some? ==> exists i :: 0 <= i < |entries| && entries[i] == c.entry.value && dayOf(entries[i].date) == c.day
                                     && forall j :: 0 <= j < i ==> dayOf(entries[j].date) != c.day)
  {
  }

  /** Entries whose day lies outside the month do not affect any cell. */
  lemma CalendarIgnoresOtherMonths(entries: seq<MoodEntry>, dayOf: Instant -> Day, monthStart: Day, monthEnd: Day)
    requires monthStart <= monthEnd
    ensures MonthCells(OnDays(entries, dayOf, monthStart, monthEnd), dayOf, monthStart, monthEnd)
         == MonthCells(entries, dayOf, monthStart, monthEnd)
  {
    var a := MonthCells(OnDays(entries, dayOf, monthStart, monthEnd), dayOf, monthStart, monthEnd);
    var b := MonthCells(entries, dayOf, monthStart, monthEnd);
    forall k | 0 <= k < |b| ensures a[k] == b[k] {
      FirstOnDayIgnoresOtherDays(entries, dayOf, monthStart, monthEnd, monthStart + k);
    }
  }

  /** Since adding prepends, the most recently added entry for a day of the month is the one its cell shows. */
  lemma CalendarShowsNewest(e: MoodEntry, entries: seq<MoodEntry>, dayOf: Instant -> Day, monthStart: Day, monthEnd: Day)
    requires monthStart <= dayOf(e.date) <= monthEnd
    ensures MonthCells(Prepend(e, entries), dayOf, monthStart, monthEnd)[dayOf(e.date) - monthStart] == Cell(dayOf(e.date), Some(e))
  {
    FirstOnDayPrepended(e, entries, dayOf, dayOf(e.date));
  }

  /** `getMoodColor`'s hue: 120 (green) at intensity 0 down to 0 (red) at intensity 10. */
  function Hue(intensity: int): (hue: int)
    ensures 1 <= intensity <= 10 ==> 0 <= hue <= 108
    ensures intensity == 10 <==> hue == 0
  {
    120 - intensity * 12
  }

  /** A higher intensity always gives a strictly smaller hue. */
  lemma HueStrictlyDecreasing(a: int, b: int)
    requires a < b
    ensures Hue(a) > Hue(b)
  {
  }

  /** A cell's background: `hsl(hue, 70%, 50%)` for a cell with an entry, the grey class otherwise. */
  datatype Background = Hsl(hue: int, saturation: int, lightness: int) | DefaultGrey

  function CellBackground(c: Cell): (b: Background)
    ensures b.Hsl? <==> c.entry.Some?
    ensures b.Hsl? ==> b.saturation == 70 && b.lightness == 50 && b.hue == Hue(c.entry.value.intensity)
  {
    match c.entry
    case Some(e) => Hsl(Hue(e.intensity), 70, 50)
    case None => DefaultGrey
  }

  /** JavaScript's `s.split(" ")`: the maximal space-free pieces between single spaces; `"".split(" ")` is `[""]`. */
  function SplitOnSpace(s: string): (parts: seq<string>)
    ensures |parts| >= 1
    ensures forall k :: 0 <= k < |parts| ==> ' ' !in parts[k]
    decreases |s|
  {
    if |s| == 0 then [""]
    else
      var rest := SplitOnSpace(s[1..]);
      if s[0] == ' ' then [""] + rest
      else [[s[0]] + rest[0]] + rest[1..]
  }

  /** `parts.join(" ")`. */
  function JoinWithSpace(parts: seq<string>): string
    requires |parts| >= 1
  {
    if |parts| == 1 then parts[0] else parts[0] + " " + JoinWithSpace(parts[1..])
  }

  /** Splitting on spaces loses nothing: joining the pieces with spaces gives the string back. */
  lemma {:induction false} SplitJoinRoundTrip(s: string)
    ensures JoinWithSpace(SplitOnSpace(s)) == s
    decreases |s|
  {
    if |s| > 0 {
      var rest := SplitOnSpace(s[1..]);
      SplitJoinRoundTrip(s[1..]);
      if s[0] == ' ' {
        assert ([""] + rest)[1..] == rest;
      } else {
        var parts := [[s[0]] + rest[0]] + rest[1..];
        if |rest| == 1 {
          assert s == [s[0]] + s[1..];
        } else {
          assert parts[1..] == rest[1..];
          assert JoinWithSpace(rest) == rest[0] + " " + JoinWithSpace(rest[1..]);
          assert s == [s[0]] + s[1..];
        }
      }
    }
  }

  /** A string without spaces is a single piece. */
  lemma {:induction false} SplitSpaceFree(s: string)
    requires ' ' !in s
    ensures SplitOnSpace(s) == [s]
    decreases |s|
  {
    if |s| > 0 {
      assert ' ' !in s[1..] by {
        forall k | 0 <= k < |s[1..]| ensures s[1..][k] != ' ' { assert s[1..][k] == s[k + 1]; }
      }
      SplitSpaceFree(s[1..]);
      assert s == [s[0]] + s[1..];
    }
  }

  /** The piece before the first space comes first; the rest is split in turn. */
  lemma {:induction false} SplitAtFirstSpace(a: string, b: string)
    requires ' ' !in a
    ensures SplitOnSpace(a + " " + b) == [a] + SplitOnSpace(b)
    decreases |a|
  {
    if |a| == 0 {
      assert (a + " " + b)[1..] == b;
    } else {
      assert (a + " " + b)[1..] == a[1..] + " " + b;
      assert ' ' !in a[1..] by {
        forall k | 0 <= k < |a[1..]| ensures a[1..][k] != ' ' { assert a[1..][k] == a[k + 1]; }
      }
      SplitAtFirstSpace(a[1..], b);
      assert a == [a[0]] + a[1..];
    }
  }

  /** The two lines a cell renders, the first two words; any further words are not shown: `mood.split(" ")[0]` and `mood.split(" ")[1]`, the latter `undefined`, so empty, when absent. */
  datatype Display = Display(top: string, bottom: Option<string>)

  function DisplayParts(mood: string): (d: Display)
    ensures ' ' !in mood ==> d == Display(mood, None)
    ensures forall a, b :: ' ' !in a && ' ' !in b && mood == a + " " + b ==> d == Display(a, Some(b))
    ensures forall a, b, c :: ' ' !in a && ' ' !in b && mood == a + " " + b + " " + c ==> d == Display(a, Some(b))
  {
    SplitProperties(mood);
    var parts := SplitOnSpace(mood);
    Display(parts[0], if |parts| > 1 then Some(parts[1]) else None)
  }

  /** The facts about `SplitOnSpace` that `DisplayParts` promises. */
  lemma SplitProperties(mood: string)
    ensures ' ' !in mood ==> SplitOnSpace(mood) == [mood]
    ensures forall a, b :: ' ' !in a && ' ' !in b && mood == a + " " + b ==> SplitOnSpace(mood) == [a, b]
    ensures forall a, b, c :: ' ' !in a && ' ' !in b && mood == a + " " + b + " " + c ==>
      |SplitOnSpace(mood)| >= 2 && SplitOnSpace(mood)[0] == a && SplitOnSpace(mood)[1] == b
  {
    if ' ' !in mood { SplitSpaceFree(mood); }
    forall a, b | ' ' !in a && ' ' !in b && mood == a + " " + b ensures SplitOnSpace(mood) == [a, b] {
      SplitAtFirstSpace(a, b);
      SplitSpaceFree(b);
    }
    forall a, b, c | ' ' !in a && ' ' !in b && mood == a + " " + b + " " + c
      ensures |SplitOnSpace(mood)| >= 2 && SplitOnSpace(mood)[0] == a && SplitOnSpace(mood)[1] == b
    {
      assert mood == a + " " + (b + " " + c);
      SplitAtFirstSpace(a, b + " " + c);
      SplitAtFirstSpace(b, c);
    }
  }

  /** A palette mood shows its emoji on the first line and its label on the second. */
  lemma PaletteMoodDisplay(k: nat)
    requires k < |Selector.Moods|
    ensures DisplayParts(Selector.Emitted(k)) == Display(Selector.Moods[k].emoji, Some(Selector.Moods[k].name))
  {
    Selector.MoodTableWellFormed();
  }
}
