/**
 * The statistics panel (components/MoodStats.tsx): the per-mood counts built
 * by a `reduce` into a dictionary, the pie data listed from that dictionary,
 * the total, the average intensity and each mood's percentage.
 */
module Stats {
  import opened Wrappers
  import opened Entries

  /** How many entries carry mood `m`, counted in list order as the `reduce` visits them. */
  function Count(s: seq<MoodEntry>, m: string): (n: nat)
    ensures n <= |s|
  {
    if |s| == 0 then 0 else Count(s[..|s| - 1], m) + (if s[|s| - 1].mood == m then 1 else 0)
  }

  /** The moods occurring in `s`. */
  function MoodSet(s: seq<MoodEntry>): set<string> {
    set i | 0 <= i < |s| :: s[i].mood
  }

  lemma MoodSetSnoc(s: seq<MoodEntry>, e: MoodEntry)
    ensures MoodSet(s + [e]) == MoodSet(s) + {e.mood}
  {
    var t := s + [e];
    assert forall i :: 0 <= i < |s| ==> t[i] == s[i];
    assert t[|s|] == e;
  }

  /** A mood occurs in the list exactly when its count is positive. */
  lemma {:induction false} CountPositive(s: seq<MoodEntry>, m: string)
    ensures m in MoodSet(s) <==> Count(s, m) >= 1
  {
    if |s| > 0 {
      var p := s[..|s| - 1];
      assert s == p + [s[|s| - 1]];
      MoodSetSnoc(p, s[|s| - 1]);
      CountPositive(p, m);
    }
  }

  predicate Distinct(ks: seq<string>) {
    forall i, j :: 0 <= i < j < |ks| ==> ks[i] != ks[j]
  }

  /** The moods in order of first occurrence: the key order of the dictionary the `reduce` builds. */
  function FirstOccurrences(s: seq<MoodEntry>): (ks: seq<string>)
    ensures Distinct(ks)
    ensures forall m :: m in ks <==> m in MoodSet(s)
  {
    if |s| == 0 then []
    else
      var p := s[..|s| - 1];
      MoodSetSnoc(p, s[|s| - 1]);
      assert s == p + [s[|s| - 1]];
      var ks := FirstOccurrences(p);
      if s[|s| - 1].mood in ks then ks else ks + [s[|s| - 1].mood]
  }

  /** A JavaScript object used as a dictionary: its own keys in insertion order, and their values. */
  datatype Record = Record(keys: seq<string>, values: map<string, int>)

  predicate WellFormed(r: Record) {
    Distinct(r.keys) && (forall k :: k in r.keys ==> k in r.values) && (forall k :: k in r.values ==> k in r.keys)
  }

  /** What `moodCounts` should hold: each occurring mood, in first-occurrence order, with its count. */
  function CountsOf(s: seq<MoodEntry>): (r: Record)
    ensures WellFormed(r)
    ensures r.values.Keys == MoodSet(s)
    ensures forall m :: m in r.values ==> r.values[m] == Count(s, m) && r.values[m] >= 1
  {
    forall m | m in MoodSet(s) ensures Count(s, m) >= 1 { CountPositive(s, m); }
    Record(FirstOccurrences(s), map m | m in MoodSet(s) :: Count(s, m))
  }

  /** One dictionary update of the `reduce`: `acc[mood] = (acc[mood] || 0) + 1`. */
  function Tally(acc: Record, mood: string): Record {
    var prev := if mood in acc.values then acc.values[mood] else 0;
    Record(if mood in acc.values then acc.keys else acc.keys + [mood], acc.values[mood := prev + 1])
  }

  /** Counting one more entry is one dictionary update. */
  lemma CountsOfSnoc(s: seq<MoodEntry>, e: MoodEntry)
    ensures CountsOf(s + [e]) == Tally(CountsOf(s), e.mood)
  {
    var t := s + [e];
    assert t[..|t| - 1] == s;
    MoodSetSnoc(s, e);
    var before := CountsOf(s);
    assert e.mood in before.values <==> e.mood in FirstOccurrences(s);
    assert CountsOf(t).keys == Tally(before, e.mood).keys;
    var va := CountsOf(t).values;
    var vb := Tally(before, e.mood).values;
    forall m | m in va ensures m in vb && va[m] == vb[m] {
      assert va[m] == Count(t, m) == Count(s, m) + (if e.mood == m then 1 else 0);
      CountPositive(s, m);
    }
    assert va.Keys == vb.Keys;
    assert va == vb;
  }

  /** The `reduce` that builds `moodCounts`, as a loop over the entries. */
  method MoodCounts(entries: seq<MoodEntry>) returns (acc: Record)
    ensures acc == CountsOf(entries)
  {
    acc := Record([], map[]);
    var i := 0;
    while i < |entries|
      invariant 0 <= i <= |entries|
      invariant acc == CountsOf(entries[..i])
    {
      acc := Tally(acc, entries[i].mood);
      CountsOfSnoc(entries[..i], entries[i]);
      assert entries[..i + 1] == entries[..i] + [entries[i]];
      i := i + 1;
    }
    assert entries[..i] == entries;
  }

  /** One pie slice, `{ name: mood, value: count }`. */
  datatype Slice = Slice(name: string, value: int)

  /** `Object.entries(moodCounts).map(([mood, count]) => ({ name: mood, value: count }))`. */
  function Data(r: Record): (d: seq<Slice>)
    requires WellFormed(r)
    ensures |d| == |r.keys|
    ensures forall i :: 0 <= i < |d| ==> d[i].name == r.keys[i]
    ensures forall i :: 0 <= i < |d| ==> d[i].name in r.values && d[i].value == r.values[d[i].name]
    ensures forall m :: m in r.values <==> exists i :: 0 <= i < |d| && d[i].name == m
  {
    var d := seq(|r.keys|, i requires 0 <= i < |r.keys| => Slice(r.keys[i], r.values[r.keys[i]]));
    assert forall m :: m in r.values ==> exists i :: 0 <= i < |d| && d[i].name == m by {
      forall m | m in r.values ensures exists i :: 0 <= i < |d| && d[i].name == m {
        var i :| 0 <= i < |r.keys| && r.keys[i] == m;
        assert d[i].name == m;
      }
    }
    d
  }

  /** `totalEntries`. */
  function TotalEntries(s: seq<MoodEntry>): nat {
    |s|
  }

  /** The pie data has one slice per distinct mood, with that mood's count, and no mood twice. */
  lemma DataOnePerMood(s: seq<MoodEntry>)
    ensures var d := Data(CountsOf(s));
      |d| == |MoodSet(s)| &&
      (forall i, j :: 0 <= i < j < |d| ==> d[i].name != d[j].name) &&
      (forall i :: 0 <= i < |d| ==> d[i].name in MoodSet(s) && d[i].value == Count(s, d[i].name))
  {
    DistinctCardinality(FirstOccurrences(s));
    assert (set k | k in FirstOccurrences(s)) == MoodSet(s);
  }

  /** A sequence without repetitions has as many elements as its set. */
  lemma {:induction false} DistinctCardinality(ks: seq<string>)
    requires Distinct(ks)
    ensures |set k | k in ks| == |ks|
  {
    if |ks| > 0 {
      var p := ks[..|ks| - 1];
      DistinctCardinality(p);
      assert (set k | k in ks) == (set k | k in p) + {ks[|ks| - 1]};
    }
  }

  function SumValues(d: seq<Slice>): int {
    if |d| == 0 then 0 else d[0].value + SumValues(d[1..])
  }

  /** The slices for keys `ks`, each with its count in `s`. */
  function SlicesFor(ks: seq<string>, s: seq<MoodEntry>): seq<Slice> {
    seq(|ks|, i requires 0 <= i < |ks| => Slice(ks[i], Count(s, ks[i])))
  }

  /** How many times `m` is in `ks`. */
  function Occurrences(ks: seq<string>, m: string): nat {
    if |ks| == 0 then 0 else (if ks[0] == m then 1 else 0) + Occurrences(ks[1..], m)
  }

  lemma {:induction false} OccurrencesDistinct(ks: seq<string>, m: string)
    requires Distinct(ks)
    ensures Occurrences(ks, m) == if m in ks then 1 else 0
  {
    if |ks| > 0 {
      OccurrencesDistinct(ks[1..], m);
      assert m in ks <==> ks[0] == m || m in ks[1..];
      if ks[0] == m {
        assert m !in ks[1..] by {
          forall j | 0 <= j < |ks[1..]| ensures ks[1..][j] != m { assert ks[1..][j] == ks[j + 1]; }
        }
      }
    }
  }

  lemma {:induction false} SlicesForSnoc(ks: seq<string>, s: seq<MoodEntry>, e: MoodEntry)
    ensures SumValues(SlicesFor(ks, s + [e])) == SumValues(SlicesFor(ks, s)) + Occurrences(ks, e.mood)
  {
    assert (s + [e])[..|s|] == s;
    if |ks| > 0 {
      SlicesForSnoc(ks[1..], s, e);
      assert SlicesFor(ks, s + [e])[1..] == SlicesFor(ks[1..], s + [e]);
      assert SlicesFor(ks, s)[1..] == SlicesFor(ks[1..], s);
    }
  }

  /** Over keys covering every mood once, the counts add up to the number of entries. */
  lemma {:induction false} SlicesSumToLength(ks: seq<string>, s: seq<MoodEntry>)
    requires Distinct(ks)
    requires forall m :: m in MoodSet(s) ==> m in ks
    ensures SumValues(SlicesFor(ks, s)) == |s|
  {
    if |s| == 0 {
      SlicesForEmpty(ks, s);
    } else {
      var p := s[..|s| - 1];
      var e := s[|s| - 1];
      assert s == p + [e];
      MoodSetSnoc(p, e);
      SlicesSumToLength(ks, p);
      SlicesForSnoc(ks, p, e);
      OccurrencesDistinct(ks, e.mood);
    }
  }

  lemma {:induction false} SlicesForEmpty(ks: seq<string>, s: seq<MoodEntry>)
    requires |s| == 0
    ensures SumValues(SlicesFor(ks, s)) == 0
  {
    if |ks| > 0 {
      SlicesForEmpty(ks[1..], s);
      assert SlicesFor(ks, s)[1..] == SlicesFor(ks[1..], s);
    }
  }

  /** The counts of the pie data add up to `totalEntries`, the length of the list. */
  lemma CountsSumToTotal(s: seq<MoodEntry>)
    ensures SumValues(Data(CountsOf(s))) == TotalEntries(s)
  {
    assert Data(CountsOf(s)) == SlicesFor(FirstOccurrences(s), s);
    SlicesSumToLength(FirstOccurrences(s), s);
  }

  lemma {:induction false} CountConcat(a: seq<MoodEntry>, b: seq<MoodEntry>, m: string)
    ensures Count(a + b, m) == Count(a, m) + Count(b, m)
    decreases |b|
  {
    if |b| == 0 {
      assert a + b == a;
    } else {
      assert (a + b)[..|a + b| - 1] == a + b[..|b| - 1];
      CountConcat(a, b[..|b| - 1], m);
    }
  }

  /** Taking element j out of a list removes one occurrence of it. */
  lemma RemoveAt(t: seq<MoodEntry>, j: nat, m: string)
    requires j < |t|
    ensures multiset(t) == multiset(t[..j] + t[j + 1..]) + multiset{t[j]}
    ensures Count(t, m) == Count(t[..j] + t[j + 1..], m) + (if t[j].mood == m then 1 else 0)
  {
    var t1, t2 := t[..j], t[j + 1..];
    assert t == t1 + [t[j]] + t2;
    assert multiset(t1 + t2) == multiset(t1) + multiset(t2);
    CountConcat(t1, t2, m);
    CountConcat(t1 + [t[j]], t2, m);
    CountConcat(t1, [t[j]], m);
    assert [t[j]][..0] == [];
  }

  /** The count of a mood does not depend on the order of the list. */
  lemma {:induction false} CountPermutation(s: seq<MoodEntry>, t: seq<MoodEntry>, m: string)
    requires multiset(s) == multiset(t)
    ensures Count(s, m) == Count(t, m)
    decreases |s|
  {
    if |s| == 0 {
      assert |t| == |multiset(t)| == 0;
    } else {
      var p := s[..|s| - 1];
      var x := s[|s| - 1];
      assert s == p + [x];
      assert multiset(s) == multiset(p) + multiset{x};
      assert x in multiset(t);
      var j :| 0 <= j < |t| && t[j] == x;
      var rest := t[..j] + t[j + 1..];
      RemoveAt(t, j, m);
      assert multiset(p) == multiset(s) - multiset{x};
      assert multiset(rest) == multiset(t) - multiset{x};
      CountPermutation(p, rest, m);
    }
  }

  /** Any reordering of the list gives the same counts. */
  lemma CountsOrderIndependent(s: seq<MoodEntry>, t: seq<MoodEntry>)
    requires multiset(s) == multiset(t)
    ensures CountsOf(s).values == CountsOf(t).values
  {
    forall m ensures Count(s, m) == Count(t, m) && (m in MoodSet(s) <==> m in MoodSet(t)) {
      CountPermutation(s, t, m);
      CountPositive(s, m);
      CountPositive(t, m);
    }
  }

  /** `moodEntries.reduce((sum, entry) => sum + entry.intensity, 0)`. */
  function IntensitySum(s: seq<MoodEntry>): int {
    if |s| == 0 then 0 else IntensitySum(s[..|s| - 1]) + s[|s| - 1].intensity
  }

  function MinIntensity(s: seq<MoodEntry>): int
    requires |s| > 0
  {
    if |s| == 1 then s[0].intensity
    else
      var m := MinIntensity(s[..|s| - 1]);
      if s[|s| - 1].intensity < m then s[|s| - 1].intensity else m
  }

  function MaxIntensity(s: seq<MoodEntry>): int
    requires |s| > 0
  {
    if |s| == 1 then s[0].intensity
    else
      var m := MaxIntensity(s[..|s| - 1]);
      if s[|s| - 1].intensity > m then s[|s| - 1].intensity else m
  }

  /** `averageIntensity`: the mean intensity, and no value at all for an empty list. */
  function AverageIntensity(s: seq<MoodEntry>): (avg: Option<real>)
    ensures avg.None? <==> |s| == 0
  {
    if |s| == 0 then None else Some(IntensitySum(s) as real / |s| as real)
  }

  /** Every intensity lies between MinIntensity and MaxIntensity. */
  lemma {:induction false} MinMaxBoundIntensities(s: seq<MoodEntry>)
    requires |s| > 0
    ensures forall i :: 0 <= i < |s| ==> MinIntensity(s) <= s[i].intensity <= MaxIntensity(s)
  {
    if |s| > 1 {
      var p := s[..|s| - 1];
      MinMaxBoundIntensities(p);
      assert forall i :: 0 <= i < |p| ==> s[i] == p[i];
    }
  }

  /** With every intensity in [lo, hi], the sum lies between |s| * lo and |s| * hi. */
  lemma {:induction false} SumWithinBounds(s: seq<MoodEntry>, lo: int, hi: int)
    requires forall i :: 0 <= i < |s| ==> lo <= s[i].intensity <= hi
    ensures lo * |s| <= IntensitySum(s) <= hi * |s|
  {
    if |s| > 0 {
      var p := s[..|s| - 1];
      assert forall i :: 0 <= i < |p| ==> s[i] == p[i];
      SumWithinBounds(p, lo, hi);
      MultiplySucc(lo, |p|);
      MultiplySucc(hi, |p|);
    }
  }

  lemma MultiplySucc(a: int, n: nat)
    ensures a * (n + 1) == a * n + a
  {
  }

  /** For a non-empty list the average lies between the smallest and the largest intensity. */
  lemma AverageBetweenMinAndMax(s: seq<MoodEntry>)
    requires |s| > 0
    ensures MinIntensity(s) as real <= AverageIntensity(s).value <= MaxIntensity(s) as real
  {
    MinMaxBoundIntensities(s);
    SumWithinBounds(s, MinIntensity(s), MaxIntensity(s));
    MeanBounds(MinIntensity(s), IntensitySum(s), MaxIntensity(s), |s|);
  }

  lemma MeanBounds(lo: int, sum: int, hi: int, n: int)
    requires n > 0 && lo * n <= sum <= hi * n
    ensures lo as real <= sum as real / n as real <= hi as real
  {
    CastProduct(lo, n);
    CastProduct(hi, n);
    DivideBounds(lo as real, sum as real, hi as real, n as real);
  }

  lemma CastProduct(a: int, n: int)
    ensures (a * n) as real == a as real * n as real
  {
  }

  lemma DivideBounds(lo: real, x: real, hi: real, n: real)
    requires n > 0.0 && lo * n <= x <= hi * n
    ensures lo <= x / n <= hi
  {
    assert x / n * n == x;
  }

  /** With every intensity in [1, 10], as for entries added through the dialog, so is the average. */
  lemma AverageWithinScale(s: seq<MoodEntry>)
    requires |s| > 0
    requires forall i :: 0 <= i < |s| ==> 1 <= s[i].intensity <= 10
    ensures 1.0 <= AverageIntensity(s).value <= 10.0
  {
    SumWithinBounds(s, 1, 10);
    MeanBounds(1, IntensitySum(s), 10, |s|);
  }

  /** `(value / totalEntries) * 100`, the percentage listed beside one slice. */
  function Percentage(value: int, total: int): real
    requires total > 0
  {
    (value as real / total as real) * 100.0
  }

  /** The percentages of the listed slices; an empty list has no slices, so no division happens. */
  function Percentages(s: seq<MoodEntry>): (p: seq<real>)
    ensures |p| == |Data(CountsOf(s))|
  {
    if |s| == 0 then [] else PercentagesOf(Data(CountsOf(s)), |s|)
  }

  function PercentagesOf(d: seq<Slice>, total: int): (p: seq<real>)
    requires total > 0
    ensures |p| == |d|
  {
    seq(|d|, i requires 0 <= i < |d| => Percentage(d[i].value, total))
  }

  function SumReals(p: seq<real>): real {
    if |p| == 0 then 0.0 else p[0] + SumReals(p[1..])
  }

  lemma {:induction false} SumOfPercentages(d: seq<Slice>, total: int)
    requires total > 0
    ensures SumReals(PercentagesOf(d, total)) == (SumValues(d) as real / total as real) * 100.0
  {
    if |d| > 0 {
      SumOfPercentages(d[1..], total);
      assert PercentagesOf(d, total)[1..] == PercentagesOf(d[1..], total);
      var t := total as real;
      assert (d[0].value as real / t) * 100.0 + (SumValues(d[1..]) as real / t) * 100.0
          == ((d[0].value + SumValues(d[1..])) as real / t) * 100.0;
    }
  }

  /** For a non-empty list, the percentages add up to 100 (before rounding). */
  lemma PercentagesSumTo100(s: seq<MoodEntry>)
    requires |s| > 0
    ensures SumReals(Percentages(s)) == 100.0
  {
    var d := Data(CountsOf(s));
    var n := |s|;
    CountsSumToTotal(s);
    assert SumValues(d) == n;
    SumOfPercentages(d, n);
    assert Percentages(s) == PercentagesOf(d, n);
    DivideBySelf(n as real);
  }

  lemma DivideBySelf(x: real)
    requires x != 0.0
    ensures x / x == 1.0
  {
  }

  /** A JavaScript number, as the division of averageIntensity can produce it. */
  datatype JsNumber = Finite(v: real) | NaN | PositiveInfinity | NegativeInfinity

  /** IEEE division as JavaScript performs it, leaving out rounding. */
  function JsDivide(a: real, b: real): JsNumber {
    if b != 0.0 then Finite(a / b)
    else if a == 0.0 then NaN
    else if a > 0.0 then PositiveInfinity
    else NegativeInfinity
  }

  /** `averageIntensity` as written: the same mean for a non-empty list, but 0 / 0 = NaN for the empty one. */
  function AverageAsWritten(s: seq<MoodEntry>): (avg: JsNumber)
    ensures |s| > 0 ==> avg == Finite(AverageIntensity(s).value)
    ensures |s| == 0 ==> avg == NaN
  {
    JsDivide(IntensitySum(s) as real, |s| as real)
  }

  /**
   * One dictionary update as JavaScript performs it on the plain object `{}`:
   * for the key "__proto__", `acc[mood]` reads the inherited prototype and
   * assigning a string to `__proto__` is ignored, so the object is unchanged.
   */
  function TallyAsWritten(acc: Record, mood: string): Record {
    if mood == "__proto__" then acc else Tally(acc, mood)
  }

  /** `moodCounts` as written, on a plain object. */
  function CountsAsWritten(s: seq<MoodEntry>): (r: Record)
    ensures WellFormed(r)
  {
    if |s| == 0 then Record([], map[])
    else
      var acc := CountsAsWritten(s[..|s| - 1]);
      var r := TallyAsWritten(acc, s[|s| - 1].mood);
      assert forall k :: k in r.keys <==> k in acc.keys || (s[|s| - 1].mood != "__proto__" && k == s[|s| - 1].mood);
      r
  }

  /** A custom mood named "__proto__" is never counted as written, so the counts no longer add up to the total. */
  lemma ProtoMoodNotCounted()
    ensures var s := [MoodEntry("1", 0, "__proto__", 5, "")];
      SumValues(Data(CountsAsWritten(s))) == 0 &&
      SumValues(Data(CountsOf(s))) == 1 == TotalEntries(s)
  {
    var s := [MoodEntry("1", 0, "__proto__", 5, "")];
    assert s[..0] == [];
    assert CountsAsWritten(s) == Record([], map[]);
    CountsSumToTotal(s);
  }
}
