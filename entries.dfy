/**
 * The single persisted entity of the mood tracker, `MoodEntry`, and the list
 * operations the application performs on the ordered entry list: JavaScript's
 * `Array.prototype.find` (first match in list order), `filter`, the prepend
 * used when a mood is added and the `map`-based replace used when one is edited.
 */
module Entries {
  import opened Wrappers

  /** An instant (the ISO-8601 timestamp of `MoodEntry.date`), as milliseconds since the epoch. */
  type Instant = int

  /** A calendar day in the viewer's local time zone, as a day number. */
  type Day = int

  /** The record stored for one mood observation. */
  datatype MoodEntry = MoodEntry(id: string, date: Instant, mood: string, intensity: int, note: string)

  /** `s.find(p)`: the first element of `s`, in list order, that satisfies `p`. */
  function Find<T>(s: seq<T>, p: T -> bool): (r: Option<T>)
    ensures r.None? <==> forall i :: 0 <= i < |s| ==> !p(s[i])
    ensures r.Some? ==> exists i :: 0 <= i < |s| && s[i] == r.value && p(s[i]) && forall j :: 0 <= j < i ==> !p(s[j])
  {
    if |s| == 0 then None
    else if p(s[0]) then Some(s[0])
    else
      var r := Find(s[1..], p);
      assert forall i :: 1 <= i < |s| ==> s[i] == s[1..][i - 1];
      r
  }

  /** The elements of `s` that satisfy `q`, in their original order; used only to state which entries a view ignores. */
  function Filter<T>(s: seq<T>, q: T -> bool): (r: seq<T>)
    ensures |r| <= |s|
    ensures forall i :: 0 <= i < |r| ==> r[i] in s && q(r[i])
    ensures forall i :: 0 <= i < |s| && q(s[i]) ==> s[i] in r
  {
    if |s| == 0 then []
    else if q(s[0]) then [s[0]] + Filter(s[1..], q)
    else Filter(s[1..], q)
  }

  /** Finding with `p` is not affected by dropping elements that fail `q`, when `p` implies `q`. */
  lemma {:induction false} FindIgnoresFiltered<T>(s: seq<T>, p: T -> bool, q: T -> bool)
    requires forall x :: p(x) ==> q(x)
    ensures Find(Filter(s, q), p) == Find(s, p)
  {
    if |s| > 0 {
      FindIgnoresFiltered(s[1..], p, q);
      if q(s[0]) {
        assert ([s[0]] + Filter(s[1..], q))[1..] == Filter(s[1..], q);
      }
    }
  }

  /** The element put in front of a list is the first match whenever it matches. */
  lemma FindPrepended<T>(x: T, s: seq<T>, p: T -> bool)
    ensures Find([x] + s, p) == if p(x) then Some(x) else Find(s, p)
  {
    assert ([x] + s)[1..] == s;
  }

  /** The first entry, in list order, whose local day is `d` (the `find` with `isSameDay`). */
  function FirstOnDay(entries: seq<MoodEntry>, dayOf: Instant -> Day, d: Day): (r: Option<MoodEntry>)
    ensures r.None? <==> forall i :: 0 <= i < |entries| ==> dayOf(entries[i].date) != d
    ensures r.Some? ==> dayOf(r.value.date) == d
    ensures r.Some? ==> exists i :: 0 <= i < |entries| && entries[i] == r.value
                                   && forall j :: 0 <= j < i ==> dayOf(entries[j].date) != d
  {
    Find(entries, (e: MoodEntry) => dayOf(e.date) == d)
  }

  /** The entries whose local day lies in [lo, hi]. */
  function OnDays(entries: seq<MoodEntry>, dayOf: Instant -> Day, lo: Day, hi: Day): (r: seq<MoodEntry>)
    ensures forall e :: e in r <==> e in entries && lo <= dayOf(e.date) <= hi
  {
    Filter(entries, (e: MoodEntry) => lo <= dayOf(e.date) <= hi)
  }

  /** Entries on days outside [lo, hi] never change the first match for a day inside it. */
  lemma FirstOnDayIgnoresOtherDays(entries: seq<MoodEntry>, dayOf: Instant -> Day, lo: Day, hi: Day, d: Day)
    requires lo <= d <= hi
    ensures FirstOnDay(OnDays(entries, dayOf, lo, hi), dayOf, d) == FirstOnDay(entries, dayOf, d)
  {
    FindIgnoresFiltered(entries, (e: MoodEntry) => dayOf(e.date) == d, (e: MoodEntry) => lo <= dayOf(e.date) <= hi);
  }

  /** A newly prepended entry is the one found for its own day. */
  lemma FirstOnDayPrepended(e: MoodEntry, entries: seq<MoodEntry>, dayOf: Instant -> Day, d: Day)
    ensures FirstOnDay([e] + entries, dayOf, d) == if dayOf(e.date) == d then Some(e) else FirstOnDay(entries, dayOf, d)
  {
    FindPrepended(e, entries, (x: MoodEntry) => dayOf(x.date) == d);
  }

  /** The first entry carrying `id` (the `find` by id in the history view). */
  function FindById(entries: seq<MoodEntry>, id: string): (r: Option<MoodEntry>)
    ensures r.None? <==> forall i :: 0 <= i < |entries| ==> entries[i].id != id
    ensures r.Some? ==> exists i :: 0 <= i < |entries| && entries[i] == r.value && r.value.id == id
                                   && forall j :: 0 <= j < i ==> entries[j].id != id
  {
    Find(entries, (e: MoodEntry) => e.id == id)
  }

  predicate HasId(entries: seq<MoodEntry>, id: string) {
    exists i :: 0 <= i < |entries| && entries[i].id == id
  }

  /** Ids are unique within the list. */
  predicate UniqueIds(entries: seq<MoodEntry>) {
    forall i, j :: 0 <= i < |entries| && 0 <= j < |entries| && entries[i].id == entries[j].id ==> i == j
  }

  /** `[entry, ...entries]`: the entry goes in front, everything else moves back by one. */
  function Prepend(entry: MoodEntry, entries: seq<MoodEntry>): (r: seq<MoodEntry>)
    ensures |r| == |entries| + 1
    ensures r[0] == entry && r[1..] == entries
  {
    [entry] + entries
  }

  /** `entries.map(e => e.id === edited.id ? edited : e)`. */
  function ReplaceById(entries: seq<MoodEntry>, edited: MoodEntry): (r: seq<MoodEntry>)
    ensures |r| == |entries|
    ensures forall i :: 0 <= i < |entries| ==> r[i].id == entries[i].id
    ensures forall i :: 0 <= i < |entries| && entries[i].id == edited.id ==> r[i] == edited
    ensures forall i :: 0 <= i < |entries| && entries[i].id != edited.id ==> r[i] == entries[i]
  {
    seq(|entries|, i requires 0 <= i < |entries| => if entries[i].id == edited.id then edited else entries[i])
  }

  /** Replacing with an id that is not in the list leaves the list as it was. */
  lemma ReplaceUnknownIdIsNoOp(entries: seq<MoodEntry>, edited: MoodEntry)
    requires !HasId(entries, edited.id)
    ensures ReplaceById(entries, edited) == entries
  {
  }

  /** Applying the same edit twice is the same as applying it once. */
  lemma ReplaceByIdIdempotent(entries: seq<MoodEntry>, edited: MoodEntry)
    ensures ReplaceById(ReplaceById(entries, edited), edited) == ReplaceById(entries, edited)
  {
  }

  /** Replacing keeps the list's ids, hence their uniqueness. */
  lemma ReplaceByIdKeepsUniqueIds(entries: seq<MoodEntry>, edited: MoodEntry)
    requires UniqueIds(entries)
    ensures UniqueIds(ReplaceById(entries, edited))
  {
  }
}
