/**
 * The fixed palette of the mood picker (components/MoodSelector.tsx): nine
 * moods, each shown as a button that hands `${emoji} ${name}` to the page.
 */
module Selector {

  /** One row of the palette (`name` is the source's `label`, a reserved word here); `color` is the button's background. */
  datatype Mood = Mood(emoji: string, name: string, color: string)

  const Moods: seq<Mood> := [
    Mood("😊", "Happy", "#FFD700"),
    Mood("😐", "Neutral", "#A9A9A9"),
    Mood("😢", "Sad", "#4169E1"),
    Mood("😠", "Angry", "#FF4500"),
    Mood("😴", "Tired", "#8E44AD"),
    Mood("😰", "Anxious", "#2ECC71"),
    Mood("😌", "Relaxed", "#3498DB"),
    Mood("🥳", "Excited", "#E74C3C"),
    Mood("🤔", "Confused", "#F39C12")
  ]

  /** The template string `${emoji} ${name}`: the emoji, one space, then the name. */
  function MoodString(m: Mood): string {
    m.emoji + " " + m.name
  }

  /** The emitted string splits back at position |emoji| into the emoji, a space and the label. */
  lemma MoodStringParts(m: Mood)
    ensures |MoodString(m)| == |m.emoji| + 1 + |m.name|
    ensures MoodString(m)[..|m.emoji|] == m.emoji && MoodString(m)[|m.emoji|] == ' '
    ensures MoodString(m)[|m.emoji| + 1..] == m.name
  {
  }

  /** What the button of row `k` passes to `onSelectMood`. */
  function Emitted(k: nat): (r: string)
    requires k < |Moods|
    ensures r != [] && ' ' in r
  {
    MoodString(Moods[k])
  }

  predicate NoSpace(s: string) {
    ' ' !in s
  }

  /** The palette has nine rows with non-empty, space-free emoji and labels, and no name twice (labels are the button keys). */
  lemma MoodTableWellFormed()
    ensures |Moods| == 9
    ensures forall k :: 0 <= k < |Moods| ==> Moods[k].emoji != [] && Moods[k].name != []
    ensures forall k :: 0 <= k < |Moods| ==> NoSpace(Moods[k].emoji) && NoSpace(Moods[k].name)
    ensures forall i, j :: 0 <= i < j < |Moods| ==> Moods[i].name != Moods[j].name
  {
  }

  /** The strings the first `n` palette buttons can emit. */
  function EmittedUpTo(n: nat): set<string>
    requires n <= |Moods|
  {
    set k | 0 <= k < n :: Emitted(k)
  }

  /** The palette emits exactly nine different strings, one per row. */
  lemma {:induction false} EmittedCount(n: nat)
    requires n <= |Moods|
    ensures |EmittedUpTo(n)| == n
  {
    if n > 0 {
      EmittedCount(n - 1);
      EmittedStringsDistinct();
      assert EmittedUpTo(n) == EmittedUpTo(n - 1) + {Emitted(n - 1)};
      assert Emitted(n - 1) !in EmittedUpTo(n - 1);
    }
  }

  /** Different rows emit different strings, because the labels differ and no emoji holds a space. */
  lemma EmittedStringsDistinct()
    ensures forall i, j :: 0 <= i < j < |Moods| ==> Emitted(i) != Emitted(j)
  {
    MoodTableWellFormed();
    forall i, j | 0 <= i < j < |Moods| ensures Emitted(i) != Emitted(j) {
      if Emitted(i) == Emitted(j) {
        SameStringSameMood(Moods[i], Moods[j]);
      }
    }
  }

  /** With space-free emoji, the emitted string determines both emoji and label. */
  lemma SameStringSameMood(a: Mood, b: Mood)
    requires NoSpace(a.emoji) && NoSpace(b.emoji)
    requires MoodString(a) == MoodString(b)
    ensures a.emoji == b.emoji && a.name == b.name
  {
    MoodStringParts(a);
    MoodStringParts(b);
  }
}
