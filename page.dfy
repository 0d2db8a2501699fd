/**
 * The root page (app/page.tsx): the state of the add-mood flow and the entry
 * list, and the handlers that change it. The list is prepended to when a mood
 * is confirmed and rewritten by id when an entry is edited.
 */
module Page {
  import opened Wrappers
  import opened Entries

  /** The intensity buttons of the add dialog. */
  const IntensityLevels: seq<int> := [1, 2, 3, 4, 5, 6, 7, 8, 9, 10]

  /** The intensity the dialog starts from and returns to after each add. */
  const DefaultIntensity: int := 5

  /** The buttons offer exactly the intensities 1 to 10, the default among them. */
  lemma IntensityLevelsAreOneToTen()
    ensures forall v :: v in IntensityLevels <==> 1 <= v <= 10
    ensures DefaultIntensity in IntensityLevels
  {
  }

  /** The characters `String.prototype.trim` removes: ECMAScript WhiteSpace and LineTerminator. */
  predicate IsJsWhitespace(c: char) {
    c == '\t' || c == '\n' || c == '\U{000B}' || c == '\U{000C}' || c == '\r' || c == ' '
    || c == '\U{00A0}' || c == '\U{1680}' || ('\U{2000}' <= c <= '\U{200A}')
    || c == '\U{2028}' || c == '\U{2029}' || c == '\U{202F}' || c == '\U{205F}'
    || c == '\U{3000}' || c == '\U{FEFF}'
  }

  /** Some character of `s` is not whitespace. */
  predicate HasVisibleChar(s: string) {
    exists i :: 0 <= i < |s| && !IsJsWhitespace(s[i])
  }

  /** Drops leading whitespace. */
  function TrimStart(s: string): (r: string)
    ensures |r| <= |s| && r == s[|s| - |r|..]
    ensures forall i :: 0 <= i < |s| - |r| ==> IsJsWhitespace(s[i])
    ensures r != [] ==> !IsJsWhitespace(r[0])
  {
    if |s| > 0 && IsJsWhitespace(s[0]) then
      var r := TrimStart(s[1..]);
      assert forall i :: 0 < i < |s| - |r| ==> s[i] == s[1..][i - 1];
      r
    else s
  }

  /** Drops trailing whitespace. */
  function TrimEnd(s: string): (r: string)
    ensures |r| <= |s| && r == s[..|r|]
    ensures forall i :: |r| <= i < |s| ==> IsJsWhitespace(s[i])
    ensures r != [] ==> !IsJsWhitespace(r[|r| - 1])
  {
    if |s| > 0 && IsJsWhitespace(s[|s| - 1]) then
      var r := TrimEnd(s[..|s| - 1]);
      assert forall i :: |r| <= i < |s| - 1 ==> s[i] == s[..|s| - 1][i];
      r
    else s
  }

  /** `s.trim()`. */
  function Trim(s: string): string {
    TrimEnd(TrimStart(s))
  }

  /** `s.trim()` is empty, so falsy, exactly when every character of `s` is whitespace. */
  lemma TrimEmptyIff(s: string)
    ensures Trim(s) == [] <==> !HasVisibleChar(s)
  {
    var t := TrimStart(s);
    if t == [] {
      assert forall i :: 0 <= i < |s| ==> IsJsWhitespace(s[i]);
    } else {
      assert s[|s| - |t|] == t[0];
    }
  }

  /** The condition `if (customMood.trim())`: the trimmed text is non-empty, so truthy. */
  function IsSubmittable(s: string): (b: bool)
    ensures b <==> HasVisibleChar(s)
  {
    TrimEmptyIff(s);
    Trim(s) != ""
  }

  /** The state of the page component that the add and edit flows use. */
  class Home {
    var moodEntries: seq<MoodEntry>
    var customMood: string
    var intensity: int
    var note: string
    var selectedDate: Instant
    var selectedMood: Option<string>
    var showMoodDialog: bool

    /** The dialog's intensity is always one of the buttons' values. */
    ghost predicate Valid()
      reads this
    {
      intensity in IntensityLevels
    }

    /** The `useState` initial values; `now` is the `new Date()` the date picker starts from. */
    constructor (now: Instant)
      ensures Valid()
      ensures moodEntries == [] && customMood == "" && intensity == DefaultIntensity && note == ""
      ensures selectedDate == now && selectedMood == None && !showMoodDialog
    {
      moodEntries := [];
      customMood := "";
      intensity := DefaultIntensity;
      note := "";
      selectedDate := now;
      selectedMood := None;
      showMoodDialog := false;
    }

    /** `handleSelectMood`: remember the mood and open the dialog. */
    method SelectMood(mood: string)
      requires Valid()
      modifies this`selectedMood, this`showMoodDialog
      ensures Valid()
      ensures selectedMood == Some(mood) && showMoodDialog
    {
      selectedMood := Some(mood);
      showMoodDialog := true;
    }

    /** An intensity button: `setIntensity(level)` for one of `intensityLevels`. */
    method SelectIntensity(level: int)
      requires level in IntensityLevels
      modifies this`intensity
      ensures Valid() && intensity == level
    {
      intensity := level;
    }

    /** The note's `onChange`. */
    method EditNote(text: string)
      modifies this`note
      ensures note == text
    {
      note := text;
    }

    /** The custom-mood input's `onChange`. */
    method EditCustomMood(text: string)
      modifies this`customMood
      ensures customMood == text
    {
      customMood := text;
    }

    /** The date picker's `onSelect`: a cleared selection (`undefined`) keeps the previous date. */
    method PickDate(date: Option<Instant>)
      modifies this`selectedDate
      ensures selectedDate == if date.Some? then date.value else old(selectedDate)
    {
      if date.Some? {
        selectedDate := date.value;
      }
    }

    /** The dialog's `onOpenChange` and its Cancel button. */
    method SetDialogOpen(open: bool)
      modifies this`showMoodDialog
      ensures showMoodDialog == open
    {
      showMoodDialog := open;
    }

    /**
     * `handleAddMood` (Confirm): when a mood is selected (a non-empty string,
     * since `if (selectedMood)` is false for ""), put a new entry in front of
     * the list and reset the dialog; otherwise change nothing. `id` stands for
     * `Date.now().toString()`.
     */
    method AddMood(id: string)
      requires Valid()
      modifies this
      ensures Valid()
      ensures if old(selectedMood).Some? && old(selectedMood).value != "" then
          moodEntries == Prepend(MoodEntry(id, old(selectedDate), old(selectedMood).value, old(intensity), old(note)), old(moodEntries))
          && 1 <= moodEntries[0].intensity <= 10
          && note == "" && intensity == DefaultIntensity && selectedMood == None && !showMoodDialog
          && customMood == old(customMood) && selectedDate == old(selectedDate)
        else
          unchanged(this)
    {
      IntensityLevelsAreOneToTen();
      if selectedMood.Some? && selectedMood.value != "" {
        var newEntry := MoodEntry(id, selectedDate, selectedMood.value, intensity, note);
        moodEntries := Prepend(newEntry, moodEntries);
        note := "";
        intensity := DefaultIntensity;
        selectedMood := None;
        showMoodDialog := false;
      }
    }

    /**
     * `handleCustomMoodSubmit`: when the typed mood has a non-whitespace
     * character, select it as typed (untrimmed), open the dialog and clear the
     * input; otherwise change nothing.
     */
    method CustomMoodSubmit()
      requires Valid()
      modifies this
      ensures Valid()
      ensures if HasVisibleChar(old(customMood)) then
          selectedMood == Some(old(customMood)) && old(customMood) != "" && showMoodDialog && customMood == ""
          && moodEntries == old(moodEntries) && intensity == old(intensity) && note == old(note)
          && selectedDate == old(selectedDate)
        else
          unchanged(this)
    {
      if IsSubmittable(customMood) {
        selectedMood := Some(customMood);
        showMoodDialog := true;
        customMood := "";
      }
    }

    /** `handleEditMood`: every entry with the edited entry's id becomes the edited entry. */
    method EditMood(edited: MoodEntry)
      modifies this`moodEntries
      ensures moodEntries == ReplaceById(old(moodEntries), edited)
    {
      moodEntries := ReplaceById(moodEntries, edited);
    }
  }
}
