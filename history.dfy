/**
 * The history list (components/MoodHistory.tsx): an edit buffer for one entry
 * at a time, and the entry it hands to the page's `onEditMood` on save.
 */
module History {
  import opened Wrappers
  import opened Entries
  import Page

  /** The largest value the intensity slider reaches (`max={10}`, `step={1}`). */
  const SliderMax: int := 10

  /** The view's own state: which entry is being edited, and the edit buffers. */
  class History {
    var editingId: Option<string>
    var editedMood: string
    var editedIntensity: int
    var editedNote: string

    /** The `useState` initial values. */
    constructor ()
      ensures editingId == None && editedMood == "" && editedIntensity == 5 && editedNote == ""
    {
      editingId := None;
      editedMood := "";
      editedIntensity := 5;
      editedNote := "";
    }

    /** `handleEdit(entry)`: put the entry in edit mode and load the buffers from it. */
    method Edit(entry: MoodEntry)
      modifies this
      ensures editingId == Some(entry.id)
      ensures editedMood == entry.mood && editedIntensity == entry.intensity && editedNote == entry.note
    {
      editingId := Some(entry.id);
      editedMood := entry.mood;
      editedIntensity := entry.intensity;
      editedNote := entry.note;
    }

    /** The mood input's `onChange`. */
    method EditMoodText(text: string)
      modifies this`editedMood
      ensures editedMood == text
    {
      editedMood := text;
    }

    /** The slider's `onValueChange`: a whole value no larger than 10, no smaller than the slider's lower end 0. */
    method SlideIntensity(value: int)
      requires 0 <= value <= SliderMax
      modifies this`editedIntensity
      ensures editedIntensity == value && editedIntensity <= SliderMax
    {
      editedIntensity := value;
    }

    /** The note's `onChange`. */
    method EditNoteText(text: string)
      modifies this`editedNote
      ensures editedNote == text
    {
      editedNote := text;
    }

    /**
     * `handleSave(id)`: the entry with that id, the date of the first list
     * entry with that id, and the buffered mood, intensity and note; edit mode
     * ends. The `!` on the `find` means an entry with the id must exist.
     */
    method Save(entries: seq<MoodEntry>, id: string) returns (edited: MoodEntry)
      requires HasId(entries, id)
      modifies this`editingId
      ensures FindById(entries, id).Some?
      ensures edited == MoodEntry(id, FindById(entries, id).value.date, editedMood, editedIntensity, editedNote)
      ensures editingId == None
    {
      var original := FindById(entries, id);
      edited := MoodEntry(id, original.value.date, editedMood, editedIntensity, editedNote);
      editingId := None;
    }

    /** `handleCancel`: edit mode ends and nothing is emitted. */
    method Cancel()
      modifies this`editingId
      ensures editingId == None
    {
      editingId := None;
    }

    /** The rows rendered in edit mode (`editingId === entry.id`); they all share the one `editingId`. */
    function RowsInEditMode(entries: seq<MoodEntry>): (rows: set<nat>)
      reads this
      ensures forall i: nat :: i in rows <==> i < |entries| && editingId == Some(entries[i].id)
      ensures forall i, j :: i in rows && j in rows ==> entries[i].id == entries[j].id
      ensures UniqueIds(entries) ==> |rows| <= 1
    {
      var rows := set i: nat | i < |entries| && editingId == Some(entries[i].id);
      AtMostOneRowInEditMode(entries, editingId, rows);
      rows
    }
  }

  /** With unique ids, at most one row carries the id being edited. */
  lemma AtMostOneRowInEditMode(entries: seq<MoodEntry>, editingId: Option<string>, rows: set<nat>)
    requires forall i :: i in rows ==> i < |entries| && editingId == Some(entries[i].id)
    ensures UniqueIds(entries) ==> |rows| <= 1
  {
    if UniqueIds(entries) && rows != {} {
      var a :| a in rows;
      assert forall b :: b in rows ==> entries[b].id == entries[a].id;
      assert rows == {a};
    }
  }

  /**
   * Saving and then replacing by id keeps the list's length and every entry's
   * id and position: the edited entries take the buffered mood, intensity and
   * note, the others stay as they were, and, when ids are unique, the edited
   * entry keeps its own date.
   */
  lemma SaveThenEditKeepsIdDateAndPosition(entries: seq<MoodEntry>, id: string, mood: string, intensity: int, note: string)
    requires HasId(entries, id)
    ensures FindById(entries, id).Some?
    ensures var r := ReplaceById(entries, MoodEntry(id, FindById(entries, id).value.date, mood, intensity, note));
      |r| == |entries| &&
      (forall i :: 0 <= i < |entries| ==> r[i].id == entries[i].id) &&
      (forall i :: 0 <= i < |entries| && entries[i].id == id ==> r[i].mood == mood && r[i].intensity == intensity && r[i].note == note) &&
      (forall i :: 0 <= i < |entries| && entries[i].id != id ==> r[i] == entries[i]) &&
      (UniqueIds(entries) ==> forall i :: 0 <= i < |entries| ==> r[i].date == entries[i].date)
  {
    var found := FindById(entries, id);
    var r := ReplaceById(entries, MoodEntry(id, found.value.date, mood, intensity, note));
    if UniqueIds(entries) {
      var k :| 0 <= k < |entries| && entries[k] == found.value && found.value.id == id;
      forall i | 0 <= i < |entries| ensures r[i].date == entries[i].date {
        if entries[i].id == id {
          assert i == k;
        }
      }
    }
  }

  /** The wiring `onEditMood={handleEditMood}`: a save in the history view followed by the page's replace. */
  method SaveEdit(home: Page.Home, view: History, id: string)
    requires HasId(home.moodEntries, id)
    modifies home`moodEntries, view`editingId
    ensures FindById(old(home.moodEntries), id).Some?
    ensures home.moodEntries == ReplaceById(old(home.moodEntries),
              MoodEntry(id, FindById(old(home.moodEntries), id).value.date, view.editedMood, view.editedIntensity, view.editedNote))
    ensures view.editingId == None
  {
    var edited := view.Save(home.moodEntries, id);
    home.EditMood(edited);
  }
}
