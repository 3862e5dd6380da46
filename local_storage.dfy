/**
 * The local notes backend (notes_frontend/src/services/notes/local-storage.service.ts).
 * `create`, `update` and `remove` read the whole note list from one storage
 * slot, change it, and write the whole list back; `list` only reads, and an
 * `update` that fails writes nothing.
 */
module LocalStorageService {
  import opened Types
  import opened Text

  /** The message `update` throws for an id that is not stored. */
  const NotFoundMessage := "Note not found"

  /** What the storage slot under the key `notes_app__notes` holds, as far as reading it back can tell. */
  datatype Slot =
    | Missing                      // `getItem` finds nothing under the key
    | EmptyText                    // the stored string is empty
    | Unparsable                   // `JSON.parse` throws on the stored string
    | NotAnArray                   // the stored JSON is not an array
    | NoteArray(notes: seq<Note>)  // the stored JSON is an array of notes

  /**
   * `load`: the stored notes, failing open. Without storage, or with a slot
   * that is missing, empty, unparsable or not an array, the list is empty;
   * `load` never throws.
   */
  function Load(available: bool, slot: Slot): (notes: seq<Note>)
    ensures !available ==> notes == []
    ensures slot.Missing? || slot.EmptyText? || slot.Unparsable? || slot.NotAnArray? ==> notes == []
    ensures available && slot.NoteArray? ==> notes == slot.notes
  {
    if !available then []
    else
      match slot
      case Missing => []
      case EmptyText => []
      case Unparsable => []
      case NotAnArray => []
      case NoteArray(stored) => stored
  }

  /**
   * `save`: the slot after writing `notes`. Without storage it is a no-op;
   * otherwise loading afterwards gives back exactly `notes`.
   */
  function Saved(available: bool, slot: Slot, notes: seq<Note>): (r: Slot)
    ensures !available ==> r == slot
    ensures available ==> Load(available, r) == notes
  {
    if available then NoteArray(notes) else slot
  }

  /** `notes` is ordered newest first: no note was updated before a later one. */
  predicate NewestFirst(notes: seq<Note>) {
    forall p, q :: 0 <= p < q < |notes| ==> !Less(notes[p].updatedAt, notes[q].updatedAt)
  }

  /** Every stored title and content is trimmed. */
  predicate AllTrimmed(notes: seq<Note>) {
    forall k :: 0 <= k < |notes| ==> IsTrimmed(notes[k].title) && IsTrimmed(notes[k].content)
  }

  /** The note `create` appends: trimmed fields, the given id and the two clock readings. */
  function NewNote(input: NoteInput, id: string, createdAt: string, updatedAt: string): (n: Note)
    ensures n.id == id && n.createdAt == createdAt && n.updatedAt == updatedAt
    ensures IsTrimmed(n.title) && IsTrimmed(n.content)
    ensures Trim(input.title) == n.title && Trim(input.content) == n.content
  {
    Note(id, Trim(input.title), Trim(input.content), createdAt, updatedAt)
  }

  /**
   * The note `update` writes back: the patch's title and content if given,
   * else the old ones, both trimmed; `id` and `createdAt` kept; `updatedAt`
   * set to the clock reading, whatever the patch says about it.
   */
  function Patched(note: Note, patch: NotePatch, now: string): (r: Note)
    ensures r.id == note.id && r.createdAt == note.createdAt && r.updatedAt == now
    ensures IsTrimmed(r.title) && IsTrimmed(r.content)
    ensures r.title == Trim(patch.title.OrElse(note.title))
    ensures r.content == Trim(patch.content.OrElse(note.content))
  {
    Note(note.id,
         Trim(patch.title.OrElse(note.title)),
         Trim(patch.content.OrElse(note.content)),
         note.createdAt,
         now)
  }

  /** The `updatedAt` field of a patch has no effect: the clock reading wins. */
  lemma PatchedIgnoresUpdatedAt(note: Note, patch: NotePatch, stamp: Option<string>, now: string)
    ensures Patched(note, patch.(updatedAt := stamp), now) == Patched(note, patch, now)
  {
  }

  /**
   * Re-saving a note whose title and content are already trimmed with an
   * empty patch changes nothing but `updatedAt`.
   */
  lemma ResaveTrimmed(note: Note, now: string)
    requires IsTrimmed(note.title) && IsTrimmed(note.content)
    ensures Patched(note, EmptyPatch, now) == note.(updatedAt := now)
  {
    TrimOfTrimmed(note.title);
    TrimOfTrimmed(note.content);
  }

  /** Patching twice with the same fields gives what patching once gives, bar the clock. */
  lemma PatchedTwice(note: Note, patch: NotePatch, now1: string, now2: string)
    ensures Patched(Patched(note, patch, now1), patch, now2) == Patched(note, patch, now2)
  {
    var once := Patched(note, patch, now1);
    TrimIdempotent(patch.title.OrElse(note.title));
    TrimIdempotent(patch.content.OrElse(note.content));
    if patch.title.None? { TrimOfTrimmed(once.title); }
    if patch.content.None? { TrimOfTrimmed(once.content); }
  }

  /** The index `findIndex` returns: the first note carrying `id`, or -1. */
  ghost function IndexOfId(notes: seq<Note>, id: string): (i: int)
    ensures -1 <= i < |notes|
    ensures i == -1 <==> !HasId(notes, id)
    ensures 0 <= i ==> notes[i].id == id && forall k :: 0 <= k < i ==> notes[k].id != id
    decreases |notes|
  {
    if notes == [] then -1
    else if notes[0].id == id then 0
    else
      var i := IndexOfId(notes[1..], id);
      assert forall k :: 0 < k < |notes| ==> notes[k] == notes[1..][k - 1];
      if i == -1 then -1 else i + 1
  }

  /** `filter((n) => n.id !== id)`: the notes whose id differs, in their order. */
  function WithoutId(notes: seq<Note>, id: string): (r: seq<Note>)
    ensures |r| <= |notes|
    ensures forall n :: n in r <==> n in notes && n.id != id
    ensures !HasId(r, id)
    decreases |notes|
  {
    if notes == [] then []
    else if notes[0].id == id then WithoutId(notes[1..], id)
    else [notes[0]] + WithoutId(notes[1..], id)
  }

  /** Filtering works piecewise, so it keeps the order of what it keeps. */
  lemma {:induction false} WithoutIdAppend(a: seq<Note>, b: seq<Note>, id: string)
    ensures WithoutId(a + b, id) == WithoutId(a, id) + WithoutId(b, id)
    decreases |a|
  {
    if a == [] {
      assert a + b == b;
    } else {
      assert (a + b)[0] == a[0];
      assert (a + b)[1..] == a[1..] + b;
      WithoutIdAppend(a[1..], b, id);
    }
  }

  /** Removing an id that is not stored leaves the list as it is. */
  lemma {:induction false} WithoutAbsentId(notes: seq<Note>, id: string)
    requires !HasId(notes, id)
    ensures WithoutId(notes, id) == notes
    decreases |notes|
  {
    if notes != [] {
      assert notes[0].id != id;
      assert !HasId(notes[1..], id) by {
        forall k | 0 <= k < |notes[1..]| ensures notes[1..][k].id != id {
          assert notes[1..][k] == notes[k + 1];
        }
      }
      WithoutAbsentId(notes[1..], id);
      assert notes == [notes[0]] + notes[1..];
    }
  }

  /** Removing twice is removing once. */
  lemma WithoutIdIdempotent(notes: seq<Note>, id: string)
    ensures WithoutId(WithoutId(notes, id), id) == WithoutId(notes, id)
  {
    WithoutAbsentId(WithoutId(notes, id), id);
  }

  /** Every stored copy of a note with another id survives removal; every copy with this id goes. */
  lemma {:induction false} WithoutIdCounts(notes: seq<Note>, id: string, n: Note)
    ensures multiset(WithoutId(notes, id))[n] == if n.id == id then 0 else multiset(notes)[n]
    decreases |notes|
  {
    if notes != [] {
      WithoutIdCounts(notes[1..], id, n);
      assert notes == [notes[0]] + notes[1..];
      assert multiset(notes) == multiset{notes[0]} + multiset(notes[1..]);
      if notes[0].id != id {
        assert WithoutId(notes, id) == [notes[0]] + WithoutId(notes[1..], id);
        assert multiset(WithoutId(notes, id)) == multiset{notes[0]} + multiset(WithoutId(notes[1..], id));
      }
    }
  }

  /** Removing the id of a note just appended, when that id was unused, restores the list. */
  lemma RemoveUndoesCreate(notes: seq<Note>, created: Note)
    requires !HasId(notes, created.id)
    ensures WithoutId(notes + [created], created.id) == notes
  {
    WithoutIdAppend(notes, [created], created.id);
    WithoutAbsentId(notes, created.id);
    assert WithoutId([created], created.id) == [];
  }

  /** Replacing one note by a trimmed one keeps every note trimmed. */
  lemma ReplacedAllTrimmed(notes: seq<Note>, i: nat, n: Note)
    requires i < |notes|
    requires IsTrimmed(n.title) && IsTrimmed(n.content)
    ensures AllTrimmed(notes) ==> AllTrimmed(notes[i := n])
  {
  }

  /**
   * `LocalStorageNotesService` together with the storage slot it works on.
   * `available` says whether the runtime has `localStorage` at all.
   */
  class LocalStorageNotesService {
    const available: bool
    var slot: Slot

    constructor (available: bool, slot: Slot)
      ensures this.available == available && this.slot == slot
    {
      this.available := available;
      this.slot := slot;
    }

    /** The notes a fresh `load` sees. */
    function Notes(): seq<Note>
      reads this
    {
      Load(available, slot)
    }

    /** `save`: overwrite the slot with `notes`. */
    method Save(notes: seq<Note>)
      modifies this
      ensures slot == Saved(available, old(slot), notes)
    {
      if available {
        slot := NoteArray(notes);
      }
    }

    /**
     * `list`: the loaded notes sorted newest first by `updatedAt`. The slot
     * is not written.
     */
    method List() returns (sorted: seq<Note>)
      ensures multiset(sorted) == multiset(Notes())
      ensures NewestFirst(sorted)
    {
      var notes := Notes();
      var a := new Note[|notes|](i requires 0 <= i < |notes| => notes[i]);
      assert a[..] == notes;
      SortNewestFirst(a);
      sorted := a[..];
    }

    /**
     * `create`: append a note with trimmed fields, the generated `id` and the
     * two clock readings (`nowIso` is called once per timestamp), and return it.
     * No check is made that `id` is unused.
     */
    method Create(input: NoteInput, id: string, createdAt: string, updatedAt: string) returns (created: Note)
      modifies this
      ensures created == NewNote(input, id, createdAt, updatedAt)
      ensures slot == Saved(available, old(slot), old(Notes()) + [created])
      ensures available ==> Notes() == old(Notes()) + [created]
      ensures AllTrimmed(old(Notes())) ==> AllTrimmed(Notes())
    {
      var notes := Notes();
      created := NewNote(input, id, createdAt, updatedAt);
      notes := notes + [created];
      Save(notes);
    }

    /**
     * `update`: patch the first note carrying `id` in place. An unknown id
     * fails with "Note not found" and writes nothing.
     */
    method Update(id: string, patch: NotePatch, now: string) returns (r: Result<Note, string>)
      modifies this
      ensures !HasId(old(Notes()), id) ==> r == Err(NotFoundMessage) && slot == old(slot)
      ensures HasId(old(Notes()), id) ==>
        var i := IndexOfId(old(Notes()), id);
        && r == Ok(Patched(old(Notes())[i], patch, now))
        && slot == NoteArray(old(Notes())[i := r.value])
      ensures AllTrimmed(old(Notes())) ==> AllTrimmed(Notes())
    {
      var notes := Notes();
      var idx := FindIndex(notes, id);
      if idx == -1 {
        return Err(NotFoundMessage);
      }
      var updated := Patched(notes[idx], patch, now);
      ReplacedAllTrimmed(notes, idx, updated);
      Save(notes[idx := updated]);
      r := Ok(updated);
    }

    /** `remove`: keep exactly the notes whose id differs. */
    method Remove(id: string)
      modifies this
      ensures slot == Saved(available, old(slot), WithoutId(old(Notes()), id))
      ensures AllTrimmed(old(Notes())) ==> AllTrimmed(Notes())
    {
      var notes := Notes();
      var next := WithoutId(notes, id);
      Save(next);
    }
  }

  /** `findIndex((n) => n.id === id)`: the first position holding `id`, or -1. */
  method FindIndex(notes: seq<Note>, id: string) returns (idx: int)
    ensures idx == IndexOfId(notes, id)
  {
    var k := 0;
    while k < |notes|
      invariant 0 <= k <= |notes|
      invariant forall j :: 0 <= j < k ==> notes[j].id != id
    {
      if notes[k].id == id {
        return k;
      }
      k := k + 1;
    }
    return -1;
  }

  /** The first `n` notes are ordered newest first. */
  predicate NewestFirstUpTo(notes: seq<Note>, n: nat)
    requires n <= |notes|
  {
    forall p, q :: 0 <= p < q < n ==> !Less(notes[p].updatedAt, notes[q].updatedAt)
  }

  /**
   * `sort((a, b) => b.updatedAt.localeCompare(a.updatedAt))` in place: a
   * stable insertion sort that moves a note ahead only past notes updated
   * strictly earlier.
   */
  method SortNewestFirst(a: array<Note>)
    modifies a
    ensures NewestFirst(a[..])
    ensures multiset(a[..]) == old(multiset(a[..]))
  {
    var i := 0;
    while i < a.Length
      invariant 0 <= i <= a.Length
      invariant NewestFirstUpTo(a[..], i)
      invariant multiset(a[..]) == old(multiset(a[..]))
    {
      InsertNewest(a, i);
      i := i + 1;
    }
  }

  /** One insertion step: move `a[i]` ahead past the notes updated strictly before it. */
  method InsertNewest(a: array<Note>, i: nat)
    requires i < a.Length
    requires NewestFirstUpTo(a[..], i)
    modifies a
    ensures NewestFirstUpTo(a[..], i + 1)
    ensures multiset(a[..]) == old(multiset(a[..]))
  {
    var j := i;
    while j > 0 && Less(a[j - 1].updatedAt, a[j].updatedAt)
      invariant 0 <= j <= i
      invariant forall p, q :: 0 <= p < q <= i && p != j && q != j ==> !Less(a[p].updatedAt, a[q].updatedAt)
      invariant forall q :: j < q <= i ==> Less(a[q].updatedAt, a[j].updatedAt)
      invariant multiset(a[..]) == old(multiset(a[..]))
    {
      a[j - 1], a[j] := a[j], a[j - 1];
      j := j - 1;
    }
    forall p, q | 0 <= p < q <= i
      ensures !Less(a[p].updatedAt, a[q].updatedAt)
    {
      if p == j {
        LessAsymmetric(a[q].updatedAt, a[j].updatedAt);
      } else if q == j && p < j - 1 {
        NotLessTransitive(a[p].updatedAt, a[j - 1].updatedAt, a[j].updatedAt);
      }
    }
  }
}
