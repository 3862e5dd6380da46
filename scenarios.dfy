/**
 * Client-side consequences of the backend contracts: the behaviour a user of
 * the notes service can count on, derived from the specifications alone.
 */
module Scenarios {
  import opened Types
  import opened Text
  import opened LocalStorageService
  import opened ApiService

  /** A list with the same elements as a one-note list is that list. */
  lemma SingletonPermutation(s: seq<Note>, n: Note)
    requires multiset(s) == multiset([n])
    ensures s == [n]
  {
    assert |s| == |multiset(s)| == 1;
    assert s[0] in multiset(s);
  }

  /** A two-note list holding the same notes as `[x, y]`, newest first, with `y` newer, is `[y, x]`. */
  lemma PairPermutation(s: seq<Note>, x: Note, y: Note)
    requires Less(x.updatedAt, y.updatedAt)
    requires multiset(s) == multiset([x, y])
    requires NewestFirst(s)
    ensures s == [y, x]
  {
    LessIrreflexive(x.updatedAt);
    assert |s| == |multiset(s)| == 2;
    assert s == [s[0], s[1]];
    assert multiset(s) == multiset{s[0], s[1]};
    if s[0] == x {
      assert false;
    }
  }

  /** The padded input of the scenario below trims to "A" and "B". */
  lemma PaddedInputTrims()
    ensures Trim(" A ") == "A" && Trim("B\n") == "B"
  {
    assert " A " == [' '] + "A" + [' '];
    TrimUnique([' '], "A", [' ']);
    assert "B\n" == [] + "B" + ['\n'];
    TrimUnique([], "B", ['\n']);
  }

  /**
   * On empty storage, creating {title: " A ", content: "B\n"} and listing
   * gives exactly the one note, with its fields trimmed.
   */
  method CreateThenListOnEmptyStorage(id: string, createdAt: string, updatedAt: string)
    returns (listed: seq<Note>)
    ensures listed == [Note(id, "A", "B", createdAt, updatedAt)]
  {
    PaddedInputTrims();
    var store := new LocalStorageNotesService(true, Missing);
    var created := store.Create(NoteInput(" A ", "B\n"), id, createdAt, updatedAt);
    listed := store.List();
    SingletonPermutation(listed, created);
  }

  /** With two stored notes updated at t1 before t2, listing puts the t2 note first. */
  method ListPutsNewestFirst(older: Note, newer: Note) returns (listed: seq<Note>)
    requires Less(older.updatedAt, newer.updatedAt)
    ensures listed == [newer, older]
  {
    var store := new LocalStorageNotesService(true, NoteArray([older, newer]));
    listed := store.List();
    PairPermutation(listed, older, newer);
  }

  /** Corrupt storage reads as empty, so an update fails and leaves the slot alone. */
  method UpdateOnCorruptStorage(id: string, patch: NotePatch, now: string)
    returns (r: Result<Note, string>, after: Slot)
    ensures r == Err("Note not found")
    ensures after == Unparsable
  {
    var store := new LocalStorageNotesService(true, Unparsable);
    r := store.Update(id, patch, now);
    after := store.slot;
  }

  /** Removing the same id twice leaves what the first removal left. */
  method RemoveTwice(available: bool, slot: Slot, id: string) returns (first: seq<Note>, second: seq<Note>)
    ensures first == second
    ensures !HasId(second, id)
  {
    var store := new LocalStorageNotesService(available, slot);
    store.Remove(id);
    first := store.Notes();
    store.Remove(id);
    second := store.Notes();
    if available {
      WithoutAbsentId(first, id);
    }
  }

  /** A 404 whose body reads "not found" fails an API call with exactly that message. */
  lemma NotFoundBodyBecomesMessage(reply: Reply<Note>)
    requires reply == Response(404, Some("not found"), None)
    ensures FetchJson(reply) == Err(RequestFailed("not found"))
  {
  }
}
