/** The records shared by both notes backends (notes_frontend/src/services/notes/types.ts). */
module Types {

  /** A value that may be absent: `undefined`/`null` in the source. */
  datatype Option<+T> = None | Some(value: T) {
    /** The `??` operator: the carried value, or `default` when absent. */
    function OrElse(default: T): T {
      match this
      case Some(v) => v
      case None => default
    }
  }

  /** The outcome of an operation that may throw: the value, or the error it throws. */
  datatype Result<+T, +E> = Ok(value: T) | Err(error: E)

  /** A stored note. Timestamps are ISO-8601 strings, kept as opaque text. */
  datatype Note = Note(
    id: string,
    title: string,
    content: string,
    createdAt: string,
    updatedAt: string)

  /** The argument of `create`: a note without id and timestamps. */
  datatype NoteInput = NoteInput(title: string, content: string)

  /** The argument of `update`: every field of a note except `id` and `createdAt`, each optional. */
  datatype NotePatch = NotePatch(
    title: Option<string>,
    content: Option<string>,
    updatedAt: Option<string>)

  /** The patch that sets no field. */
  const EmptyPatch := NotePatch(None, None, None)

  /** Some note in `notes` carries `id`. */
  predicate HasId(notes: seq<Note>, id: string) {
    exists k :: 0 <= k < |notes| && notes[k].id == id
  }
}
