/** The notes service's route handlers, stripped of the HTTP framework, as
    operations on the one module-level collection they share. */
module Api {
  import opened Wrappers
  import opened Notes

  /** What a handler sends back after the status line. */
  datatype Body =
    | NoBody                      // `response.end()`
    | OneNote(note: Note)         // `response.json(note)`
    | AllNotes(notes: seq<Note>)  // `response.json(notes)`
    | ErrorJson(error: string)    // `response.json({ error })`
    | ServerError(reason: string) // the framework's default answer to an exception thrown in a handler

  datatype Response = Response(status: int, body: Body)

  const ContentMissing: string := "content missing"

  /** The TypeError that `reduce` without an initial value throws on an empty array. */
  const ReduceOfEmptyArray: string := "Reduce of empty array with no initial value"

  /** `!body.content` is false: the content is present and not the empty string. */
  predicate Truthy(content: Option<string>) {
    content.Some? && content.value != ""
  }

  /** The note store: the module-level `notes` array, reassigned by create and delete. */
  class NoteStore {
    var notes: seq<Note>

    ghost predicate Valid()
      reads this
    {
      WellFormed(notes)
    }

    /** The server starts with the three seed notes. */
    constructor ()
      ensures Valid() && notes == SeedNotes
    {
      notes := SeedNotes;
      SeedWellFormed();
    }

    /** GET /api/notes */
    method ListAll() returns (r: Response)
      ensures r.status == 200 && r.body == AllNotes(notes)
    {
      r := Response(200, AllNotes(notes));
    }

    /** POST /api/notes with body `{content, important}`. */
    method Create(content: Option<string>, important: Option<bool>, date: Date) returns (r: Response)
      requires Valid()
      modifies this
      ensures Valid()
      ensures !Truthy(content) ==> r == Response(400, ErrorJson(ContentMissing))
      ensures Truthy(content) && |old(notes)| == 0 ==> r == Response(500, ServerError(ReduceOfEmptyArray))
      ensures r.status == 200 <==> Truthy(content) && |old(notes)| > 0
      ensures r.status != 200 ==> notes == old(notes)
      ensures r.status == 200 ==>
        && r.body.OneNote?
        && notes == old(notes) + [r.body.note]
        && r.body.note == Note(GenerateId(old(notes)), content.value, date, important == Some(true))
        && forall k :: 0 <= k < |old(notes)| ==> old(notes)[k].id < r.body.note.id
    {
      if !Truthy(content) {
        return Response(400, ErrorJson(ContentMissing));
      }
      var id := GenerateId2(notes);
      if id.None? {
        return Response(500, ServerError(ReduceOfEmptyArray));
      }
      GenerateIdsAgree(notes);
      var note := Note(id.value, content.value, date, important == Some(true));
      GeneratedIdIsFresh(notes, note.content, date, note.important);
      notes := notes + [note];
      r := Response(200, OneNote(note));
    }

    /** GET /api/notes/:id */
    method Get(id: int) returns (r: Response)
      ensures Find(notes, id).Some? ==> r == Response(200, OneNote(Find(notes, id).value))
      ensures Find(notes, id).None? ==> r == Response(404, NoBody)
    {
      var found := Find(notes, id);
      if found.Some? {
        r := Response(200, OneNote(found.value));
      } else {
        r := Response(404, NoBody);
      }
    }

    /** DELETE /api/notes/:id: answers 204 whether or not a note had the id. */
    method Delete(id: int) returns (r: Response)
      requires Valid()
      modifies this
      ensures Valid()
      ensures r == Response(204, NoBody)
      ensures notes == Without(old(notes), id)
      ensures forall k :: 0 <= k < |notes| ==> notes[k].id != id
    {
      WithoutWellFormed(notes, id);
      notes := Without(notes, id);
      r := Response(204, NoBody);
    }
  }

  /** Once every seed note has been deleted, creating a note fails: the
      id generator in use has nothing to reduce. */
  method DeleteAllThenCreate(date: Date) returns (r: Response)
    ensures r == Response(500, ServerError(ReduceOfEmptyArray))
  {
    var store := new NoteStore();
    var gone := store.Delete(1);
    gone := store.Delete(2);
    gone := store.Delete(3);
    SeedDeletedIsEmpty();
    r := store.Create(Some("test"), None, date);
  }
}
