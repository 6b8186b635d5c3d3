# In-memory notes store

A model of the in-memory variant of a small notes REST service (`index.js`).
The server keeps one module-level array of notes, seeded with ids 1, 2 and 3.
Its route handlers create a note (`POST /api/notes`), list all notes, look one
up by id and delete by id. New ids are "largest existing id + 1".

- `wrappers.dfy`: `Option`, used for absent request fields, failed lookups and
  the id generator that can throw.
- `notes.dfy` (module `Notes`): the `Note` record, the seed collection, the
  invariant the store keeps (`WellFormed`: distinct positive ids, non-empty
  content), and the pure expressions of the source. These are the two id
  generators (`generateId` with `Math.max(...ids)`, `generateId2` with
  `reduce`), `find` by id and `filter` by id. Lemmas about them are here too.
- `store.dfy` (module `Api`): the `NoteStore` class. Its `notes` field is the
  reassigned module-level array. Its methods are the handlers, each returning
  a status code and a body.

The handler that creates notes uses `generateId2`. That function calls
`reduce` with no initial value, which throws a TypeError on an empty array.
The express framework answers an exception thrown inside a handler with status
500, and the array is not reassigned. Delete can empty the store, so this case
is reachable: `Api.DeleteAllThenCreate` shows it. So `Create` on an empty store
with valid content answers 500 here. The unused `generateId`
(index.js:107-113) would have given id 1 there through its `: 0` fallback,
and the comment at index.js:120 notes that `generateId2` makes no such check.
This model follows the generator the handler calls.

## Model

| member | source | states |
|---|---|---|
| `Notes.SeedWellFormed` | index.js:25-44 | the three seed notes have distinct positive ids and non-empty content |
| `Notes.Ids` | index.js:124 | `notes.map(n => n.id)` has one entry per note, the id of the note at the same position |
| `Notes.Max` | index.js:125 | `Math.max(prev, curr)` is at least both arguments and equal to one of them |
| `Notes.ReduceMax` | index.js:123-125 | the `reduce` of `Math.max` is at least its starting value and every later id, and is one of them |
| `Notes.MaxOf` | index.js:108-110 | `Math.max` over a non-empty id list is one of the ids and no id exceeds it |
| `Notes.GenerateId` | index.js:107-113 | 1 on an empty collection; otherwise one more than some note's id and greater than every id |
| `Notes.GenerateId2` | index.js:122-126 | has no value exactly when the collection is empty (reduce without an initial value throws) |
| `Notes.ReduceMaxIsMax` | index.js:123-125 | folding `Math.max` from the left over the ids gives their maximum |
| `Notes.GenerateIdsAgree` | index.js:107-126 | on any non-empty collection both generators return the same id |
| `Notes.GeneratedIdIsFresh` | index.js:63-70 | the generated id matches no existing note and is positive; appending a note with it and non-empty content keeps the collection well formed |
| `Notes.Find` | index.js:76 | a found note is in the collection and has the requested id |
| `Notes.FindFirst` | index.js:76 | lookup returns the first note with the requested id |
| `Notes.FindNone` | index.js:76-82 | lookup finds nothing if and only if no note has the requested id |
| `Notes.Without` | index.js:87 | no remaining note has the id, every remaining note was in the collection, and none is added |
| `Notes.WithoutCounts` | index.js:87 | every note with the id is removed and every other note keeps its number of occurrences |
| `Notes.WithoutAppend` | index.js:87 | filtering a concatenation filters each part, so kept notes keep their relative order |
| `Notes.WithoutNoMatch` | index.js:87 | removing an id no note has leaves the collection unchanged |
| `Notes.WithoutIdempotent` | index.js:85-90 | deleting the same id twice leaves the same collection as deleting it once |
| `Notes.WithoutWellFormed` | index.js:87 | removal keeps ids distinct and positive and contents non-empty |
| `Notes.FindAppended` | index.js:63-76 | after a note with a fresh id is appended, lookup by that id returns it |
| `Notes.FindAfterWithout` | index.js:74-90 | after deleting an id, lookup by that id finds nothing |
| `Notes.SeedDeletedIsEmpty` | index.js:85-90 | deleting ids 1, 2 and 3 from the seed collection leaves it empty |
| `Api.NoteStore.constructor` | index.js:25-44 | the store starts with exactly the seed notes and is well formed |
| `Api.NoteStore.ListAll` | index.js:50-52 | answers 200 with the whole collection |
| `Api.NoteStore.Create` | index.js:54-72 | falsy content (`Api.Truthy` fails: content absent or empty, index.js:57) gives 400 "content missing" and an empty store gives 500, both leaving the store unchanged; otherwise 200 with a note appended at the end: id max+1 (above every existing id), the given content and date, `important` true only when the body says true; the invariant is kept |
| `Api.NoteStore.Get` | index.js:74-83 | 200 with the first note with the id, or 404 with no body when none has it; the store is unchanged |
| `Api.NoteStore.Delete` | index.js:85-90 | always 204; the collection becomes the filtered one, with no note with the id left; the invariant is kept |
| `Api.DeleteAllThenCreate` | index.js:120-126 | deleting ids 1, 2 and 3 from a fresh store and then creating a note answers 500 |

## Left out

- Express setup, JSON body parsing, CORS, the request logger, the `GET /` greeting, the unknown-endpoint responder and `app.listen`: framework plumbing and console output with no logic over the store.
- `Number(request.params.id)`: ids are taken as integers. A non-numeric or fractional parameter becomes NaN or a fraction in the source and matches no note; that coercion is not modelled.
- `new Date()`: the creation date is a parameter of `Create`, since it is a clock read.
- Request bodies whose `content` or `important` is not a string or a boolean: `content` is an optional string (absent or empty counts as falsy) and `important` an optional boolean.
- The 500 answer is the framework's default error handling, which is not part of this model; it is shown as status 500 with the thrown error's message.
- JavaScript numbers are doubles; ids here are unbounded integers, so precision loss above 2^53 and the argument-count limit of `Math.max(...ids)` are not modelled.
- Concurrent requests: handlers run one at a time, so the duplicate-id race of interleaved creates is not modelled.
