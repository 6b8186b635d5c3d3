/** The note record of the in-memory notes service, the seed collection, and
    the pure computations the route handlers run over the collection: the two
    id generators, lookup by id (`Array.prototype.find`) and removal by id
    (`Array.prototype.filter`). */
module Notes {
  import opened Wrappers

  /** A creation timestamp. The seed notes carry ISO-8601 text; a created
      note carries whatever the server clock gave, passed in from outside. */
  type Date = string

  datatype Note = Note(id: int, content: string, date: Date, important: bool)

  /** The collection the server starts with. */
  const SeedNotes: seq<Note> := [
    Note(1, "HTML is easy", "2022-05-30T17:30:31.098Z", true),
    Note(2, "Browser can execute only Javascript", "2022-05-30T18:39:34.091Z", false),
    Note(3, "GET and POST are the most important methods of HTTP protocol", "2022-05-30T19:20:14.298Z", true)
  ]

  /** No two notes share an id. */
  ghost predicate IdsDistinct(notes: seq<Note>) {
    forall i, j :: 0 <= i < j < |notes| ==> notes[i].id != notes[j].id
  }

  /** What the store keeps true of its collection: distinct positive ids and
      no empty content. */
  ghost predicate WellFormed(notes: seq<Note>) {
    && IdsDistinct(notes)
    && forall k :: 0 <= k < |notes| ==> notes[k].id > 0 && notes[k].content != ""
  }

  lemma SeedWellFormed()
    ensures WellFormed(SeedNotes)
  {
  }

  // ---------------------------------------------------------------------
  // Id generation
  // ---------------------------------------------------------------------

  /** `notes.map(n => n.id)` */
  function Ids(notes: seq<Note>): (ids: seq<int>)
    ensures |ids| == |notes|
    ensures forall k :: 0 <= k < |notes| ==> ids[k] == notes[k].id
  {
    if |notes| == 0 then [] else [notes[0].id] + Ids(notes[1..])
  }

  /** `Math.max(a, b)` on integers. */
  function Max(a: int, b: int): (m: int)
    ensures a <= m && b <= m
    ensures m == a || m == b
  {
    if a >= b then a else b
  }

  /** `Math.max(...xs)` for a non-empty list of integers. */
  function MaxOf(xs: seq<int>): (m: int)
    requires |xs| > 0
    ensures m in xs
    ensures forall k :: 0 <= k < |xs| ==> xs[k] <= m
  {
    if |xs| == 1 then xs[0] else Max(xs[0], MaxOf(xs[1..]))
  }

  /** `generateId`: one more than the largest id, or 1 for an empty collection. */
  function GenerateId(notes: seq<Note>): (id: int)
    ensures |notes| == 0 ==> id == 1
    ensures |notes| > 0 ==> exists k :: 0 <= k < |notes| && id == notes[k].id + 1
    ensures forall k :: 0 <= k < |notes| ==> notes[k].id < id
  {
    var maxId := if |notes| > 0 then MaxOf(Ids(notes)) else 0;
    maxId + 1
  }

  /** `xs.reduce((prev, curr) => Math.max(prev, curr))` once the first element
      has been taken as the starting `prev`. */
  function ReduceMax(prev: int, rest: seq<int>): (r: int)
    ensures prev <= r && forall k :: 0 <= k < |rest| ==> rest[k] <= r
    ensures r == prev || r in rest
    decreases |rest|
  {
    if |rest| == 0 then prev else ReduceMax(Max(prev, rest[0]), rest[1..])
  }

  /** `generateId2`: `1 + ids.reduce(max)`. A `reduce` without an initial
      value throws a TypeError on an empty array, so there is no id then. */
  function GenerateId2(notes: seq<Note>): (id: Option<int>)
    ensures id.None? <==> |notes| == 0
  {
    var ids := Ids(notes);
    if |ids| == 0 then None else Some(1 + ReduceMax(ids[0], ids[1..]))
  }

  /** Folding `Math.max` from the left gives the same value as the maximum of
      the whole list, starting value included. */
  lemma {:induction false} ReduceMaxIsMax(prev: int, rest: seq<int>)
    ensures ReduceMax(prev, rest) == MaxOf([prev] + rest)
    decreases |rest|
  {
    if |rest| > 0 {
      var p := Max(prev, rest[0]);
      ReduceMaxIsMax(p, rest[1..]);
      assert ([prev] + rest)[1..] == rest;
      assert ([p] + rest[1..])[1..] == rest[1..];
    }
  }

  /** On a non-empty collection the two generators agree. */
  lemma GenerateIdsAgree(notes: seq<Note>)
    requires |notes| > 0
    ensures GenerateId2(notes) == Some(GenerateId(notes))
  {
    var ids := Ids(notes);
    ReduceMaxIsMax(ids[0], ids[1..]);
    assert [ids[0]] + ids[1..] == ids;
  }

  /** A generated id matches no note of the collection, so adding a note with
      that id to a well-formed collection keeps it well formed. */
  lemma GeneratedIdIsFresh(notes: seq<Note>, content: string, date: Date, important: bool)
    requires WellFormed(notes) && content != ""
    ensures forall k :: 0 <= k < |notes| ==> notes[k].id != GenerateId(notes)
    ensures GenerateId(notes) > 0
    ensures WellFormed(notes + [Note(GenerateId(notes), content, date, important)])
  {
  }

  // ---------------------------------------------------------------------
  // Lookup: notes.find(n => n.id === id)
  // ---------------------------------------------------------------------

  function Find(notes: seq<Note>, id: int): (r: Option<Note>)
    ensures r.Some? ==> r.value in notes && r.value.id == id
  {
    if |notes| == 0 then None
    else if notes[0].id == id then Some(notes[0])
    else Find(notes[1..], id)
  }

  /** Lookup returns the first note with the id. */
  lemma {:induction false} FindFirst(notes: seq<Note>, id: int, i: int)
    requires 0 <= i < |notes| && notes[i].id == id
    requires forall k :: 0 <= k < i ==> notes[k].id != id
    ensures Find(notes, id) == Some(notes[i])
  {
    if i > 0 {
      FindFirst(notes[1..], id, i - 1);
    }
  }

  /** Lookup finds nothing exactly when no note has the id. */
  lemma {:induction false} FindNone(notes: seq<Note>, id: int)
    ensures Find(notes, id).None? <==> forall k :: 0 <= k < |notes| ==> notes[k].id != id
  {
    if |notes| > 0 && notes[0].id != id {
      FindNone(notes[1..], id);
      assert forall k :: 1 <= k < |notes| ==> notes[k] == notes[1..][k - 1];
    }
  }

  // ---------------------------------------------------------------------
  // Removal: notes.filter(note => note.id !== id)
  // ---------------------------------------------------------------------

  function Without(notes: seq<Note>, id: int): (r: seq<Note>)
    ensures |r| <= |notes|
    ensures forall k :: 0 <= k < |r| ==> r[k].id != id && r[k] in notes
  {
    if |notes| == 0 then []
    else (if notes[0].id != id then [notes[0]] else []) + Without(notes[1..], id)
  }

  /** Every note with the id goes; every other note stays, as often as it was there. */
  lemma {:induction false} WithoutCounts(notes: seq<Note>, id: int, n: Note)
    ensures multiset(Without(notes, id))[n] == if n.id == id then 0 else multiset(notes)[n]
  {
    if |notes| > 0 {
      var head: seq<Note> := if notes[0].id != id then [notes[0]] else [];
      WithoutCounts(notes[1..], id, n);
      assert Without(notes, id) == head + Without(notes[1..], id);
      assert multiset(Without(notes, id)) == multiset(head) + multiset(Without(notes[1..], id));
      assert notes == [notes[0]] + notes[1..];
      assert multiset(notes) == multiset([notes[0]]) + multiset(notes[1..]);
    }
  }

  /** Filtering works piecewise, so the kept notes keep their relative order. */
  lemma {:induction false} WithoutAppend(a: seq<Note>, b: seq<Note>, id: int)
    ensures Without(a + b, id) == Without(a, id) + Without(b, id)
  {
    if |a| > 0 {
      WithoutAppend(a[1..], b, id);
      assert (a + b)[1..] == a[1..] + b;
    } else {
      assert a + b == b;
    }
  }

  /** With no note to remove, the collection is unchanged. */
  lemma {:induction false} WithoutNoMatch(notes: seq<Note>, id: int)
    requires forall k :: 0 <= k < |notes| ==> notes[k].id != id
    ensures Without(notes, id) == notes
  {
    if |notes| > 0 {
      WithoutNoMatch(notes[1..], id);
      assert notes == [notes[0]] + notes[1..];
    }
  }

  /** Removing the same id twice is the same as removing it once. */
  lemma WithoutIdempotent(notes: seq<Note>, id: int)
    ensures Without(Without(notes, id), id) == Without(notes, id)
  {
    WithoutNoMatch(Without(notes, id), id);
  }

  /** Removal keeps the collection well formed. */
  lemma {:induction false} WithoutWellFormed(notes: seq<Note>, id: int)
    requires WellFormed(notes)
    ensures WellFormed(Without(notes, id))
  {
    if |notes| > 0 {
      var tail := Without(notes[1..], id);
      WithoutWellFormed(notes[1..], id);
      forall k | 0 <= k < |tail|
        ensures tail[k].id != notes[0].id
      {
        var j :| 0 <= j < |notes[1..]| && notes[1..][j] == tail[k];
        assert notes[j + 1] == tail[k];
      }
    }
  }

  // ---------------------------------------------------------------------
  // Lookup after create and delete
  // ---------------------------------------------------------------------

  /** A note appended under an id no other note has is what lookup by that id returns. */
  lemma FindAppended(notes: seq<Note>, note: Note)
    requires forall k :: 0 <= k < |notes| ==> notes[k].id != note.id
    ensures Find(notes + [note], note.id) == Some(note)
  {
    FindFirst(notes + [note], note.id, |notes|);
  }

  /** After removal by an id, lookup by that id finds nothing. */
  lemma FindAfterWithout(notes: seq<Note>, id: int)
    ensures Find(Without(notes, id), id) == None
  {
    FindNone(Without(notes, id), id);
  }

  /** Deleting ids 1, 2 and 3 from the seed collection empties it. */
  lemma SeedDeletedIsEmpty()
    ensures Without(Without(Without(SeedNotes, 1), 2), 3) == []
  {
    var s := SeedNotes;
    WithoutNoMatch(s[1..], 1);
    assert Without(s, 1) == s[1..];
    WithoutNoMatch(s[2..], 2);
    assert Without(s[1..], 2) == s[2..];
    assert Without(s[2..], 3) == [];
  }
}
