/** The in-memory note repository (10_ci_cd/99_hw/notestore/pkg/note/repo.go):
    notes keyed by ID and a counter for the next ID. `time.Now` is a reading
    of an abstract clock passed in by the caller; `range` over the map visits
    keys in an order passed in as well. */
module NoteStore {
  import opened Results
  import opened Text
  import opened Sorting
  import opened Collections

  /** The values of GetNotes' `parameter` that select an order. */
  const OrderById := "id"
  const OrderByText := "text"
  const OrderByCreated := "created_at"
  const OrderByUpdated := "updated_at"

  /** The message DeleteNote returns for an unknown ID. */
  const NoSuchNote := "Note with this ID doesn't exist"

  datatype Note = Note(id: int, text: string, createdAt: int, updatedAt: int)

  /** `lastId` is 0 in a fresh repository and afterwards one more than the
      last ID handed out. */
  datatype Repo = Repo(data: map<int, Note>, lastId: int)

  const Fresh := Repo(map[], 0)

  /** Every note is stored under its own ID, and every ID is positive and
      below the next one to be handed out. */
  predicate Valid(r: Repo) {
    forall id :: id in r.data ==> r.data[id].id == id && 1 <= id < r.lastId
  }

  /** How many notes CreateNote has made since the repository was fresh. */
  function Issued(r: Repo): int {
    if r.lastId == 0 then 0 else r.lastId - 1
  }

  // ---------------------------------------------------------------------------
  // Single-note operations
  // ---------------------------------------------------------------------------

  /** GetNote: the stored note, or nil. */
  function GetNote(r: Repo, id: int): (n: Option<Note>)
    ensures n.Some? <==> id in r.data
    ensures n.Some? ==> n.value in r.data.Values
    ensures Valid(r) && n.Some? ==> n.value.id == id
  {
    if id in r.data then Some(r.data[id]) else None
  }

  /** CreateNote: the new note takes the next ID (1 in a fresh repository)
      and the counter moves past it. The clock is read twice, once for each
      timestamp, so `created` and `updated` are two readings, the second
      taken after the first. In a valid repository the ID is above every
      stored ID. */
  function CreateNote(r: Repo, text: string, created: int, updated: int): (res: (Repo, Note))
    requires r.lastId >= 0
    ensures res.1.id == Issued(r) + 1 && res.1.id >= 1
    ensures res.1.text == text && res.1.createdAt == created && res.1.updatedAt == updated
    ensures res.0.data == r.data[res.1.id := res.1]
    ensures Issued(res.0) == Issued(r) + 1
    ensures Valid(r) ==> res.1.id !in r.data && (forall id :: id in r.data ==> id < res.1.id)
    ensures Valid(r) ==> Valid(res.0)
  {
    var id := if r.lastId == 0 then 1 else r.lastId;
    var n := Note(id, text, created, updated);
    (Repo(r.data[id := n], id + 1), n)
  }

  /** UpdateNote: nil and no change for an unknown ID; otherwise only that
      note's text and update time change. */
  function UpdateNote(r: Repo, id: int, text: string, now: int): (res: (Repo, Option<Note>))
    ensures id !in r.data ==> res == (r, None)
    ensures id in r.data ==>
              && res.1.Some?
              && res.1.value.text == text && res.1.value.updatedAt == now
              && res.1.value.id == r.data[id].id && res.1.value.createdAt == r.data[id].createdAt
              && res.0.data.Keys == r.data.Keys
              && res.0.data[id] == res.1.value
              && (forall k :: k in r.data && k != id ==> res.0.data[k] == r.data[k])
    ensures res.0.lastId == r.lastId
    ensures Valid(r) ==> Valid(res.0)
  {
    if id !in r.data then (r, None)
    else
      var n := r.data[id].(text := text, updatedAt := now);
      (Repo(r.data[id := n], r.lastId), Some(n))
  }

  /** DeleteNote: an error for an unknown ID; otherwise exactly that ID goes. */
  function DeleteNote(r: Repo, id: int): (res: Result<Repo, string>)
    ensures res.Err? <==> id !in r.data
    ensures res.Err? ==> res.error == NoSuchNote
    ensures res.Ok? ==>
              && res.value.data.Keys == r.data.Keys - {id}
              && (forall k :: k in res.value.data ==> res.value.data[k] == r.data[k])
              && res.value.lastId == r.lastId
    ensures res.Ok? && Valid(r) ==> Valid(res.value)
  {
    if id !in r.data then Err(NoSuchNote)
    else Ok(Repo(r.data - {id}, r.lastId))
  }

  /** No note was updated before it was created. */
  predicate TimesOrdered(r: Repo) {
    forall id :: id in r.data ==> r.data[id].createdAt <= r.data[id].updatedAt
  }

  /** A clock that does not go back keeps every note's update time at or
      after its creation time: CreateNote's second reading is not before its
      first, and an update reads the clock after the note was created. */
  lemma ClockKeepsTimesOrdered(r: Repo, text: string, created: int, updated: int,
                               id: int, newText: string, now: int)
    requires r.lastId >= 0 && TimesOrdered(r)
    ensures created <= updated ==> TimesOrdered(CreateNote(r, text, created, updated).0)
    ensures (forall k :: k in r.data ==> r.data[k].createdAt <= now) ==>
              TimesOrdered(UpdateNote(r, id, newText, now).0)
  {
  }

  // ---------------------------------------------------------------------------
  // ID allocation over a history of operations
  // ---------------------------------------------------------------------------

  datatype Op = Create(text: string, created: int, updated: int) | Update(id: int, text: string, now: int) | Delete(id: int)

  /** Applies `ops` in turn; also returns the IDs CreateNote handed out. */
  function Run(r: Repo, ops: seq<Op>): (res: (Repo, seq<int>))
    requires r.lastId >= 0
    ensures res.0.lastId >= 0
    decreases |ops|
  {
    if |ops| == 0 then (r, [])
    else
      match ops[0]
      case Create(text, created, updated) =>
        var (r1, n) := CreateNote(r, text, created, updated);
        var (r2, ids) := Run(r1, ops[1..]);
        (r2, [n.id] + ids)
      case Update(id, text, now) => Run(UpdateNote(r, id, text, now).0, ops[1..])
      case Delete(id) =>
        var d := DeleteNote(r, id);
        Run(if d.Ok? then d.value else r, ops[1..])
  }

  /** Whatever updates and deletions come between, the IDs handed out after
      `r` are consecutive, starting right after those already issued. */
  lemma {:induction false} RunIssuesConsecutive(r: Repo, ops: seq<Op>)
    requires r.lastId >= 0
    ensures var (r2, ids) := Run(r, ops);
            && (forall i :: 0 <= i < |ids| ==> ids[i] == Issued(r) + i + 1)
            && Issued(r2) == Issued(r) + |ids|
            && (Valid(r) ==> Valid(r2))
    decreases |ops|
  {
    if |ops| > 0 {
      match ops[0]
      case Create(text, created, updated) =>
        var (r1, n) := CreateNote(r, text, created, updated);
        RunIssuesConsecutive(r1, ops[1..]);
      case Update(id, text, now) =>
        RunIssuesConsecutive(UpdateNote(r, id, text, now).0, ops[1..]);
      case Delete(id) =>
        var d := DeleteNote(r, id);
        RunIssuesConsecutive(if d.Ok? then d.value else r, ops[1..]);
    }
  }

  /** From a fresh repository the k-th note created gets ID k, so the first
      gets 1 and no ID is handed out twice, even after deletions. */
  lemma FreshIdsAreOneToN(ops: seq<Op>)
    ensures var (r, ids) := Run(Fresh, ops);
            && (forall i :: 0 <= i < |ids| ==> ids[i] == i + 1)
            && (forall i, j :: 0 <= i < j < |ids| ==> ids[i] < ids[j])
            && Valid(r)
  {
    RunIssuesConsecutive(Fresh, ops);
  }

  // ---------------------------------------------------------------------------
  // Listing
  // ---------------------------------------------------------------------------

  predicate IdLe(a: Note, b: Note) { a.id <= b.id }
  predicate TextLe(a: Note, b: Note) { StrLe(a.text, b.text) }
  predicate CreatedLe(a: Note, b: Note) { a.createdAt <= b.createdAt }
  predicate UpdatedLe(a: Note, b: Note) { a.updatedAt <= b.updatedAt }

  lemma NoteOrdersArePreorders()
    ensures TotalPreorder(IdLe) && TotalPreorder(TextLe)
    ensures TotalPreorder(CreatedLe) && TotalPreorder(UpdatedLe)
  {
    StrLeIsTotalOrder();
  }

  /** The stored notes in the order `range` visits their keys. */
  function Collected(r: Repo, order: seq<int>): (s: seq<Note>)
    requires Enumerates(order, r.data)
    ensures |s| == |r.data|
    ensures forall n :: n in s <==> n in r.data.Values
    ensures Valid(r) ==> NoDuplicates(s)
  {
    EnumerationLength(order, r.data);
    var s := seq(|order|, i requires 0 <= i < |order| => r.data[order[i]]);
    assert forall n :: n in r.data.Values ==> n in s by {
      forall n | n in r.data.Values ensures n in s {
        var k := ValueKey(r.data, n);
        var i :| 0 <= i < |order| && order[i] == k;
        assert s[i] == n;
      }
    }
    assert Valid(r) ==> forall i :: 0 <= i < |s| ==> s[i].id == order[i];
    s
  }

  /** A rearrangement of the collected notes lists each stored note once. */
  lemma RearrangedNotes(r: Repo, notes: seq<Note>, res: seq<Note>)
    requires |notes| == |r.data|
    requires forall n :: n in notes <==> n in r.data.Values
    requires Valid(r) ==> NoDuplicates(notes)
    requires multiset(res) == multiset(notes)
    ensures |res| == |r.data|
    ensures forall n :: n in res <==> n in r.data.Values
    ensures Valid(r) ==> forall i, j :: 0 <= i < j < |res| ==> res[i].id != res[j].id
  {
    assert |res| == |multiset(res)| == |multiset(notes)| == |notes|;
    SameMembers(notes, res);
    if Valid(r) {
      PermutationNoDuplicates(notes, res);
      forall i, j | 0 <= i < j < |res| ensures res[i].id != res[j].id {
        var ki := ValueKey(r.data, res[i]);
        var kj := ValueKey(r.data, res[j]);
      }
    }
  }

  /** GetNotes: every stored note once, ordered by the named field; any
      other parameter keeps the map's iteration order. With IDs as keys the
      ID order is strict. */
  function GetNotes(r: Repo, order: seq<int>, parameter: string): (res: seq<Note>)
    requires Enumerates(order, r.data)
    ensures |res| == |r.data|
    ensures forall n :: n in res <==> n in r.data.Values
    ensures Valid(r) ==> forall i, j :: 0 <= i < j < |res| ==> res[i].id != res[j].id
    ensures parameter == OrderById ==> SortedBy(res, IdLe)
    ensures parameter == OrderById && Valid(r) ==> forall i, j :: 0 <= i < j < |res| ==> res[i].id < res[j].id
    ensures parameter == OrderByText ==> SortedBy(res, TextLe)
    ensures parameter == OrderByCreated ==> SortedBy(res, CreatedLe)
    ensures parameter == OrderByUpdated ==> SortedBy(res, UpdatedLe)
    ensures parameter !in {OrderById, OrderByText, OrderByCreated, OrderByUpdated} ==> res == Collected(r, order)
  {
    var notes := Collected(r, order);
    NoteOrdersArePreorders();
    var res :=
      if parameter == OrderById then SortBy(notes, IdLe)
      else if parameter == OrderByText then SortBy(notes, TextLe)
      else if parameter == OrderByCreated then SortBy(notes, CreatedLe)
      else if parameter == OrderByUpdated then SortBy(notes, UpdatedLe)
      else notes;
    RearrangedNotes(r, notes, res);
    res
  }

  /** Ordered by ID, the listing is the same whichever order `range` visits
      the map in. */
  lemma GetNotesByIdOrderIrrelevant(r: Repo, a: seq<int>, b: seq<int>)
    requires Valid(r) && Enumerates(a, r.data) && Enumerates(b, r.data)
    ensures GetNotes(r, a, OrderById) == GetNotes(r, b, OrderById)
  {
    var ra := GetNotes(r, a, OrderById);
    var rb := GetNotes(r, b, OrderById);
    assert NoDuplicates(ra) && NoDuplicates(rb);
    DistinctSameMembers(ra, rb);
    assert AntisymmetricOn(multiset(ra), IdLe) by {
      forall x, y | x in multiset(ra) && y in multiset(ra) && IdLe(x, y) && IdLe(y, x)
        ensures x == y
      {
        assert x in ra && y in ra;
        var kx := ValueKey(r.data, x);
        var ky := ValueKey(r.data, y);
      }
    }
    NoteOrdersArePreorders();
    SortedUnique(ra, rb, IdLe);
  }
}
