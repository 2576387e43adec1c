/** The durable changeset journal: conditional status transitions and row updates, each of
    which either is written or fails without effect. */
module ChangeJournal {
  import opened Wrappers
  import opened ChangeTypes

  type Book = map<string, ChangeSet>

  predicate RowIdTaken(book: Book, id: string) {
    exists c :: c in book && HasRow(book[c].files, id)
  }

  datatype Write = Written | Missed | Refused

  /** A changeset that was there and still is has kept its target and its service. */
  ghost predicate SameService(before: Book, after: Book, id: string) {
    id in before && id in after ==>
      after[id].targetId == before[id].targetId && after[id].service == before[id].service
  }

  /** Nothing but one changeset differs, and that one keeps its target and its service. */
  ghost predicate OthersKept(before: Book, after: Book, id: string) {
    before.Keys <= after.Keys <= before.Keys + {id} && SameService(before, after, id) &&
    forall c | c in before && c != id :: after[c] == before[c]
  }

  /** The same rows, whatever their columns say. */
  ghost predicate SameRows(before: seq<FileChange>, after: seq<FileChange>) {
    |before| == |after| && forall i | 0 <= i < |before| ::
        before[i].id == after[i].id && before[i].path == after[i].path
  }

  /** The changeset keeps its target, its service and its rows. */
  ghost predicate SameContext(before: Book, after: Book, id: string) {
    id in before ==> id in after && SameService(before, after, id) && SameRows(before[id].files, after[id].files)
  }

  /** The ids of a new changeset and its rows are free. */
  ghost predicate CanCreate(book: Book, id: string, rows: seq<FileChange>) {
    id !in book && DistinctIds(rows) && forall i | 0 <= i < |rows| :: !RowIdTaken(book, rows[i].id)
  }

  class Journal {
    /** Whether no write is ever lost. */
    const reliable: bool
    var book: Book
    /** Writes lost to a failing database, and transitions the status table refused. */
    ghost var missed: nat
    ghost var refused: nat

    constructor (reliable: bool)
      ensures book == map[] && missed == 0 && refused == 0 && this.reliable == reliable
    {
      book, missed, refused, this.reliable := map[], 0, 0, reliable;
    }

    /** Both tables have primary keys: the changeset id and every row id must be new. */
    method Create(id: string, targetId: string, service: string, rows: seq<FileChange>) returns (ok: bool)
      modifies this
      ensures ok ==>
              id !in old(book) && DistinctIds(rows) &&
                  book == old(book)[id := ChangeSet(targetId, service, Draft, rows)]
      ensures ok ==> forall i | 0 <= i < |rows| :: !RowIdTaken(old(book), rows[i].id)
      ensures !ok ==> book == old(book)
      ensures missed == old(missed) && refused == old(refused)
      ensures reliable && CanCreate(old(book), id, rows) ==> ok
    {
      if !reliable { if * { return false; } }
      if id in book || !DistinctIds(rows) || exists i :: 0 <= i < |rows| && RowIdTaken(book, rows[i].id) {
        return false;
      }
      book := book[id := ChangeSet(targetId, service, Draft, rows)];
      ok := true;
    }

    method UpdateRow(id: string, rowId: string, u: FileUpdate) returns (ok: bool)
      modifies this
      ensures ok ==>
              id in old(book) && book ==
                  old(book)[id := old(book)[id].(files := PatchRow(old(book)[id].files, rowId, u))]
      ensures !ok ==> book == old(book)
      ensures missed == if !ok && id in old(book) && HasRow(old(book)[id].files, rowId) then old(missed) + 1
              else old(missed)
      ensures refused == old(refused)
      ensures reliable && id in old(book) && HasRow(old(book)[id].files, rowId) ==> ok
    {
      if id !in book || !HasRow(book[id].files, rowId) { return false; }
      if !reliable { if * { missed := missed + 1; return false; } }
      book := book[id := book[id].(files := PatchRow(book[id].files, rowId, u))];
      ok := true;
    }

    method Transition(id: string, to: Status) returns (r: Write)
      modifies this
      ensures r.Written? ==>
              id in old(book) && TransitionAllowed(old(book)[id].status, to) &&
                  book == old(book)[id := old(book)[id].(status := to)]
      ensures r.Refused? <==> id in old(book) && !TransitionAllowed(old(book)[id].status, to)
      ensures !r.Written? ==> book == old(book)
      ensures missed == (if r.Missed? then old(missed) + 1 else old(missed)) &&
              refused == if r.Refused? then old(refused) + 1 else old(refused)
      ensures reliable && id in old(book) ==> !r.Missed?
    {
      if id !in book { missed := missed + 1; return Missed; }
      if !TransitionAllowed(book[id].status, to) { refused := refused + 1; return Refused; }
      if !reliable { if * { missed := missed + 1; return Missed; } }
      book := book[id := book[id].(status := to)];
      r := Written;
    }
  }
}
