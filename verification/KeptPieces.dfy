/** What a full read keeps of the table it writes: each row written is offered to the
    read's window, and the window's pieces to the source's documents (connector/events.go). */
module KeptPieces {
  import opened Schemas
  import opened Rows
  import opened Tables
  import opened Reads
  import opened Documents

  /** The piece of a row: when it arrived, its id, and the version of what it renders to. */
  function PieceOf(row: Row, arrived: string -> int, version: Row -> string): Kept {
    Kept(arrived(row.receivedAt), row.id, version(row))
  }

  function RowPieces(rows: seq<Row>, arrived: string -> int, version: Row -> string): (pieces: seq<Kept>)
    ensures |pieces| == |rows| && forall i :: 0 <= i < |rows| ==> pieces[i] == PieceOf(rows[i], arrived, version)
  {
    seq(|rows|, i requires 0 <= i < |rows| => PieceOf(rows[i], arrived, version))
  }

  lemma {:induction false} RowIdsApart(rows: seq<Row>, i: nat, j: nat)
    requires Once(rows) && i < j < |rows|
    ensures rows[i].id != rows[j].id
  {
    hide TableOf;
    var n := |rows| - 1;
    if j < n {
      RowIdsApart(rows[..n], i, j);
    } else {
      UpsertsIndexed(rows[..n]);
      assert rows[..n][i].id in TableOf(rows[..n]);
    }
  }

  lemma PiecesDistinct(rows: seq<Row>, arrived: string -> int, version: Row -> string)
    requires Once(rows)
    ensures DistinctIds(RowPieces(rows, arrived, version))
  {
    var pieces := RowPieces(rows, arrived, version);
    forall i, j | 0 <= i < j < |pieces|
      ensures pieces[i].id != pieces[j].id
    {
      RowIdsApart(rows, i, j);
    }
  }

  lemma DistinctPrefix(pieces: seq<Kept>, n: nat)
    requires DistinctIds(pieces) && n <= |pieces|
    ensures DistinctIds(pieces[..n])
  {
  }

  /** Offers the rows, in the order written, to a window of n. */
  method KeepRows(rows: seq<Row>, n: nat, arrived: string -> int, version: Row -> string) returns (kept: seq<Kept>)
    requires n >= 1 && Once(rows)
    ensures kept == Newest(RowPieces(rows, arrived, version), n)
  {
    hide Newest, DistinctIds, Newer;
    var window := new Window(n);
    ghost var pieces := RowPieces(rows, arrived, version);
    PiecesDistinct(rows, arrived, version);
    for i := 0 to |rows|
      invariant window.Valid() && window.n == n && fresh(window) && window.offered == pieces[..i]
    {
      assert pieces[..i] + [pieces[i]] == pieces[..i + 1];
      DistinctPrefix(pieces, i + 1);
      window.Push(PieceOf(rows[i], arrived, version));
    }
    assert pieces[..|rows|] == pieces;
    return window.kept;
  }

  /** A full read that keeps documents: its rows list the table it writes, and it offers the
      newest n of exactly those rows, those held at their version first; what it did not
      offer is removed at its end. */
  method SyncDocuments(store: EventStore, budget: ReadBudget, documents: DocumentSet, arrived: string -> int,
                       version: Row -> string)
    returns (schema: Schema, rows: seq<Row>, next: nat)
    requires store.Valid() && budget.batches >= 1 && documents.Valid()
    modifies store`schema, store`batches, store`coming, documents`documents
    ensures store.Valid() && documents.Valid()
    ensures Lists(rows, Merge(store.table, LinesOf(Between(store.batches, TableCursor(store.cursor, store.snapshot), next)), schema))
    ensures var kept := Newest(RowPieces(rows, arrived, version), documents.n);
            && documents.documents == Only(OfferAll(old(documents.documents), HeldFirst(old(documents.documents), kept), documents.n),
                                           Ids(kept))
            && (Covers(RowPieces(rows, arrived, version), old(documents.documents)) ==> documents.documents == kept)
  {
    hide Merge, LinesOf, Between, Dense, Extends, Newest, OfferAll, HeldFirst, Only, Ids, Covers, DistinctIds, Newer, Ordered;
    schema, rows, next := FullSync(store, budget);
    ListsOnce(rows, Merge(store.table, LinesOf(Between(store.batches, TableCursor(store.cursor, store.snapshot), next)), schema));
    var kept := KeepRows(rows, documents.n, arrived, version);
    ghost var before, pieces := documents.documents, RowPieces(rows, arrived, version);
    PiecesDistinct(rows, arrived, version);
    OfferPieces(kept, documents);
    documents.RemoveOthers(Ids(kept));
    if Covers(pieces, before) {
      FullReadLeavesNewest(before, pieces, documents.n);
      OnlyAll(kept);
    }
  }

  lemma ListsOnce(rows: seq<Row>, table: Table)
    requires Lists(rows, table)
    ensures Once(rows)
  {
  }
}
