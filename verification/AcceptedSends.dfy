/** What validate of mock/event-pieces.ts and the schema promise together: what becomes of
    the pieces of every send a source accepts. */
module AcceptedSends {
  import opened Options
  import opened Pieces
  import opened Rows
  import opened Schemas
  import opened Tables
  import opened Validation
  import Encodings
  import ScanRules

  /** Every send of a source is one validate accepted. */
  ghost predicate AllSent(sends: seq<seq<SentPiece>>, limits: SendLimits, finite: string -> bool) {
    forall i :: 0 <= i < |sends| ==> WasSent(sends[i], limits, finite)
  }

  ghost predicate WasSent(sent: seq<SentPiece>, limits: SendLimits, finite: string -> bool) {
    exists pieces: seq<Piece> :: IsSent(pieces, sent, limits, finite) && forall i :: 0 <= i < |pieces| ==> Readable(pieces[i].data)
  }

  /** A sent piece's keys are legal, no two the same. */
  lemma SentKeys(sent: seq<SentPiece>, k: nat, limits: SendLimits, finite: string -> bool)
    requires WasSent(sent, limits, finite) && k < |sent|
    ensures ScanRules.LegalKeys(ScanRules.Names(sent[k].members)) && ScanRules.Distinct(ScanRules.Names(sent[k].members))
  {
    hide CheckOf, Readable, ValidId, ScanRules.LegalKeys, ScanRules.Distinct, ScanRules.Names;
    var pieces: seq<Piece> :| IsSent(pieces, sent, limits, finite) && forall i :: 0 <= i < |pieces| ==> Readable(pieces[i].data);
    assert PieceFine(pieces, k, limits, finite);
    DataDecides(pieces[k].data, limits.maxPieceBytes, finite);
  }

  /** A source learns only legal names from the sends it accepts. */
  lemma {:induction false} SourceNamesLegal(schemas: seq<Schema>, sends: seq<seq<SentPiece>>, maxFields: nat, limits: SendLimits,
                                            finite: string -> bool, n: nat)
    requires AcceptedRun(schemas, sends, maxFields) && schemas[0] == map[] && AllSent(sends, limits, finite) && n < |schemas|
    ensures LegalNames(schemas[n])
  {
    hide WasSent, ScanRules.LegalKey, ScanRules.LegalKeys, ScanRules.Names, LearnAll, Flat;
    if n > 0 {
      SourceNamesLegal(schemas, sends, maxFields, limits, finite, n - 1);
      var send := sends[n - 1];
      forall k | 0 <= k < |send|
        ensures ScanRules.LegalKeys(ScanRules.Names(send[k].members))
      {
        SentKeys(send, k, limits, finite);
      }
      LearnedLegal(schemas[n - 1], sends[n - 1]);
    }
  }

  /** From then on, whatever else is sent, an accepted piece's row holds every value as sent
      under its key, and null in every other column, and no two of its keys are the same. */
  lemma AcceptedPieceIsShown(schemas: seq<Schema>, sends: seq<seq<SentPiece>>, maxFields: nat, limits: SendLimits,
                             finite: string -> bool, i: nat, j: nat, l: Line)
    requires AcceptedRun(schemas, sends, maxFields) && schemas[0] == map[] && AllSent(sends, limits, finite)
    requires i < j < |schemas| && l.piece in sends[i]
    ensures var row := RowOf(l, schemas[j]);
            && (forall m :: m in l.piece.members ==> Cell(m.name, m.value) in row.cells)
            && (forall c :: c in row.cells ==>
                  c.name in schemas[j] && (c.value == "null" || exists m :: m in l.piece.members && c == Cell(m.name, m.value)))
            && ScanRules.Distinct(["id", "received_at", "occurred_at"] + Encodings.CellNames(row.cells))
  {
    hide WasSent, ScanRules.LegalKey, ScanRules.LegalKeys, ScanRules.Names, ScanRules.Distinct, LearnAll, Flat, RowOf, Encodings.CellNames,
         CellShows;
    var k :| 0 <= k < |sends[i]| && sends[i][k] == l.piece;
    SentKeys(sends[i], k, limits, finite);
    SourceNamesLegal(schemas, sends, maxFields, limits, finite, j);
    AcceptedValuesFit(schemas, sends, maxFields, i, j);
    InFlat(sends[i], k);
    RowHoldsWhatWasSent(l, schemas[j]);
    RowShows(l, schemas[j]);
    Encodings.RowKeysDistinct(RowOf(l, schemas[j]), l, schemas[j]);
    OnlySent(RowOf(l, schemas[j]).cells, l.piece.members, schemas[j].Keys);
  }

  lemma {:induction false} InFlat(pieces: seq<SentPiece>, k: nat)
    requires k < |pieces|
    ensures forall m :: m in pieces[k].members ==> m in Flat(pieces)
  {
    var n := |pieces| - 1;
    if k < n {
      InFlat(pieces[..n], k);
    }
  }

  lemma OnlySent(cells: seq<Cell>, members: seq<Member>, names: set<string>)
    requires CellsShow(cells, members, names) && ScanRules.Distinct(ScanRules.Names(members))
    ensures forall c :: c in cells ==>
              c.name in names && (c.value == "null" || exists m :: m in members && c == Cell(m.name, m.value))
  {
    hide CellShows, ScanRules.Distinct, ScanRules.Names;
    forall c | c in cells
      ensures c.name in names && (c.value == "null" || exists m :: m in members && c == Cell(m.name, m.value))
    {
      assert c.name in NamesIn(cells) && CellShows(c, members);
      if exists i :: 0 <= i < |members| && members[i].name == c.name {
        var i :| 0 <= i < |members| && members[i].name == c.name;
        OnlyOneNamed(members, i);
        LastIsShown(c, members, i);
        assert members[i] in members;
      } else {
        NoneIsNull(c, members);
      }
    }
  }
}
