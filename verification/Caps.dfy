/** capacity and project of mock/event-pieces.ts and events/caps.go: how full a
    source's table will be, and what each row and waiting line counts for. */
module Capacities {
  import opened Utf8
  import opened Schemas
  import opened Rows
  import opened Tables
  import opened Sums

  datatype Caps = Caps(maxRows: nat, maxBytes: nat)

  datatype Capacity = Capacity(rows: nat, bytes: nat)

  /** What a source holds, as the caps count it. tableBytes is the size the
      snapshot's gzip trailer gives, modulo 2^32. */
  datatype Holding = Holding(tableRows: nat, tableBytes: nat, tableFields: set<string>, pendingPieces: nat, pendingBytes: nat)

  const ISIZE: nat := 0x1_0000_0000

  function CapacityOf(h: Holding, schema: Schema): Capacity {
    var table := if h.tableRows > 0 && h.tableBytes == 0 then ISIZE else h.tableBytes;
    Capacity(h.tableRows + h.pendingPieces,
             table + Product(h.tableRows, Fill(schema.Keys - h.tableFields)) + h.pendingBytes
             + Product(h.pendingPieces, Fill(schema.Keys) + ROW_SLACK))
  }

  datatype Projected = InCaps(capacity: Capacity) | TooManyRows(rows: nat) | TooManyBytes(bytes: nat)

  /** The capacity once a send of these pieces and bytes is stored, with after
      the schema its merge gives, unless that passes a cap. */
  function Project(h: Holding, pieces: nat, bytes: nat, after: Schema, caps: Caps): Projected {
    var c := CapacityOf(h.(pendingPieces := h.pendingPieces + pieces, pendingBytes := h.pendingBytes + bytes), after);
    if c.rows > caps.maxRows then TooManyRows(c.rows)
    else if c.bytes > caps.maxBytes then TooManyBytes(c.bytes)
    else InCaps(c)
  }

  // ---------------------------------------------------------------- What tables and lines count for

  ghost function TableBytes(table: Table): nat {
    Sum(map id | id in table :: SizeOf(table[id]))
  }

  /** What the table's rows take once padded to every field of the schema. */
  ghost function FullBytes(table: Table, schema: Schema): nat {
    Sum(map id | id in table :: FullSize(table[id], schema))
  }

  function LineSize(l: Line): nat {
    BytesOf(LineText(l))
  }

  function LinesSize(lines: seq<Line>): nat {
    if lines == [] then 0 else LinesSize(lines[..|lines| - 1]) + LineSize(lines[|lines| - 1])
  }

  lemma {:induction false} SizeConcat(a: seq<Line>, b: seq<Line>)
    ensures LinesSize(a + b) == LinesSize(a) + LinesSize(b)
  {
    hide LineSize;
    if b == [] {
      assert a + b == a;
    } else {
      var n := |b| - 1;
      assert (a + b)[..|a| + n] == a + b[..n];
      SizeConcat(a, b[..n]);
    }
  }

  /** What a waiting line counts for: no less than its row can take. */
  function LineCost(l: Line, schema: Schema): nat {
    LineSize(l) + Fill(schema.Keys) + ROW_SLACK
  }

  function LinesCost(lines: seq<Line>, schema: Schema): nat {
    if lines == [] then 0 else LinesCost(lines[..|lines| - 1], schema) + LineCost(lines[|lines| - 1], schema)
  }

  /** Lines count for their bytes and, each, the schema's null fill and ten more. */
  lemma {:induction false} LinesCostIs(lines: seq<Line>, schema: Schema)
    ensures LinesCost(lines, schema) == LinesSize(lines) + Product(|lines|, Fill(schema.Keys) + 10)
  {
    hide LineSize, Fill;
    if lines != [] {
      LinesCostIs(lines[..|lines| - 1], schema);
      OneMore(|lines| - 1, Fill(schema.Keys) + 10);
    }
  }

  lemma {:induction false} CostConcat(a: seq<Line>, b: seq<Line>, schema: Schema)
    ensures LinesCost(a + b, schema) == LinesCost(a, schema) + LinesCost(b, schema)
  {
    hide LineCost;
    if b == [] {
      assert a + b == a;
    } else {
      var n := |b| - 1;
      assert (a + b)[..|a| + n] == a + b[..n];
      CostConcat(a, b[..n], schema);
    }
  }

  /** Padding a table costs each of its rows the fields it lacks. */
  lemma FullBytesIs(table: Table, fields: set<string>, schema: Schema)
    requires Dense(table, fields)
    ensures FullBytes(table, schema) == TableBytes(table) + Product(|table|, Fill(schema.Keys - fields))
  {
    hide SizeOf, Fill, NamesOf;
    var sizes: map<string, nat> := map id | id in table :: SizeOf(table[id]);
    var full: map<string, nat> := map id | id in table :: FullSize(table[id], schema);
    assert sizes.Keys == table.Keys && |sizes| == |table|;
    SumPlus(sizes, full, Fill(schema.Keys - fields));
  }

  /** What the caps count of a source's table and waiting lines, its table's size
      read modulo 2^32. */
  ghost function HoldingOf(table: Table, fields: set<string>, pending: seq<Line>): Holding {
    Holding(|table|, TableBytes(table) % 0x1_0000_0000, fields, |pending|, LinesSize(pending))
  }

  /** While a table is within the caps, and the caps within 4 GiB, its size is
      read exactly, and the capacity counts every row padded and every waiting
      line at its cost. */
  lemma CapacityCounts(table: Table, fields: set<string>, pending: seq<Line>, schema: Schema)
    requires Dense(table, fields) && TableBytes(table) <= ISIZE
    ensures CapacityOf(HoldingOf(table, fields, pending), schema)
            == Capacity(|table| + |pending|, FullBytes(table, schema) + LinesCost(pending, schema))
  {
    hide TableBytes, FullBytes, LinesSize, LinesCost, Fill;
    FullBytesIs(table, fields, schema);
    LinesCostIs(pending, schema);
    RowsTakeBytes(table);
  }

  /** A send fits exactly when, with its lines waiting too, every row and every line do. */
  lemma ProjectDecides(table: Table, fields: set<string>, pending: seq<Line>, lines: seq<Line>, after: Schema, caps: Caps)
    requires Dense(table, fields) && TableBytes(table) <= ISIZE
    ensures Project(HoldingOf(table, fields, pending), |lines|, LinesSize(lines), after, caps).InCaps?
            <==> && |table| + |pending| + |lines| <= caps.maxRows
                 && FullBytes(table, after) + LinesCost(pending + lines, after) <= caps.maxBytes
  {
    hide TableBytes, FullBytes, LinesSize, LinesCost, Fill, CapacityOf;
    SizeConcat(pending, lines);
    CapacityCounts(table, fields, pending + lines, after);
  }

  lemma RowsTakeBytes(table: Table)
    ensures table != map[] ==> TableBytes(table) > 0
    ensures table == map[] ==> TableBytes(table) == 0
  {
    var sizes: map<string, nat> := map id | id in table :: SizeOf(table[id]);
    if table != map[] {
      var id :| id in table;
      SumWithout(sizes, id);
    }
  }

  // ---------------------------------------------------------------- Rows in the full

  /** Null cells cost the null fill, whether they are padded now or later. */
  lemma PaddedSize(row: Row, schema: Schema, later: Schema)
    requires NamesOf(row) <= schema.Keys <= later.Keys
    ensures NamesOf(PadTo(row, schema)) == schema.Keys
    ensures FullSize(PadTo(row, schema), later) == FullSize(row, later)
  {
    hide SizeOf, Fill, NamesOf, PadTo;
    PadToSize(row, schema);
    SplitFill(NamesOf(row), schema.Keys, later.Keys);
  }

  /** The fields beyond some, in two steps. */
  lemma SplitFill(names: set<string>, more: set<string>, all: set<string>)
    requires names <= more <= all
    ensures Fill(all - names) == Fill(more - names) + Fill(all - more)
  {
    hide Fill;
    assert (more - names) + (all - more) == all - names;
    FillSplit(more - names, all - more);
  }

  lemma PadToSize(row: Row, schema: Schema)
    requires NamesOf(row) <= schema.Keys
    ensures NamesOf(PadTo(row, schema)) == schema.Keys
    ensures SizeOf(PadTo(row, schema)) == SizeOf(row) + Fill(schema.Keys - NamesOf(row))
  {
    hide SizeOf, FillOf, SortNames, NamesOf, Pad;
    var missing := schema.Keys - NamesOf(row);
    var fields := SortNames(missing);
    PadSize(row, fields);
    PadNames(row, fields);
    assert (set f | f in fields) == missing;
  }

  lemma PadSize(row: Row, fields: seq<string>)
    ensures SizeOf(Pad(row, fields)) == SizeOf(row) + FillOf(fields)
  {
    hide CellsText, CellsOf, FillOf, CellsSize, JsonString, BytesOf, RowText;
    RowBytes(row);
    RowBytes(Pad(row, fields));
    CellsTextConcat(row.cells, CellsOf([], fields));
    BytesConcat(CellsText(row.cells), CellsText(CellsOf([], fields)));
    CellsBytes([], fields);
    NullCells(fields);
  }

  /** A line's row, padded to any later schema, takes less than the line counts for. */
  lemma RowWithinCost(l: Line, schema: Schema, later: Schema)
    requires Scanned(l.piece) && schema.Keys <= later.Keys
    ensures NamesOf(RowOf(l, schema)) == schema.Keys
    ensures FullSize(RowOf(l, schema), later) < LineCost(l, later)
  {
    hide SizeOf, RowOf, Fill, BytesOf, NamesIn, Scanned, CellsShow, LineText;
    RowWithinLine(l, schema);
    RowShows(l, schema);
    ShownNames(RowOf(l, schema).cells, l.piece.members, schema.Keys);
    SplitFill({}, schema.Keys, later.Keys);
    assert schema.Keys - {} == schema.Keys && later.Keys - {} == later.Keys;
  }

  // ---------------------------------------------------------------- What a sync does to the capacity

  lemma PaddedFull(table: Table, fields: set<string>, schema: Schema, later: Schema)
    requires Dense(table, fields) && fields <= schema.Keys <= later.Keys
    ensures Dense(Padded(table, schema), schema.Keys)
    ensures FullBytes(Padded(table, schema), later) == FullBytes(table, later)
  {
    hide PadTo, FullSize, NamesOf;
    forall id | id in table
      ensures NamesOf(Padded(table, schema)[id]) == schema.Keys
      ensures FullSize(Padded(table, schema)[id], later) == FullSize(table[id], later)
    {
      PaddedSize(table[id], schema, later);
    }
    assert (map id | id in Padded(table, schema) :: FullSize(Padded(table, schema)[id], later))
        == (map id | id in table :: FullSize(table[id], later));
  }

  lemma {:induction false} UpsertedFull(table: Table, lines: seq<Line>, schema: Schema, later: Schema)
    requires Dense(table, schema.Keys) && schema.Keys <= later.Keys
    requires forall i :: 0 <= i < |lines| ==> Scanned(lines[i].piece)
    ensures Dense(Upserted(table, lines, schema), schema.Keys)
    ensures FullBytes(Upserted(table, lines, schema), later) <= FullBytes(table, later) + LinesCost(lines, later)
    ensures |Upserted(table, lines, schema)| <= |table| + |lines|
  {
    hide FullSize, RowOf, LineCost, Scanned, NamesOf;
    if lines != [] {
      var n := |lines| - 1;
      UpsertedFull(table, lines[..n], schema, later);
      var before, row := Upserted(table, lines[..n], schema), RowOf(lines[n], schema);
      RowWithinCost(lines[n], schema, later);
      SetFull(before, lines[n].piece.id, row, later);
    }
  }

  lemma SetFull(table: Table, id: string, row: Row, schema: Schema)
    ensures FullBytes(table[id := row], schema) <= FullBytes(table, schema) + FullSize(row, schema)
  {
    hide FullSize, Sum;
    var sizes: map<string, nat> := map k | k in table :: FullSize(table[k], schema);
    var after := table[id := row];
    assert (map k | k in after :: FullSize(after[k], schema)) == sizes[id := FullSize(row, schema)];
    SumSet(sizes, id, FullSize(row, schema));
  }

  /** A sync that merges the first of the waiting lines, under the schema it read,
      and moves its cursor past them never raises the capacity, whatever the
      schema has become meanwhile. */
  lemma SyncKeepsCapacity(table: Table, fields: set<string>, merged: seq<Line>, rest: seq<Line>, schema: Schema, later: Schema)
    requires Dense(table, fields) && fields <= schema.Keys <= later.Keys
    requires forall i :: 0 <= i < |merged| ==> Scanned(merged[i].piece)
    requires TableBytes(table) <= ISIZE && TableBytes(Merge(table, merged, schema)) <= ISIZE
    ensures var before := CapacityOf(HoldingOf(table, fields, merged + rest), later);
            var after := CapacityOf(HoldingOf(Merge(table, merged, schema), schema.Keys, rest), later);
            after.rows <= before.rows && after.bytes <= before.bytes
  {
    hide CapacityOf, HoldingOf, TableBytes, FullBytes, LinesCost, Upserted, Padded, Scanned, Dense;
    PaddedFull(table, fields, schema, later);
    UpsertedFull(Padded(table, schema), merged, schema, later);
    CostConcat(merged, rest, later);
    CapacityCounts(table, fields, merged + rest, later);
    CapacityCounts(Merge(table, merged, schema), schema.Keys, rest, later);
    PaddedCount(table, schema);
  }

  lemma PaddedCount(table: Table, schema: Schema)
    ensures |Padded(table, schema)| == |table|
  {
    hide PadTo;
    assert Padded(table, schema).Keys == table.Keys;
  }

  /** The table's rows of these ids. */
  ghost function RowsAt(table: Table, ids: set<string>): Table {
    map id | id in table && id in ids :: table[id]
  }

  /** The merge alone, its cursor not yet moved, counts its lines twice: it raises the
      capacity's rows exactly when it adds an id. */
  lemma MergeAloneCountsTwice(table: Table, fields: set<string>, merged: seq<Line>, rest: seq<Line>, schema: Schema, later: Schema)
    ensures var before := CapacityOf(HoldingOf(table, fields, merged + rest), later);
            var after := CapacityOf(HoldingOf(Merge(table, merged, schema), schema.Keys, merged + rest), later);
            after.rows > before.rows <==> !(Last(merged).Keys <= table.Keys)
  {
    hide TableBytes, LinesSize, Fill, Padded, Last;
    MergeRows(table, merged, schema);
  }

  /** And it raises the capacity's bytes exactly when the rows it writes take more than
      those they replace. */
  lemma MergeAloneAddsBytes(table: Table, fields: set<string>, merged: seq<Line>, rest: seq<Line>, schema: Schema, later: Schema)
    requires Dense(table, fields) && fields <= schema.Keys <= later.Keys
    requires TableBytes(table) <= ISIZE && TableBytes(Merge(table, merged, schema)) <= ISIZE
    ensures var before := CapacityOf(HoldingOf(table, fields, merged + rest), later);
            var after := CapacityOf(HoldingOf(Merge(table, merged, schema), schema.Keys, merged + rest), later);
            after.bytes > before.bytes
            <==> FullBytes(Upserted(map[], merged, schema), later) > FullBytes(RowsAt(table, Last(merged).Keys), later)
  {
    hide TableBytes, FullBytes, LinesCost, Fill, Padded, Upserted, Dense, CapacityOf, HoldingOf, Last;
    MergeDense(table, fields, merged, schema);
    CapacityCounts(table, fields, merged + rest, later);
    CapacityCounts(Merge(table, merged, schema), schema.Keys, merged + rest, later);
    MergeFull(table, fields, merged, schema, later);
  }

  lemma MergeRows(table: Table, merged: seq<Line>, schema: Schema)
    ensures |Merge(table, merged, schema)| >= |table|
    ensures |Merge(table, merged, schema)| > |table| <==> !(Last(merged).Keys <= table.Keys)
  {
    hide Padded;
    PaddedKeys(table, schema);
    UpsertedKeys(Padded(table, schema), merged, schema);
    var keys := Merge(table, merged, schema).Keys;
    if !(Last(merged).Keys <= table.Keys) {
      assert table.Keys < keys;
      Fewer(table.Keys, keys);
    } else {
      assert keys == table.Keys;
    }
  }

  lemma MergeDense(table: Table, fields: set<string>, merged: seq<Line>, schema: Schema)
    requires Dense(table, fields) && fields <= schema.Keys
    ensures Dense(Merge(table, merged, schema), schema.Keys)
  {
    MergeCarries(table, merged, schema);
  }

  /** What a merge does to the bytes of a table's rows: those it replaces go, those of
      the lines alone come. */
  lemma MergeFull(table: Table, fields: set<string>, merged: seq<Line>, schema: Schema, later: Schema)
    requires Dense(table, fields) && fields <= schema.Keys <= later.Keys
    ensures FullBytes(Merge(table, merged, schema), later) + FullBytes(RowsAt(table, Last(merged).Keys), later)
            == FullBytes(table, later) + FullBytes(Upserted(map[], merged, schema), later)
  {
    hide FullBytes, Padded, Upserted, Dense, Last, FullSize;
    var padded, added, ids := Padded(table, schema), Upserted(map[], merged, schema), Last(merged).Keys;
    UpsertedOver(padded, merged, schema);
    UpsertedKeys(map[], merged, schema);
    PaddedFull(table, fields, schema, later);
    PaddedRows(table, fields, ids, schema, later);
    FullSplit(padded, ids, later);
    FullSplit(padded + added, ids, later);
    assert RowsAt(padded + added, ids) == added && (padded + added) - ids == padded - ids;
  }

  lemma UpsertedOver(table: Table, lines: seq<Line>, schema: Schema)
    ensures Upserted(table, lines, schema) == table + Upserted(map[], lines, schema)
  {
    hide Upserted, TableOf;
    UpsertedRows(table, lines, schema);
    UpsertedRows(map[], lines, schema);
    assert map[] + TableOf(RowsOf(lines, schema)) == TableOf(RowsOf(lines, schema));
  }

  lemma PaddedRows(table: Table, fields: set<string>, ids: set<string>, schema: Schema, later: Schema)
    requires Dense(table, fields) && fields <= schema.Keys <= later.Keys
    ensures FullBytes(RowsAt(Padded(table, schema), ids), later) == FullBytes(RowsAt(table, ids), later)
  {
    hide FullBytes, PadTo, NamesOf;
    PaddedFull(RowsAt(table, ids), fields, schema, later);
    assert RowsAt(Padded(table, schema), ids) == Padded(RowsAt(table, ids), schema);
  }

  /** A table's bytes are those of its rows of some ids and those of its others. */
  lemma {:induction false} FullSplit(table: Table, ids: set<string>, schema: Schema)
    ensures FullBytes(table, schema) == FullBytes(RowsAt(table, ids), schema) + FullBytes(table - ids, schema)
    decreases |table|
  {
    hide FullBytes, FullSize;
    if table == map[] {
      assert RowsAt(table, ids) == table && table - ids == table;
      NoFull(schema);
    } else {
      var id :| id in table;
      var less := table - {id};
      FullSplit(less, ids, schema);
      FullWithout(table, id, schema);
      if id in ids {
        FullWithout(RowsAt(table, ids), id, schema);
        assert RowsAt(table, ids) - {id} == RowsAt(less, ids) && table - ids == less - ids;
      } else {
        FullWithout(table - ids, id, schema);
        assert (table - ids) - {id} == less - ids && RowsAt(table, ids) == RowsAt(less, ids);
      }
    }
  }

  lemma NoFull(schema: Schema)
    ensures FullBytes(map[], schema) == 0
  {
  }

  lemma FullWithout(table: Table, id: string, schema: Schema)
    requires id in table
    ensures FullBytes(table, schema) == FullBytes(table - {id}, schema) + FullSize(table[id], schema)
  {
    hide FullSize, Sum;
    var sizes: map<string, nat> := map k | k in table :: FullSize(table[k], schema);
    assert (map k | k in table - {id} :: FullSize((table - {id})[k], schema)) == sizes - {id};
    SumWithout(sizes, id);
  }

  lemma PaddedKeys(table: Table, schema: Schema)
    ensures Padded(table, schema).Keys == table.Keys
  {
    hide PadTo;
  }

  lemma Fewer(a: set<string>, b: set<string>)
    requires a < b
    ensures |a| < |b|
  {
    assert b == a + (b - a);
    assert b - a != {};
  }

  lemma {:induction false} UpsertedKeys(table: Table, lines: seq<Line>, schema: Schema)
    ensures Upserted(table, lines, schema).Keys == table.Keys + Last(lines).Keys
  {
    hide RowOf;
    if lines != [] {
      UpsertedKeys(table, lines[..|lines| - 1], schema);
    }
  }

  // ---------------------------------------------------------------- Bookings

  /** Room kept for each id: as much as its row may come to take, whichever of the
      waiting lines are merged, in total within the caps. */
  ghost predicate Books(room: map<string, nat>, table: Table, pending: seq<Line>, schema: Schema, caps: Caps) {
    && |room| <= caps.maxRows && Sum(room) <= caps.maxBytes
    && (forall id :: id in table ==> id in room && FullSize(table[id], schema) <= room[id])
    && forall i :: 0 <= i < |pending| ==> BooksLine(room, pending[i], schema)
  }

  ghost predicate BooksLine(room: map<string, nat>, l: Line, schema: Schema) {
    l.piece.id in room && LineCost(l, schema) <= room[l.piece.id]
  }

  /** The room for a table's rows and some lines besides. */
  ghost function Room(sizes: map<string, nat>, lines: seq<Line>, schema: Schema): map<string, nat> {
    if lines == [] then sizes
    else
      var before, l := Room(sizes, lines[..|lines| - 1], schema), lines[|lines| - 1];
      before[l.piece.id := if l.piece.id in before && before[l.piece.id] >= LineCost(l, schema) then before[l.piece.id]
                           else LineCost(l, schema)]
  }

  lemma {:induction false} RoomSuffices(sizes: map<string, nat>, lines: seq<Line>, schema: Schema)
    ensures var room := Room(sizes, lines, schema);
            && |room| <= |sizes| + |lines| && Sum(room) <= Sum(sizes) + LinesCost(lines, schema)
            && (forall id :: id in sizes ==> id in room && sizes[id] <= room[id])
            && forall i :: 0 <= i < |lines| ==> BooksLine(room, lines[i], schema)
  {
    hide LineCost, Sum, BooksLine;
    if lines != [] {
      var n := |lines| - 1;
      var l, before, room := lines[n], Room(sizes, lines[..n], schema), Room(sizes, lines, schema);
      RoomSuffices(sizes, lines[..n], schema);
      MoreRoom(before, l, lines[..n], schema, room);
      assert forall i :: 0 <= i < n ==> lines[..n][i] == lines[i];
    }
  }

  lemma MoreRoom(before: map<string, nat>, l: Line, lines: seq<Line>, schema: Schema, room: map<string, nat>)
    requires room == before[l.piece.id := if l.piece.id in before && before[l.piece.id] >= LineCost(l, schema)
                                          then before[l.piece.id] else LineCost(l, schema)]
    requires forall i :: 0 <= i < |lines| ==> BooksLine(before, lines[i], schema)
    ensures |room| <= |before| + 1 && Sum(room) <= Sum(before) + LineCost(l, schema)
    ensures forall i :: 0 <= i < |lines| ==> BooksLine(room, lines[i], schema)
    ensures BooksLine(room, l, schema)
  {
    hide LineCost, Sum;
    SumSet(before, l.piece.id, room[l.piece.id]);
    SetCount(before, l.piece.id, room[l.piece.id]);
  }

  lemma SetCount(m: map<string, nat>, key: string, value: nat)
    ensures |m[key := value]| <= |m| + 1
  {
    assert m[key := value].Keys == m.Keys + {key};
  }

  /** A capacity within the caps books room for the table and every waiting line. */
  lemma CapacityBooks(table: Table, fields: set<string>, pending: seq<Line>, schema: Schema, caps: Caps)
    requires Dense(table, fields) && TableBytes(table) <= ISIZE
    requires var c := CapacityOf(HoldingOf(table, fields, pending), schema);
             c.rows <= caps.maxRows && c.bytes <= caps.maxBytes
    ensures exists room :: Books(room, table, pending, schema, caps)
  {
    hide FullSize, CapacityOf, HoldingOf, TableBytes, LinesCost, Sum, BooksLine, Room, Dense;
    CapacityCounts(table, fields, pending, schema);
    var sizes: map<string, nat> := map id | id in table :: FullSize(table[id], schema);
    assert sizes.Keys == table.Keys && |sizes| == |table|;
    RoomSuffices(sizes, pending, schema);
    assert Books(Room(sizes, pending, schema), table, pending, schema, caps);
  }

  /** The room booked for any of the waiting lines is room for them merged: the
      table stays within its booking, under any schema read since. */
  lemma MergeBooked(room: map<string, nat>, table: Table, fields: set<string>, merged: seq<Line>, pending: seq<Line>,
                    schema: Schema, later: Schema, caps: Caps)
    requires Dense(table, fields) && fields <= schema.Keys <= later.Keys
    requires Books(room, table, pending, later, caps)
    requires forall i :: 0 <= i < |merged| ==> Scanned(merged[i].piece) && BooksLine(room, merged[i], later)
    ensures Books(room, Merge(table, merged, schema), pending, later, caps)
    ensures Dense(Merge(table, merged, schema), schema.Keys)
  {
    hide FullSize, BooksLine, Upserted, Padded, Scanned, Sum, NamesOf;
    PaddedBooked(room, table, fields, schema, later);
    UpsertedBooked(room, Padded(table, schema), merged, schema, later);
  }

  lemma PaddedBooked(room: map<string, nat>, table: Table, fields: set<string>, schema: Schema, later: Schema)
    requires Dense(table, fields) && fields <= schema.Keys <= later.Keys
    requires forall id :: id in table ==> id in room && FullSize(table[id], later) <= room[id]
    ensures forall id :: id in Padded(table, schema) ==> id in room && FullSize(Padded(table, schema)[id], later) <= room[id]
    ensures Dense(Padded(table, schema), schema.Keys)
  {
    hide PadTo, FullSize, NamesOf;
    forall id | id in table
      ensures NamesOf(Padded(table, schema)[id]) == schema.Keys
      ensures FullSize(Padded(table, schema)[id], later) == FullSize(table[id], later)
    {
      PaddedSize(table[id], schema, later);
    }
  }

  lemma {:induction false} UpsertedBooked(room: map<string, nat>, table: Table, lines: seq<Line>, schema: Schema, later: Schema)
    requires Dense(table, schema.Keys) && schema.Keys <= later.Keys
    requires forall id :: id in table ==> id in room && FullSize(table[id], later) <= room[id]
    requires forall i :: 0 <= i < |lines| ==> Scanned(lines[i].piece) && BooksLine(room, lines[i], later)
    ensures var after := Upserted(table, lines, schema);
            && (forall id :: id in after ==> id in room && FullSize(after[id], later) <= room[id])
            && Dense(after, schema.Keys)
  {
    hide FullSize, RowOf, LineCost, Scanned, NamesOf;
    if lines != [] {
      var n := |lines| - 1;
      UpsertedBooked(room, table, lines[..n], schema, later);
      RowWithinCost(lines[n], schema, later);
      assert BooksLine(room, lines[n], later);
    }
  }

  /** A booked table is within the caps. */
  lemma BookedWithin(room: map<string, nat>, table: Table, pending: seq<Line>, schema: Schema, caps: Caps)
    requires Books(room, table, pending, schema, caps)
    ensures |table| <= caps.maxRows && TableBytes(table) <= caps.maxBytes
  {
    hide SizeOf, Sum, Fill, BooksLine;
    var sizes: map<string, nat> := map id | id in table :: SizeOf(table[id]);
    SumWithin(sizes, room);
    assert table.Keys <= room.Keys;
    NoMore(table.Keys, room.Keys);
  }

  lemma NoMore(a: set<string>, b: set<string>)
    requires a <= b
    ensures |a| <= |b|
  {
    assert b == a + (b - a);
  }
}
