/** An event source's table: the newest piece of each id, every row carrying
    every column. The merge of stored lines into it, and what the table shows. */
module Tables {
  import opened Options
  import opened Pieces
  import opened Utf8
  import opened Schemas
  import opened Rows
  import ScanRules

  type Table = map<string, Row>

  /** Every row padded with null for the schema's fields it lacks. */
  function Padded(table: Table, schema: Schema): Table {
    map id | id in table :: PadTo(table[id], schema)
  }

  /** The lines' rows in order, the last row of an id replacing those before. */
  function Upserted(table: Table, lines: seq<Line>, schema: Schema): Table {
    if lines == [] then table
    else
      var last := lines[|lines| - 1];
      Upserted(table, lines[..|lines| - 1], schema)[last.piece.id := RowOf(last, schema)]
  }

  /** A Dense table's merge: its rows padded, then the lines' rows upserted. */
  function Merge(table: Table, lines: seq<Line>, schema: Schema): Table {
    Upserted(Padded(table, schema), lines, schema)
  }

  // ---------------------------------------------------------------- Rows in sequence

  /** The rows as a table, a later row of an id replacing one before. */
  function TableOf(rows: seq<Row>): Table {
    if rows == [] then map[] else TableOf(rows[..|rows| - 1])[rows[|rows| - 1].id := rows[|rows| - 1]]
  }

  /** No two rows share an id. */
  predicate Once(rows: seq<Row>) {
    rows == [] || (Once(rows[..|rows| - 1]) && rows[|rows| - 1].id !in TableOf(rows[..|rows| - 1]))
  }

  /** The rows are the table's, each once. */
  predicate Lists(rows: seq<Row>, table: Table) {
    Once(rows) && TableOf(rows) == table
  }

  lemma ListsNext(rows: seq<Row>, table: Table, row: Row)
    requires Lists(rows, table)
    ensures TableOf(rows + [row]) == table[row.id := row]
    ensures row.id !in table ==> Lists(rows + [row], table[row.id := row])
  {
    assert (rows + [row])[..|rows|] == rows;
  }

  /** A table has a row for each row that lists it. */
  lemma {:induction false} ListsCount(rows: seq<Row>)
    requires Once(rows)
    ensures |TableOf(rows)| == |rows|
  {
    if rows != [] {
      ListsCount(rows[..|rows| - 1]);
    }
  }

  lemma {:induction false} OwnIds(rows: seq<Row>)
    ensures forall id :: id in TableOf(rows) ==> TableOf(rows)[id].id == id && TableOf(rows)[id] in rows
  {
    if rows != [] {
      var n := |rows| - 1;
      OwnIds(rows[..n]);
      assert rows == rows[..n] + [rows[n]];
    }
  }

  function RowsOf(lines: seq<Line>, schema: Schema): (rows: seq<Row>)
    ensures |rows| == |lines|
    ensures forall i :: 0 <= i < |rows| ==> rows[i] == RowOf(lines[i], schema)
  {
    seq(|lines|, i requires 0 <= i < |lines| => RowOf(lines[i], schema))
  }

  lemma {:induction false} UpsertedRows(table: Table, lines: seq<Line>, schema: Schema)
    ensures Upserted(table, lines, schema) == table + TableOf(RowsOf(lines, schema))
  {
    hide RowOf;
    if lines == [] {
      assert table + map[] == table;
    } else {
      var n := |lines| - 1;
      UpsertedRows(table, lines[..n], schema);
      var rows := RowsOf(lines, schema);
      assert rows[..n] == RowsOf(lines[..n], schema);
      RowOfOwn(lines[n], schema);
    }
  }

  lemma RowOfOwn(l: Line, schema: Schema)
    ensures RowOf(l, schema).id == l.piece.id
  {
  }

  lemma {:induction false} TableConcat(a: seq<Row>, b: seq<Row>)
    ensures TableOf(a + b) == TableOf(a) + TableOf(b)
  {
    if b == [] {
      assert a + b == a && TableOf(a) + map[] == TableOf(a);
    } else {
      var n := |b| - 1;
      assert (a + b)[..|a| + n] == a + b[..n];
      TableConcat(a, b[..n]);
    }
  }

  // ---------------------------------------------------------------- What it shows

  /** The last line of each id. */
  function Last(lines: seq<Line>): map<string, Line> {
    if lines == [] then map[]
    else Last(lines[..|lines| - 1])[lines[|lines| - 1].piece.id := lines[|lines| - 1]]
  }

  /** A line holds only fields of the schema. */
  ghost predicate Within(l: Line, schema: Schema) {
    forall m :: m in l.piece.members ==> m.name in schema
  }

  ghost predicate AllWithin(lines: seq<Line>, schema: Schema) {
    forall i :: 0 <= i < |lines| ==> Within(lines[i], schema)
  }

  /** The row is the line's: its own columns, and each field of the schema once,
      with the value sent or null. */
  ghost predicate Shows(row: Row, l: Line, schema: Schema) {
    && row.id == l.piece.id && row.receivedAt == l.receivedAt
    && row.occurredAt == (if l.piece.occurredAt.Some? then Some(Times.Rfc3339(l.piece.occurredAt.value)) else None)
    && CellsShow(row.cells, l.piece.members, schema.Keys)
  }

  ghost predicate CellsShow(cells: seq<Cell>, members: seq<Member>, names: set<string>) {
    && NamesIn(cells) == names && |cells| == |names|
    && forall c :: c in cells ==> CellShows(c, members)
  }

  /** The cell holds the value of the last member of its name, as sent, or null when no
      member has it. */
  ghost predicate CellShows(c: Cell, members: seq<Member>) {
    && (forall i :: 0 <= i < |members| && IsLastOf(members, i, c.name) ==> c.value == members[i].value)
    && ((forall m :: m in members ==> m.name != c.name) ==> c.value == "null")
  }

  ghost predicate IsLastOf(members: seq<Member>, i: nat, name: string)
    requires i < |members|
  {
    members[i].name == name && forall j :: i < j < |members| ==> members[j].name != name
  }

  lemma {:induction false} CellOfShows(members: seq<Member>, name: string)
    ensures CellShows(CellOf(members, name), members)
  {
    if members != [] {
      var n := |members| - 1;
      CellOfShows(members[..n], name);
      assert members == members[..n] + [members[n]];
      if members[n].name == name {
        assert members[n] in members;
      } else {
        SameButLast(CellOf(members, name), members);
      }
    }
  }

  lemma SameButLast(c: Cell, members: seq<Member>)
    requires members != [] && members[|members| - 1].name != c.name
    ensures CellShows(c, members[..|members| - 1]) ==> CellShows(c, members)
  {
    var n := |members| - 1;
    if CellShows(c, members[..n]) {
      forall i | 0 <= i < |members| && IsLastOf(members, i, c.name)
        ensures c.value == members[i].value
      {
        assert i < n && IsLastOf(members[..n], i, c.name);
      }
      if forall m :: m in members ==> m.name != c.name {
        assert forall m :: m in members[..n] ==> m in members;
      }
    }
  }

  ghost predicate TableShows(table: Table, last: map<string, Line>, schema: Schema) {
    && table.Keys == last.Keys
    && forall id :: id in table ==> Shows(table[id], last[id], schema) && Within(last[id], schema)
  }

  lemma {:induction false} CellsOfShow(members: seq<Member>, names: seq<string>)
    ensures NamesIn(CellsOf(members, names)) == (set n | n in names)
    ensures forall c :: c in CellsOf(members, names) ==> CellShows(c, members)
  {
    hide CellOf, CellShows;
    if names != [] {
      var n := |names| - 1;
      CellsOfShow(members, names[..n]);
      NameOfCell(members, names[n]);
      CellOfShows(members, names[n]);
      var cells := CellsOf(members, names[..n]);
      var all := cells + [CellOf(members, names[n])];
      assert NamesIn(all) == NamesIn(cells) + {names[n]};
      assert (set x | x in names) == (set x | x in names[..n]) + {names[n]} by {
        assert names == names[..n] + [names[n]];
      }
    }
  }

  lemma NameOfCell(members: seq<Member>, name: string)
    ensures CellOf(members, name).name == name
  {
  }

  lemma RowShows(l: Line, schema: Schema)
    ensures Shows(RowOf(l, schema), l, schema)
  {
    hide CellOf, CellsOf, SortNames, CellShows;
    var names := SortNames(schema.Keys);
    CellsOfShow(l.piece.members, names);
    assert (set n | n in names) == schema.Keys;
  }

  /** Null is what a piece shows of the fields it lacks. */
  lemma PaddingShows(members: seq<Member>, missing: set<string>)
    requires forall m :: m in members ==> m.name !in missing
    ensures CellsShow(CellsOf([], SortNames(missing)), members, missing)
  {
    hide CellOf, CellsOf, SortNames;
    var fields := SortNames(missing);
    var padding := CellsOf([], fields);
    CellsOfShow([], fields);
    assert (set f | f in fields) == missing;
    forall c | c in padding
      ensures CellShows(c, members)
    {
      assert c.name in NamesIn(padding);
      assert CellShows(c, []);
    }
  }

  predicate InNameOrder(cells: seq<Cell>) {
    forall i, j :: 0 <= i < j < |cells| ==> NameBelow(cells[i].name, cells[j].name)
  }

  /** What a piece of distinct keys is in its row: every value sent under a field of the
      schema, and null for each field it lacks, the fields by byte order of name. */
  lemma RowHoldsWhatWasSent(l: Line, schema: Schema)
    requires ScanRules.Distinct(ScanRules.Names(l.piece.members))
    ensures var cells := RowOf(l, schema).cells;
            && (forall m :: m in l.piece.members && m.name in schema ==> Cell(m.name, m.value) in cells)
            && (forall name :: name in schema && (forall m :: m in l.piece.members ==> m.name != name) ==>
                  Cell(name, "null") in cells)
            && InNameOrder(cells)
  {
    hide CellOf, CellsOf, SortNames, InNameOrder, CellsShow;
    RowShows(l, schema);
    SentIsShown(RowOf(l, schema).cells, l.piece.members, schema.Keys);
    CellsAscend(l.piece.members, schema.Keys);
  }

  lemma SentIsShown(cells: seq<Cell>, members: seq<Member>, names: set<string>)
    requires CellsShow(cells, members, names) && ScanRules.Distinct(ScanRules.Names(members))
    ensures forall m :: m in members && m.name in names ==> Cell(m.name, m.value) in cells
    ensures forall name :: name in names && (forall m :: m in members ==> m.name != name) ==> Cell(name, "null") in cells
  {
    hide ScanRules.Distinct, ScanRules.Names, CellShows;
    forall m | m in members && m.name in names
      ensures Cell(m.name, m.value) in cells
    {
      var i :| 0 <= i < |members| && members[i] == m;
      OnlyOneNamed(members, i);
      assert m.name in NamesIn(cells);
      var c :| c in cells && c.name == m.name;
      LastIsShown(c, members, i);
    }
    forall name | name in names && (forall m :: m in members ==> m.name != name)
      ensures Cell(name, "null") in cells
    {
      assert name in NamesIn(cells);
      var c :| c in cells && c.name == name;
      NoneIsNull(c, members);
    }
  }

  lemma LastIsShown(c: Cell, members: seq<Member>, i: nat)
    requires CellShows(c, members) && i < |members| && IsLastOf(members, i, c.name)
    ensures c == Cell(c.name, members[i].value)
  {
  }

  lemma NoneIsNull(c: Cell, members: seq<Member>)
    requires CellShows(c, members) && forall m :: m in members ==> m.name != c.name
    ensures c == Cell(c.name, "null")
  {
  }

  lemma OnlyOneNamed(members: seq<Member>, i: nat)
    requires ScanRules.Distinct(ScanRules.Names(members)) && i < |members|
    ensures forall j :: 0 <= j < |members| && j != i ==> members[j].name != members[i].name
  {
    var names := ScanRules.Names(members);
    assert forall j :: 0 <= j < |members| ==> names[j] == members[j].name;
  }

  lemma CellsAscend(members: seq<Member>, names: set<string>)
    ensures InNameOrder(CellsOf(members, SortNames(names)))
  {
    hide NameBelow, SortNames, CellOf;
    forall name
      ensures CellOf(members, name).name == name
    {
      NameOfCell(members, name);
    }
  }

  /** A padded row still shows its line. */
  lemma PadShows(row: Row, l: Line, before: Schema, schema: Schema)
    requires Shows(row, l, before) && Within(l, before) && before.Keys <= schema.Keys
    ensures Shows(PadTo(row, schema), l, schema)
  {
    hide CellsShow, CellsOf, SortNames, CellOf, NamesIn;
    ShownNames(row.cells, l.piece.members, before.Keys);
    var missing := schema.Keys - before.Keys;
    assert NamesOf(row) == NamesIn(row.cells) && before.Keys + missing == schema.Keys;
    PaddingShows(l.piece.members, missing);
    CellsJoin(row.cells, CellsOf([], SortNames(missing)), l.piece.members, before.Keys, missing);
  }

  lemma ShownNames(cells: seq<Cell>, members: seq<Member>, names: set<string>)
    requires CellsShow(cells, members, names)
    ensures NamesIn(cells) == names
  {
  }

  lemma CellsJoin(a: seq<Cell>, b: seq<Cell>, members: seq<Member>, names: set<string>, more: set<string>)
    requires CellsShow(a, members, names) && CellsShow(b, members, more) && names !! more
    ensures CellsShow(a + b, members, names + more)
  {
    hide CellShows;
    assert NamesIn(a + b) == NamesIn(a) + NamesIn(b);
  }

  lemma UpsertOne(table: Table, last: map<string, Line>, l: Line, schema: Schema)
    requires TableShows(table, last, schema) && Within(l, schema)
    ensures TableShows(table[l.piece.id := RowOf(l, schema)], last[l.piece.id := l], schema)
  {
    RowShows(l, schema);
    hide Shows, RowOf, Within;
  }

  lemma {:induction false} UpsertedShows(table: Table, last: map<string, Line>, lines: seq<Line>, schema: Schema)
    requires TableShows(table, last, schema) && AllWithin(lines, schema)
    ensures TableShows(Upserted(table, lines, schema), last + Last(lines), schema)
  {
    hide TableShows, RowOf, Within;
    if lines == [] {
      assert last + map[] == last;
    } else {
      var n := |lines| - 1;
      UpsertedShows(table, last, lines[..n], schema);
      UpsertOne(Upserted(table, lines[..n], schema), last + Last(lines[..n]), lines[n], schema);
      assert last + Last(lines) == (last + Last(lines[..n]))[lines[n].piece.id := lines[n]];
    }
  }

  /** Merging lines into a table that shows some gives one that shows both, the
      later lines winning, under the wider schema. */
  lemma MergeShows(table: Table, last: map<string, Line>, before: Schema, lines: seq<Line>, schema: Schema)
    requires TableShows(table, last, before) && before.Keys <= schema.Keys && AllWithin(lines, schema)
    ensures TableShows(Merge(table, lines, schema), last + Last(lines), schema)
  {
    PaddedShows(table, last, before, schema);
    UpsertedShows(Padded(table, schema), last, lines, schema);
  }

  lemma PaddedShows(table: Table, last: map<string, Line>, before: Schema, schema: Schema)
    requires TableShows(table, last, before) && before.Keys <= schema.Keys
    ensures TableShows(Padded(table, schema), last, schema)
  {
    hide Shows, PadTo;
    forall id | id in table
      ensures Shows(Padded(table, schema)[id], last[id], schema)
    {
      PadShows(table[id], last[id], before, schema);
    }
  }

  lemma {:induction false} LastConcat(a: seq<Line>, b: seq<Line>)
    ensures Last(a + b) == Last(a) + Last(b)
  {
    if b == [] {
      assert a + b == a && Last(a) + map[] == Last(a);
    } else {
      var n := |b| - 1;
      assert (a + b)[..|a| + n] == a + b[..n];
      LastConcat(a, b[..n]);
    }
  }

  /** The last line of an id is one of the lines, and its own id's. */
  lemma {:induction false} LastIsALine(lines: seq<Line>)
    ensures forall id :: id in Last(lines) ==> Last(lines)[id] in lines && Last(lines)[id].piece.id == id
    ensures forall l :: l in lines ==> l.piece.id in Last(lines)
  {
    if lines != [] {
      var n := |lines| - 1;
      LastIsALine(lines[..n]);
      assert lines == lines[..n] + [lines[n]];
    }
  }

  // ---------------------------------------------------------------- Every row carries every column

  /** Every row has exactly these fields' columns. */
  ghost predicate Dense(table: Table, fields: set<string>) {
    forall id :: id in table ==> NamesOf(table[id]) == fields
  }

  /** Every row's fields are the schema's. */
  ghost predicate Carried(table: Table, schema: Schema) {
    forall id :: id in table ==> NamesOf(table[id]) <= schema.Keys
  }

  lemma PadNames(row: Row, fields: seq<string>)
    ensures NamesOf(Pad(row, fields)) == NamesOf(row) + set f | f in fields
  {
    hide CellOf, CellsOf;
    CellsOfShow([], fields);
    assert NamesIn(row.cells + CellsOf([], fields)) == NamesIn(row.cells) + NamesIn(CellsOf([], fields));
  }

  /** Once merged, every row carries every column of the schema read. */
  lemma MergeCarries(table: Table, lines: seq<Line>, schema: Schema)
    requires Carried(table, schema)
    ensures Dense(Merge(table, lines, schema), schema.Keys)
  {
    hide NamesOf, SortNames, Pad;
    forall id | id in table
      ensures NamesOf(PadTo(table[id], schema)) == schema.Keys
    {
      var missing := schema.Keys - NamesOf(table[id]);
      PadNames(table[id], SortNames(missing));
      assert (set f | f in SortNames(missing)) == missing;
    }
    UpsertedCarries(Padded(table, schema), lines, schema);
  }

  lemma {:induction false} UpsertedCarries(table: Table, lines: seq<Line>, schema: Schema)
    requires Dense(table, schema.Keys)
    ensures Dense(Upserted(table, lines, schema), schema.Keys)
  {
    hide NamesOf, RowOf;
    if lines != [] {
      var n := |lines| - 1;
      UpsertedCarries(table, lines[..n], schema);
      RowCarries(lines[n], schema);
    }
  }

  lemma RowCarries(l: Line, schema: Schema)
    ensures NamesOf(RowOf(l, schema)) == schema.Keys
  {
    RowShows(l, schema);
    ShownNames(RowOf(l, schema).cells, l.piece.members, schema.Keys);
  }
}
