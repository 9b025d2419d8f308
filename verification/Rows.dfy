/** lineOf, rowOf and padRow of mock/event-pieces.ts, with what each costs in bytes. */
module Rows {
  import opened Options
  import opened Pieces
  import opened Utf8
  import opened Schemas
  import ScanRules
  import Times

  const ROW_SLACK: nat := 10

  // ---------------------------------------------------------------- Strings

  function HexChar(n: nat): char
    requires n < 16
  {
    if n < 10 then '0' + n as char else 'a' + (n - 10) as char
  }

  /** A character of a string as Go's encoding/json writes it without HTML escaping. */
  function EscapedChar(c: char): string {
    if c == '"' || c == '\\' then ['\\', c]
    else if c == '\U{0008}' then "\\b"
    else if c == '\t' then "\\t"
    else if c == '\n' then "\\n"
    else if c == '\U{000C}' then "\\f"
    else if c == '\r' then "\\r"
    else if c < ' ' then "\\u00" + [HexChar(c as int / 16), HexChar(c as int % 16)]
    else if c == '\U{2028}' then "\\u2028"
    else if c == '\U{2029}' then "\\u2029"
    else [c]
  }

  function Escaped(s: string): string {
    if s == [] then [] else EscapedChar(s[0]) + Escaped(s[1..])
  }

  function JsonString(s: string): string {
    "\"" + Escaped(s) + "\""
  }

  // ---------------------------------------------------------------- Lines and rows

  /** A stored piece: its line of a batch object, with the time the send arrived. */
  datatype Line = Line(piece: SentPiece, receivedAt: string)

  datatype Cell = Cell(name: string, value: string)

  /** A row of the events table: its own columns, then its data's in the order held. */
  datatype Row = Row(id: string, receivedAt: string, occurredAt: Option<string>, cells: seq<Cell>)

  function LineText(l: Line): string {
    "{\"id\":" + JsonString(l.piece.id) + ",\"received_at\":\"" + l.receivedAt + "\""
    + (if l.piece.occurredAt.Some? then ",\"occurred_at\":\"" + Times.Rfc3339(l.piece.occurredAt.value) + "\"" else "")
    + ",\"data\":" + l.piece.data + "}\n"
  }

  function CellsText(cells: seq<Cell>): string {
    if cells == [] then ""
    else CellsText(cells[..|cells| - 1]) + CellText(cells[|cells| - 1])
  }

  function CellText(cell: Cell): string {
    "," + JsonString(cell.name) + ":" + cell.value
  }

  function RowText(row: Row): string {
    "{\"id\":" + JsonString(row.id) + ",\"received_at\":\"" + row.receivedAt + "\",\"occurred_at\":"
    + (if row.occurredAt.Some? then "\"" + row.occurredAt.value + "\"" else "null")
    + CellsText(row.cells) + "}"
  }

  /** The value a piece has for a field, if it has one. */
  function ValueOf(members: seq<Member>, name: string): Option<string> {
    if members == [] then None
    else
      var last := members[|members| - 1];
      if last.name == name then Some(last.value) else ValueOf(members[..|members| - 1], name)
  }

  function CellOf(members: seq<Member>, name: string): Cell {
    var value := ValueOf(members, name);
    Cell(name, if value.Some? then value.value else "null")
  }

  function CellsOf(members: seq<Member>, names: seq<string>): (cells: seq<Cell>)
    ensures |cells| == |names|
    ensures forall i :: 0 <= i < |names| ==> cells[i] == CellOf(members, names[i])
  {
    if names == [] then []
    else CellsOf(members, names[..|names| - 1]) + [CellOf(members, names[|names| - 1])]
  }

  /** The piece as a row: every field of the schema by byte order of name, null
      where the piece lacks it. */
  function RowOf(l: Line, schema: Schema): Row {
    Row(l.piece.id, l.receivedAt,
        if l.piece.occurredAt.Some? then Some(Times.Rfc3339(l.piece.occurredAt.value)) else None,
        CellsOf(l.piece.members, SortNames(schema.Keys)))
  }

  /** A row with null for each of these fields, at its end. */
  function Pad(row: Row, fields: seq<string>): Row {
    row.(cells := row.cells + CellsOf([], fields))
  }

  function NamesIn(cells: seq<Cell>): set<string> {
    set cell | cell in cells :: cell.name
  }

  function NamesOf(row: Row): set<string> {
    NamesIn(row.cells)
  }

  /** A row padded with the fields of the schema it lacks, by byte order of name. */
  function PadTo(row: Row, schema: Schema): Row {
    Pad(row, SortNames(schema.Keys - NamesOf(row)))
  }

  /** padRow, on a row's text. */
  function PadText(text: string, fields: seq<string>): string
    requires text != []
  {
    text[..|text| - 1] + CellsText(CellsOf([], fields)) + "}"
  }

  /** Padding a row's text pads the row. */
  lemma PadTextPads(row: Row, fields: seq<string>)
    ensures PadText(RowText(row), fields) == RowText(Pad(row, fields))
  {
    hide CellsText;
    CellsTextConcat(row.cells, CellsOf([], fields));
    var text := RowText(row);
    var before := text[..|text| - 1];
    assert text == before + "}";
    assert RowText(Pad(row, fields)) == before + CellsText(CellsOf([], fields)) + "}";
  }

  lemma {:induction false} CellsTextConcat(a: seq<Cell>, b: seq<Cell>)
    ensures CellsText(a + b) == CellsText(a) + CellsText(b)
  {
    hide CellText;
    if b == [] {
      assert a + b == a;
    } else {
      var n := |b| - 1;
      assert (a + b)[..|a| + n] == a + b[..n];
      CellsTextConcat(a, b[..n]);
    }
  }

  // ---------------------------------------------------------------- What they cost

  /** What a row that lacks a field spends on it. */
  function NullFill(name: string): nat {
    BytesOf(JsonString(name)) + 6
  }

  function FillOf(names: seq<string>): nat {
    if names == [] then 0 else FillOf(names[..|names| - 1]) + NullFill(names[|names| - 1])
  }

  /** What a row that has none of these fields spends on them. */
  function Fill(names: set<string>): nat {
    FillOf(SortNames(names))
  }

  lemma {:induction false} FillOfConcat(a: seq<string>, b: seq<string>)
    ensures FillOf(a + b) == FillOf(a) + FillOf(b)
  {
    hide NullFill;
    if b == [] {
      assert a + b == a;
    } else {
      var n := |b| - 1;
      assert (a + b)[..|a| + n] == a + b[..n];
      FillOfConcat(a, b[..n]);
    }
  }

  lemma FillWithout(names: set<string>, name: string)
    requires name in names
    ensures Fill(names) == NullFill(name) + Fill(names - {name})
  {
    FillOfOne(name);
    hide NullFill, FillOf, SortNames;
    var sorted := SortNames(names);
    var k := SortWithout(names, name);
    assert sorted == sorted[..k] + [name] + sorted[k + 1..];
    FillOfConcat(sorted[..k] + [name], sorted[k + 1..]);
    FillOfConcat(sorted[..k], [name]);
    FillOfConcat(sorted[..k], sorted[k + 1..]);
  }

  lemma FillOfOne(name: string)
    ensures FillOf([name]) == NullFill(name)
  {
    assert [name][..0] == [] && FillOf([]) == 0;
  }

  lemma FillOfNone()
    ensures Fill({}) == 0
  {
  }

  lemma {:induction false} FillSplit(a: set<string>, b: set<string>)
    requires a !! b
    ensures Fill(a + b) == Fill(a) + Fill(b)
    decreases |b|
  {
    hide Fill, NullFill;
    FillOfNone();
    if b == {} {
      assert a + b == a;
    } else {
      var name :| name in b;
      FillWithout(b, name);
      FillWithout(a + b, name);
      assert (a + b) - {name} == a + (b - {name});
      FillSplit(a, b - {name});
    }
  }

  /** What a stored row takes: its text and a newline. */
  function SizeOf(row: Row): nat {
    BytesOf(RowText(row)) + 1
  }

  /** What a row takes once it is padded to every field of the schema. */
  function FullSize(row: Row, schema: Schema): nat {
    SizeOf(row) + Fill(schema.Keys - NamesOf(row))
  }

  /** What a piece's cells take in its row. */
  function CellsSize(members: seq<Member>, names: seq<string>): nat {
    if names == [] then 0
    else CellsSize(members, names[..|names| - 1]) + CellSize(CellOf(members, names[|names| - 1]))
  }

  function CellSize(cell: Cell): nat {
    2 + BytesOf(JsonString(cell.name)) + BytesOf(cell.value)
  }

  lemma {:induction false} CellsBytes(members: seq<Member>, names: seq<string>)
    ensures BytesOf(CellsText(CellsOf(members, names))) == CellsSize(members, names)
  {
    hide BytesOf, CellText, CellSize, CellOf;
    if names == [] {
      Ascii("");
    } else {
      var n := |names| - 1;
      CellsBytes(members, names[..n]);
      var cells := CellsOf(members, names[..n]);
      var last := CellOf(members, names[n]);
      assert (cells + [last])[..n] == cells;
      assert CellsText(cells + [last]) == CellsText(cells) + CellText(last);
      BytesConcat(CellsText(cells), CellText(last));
      CellBytes(last);
    }
  }

  lemma {:induction false} NullCells(fields: seq<string>)
    ensures CellsSize([], fields) == FillOf(fields)
  {
    hide BytesOf, JsonString;
    if fields != [] {
      var n := |fields| - 1;
      var cells := CellsOf([], fields);
      NullCells(fields[..n]);
      assert cells[..n] == CellsOf([], fields[..n]);
      assert fields == fields[..n] + [fields[n]] && cells == cells[..n] + [cells[n]];
      Ascii("null");
    }
  }

  lemma CellBytes(cell: Cell)
    ensures BytesOf(CellText(cell)) == CellSize(cell)
  {
    hide BytesOf, JsonString;
    Bytes4(",", JsonString(cell.name), ":", cell.value);
    Ascii(",");
    Ascii(":");
  }

  lemma Ascii(s: string)
    requires forall i :: 0 <= i < |s| ==> s[i] < '\U{0080}'
    ensures BytesOf(s) == |s|
  {
    AsciiBytes(s);
  }

  lemma Bytes3(a: string, b: string, c: string)
    ensures BytesOf(a + b + c) == BytesOf(a) + BytesOf(b) + BytesOf(c)
  {
    hide BytesOf;
    BytesConcat(a + b, c);
    BytesConcat(a, b);
  }

  lemma Bytes4(a: string, b: string, c: string, d: string)
    ensures BytesOf(a + b + c + d) == BytesOf(a) + BytesOf(b) + BytesOf(c) + BytesOf(d)
  {
    hide BytesOf;
    BytesConcat(a + b + c, d);
    BytesConcat(a + b, c);
    BytesConcat(a, b);
  }

  lemma Bytes7(a: string, b: string, c: string, d: string, e: string, f: string, g: string)
    ensures BytesOf(a + b + c + d + e + f + g)
            == BytesOf(a) + BytesOf(b) + BytesOf(c) + BytesOf(d) + BytesOf(e) + BytesOf(f) + BytesOf(g)
  {
    hide BytesOf;
    Bytes4(a + b + c + d, e, f, g);
    Bytes4(a, b, c, d);
  }

  /** The bytes of a row's text, by its parts. */
  lemma RowBytes(row: Row)
    ensures BytesOf(RowText(row))
            == 6 + BytesOf(JsonString(row.id)) + 16 + BytesOf(row.receivedAt) + 16
               + (if row.occurredAt.Some? then 2 + BytesOf(row.occurredAt.value) else 4)
               + BytesOf(CellsText(row.cells)) + 1
  {
    hide BytesOf, JsonString, CellsText;
    var occurred := if row.occurredAt.Some? then "\"" + row.occurredAt.value + "\"" else "null";
    Bytes7("{\"id\":", JsonString(row.id), ",\"received_at\":\"", row.receivedAt, "\",\"occurred_at\":", occurred,
           CellsText(row.cells));
    BytesConcat("{\"id\":" + JsonString(row.id) + ",\"received_at\":\"" + row.receivedAt + "\",\"occurred_at\":" + occurred
                + CellsText(row.cells), "}");
    Ascii("{\"id\":");
    Ascii(",\"received_at\":\"");
    Ascii("\",\"occurred_at\":");
    Ascii("}");
    Ascii("null");
    Ascii("\"");
    if row.occurredAt.Some? {
      Bytes3("\"", row.occurredAt.value, "\"");
    }
  }

  /** The bytes of a line's text, by its parts. */
  lemma LineBytes(l: Line)
    ensures BytesOf(LineText(l))
            == 6 + BytesOf(JsonString(l.piece.id)) + 16 + BytesOf(l.receivedAt) + 1
               + (if l.piece.occurredAt.Some? then 17 + BytesOf(Times.Rfc3339(l.piece.occurredAt.value)) else 0)
               + 8 + BytesOf(l.piece.data) + 2
  {
    hide BytesOf, JsonString, Times.Rfc3339;
    var at := if l.piece.occurredAt.Some? then Times.Rfc3339(l.piece.occurredAt.value) else "";
    var occurred := if l.piece.occurredAt.Some? then ",\"occurred_at\":\"" + at + "\"" else "";
    Bytes7("{\"id\":", JsonString(l.piece.id), ",\"received_at\":\"", l.receivedAt, "\"", occurred, ",\"data\":");
    Bytes3("{\"id\":" + JsonString(l.piece.id) + ",\"received_at\":\"" + l.receivedAt + "\"" + occurred + ",\"data\":",
           l.piece.data, "}\n");
    Bytes3(",\"occurred_at\":\"", at, "\"");
    LineParts();
  }

  lemma LineParts()
    ensures BytesOf("{\"id\":") == 6 && BytesOf(",\"received_at\":\"") == 16 && BytesOf(",\"data\":") == 8
    ensures BytesOf("\"") == 1 && BytesOf("}\n") == 2 && BytesOf("") == 0 && BytesOf(",\"occurred_at\":\"") == 16
  {
    hide BytesOf;
    Ascii("{\"id\":");
    Ascii(",\"received_at\":\"");
    Ascii(",\"data\":");
    Ascii("\"");
    Ascii("}\n");
    Ascii("");
    Ascii(",\"occurred_at\":\"");
  }

  // ---------------------------------------------------------------- A row within its line

  function ValueBytes(members: seq<Member>): nat {
    if members == [] then 0 else ValueBytes(members[..|members| - 1]) + BytesOf(members[|members| - 1].value)
  }

  lemma {:induction false} ValueBytesFirst(members: seq<Member>)
    requires members != []
    ensures ValueBytes(members) == BytesOf(members[0].value) + ValueBytes(members[1..])
  {
    hide BytesOf;
    if |members| > 1 {
      var n := |members| - 1;
      ValueBytesFirst(members[..n]);
      assert members[..n][1..] == members[1..][..n - 1];
    } else {
      assert members[..0] == [] && members[1..] == [];
    }
  }

  /** An object's text holds its members' values, and two braces besides. */
  lemma DataHoldsValues(keys: seq<string>, members: seq<Member>)
    requires |keys| == |members|
    ensures BytesOf(ScanRules.Rebuilt(keys, members)) >= 2 + ValueBytes(members)
  {
    hide BytesOf, ScanRules.RebuiltMembers, ValueBytes;
    Bytes3("{", ScanRules.RebuiltMembers(keys, members), "}");
    Ascii("{");
    Ascii("}");
    MembersHoldValues(keys, members);
  }

  lemma {:induction false} MembersHoldValues(keys: seq<string>, members: seq<Member>)
    requires |keys| == |members|
    ensures BytesOf(ScanRules.RebuiltMembers(keys, members)) >= ValueBytes(members)
  {
    if members != [] {
      var value := members[0].value;
      var rest := ScanRules.RebuiltMembers(keys[1..], members[1..]);
      var after := if |keys| == 1 then "" else "," + rest;
      MembersHoldValues(keys[1..], members[1..]);
      ValueBytesFirst(members);
      assert ScanRules.RebuiltMembers(keys, members) == keys[0] + (":" + (value + after));
      assert |keys| == 1 ==> ValueBytes(members[1..]) == 0;
      hide BytesOf, ScanRules.RebuiltMembers, ValueBytes;
      BytesConcat(keys[0], ":" + (value + after));
      BytesConcat(":", value + after);
      BytesConcat(value, after);
      BytesConcat(",", rest);
    }
  }

  /** One more member costs a row at most its value. */
  lemma {:induction false} MemberCost(members: seq<Member>, m: Member, names: seq<string>)
    requires Ascending(names)
    ensures CellsSize(members + [m], names) <= CellsSize(members, names) + BytesOf(m.value)
    ensures m.name !in names ==> CellsSize(members + [m], names) == CellsSize(members, names)
  {
    hide BytesOf, JsonString;
    if names != [] {
      var n := |names| - 1;
      MemberCost(members, m, names[..n]);
      assert (members + [m])[..|members|] == members;
      NamesTotal(m.name, m.name);
      assert names[n] == m.name ==> forall i :: 0 <= i < n ==> names[i] != m.name;
    }
  }

  lemma {:induction false} CellsCost(members: seq<Member>, names: seq<string>)
    requires Ascending(names)
    ensures CellsSize(members, names) <= FillOf(names) + ValueBytes(members)
  {
    hide BytesOf, CellsSize, FillOf;
    if members == [] {
      NullCells(names);
    } else {
      var n := |members| - 1;
      assert members == members[..n] + [members[n]];
      CellsCost(members[..n], names);
      MemberCost(members[..n], members[n], names);
    }
  }

  /** A piece whose data scan read: its text holds its members' values. */
  ghost predicate Scanned(p: SentPiece) {
    exists keys: seq<string> :: |keys| == |p.members| && p.data == ScanRules.Rebuilt(keys, p.members)
  }

  /** A row and its newline take at most one byte less than ROW_SLACK more than the
      piece's line and the schema's null fill. */
  lemma RowWithinLine(l: Line, schema: Schema)
    requires Scanned(l.piece)
    ensures SizeOf(RowOf(l, schema)) <= BytesOf(LineText(l)) + Fill(schema.Keys) + ROW_SLACK - 1
  {
    var names := SortNames(schema.Keys);
    var keys: seq<string> :| |keys| == |l.piece.members| && l.piece.data == ScanRules.Rebuilt(keys, l.piece.members);
    DataHoldsValues(keys, l.piece.members);
    CellsCost(l.piece.members, names);
    CellsBytes(l.piece.members, names);
    var row := RowOf(l, schema);
    hide BytesOf, CellsText, CellsOf, JsonString, ValueBytes, ScanRules.Rebuilt, FillOf, SortNames;
    RowBytes(row);
    LineBytes(l);
  }

  /** And they take that much more of every piece of no fields and no time. */
  lemma RowSlackIsUsed(id: string, receivedAt: string)
    ensures var l := Line(SentPiece(id, None, "{}", []), receivedAt);
            SizeOf(RowOf(l, map[])) == BytesOf(LineText(l)) + Fill({}) + ROW_SLACK - 1
  {
    var l := Line(SentPiece(id, None, "{}", []), receivedAt);
    NoCells();
    hide BytesOf, JsonString, CellsText, CellsOf, SortNames;
    RowBytes(RowOf(l, map[]));
    LineBytes(l);
    EmptyData();
  }

  lemma NoCells()
    ensures var none: Schema := map[]; CellsOf([], SortNames(none.Keys)) == [] && CellsText([]) == "" && Fill({}) == 0
  {
  }

  lemma EmptyData()
    ensures BytesOf("{}") == 2 && BytesOf("") == 0
  {
    AsciiBytes("{}");
  }
}
