/** What the encodings of mock/event-pieces.ts read back as: a string, a line and a
    row are the JSON text of what they hold. */
module Encodings {
  import opened Options
  import opened JsonText
  import opened Pieces
  import opened Rows
  import opened Schemas
  import opened Tables
  import opened Utf8
  import ScanRules
  import Times

  // ---------------------------------------------------------------- Strings

  /** The unit a character is written as. */
  function UnitFor(c: char): Unit {
    if c == '"' || c == '\\' then Short(c)
    else if c == '\U{0008}' then Short('b')
    else if c == '\t' then Short('t')
    else if c == '\n' then Short('n')
    else if c == '\U{000C}' then Short('f')
    else if c == '\r' then Short('r')
    else if c < ' ' then Hex("00" + [HexChar(c as int / 16), HexChar(c as int % 16)])
    else if c == '\U{2028}' then Hex("2028")
    else if c == '\U{2029}' then Hex("2029")
    else Plain(c)
  }

  function UnitsFor(s: string): seq<Unit> {
    if s == [] then [] else [UnitFor(s[0])] + UnitsFor(s[1..])
  }

  lemma UnitForReads(c: char, rest: seq<Unit>)
    ensures ValidUnit(UnitFor(c)) && UnitText(UnitFor(c)) == EscapedChar(c)
    ensures !IsHigh(UnitFor(c)) && !IsLow(UnitFor(c))
    ensures Decode([UnitFor(c)] + rest) == [c] + Decode(rest)
  {
    var u := UnitFor(c);
    assert ([u] + rest)[1..] == rest;
    if u.Hex? {
      HexReads(c);
      assert "\\u" + u.digits == EscapedChar(c);
    }
  }

  lemma HexReads(c: char)
    requires UnitFor(c).Hex?
    ensures var digits := UnitFor(c).digits;
            |digits| == 4 && (forall i :: 0 <= i < 4 ==> IsHex(digits[i])) && HexValue(digits) == c as int
  {
    if c < ' ' {
      var digits := UnitFor(c).digits;
      assert digits[0] == '0' && digits[1] == '0' && digits[2] == HexChar(c as int / 16) && digits[3] == HexChar(c as int % 16);
      HexCharReads(c as int / 16);
      HexCharReads(c as int % 16);
    }
  }

  lemma HexCharReads(n: nat)
    requires n < 16
    ensures IsHex(HexChar(n)) && HexDigit(HexChar(n)) == n
  {
  }

  /** A string written as JSON is one string, which reads back as it was, with every
      surrogate escape in it paired. */
  lemma {:induction false} JsonStringReads(s: string)
    ensures ValidUnits(UnitsFor(s)) && JsonString(s) == Quoted(UnitsFor(s))
    ensures Decode(UnitsFor(s)) == s && Paired(UnitsFor(s))
  {
    UnitsRead(s);
  }

  lemma {:induction false} UnitsRead(s: string)
    ensures ValidUnits(UnitsFor(s)) && UnitsText(UnitsFor(s)) == Escaped(s) && Decode(UnitsFor(s)) == s
    ensures forall i :: 0 <= i < |UnitsFor(s)| ==> !IsHigh(UnitsFor(s)[i]) && !IsLow(UnitsFor(s)[i])
  {
    hide UnitFor, EscapedChar, ValidUnit, IsHigh, IsLow, UnitText, Decode;
    if s == [] {
      NothingReads();
    } else {
      UnitsRead(s[1..]);
      UnitForReads(s[0], UnitsFor(s[1..]));
      var units := UnitsFor(s);
      assert units[1..] == UnitsFor(s[1..]);
      assert s == [s[0]] + s[1..];
    }
  }

  lemma NothingReads()
    ensures Decode([]) == []
  {
  }

  // ---------------------------------------------------------------- Rows and lines

  /** A time's text needs no escape. */
  predicate IsTime(at: string) {
    forall i :: 0 <= i < |at| ==> ' ' <= at[i] <= '~' && at[i] != '"' && at[i] != '\\'
  }

  lemma {:induction false} TimeEscapes(at: string)
    requires IsTime(at)
    ensures Escaped(at) == at && JsonString(at) == "\"" + at + "\""
  {
    if at != "" {
      TimeEscapes(at[1..]);
      assert EscapedChar(at[0]) == [at[0]];
      assert at == [at[0]] + at[1..];
    }
  }

  /** Each cell's value is the text of a JSON value. */
  predicate Printed(cells: seq<Cell>, values: seq<Value>) {
    && |values| == |cells|
    && forall i :: 0 <= i < |cells| ==> ValidValue(values[i]) && cells[i].value == Print(values[i])
  }

  function CellMembers(cells: seq<Cell>, values: seq<Value>): Members
    requires |values| == |cells|
  {
    if cells == [] then NoMembers
    else Members.Member(UnitsFor(cells[0].name), values[0], CellMembers(cells[1..], values[1..]))
  }

  /** A row as the object it is: its own columns, then its fields. */
  function RowObject(row: Row, values: seq<Value>): Members
    requires |values| == |row.cells|
  {
    Members.Member(UnitsFor("id"), Text(UnitsFor(row.id)),
      Members.Member(UnitsFor("received_at"), Text(UnitsFor(row.receivedAt)),
        Members.Member(UnitsFor("occurred_at"), if row.occurredAt.Some? then Text(UnitsFor(row.occurredAt.value)) else Null,
          CellMembers(row.cells, values))))
  }

  function CellNames(cells: seq<Cell>): seq<string> {
    if cells == [] then [] else [cells[0].name] + CellNames(cells[1..])
  }

  lemma {:induction false} CellsRead(cells: seq<Cell>, values: seq<Value>)
    requires Printed(cells, values)
    ensures ValidMembers(CellMembers(cells, values)) && ScanRules.Keys(CellMembers(cells, values)) == CellNames(cells)
    ensures CellsText(cells) == if cells == [] then "" else "," + PrintMembers(CellMembers(cells, values))
  {
    hide Print, Quoted, JsonString, UnitsFor, ValidValue, Decode, CellText;
    if cells != [] {
      var rest, tail := CellsText(cells[1..]), CellMembers(cells[1..], values[1..]);
      CellsRead(cells[1..], values[1..]);
      JsonStringReads(cells[0].name);
      assert cells == [cells[0]] + cells[1..];
      CellsTextConcat([cells[0]], cells[1..]);
      OneCell(cells[0]);
      MemberPrints(UnitsFor(cells[0].name), values[0], tail);
      Assoc(Quoted(UnitsFor(cells[0].name)), Print(values[0]), rest);
    }
  }

  lemma OneCell(cell: Cell)
    ensures CellsText([cell]) == "," + (JsonString(cell.name) + ":" + cell.value)
  {
    hide JsonString;
    assert [cell][..0] == [] && CellsText([]) == "";
    assert CellsText([cell]) == "" + CellText(cell);
  }

  lemma Assoc(key: string, value: string, rest: string)
    ensures ("," + (key + ":" + value)) + rest == "," + (key + ":" + value + rest)
  {
  }

  lemma MemberPrints(key: seq<Unit>, value: Value, tail: Members)
    ensures PrintMembers(Members.Member(key, value, tail))
            == Quoted(key) + ":" + Print(value) + (if tail.NoMembers? then "" else "," + PrintMembers(tail))
  {
    hide Quoted, Print;
    var text := Quoted(key) + ":" + Print(value);
    assert text + "" == text;
    assert tail.Member? ==> text + "," + PrintMembers(tail) == text + ("," + PrintMembers(tail));
  }

  /** A name of plain characters, written as a key. */
  lemma PlainKey(name: string)
    requires IsTime(name)
    ensures Quoted(UnitsFor(name)) == "\"" + name + "\"" && Decode(UnitsFor(name)) == name && ValidUnits(UnitsFor(name))
  {
    hide UnitsFor, Quoted, Escaped, IsTime;
    JsonStringReads(name);
    TimeEscapes(name);
  }

  lemma IdKey()
    ensures "{" + ("\"" + "id" + "\"") + ":" == "{\"id\":"
  {
  }

  lemma ReceivedKey()
    ensures "," + ("\"" + "received_at" + "\"") + ":" + "\"" == ",\"received_at\":\""
  {
  }

  lemma OccurredKey()
    ensures "\"" + "," + ("\"" + "occurred_at" + "\"") + ":" == "\",\"occurred_at\":"
  {
  }

  lemma KeysStep(key: seq<Unit>, value: Value, tail: Members)
    ensures ScanRules.Keys(Members.Member(key, value, tail)) == [Decode(key)] + ScanRules.Keys(tail)
  {
  }

  /** A row's text is the JSON object of its columns: its own, then its fields under
      their names in the order held, each with its value. */
  lemma RowReads(row: Row, values: seq<Value>)
    requires Printed(row.cells, values) && IsTime(row.receivedAt) && (row.occurredAt.Some? ==> IsTime(row.occurredAt.value))
    ensures ValidMembers(RowObject(row, values)) && RowText(row) == Print(Object(RowObject(row, values)))
    ensures ScanRules.Keys(RowObject(row, values)) == ["id", "received_at", "occurred_at"] + CellNames(row.cells)
  {
    hide Quoted, JsonString, UnitsFor, Decode, CellsText, CellMembers, PrintMembers, IsTime, CellNames, ScanRules.Keys, ValidUnits;
    CellsRead(row.cells, values);
    OwnNames();
    JsonStringReads(row.id);
    JsonStringReads(row.receivedAt);
    TimeEscapes(row.receivedAt);
    if row.occurredAt.Some? {
      JsonStringReads(row.occurredAt.value);
      TimeEscapes(row.occurredAt.value);
    }
    var cells := CellMembers(row.cells, values);
    var occurred := if row.occurredAt.Some? then Text(UnitsFor(row.occurredAt.value)) else Null;
    var three := Members.Member(UnitsFor("occurred_at"), occurred, cells);
    var two := Members.Member(UnitsFor("received_at"), Text(UnitsFor(row.receivedAt)), three);
    KeysStep(UnitsFor("occurred_at"), occurred, cells);
    KeysStep(UnitsFor("received_at"), Text(UnitsFor(row.receivedAt)), three);
    KeysStep(UnitsFor("id"), Text(UnitsFor(row.id)), two);
    RowPrints(row, values, occurred, three, two);
    MemberValid(UnitsFor("occurred_at"), occurred, cells);
    MemberValid(UnitsFor("received_at"), Text(UnitsFor(row.receivedAt)), three);
    MemberValid(UnitsFor("id"), Text(UnitsFor(row.id)), two);
    assert RowObject(row, values) == Members.Member(UnitsFor("id"), Text(UnitsFor(row.id)), two);
    assert ["id"] + (["received_at"] + (["occurred_at"] + CellNames(row.cells)))
        == ["id", "received_at", "occurred_at"] + CellNames(row.cells);
  }

  lemma MemberValid(key: seq<Unit>, value: Value, tail: Members)
    requires ValidUnits(key) && ValidValue(value) && ValidMembers(tail)
    ensures ValidMembers(Members.Member(key, value, tail))
  {
  }

  lemma OwnNames()
    ensures Quoted(UnitsFor("id")) == "\"" + "id" + "\"" && Decode(UnitsFor("id")) == "id" && ValidUnits(UnitsFor("id"))
    ensures Quoted(UnitsFor("received_at")) == "\"" + "received_at" + "\""
    ensures Decode(UnitsFor("received_at")) == "received_at" && ValidUnits(UnitsFor("received_at"))
    ensures Quoted(UnitsFor("occurred_at")) == "\"" + "occurred_at" + "\""
    ensures Decode(UnitsFor("occurred_at")) == "occurred_at" && ValidUnits(UnitsFor("occurred_at"))
  {
    hide Quoted, UnitsFor, Decode, ValidUnits;
    PlainKey("id");
    PlainKey("received_at");
    PlainKey("occurred_at");
  }

  lemma RowPrints(row: Row, values: seq<Value>, occurred: Value, three: Members, two: Members)
    requires |values| == |row.cells|
    requires occurred == if row.occurredAt.Some? then Text(UnitsFor(row.occurredAt.value)) else Null
    requires three == Members.Member(UnitsFor("occurred_at"), occurred, CellMembers(row.cells, values))
    requires two == Members.Member(UnitsFor("received_at"), Text(UnitsFor(row.receivedAt)), three)
    requires CellsText(row.cells) == if row.cells == [] then "" else "," + PrintMembers(CellMembers(row.cells, values))
    requires JsonString(row.id) == Quoted(UnitsFor(row.id))
    requires "\"" + row.receivedAt + "\"" == Quoted(UnitsFor(row.receivedAt))
    requires row.occurredAt.Some? ==> "\"" + row.occurredAt.value + "\"" == Quoted(UnitsFor(row.occurredAt.value))
    ensures RowText(row) == Print(Object(Members.Member(UnitsFor("id"), Text(UnitsFor(row.id)), two)))
  {
    hide Quoted, JsonString, UnitsFor, CellsText, CellMembers, PrintMembers, ValidUnits, Decode;
    OwnNames();
    NoCells(row.cells, values);
    MemberPrints(UnitsFor("occurred_at"), occurred, CellMembers(row.cells, values));
    MemberPrints(UnitsFor("received_at"), Text(UnitsFor(row.receivedAt)), three);
    MemberPrints(UnitsFor("id"), Text(UnitsFor(row.id)), two);
    IdKey();
    ReceivedKey();
    OccurredKey();
    Glue("{", "\"" + "id" + "\"", ":", JsonString(row.id), ",", "\"" + "received_at" + "\"", "\"", row.receivedAt,
         "\"" + "occurred_at" + "\"", if row.occurredAt.Some? then "\"" + row.occurredAt.value + "\"" else "null",
         CellsText(row.cells), "}");
  }

  lemma NoCells(cells: seq<Cell>, values: seq<Value>)
    requires |values| == |cells|
    ensures cells == [] <==> CellMembers(cells, values) == NoMembers
  {
  }

  /** The same text, its parts taken together in two ways. */
  lemma Glue(open: string, idKey: string, colon: string, id: string, comma: string, receivedKey: string, quote: string,
             received: string, occurredKey: string, occurred: string, cells: string, close: string)
    ensures open + (idKey + colon + id
                    + (comma + (receivedKey + colon + (quote + received + quote) + (comma + (occurredKey + colon + occurred + cells)))))
            + close
            == (open + idKey + colon) + id + (comma + receivedKey + colon + quote) + received
               + (quote + comma + occurredKey + colon) + occurred + cells + close
  {
    var three := occurredKey + colon + occurred + cells;
    var two := receivedKey + colon + (quote + received + quote) + (comma + three);
    assert comma + two == (comma + receivedKey + colon + quote) + received + (quote + (comma + three));
    assert quote + (comma + three) == (quote + comma + occurredKey + colon) + occurred + cells;
  }

  /** Whatever padding and merging a row went through, no two of its text's keys are the
      same: its fields are the schema's, each once, and none has the name of one of its own
      columns. */
  lemma RowKeysDistinct(row: Row, l: Line, schema: Schema)
    requires LegalNames(schema) && Shows(row, l, schema)
    ensures ScanRules.Distinct(["id", "received_at", "occurred_at"] + CellNames(row.cells))
  {
    hide ScanRules.Distinct, CellNames, CellShows, ScanRules.LegalKey, NamesIn;
    NamesApart(row.cells);
    var names := CellNames(row.cells);
    forall n | n in names
      ensures n != "id" && n != "received_at" && n != "occurred_at"
    {
      assert ScanRules.LegalKey(n);
      LegalIsNoColumn(n);
    }
    OwnColumnsFirst(names);
  }

  lemma LegalIsNoColumn(name: string)
    requires ScanRules.LegalKey(name)
    ensures name != "id" && name != "received_at" && name != "occurred_at"
  {
    hide Utf8.BytesOf;
  }

  lemma OwnColumnsFirst(names: seq<string>)
    requires ScanRules.Distinct(names) && "id" !in names && "received_at" !in names && "occurred_at" !in names
    ensures ScanRules.Distinct(["id", "received_at", "occurred_at"] + names)
  {
    var keys := ["id", "received_at", "occurred_at"] + names;
    assert keys[0] == "id" && keys[1] == "received_at" && keys[2] == "occurred_at";
    assert |keys[0]| == 2 && |keys[1]| == 11 && |keys[2]| == 11 && keys[1][0] == 'r' && keys[2][0] == 'o';
    assert forall i :: 3 <= i < |keys| ==> keys[i] == names[i - 3] && names[i - 3] in names;
    forall i, j | 0 <= i < j < |keys|
      ensures keys[i] != keys[j]
    {
      if i >= 3 {
        assert names[i - 3] != names[j - 3];
      }
    }
  }

  lemma {:induction false} NamesApart(cells: seq<Cell>)
    ensures |NamesIn(cells)| <= |cells| && forall n :: n in CellNames(cells) <==> n in NamesIn(cells)
    ensures |NamesIn(cells)| == |cells| ==> ScanRules.Distinct(CellNames(cells))
  {
    if cells == [] {
      assert NamesIn(cells) == {};
    } else {
      hide ScanRules.Distinct, ScanRules.LegalKey, ScanRules.LegalKeys;
      var name, rest := cells[0].name, cells[1..];
      NamesApart(rest);
      assert cells == [cells[0]] + rest;
      assert NamesIn(cells) == {name} + NamesIn(rest);
      assert name in NamesIn(rest) ==> NamesIn(cells) == NamesIn(rest);
      ScanRules.KeysCons(name, CellNames(rest));
    }
  }

  // ---------------------------------------------------------------- Lines

  /** What a line says besides the id and arrival: the time given, if any, and the data. */
  function LineRest(l: Line, data: Value): Members {
    var last := Members.Member(UnitsFor("data"), data, NoMembers);
    if l.piece.occurredAt.Some?
    then Members.Member(UnitsFor("occurred_at"), Text(UnitsFor(Times.Rfc3339(l.piece.occurredAt.value))), last)
    else last
  }

  function LineObject(l: Line, data: Value): Members {
    Members.Member(UnitsFor("id"), Text(UnitsFor(l.piece.id)),
      Members.Member(UnitsFor("received_at"), Text(UnitsFor(l.receivedAt)), LineRest(l, data)))
  }

  /** A line is the JSON object of its piece, and a newline. */
  lemma LineReads(l: Line, data: Value)
    requires ValidValue(data) && l.piece.data == Print(data) && IsTime(l.receivedAt)
    requires l.piece.occurredAt.Some? ==> IsTime(Times.Rfc3339(l.piece.occurredAt.value))
    ensures ValidMembers(LineObject(l, data)) && LineText(l) == Print(Object(LineObject(l, data))) + "\n"
  {
    hide Quoted, JsonString, UnitsFor, Decode, PrintMembers, IsTime, ValidUnits, Times.Rfc3339, LineRest;
    OwnNames();
    JsonStringReads(l.piece.id);
    JsonStringReads(l.receivedAt);
    TimeEscapes(l.receivedAt);
    LineRestPrints(l, data);
    var rest := LineRest(l, data);
    var two := Members.Member(UnitsFor("received_at"), Text(UnitsFor(l.receivedAt)), rest);
    MemberPrints(UnitsFor("received_at"), Text(UnitsFor(l.receivedAt)), rest);
    MemberPrints(UnitsFor("id"), Text(UnitsFor(l.piece.id)), two);
    IdKey();
    ReceivedKey();
    MemberValid(UnitsFor("received_at"), Text(UnitsFor(l.receivedAt)), rest);
    MemberValid(UnitsFor("id"), Text(UnitsFor(l.piece.id)), two);
    var occurred := if l.piece.occurredAt.Some? then ",\"occurred_at\":\"" + Times.Rfc3339(l.piece.occurredAt.value) + "\"" else "";
    GlueLine("{", "\"" + "id" + "\"", ":", JsonString(l.piece.id), ",", "\"" + "received_at" + "\"", "\"", l.receivedAt,
             occurred, ",\"data\":", l.piece.data);
  }

  lemma LineRestPrints(l: Line, data: Value)
    requires ValidValue(data) && l.piece.data == Print(data)
    requires l.piece.occurredAt.Some? ==> IsTime(Times.Rfc3339(l.piece.occurredAt.value))
    ensures ValidMembers(LineRest(l, data)) && LineRest(l, data).Member?
    ensures "," + PrintMembers(LineRest(l, data))
            == (if l.piece.occurredAt.Some? then ",\"occurred_at\":\"" + Times.Rfc3339(l.piece.occurredAt.value) + "\"" else "")
               + ",\"data\":" + l.piece.data
  {
    hide PrintMembers, ValidMembers, IsTime, Times.Rfc3339, Print, ValidValue, UnitsFor;
    var last := Members.Member(UnitsFor("data"), data, NoMembers);
    DataPrints(data);
    var text := ",\"data\":" + l.piece.data;
    assert "" + text == text;
    if l.piece.occurredAt.Some? {
      OccurredPrints(Times.Rfc3339(l.piece.occurredAt.value), last, text);
    }
  }

  lemma DataPrints(data: Value)
    requires ValidValue(data)
    ensures var last := Members.Member(UnitsFor("data"), data, NoMembers);
            ValidMembers(last) && "," + PrintMembers(last) == ",\"data\":" + Print(data)
  {
    hide Quoted, JsonString, UnitsFor, Decode, PrintMembers, IsTime, ValidUnits, Print, ValidValue;
    PlainTimes();
    PlainKey("data");
    DataKey();
    MemberPrints(UnitsFor("data"), data, NoMembers);
    MemberValid(UnitsFor("data"), data, NoMembers);
  }

  lemma OccurredPrints(at: string, last: Members, text: string)
    requires IsTime(at) && ValidMembers(last) && last.Member? && "," + PrintMembers(last) == text
    ensures var all := Members.Member(UnitsFor("occurred_at"), Text(UnitsFor(at)), last);
            ValidMembers(all) && "," + PrintMembers(all) == (",\"occurred_at\":\"" + at + "\"") + text
  {
    hide Quoted, JsonString, UnitsFor, Decode, PrintMembers, IsTime, ValidUnits, Print, ValidValue, ValidMembers;
    OwnNames();
    JsonStringReads(at);
    TimeEscapes(at);
    AtPrints(at);
    MemberPrints(UnitsFor("occurred_at"), Text(UnitsFor(at)), last);
    AtKey();
    GlueAt(",", "\"" + "occurred_at" + "\"", ":", "\"", at, text);
    MemberValid(UnitsFor("occurred_at"), Text(UnitsFor(at)), last);
  }

  lemma PlainTimes()
    ensures IsTime("data")
  {
  }

  lemma AtPrints(at: string)
    ensures Print(Text(UnitsFor(at))) == Quoted(UnitsFor(at))
    ensures ValidUnits(UnitsFor(at)) ==> ValidValue(Text(UnitsFor(at)))
  {
  }

  lemma DataKey()
    ensures "," + ("\"" + "data" + "\"" + ":") == ",\"data\":"
  {
  }

  lemma AtKey()
    ensures "," + ("\"" + "occurred_at" + "\"") + ":" + "\"" == ",\"occurred_at\":\""
  {
  }

  lemma GlueAt(comma: string, key: string, colon: string, quote: string, at: string, text: string)
    ensures comma + (key + colon + (quote + at + quote) + text) == (comma + key + colon + quote) + at + quote + text
  {
  }

  lemma GlueLine(open: string, idKey: string, colon: string, id: string, comma: string, receivedKey: string, quote: string,
                 received: string, occurred: string, dataKey: string, data: string)
    ensures open + (idKey + colon + id + (comma + (receivedKey + colon + (quote + received + quote) + (occurred + dataKey + data))))
            + "}" + "\n"
            == (open + idKey + colon) + id + (comma + receivedKey + colon + quote) + received + quote + occurred + dataKey + data + "}\n"
  {
    assert "}" + "\n" == "}\n";
    var rest := occurred + dataKey + data;
    assert comma + (receivedKey + colon + (quote + received + quote) + rest)
        == (comma + receivedKey + colon + quote) + received + (quote + rest);
  }
}
