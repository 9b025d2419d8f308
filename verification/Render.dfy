/** render of mock/event-pieces.ts: a row of the events table as its piece's Markdown
    document. */
module Rendering {
  import opened Options
  import opened Utf8

  const MAX_VALUE: nat := 500
  const MAX_TITLE: nat := 120
  const MAX_LISTED: nat := 20
  const MAX_PATH: nat := 3
  const MAX_NESTED_LINES: nat := 50

  /** A parsed value, its numbers as written. An object's members are in the order its
      text has them, each key once. */
  datatype Json =
    | Literal(text: string)
    | Bool(b: bool)
    | Text(text: string)
    | Nothing
    | List(items: seq<Json>)
    | Record(members: seq<Member>)

  datatype Member = Member(name: string, value: Json)

  /** A row read back: its own columns, then its fields in the order it holds them. */
  datatype Row = Row(id: string, receivedAt: string, occurredAt: Option<string>, fields: seq<Member>)

  datatype Rendered = Rendered(title: string, body: string)

  /** One line of a document's list; nested is one of a field inside an object. */
  datatype FieldLine = FieldLine(line: string, nested: bool)

  // ---------------------------------------------------------------- Text on one line

  predicate IsBreak(c: char) {
    '\n' <= c <= '\r' || c == '\U{0085}' || c == '\U{2028}' || c == '\U{2029}'
  }

  /** The White_Space property. */
  predicate IsWhite(c: char) {
    || '\t' <= c <= '\r' || c == ' ' || c == '\U{0085}' || c == '\U{00A0}' || c == '\U{1680}' || '\U{2000}' <= c <= '\U{200A}'
    || c == '\U{2028}' || c == '\U{2029}' || c == '\U{202F}' || c == '\U{205F}' || c == '\U{3000}'
  }

  /** The runs of characters that do not separate, in order. */
  function Parts(s: string, separates: char -> bool): seq<string> {
    if s == "" then []
    else
      var n := |s| - 1;
      var before := Parts(s[..n], separates);
      if separates(s[n]) then before
      else if n > 0 && !separates(s[n - 1]) && before != [] then
        before[..|before| - 1] + [before[|before| - 1] + [s[n]]]
      else before + [[s[n]]]
  }

  function Join(parts: seq<string>, between: string): string {
    if parts == [] then "" else if |parts| == 1 then parts[0]
    else Join(parts[..|parts| - 1], between) + between + parts[|parts| - 1]
  }

  /** At most n characters, the last an ellipsis when it is cut. */
  function Cut(s: string, n: nat): string
    requires n > 0
  {
    if |s| > n then s[..n - 1] + "\U{2026}" else s
  }

  function OneLine(s: string): string {
    Cut(Join(Parts(s, IsBreak), " "), MAX_VALUE)
  }

  /** The first line that is not blank, its spaces collapsed; "" when all are. */
  function Title(text: string): string {
    FirstWords(Parts(text, IsBreak))
  }

  function FirstWords(lines: seq<string>): string {
    if lines == [] then ""
    else
      var words := Parts(lines[0], IsWhite);
      if words != [] then Cut(Join(words, " "), MAX_TITLE) else FirstWords(lines[1..])
  }

  // ---------------------------------------------------------------- Values

  function Scalar(v: Json): string {
    match v
    case Literal(text) => text
    case Bool(b) => if b then "true" else "false"
    case Text(text) => OneLine(text)
    case _ => ""
  }

  predicate IsScalar(v: Json) {
    !v.List? && !v.Record?
  }

  /** A scalar or an array as its line shows it; grouped writes a count. */
  function Shown(v: Json, grouped: nat -> string): string {
    if !v.List? || v.items == [] then Scalar(v)
    else if exists i :: 0 <= i < |v.items| && !IsScalar(v.items[i]) then
      if |v.items| == 1 then "1 record" else grouped(|v.items|) + " records"
    else
      var listed := if |v.items| > MAX_LISTED then v.items[..MAX_LISTED] else v.items;
      Join(Listed(listed), ", ")
      + if |v.items| > MAX_LISTED then ", and " + grouped(|v.items| - MAX_LISTED) + " more" else ""
  }

  function Listed(items: seq<Json>): seq<string> {
    if items == [] then []
    else
      var last := items[|items| - 1];
      Listed(items[..|items| - 1]) + [if last.Nothing? then "null" else Scalar(last)]
  }

  // ---------------------------------------------------------------- Lines

  function NamesIn(members: seq<Member>): set<string> {
    set m | m in members :: m.name
  }

  function ValueIn(members: seq<Member>, name: string): Json {
    if members == [] then Nothing
    else if members[|members| - 1].name == name then members[|members| - 1].value
    else ValueIn(members[..|members| - 1], name)
  }

  /** The lines of the value at path, depth deep: one for a value with something to
      show, and those of an object's keys, by byte order of key. */
  function FieldLines(path: string, v: Json, depth: nat, grouped: nat -> string): seq<FieldLine>
    decreases MAX_PATH - depth, 0
  {
    if v.Record? then
      if depth < MAX_PATH then KeyLines(path + ".", v.members, SortNames(NamesIn(v.members)), depth + 1, grouped) else []
    else
      var value := Shown(v, grouped);
      if value != "" then [FieldLine("- " + path + ": " + value, depth > 1)] else []
  }

  /** The lines of the named members, in turn, each name's path after prefix. */
  function KeyLines(prefix: string, members: seq<Member>, names: seq<string>, depth: nat, grouped: nat -> string): seq<FieldLine>
    decreases MAX_PATH - depth, |names| + 1
  {
    if names == [] then []
    else
      var last := names[|names| - 1];
      KeyLines(prefix, members, names[..|names| - 1], depth, grouped)
      + FieldLines(prefix + OneLine(last), ValueIn(members, last), depth, grouped)
  }

  function CountNested(lines: seq<FieldLine>): nat {
    if lines == [] then 0 else CountNested(lines[..|lines| - 1]) + if lines[|lines| - 1].nested then 1 else 0
  }

  /** A line of a top-level field is always kept, and the first so many of the fields
      inside objects, counted across all fields. */
  predicate KeepsLine(lines: seq<FieldLine>, i: nat)
    requires i < |lines|
  {
    !lines[i].nested || CountNested(lines[..i]) < MAX_NESTED_LINES
  }

  function KeptLines(lines: seq<FieldLine>): string {
    if lines == [] then ""
    else
      var n := |lines| - 1;
      KeptLines(lines[..n]) + if KeepsLine(lines, n) then lines[n].line + "\n" else ""
  }

  /** A document's list, counting the nested lines as it goes. */
  method WriteLines(lines: seq<FieldLine>) returns (text: string)
    ensures text == KeptLines(lines)
  {
    text := "";
    var nested := 0;
    for i := 0 to |lines|
      invariant text == KeptLines(lines[..i]) && nested == CountNested(lines[..i])
    {
      assert lines[..i + 1][..i] == lines[..i];
      if !lines[i].nested || nested < MAX_NESTED_LINES {
        text := text + (lines[i].line + "\n");
      } else {
        assert KeptLines(lines[..i]) + "" == KeptLines(lines[..i]);
      }
      if lines[i].nested {
        nested := nested + 1;
      }
    }
    assert lines[..|lines|] == lines;
  }

  function TextOf(row: Row, textField: string): string {
    var value := ValueIn(row.fields, textField);
    if value.Text? then value.text else ""
  }

  function LinesOf(row: Row, textField: string, grouped: nat -> string): seq<FieldLine> {
    KeyLines("", row.fields, SortNames(NamesIn(row.fields) - {textField}), 1, grouped)
  }

  function Render(row: Row, textField: string, grouped: nat -> string): Rendered {
    var text := TextOf(row, textField);
    var heading := Title(text);
    var title := if heading != "" then heading else row.id;
    Rendered(title,
             "# " + title + "\n\n- Piece: " + row.id + "\n"
             + (if row.occurredAt.Some? then "- Occurred: " + row.occurredAt.value + "\n" else "")
             + KeptLines(LinesOf(row, textField, grouped))
             + (if heading != "" then "\n" + text else ""))
  }

  // ---------------------------------------------------------------- What rendering ignores

  /** The rows are of one piece, and every field has the same value in both, one that
      lacks a field being as one that holds null. */
  ghost predicate SamePiece(a: Row, b: Row) {
    && a.id == b.id && a.occurredAt == b.occurredAt
    && forall name :: ValueIn(a.fields, name) == ValueIn(b.fields, name)
  }

  lemma {:induction false} KeyLinesConcat(prefix: string, members: seq<Member>, a: seq<string>, b: seq<string>, depth: nat,
                                          grouped: nat -> string)
    ensures KeyLines(prefix, members, a + b, depth, grouped)
            == KeyLines(prefix, members, a, depth, grouped) + KeyLines(prefix, members, b, depth, grouped)
  {
    hide FieldLines, OneLine, ValueIn;
    if b == [] {
      assert a + b == a;
    } else {
      var n := |b| - 1;
      assert (a + b)[..|a| + n] == a + b[..n];
      KeyLinesConcat(prefix, members, a, b[..n], depth, grouped);
    }
  }

  lemma NothingShows(path: string, depth: nat, grouped: nat -> string)
    ensures FieldLines(path, Nothing, depth, grouped) == []
  {
  }

  lemma OneKey(prefix: string, members: seq<Member>, name: string, depth: nat, grouped: nat -> string)
    ensures KeyLines(prefix, members, [name], depth, grouped)
            == FieldLines(prefix + OneLine(name), ValueIn(members, name), depth, grouped)
  {
    hide FieldLines, OneLine, ValueIn;
    assert [name][..0] == [];
    assert KeyLines(prefix, members, [], depth, grouped) == [];
  }

  lemma DropOne(prefix: string, members: seq<Member>, names: seq<string>, k: nat, depth: nat, grouped: nat -> string)
    requires k < |names| && ValueIn(members, names[k]) == Nothing
    ensures KeyLines(prefix, members, names, depth, grouped) == KeyLines(prefix, members, names[..k] + names[k + 1..], depth, grouped)
  {
    hide FieldLines, OneLine, ValueIn, KeyLines;
    var a, b := names[..k], names[k + 1..];
    assert names == a + ([names[k]] + b);
    KeyLinesConcat(prefix, members, a, [names[k]] + b, depth, grouped);
    KeyLinesConcat(prefix, members, [names[k]], b, depth, grouped);
    KeyLinesConcat(prefix, members, a, b, depth, grouped);
    OneKey(prefix, members, names[k], depth, grouped);
    NothingShows(prefix + OneLine(names[k]), depth, grouped);
    var rest := KeyLines(prefix, members, b, depth, grouped);
    assert [] + rest == rest;
  }

  /** Names without a value have no lines. */
  lemma {:induction false} WithoutNothing(prefix: string, members: seq<Member>, names: set<string>, fewer: set<string>, depth: nat,
                                          grouped: nat -> string)
    requires fewer <= names && forall name :: name in names - fewer ==> ValueIn(members, name) == Nothing
    ensures KeyLines(prefix, members, SortNames(names), depth, grouped) == KeyLines(prefix, members, SortNames(fewer), depth, grouped)
    decreases |names|
  {
    hide FieldLines, OneLine, ValueIn, SortNames, KeyLines;
    if names - fewer != {} {
      var name :| name in names - fewer;
      var k := SortWithout(names, name);
      var sorted := SortNames(names);
      DropOne(prefix, members, sorted, k, depth, grouped);
      WithoutNothing(prefix, members, names - {name}, fewer, depth, grouped);
    } else {
      assert names == fewer;
    }
  }

  lemma {:induction false} SameKeyLines(prefix: string, a: seq<Member>, b: seq<Member>, names: seq<string>, depth: nat,
                                        grouped: nat -> string)
    requires forall name :: ValueIn(a, name) == ValueIn(b, name)
    ensures KeyLines(prefix, a, names, depth, grouped) == KeyLines(prefix, b, names, depth, grouped)
  {
    hide FieldLines, OneLine, ValueIn;
    if names != [] {
      SameKeyLines(prefix, a, b, names[..|names| - 1], depth, grouped);
    }
  }

  lemma {:induction false} Unheld(members: seq<Member>, name: string)
    ensures name !in NamesIn(members) ==> ValueIn(members, name) == Nothing
  {
    if members != [] {
      var n := |members| - 1;
      assert members == members[..n] + [members[n]];
      Unheld(members[..n], name);
    }
  }

  /** A row renders the same whenever it arrived, whatever the order of its columns,
      and however many of them were padded with null. */
  lemma RenderStable(a: Row, b: Row, textField: string, grouped: nat -> string)
    requires SamePiece(a, b)
    ensures Render(a, textField, grouped) == Render(b, textField, grouped)
  {
    hide KeyLines, ValueIn, SortNames, KeptLines, Title;
    var mine, theirs := NamesIn(a.fields) - {textField}, NamesIn(b.fields) - {textField};
    forall name
      ensures name !in NamesIn(a.fields) || name !in NamesIn(b.fields) ==> ValueIn(a.fields, name) == Nothing
    {
      Unheld(a.fields, name);
      Unheld(b.fields, name);
    }
    WithoutNothing("", a.fields, mine, mine * theirs, 1, grouped);
    WithoutNothing("", b.fields, theirs, mine * theirs, 1, grouped);
    SameKeyLines("", a.fields, b.fields, SortNames(mine * theirs), 1, grouped);
  }

  /** Padding a row with null for fields it lacks keeps it the same piece. */
  lemma {:induction false} PaddedIsSame(row: Row, names: seq<string>)
    requires forall name :: name in names ==> name !in NamesIn(row.fields)
    ensures SamePiece(row, row.(fields := row.fields + NullsFor(names)))
  {
    hide ValueIn;
    if names == [] {
      assert row.fields + [] == row.fields;
    } else {
      var n := |names| - 1;
      PaddedIsSame(row, names[..n]);
      var padded := row.fields + NullsFor(names[..n]);
      assert names[n] in names;
      LastMember(padded, Member.Member(names[n], Nothing));
      Unheld(row.fields, names[n]);
      assert row.fields + NullsFor(names) == padded + [Member.Member(names[n], Nothing)];
    }
  }

  function NullsFor(names: seq<string>): seq<Member> {
    if names == [] then [] else NullsFor(names[..|names| - 1]) + [Member.Member(names[|names| - 1], Nothing)]
  }

  lemma LastMember(members: seq<Member>, m: Member)
    ensures forall name :: ValueIn(members + [m], name) == if name == m.name then m.value else ValueIn(members, name)
  {
    assert (members + [m])[..|members|] == members;
  }

  /** A row's columns each have a name of their own. */
  predicate DistinctNames(members: seq<Member>) {
    forall i, j :: 0 <= i < j < |members| ==> members[i].name != members[j].name
  }

  /** A column's value is the one under its name. */
  lemma {:induction false} HeldValue(members: seq<Member>, k: nat)
    requires DistinctNames(members) && k < |members|
    ensures ValueIn(members, members[k].name) == members[k].value
  {
    var n := |members| - 1;
    if k < n {
      HeldValue(members[..n], k);
    }
  }

  /** The same columns in any order are the same piece. */
  lemma AnyOrderIsSame(a: Row, b: Row)
    requires a.id == b.id && a.occurredAt == b.occurredAt
    requires DistinctNames(a.fields) && multiset(a.fields) == multiset(b.fields) && DistinctNames(b.fields)
    ensures SamePiece(a, b)
  {
    hide ValueIn;
    forall name
      ensures ValueIn(a.fields, name) == ValueIn(b.fields, name)
    {
      Unheld(a.fields, name);
      Unheld(b.fields, name);
      if name in NamesIn(a.fields) {
        SharedValue(a.fields, b.fields, name);
      } else if name in NamesIn(b.fields) {
        SharedValue(b.fields, a.fields, name);
      }
    }
  }

  lemma SharedValue(a: seq<Member>, b: seq<Member>, name: string)
    requires DistinctNames(a) && DistinctNames(b) && multiset(a) == multiset(b) && name in NamesIn(a)
    ensures ValueIn(a, name) == ValueIn(b, name)
  {
    hide ValueIn, DistinctNames;
    var m :| m in a && m.name == name;
    assert m in multiset(b);
    var i :| 0 <= i < |a| && a[i] == m;
    var j :| 0 <= j < |b| && b[j] == m;
    HeldValue(a, i);
    HeldValue(b, j);
  }
}
