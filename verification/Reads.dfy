/** The reads of connector/events.go: Start, SyncDocuments with copySnapshot, and
    Changes, with the change set's merge of snapshot/changes.go. */
module Reads {
  import opened Options
  import opened JsonText
  import opened Schemas
  import opened Rows
  import opened Tables

  /** One stored send: its place among the source's sends, from 1, and its lines. */
  datatype Batch = Batch(seqNo: nat, lines: seq<Line>, bytes: nat)

  /** What bounds one read. */
  datatype ReadBudget = ReadBudget(batches: nat, pieces: nat, bytes: nat)

  /** A send that may be stored between two queries of a read: its lines, and
      the schema once its fields joined. */
  datatype Arrival = Arrival(lines: seq<Line>, bytes: nat, schema: Schema)

  /** Gone is batches that were read as waiting and are no longer there. */
  datatype Read<T> = Read(value: T) | Gone

  const PARSED_FIELD_BYTES: nat := 64

  function LinesOf(batches: seq<Batch>): seq<Line> {
    if batches == [] then [] else LinesOf(batches[..|batches| - 1]) + batches[|batches| - 1].lines
  }

  lemma {:induction false} LinesConcat(a: seq<Batch>, b: seq<Batch>)
    ensures LinesOf(a + b) == LinesOf(a) + LinesOf(b)
  {
    if b == [] {
      assert a + b == a;
    } else {
      var n := |b| - 1;
      assert (a + b)[..|a| + n] == a + b[..n];
      LinesConcat(a, b[..n]);
    }
  }

  /** Every line of the batches holds only fields of the schema. */
  ghost predicate Hold(batches: seq<Batch>, schema: Schema) {
    forall i :: 0 <= i < |batches| ==> AllWithin(batches[i].lines, schema)
  }

  lemma {:induction false} HoldLines(batches: seq<Batch>, schema: Schema)
    requires Hold(batches, schema)
    ensures AllWithin(LinesOf(batches), schema)
  {
    hide Within;
    if batches != [] {
      HoldLines(batches[..|batches| - 1], schema);
    }
  }

  lemma HoldLater(batches: seq<Batch>, schema: Schema, later: Schema)
    requires Hold(batches, schema) && Extends(later, schema)
    ensures Hold(batches, later)
  {
  }

  lemma CarriedLater(table: Table, schema: Schema, later: Schema)
    requires Carried(table, schema) && Extends(later, schema)
    ensures Carried(table, later)
  {
    hide NamesOf;
    assert schema.Keys <= later.Keys;
  }

  /** The batches are numbered in order from after + 1. */
  predicate Numbered(batches: seq<Batch>, after: nat) {
    forall i :: 0 <= i < |batches| ==> batches[i].seqNo == after + i + 1
  }

  /** The batches numbered from + 1 to upto. */
  function Between(batches: seq<Batch>, from: nat, upto: nat): seq<Batch> {
    if from <= upto <= |batches| then batches[from..upto] else []
  }

  // ---------------------------------------------------------------- The budget

  function PiecesOf(batches: seq<Batch>): nat {
    if batches == [] then 0 else PiecesOf(batches[..|batches| - 1]) + |batches[|batches| - 1].lines|
  }

  function CostOf(batches: seq<Batch>, perPiece: nat): nat {
    if batches == [] then 0
    else
      var last := batches[|batches| - 1];
      CostOf(batches[..|batches| - 1], perPiece) + last.bytes + |last.lines| * perPiece
  }

  predicate InBudget(budget: ReadBudget, perPiece: nat, batches: seq<Batch>) {
    |batches| <= budget.batches && PiecesOf(batches) <= budget.pieces && CostOf(batches, perPiece) <= budget.bytes
  }

  /** What one piece costs a read besides its line. */
  function PerPiece(schema: Schema): nat {
    Fill(schema.Keys) + PARSED_FIELD_BYTES * |schema|
  }

  /** How many of the batches one read takes: those of the longest run, from the first,
      within every bound, and always the first. */
  function Takes(budget: ReadBudget, perPiece: nat, batches: seq<Batch>): (n: nat)
    ensures n <= |batches| && (batches != [] ==> n > 0)
  {
    if |batches| <= 1 then |batches|
    else
      var n := |batches| - 1;
      if Takes(budget, perPiece, batches[..n]) == n && InBudget(budget, perPiece, batches) then n + 1
      else Takes(budget, perPiece, batches[..n])
  }

  lemma {:induction false} BudgetOfFewer(budget: ReadBudget, perPiece: nat, batches: seq<Batch>, k: nat)
    requires k <= |batches| && InBudget(budget, perPiece, batches)
    ensures InBudget(budget, perPiece, batches[..k])
  {
    if k < |batches| {
      var n := |batches| - 1;
      BudgetOfFewer(budget, perPiece, batches[..n], k);
      assert batches[..n][..k] == batches[..k];
    } else {
      assert batches[..k] == batches;
    }
  }

  /** A read takes at least k of the batches exactly when those are one at most, or
      within the budget. */
  lemma {:induction false} TakesIff(budget: ReadBudget, perPiece: nat, batches: seq<Batch>, k: nat)
    requires k <= |batches|
    ensures k <= Takes(budget, perPiece, batches) <==> k <= 1 || InBudget(budget, perPiece, batches[..k])
  {
    hide InBudget;
    if |batches| > 1 {
      var n := |batches| - 1;
      TakesIff(budget, perPiece, batches[..n], if k < n then k else n);
      assert batches[..n][..n] == batches[..n] && batches[..|batches|] == batches;
      if k <= n {
        assert batches[..n][..k] == batches[..k];
      } else if InBudget(budget, perPiece, batches) {
        BudgetOfFewer(budget, perPiece, batches, n);
      }
    }
  }

  /** Under the same schema more batches waiting are never taken fewer. */
  lemma TakesNoFewer(budget: ReadBudget, perPiece: nat, batches: seq<Batch>, more: seq<Batch>)
    ensures Takes(budget, perPiece, batches) <= Takes(budget, perPiece, batches + more)
  {
    hide InBudget, Takes;
    var k := Takes(budget, perPiece, batches);
    TakesIff(budget, perPiece, batches, k);
    TakesIff(budget, perPiece, batches + more, k);
    assert (batches + more)[..k] == batches[..k];
  }

  /** One read asks the store for no more batches than its bound, and takes of them
      what it would of all. */
  lemma TakesOfLimit(budget: ReadBudget, perPiece: nat, batches: seq<Batch>)
    requires 1 <= budget.batches <= |batches|
    ensures Takes(budget, perPiece, batches[..budget.batches]) == Takes(budget, perPiece, batches)
  {
    hide Takes;
    var few := batches[..budget.batches];
    var n, m := Takes(budget, perPiece, few), Takes(budget, perPiece, batches);
    TakesIff(budget, perPiece, batches, m);
    assert m <= budget.batches;
    TakesIff(budget, perPiece, few, m);
    TakesIff(budget, perPiece, few, n);
    TakesIff(budget, perPiece, batches, n);
    assert few[..m] == batches[..m] && few[..n] == batches[..n];
  }

  method Cut(budget: ReadBudget, schema: Schema, batches: seq<Batch>) returns (taken: seq<Batch>)
    ensures taken == batches[..Takes(budget, PerPiece(schema), batches)]
  {
    hide PerPiece, Takes;
    var perPiece := PerPiece(schema);
    var pieces, bytes := 0, 0;
    for i := 0 to |batches|
      invariant pieces == PiecesOf(batches[..i]) && bytes == CostOf(batches[..i], perPiece)
      invariant i <= Takes(budget, perPiece, batches)
    {
      assert batches[..i + 1][..i] == batches[..i];
      pieces := pieces + |batches[i].lines|;
      bytes := bytes + batches[i].bytes + |batches[i].lines| * perPiece;
      TakesIff(budget, perPiece, batches, i + 1);
      if i > 0 && (i >= budget.batches || pieces > budget.pieces || bytes > budget.bytes) {
        return batches[..i];
      }
    }
    assert batches[..|batches|] == batches;
    return batches;
  }

  // ---------------------------------------------------------------- The store

  /** What a read sees of its source: the batches stored so far, the schema they
      taught, and the table as the last sync left it. coming holds the sends that
      will be stored before each of the coming queries, whatever they are. */
  class EventStore {
    var schema: Schema
    var batches: seq<Batch>
    var cursor: nat
    var snapshot: Option<seq<Row>>
    var coming: seq<seq<Arrival>>
    ghost var table: Table

    /** Batches are numbered in order, they and the table hold only fields of the
        schema, and the snapshot lists the table. */
    ghost predicate Valid()
      reads this
    {
      && Numbered(batches, 0)
      && Hold(batches, schema) && Carried(table, schema)
      && (if snapshot.Some? then Lists(snapshot.value, table) else table == map[])
    }

    /** Stores the sends that come before the next query. */
    method Arrive()
      requires Valid()
      modifies this`schema, this`batches, this`coming
      ensures Valid() && old(batches) <= batches && Extends(schema, old(schema))
    {
      hide AllWithin, Lists, Carried;
      if coming == [] {
        return;
      }
      var arrivals := coming[0];
      coming := coming[1..];
      for i := 0 to |arrivals|
        invariant Valid() && old(batches) <= batches && Extends(schema, old(schema))
      {
        var a := arrivals[i];
        if Joins(a) {
          HoldLater(batches, schema, a.schema);
          CarriedLater(table, schema, a.schema);
          JoinsWithin(a);
          batches := batches + [Batch(|batches| + 1, a.lines, a.bytes)];
          schema := a.schema;
        }
      }
    }

    /** A send is stored with a schema that holds its fields and keeps the rest. */
    predicate Joins(a: Arrival)
      reads this
    {
      && (forall name :: name in schema ==> name in a.schema && (schema[name] != FNull ==> a.schema[name] == schema[name]))
      && forall i :: 0 <= i < |a.lines| ==> forall m :: m in a.lines[i].piece.members ==> m.name in a.schema
    }

    lemma JoinsWithin(a: Arrival)
      requires Joins(a)
      ensures AllWithin(a.lines, a.schema)
    {
    }

    /** The schema and the batches above after that one read takes, from one instant. */
    method EventBatchesAfter(after: nat, budget: ReadBudget) returns (read: Schema, next: seq<Batch>)
      requires Valid() && budget.batches >= 1
      modifies this`schema, this`batches, this`coming
      ensures Valid() && old(batches) <= batches && Extends(schema, old(schema))
      ensures read == schema
      ensures next == [] <==> after >= |batches|
      ensures after < |batches| ==>
                && |next| == Takes(budget, PerPiece(schema), batches[after..])
                && next == batches[after..after + |next|]
      ensures Numbered(next, after)
      ensures next != [] ==> next[|next| - 1].seqNo == after + |next|
    {
      hide AllWithin, Lists, InBudget, Carried, Takes, PerPiece;
      Arrive();
      read := schema;
      if after >= |batches| {
        return schema, [];
      }
      var limit := if after + budget.batches < |batches| then after + budget.batches else |batches|;
      if limit < |batches| {
        TakesOfLimit(budget, PerPiece(schema), batches[after..]);
        assert batches[after..][..budget.batches] == batches[after..limit];
      } else {
        assert batches[after..limit] == batches[after..];
      }
      next := Cut(budget, schema, batches[after..limit]);
      assert batches[after..limit][..|next|] == batches[after..after + |next|];
    }
  }

  /** Where the table's rows stand: 0 for a table without a snapshot, which
      holds nothing whatever the cursor says. */
  function TableCursor(stored: nat, snapshot: Option<seq<Row>>): nat {
    if snapshot.None? then 0 else stored
  }

  // ---------------------------------------------------------------- The full read

  /** The seq of the newest batch the full read will take. */
  method Start(store: EventStore, budget: ReadBudget) returns (through: nat)
    requires store.Valid() && budget.batches >= 1
    modifies store`schema, store`batches, store`coming
    ensures store.Valid() && old(store.batches) <= store.batches && Extends(store.schema, old(store.schema))
    ensures var from := TableCursor(store.cursor, store.snapshot);
            if from < |store.batches| then through == from + Takes(budget, PerPiece(store.schema), store.batches[from..])
            else through == from
  {
    hide Hold, Lists, Carried, Takes, PerPiece;
    through := TableCursor(store.cursor, store.snapshot);
    var _, batches := store.EventBatchesAfter(through, budget);
    if |batches| > 0 {
      through := batches[|batches| - 1].seqNo;
    }
  }

  /** The batches of next, which follow batch after, numbered at most through. */
  method TakeThrough(next: seq<Batch>, after: nat, through: nat) returns (taken: seq<Batch>)
    requires Numbered(next, after) && after < through
    ensures taken == next[..Least(|next|, through - after)]
  {
    taken := [];
    for i := 0 to |next|
      invariant taken == next[..i] && i <= through - after
    {
      if next[i].seqNo > through {
        break;
      }
      taken := taken + [next[i]];
    }
  }

  /** The batches above the table's cursor, up to Start's bound: each once and in
      order, however the source's schema grows between the reads, which each cut
      their batches by their own. */
  method Walk(store: EventStore, through: nat, budget: ReadBudget) returns (read: Read<(Schema, seq<Batch>)>)
    requires store.Valid() && budget.batches >= 1
    modifies store`schema, store`batches, store`coming
    ensures store.Valid() && old(store.batches) <= store.batches && Extends(store.schema, old(store.schema))
    ensures var from := TableCursor(store.cursor, store.snapshot);
            && (read.Gone? <==> from < through && |store.batches| < through)
            && (read.Read? ==>
                  var (schema, batches) := read.value;
                  && Extends(schema, old(store.schema)) && Extends(store.schema, schema)
                  && batches == Between(store.batches, from, through) && Hold(batches, schema))
  {
    hide AllWithin, Lists, Between, Extends, Numbered, Hold, Carried, Takes, PerPiece;
    var schema, from := store.schema, TableCursor(store.cursor, store.snapshot);
    var after, batches := from, [];
    ExtendsItself(schema);
    BetweenNone(store.batches, from, through);
    while after < through
      invariant store.Valid() && old(store.batches) <= store.batches
      invariant schema == store.schema && Extends(schema, old(store.schema))
      invariant from <= after && (after > from ==> after <= |store.batches|)
      invariant batches == Between(store.batches, from, Least(after, through)) && Hold(batches, schema)
      decreases through - after
    {
      ghost var before := store.batches;
      var newer, next := store.EventBatchesAfter(after, budget);
      ExtendsTransitive(newer, schema, old(store.schema));
      if next == [] {
        return Gone;
      }
      var taken := TakeThrough(next, after, through);
      TakenSlice(store.batches, after, |next|, through);
      batches := batches + taken;
      TakenNext(before, store.batches, from, after, Least(after + |next|, through));
      HoldBetween(store.batches, newer, from, Least(after + |next|, through));
      schema := newer;
      after := next[|next| - 1].seqNo;
    }
    ExtendsItself(schema);
    return Read.Read((schema, batches));
  }

  lemma BetweenNone(batches: seq<Batch>, from: nat, through: nat)
    ensures Between(batches, from, Least(from, through)) == []
    ensures forall schema :: Hold([], schema)
  {
  }

  lemma TakenSlice(batches: seq<Batch>, after: nat, n: nat, through: nat)
    requires after + n <= |batches| && after < through
    ensures batches[after..after + n][..Least(n, through - after)] == batches[after..Least(after + n, through)]
  {
  }

  lemma TakenNext(before: seq<Batch>, batches: seq<Batch>, from: nat, after: nat, upto: nat)
    requires before <= batches && from <= after < upto <= |batches|
    requires after == from || after <= |before|
    ensures Between(before, from, after) + batches[after..upto] == Between(batches, from, upto)
  {
  }

  lemma HoldBetween(batches: seq<Batch>, schema: Schema, from: nat, upto: nat)
    requires Hold(batches, schema)
    ensures Hold(Between(batches, from, upto), schema)
  {
  }

  lemma ExtendsItself(schema: Schema)
    ensures Extends(schema, schema)
  {
  }

  lemma ExtendsTransitive(last: Schema, later: Schema, schema: Schema)
    requires Extends(last, later) && Extends(later, schema)
    ensures Extends(last, schema)
  {
  }

  function Least(a: nat, b: nat): nat {
    if a < b then a else b
  }

  /** The full read: each id's first sighting among the batches, newest first and
      each one's lines last first, then the snapshot's other rows, padded. */
  method FullRead(store: EventStore, through: nat, budget: ReadBudget) returns (read: Read<(Schema, seq<Row>)>)
    requires store.Valid() && budget.batches >= 1
    modifies store`schema, store`batches, store`coming
    ensures store.Valid() && old(store.batches) <= store.batches && Extends(store.schema, old(store.schema))
    ensures var from := TableCursor(store.cursor, store.snapshot);
            && (read.Gone? <==> from < through && |store.batches| < through)
            && (read.Read? ==>
                  var (schema, rows) := read.value;
                  var taken := Between(store.batches, from, through);
                  && Extends(schema, old(store.schema)) && Extends(store.schema, schema) && Hold(taken, schema)
                  && Lists(rows, Merge(store.table, LinesOf(taken), schema))
                  && Dense(Merge(store.table, LinesOf(taken), schema), schema.Keys))
  {
    hide Hold, Lists, Merge, LinesOf, Between, Extends, TableOf, Carried, Dense;
    ghost var known := store.schema;
    var walked := Walk(store, through, budget);
    if walked.Gone? {
      return Gone;
    }
    var (schema, batches) := walked.value;
    var rows, seen := WriteBatches(batches, schema);
    rows := CopySnapshot(store, schema, LinesOf(batches), rows, seen);
    CarriedLater(store.table, known, schema);
    MergeCarries(store.table, LinesOf(batches), schema);
    return Read.Read((schema, rows));
  }

  /** A sync by a full read: Start, then the read up to its bound. Sends only add batches,
      so none the bound counts is ever gone. */
  method FullSync(store: EventStore, budget: ReadBudget) returns (schema: Schema, rows: seq<Row>, next: nat)
    requires store.Valid() && budget.batches >= 1
    modifies store`schema, store`batches, store`coming
    ensures store.Valid() && old(store.batches) <= store.batches && Extends(store.schema, schema)
    ensures Extends(schema, old(store.schema))
    ensures var from := TableCursor(store.cursor, store.snapshot);
            var taken := LinesOf(Between(store.batches, from, next));
            && (if from < |store.batches| then from <= next <= |store.batches| else next == from)
            && (from < |old(store.batches)| ==> from < next)
            && Lists(rows, Merge(store.table, taken, schema)) && Dense(Merge(store.table, taken, schema), schema.Keys)
  {
    hide Hold, Lists, Merge, LinesOf, Between, Extends, Dense, Carried, Takes, PerPiece;
    next := Start(store, budget);
    ghost var known := store.schema;
    var read := FullRead(store, next, budget);
    schema, rows := read.value.0, read.value.1;
    ExtendsTransitive(schema, known, old(store.schema));
  }

  /** Writes the first sighting of each id, from the last line back. */
  method WriteBatches(batches: seq<Batch>, schema: Schema) returns (rows: seq<Row>, seen: set<string>)
    ensures Lists(rows, Upserted(map[], LinesOf(batches), schema)) && seen == TableOf(rows).Keys
  {
    hide Lists, Upserted;
    rows, seen := [], {};
    ghost var after: seq<Line> := [];
    NothingListed(schema);
    assert batches[..|batches|] == batches && LinesOf(batches) + [] == LinesOf(batches);
    for i := |batches| downto 0
      invariant LinesOf(batches) == LinesOf(batches[..i]) + after
      invariant Lists(rows, Upserted(map[], after, schema)) && seen == TableOf(rows).Keys
    {
      rows, seen := WriteLines(batches[i].lines, schema, rows, seen, after);
      assert batches[..i + 1][..i] == batches[..i];
      after := batches[i].lines + after;
    }
    assert batches[..0] == [] && [] + after == after;
  }

  lemma NothingListed(schema: Schema)
    ensures Lists([], Upserted(map[], [], schema)) && TableOf([]).Keys == {}
  {
  }

  method WriteLines(lines: seq<Line>, schema: Schema, written: seq<Row>, before: set<string>, ghost after: seq<Line>)
    returns (rows: seq<Row>, seen: set<string>)
    requires Lists(written, Upserted(map[], after, schema)) && before == TableOf(written).Keys
    ensures Lists(rows, Upserted(map[], lines + after, schema)) && seen == TableOf(rows).Keys
  {
    hide Upserted, RowOf, Once, TableOf;
    rows, seen := written, before;
    assert lines[|lines|..] + after == after;
    for j := |lines| downto 0
      invariant Lists(rows, Upserted(map[], lines[j..] + after, schema)) && seen == TableOf(rows).Keys
    {
      UpsertedFirst(lines[j], lines[j + 1..] + after, schema);
      assert [lines[j]] + (lines[j + 1..] + after) == lines[j..] + after;
      if lines[j].piece.id !in seen {
        seen := seen + {lines[j].piece.id};
        var row := RowOf(lines[j], schema);
        RowOfOwn(lines[j], schema);
        ListsNext(rows, Upserted(map[], lines[j + 1..] + after, schema), row);
        rows := rows + [row];
      }
    }
    assert lines[0..] == lines;
  }

  /** A line before others adds its row unless one of them has its id. */
  lemma UpsertedFirst(l: Line, after: seq<Line>, schema: Schema)
    ensures var later := Upserted(map[], after, schema);
            Upserted(map[], [l] + after, schema)
            == if l.piece.id in later then later else later[l.piece.id := RowOf(l, schema)]
  {
    hide RowOf, TableOf, Upserted;
    UpsertedRows(map[], after, schema);
    UpsertedRows(map[], [l] + after, schema);
    var rows := RowsOf(after, schema);
    assert RowsOf([l] + after, schema) == [RowOf(l, schema)] + rows;
    TableConcat([RowOf(l, schema)], rows);
    TableOfOne(RowOf(l, schema));
    RowOfOwn(l, schema);
    assert map[] + TableOf(rows) == TableOf(rows);
    assert map[] + TableOf(RowsOf([l] + after, schema)) == TableOf(RowsOf([l] + after, schema));
  }

  lemma TableOfOne(row: Row)
    ensures TableOf([row]) == map[row.id := row]
  {
    assert [row][..0] == [];
  }

  /** Writes every row of the snapshot whose id is not written, padded. */
  method CopySnapshot(store: EventStore, schema: Schema, ghost lines: seq<Line>, written: seq<Row>, seen: set<string>)
    returns (rows: seq<Row>)
    requires store.Valid()
    requires Lists(written, Upserted(map[], lines, schema)) && seen == TableOf(written).Keys
    ensures Lists(rows, Merge(store.table, lines, schema))
  {
    hide Upserted, PadTo, Hold, TableOf, Once, Carried;
    rows := written;
    ghost var added := Upserted(map[], lines, schema);
    MergeAdds(store.table, lines, schema);
    if store.snapshot.None? {
      assert Padded(map[], schema) + added == added;
      return;
    }
    var stored := store.snapshot.value;
    StartOf(stored);
    assert Padded(map[], schema) + added == added;
    for n := 0 to |stored|
      invariant Once(stored[..n])
      invariant Lists(rows, Padded(TableOf(stored[..n]), schema) + added)
    {
      ghost var before := TableOf(stored[..n]);
      OncePrefix(stored, n + 1);
      PaddedNext(before, stored[n], schema, added);
      assert stored[..n + 1][..n] == stored[..n];
      TableNext(stored, n);
      if stored[n].id !in seen {
        var row := PadTo(stored[n], schema);
        PadKeepsId(stored[n], schema);
        ListsNext(rows, Padded(before, schema) + added, row);
        rows := rows + [row];
      }
    }
    assert stored[..|stored|] == stored;
  }

  lemma StartOf(rows: seq<Row>)
    ensures TableOf(rows[..0]) == map[] && Once(rows[..0])
  {
  }

  lemma TableNext(rows: seq<Row>, n: nat)
    requires n < |rows|
    ensures TableOf(rows[..n + 1]) == TableOf(rows[..n])[rows[n].id := rows[n]]
  {
    assert rows[..n + 1][..n] == rows[..n];
  }

  lemma {:induction false} OncePrefix(rows: seq<Row>, n: nat)
    requires Once(rows) && n <= |rows|
    ensures Once(rows[..n])
    ensures n > 0 ==> rows[n - 1].id !in TableOf(rows[..n - 1])
    decreases |rows|
  {
    if n < |rows| {
      OncePrefix(rows[..|rows| - 1], n);
      assert rows[..|rows| - 1][..n] == rows[..n];
      assert n > 0 ==> rows[..|rows| - 1][..n - 1] == rows[..n - 1];
    } else {
      assert rows[..n] == rows;
    }
  }

  lemma PadKeepsId(row: Row, schema: Schema)
    ensures PadTo(row, schema).id == row.id
  {
  }

  lemma PaddedNext(before: Table, row: Row, schema: Schema, added: Table)
    ensures Padded(before[row.id := row], schema) + added
            == if row.id in added then Padded(before, schema) + added
               else (Padded(before, schema) + added)[row.id := PadTo(row, schema)]
  {
    hide PadTo;
  }

  /** Merging lines into a table replaces and adds rows as the lines alone would
      make them. */
  lemma MergeAdds(table: Table, lines: seq<Line>, schema: Schema)
    ensures Merge(table, lines, schema) == Padded(table, schema) + Upserted(map[], lines, schema)
  {
    hide PadTo, RowOf, Upserted, TableOf, Padded;
    UpsertedRows(Padded(table, schema), lines, schema);
    UpsertedRows(map[], lines, schema);
    assert map[] + TableOf(RowsOf(lines, schema)) == TableOf(RowsOf(lines, schema));
  }

  // ---------------------------------------------------------------- The change read

  /** What a change read gives its writer: the table's columns, and each line's
      row in order. */
  datatype ChangeSet = ChangeSet(columns: Schema, upserts: seq<Row>)

  /** The batches above the cursor that one read takes: their rows as upserts,
      and the newest one's seq as the next cursor. */
  method Changes(store: EventStore, cursor: nat, budget: ReadBudget) returns (changes: ChangeSet, next: nat)
    requires store.Valid() && budget.batches >= 1
    modifies store`schema, store`batches, store`coming
    ensures store.Valid() && old(store.batches) <= store.batches && Extends(store.schema, old(store.schema))
    ensures changes.columns == store.schema
    ensures if cursor < |store.batches| then next == cursor + Takes(budget, PerPiece(store.schema), store.batches[cursor..])
            else next == cursor
    ensures var taken := Between(store.batches, cursor, next);
            Hold(taken, changes.columns) && changes.upserts == RowsOf(LinesOf(taken), changes.columns)
  {
    hide RowOf, AllWithin, Lists, Numbered, Carried, Takes, PerPiece;
    var schema, batches := store.EventBatchesAfter(cursor, budget);
    if |batches| == 0 {
      return ChangeSet(schema, []), cursor;
    }
    var upserts: seq<Row> := [];
    for i := 0 to |batches|
      invariant upserts == RowsOf(LinesOf(batches[..i]), schema)
      modifies {}
    {
      assert batches[..i + 1][..i] == batches[..i];
      upserts := UpsertLines(batches[i].lines, schema, upserts, LinesOf(batches[..i]));
    }
    assert batches[..|batches|] == batches;
    return ChangeSet(schema, upserts), batches[|batches| - 1].seqNo;
  }

  method UpsertLines(lines: seq<Line>, schema: Schema, before: seq<Row>, ghost earlier: seq<Line>)
    returns (upserts: seq<Row>)
    requires before == RowsOf(earlier, schema)
    ensures upserts == RowsOf(earlier + lines, schema)
  {
    hide RowOf;
    upserts := before;
    for j := 0 to |lines|
      invariant upserts == RowsOf(earlier + lines[..j], schema)
    {
      upserts := upserts + [RowOf(lines[j], schema)];
    }
    assert lines[..|lines|] == lines;
  }

  /** Merges a change set into the table's stored rows, as the syncer does for a
      Dense table: the last upsert of each id wins, rows no upsert replaces are
      copied padded, then the winning upserts are written in order. */
  method MergeSnapshot(stored: seq<Row>, changes: ChangeSet) returns (rows: seq<Row>)
    requires Once(stored)
    ensures Lists(rows, Padded(TableOf(stored), changes.columns) + TableOf(changes.upserts))
  {
    hide PadTo, TableOf, Once, Padded;
    var last := IndexLast(changes.upserts);
    ghost var added := TableOf(changes.upserts);
    rows := CopyOthers(stored, changes.columns, last.Keys, added);
    rows := WriteLast(changes.upserts, last, rows, Padded(TableOf(stored), changes.columns));
  }

  /** Where each id's last upsert is. */
  method IndexLast(upserts: seq<Row>) returns (last: map<string, nat>)
    ensures last.Keys == TableOf(upserts).Keys
    ensures forall id :: id in last ==> last[id] < |upserts| && upserts[last[id]] == TableOf(upserts)[id]
    ensures forall id :: id in last ==> upserts[last[id]].id == id
  {
    hide TableOf;
    last := map[];
    StartOf(upserts);
    for k := 0 to |upserts|
      invariant last.Keys == TableOf(upserts[..k]).Keys
      invariant forall id :: id in last ==> last[id] < k && upserts[last[id]] == TableOf(upserts[..k])[id]
      invariant forall id :: id in last ==> upserts[last[id]].id == id
    {
      TableNext(upserts, k);
      last := last[upserts[k].id := k];
    }
    assert upserts[..|upserts|] == upserts;
  }

  /** The stored rows none of the changes replaces, padded. */
  method CopyOthers(stored: seq<Row>, columns: Schema, changed: set<string>, ghost added: Table) returns (rows: seq<Row>)
    requires Once(stored) && changed == added.Keys
    ensures Lists(rows, Padded(TableOf(stored), columns) - changed)
  {
    hide PadTo, TableOf, Once;
    rows := [];
    StartOf(stored);
    StartOf([]);
    assert Padded(map[], columns) - changed == map[] && rows[..0] == rows;
    for n := 0 to |stored|
      invariant Once(stored[..n])
      invariant Lists(rows, Padded(TableOf(stored[..n]), columns) - changed)
    {
      ghost var before := TableOf(stored[..n]);
      OncePrefix(stored, n + 1);
      TableNext(stored, n);
      assert stored[..n + 1][..n] == stored[..n];
      PaddedWithout(before, stored[n], columns, changed);
      if stored[n].id !in changed {
        var row := PadTo(stored[n], columns);
        PadKeepsId(stored[n], columns);
        ListsNext(rows, Padded(before, columns) - changed, row);
        rows := rows + [row];
      }
    }
    assert stored[..|stored|] == stored;
  }

  lemma PaddedWithout(before: Table, row: Row, schema: Schema, changed: set<string>)
    ensures Padded(before[row.id := row], schema) - changed
            == if row.id in changed then Padded(before, schema) - changed
               else (Padded(before, schema) - changed)[row.id := PadTo(row, schema)]
  {
    hide PadTo;
  }

  /** The last upsert of each id, in order, after the rows copied. */
  method WriteLast(upserts: seq<Row>, last: map<string, nat>, copied: seq<Row>, ghost padded: Table) returns (rows: seq<Row>)
    requires last.Keys == TableOf(upserts).Keys
    requires forall id :: id in last ==> last[id] < |upserts| && upserts[last[id]] == TableOf(upserts)[id]
    requires forall id :: id in last ==> upserts[last[id]].id == id
    requires Lists(copied, padded - last.Keys)
    ensures Lists(rows, padded + TableOf(upserts))
  {
    hide TableOf, Once, Written;
    rows := copied;
    WrittenEnds(upserts, last, padded);
    UpsertsIndexed(upserts);
    for k := 0 to |upserts|
      invariant Lists(rows, Written(upserts, last, padded, k))
    {
      WrittenNext(upserts, last, padded, k);
      if last[upserts[k].id] == k {
        ListsNext(rows, Written(upserts, last, padded, k), upserts[k]);
        rows := rows + [upserts[k]];
      }
    }
  }

  /** The winning upserts among the first k. */
  ghost function Winners(upserts: seq<Row>, last: map<string, nat>, k: nat): Table
    requires forall id :: id in last ==> last[id] < |upserts|
  {
    map id | id in last && last[id] < k :: upserts[last[id]]
  }

  ghost function Written(upserts: seq<Row>, last: map<string, nat>, padded: Table, k: nat): Table
    requires forall id :: id in last ==> last[id] < |upserts|
  {
    (padded - last.Keys) + Winners(upserts, last, k)
  }

  lemma WrittenEnds(upserts: seq<Row>, last: map<string, nat>, padded: Table)
    requires last.Keys == TableOf(upserts).Keys
    requires forall id :: id in last ==> last[id] < |upserts| && upserts[last[id]] == TableOf(upserts)[id]
    ensures Written(upserts, last, padded, 0) == padded - last.Keys
    ensures Written(upserts, last, padded, |upserts|) == padded + TableOf(upserts)
  {
    hide TableOf;
  }

  lemma WinnersNext(upserts: seq<Row>, last: map<string, nat>, k: nat, id: string)
    requires forall id :: id in last ==> last[id] < |upserts| && upserts[last[id]].id == id
    requires k < |upserts| && upserts[k].id == id && id in last
    ensures var before, next := Winners(upserts, last, k), Winners(upserts, last, k + 1);
            if last[id] == k then id !in before && next == before[id := upserts[k]] else next == before
  {
  }

  lemma WrittenNext(upserts: seq<Row>, last: map<string, nat>, padded: Table, k: nat)
    requires forall id :: id in last ==> last[id] < |upserts| && upserts[last[id]].id == id
    requires k < |upserts| && upserts[k].id in last
    ensures var before, next := Written(upserts, last, padded, k), Written(upserts, last, padded, k + 1);
            if last[upserts[k].id] == k then upserts[k].id !in before && next == before[upserts[k].id := upserts[k]]
            else next == before
  {
    hide Winners;
    WinnersNext(upserts, last, k, upserts[k].id);
  }

  lemma {:induction false} UpsertsIndexed(upserts: seq<Row>)
    ensures forall k :: 0 <= k < |upserts| ==> upserts[k].id in TableOf(upserts)
  {
    if upserts != [] {
      UpsertsIndexed(upserts[..|upserts| - 1]);
    }
  }

  /** A sync by a change read: the table's stored rows with the read's changes
      merged in, or as they are when it reads none. It leaves the table a full read
      of the same batches under the same schema would. */
  method ChangeSync(store: EventStore, budget: ReadBudget) returns (schema: Schema, rows: seq<Row>, next: nat)
    requires store.Valid() && budget.batches >= 1 && store.snapshot.Some?
    modifies store`schema, store`batches, store`coming
    ensures store.Valid() && old(store.batches) <= store.batches && Extends(store.schema, old(store.schema))
    ensures schema == store.schema
    ensures if store.cursor < |store.batches|
            then next == store.cursor + Takes(budget, PerPiece(store.schema), store.batches[store.cursor..])
            else next == store.cursor
    ensures var taken := LinesOf(Between(store.batches, store.cursor, next));
            if taken == [] then rows == store.snapshot.value
            else Lists(rows, Merge(store.table, taken, schema)) && Dense(Merge(store.table, taken, schema), schema.Keys)
  {
    hide RowOf, Hold, LinesOf, Between, Padded, TableOf, Once, Carried, Dense, Takes, PerPiece;
    var changes, seqNo := Changes(store, store.cursor, budget);
    schema, next := changes.columns, seqNo;
    if changes.upserts == [] {
      rows := store.snapshot.value;
      return;
    }
    rows := MergeSnapshot(store.snapshot.value, changes);
    MergeCarries(store.table, LinesOf(Between(store.batches, store.cursor, next)), schema);
    UpsertedRows(Padded(store.table, schema), LinesOf(Between(store.batches, store.cursor, next)), schema);
  }
}
