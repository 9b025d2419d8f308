/** The caps over whole runs of a source: refusing the send that would pass a cap
    keeps every later sync within it, so that no writer ever refuses the rows of one. */
module CapSafety {
  import opened Options
  import opened Pieces
  import opened Schemas
  import opened Rows
  import opened Tables
  import opened Reads
  import opened Capacities
  import opened Runs
  import opened Crashes
  import opened Sums
  import ScanRules

  ghost predicate AllScanned(lines: seq<Line>) {
    forall i :: 0 <= i < |lines| ==> Scanned(lines[i].piece)
  }

  /** Where the batches a sync may yet merge begin: the cursor, or the first batch for a
      table that is lost, or where a replay stopped that has not stored its cursor yet. */
  function AheadFrom(s: Source): nat {
    if s.table.None? then 0 else if s.phase.Published? && s.phase.upto < s.cursor then s.phase.upto else s.cursor
  }

  function Ahead(s: Source): seq<Line> {
    LinesOf(Between(s.batches, AheadFrom(s), |s.batches|))
  }

  /** More may be merged than waits above the cursor, which is all the store counts. */
  predicate Behind(s: Source) {
    AheadFrom(s) < s.cursor
  }

  /** There is room within the caps for the table, whichever of the lines ahead are
      merged into it. */
  ghost predicate Booked(s: Source, limits: Limits) {
    exists room :: Books(room, TableNow(s), Ahead(s), s.schema, limits.caps)
  }

  /** Every row has every column, and every line was scanned. */
  ghost predicate Rowed(s: Source) {
    Dense(TableNow(s), s.columns.Keys) && AllScanned(LinesOf(s.batches))
  }

  ghost predicate CapInv(s: Source, limits: Limits) {
    Rowed(s) && Booked(s, limits)
  }

  /** The table's real rows and bytes are within the caps. */
  ghost predicate Within(s: Source, caps: Caps) {
    |TableNow(s)| <= caps.maxRows && TableBytes(TableNow(s)) <= caps.maxBytes
  }

  /** A text field lock of a field no piece has carried adds a column and checks no
      cap; it is counted when the capacity has room for the column. */
  ghost predicate Counted(s: Source, a: Action, limits: Limits)
    requires Enabled(s, a, limits)
  {
    a.LockText? && a.name !in s.schema ==>
      var c := CapacityOf(Held(s), LockedSchema(s, a.name, limits).schema);
      c.rows <= limits.caps.maxRows && c.bytes <= limits.caps.maxBytes
  }

  /** The steps no cap, or too little, is checked for: the loss of a table, which must
      leave room to replay every batch; then, until the replay stores its cursor, a send or
      a lock of a new field, since the store counts only what waits above the cursor; and a
      lock of a new field at any time. */
  ghost predicate LeavesRoom(s: Source, a: Action, limits: Limits)
    requires Enabled(s, a, limits)
  {
    && (a.LoseTable? || (Behind(s) && (a.Send? || (a.LockText? && a.name !in s.schema))) ==>
          Booked(Apply(s, a, limits), limits))
    && (!Behind(s) ==> Counted(s, a, limits))
  }

  // ---------------------------------------------------------------- Steps

  lemma BookedTable(s: Source, limits: Limits)
    requires Booked(s, limits)
    ensures |TableNow(s)| <= limits.caps.maxRows && TableBytes(TableNow(s)) <= limits.caps.maxBytes
  {
    hide Books, TableBytes, Ahead;
    var room :| Books(room, TableNow(s), Ahead(s), s.schema, limits.caps);
    BookedWithin(room, TableNow(s), Ahead(s), s.schema, limits.caps);
  }

  lemma WaitingGrows(s: Source, b: Batch)
    requires s.cursor <= |s.batches|
    ensures LinesOf(s.batches + [b]) == LinesOf(s.batches) + b.lines
    ensures LinesOf(Between(s.batches + [b], s.cursor, |s.batches| + 1)) == Waiting(s) + b.lines
  {
    assert (s.batches + [b])[..|s.batches|] == s.batches;
    var after := Between(s.batches, s.cursor, |s.batches|);
    assert Between(s.batches + [b], s.cursor, |s.batches| + 1) == after + [b] && (after + [b])[..|after|] == after;
  }

  /** What a send's projection counts is the capacity once it is stored. */
  lemma SendCounts(s: Source, pieces: seq<SentPiece>, receivedAt: string, limits: Limits)
    requires Sound(s) && Enabled(s, Send(pieces, receivedAt), limits)
    ensures var t := Apply(s, Send(pieces, receivedAt), limits);
            && Waiting(t) == Waiting(s) + Arrived(pieces, receivedAt)
            && LinesOf(t.batches) == LinesOf(s.batches) + Arrived(pieces, receivedAt)
            && var c := CapacityOf(Held(t), t.schema);
               c.rows <= limits.caps.maxRows && c.bytes <= limits.caps.maxBytes
  {
    hide Sound, LinesOf, Between, LearnAll, Flat, LinesSize, TableBytes, Accepts, Scanned, Fill, After;
    var lines := Arrived(pieces, receivedAt);
    CursorInRange(s);
    WaitingGrows(s, Batch(|s.batches| + 1, lines, LinesSize(lines)));
    SizeConcat(Waiting(s), lines);
  }

  lemma CursorInRange(s: Source)
    requires Sound(s)
    ensures s.cursor <= |s.batches| && s.columns.Keys <= s.schema.Keys && AheadFrom(s) <= s.cursor
    ensures s.phase.Reading? ==> From(s) <= s.phase.upto <= |s.batches|
    ensures s.phase.Reading? ==> s.columns.Keys <= s.phase.schema.Keys <= s.schema.Keys
    ensures s.phase.Published? ==> s.phase.upto <= |s.batches| && s.table.Some?
  {
  }

  lemma NotBehind(s: Source)
    requires Sound(s) && !Behind(s)
    ensures Ahead(s) == Waiting(s)
  {
    hide Sound, LinesOf;
    CursorInRange(s);
  }

  lemma SendScanned(s: Source, pieces: seq<SentPiece>, receivedAt: string, limits: Limits)
    requires Sound(s) && Rowed(s) && Enabled(s, Send(pieces, receivedAt), limits)
    ensures var t := Apply(s, Send(pieces, receivedAt), limits);
            Rowed(t)
            && AheadFrom(t) == AheadFrom(s) && (Behind(t) <==> Behind(s))
  {
    hide Sound, Dense, Scanned, Booked, Project, LearnAll, Flat, Accepts, LinesOf, Between;
    SendCounts(s, pieces, receivedAt, limits);
  }

  lemma SendBooked(s: Source, pieces: seq<SentPiece>, receivedAt: string, limits: Limits)
    requires Sound(s) && CapInv(s, limits) && limits.caps.maxBytes <= ISIZE && Enabled(s, Send(pieces, receivedAt), limits)
    requires LeavesRoom(s, Send(pieces, receivedAt), limits)
    ensures CapInv(Apply(s, Send(pieces, receivedAt), limits), limits)
  {
    hide Sound, Dense, AllScanned, Books, CapacityOf, TableBytes, LearnAll, Flat, Accepts, Project, Ahead, Waiting, AheadFrom, Enabled;
    var t := Apply(s, Send(pieces, receivedAt), limits);
    SendScanned(s, pieces, receivedAt, limits);
    if !Behind(s) {
      BookedTable(s, limits);
      SendCounts(s, pieces, receivedAt, limits);
      StepSound(s, Send(pieces, receivedAt), limits);
      NotBehind(t);
      SameTable(s, pieces, receivedAt, limits);
      CapacityBooks(TableNow(t), t.columns.Keys, Waiting(t), t.schema, limits.caps);
    }
  }

  lemma SameTable(s: Source, pieces: seq<SentPiece>, receivedAt: string, limits: Limits)
    requires Enabled(s, Send(pieces, receivedAt), limits)
    ensures var t := Apply(s, Send(pieces, receivedAt), limits); TableNow(t) == TableNow(s) && t.columns == s.columns
  {
    hide LearnAll, Flat, Accepts, Project, LinesSize;
  }

  lemma LockBooked(s: Source, name: string, limits: Limits)
    requires Sound(s) && CapInv(s, limits) && limits.caps.maxBytes <= ISIZE
    requires Enabled(s, LockText(name), limits) && LeavesRoom(s, LockText(name), limits)
    ensures CapInv(Apply(s, LockText(name), limits), limits)
  {
    hide Sound, Dense, AllScanned, CapacityOf, TableBytes, LinesOf, Between, Books;
    var t := Apply(s, LockText(name), limits);
    BookedTable(s, limits);
    if name in s.schema {
      assert t.schema.Keys == s.schema.Keys;
      var room :| Books(room, TableNow(s), Ahead(s), s.schema, limits.caps);
      SameFields(room, TableNow(s), Ahead(s), s.schema, t.schema, limits.caps);
      assert Books(room, TableNow(t), Ahead(t), t.schema, limits.caps);
    } else if !Behind(s) {
      NotBehind(s);
      CapacityBooks(TableNow(t), t.columns.Keys, Waiting(t), t.schema, limits.caps);
      assert Ahead(t) == Ahead(s) && Waiting(t) == Waiting(s);
    }
  }

  lemma SameFields(room: map<string, nat>, table: Table, pending: seq<Line>, schema: Schema, later: Schema, caps: Caps)
    requires Books(room, table, pending, schema, caps) && later.Keys == schema.Keys
    ensures Books(room, table, pending, later, caps)
  {
    hide SizeOf, Fill, LineSize;
    forall i | 0 <= i < |pending|
      ensures BooksLine(room, pending[i], later)
    {
      assert BooksLine(room, pending[i], schema);
    }
  }

  lemma PublishBooked(s: Source, limits: Limits)
    requires Sound(s) && CapInv(s, limits) && s.phase.Reading?
    ensures CapInv(Apply(s, Publish, limits), limits)
  {
    hide Sound, Dense, Scanned, Books, LinesOf, Merge, Last, Between;
    CursorInRange(s);
    var room :| Books(room, TableNow(s), Ahead(s), s.schema, limits.caps);
    var t := Apply(s, Publish, limits);
    ReadIsScanned(s);
    BetweenSplit(s.batches, From(s), s.phase.upto, |s.batches|);
    FirstBooked(room, TableNow(s), ReadLines(s), LinesOf(Between(s.batches, s.phase.upto, |s.batches|)), s.schema, limits.caps);
    MergeBooked(room, TableNow(s), s.columns.Keys, ReadLines(s), Ahead(s), s.phase.schema, s.schema, limits.caps);
    LaterBooked(room, t, From(s), limits.caps);
  }

  /** Room for the lines after some batch is room for those after any later one. */
  lemma LaterBooked(room: map<string, nat>, t: Source, from: nat, caps: Caps)
    requires from <= AheadFrom(t) <= |t.batches|
    requires Books(room, TableNow(t), LinesOf(Between(t.batches, from, |t.batches|)), t.schema, caps)
    ensures Books(room, TableNow(t), Ahead(t), t.schema, caps)
  {
    hide Books, LinesOf, Between;
    BetweenSplit(t.batches, from, AheadFrom(t), |t.batches|);
    FirstBooked(room, TableNow(t), LinesOf(Between(t.batches, from, AheadFrom(t))), Ahead(t), t.schema, caps);
  }

  lemma FirstBooked(room: map<string, nat>, table: Table, merged: seq<Line>, rest: seq<Line>, schema: Schema, caps: Caps)
    requires Books(room, table, merged + rest, schema, caps)
    ensures forall i :: 0 <= i < |merged| ==> BooksLine(room, merged[i], schema)
    ensures Books(room, table, rest, schema, caps)
  {
    hide BooksLine, FullSize;
    forall i | 0 <= i < |merged|
      ensures BooksLine(room, merged[i], schema)
    {
      assert (merged + rest)[i] == merged[i];
    }
    forall i | 0 <= i < |rest|
      ensures BooksLine(room, rest[i], schema)
    {
      assert (merged + rest)[|merged| + i] == rest[i];
    }
  }

  lemma ReadIsScanned(s: Source)
    requires s.phase.Reading? && From(s) <= s.phase.upto <= |s.batches| && AllScanned(LinesOf(s.batches))
    ensures AllScanned(ReadLines(s))
  {
    hide Scanned, LinesOf;
    PartOf(s.batches, From(s), s.phase.upto);
    forall i | 0 <= i < |ReadLines(s)|
      ensures Scanned(ReadLines(s)[i].piece)
    {
      assert ReadLines(s)[i] in ReadLines(s);
    }
  }

  lemma PartOf(batches: seq<Batch>, from: nat, upto: nat)
    requires from <= upto <= |batches|
    ensures forall l :: l in LinesOf(Between(batches, from, upto)) ==> l in LinesOf(batches)
  {
    assert Between(batches, 0, |batches|) == batches;
    BetweenSplit(batches, 0, from, |batches|);
    BetweenSplit(batches, from, upto, |batches|);
  }

  /** Steps that leave the table and the batches as they are, and no more ahead. */
  lemma SameBooked(s: Source, a: Action, limits: Limits)
    requires Sound(s) && CapInv(s, limits) && Enabled(s, a, limits)
    requires a.StoreCursor? || a.Crash? || a.BeginChanges? || a.BeginFull? || a.ReadOn?
    ensures CapInv(Apply(s, a, limits), limits)
  {
    hide Sound, Dense, AllScanned, Books, LinesOf, Between, Reach;
    CursorInRange(s);
    var room :| Books(room, TableNow(s), Ahead(s), s.schema, limits.caps);
    LaterBooked(room, Apply(s, a, limits), AheadFrom(s), limits.caps);
  }

  lemma LossBooked(s: Source, limits: Limits)
    requires CapInv(s, limits) && Enabled(s, LoseTable, limits) && LeavesRoom(s, LoseTable, limits)
    ensures CapInv(Apply(s, LoseTable, limits), limits)
  {
    hide AllScanned, Booked;
  }

  /** Every step keeps room within the caps, where the steps nothing is checked for leave it. */
  lemma StepBooked(s: Source, a: Action, limits: Limits)
    requires Sound(s) && CapInv(s, limits) && limits.caps.maxBytes <= ISIZE
    requires Enabled(s, a, limits) && LeavesRoom(s, a, limits)
    ensures CapInv(Apply(s, a, limits), limits)
  {
    hide Sound, CapInv, LeavesRoom, Enabled, Apply;
    match a
    case Send(pieces, receivedAt) => SendBooked(s, pieces, receivedAt, limits);
    case LockText(name) => LockBooked(s, name, limits);
    case Publish =>
      PublishReads(s, limits);
      PublishBooked(s, limits);
    case LoseTable => LossBooked(s, limits);
    case _ => SameBooked(s, a, limits);
  }

  lemma PublishReads(s: Source, limits: Limits)
    requires Enabled(s, Publish, limits)
    ensures s.phase.Reading?
  {
  }

  // ---------------------------------------------------------------- When there is room

  /** What each row of a table may come to take. */
  ghost function FullSizes(table: Table, schema: Schema): map<string, nat> {
    map id | id in table :: FullSize(table[id], schema)
  }

  lemma {:induction false} RoomWithin(sizes: map<string, nat>, lines: seq<Line>, schema: Schema, room: map<string, nat>)
    requires forall id :: id in sizes ==> id in room && sizes[id] <= room[id]
    requires forall i :: 0 <= i < |lines| ==> BooksLine(room, lines[i], schema)
    ensures forall id :: id in Room(sizes, lines, schema) ==> id in room && Room(sizes, lines, schema)[id] <= room[id]
  {
    hide LineCost;
    if lines != [] {
      var n := |lines| - 1;
      RoomWithin(sizes, lines[..n], schema, room);
      assert BooksLine(room, lines[n], schema);
    }
  }

  lemma {:induction false} RoomKeys(sizes: map<string, nat>, lines: seq<Line>, schema: Schema)
    ensures Room(sizes, lines, schema).Keys == sizes.Keys + Last(lines).Keys
  {
    hide LineCost;
    if lines != [] {
      RoomKeys(sizes, lines[..|lines| - 1], schema);
    }
  }

  lemma LeastBooks(table: Table, ahead: seq<Line>, schema: Schema, caps: Caps)
    requires var least := Room(FullSizes(table, schema), ahead, schema); |least| <= caps.maxRows && Sum(least) <= caps.maxBytes
    ensures Books(Room(FullSizes(table, schema), ahead, schema), table, ahead, schema, caps)
  {
    hide FullSize, LineCost, Sum, Room, BooksLine;
    RoomSuffices(FullSizes(table, schema), ahead, schema);
  }

  lemma LeastIsLeast(room: map<string, nat>, table: Table, ahead: seq<Line>, schema: Schema, caps: Caps)
    requires Books(room, table, ahead, schema, caps)
    ensures var least := Room(FullSizes(table, schema), ahead, schema); |least| <= caps.maxRows && Sum(least) <= caps.maxBytes
  {
    hide FullSize, LineCost, Sum, Room, BooksLine;
    var least := Room(FullSizes(table, schema), ahead, schema);
    RoomWithin(FullSizes(table, schema), ahead, schema, room);
    SumWithin(least, room);
    NoMore(least.Keys, room.Keys);
    assert |least| == |least.Keys| && |room| == |room.Keys|;
  }

  /** There is room exactly when the ids, of the rows and of the lines ahead, are no more
      than the rows the caps allow, and the most each may take, the largest of its row and
      its lines ahead, comes to no more than their bytes. */
  lemma BookedIff(s: Source, limits: Limits)
    ensures var room := Room(FullSizes(TableNow(s), s.schema), Ahead(s), s.schema);
            && room.Keys == TableNow(s).Keys + Last(Ahead(s)).Keys
            && (Booked(s, limits) <==> |room| <= limits.caps.maxRows && Sum(room) <= limits.caps.maxBytes)
  {
    hide FullSize, Sum, Ahead, Last, Room, Books;
    var least := Room(FullSizes(TableNow(s), s.schema), Ahead(s), s.schema);
    RoomKeys(FullSizes(TableNow(s), s.schema), Ahead(s), s.schema);
    if Booked(s, limits) {
      var room :| Books(room, TableNow(s), Ahead(s), s.schema, limits.caps);
      LeastIsLeast(room, TableNow(s), Ahead(s), s.schema, limits.caps);
    }
    if |least| <= limits.caps.maxRows && Sum(least) <= limits.caps.maxBytes {
      LeastBooks(TableNow(s), Ahead(s), s.schema, limits.caps);
    }
  }

  // ---------------------------------------------------------------- Lost tables

  /** What the rows of these lines take. */
  ghost function RowsBytes(last: map<string, Line>, schema: Schema): nat {
    Sum(map id | id in last :: SizeOf(RowOf(last[id], schema)))
  }

  /** What a lost table's replay writes: one row for each id of the batches it reads, of
      its last line among them. */
  lemma ReplayWrites(s: Source, limits: Limits)
    requires Sound(s) && s.table.None? && s.phase.Reading?
    ensures var t, settled := Apply(s, Publish, limits), Settled(s.batches, s.phase.upto);
            && t.table.value.Keys == settled.Keys
            && (forall id :: id in settled ==> t.table.value[id] == RowOf(settled[id], s.phase.schema))
            && |t.table.value| == |settled|
            && TableBytes(t.table.value) == RowsBytes(settled, s.phase.schema)
  {
    hide Sound, RowOf, LinesOf, Between, Last, TableBytes, Upserted, SizeOf, Sum;
    CursorInRange(s);
    assert Padded(map[], s.phase.schema) == map[];
    LastRows(ReadLines(s), s.phase.schema);
    LastBytes(ReadLines(s), s.phase.schema);
  }

  lemma LastBytes(lines: seq<Line>, schema: Schema)
    ensures TableBytes(Upserted(map[], lines, schema)) == RowsBytes(Last(lines), schema)
  {
    hide RowOf, Upserted, Last, SizeOf, Sum;
    LastRows(lines, schema);
    var table := Upserted(map[], lines, schema);
    assert (map id | id in table :: SizeOf(table[id])) == (map id | id in Last(lines) :: SizeOf(RowOf(Last(lines)[id], schema)));
  }

  lemma {:induction false} LastRows(lines: seq<Line>, schema: Schema)
    ensures Upserted(map[], lines, schema).Keys == Last(lines).Keys
    ensures forall id :: id in Last(lines) ==> Upserted(map[], lines, schema)[id] == RowOf(Last(lines)[id], schema)
    ensures |Upserted(map[], lines, schema)| == |Last(lines)|
  {
    hide RowOf;
    if lines != [] {
      LastRows(lines[..|lines| - 1], schema);
    }
    assert |Upserted(map[], lines, schema).Keys| == |Last(lines).Keys|;
  }

  /** A lost table's replay, its batches read up to upto under the schema of now. */
  function Replay(s: Source, upto: nat): Source {
    s.(phase := Reading(upto, s.schema))
  }

  /** So its publish is within the caps exactly when the ids of the batches it reads are no
      more than the rows allowed, and the rows of their last lines take no more than the
      bytes. */
  lemma ReplayFitsIff(s: Source, upto: nat, limits: Limits)
    requires Sound(s) && s.table.None? && upto <= |s.batches|
    ensures Within(Apply(Replay(s, upto), Publish, limits), limits.caps)
            <==> |Settled(s.batches, upto)| <= limits.caps.maxRows
                 && RowsBytes(Settled(s.batches, upto), s.schema) <= limits.caps.maxBytes
  {
    hide Sound, Settled, RowsBytes, TableBytes, Merge, LinesOf, Between, Last, RowOf;
    ReplaySound(s, upto);
    ReplayWrites(Replay(s, upto), limits);
  }

  lemma ReplaySound(s: Source, upto: nat)
    requires Sound(s) && s.table.None? && upto <= |s.batches|
    ensures Sound(Replay(s, upto))
  {
    hide TableShows, AllWithin, Numbered;
    ExtendsItself(s.schema);
    HoldBetween(s.batches, s.schema, 0, upto);
  }

  /** Every replay, however it is cut, is within both caps exactly when the ids of all the
      batches are no more than the rows allowed, and at every cut the rows of the last lines
      up to it take no more than the bytes: a later line of an id may be the shorter. */
  lemma EveryReplayFitsIff(s: Source, limits: Limits)
    requires Sound(s) && s.table.None?
    ensures (forall upto :: 0 <= upto <= |s.batches| ==> Within(Apply(Replay(s, upto), Publish, limits), limits.caps))
            <==> && |Settled(s.batches, |s.batches|)| <= limits.caps.maxRows
                 && forall upto :: 0 <= upto <= |s.batches| ==>
                      RowsBytes(Settled(s.batches, upto), s.schema) <= limits.caps.maxBytes
  {
    hide Sound, Settled, RowsBytes, Within, Apply;
    forall upto | 0 <= upto <= |s.batches|
      ensures Within(Apply(Replay(s, upto), Publish, limits), limits.caps)
              <==> |Settled(s.batches, upto)| <= limits.caps.maxRows
                   && RowsBytes(Settled(s.batches, upto), s.schema) <= limits.caps.maxBytes
    {
      ReplayFitsIff(s, upto, limits);
    }
    EveryCutFitsIff(s.batches, limits.caps.maxRows);
  }

  lemma EveryCutFitsIff(batches: seq<Batch>, maxRows: nat)
    ensures (forall upto :: 0 <= upto <= |batches| ==> |Settled(batches, upto)| <= maxRows)
            <==> |Settled(batches, |batches|)| <= maxRows
  {
    hide Settled;
    forall upto | 0 <= upto <= |batches|
      ensures |Settled(batches, upto)| <= |Settled(batches, |batches|)|
    {
      SettledSplit(batches, upto, |batches|);
      NoMore(Settled(batches, upto).Keys, Settled(batches, |batches|).Keys);
    }
  }

  // ---------------------------------------------------------------- Runs

  /** Every step of any run keeps the rows whole. */
  lemma StepRowed(s: Source, a: Action, limits: Limits)
    requires Sound(s) && Rowed(s) && Enabled(s, a, limits)
    ensures Rowed(Apply(s, a, limits))
  {
    hide Sound, Dense, AllScanned, LinesOf, Reach;
    if a.Send? {
      SendScanned(s, a.pieces, a.receivedAt, limits);
    } else if a.Publish? {
      CursorInRange(s);
      MergeDense(TableNow(s), s.columns.Keys, ReadLines(s), s.phase.schema);
    } else if a.LoseTable? {
      NoRows(Apply(s, a, limits));
    }
  }

  lemma NoRows(s: Source)
    requires s.table.None? && s.columns == map[]
    ensures Dense(TableNow(s), s.columns.Keys)
  {
  }

  /** A publish from a state without room that is within the caps all the same; ReplayFitsIff
      says exactly when a lost table's replay is. */
  ghost predicate WritesWithin(s: Source, a: Action, limits: Limits) {
    && Enabled(s, a, limits)
    && (a.Publish? && !Booked(s, limits) ==> Within(Apply(s, a, limits), limits.caps))
  }

  lemma StepWithinIff(s: Source, a: Action, limits: Limits)
    requires Sound(s) && Rowed(s) && Within(s, limits.caps) && Enabled(s, a, limits)
    ensures Within(Apply(s, a, limits), limits.caps) <==> WritesWithin(s, a, limits)
  {
    hide Sound, Rowed, Booked, TableBytes, Reach;
    if a.Publish? {
      if Booked(s, limits) {
        PublishBooked(s, limits);
        BookedTable(Apply(s, a, limits), limits);
      }
    } else if a.LoseTable? {
      RowsTakeBytes(map[]);
    } else {
      SameRowsHeld(s, a, limits);
    }
  }

  lemma SameRowsHeld(s: Source, a: Action, limits: Limits)
    requires Enabled(s, a, limits) && !a.Publish? && !a.LoseTable?
    ensures TableNow(Apply(s, a, limits)) == TableNow(s)
  {
    hide LearnAll, Flat, Accepts, Project, LinesSize, Reach;
  }

  lemma {:induction false} RunRowed(states: seq<Source>, actions: seq<Action>, limits: Limits, n: nat)
    requires IsRun(states, actions, limits) && n < |states|
    ensures Sound(states[n]) && Rowed(states[n])
  {
    hide Sound, Rowed, Enabled, Apply;
    RunSound(states, actions, limits, n);
    if n == 0 {
      FreshBooked(limits);
    } else {
      RunRowed(states, actions, limits, n - 1);
      assert Moves(states[n - 1], actions[n - 1], states[n], limits);
      StepRowed(states[n - 1], actions[n - 1], limits);
    }
  }

  /** Over any run, with no condition on its steps: every table is within the caps exactly
      when each publish from a state without room is. */
  lemma {:induction false} CapsHoldIff(states: seq<Source>, actions: seq<Action>, limits: Limits, n: nat)
    requires IsRun(states, actions, limits) && n < |states|
    ensures (forall i :: 0 <= i <= n ==> Within(states[i], limits.caps))
            <==> forall i :: 0 <= i < n ==> WritesWithin(states[i], actions[i], limits)
  {
    hide Sound, Rowed, Enabled, Apply, Within, WritesWithin;
    if n == 0 {
      FreshWithin(limits);
    } else {
      CapsHoldIff(states, actions, limits, n - 1);
      RunRowed(states, actions, limits, n - 1);
      assert Moves(states[n - 1], actions[n - 1], states[n], limits);
      if Within(states[n - 1], limits.caps) {
        StepWithinIff(states[n - 1], actions[n - 1], limits);
      }
    }
  }

  lemma FreshWithin(limits: Limits)
    ensures Within(FRESH, limits.caps)
  {
    FreshBooked(limits);
    BookedTable(FRESH, limits);
  }

  /** A step that leaves room where none is checked for. */
  ghost predicate MovesCapped(s: Source, a: Action, t: Source, limits: Limits) {
    Moves(s, a, t, limits) && LeavesRoom(s, a, limits)
  }

  /** A run of such steps, with any losses and crashes; the caps allow a table 4 GiB at
      most. */
  ghost predicate IsCappedRun(states: seq<Source>, actions: seq<Action>, limits: Limits) {
    && |states| == |actions| + 1 && states[0] == FRESH && limits.caps.maxBytes <= ISIZE
    && forall i :: 0 <= i < |actions| ==> MovesCapped(states[i], actions[i], states[i + 1], limits)
  }

  lemma CappedIsRun(states: seq<Source>, actions: seq<Action>, limits: Limits)
    requires IsCappedRun(states, actions, limits)
    ensures IsRun(states, actions, limits)
  {
    hide Moves, LeavesRoom;
    forall i | 0 <= i < |actions|
      ensures Moves(states[i], actions[i], states[i + 1], limits)
    {
      assert MovesCapped(states[i], actions[i], states[i + 1], limits);
    }
  }

  lemma {:induction false} RunBooked(states: seq<Source>, actions: seq<Action>, limits: Limits, n: nat)
    requires IsCappedRun(states, actions, limits) && n < |states|
    ensures Sound(states[n]) && CapInv(states[n], limits)
  {
    hide Sound, CapInv, LeavesRoom, Enabled, Apply;
    CappedIsRun(states, actions, limits);
    RunSound(states, actions, limits, n);
    if n == 0 {
      FreshBooked(limits);
    } else {
      RunBooked(states, actions, limits, n - 1);
      assert MovesCapped(states[n - 1], actions[n - 1], states[n], limits);
      StepBooked(states[n - 1], actions[n - 1], limits);
    }
  }

  lemma FreshBooked(limits: Limits)
    ensures CapInv(FRESH, limits)
  {
    assert Ahead(FRESH) == [];
    var none: map<string, nat> := map[];
    assert Sum(none) == 0;
    assert Books(none, TableNow(FRESH), Ahead(FRESH), FRESH.schema, limits.caps);
  }

  /** In every state of a run, whatever was lost or crashed: the table's real rows and
      bytes are within the caps, and its size is read exactly. */
  lemma CapsHold(states: seq<Source>, actions: seq<Action>, limits: Limits, n: nat)
    requires IsCappedRun(states, actions, limits) && n < |states|
    ensures var s := states[n];
            && |TableNow(s)| <= limits.caps.maxRows && TableBytes(TableNow(s)) <= limits.caps.maxBytes
            && CapacityOf(Held(s), s.schema)
               == Capacity(|TableNow(s)| + |Waiting(s)|, FullBytes(TableNow(s), s.schema) + LinesCost(Waiting(s), s.schema))
  {
    hide Sound, Booked, AllScanned, Dense, TableBytes, FullBytes, CapacityOf, Waiting;
    RunBooked(states, actions, limits, n);
    BookedTable(states[n], limits);
    CapacityCounts(TableNow(states[n]), states[n].columns.Keys, Waiting(states[n]), states[n].schema);
  }

  // ---------------------------------------------------------------- The capacity

  /** The capacity with the lines just published counted once. */
  ghost function Effective(s: Source): Capacity {
    Capacity(|TableNow(s)| + |LinesOf(Between(s.batches, At(s), |s.batches|))|,
             FullBytes(TableNow(s), s.schema) + LinesCost(LinesOf(Between(s.batches, At(s), |s.batches|)), s.schema))
  }

  ghost predicate Fitting(s: Source, caps: Caps) {
    Effective(s).rows <= caps.maxRows && Effective(s).bytes <= caps.maxBytes
  }

  /** A publish, its lines counted once from then on, never raises the capacity. */
  lemma PublishFits(s: Source, limits: Limits)
    requires Sound(s) && ReadsOn(s) && CapInv(s, limits) && s.phase.Reading?
    ensures Effective(Apply(s, Publish, limits)).rows <= Effective(s).rows
    ensures Effective(Apply(s, Publish, limits)).bytes <= Effective(s).bytes
  {
    hide Sound, Dense, Scanned, LinesOf, Upserted, Padded, Last, FullBytes, LinesCost, Between;
    CursorInRange(s);
    var upto, read := s.phase.upto, s.phase.schema;
    ReadIsScanned(s);
    assert From(s) == s.cursor;
    BetweenSplit(s.batches, s.cursor, upto, |s.batches|);
    CostConcat(ReadLines(s), LinesOf(Between(s.batches, upto, |s.batches|)), s.schema);
    PaddedFull(TableNow(s), s.columns.Keys, read, s.schema);
    UpsertedFull(Padded(TableNow(s), read), ReadLines(s), read, s.schema);
    PaddedCount(TableNow(s), read);
  }

  /** Counting a published read's lines once counts no more than the store does. */
  lemma EffectiveBelow(s: Source, limits: Limits)
    requires Sound(s) && ReadsOn(s) && CapInv(s, limits) && limits.caps.maxBytes <= ISIZE
    ensures var c := CapacityOf(Held(s), s.schema);
            && Effective(s).rows <= c.rows && Effective(s).bytes <= c.bytes
            && (!s.phase.Published? ==> c == Effective(s))
  {
    hide Sound, Booked, AllScanned, Dense, TableBytes, FullBytes, CapacityOf, LinesOf, LinesCost, Between;
    CursorInRange(s);
    BookedTable(s, limits);
    CapacityCounts(TableNow(s), s.columns.Keys, Waiting(s), s.schema);
    BetweenSplit(s.batches, s.cursor, At(s), |s.batches|);
    CostConcat(LinesOf(Between(s.batches, s.cursor, At(s))), LinesOf(Between(s.batches, At(s), |s.batches|)), s.schema);
  }

  /** The lines a publish has merged that the stored cursor does not say so of. */
  function Twice(s: Source): seq<Line>
    requires s.phase.Published?
  {
    LinesOf(Between(s.batches, s.cursor, s.phase.upto))
  }

  /** A crash between a publish and its cursor leaves the published lines counted twice. */
  lemma CrashCounts(s: Source, limits: Limits)
    requires Sound(s) && ReadsOn(s) && s.phase.Published?
    ensures Effective(Apply(s, Crash, limits))
            == Capacity(Effective(s).rows + |Twice(s)|, Effective(s).bytes + LinesCost(Twice(s), s.schema))
  {
    hide Sound, FullBytes, LinesOf, LinesCost, Between;
    CursorInRange(s);
    BetweenSplit(s.batches, s.cursor, s.phase.upto, |s.batches|);
    CostConcat(Twice(s), LinesOf(Between(s.batches, s.phase.upto, |s.batches|)), s.schema);
  }

  /** A crash that leaves the capacity within the caps: there is room to count the lines
      just published again. */
  ghost predicate CrashFits(s: Source, a: Action, caps: Caps) {
    a.Crash? && s.phase.Published? ==>
      && Effective(s).rows + |Twice(s)| <= caps.maxRows
      && Effective(s).bytes + LinesCost(Twice(s), s.schema) <= caps.maxBytes
  }

  lemma SendFits(s: Source, a: Action, limits: Limits)
    requires Sound(s) && ReadsOn(s) && CapInv(s, limits) && limits.caps.maxBytes <= ISIZE
    requires Enabled(s, a, limits) && LeavesRoom(s, a, limits) && a.Send?
    ensures Fitting(Apply(s, a, limits), limits.caps)
  {
    hide Sound, ReadsOn, CapInv, Effective, CapacityOf, Held, LeavesRoom, Enabled, Apply;
    StepSound(s, a, limits);
    StepReadsOn(s, a, limits);
    StepBooked(s, a, limits);
    EffectiveBelow(Apply(s, a, limits), limits);
    SendCounts(s, a.pieces, a.receivedAt, limits);
  }

  lemma LockFitting(s: Source, a: Action, limits: Limits)
    requires Sound(s) && ReadsOn(s) && CapInv(s, limits) && limits.caps.maxBytes <= ISIZE && Fitting(s, limits.caps)
    requires Enabled(s, a, limits) && LeavesRoom(s, a, limits) && a.LockText?
    ensures Fitting(Apply(s, a, limits), limits.caps)
  {
    hide Sound, ReadsOn, CapInv, Effective, CapacityOf, Held, LeavesRoom;
    var t := Apply(s, a, limits);
    if a.name in s.schema {
      SameEffective(s, t);
    } else {
      StepSound(s, a, limits);
      StepReadsOn(s, a, limits);
      StepBooked(s, a, limits);
      EffectiveBelow(t, limits);
      CountedLock(s, a, limits);
      SameHeld(s, a, limits);
    }
  }

  /** A step keeps the capacity within the caps exactly when it is no other crash. */
  lemma StepFitsIff(s: Source, a: Action, limits: Limits)
    requires Sound(s) && ReadsOn(s) && CapInv(s, limits) && limits.caps.maxBytes <= ISIZE && Fitting(s, limits.caps)
    requires Enabled(s, a, limits) && LeavesRoom(s, a, limits) && !a.LoseTable?
    ensures Fitting(Apply(s, a, limits), limits.caps) <==> CrashFits(s, a, limits.caps)
  {
    hide Sound, ReadsOn, CapInv, Effective, LeavesRoom, Twice, Enabled, Apply;
    if a.Send? {
      SendFits(s, a, limits);
    } else if a.LockText? {
      LockFitting(s, a, limits);
    } else if a.Publish? {
      PublishReads(s, limits);
      PublishFits(s, limits);
    } else if a.Crash? && s.phase.Published? {
      CrashCounts(s, limits);
    } else {
      SameWaiting(s, a, limits);
    }
  }

  lemma CountedLock(s: Source, a: Action, limits: Limits)
    requires Sound(s) && ReadsOn(s) && Enabled(s, a, limits) && LeavesRoom(s, a, limits)
    ensures Counted(s, a, limits)
  {
    hide Sound, Booked, Apply, Counted;
  }

  lemma SameHeld(s: Source, a: Action, limits: Limits)
    requires Enabled(s, a, limits) && a.LockText?
    ensures Held(Apply(s, a, limits)) == Held(s)
  {
  }

  lemma SameEffective(s: Source, t: Source)
    requires t == s.(schema := t.schema) && t.schema.Keys == s.schema.Keys
    ensures Effective(t) == Effective(s)
  {
    hide LinesOf, Between;
    SameFull(TableNow(s), s.schema, t.schema);
    SameCost(LinesOf(Between(s.batches, At(s), |s.batches|)), s.schema, t.schema);
  }

  lemma SameFull(table: Table, schema: Schema, later: Schema)
    requires later.Keys == schema.Keys
    ensures FullBytes(table, later) == FullBytes(table, schema)
  {
    hide SizeOf, Fill, NamesOf;
    assert (map id | id in table :: FullSize(table[id], later)) == (map id | id in table :: FullSize(table[id], schema));
  }

  lemma {:induction false} SameCost(lines: seq<Line>, schema: Schema, later: Schema)
    requires later.Keys == schema.Keys
    ensures LinesCost(lines, later) == LinesCost(lines, schema)
  {
    hide LineSize, Fill;
    if lines != [] {
      SameCost(lines[..|lines| - 1], schema, later);
    }
  }

  lemma SameWaiting(s: Source, a: Action, limits: Limits)
    requires Enabled(s, a, limits) && !(a.Crash? && s.phase.Published?)
    requires a.BeginChanges? || a.BeginFull? || a.ReadOn? || a.Crash? || a.StoreCursor?
    ensures Effective(Apply(s, a, limits)) == Effective(s)
  {
  }

  lemma {:induction false} RunReadsOn(states: seq<Source>, actions: seq<Action>, limits: Limits, n: nat)
    requires IsCappedRun(states, actions, limits) && n < |states|
    requires forall i :: 0 <= i < |actions| ==> !actions[i].LoseTable?
    ensures ReadsOn(states[n])
  {
    hide ReadsOn, Moves, LeavesRoom, SkipsBatches;
    CappedIsRun(states, actions, limits);
    OnlyALostTableSkips(states, actions, limits, n);
  }

  /** In a run that never loses its table, the capacity, the lines of a publish counted once
      until its cursor is stored, stays within the caps in every state exactly when each
      crash between the two leaves room to count them again. Outside that window it is the
      capacity every send, list and page reports. */
  lemma {:induction false} CapacityStaysWithin(states: seq<Source>, actions: seq<Action>, limits: Limits, n: nat)
    requires IsCappedRun(states, actions, limits) && n < |states|
    requires forall i :: 0 <= i < |actions| ==> !actions[i].LoseTable?
    ensures (forall i :: 0 <= i <= n ==> Fitting(states[i], limits.caps))
            <==> forall i :: 0 <= i < n ==> CrashFits(states[i], actions[i], limits.caps)
    ensures var s := states[n];
            !s.phase.Published? ==> CapacityOf(Held(s), s.schema) == Effective(s)
  {
    hide Sound, ReadsOn, CapInv, LeavesRoom, Enabled, Apply, CrashFits, Fitting, CapacityOf, Held, Effective;
    if n == 0 {
      FreshFits(limits.caps);
    } else {
      CapacityStaysWithin(states, actions, limits, n - 1);
      RunBooked(states, actions, limits, n - 1);
      RunReadsOn(states, actions, limits, n - 1);
      assert MovesCapped(states[n - 1], actions[n - 1], states[n], limits);
      if Fitting(states[n - 1], limits.caps) {
        StepFitsIff(states[n - 1], actions[n - 1], limits);
      }
    }
    RunBooked(states, actions, limits, n);
    RunReadsOn(states, actions, limits, n);
    EffectiveBelow(states[n], limits);
  }

  lemma FreshFits(caps: Caps)
    ensures Fitting(FRESH, caps)
  {
    assert Between([], 0, 0) == [];
    FullBytesIs(map[], {}, map[]);
    RowsTakeBytes(map[]);
  }

  // ---------------------------------------------------------------- Text field locks

  /** Locking a field no piece has carried costs every row and every waiting line its
      null, which nothing checks. */
  lemma LockCosts(s: Source, name: string, limits: Limits)
    requires s.columns.Keys <= s.schema.Keys && name !in s.schema && LockedSchema(s, name, limits).Locked?
    ensures var before, after := CapacityOf(Held(s), s.schema), CapacityOf(Held(s), LockedSchema(s, name, limits).schema);
            && after.rows == before.rows
            && after.bytes == before.bytes + Product(|TableNow(s)| + |Waiting(s)|, NullFill(name))
  {
    hide CapacityOf, Waiting, TableBytes, LinesSize, Product, NullFill, TableNow, Fill, ScanRules.KeyRules;
    OneMoreField(Held(s), s.schema, LockedSchema(s, name, limits).schema, name);
  }

  /** So such a lock is counted exactly when the capacity had that much room. */
  lemma LockFits(s: Source, name: string, limits: Limits)
    requires s.columns.Keys <= s.schema.Keys && name !in s.schema && Enabled(s, LockText(name), limits)
    ensures Counted(s, LockText(name), limits)
            <==> CapacityOf(Held(s), s.schema).rows <= limits.caps.maxRows
                 && CapacityOf(Held(s), s.schema).bytes + Product(|TableNow(s)| + |Waiting(s)|, NullFill(name)) <= limits.caps.maxBytes
  {
    hide CapacityOf, Waiting, Held, Product, NullFill, TableNow, LockedSchema;
    LockCosts(s, name, limits);
  }

  lemma OneMoreField(h: Holding, schema: Schema, more: Schema, name: string)
    requires name !in schema && more.Keys == schema.Keys + {name} && h.tableFields <= schema.Keys
    ensures CapacityOf(h, more).rows == CapacityOf(h, schema).rows
    ensures CapacityOf(h, more).bytes
            == CapacityOf(h, schema).bytes + Product(h.tableRows + h.pendingPieces, NullFill(name))
  {
    hide Fill, NullFill, Product;
    FillWithout(more.Keys, name);
    assert more.Keys - {name} == schema.Keys;
    FillWithout(more.Keys - h.tableFields, name);
    assert more.Keys - h.tableFields - {name} == schema.Keys - h.tableFields;
    Distributes(h.tableRows, Fill(schema.Keys - h.tableFields), NullFill(name));
    Distributes(h.pendingPieces, Fill(schema.Keys) + ROW_SLACK, NullFill(name));
    Together(h.tableRows, h.pendingPieces, NullFill(name));
  }

  lemma Distributes(n: nat, a: nat, b: nat)
    ensures Product(n, a + b) == Product(n, a) + Product(n, b)
  {
  }

  lemma Together(n: nat, m: nat, each: nat)
    ensures Product(n + m, each) == Product(n, each) + Product(m, each)
  {
  }
}
