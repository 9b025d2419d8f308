/** Whole runs of an event source: sends, text field locks and syncs, in any
    order, with crashes between a sync's steps. A sync publishes its table and
    stores its cursor in two transactions, so a crash can fall between them. */
module Runs {
  import opened Options
  import opened Pieces
  import opened Utf8
  import opened Schemas
  import opened Rows
  import opened Tables
  import opened Reads
  import opened Capacities

  datatype Limits = Limits(maxFields: nat, caps: Caps, budget: ReadBudget)

  /** Where the source's sync stands. Started is a full read with the bound its Start
      took. Reading holds the bound of the batches read and the schema read with the
      last of them. */
  datatype Phase = Idle | Started(through: nat) | Reading(upto: nat, schema: Schema) | Published(upto: nat)

  /** shown and top only record history: the line each row was last written from,
      and the newest batch any publish of this table has merged. */
  datatype Source = Source(schema: Schema, batches: seq<Batch>, table: Option<Table>, columns: Schema, cursor: nat,
                           phase: Phase, shown: map<string, Line>, top: nat)

  datatype Action =
    | Send(pieces: seq<SentPiece>, receivedAt: string)
    | LockText(name: string)
    | BeginChanges
    | BeginFull
    | ReadOn
    | Publish
    | StoreCursor
    | Crash
    | LoseTable

  const FRESH := Source(map[], [], None, map[], 0, Idle, map[], 0)

  /** Every received_at takes this many bytes, so a send's size is known before it
      arrives. */
  const RECEIVED_BYTES: nat := 27

  function Arrived(pieces: seq<SentPiece>, receivedAt: string): (lines: seq<Line>)
    ensures |lines| == |pieces|
    ensures forall i :: 0 <= i < |lines| ==> lines[i] == Line(pieces[i], receivedAt)
  {
    seq(|pieces|, i requires 0 <= i < |pieces| => Line(pieces[i], receivedAt))
  }

  /** The lines no sync has merged yet, as the store counts them. */
  function Waiting(s: Source): seq<Line> {
    LinesOf(Between(s.batches, s.cursor, |s.batches|))
  }

  function TableNow(s: Source): Table {
    if s.table.None? then map[] else s.table.value
  }

  function From(s: Source): nat {
    if s.table.None? then 0 else s.cursor
  }

  /** The newest batch one read takes now: as many of those above the table's rows as
      the schema and the batches of this instant let it. */
  function Reach(s: Source, limits: Limits): nat {
    From(s) + Takes(limits.budget, PerPiece(s.schema), Between(s.batches, From(s), |s.batches|))
  }

  /** The lines a publish merges. */
  function ReadLines(s: Source): seq<Line>
    requires s.phase.Reading?
  {
    LinesOf(Between(s.batches, From(s), s.phase.upto))
  }

  ghost function Held(s: Source): Holding {
    HoldingOf(TableNow(s), s.columns.Keys, Waiting(s))
  }

  /** What a text field lock makes of the schema. */
  function LockedSchema(s: Source, name: string, limits: Limits): Locked {
    WithText(s.schema, name, limits.maxFields)
  }

  /** When each action can happen. A send is one the stateless rules accepted, whose
      fields merge and whose capacity fits; it may come at any time. A change read needs
      a table and takes its batches and its schema at one instant; with nothing waiting
      it changes nothing. A full read's Start takes its bound, and its own queries read
      on to that bound, the last of them at a later instant. */
  ghost predicate Enabled(s: Source, a: Action, limits: Limits) {
    match a
    case Send(pieces, receivedAt) =>
      && pieces != [] && (forall i :: 0 <= i < |pieces| ==> Scanned(pieces[i]))
      && BytesOf(receivedAt) == RECEIVED_BYTES
      && Accepts(s.schema, pieces, limits.maxFields)
      && Project(Held(s), |pieces|, LinesSize(Arrived(pieces, receivedAt)), After(s.schema, pieces), limits.caps).InCaps?
    case LockText(name) => LockedSchema(s, name, limits).Locked?
    case BeginChanges => s.phase.Idle? && s.table.Some? && s.cursor < |s.batches|
    case BeginFull => s.phase.Idle?
    case ReadOn => s.phase.Started?
    case Publish => s.phase.Reading?
    case StoreCursor => s.phase.Published?
    case Crash => !s.phase.Idle?
    case LoseTable => s.phase.Idle?
  }

  /** What a publish makes of the source. */
  ghost function AfterPublish(s: Source): Source
    requires s.phase.Reading?
  {
    var lines := ReadLines(s);
    s.(table := Some(Merge(TableNow(s), lines, s.phase.schema)), columns := s.phase.schema,
       phase := Published(s.phase.upto), shown := s.shown + Last(lines), top := Most(s.top, s.phase.upto))
  }

  ghost function Apply(s: Source, a: Action, limits: Limits): Source
    requires Enabled(s, a, limits)
  {
    match a
    case Send(pieces, receivedAt) =>
      var lines := Arrived(pieces, receivedAt);
      s.(schema := After(s.schema, pieces), batches := s.batches + [Batch(|s.batches| + 1, lines, LinesSize(lines))])
    case LockText(name) => s.(schema := LockedSchema(s, name, limits).schema)
    case BeginChanges => s.(phase := Reading(Reach(s, limits), s.schema))
    case BeginFull => s.(phase := Started(Reach(s, limits)))
    case ReadOn => s.(phase := Reading(s.phase.through, s.schema))
    case Publish => AfterPublish(s)
    case StoreCursor => s.(cursor := s.phase.upto, phase := Idle)
    case Crash => s.(phase := Idle)
    case LoseTable => s.(table := None, columns := map[], shown := map[], top := 0)
  }

  function Most(a: nat, b: nat): nat {
    if a < b then b else a
  }

  // ---------------------------------------------------------------- What the rows show

  /** The line of each id that a table of the first `at` batches shows. */
  function Settled(batches: seq<Batch>, at: nat): map<string, Line> {
    Last(LinesOf(Between(batches, 0, at)))
  }

  /** Every id of the first `at` batches is shown, by its last line among them or by
      a line of the batches after, up to top; and nothing else is. */
  ghost predicate Agrees(shown: map<string, Line>, batches: seq<Batch>, at: nat, top: nat) {
    && Settled(batches, at).Keys <= shown.Keys
    && forall id :: id in shown ==>
         && shown[id].piece.id == id
         && ((id in Settled(batches, at) && shown[id] == Settled(batches, at)[id])
             || shown[id] in LinesOf(Between(batches, at, top)))
  }

  /** The batch the table's next sync reads on from: the cursor, or the bound just
      published, which the next step stores. */
  function At(s: Source): nat {
    if s.phase.Published? then s.phase.upto else s.cursor
  }

  /** What every step keeps, whatever crashed: the table shows, in each row, the line the
      row was last written from. */
  ghost predicate Sound(s: Source) {
    && Numbered(s.batches, 0) && Hold(s.batches, s.schema)
    && s.cursor <= |s.batches| && s.top <= |s.batches| && Extends(s.schema, s.columns)
    && (s.table.Some? ==> TableShows(s.table.value, s.shown, s.columns))
    && (s.table.None? ==> s.shown == map[] && s.columns == map[] && s.top == 0)
    && (s.phase.Started? ==> From(s) <= s.phase.through <= |s.batches|)
    && (s.phase.Reading? ==>
          && From(s) <= s.phase.upto <= |s.batches|
          && Extends(s.schema, s.phase.schema) && s.columns.Keys <= s.phase.schema.Keys
          && Hold(Between(s.batches, 0, s.phase.upto), s.phase.schema))
    && (s.phase.Published? ==> s.table.Some? && s.phase.upto <= s.top)
  }

  /** And what every step but one keeps: each row shows a line no older than the batch
      the next sync reads on from says. */
  ghost predicate Inv(s: Source) {
    Sound(s) && (s.table.Some? ==> Agrees(s.shown, s.batches, At(s), s.top))
  }

  /** A crash after the publish of a lost table's replay that was cut below the
      cursor still stored: the batches in between are never read again. */
  ghost predicate SkipsBatches(s: Source, a: Action) {
    a.Crash? && s.phase.Published? && s.phase.upto < s.cursor
  }

  lemma BetweenSplit(batches: seq<Batch>, a: nat, b: nat, c: nat)
    requires a <= b <= c <= |batches|
    ensures LinesOf(Between(batches, a, c)) == LinesOf(Between(batches, a, b)) + LinesOf(Between(batches, b, c))
  {
    assert batches[a..c] == batches[a..b] + batches[b..c];
    LinesConcat(batches[a..b], batches[b..c]);
  }

  lemma SettledSplit(batches: seq<Batch>, at: nat, upto: nat)
    requires at <= upto <= |batches|
    ensures Settled(batches, upto) == Settled(batches, at) + Last(LinesOf(Between(batches, at, upto)))
  {
    BetweenSplit(batches, 0, at, upto);
    LastConcat(LinesOf(Between(batches, 0, at)), LinesOf(Between(batches, at, upto)));
  }

  /** Merging the batches after at settles them. */
  lemma MergeSettles(shown: map<string, Line>, batches: seq<Batch>, at: nat, upto: nat, top: nat)
    requires at <= upto <= |batches| && top <= |batches| && Agrees(shown, batches, at, top)
    ensures Agrees(shown + Last(LinesOf(Between(batches, at, upto))), batches, upto, Most(top, upto))
  {
    hide Last, LinesOf, Between, Settled;
    var merged := LinesOf(Between(batches, at, upto));
    SettledSplit(batches, at, upto);
    LastIsALine(merged);
    forall id | id in shown && id !in Last(merged) && shown[id] in LinesOf(Between(batches, at, top))
      ensures shown[id] in LinesOf(Between(batches, upto, Most(top, upto)))
    {
      LaterLine(batches, at, upto, top, shown[id]);
    }
  }

  lemma LaterLine(batches: seq<Batch>, at: nat, upto: nat, top: nat, l: Line)
    requires at <= upto <= |batches| && top <= |batches|
    requires l in LinesOf(Between(batches, at, top)) && l !in LinesOf(Between(batches, at, upto))
    ensures l in LinesOf(Between(batches, upto, Most(top, upto)))
  {
    hide LinesOf;
    NoBatches();
    if at <= top {
      if top <= upto {
        BetweenSplit(batches, at, top, upto);
      } else {
        BetweenSplit(batches, at, upto, top);
      }
    }
  }

  lemma NoBatches()
    ensures LinesOf([]) == []
  {
  }

  /** What agrees at a batch agrees at any before it. */
  lemma AgreesBefore(shown: map<string, Line>, batches: seq<Batch>, at: nat, upto: nat, top: nat)
    requires at <= upto <= top <= |batches| && Agrees(shown, batches, upto, top)
    ensures Agrees(shown, batches, at, top)
  {
    hide Last, LinesOf, Between, Settled;
    var between := LinesOf(Between(batches, at, upto));
    SettledSplit(batches, at, upto);
    BetweenSplit(batches, at, upto, top);
    LastIsALine(between);
  }

  /** With nothing published beyond at, every row shows the last line of its id. */
  lemma AgreesExactly(shown: map<string, Line>, batches: seq<Batch>, at: nat, top: nat)
    requires top <= at && Agrees(shown, batches, at, top)
    ensures shown == Settled(batches, at)
  {
    NoBatches();
  }

  lemma BetweenGrows(batches: seq<Batch>, b: Batch, from: nat, upto: nat)
    requires upto <= |batches|
    ensures Between(batches + [b], from, upto) == Between(batches, from, upto)
  {
  }

  // ---------------------------------------------------------------- Every step keeps it

  lemma SendSound(s: Source, pieces: seq<SentPiece>, receivedAt: string, limits: Limits)
    requires Sound(s) && Enabled(s, Send(pieces, receivedAt), limits)
    ensures Sound(Apply(s, Send(pieces, receivedAt), limits))
  {
    hide Last, LinesOf, TableShows, LearnAll, Flat, Project, Scanned, LinesSize, Accepts, AllWithin, Held, Extends, Numbered, Hold;
    var t := Apply(s, Send(pieces, receivedAt), limits);
    var b := Batch(|s.batches| + 1, Arrived(pieces, receivedAt), LinesSize(Arrived(pieces, receivedAt)));
    AcceptedLearns(s.schema, pieces, limits.maxFields);
    Grows(s, t.schema);
    SentWithin(pieces, receivedAt, t.schema);
    AddsBatch(s.batches, b, t.schema);
    if s.phase.Reading? {
      BetweenGrows(s.batches, b, 0, s.phase.upto);
    }
  }

  lemma AddsBatch(batches: seq<Batch>, b: Batch, schema: Schema)
    requires Numbered(batches, 0) && Hold(batches, schema) && b.seqNo == |batches| + 1 && AllWithin(b.lines, schema)
    ensures Numbered(batches + [b], 0) && Hold(batches + [b], schema)
  {
    hide AllWithin;
  }

  lemma SendAgrees(s: Source, pieces: seq<SentPiece>, receivedAt: string, limits: Limits)
    requires Inv(s) && Enabled(s, Send(pieces, receivedAt), limits)
    ensures Inv(Apply(s, Send(pieces, receivedAt), limits))
  {
    hide Last, LinesOf, Between, Sound, LearnAll, Flat, Project, Scanned, LinesSize, Accepts;
    SendSound(s, pieces, receivedAt, limits);
    SoundBounds(s);
    var t := Apply(s, Send(pieces, receivedAt), limits);
    var b := t.batches[|s.batches|];
    BetweenGrows(s.batches, b, 0, At(s));
    BetweenGrows(s.batches, b, At(s), s.top);
  }

  lemma SoundBounds(s: Source)
    requires Sound(s)
    ensures s.top <= |s.batches| && At(s) <= |s.batches|
  {
  }

  lemma AcceptedLearns(schema: Schema, pieces: seq<SentPiece>, maxFields: nat)
    requires Accepts(schema, pieces, maxFields)
    ensures Extends(After(schema, pieces), schema) && Fits(Flat(pieces), After(schema, pieces))
  {
    LearnKeeps(schema, Flat(pieces));
  }

  lemma Grows(s: Source, schema: Schema)
    requires Sound(s) && Extends(schema, s.schema)
    ensures Hold(s.batches, schema) && Extends(schema, s.columns)
    ensures s.phase.Reading? ==> Extends(schema, s.phase.schema)
  {
    HoldLater(s.batches, s.schema, schema);
    ExtendsTransitive(schema, s.schema, s.columns);
    if s.phase.Reading? {
      ExtendsTransitive(schema, s.schema, s.phase.schema);
    }
  }

  lemma SentWithin(pieces: seq<SentPiece>, receivedAt: string, schema: Schema)
    requires Fits(Flat(pieces), schema)
    ensures AllWithin(Arrived(pieces, receivedAt), schema)
  {
    forall i | 0 <= i < |pieces|
      ensures Within(Line(pieces[i], receivedAt), schema)
    {
      InFlat(pieces, i);
    }
  }

  lemma {:induction false} InFlat(pieces: seq<SentPiece>, i: nat)
    requires i < |pieces|
    ensures forall m :: m in pieces[i].members ==> m in Flat(pieces)
  {
    if i < |pieces| - 1 {
      InFlat(pieces[..|pieces| - 1], i);
    }
  }

  lemma LockSound(s: Source, name: string, limits: Limits)
    requires Sound(s) && Enabled(s, LockText(name), limits)
    ensures Sound(Apply(s, LockText(name), limits))
  {
    hide Last, LinesOf, Between, TableShows, AllWithin, Hold;
    Grows(s, LockedSchema(s, name, limits).schema);
  }

  lemma PublishSound(s: Source, limits: Limits)
    requires Sound(s) && s.phase.Reading?
    ensures Sound(Apply(s, Publish, limits))
  {
    hide Last, LinesOf, TableShows, AllWithin, Hold, Merge, Numbered, Between;
    var upto, schema := s.phase.upto, s.phase.schema;
    HeldParts(s.batches, From(s), upto, schema);
    HoldLines(Between(s.batches, From(s), upto), schema);
    if s.table.None? {
      EmptyShows(s.schema);
    }
    MergeShows(TableNow(s), s.shown, s.columns, ReadLines(s), schema);
  }

  lemma PublishAgrees(s: Source, limits: Limits)
    requires Inv(s) && s.phase.Reading?
    ensures Inv(Apply(s, Publish, limits))
  {
    hide Last, LinesOf, TableShows, Agrees, Hold, Merge, Numbered, Between;
    PublishSound(s, limits);
    if s.table.None? {
      EmptyAgrees(s.batches);
    }
    MergeSettles(s.shown, s.batches, From(s), s.phase.upto, s.top);
  }

  lemma HeldParts(batches: seq<Batch>, from: nat, upto: nat, schema: Schema)
    requires from <= upto <= |batches| && Hold(Between(batches, 0, upto), schema)
    ensures Hold(Between(batches, from, upto), schema)
  {
    hide AllWithin;
    forall i | 0 <= i < upto - from
      ensures AllWithin(batches[from..upto][i].lines, schema)
    {
      assert batches[0..upto][from + i] == batches[from + i];
    }
  }

  lemma EmptyShows(schema: Schema)
    ensures TableShows(map[], map[], map[])
  {
  }

  lemma EmptyAgrees(batches: seq<Batch>)
    ensures Agrees(map[], batches, 0, 0)
  {
    assert Between(batches, 0, 0) == [];
    NoBatches();
  }

  lemma CrashAgrees(s: Source, limits: Limits)
    requires Inv(s) && Enabled(s, Crash, limits) && !SkipsBatches(s, Crash)
    ensures Inv(Apply(s, Crash, limits))
  {
    hide Last, LinesOf, TableShows, AllWithin, Agrees, Hold, Numbered, Between;
    if s.phase.Published? {
      AgreesBefore(s.shown, s.batches, s.cursor, s.phase.upto, s.top);
    }
  }

  lemma ReachBounds(s: Source, limits: Limits)
    requires Sound(s)
    ensures From(s) <= Reach(s, limits) <= |s.batches|
  {
    hide Takes, Numbered, Hold, TableShows, PerPiece;
  }

  lemma BeginSound(s: Source, a: Action, limits: Limits)
    requires Sound(s) && Enabled(s, a, limits) && (a.BeginChanges? || a.BeginFull? || a.ReadOn?)
    ensures Sound(Apply(s, a, limits))
  {
    hide Last, LinesOf, TableShows, AllWithin, Numbered, Reach;
    ReachBounds(s, limits);
    ExtendsItself(s.schema);
    HoldBetween(s.batches, s.schema, 0, if a.ReadOn? then s.phase.through else Reach(s, limits));
  }

  /** Every step of any run leaves each row showing the line it was written from. */
  lemma StepSound(s: Source, a: Action, limits: Limits)
    requires Sound(s) && Enabled(s, a, limits)
    ensures Sound(Apply(s, a, limits))
  {
    match a
    case Send(pieces, receivedAt) => SendSound(s, pieces, receivedAt, limits);
    case LockText(name) => LockSound(s, name, limits);
    case Publish => PublishSound(s, limits);
    case StoreCursor =>
    case Crash =>
    case LoseTable =>
    case _ => BeginSound(s, a, limits);
  }

  /** Every step keeps the rows in agreement, but for the one crash that skips. */
  lemma StepKeeps(s: Source, a: Action, limits: Limits)
    requires Inv(s) && Enabled(s, a, limits) && !SkipsBatches(s, a)
    ensures Inv(Apply(s, a, limits))
  {
    hide Sound, Agrees, Reach;
    StepSound(s, a, limits);
    match a
    case Send(pieces, receivedAt) => SendAgrees(s, pieces, receivedAt, limits);
    case Publish => PublishAgrees(s, limits);
    case Crash => CrashAgrees(s, limits);
    case LoseTable => NoTable(Apply(s, a, limits));
    case _ => SameRows(s, a, limits);
  }

  lemma NoTable(s: Source)
    requires Sound(s) && s.table.None?
    ensures Inv(s)
  {
  }

  lemma SameRows(s: Source, a: Action, limits: Limits)
    requires Inv(s) && Enabled(s, a, limits)
    requires a.LockText? || a.StoreCursor? || a.BeginChanges? || a.BeginFull? || a.ReadOn?
    ensures var t := Apply(s, a, limits);
            t.table == s.table && (t.table.Some? ==> Agrees(t.shown, t.batches, At(t), t.top))
  {
    hide Agrees, TableShows, Hold, Numbered, Reach;
  }

  // ---------------------------------------------------------------- Runs

  /** The action takes the source from one state to the next. */
  ghost predicate Moves(s: Source, a: Action, t: Source, limits: Limits) {
    Enabled(s, a, limits) && t == Apply(s, a, limits)
  }

  /** The states a run of actions goes through, from a new source. */
  ghost predicate IsRun(states: seq<Source>, actions: seq<Action>, limits: Limits) {
    && |states| == |actions| + 1 && states[0] == FRESH
    && forall i :: 0 <= i < |actions| ==> Moves(states[i], actions[i], states[i + 1], limits)
  }

  /** A run with every crash there is but the one that skips batches. */
  ghost predicate IsSafeRun(states: seq<Source>, actions: seq<Action>, limits: Limits) {
    && |states| == |actions| + 1 && states[0] == FRESH
    && forall i :: 0 <= i < |actions| ==>
         Moves(states[i], actions[i], states[i + 1], limits) && !SkipsBatches(states[i], actions[i])
  }

  lemma {:induction false} RunKeeps(states: seq<Source>, actions: seq<Action>, limits: Limits, n: nat)
    requires IsSafeRun(states, actions, limits) && n < |states|
    ensures Inv(states[n])
  {
    hide Inv, Enabled, Apply, SkipsBatches;
    if n == 0 {
      FreshKeeps();
    } else {
      RunKeeps(states, actions, limits, n - 1);
      assert Moves(states[n - 1], actions[n - 1], states[n], limits);
      StepKeeps(states[n - 1], actions[n - 1], limits);
    }
  }

  lemma FreshKeeps()
    ensures Inv(FRESH)
  {
    assert Between([], 0, 0) == [];
  }

  /** However a run crashed and retried, a sync that leaves nothing waiting leaves
      the table exactly the last line of each id the source ever stored. */
  lemma CaughtUpIsExact(states: seq<Source>, actions: seq<Action>, limits: Limits, n: nat)
    requires IsSafeRun(states, actions, limits) && n < |states|
    requires states[n].table.Some? && At(states[n]) == |states[n].batches|
    ensures TableShows(states[n].table.value, Last(LinesOf(states[n].batches)), states[n].columns)
  {
    hide IsSafeRun, TableShows, LinesOf, Last;
    RunKeeps(states, actions, limits, n);
    var s := states[n];
    AgreesExactly(s.shown, s.batches, At(s), s.top);
    assert Between(s.batches, 0, |s.batches|) == s.batches;
  }

  /** Whatever happened, no id of the batches up to the cursor is missing, and each
      row shows a line of its own id no older than its last among them. */
  lemma NothingIsLost(states: seq<Source>, actions: seq<Action>, limits: Limits, n: nat)
    requires IsSafeRun(states, actions, limits) && n < |states| && states[n].table.Some?
    ensures var s := states[n];
            && TableShows(s.table.value, s.shown, s.columns)
            && Agrees(s.shown, s.batches, At(s), s.top)
  {
    hide IsSafeRun;
    RunKeeps(states, actions, limits, n);
  }

  /** The sync under way reads at least up to the cursor. */
  ghost predicate ReadsOn(s: Source) {
    && (s.table.None? ==> s.cursor == 0)
    && (s.phase.Started? ==> s.cursor <= s.phase.through)
    && (s.phase.Reading? || s.phase.Published? ==> s.cursor <= s.phase.upto)
    && (s.phase.Published? ==> s.table.Some?)
  }

  lemma StepReadsOn(s: Source, a: Action, limits: Limits)
    requires ReadsOn(s) && Enabled(s, a, limits) && !a.LoseTable?
    ensures ReadsOn(Apply(s, a, limits))
  {
    hide Merge, Project, Held, Accepts, LearnAll, Flat, Last, LinesOf, Between, WithText, LinesSize, Takes, PerPiece;
  }

  /** A run loses batches to a crash only after it lost its table. */
  lemma {:induction false} OnlyALostTableSkips(states: seq<Source>, actions: seq<Action>, limits: Limits, n: nat)
    requires IsRun(states, actions, limits) && n < |states|
    requires forall i :: 0 <= i < |actions| ==> !actions[i].LoseTable?
    ensures ReadsOn(states[n])
    ensures n < |actions| ==> !SkipsBatches(states[n], actions[n])
  {
    hide Apply, Enabled;
    if n > 0 {
      OnlyALostTableSkips(states, actions, limits, n - 1);
      assert Moves(states[n - 1], actions[n - 1], states[n], limits);
      StepReadsOn(states[n - 1], actions[n - 1], limits);
    }
  }

  /** A state some run that never skips batches comes to. */
  ghost predicate Reachable(s: Source, limits: Limits) {
    exists states: seq<Source>, actions: seq<Action> ::
      IsSafeRun(states, actions, limits) && states[|actions|] == s
  }

  lemma ReachableStarts(limits: Limits)
    ensures Reachable(FRESH, limits)
  {
    var states, actions: seq<Action> := [FRESH], [];
    assert IsSafeRun(states, actions, limits);
  }

  lemma ReachableSteps(s: Source, a: Action, limits: Limits)
    requires Reachable(s, limits) && Enabled(s, a, limits) && !SkipsBatches(s, a)
    ensures Reachable(Apply(s, a, limits), limits)
  {
    hide Enabled, Apply, SkipsBatches;
    var states: seq<Source>, actions: seq<Action> :|
      IsSafeRun(states, actions, limits) && states[|actions|] == s;
    var after, taken := states + [Apply(s, a, limits)], actions + [a];
    assert Moves(s, a, Apply(s, a, limits), limits);
    assert IsSafeRun(after, taken, limits) && after[|taken|] == Apply(s, a, limits);
  }
}
