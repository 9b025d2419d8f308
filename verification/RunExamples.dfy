/** Three short runs of a source, from a new one. In the first two a crash between a
    sync's publish and its cursor leaves the table other than the last pieces; in the
    third a lost table's replay comes to more rows than the caps allow. */
module RunExamples {
  import opened Options
  import opened JsonText
  import opened Pieces
  import opened Utf8
  import opened Schemas
  import opened Rows
  import opened Tables
  import opened Reads
  import opened Capacities
  import opened Runs
  import opened Crashes
  import ScanRules

  const EARLY := "000000000000000000000000000"
  const LATE := "111111111111111111111111111"

  /** A piece of no fields, and one whose field f is null. */
  function Bare(id: string): SentPiece {
    SentPiece(id, None, "{}", [])
  }

  function Fielded(id: string): SentPiece {
    SentPiece(id, None, "{\"f\":null}", [Pieces.Member("f", FNull, "null")])
  }

  const WITH_F: Schema := map["f" := FNull]

  function BatchOf(seqNo: nat, p: SentPiece, at: string): Batch {
    var lines := Arrived([p], at);
    Batch(seqNo, lines, LinesSize(lines))
  }

  // ---------------------------------------------------------------- Sends

  lemma BareSends(id: string)
    ensures Scanned(Bare(id)) && Accepts(map[], [Bare(id)], 1) && After(map[], [Bare(id)]) == map[]
  {
    var pieces := [Bare(id)];
    assert pieces[..0] == [] && Flat(pieces) == Flat([]) + [] && Flat([]) == [];
    assert LearnAll(map[], []) == Some(map[]);
    var none: seq<Pieces.Member> := [];
    var keys: seq<string> := [];
    assert ScanRules.RebuiltMembers(keys, none) == "";
    assert Bare(id).data == ScanRules.Rebuilt(keys, none);
  }

  lemma FieldedSends(id: string)
    ensures Scanned(Fielded(id)) && Accepts(map[], [Fielded(id)], 1) && After(map[], [Fielded(id)]) == WITH_F
  {
    var p := Fielded(id);
    assert [p][..0] == [] && Flat([p]) == Flat([]) + p.members && Flat([]) == [] && [] + p.members == p.members;
    assert p.members[..0] == [] && LearnAll(map[], []) == Some(map[]);
    assert LearnAll(map[], p.members) == Learn(map[], p.members[0]);
    assert |WITH_F| == 1;
    var keys := ["\"f\""];
    assert ScanRules.RebuiltMembers(keys, p.members) == keys[0] + (":" + ("null" + ""));
    assert p.data == ScanRules.Rebuilt(keys, p.members);
  }

  lemma TimesTake()
    ensures BytesOf(EARLY) == RECEIVED_BYTES && BytesOf(LATE) == RECEIVED_BYTES
  {
    hide Encode;
    Ascii(EARLY);
    Ascii(LATE);
  }

  /** The source once a send of the piece is stored. */
  ghost function Stored(s: Source, p: SentPiece, at: string, after: Schema): Source {
    s.(schema := after, batches := s.batches + [BatchOf(|s.batches| + 1, p, at)])
  }

  /** The capacity the send is held to. */
  ghost function Needs(s: Source, p: SentPiece, at: string, after: Schema): Capacity {
    var h := Held(s);
    CapacityOf(h.(pendingPieces := h.pendingPieces + 1, pendingBytes := h.pendingBytes + LinesSize(Arrived([p], at))), after)
  }

  lemma SendEnabled(s: Source, p: SentPiece, at: string, after: Schema, limits: Limits)
    requires BytesOf(at) == RECEIVED_BYTES
    requires Scanned(p) && Accepts(s.schema, [p], limits.maxFields) && After(s.schema, [p]) == after
    requires var c := Needs(s, p, at, after); c.rows <= limits.caps.maxRows && c.bytes <= limits.caps.maxBytes
    ensures Enabled(s, Send([p], at), limits)
  {
    hide Held, Scanned, Accepts, After, LinesSize, CapacityOf, Encode, Arrived;
  }

  lemma SendApplied(s: Source, p: SentPiece, at: string, after: Schema, limits: Limits)
    requires Enabled(s, Send([p], at), limits) && After(s.schema, [p]) == after
    ensures Apply(s, Send([p], at), limits) == Stored(s, p, at, after)
  {
    hide Held, Scanned, Accepts, After, LinesSize, CapacityOf, Encode, Arrived, Project;
  }

  lemma Sends(s: Source, p: SentPiece, at: string, after: Schema, limits: Limits)
    requires Reachable(s, limits) && (at == EARLY || at == LATE)
    requires Scanned(p) && Accepts(s.schema, [p], limits.maxFields) && After(s.schema, [p]) == after
    requires var c := Needs(s, p, at, after); c.rows <= limits.caps.maxRows && c.bytes <= limits.caps.maxBytes
    ensures Reachable(Stored(s, p, at, after), limits)
  {
    hide Reachable, Enabled, Apply, Scanned, Accepts, After, Needs, Encode;
    TimesTake();
    SendEnabled(s, p, at, after, limits);
    SendApplied(s, p, at, after, limits);
    ReachableSteps(s, Send([p], at), limits);
  }

  // ---------------------------------------------------------------- Syncs

  /** The source once a full read has read the batches up to upto, nothing sent meanwhile. */
  function ReadTo(s: Source, upto: nat): Source {
    s.(phase := Reading(upto, s.schema))
  }

  ghost function PublishedAt(s: Source, upto: nat): Source {
    AfterPublish(ReadTo(s, upto))
  }

  lemma FullReads(s: Source, limits: Limits)
    requires Reachable(s, limits) && s.phase.Idle?
    ensures Reachable(ReadTo(s, Reach(s, limits)), limits)
  {
    hide Reachable, Reach;
    var started := s.(phase := Started(Reach(s, limits)));
    ReachableSteps(s, BeginFull, limits);
    assert Apply(s, BeginFull, limits) == started;
    ReachableSteps(started, ReadOn, limits);
    assert Apply(started, ReadOn, limits) == ReadTo(s, Reach(s, limits));
  }

  lemma Syncs(s: Source, limits: Limits)
    requires Reachable(s, limits) && s.phase.Idle?
    ensures Reachable(PublishedAt(s, Reach(s, limits)), limits)
  {
    hide Reachable, Reach, AfterPublish;
    FullReads(s, limits);
    ReachableSteps(ReadTo(s, Reach(s, limits)), Publish, limits);
  }

  ghost function CursorStored(s: Source): Source
    requires s.phase.Published?
  {
    s.(cursor := s.phase.upto, phase := Idle)
  }

  lemma Stores(s: Source, limits: Limits)
    requires Reachable(s, limits) && s.phase.Published?
    ensures Reachable(CursorStored(s), limits)
  {
    hide Reachable;
    ReachableSteps(s, StoreCursor, limits);
  }

  ghost function Lost(s: Source): Source {
    s.(table := None, columns := map[], shown := map[], top := 0)
  }

  lemma Loses(s: Source, limits: Limits)
    requires Reachable(s, limits) && s.phase.Idle?
    ensures Reachable(Lost(s), limits)
  {
    hide Reachable;
    ReachableSteps(s, LoseTable, limits);
  }

  lemma ReachableIsSound(s: Source, limits: Limits)
    requires Reachable(s, limits)
    ensures Sound(s)
  {
    hide Sound, Enabled, Apply, SkipsBatches;
    var states: seq<Source>, actions: seq<Action> :| IsSafeRun(states, actions, limits) && states[|actions|] == s;
    RunSound(states, actions, limits, |actions|);
  }

  // ---------------------------------------------------------------- Lines

  lemma LinesAre(batches: seq<Batch>, first: SentPiece, second: SentPiece)
    requires |batches| >= 2 && batches[0] == BatchOf(1, first, EARLY) && batches[1] == BatchOf(2, second, LATE)
    ensures LinesOf(Between(batches, 0, 1)) == [Line(first, EARLY)]
    ensures LinesOf(Between(batches, 0, 2)) == [Line(first, EARLY), Line(second, LATE)]
    ensures LinesOf(Between(batches, 1, 2)) == [Line(second, LATE)]
  {
    hide LinesSize;
    NoBatches();
    OneBatch(batches[0]);
    OneBatch(batches[1]);
    assert batches[0..1] == [batches[0]] && batches[1..2] == [batches[1]];
    BetweenSplit(batches, 0, 1, 2);
  }

  lemma OneBatch(b: Batch)
    ensures LinesOf([b]) == b.lines
  {
    assert [b][..0] == [] && LinesOf([]) == [] && [] + b.lines == b.lines;
  }

  lemma LastAre(first: SentPiece, second: SentPiece)
    ensures Last([Line(first, EARLY)]) == map[first.id := Line(first, EARLY)]
    ensures Last([Line(first, EARLY), Line(second, LATE)])
            == map[first.id := Line(first, EARLY)][second.id := Line(second, LATE)]
  {
    var one, two := [Line(first, EARLY)], [Line(first, EARLY), Line(second, LATE)];
    assert one[..0] == [] && two[..1] == one;
  }

  lemma BareId(id: string)
    ensures Bare(id).id == id
  {
  }

  ghost function AfterOne(id: string): Source {
    FRESH.(batches := [BatchOf(1, Bare(id), EARLY)])
  }

  ghost function AfterTwo(id: string, other: string): Source {
    FRESH.(batches := [BatchOf(1, Bare(id), EARLY), BatchOf(2, Bare(other), LATE)])
  }

  lemma TwoSends(id: string, other: string, limits: Limits)
    requires limits.maxFields == 1
    requires var c := Needs(FRESH, Bare(id), EARLY, map[]); c.rows <= limits.caps.maxRows && c.bytes <= limits.caps.maxBytes
    requires var c := Needs(AfterOne(id), Bare(other), LATE, map[]);
             c.rows <= limits.caps.maxRows && c.bytes <= limits.caps.maxBytes
    ensures Reachable(AfterTwo(id, other), limits)
  {
    hide Reachable, Needs, BatchOf, Scanned, Accepts, After, Bare;
    BareSends(id);
    BareSends(other);
    ReachableStarts(limits);
    Sends(FRESH, Bare(id), EARLY, map[], limits);
    assert Stored(FRESH, Bare(id), EARLY, map[]) == AfterOne(id);
    Sends(AfterOne(id), Bare(other), LATE, map[], limits);
    assert Stored(AfterOne(id), Bare(other), LATE, map[]) == AfterTwo(id, other);
  }

  // ---------------------------------------------------------------- A row goes back

  /** A budget of just the bytes of these batches under a schema of no fields. */
  function Tight(batches: seq<Batch>): ReadBudget {
    ReadBudget(|batches|, PiecesOf(batches), CostOf(batches, 0))
  }

  lemma {:induction false} CostGrows(batches: seq<Batch>, perPiece: nat)
    ensures CostOf(batches, perPiece) >= CostOf(batches, 0) + perPiece * PiecesOf(batches)
  {
    if batches != [] {
      var n := |batches| - 1;
      CostGrows(batches[..n], perPiece);
      assert perPiece * (PiecesOf(batches[..n]) + |batches[n].lines|)
          == perPiece * PiecesOf(batches[..n]) + |batches[n].lines| * perPiece;
    }
  }

  lemma FieldsCost()
    ensures PerPiece(map[]) == 0 && PerPiece(WITH_F) > 0
  {
    assert |WITH_F| == 1;
    NoFill();
    var none: Schema := map[];
    assert none.Keys == {};
  }

  lemma NoFill()
    ensures Fill({}) == 0
  {
  }

  /** Under the tight budget one read takes both batches before the field, and one after. */
  lemma TightReach(s: Source, limits: Limits)
    requires Sound(s) && From(s) == 0 && |s.batches| >= 2
    requires limits.budget == Tight(s.batches[..2]) && PiecesOf(s.batches[..2]) == 2
    ensures s.schema == map[] && |s.batches| == 2 ==> Reach(s, limits) == 2
    ensures s.schema == WITH_F ==> Reach(s, limits) == 1 && !ReachesBack(s.(top := 2), limits)
  {
    hide PerPiece, Takes, PiecesOf, CostOf, Sound;
    FieldsCost();
    ReachBounds(s, limits);
    ReachesIff(s, 2, limits);
    ReachesIff(s, 1, limits);
    CostGrows(s.batches[..2], PerPiece(s.schema));
    assert Between(s.batches, 0, 2) == s.batches[..2];
    SoundParts(s);
    if s.schema == WITH_F {
      assert CostOf(s.batches[..2], PerPiece(s.schema)) > CostOf(s.batches[..2], 0);
    }
  }

  /** Two pieces of one id are sent and synced, and the sync crashes before its cursor is
      stored; a send adds a field; the retry, a full read as the first, is cut to the first
      batch by the wider schema. The row goes back to the older piece. */
  lemma ARowGoesBack()
    ensures exists s: Source, t: Source, limits: Limits ::
              && Reachable(s, limits) && s.phase == Published(2) && s.cursor == 0 && Exact(s)
              && "a" in s.shown && s.shown["a"].receivedAt == LATE
              && Reachable(t, limits) && t.phase == Published(1) && s.batches <= t.batches && |t.batches| == 3
              && "a" in t.shown && t.shown["a"].receivedAt == EARLY
  {
    hide Reachable, Merge, BatchOf, LinesOf, Between, Last, Needs, Reach, Tight, PiecesOf, Settled, Bare, Fielded;
    var sent := AfterTwo("a", "a");
    var s := PublishedAt(sent, 2);
    var crashed := s.(phase := Idle);
    var grown := Stored(crashed, Fielded("c"), EARLY, WITH_F);
    var one, two, three := Needs(FRESH, Bare("a"), EARLY, map[]), Needs(AfterOne("a"), Bare("a"), LATE, map[]),
        Needs(crashed, Fielded("c"), EARLY, WITH_F);
    var limits := Limits(1, Caps(one.rows + two.rows + three.rows, one.bytes + two.bytes + three.bytes), Tight(sent.batches));
    TwoSends("a", "a", limits);
    ReachesTwo(sent, limits);
    Syncs(sent, limits);
    Crashed(s, limits);
    FieldedSends("c");
    Sends(crashed, Fielded("c"), EARLY, WITH_F, limits);
    ReachesOne(sent, grown, limits);
    Syncs(grown, limits);
    GoneBack(sent, s, grown, PublishedAt(grown, 1));
  }

  lemma Crashed(s: Source, limits: Limits)
    requires Reachable(s, limits) && s.phase.Published? && s.cursor <= s.phase.upto
    ensures Reachable(s.(phase := Idle), limits)
  {
    hide Reachable;
    ReachableSteps(s, Crash, limits);
  }

  lemma ReachesTwo(sent: Source, limits: Limits)
    requires sent == AfterTwo("a", "a") && limits.budget == Tight(sent.batches) && Reachable(sent, limits)
    ensures Reach(sent, limits) == 2
  {
    hide Reachable, Reach, LinesSize;
    ReachableIsSound(sent, limits);
    TwoPieces(sent.batches[0], sent.batches[1]);
    assert sent.batches[..2] == sent.batches;
    TightReach(sent, limits);
  }

  lemma ReachesOne(sent: Source, grown: Source, limits: Limits)
    requires sent == AfterTwo("a", "a") && limits.budget == Tight(sent.batches) && Reachable(grown, limits)
    requires From(grown) == 0 && grown.schema == WITH_F && sent.batches <= grown.batches
    ensures Reach(grown, limits) == 1
  {
    hide Reachable, Reach, LinesSize;
    ReachableIsSound(grown, limits);
    TwoPieces(sent.batches[0], sent.batches[1]);
    assert grown.batches[..2] == sent.batches && sent.batches == [sent.batches[0], sent.batches[1]];
    TightReach(grown, limits);
  }

  lemma TwoPieces(a: Batch, b: Batch)
    requires |a.lines| == 1 && |b.lines| == 1
    ensures PiecesOf([a, b]) == 2
  {
    assert [a, b][..1] == [a] && [a][..0] == [];
    assert PiecesOf([]) == 0;
    assert PiecesOf([a]) == 1;
  }

  lemma GoneBack(sent: Source, s: Source, grown: Source, t: Source)
    requires sent == AfterTwo("a", "a") && s == PublishedAt(sent, 2) && t == PublishedAt(grown, 1)
    requires grown == Stored(s.(phase := Idle), Fielded("c"), EARLY, WITH_F)
    ensures s.phase == Published(2) && s.cursor == 0 && Exact(s) && "a" in s.shown && s.shown["a"].receivedAt == LATE
    ensures t.phase == Published(1) && s.batches <= t.batches && |t.batches| == 3
    ensures "a" in t.shown && t.shown["a"].receivedAt == EARLY
  {
    hide Merge, LinesSize, LinesOf, Between, Last, Bare, Fielded;
    LinesAre(sent.batches, Bare("a"), Bare("a"));
    LinesAre(grown.batches, Bare("a"), Bare("a"));
    LastAre(Bare("a"), Bare("a"));
    BareId("a");
    var last := Last([Line(Bare("a"), EARLY), Line(Bare("a"), LATE)]);
    assert map[] + last == last;
  }

  // ---------------------------------------------------------------- A piece is skipped

  /** A read of one batch takes the next one whenever one waits. */
  lemma OneAtATime(s: Source, limits: Limits)
    requires Sound(s) && limits.budget.batches == 1 && From(s) < |s.batches|
    ensures Reach(s, limits) == From(s) + 1
  {
    hide Sound, Takes, PerPiece, PiecesOf, CostOf;
    ReachBounds(s, limits);
    ReachesIff(s, From(s) + 1, limits);
    if From(s) + 2 <= |s.batches| {
      ReachesIff(s, From(s) + 2, limits);
    }
  }

  lemma SyncsOne(s: Source, limits: Limits)
    requires Reachable(s, limits) && s.phase.Idle? && limits.budget.batches == 1 && From(s) < |s.batches|
    ensures Reachable(PublishedAt(s, From(s) + 1), limits)
  {
    hide Reachable, Merge, Reach, Last, LinesOf, Between;
    ReachableIsSound(s, limits);
    OneAtATime(s, limits);
    Syncs(s, limits);
  }

  /** Two pieces are sent and synced, a batch at a time; the table is lost; its replay
      takes only the first, and crashes before its cursor is stored. Nothing waits, and the
      second piece is not in the table. */
  lemma APieceIsSkipped()
    ensures exists s: Source, limits: Limits ::
              && Reachable(s, limits) && SkipsBatches(s, Crash) && Enabled(s, Crash, limits)
              && s.table.Some? && s.cursor == |s.batches|
              && "b" in Settled(s.batches, s.cursor) && "b" !in Apply(s, Crash, limits).shown
  {
    hide Reachable, Merge, BatchOf, LinesOf, Between, Last, Needs, Bare, Settled;
    var one, two := Needs(FRESH, Bare("a"), EARLY, map[]), Needs(AfterOne("a"), Bare("b"), LATE, map[]);
    var limits := Limits(1, Caps(one.rows + two.rows, one.bytes + two.bytes), ReadBudget(1, 1, 1));
    TwoSends("a", "b", limits);
    var sent := AfterTwo("a", "b");
    var first := PublishedAt(sent, 1);
    SyncsOne(sent, limits);
    Stores(first, limits);
    var second := PublishedAt(CursorStored(first), 2);
    SyncsOne(CursorStored(first), limits);
    Stores(second, limits);
    var lost := Lost(CursorStored(second));
    Loses(CursorStored(second), limits);
    var s := PublishedAt(lost, 1);
    SyncsOne(lost, limits);
    Skipped(sent, lost, s, limits);
  }

  lemma Skipped(sent: Source, lost: Source, s: Source, limits: Limits)
    requires sent == AfterTwo("a", "b") && s == PublishedAt(lost, 1)
    requires lost.batches == sent.batches && lost.table.None? && lost.cursor == 2 && lost.shown == map[]
    ensures SkipsBatches(s, Crash) && s.table.Some? && s.cursor == |s.batches| && Enabled(s, Crash, limits)
    ensures "b" in Settled(s.batches, s.cursor) && "b" !in Apply(s, Crash, limits).shown
  {
    hide Merge, LinesSize, LinesOf, Between, Last, Bare;
    LinesAre(sent.batches, Bare("a"), Bare("b"));
    LastAre(Bare("a"), Bare("b"));
    BareId("a");
    BareId("b");
  }

  // ---------------------------------------------------------------- A cap is passed

  /** A piece is sent and synced to a source whose table may hold one row; the table is
      lost, and so counts for nothing; a second piece is accepted; and the replay reads rows
      for both, which no sync can publish. */
  lemma ALostTablePassesACap()
    ensures exists s: Source, limits: Limits ::
              && Reachable(s, limits) && s.table.None? && s.cursor == 1 && |s.batches| == 2 && s.phase == Reading(2, map[])
              && |Apply(s, Publish, limits).table.value| == limits.caps.maxRows + 1
  {
    hide Reachable, Merge, BatchOf, LinesOf, Between, Last, Needs, Bare, Reach, Stored, Lost, CursorStored;
    var lost := Lost(CursorStored(PublishedAt(AfterOne("a"), 1)));
    var one, two := Needs(FRESH, Bare("a"), EARLY, map[]), Needs(lost, Bare("b"), LATE, map[]);
    var s := Stored(lost, Bare("b"), LATE, map[]);
    var all := PiecesOf(s.batches) + CostOf(s.batches, 0);
    var limits := Limits(1, Caps(1, one.bytes + two.bytes), ReadBudget(2, all, all));
    RowsNeeded(lost);
    BothRows(lost, s);
    ToTheLoss(lost, limits);
    AfterTheLoss(lost, s, limits);
    var reading := ReadTo(s, 2);
    assert reading.phase == Reading(2, map[]) && Apply(reading, Publish, limits) == PublishedAt(s, 2);
  }

  lemma ToTheLoss(lost: Source, limits: Limits)
    requires lost == Lost(CursorStored(PublishedAt(AfterOne("a"), 1)))
    requires limits.maxFields == 1
    requires var c := Needs(FRESH, Bare("a"), EARLY, map[]); c.rows <= limits.caps.maxRows && c.bytes <= limits.caps.maxBytes
    ensures Reachable(lost, limits)
  {
    hide Reachable, Merge, BatchOf, LinesOf, Between, Last, Needs, Bare, Reach, Scanned, Accepts, After;
    var first := AfterOne("a");
    BareSends("a");
    ReachableStarts(limits);
    Sends(FRESH, Bare("a"), EARLY, map[], limits);
    assert Stored(FRESH, Bare("a"), EARLY, map[]) == first;
    ReachesAll(first, limits);
    Syncs(first, limits);
    Stores(PublishedAt(first, 1), limits);
    Loses(CursorStored(PublishedAt(first, 1)), limits);
  }

  lemma AfterTheLoss(lost: Source, s: Source, limits: Limits)
    requires Reachable(lost, limits) && lost.table.None? && lost.phase.Idle? && lost.schema == map[] && |lost.batches| == 1
    requires s == Stored(lost, Bare("b"), LATE, map[]) && limits.maxFields == 1
    requires var c := Needs(lost, Bare("b"), LATE, map[]); c.rows <= limits.caps.maxRows && c.bytes <= limits.caps.maxBytes
    requires limits.budget == ReadBudget(2, limits.budget.pieces, limits.budget.bytes)
             && PiecesOf(s.batches) <= limits.budget.pieces && CostOf(s.batches, 0) <= limits.budget.bytes
    ensures Reachable(ReadTo(s, 2), limits)
  {
    hide Reachable, Merge, BatchOf, LinesOf, Between, Last, Needs, Bare, Reach, Scanned, Accepts, After;
    BareSends("b");
    Sends(lost, Bare("b"), LATE, map[], limits);
    ReachesAll(s, limits);
    FullReads(s, limits);
  }

  lemma BothRows(lost: Source, s: Source)
    requires lost == Lost(CursorStored(PublishedAt(AfterOne("a"), 1))) && s == Stored(lost, Bare("b"), LATE, map[])
    ensures lost.table.None? && lost.phase.Idle? && lost.schema == map[] && |lost.batches| == 1
    ensures s.phase.Idle? && s.table.None? && s.cursor == 1 && |s.batches| == 2 && s.schema == map[]
    ensures var t := PublishedAt(s, 2);
            t.phase == Published(2) && t.batches == s.batches && t.table.Some? && |t.table.value| == 2
  {
    hide Merge, LinesOf, Between, Last, BatchOf;
    assert s.batches == AfterTwo("a", "b").batches;
    TwoRows(s);
  }

  lemma RowsNeeded(lost: Source)
    requires lost == Lost(CursorStored(PublishedAt(AfterOne("a"), 1)))
    ensures Needs(FRESH, Bare("a"), EARLY, map[]).rows == 1 && Needs(lost, Bare("b"), LATE, map[]).rows == 1
  {
    hide Merge, LinesSize, TableBytes, Last;
    NoBatches();
    assert Between(lost.batches, 1, 1) == [];
  }

  lemma ReachesAll(s: Source, limits: Limits)
    requires Reachable(s, limits) && From(s) == 0 && s.schema == map[] && 1 <= |s.batches| <= 2
    requires |s.batches| == 2 ==> limits.budget == ReadBudget(2, limits.budget.pieces, limits.budget.bytes)
                                  && PiecesOf(s.batches) <= limits.budget.pieces && CostOf(s.batches, 0) <= limits.budget.bytes
    ensures Reach(s, limits) == |s.batches|
  {
    hide Reachable, PerPiece, Takes, PiecesOf, CostOf, Sound;
    ReachableIsSound(s, limits);
    FieldsCost();
    ReachBounds(s, limits);
    ReachesIff(s, |s.batches|, limits);
    assert Between(s.batches, 0, |s.batches|) == s.batches;
  }

  lemma TwoRows(s: Source)
    requires s.table.None? && s.batches == AfterTwo("a", "b").batches
    ensures |PublishedAt(s, 2).table.value| == 2
  {
    hide Merge, LinesSize, LinesOf, Between, Last, Bare, Upserted;
    LinesAre(s.batches, Bare("a"), Bare("b"));
    LastAre(Bare("a"), Bare("b"));
    BareId("a");
    BareId("b");
    var lines := [Line(Bare("a"), EARLY), Line(Bare("b"), LATE)];
    MergedKeys(lines, s.schema);
    var keys := PublishedAt(s, 2).table.value.Keys;
    assert keys == {"a", "b"};
  }

  lemma MergedKeys(lines: seq<Line>, schema: Schema)
    ensures Merge(map[], lines, schema).Keys == Last(lines).Keys
  {
    hide Upserted, Last;
    UpsertedKeys(Padded(map[], schema), lines, schema);
    assert Padded(map[], schema) == map[];
  }
}
