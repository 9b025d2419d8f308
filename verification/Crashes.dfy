/** When "the last piece of an id wins" over whole runs of a source: exactly what each
    publish must not do, and what keeps a sync from doing it. */
module Crashes {
  import opened Options
  import opened Capacities
  import opened Schemas
  import opened Rows
  import opened Tables
  import opened Reads
  import opened Runs

  // ---------------------------------------------------------------- The promise

  /** Each row shows the last line of its id among all the batches the table's publishes
      have merged, and there is no other row. */
  ghost predicate Exact(s: Source) {
    s.shown == Settled(s.batches, s.top)
  }

  /** Reading the batches from + 1 to upto and writing id's last line among them takes it
      back: a publish has shown a later one. */
  ghost predicate TakesBack(batches: seq<Batch>, from: nat, upto: nat, top: nat, id: string) {
    var read, later := Last(LinesOf(Between(batches, from, upto))), Last(LinesOf(Between(batches, upto, top)));
    id in read && id in later && read[id] != later[id]
  }

  /** Reading the batches from + 1 to upto passes over a line of id: its last is in the
      batches after those merged that are not read, and the table shows another or none. */
  ghost predicate PassesOver(batches: seq<Batch>, top: nat, from: nat, upto: nat, id: string) {
    var skipped, settled := Last(LinesOf(Between(batches, top, from))), Settled(batches, top);
    && id in skipped && id !in Last(LinesOf(Between(batches, from, upto)))
    && !(id in settled && settled[id] == skipped[id])
  }

  /** The publish takes no row back and passes over none. */
  ghost predicate Harmless(s: Source)
    requires s.phase.Reading?
  {
    forall id :: !TakesBack(s.batches, From(s), s.phase.upto, s.top, id)
                 && !PassesOver(s.batches, s.top, From(s), s.phase.upto, id)
  }

  /** Neither, or both with the same line. */
  ghost predicate SameOf(a: map<string, Line>, b: map<string, Line>, id: string) {
    (id in a <==> id in b) && (id in a && id in b ==> a[id] == b[id])
  }

  // ---------------------------------------------------------------- What one publish does

  /** The rows a publish leaves other than the last lines are exactly those it takes back
      and those it passes over: the first show their last line read, the second what the
      table showed before. */
  lemma PublishShows(s: Source, limits: Limits)
    requires Sound(s) && Exact(s) && s.phase.Reading?
    ensures var t, from, upto := Apply(s, Publish, limits), From(s), s.phase.upto;
            && (forall id :: !SameOf(t.shown, Settled(t.batches, t.top), id)
                  <==> TakesBack(s.batches, from, upto, s.top, id) || PassesOver(s.batches, s.top, from, upto, id))
            && (forall id :: TakesBack(s.batches, from, upto, s.top, id) ==>
                  id in t.shown && t.shown[id] == Last(LinesOf(Between(s.batches, from, upto)))[id])
            && forall id :: PassesOver(s.batches, s.top, from, upto, id) ==> SameOf(t.shown, s.shown, id)
  {
    hide Sound, Last, LinesOf, Between, Settled, Merge, TakesBack, PassesOver, SameOf;
    SoundParts(s);
    OverShows(s.batches, s.top, From(s), s.phase.upto);
  }

  lemma OverShows(batches: seq<Batch>, top: nat, from: nat, upto: nat)
    requires from <= upto <= |batches| && top <= |batches|
    ensures var shown := Over(Settled(batches, top), batches, from, upto);
            && (forall id :: !SameOf(shown, Settled(batches, Most(top, upto)), id)
                  <==> TakesBack(batches, from, upto, top, id) || PassesOver(batches, top, from, upto, id))
            && (forall id :: TakesBack(batches, from, upto, top, id) ==>
                  id in shown && shown[id] == Last(LinesOf(Between(batches, from, upto)))[id])
            && forall id :: PassesOver(batches, top, from, upto, id) ==> SameOf(shown, Settled(batches, top), id)
  {
    hide Last, LinesOf, Between, Settled, TakesBack, PassesOver, SameOf;
    if top < from {
      AfterAGap(batches, top, from, upto);
    } else if upto < top {
      ShortOfTop(batches, from, upto, top);
    } else {
      UpToTop(batches, from, top, upto);
      SameMaps(Settled(batches, upto), Settled(batches, upto));
    }
  }

  lemma SoundParts(s: Source)
    requires Sound(s)
    ensures s.top <= |s.batches| && s.cursor <= |s.batches|
    ensures s.phase.Reading? ==> From(s) <= s.phase.upto <= |s.batches|
    ensures s.phase.Published? ==> s.table.Some? && s.phase.upto <= s.top
    ensures s.table.None? ==> s.shown == map[] && s.top == 0
    ensures s.table.Some? ==> TableShows(s.table.value, s.shown, s.columns)
  {
  }

  /** What a publish shows of the rows there were and the lines it reads. */
  ghost function Over(shown: map<string, Line>, batches: seq<Batch>, from: nat, upto: nat): map<string, Line> {
    shown + Last(LinesOf(Between(batches, from, upto)))
  }

  lemma NoneBetween(batches: seq<Batch>, a: nat, b: nat)
    requires b <= a
    ensures Last(LinesOf(Between(batches, a, b))) == map[]
  {
    NoBatches();
  }

  lemma UpToTop(batches: seq<Batch>, from: nat, top: nat, upto: nat)
    requires from <= top <= upto <= |batches|
    ensures Over(Settled(batches, top), batches, from, upto) == Settled(batches, upto)
    ensures forall id :: !TakesBack(batches, from, upto, top, id) && !PassesOver(batches, top, from, upto, id)
  {
    hide Last, LinesOf, Between, Settled;
    SettledSplit(batches, from, top);
    SettledSplit(batches, from, upto);
    BetweenSplit(batches, from, top, upto);
    LastConcat(LinesOf(Between(batches, from, top)), LinesOf(Between(batches, top, upto)));
    NoneBetween(batches, upto, top);
    NoneBetween(batches, top, from);
  }

  lemma ShortOfTop(batches: seq<Batch>, from: nat, upto: nat, top: nat)
    requires from <= upto <= top <= |batches|
    ensures forall id :: !SameOf(Over(Settled(batches, top), batches, from, upto), Settled(batches, top), id)
              <==> TakesBack(batches, from, upto, top, id)
    ensures forall id :: !PassesOver(batches, top, from, upto, id)
    ensures forall id :: TakesBack(batches, from, upto, top, id) ==>
              && id in Over(Settled(batches, top), batches, from, upto)
              && Over(Settled(batches, top), batches, from, upto)[id] == Last(LinesOf(Between(batches, from, upto)))[id]
    ensures Over(Settled(batches, top), batches, from, upto).Keys == Settled(batches, top).Keys
  {
    hide Last, LinesOf, Between, Settled;
    SettledSplit(batches, from, upto);
    SettledSplit(batches, upto, top);
    NoneBetween(batches, top, from);
  }

  lemma AfterAGap(batches: seq<Batch>, top: nat, from: nat, upto: nat)
    requires top <= from <= upto <= |batches|
    ensures forall id :: !SameOf(Over(Settled(batches, top), batches, from, upto), Settled(batches, upto), id)
              <==> PassesOver(batches, top, from, upto, id)
    ensures forall id :: !TakesBack(batches, from, upto, top, id)
    ensures forall id :: PassesOver(batches, top, from, upto, id) ==>
              SameOf(Over(Settled(batches, top), batches, from, upto), Settled(batches, top), id)
  {
    hide Last, LinesOf, Between, Settled;
    SettledSplit(batches, top, from);
    SettledSplit(batches, from, upto);
    NoneBetween(batches, upto, top);
  }

  /** So a publish keeps the promise exactly when it is harmless. */
  lemma PublishExactIff(s: Source, limits: Limits)
    requires Sound(s) && Exact(s) && s.phase.Reading?
    ensures Exact(Apply(s, Publish, limits)) <==> Harmless(s)
  {
    hide Sound, Last, LinesOf, Between, Settled, Merge, TakesBack, PassesOver;
    PublishShows(s, limits);
    var t := Apply(s, Publish, limits);
    SameMaps(t.shown, Settled(t.batches, t.top));
  }

  lemma SameMaps(a: map<string, Line>, b: map<string, Line>)
    ensures a == b <==> forall id :: SameOf(a, b, id)
  {
    if forall id :: SameOf(a, b, id) {
      assert forall id :: id in a || id in b ==> SameOf(a, b, id);
      assert a.Keys == b.Keys;
    }
  }

  /** No other step touches it. */
  lemma OthersKeepExact(s: Source, a: Action, limits: Limits)
    requires Sound(s) && Exact(s) && Enabled(s, a, limits) && !a.Publish?
    ensures Exact(Apply(s, a, limits))
  {
    hide Sound, Last, LinesOf, Merge, Reach, Project, Held, Accepts, After, LinesSize, LockedSchema;
    SoundParts(s);
    if a.Send? {
      BetweenGrows(s.batches, Apply(s, a, limits).batches[|s.batches|], 0, s.top);
    } else if a.LoseTable? {
      NoneBetween(s.batches, 0, 0);
    }
  }

  // ---------------------------------------------------------------- Over whole runs

  ghost predicate HarmlessStep(s: Source, a: Action) {
    a.Publish? && s.phase.Reading? ==> Harmless(s)
  }

  lemma {:induction false} RunSound(states: seq<Source>, actions: seq<Action>, limits: Limits, n: nat)
    requires IsRun(states, actions, limits) && n < |states|
    ensures Sound(states[n])
  {
    hide Sound, Enabled, Apply;
    if n == 0 {
      FreshIsSound();
    } else {
      RunSound(states, actions, limits, n - 1);
      assert Moves(states[n - 1], actions[n - 1], states[n], limits);
      StepSound(states[n - 1], actions[n - 1], limits);
    }
  }

  lemma FreshIsSound()
    ensures Sound(FRESH) && Exact(FRESH)
  {
    assert Between([], 0, 0) == [];
  }

  /** Over any run, whatever is lost, crashes or retries: in every state up to now each
      row is the last piece of its id, under every column of the schema read, exactly when
      no publish so far took a row back or passed over one. */
  lemma {:induction false} TableIsTheLastLines(states: seq<Source>, actions: seq<Action>, limits: Limits, n: nat)
    requires IsRun(states, actions, limits) && n < |states|
    ensures (forall i :: 0 <= i <= n ==> Exact(states[i])) <==> forall i :: 0 <= i < n ==> HarmlessStep(states[i], actions[i])
    ensures var s := states[n];
            Exact(s) && s.table.Some? ==> TableShows(s.table.value, Settled(s.batches, s.top), s.columns)
  {
    hide Sound, Enabled, Apply, Exact, HarmlessStep;
    RunSound(states, actions, limits, n);
    if Exact(states[n]) && states[n].table.Some? {
      SoundShows(states[n]);
    }
    if n == 0 {
      FreshIsSound();
    } else {
      var s, a := states[n - 1], actions[n - 1];
      TableIsTheLastLines(states, actions, limits, n - 1);
      RunSound(states, actions, limits, n - 1);
      assert Moves(s, a, states[n], limits);
      if Exact(s) {
        StepExactIff(s, a, limits);
      }
    }
  }

  lemma SoundShows(s: Source)
    requires Sound(s) && Exact(s) && s.table.Some?
    ensures TableShows(s.table.value, Settled(s.batches, s.top), s.columns)
  {
    hide TableShows, Settled;
  }

  lemma StepExactIff(s: Source, a: Action, limits: Limits)
    requires Sound(s) && Exact(s) && Enabled(s, a, limits)
    ensures Exact(Apply(s, a, limits)) <==> HarmlessStep(s, a)
  {
    hide Sound, Exact, Harmless;
    if a.Publish? {
      PublishIsReading(s, limits);
      PublishExactIff(s, limits);
    } else {
      OthersKeepExact(s, a, limits);
    }
  }

  lemma PublishIsReading(s: Source, limits: Limits)
    requires Enabled(s, Publish, limits)
    ensures s.phase.Reading?
  {
  }

  // ---------------------------------------------------------------- How far a read reaches

  /** A read begun now takes the batches up to k exactly when that is one batch at most, or
      those above the table's rows up to k are in the budget under the schema of now. */
  lemma ReachesIff(s: Source, k: nat, limits: Limits)
    requires Sound(s) && From(s) <= k <= |s.batches|
    ensures Reach(s, limits) >= k
            <==> k - From(s) <= 1 || InBudget(limits.budget, PerPiece(s.schema), Between(s.batches, From(s), k))
  {
    hide Sound, Takes, PerPiece, InBudget;
    var waiting := Between(s.batches, From(s), |s.batches|);
    TakesIff(limits.budget, PerPiece(s.schema), waiting, k - From(s));
    assert waiting[..k - From(s)] == Between(s.batches, From(s), k);
  }

  /** So a retry reaches as far as the read it repeats while no field was added between. */
  lemma SameFieldsReachAsFar(s: Source, t: Source, limits: Limits)
    requires Sound(s) && Sound(t) && From(t) == From(s) && s.batches <= t.batches && t.schema.Keys == s.schema.Keys
    ensures Reach(t, limits) >= Reach(s, limits)
  {
    hide Sound, Takes;
    ReachBounds(s, limits);
    SamePerPiece(s.schema, t.schema);
    var before, after := Between(s.batches, From(s), |s.batches|), Between(t.batches, From(s), |t.batches|);
    assert after == before + t.batches[|s.batches|..];
    TakesNoFewer(limits.budget, PerPiece(s.schema), before, t.batches[|s.batches|..]);
  }

  lemma SamePerPiece(schema: Schema, later: Schema)
    requires later.Keys == schema.Keys
    ensures PerPiece(later) == PerPiece(schema)
  {
    assert |later| == |later.Keys| && |schema| == |schema.Keys|;
  }

  /** The read about to begin reaches both the newest batch a publish has merged and the
      stored cursor. */
  ghost predicate ReachesBack(s: Source, limits: Limits) {
    var k := Most(s.top, s.cursor);
    k - From(s) <= 1 || InBudget(limits.budget, PerPiece(s.schema), Between(s.batches, From(s), k))
  }

  ghost predicate GuardedStep(s: Source, a: Action, limits: Limits) {
    a.BeginChanges? || a.BeginFull? ==> ReachesBack(s, limits)
  }

  ghost predicate Forward(s: Source) {
    && (s.table.Some? ==> s.cursor <= s.top)
    && (s.phase.Started? ==> Most(s.top, s.cursor) <= s.phase.through)
    && (s.phase.Reading? ==> Most(s.top, s.cursor) <= s.phase.upto)
    && (s.phase.Published? ==> s.cursor <= s.phase.upto == s.top)
  }

  lemma GuardedKeeps(s: Source, a: Action, limits: Limits)
    requires Sound(s) && Forward(s) && Enabled(s, a, limits) && GuardedStep(s, a, limits)
    ensures Forward(Apply(s, a, limits)) && HarmlessStep(s, a) && !SkipsBatches(s, a)
    ensures a.StoreCursor? ==> Apply(s, a, limits).cursor == Apply(s, a, limits).top
  {
    hide Sound, Reach, InBudget, PerPiece, Settled, Last, LinesOf, Between, Merge, Project, Held, Accepts, After, LinesSize;
    SoundParts(s);
    if a.BeginChanges? || a.BeginFull? {
      ReachesIff(s, Most(s.top, s.cursor), limits);
    } else if a.Publish? {
      UpToTop(s.batches, From(s), s.top, s.phase.upto);
    }
  }

  /** In a run whose every read reaches that far, no sync takes a row back or passes one
      over: every state's table is exactly the last piece of each id merged, and once a sync
      has stored its cursor, of each id up to the cursor. */
  lemma {:induction false} GuardedRunIsExact(states: seq<Source>, actions: seq<Action>, limits: Limits, n: nat)
    requires IsRun(states, actions, limits) && n < |states|
    requires forall i :: 0 <= i < |actions| ==> GuardedStep(states[i], actions[i], limits)
    ensures Exact(states[n]) && Forward(states[n])
    ensures n < |actions| ==> !SkipsBatches(states[n], actions[n])
    ensures n > 0 && actions[n - 1].StoreCursor? ==> states[n].cursor == states[n].top
    ensures var s := states[n];
            s.table.Some? ==> TableShows(s.table.value, Settled(s.batches, s.top), s.columns)
  {
    hide Sound, Enabled, Apply, Exact, HarmlessStep, SkipsBatches, GuardedStep;
    RunSound(states, actions, limits, n);
    if n == 0 {
      FreshIsSound();
    } else {
      var s, a := states[n - 1], actions[n - 1];
      GuardedRunIsExact(states, actions, limits, n - 1);
      RunSound(states, actions, limits, n - 1);
      assert Moves(s, a, states[n], limits);
      StepExactIff(s, a, limits);
      GuardedKeeps(s, a, limits);
    }
    if states[n].table.Some? {
      SoundShows(states[n]);
    }
    if n < |actions| {
      assert Moves(states[n], actions[n], states[n + 1], limits);
      GuardedKeeps(states[n], actions[n], limits);
    }
  }

  /** No publish has gone beyond the cursor, but one whose cursor is about to be stored. */
  ghost predicate Calm(s: Source) {
    && (s.table.None? ==> s.cursor == 0)
    && (if s.phase.Published? then s.phase.upto == s.top else s.top == s.cursor)
  }

  lemma CalmKeeps(s: Source, a: Action, limits: Limits)
    requires Sound(s) && Calm(s) && Enabled(s, a, limits) && !a.Crash? && !a.LoseTable?
    ensures Calm(Apply(s, a, limits)) && GuardedStep(s, a, limits)
  {
    hide Sound, Reach, InBudget, PerPiece, Last, LinesOf, Between, Merge, Project, Held, Accepts, After, LinesSize;
    SoundParts(s);
  }

  /** A run without a crash or a loss needs no check: every read reaches that far. */
  lemma {:induction false} CalmRunIsGuarded(states: seq<Source>, actions: seq<Action>, limits: Limits, n: nat)
    requires IsRun(states, actions, limits) && n < |states|
    requires forall i :: 0 <= i < |actions| ==> !actions[i].Crash? && !actions[i].LoseTable?
    ensures Calm(states[n])
    ensures n < |actions| ==> GuardedStep(states[n], actions[n], limits)
  {
    hide Sound, Enabled, Apply, GuardedStep;
    RunSound(states, actions, limits, n);
    if n > 0 {
      CalmRunIsGuarded(states, actions, limits, n - 1);
      RunSound(states, actions, limits, n - 1);
      assert Moves(states[n - 1], actions[n - 1], states[n], limits);
      CalmKeeps(states[n - 1], actions[n - 1], limits);
    }
    if n < |actions| {
      assert Moves(states[n], actions[n], states[n + 1], limits);
      CalmKeeps(states[n], actions[n], limits);
    }
  }

  // ---------------------------------------------------------------- What a retry can do

  /** The state once a change read begun now is published. */
  ghost function Retried(s: Source, limits: Limits): Source
    requires Enabled(s, BeginChanges, limits)
  {
    Apply(Apply(s, BeginChanges, limits), Publish, limits)
  }

  /** What a retry takes back of the rows shown: of each such id, and of no other, the row
      goes from its last line among the published to its last among those read. */
  ghost predicate GoesBack(shown: map<string, Line>, after: map<string, Line>, batches: seq<Batch>, from: nat, upto: nat,
                           top: nat) {
    && after.Keys == shown.Keys
    && (forall id :: id in shown ==> (after[id] != shown[id] <==> TakesBack(batches, from, upto, top, id)))
    && forall id :: TakesBack(batches, from, upto, top, id) ==>
         && id in shown && shown[id] == Last(LinesOf(Between(batches, upto, top)))[id]
         && after[id] == Last(LinesOf(Between(batches, from, upto)))[id]
  }

  /** After a crash between a publish and its cursor, and any sends since: the retry takes
      fewer batches exactly when the published ones are two at least and no longer in the
      budget. It then takes back exactly the rows of the ids with a line it reads and
      another later among the published, each to its last line read; no other row changes.
      A retry that takes as many leaves the last line of every id. */
  lemma ShorterRetryGoesBack(s: Source, limits: Limits)
    requires Sound(s) && Exact(s) && Enabled(s, BeginChanges, limits) && s.cursor <= s.top
    ensures var upto, t := Reach(s, limits), Retried(s, limits);
            && (upto < s.top
                <==> s.top - s.cursor >= 2 && !InBudget(limits.budget, PerPiece(s.schema), Between(s.batches, s.cursor, s.top)))
            && (upto >= s.top ==> t.shown == Settled(s.batches, upto))
            && (upto < s.top ==> GoesBack(s.shown, t.shown, s.batches, s.cursor, upto, s.top))
  {
    hide Sound, Last, LinesOf, Between, Settled, Merge, Reach, InBudget, PerPiece, GoesBack;
    SoundParts(s);
    ReachBounds(s, limits);
    ReachesIff(s, s.top, limits);
    var upto := Reach(s, limits);
    if upto < s.top {
      ShortGoesBack(s.batches, s.cursor, upto, s.top);
    } else {
      UpToTop(s.batches, s.cursor, s.top, upto);
    }
  }

  lemma ShortGoesBack(batches: seq<Batch>, from: nat, upto: nat, top: nat)
    requires from <= upto <= top <= |batches|
    ensures GoesBack(Settled(batches, top), Over(Settled(batches, top), batches, from, upto), batches, from, upto, top)
  {
    hide Last, LinesOf, Between, Settled;
    ShortOfTop(batches, from, upto, top);
    SettledSplit(batches, upto, top);
  }

  /** A lost table's replay falls short of the stored cursor exactly when the batches up to
      it are two at least and not in the budget. */
  lemma ReplayStopsShort(s: Source, limits: Limits)
    requires Sound(s) && s.table.None?
    ensures Reach(s, limits) < s.cursor
            <==> s.cursor >= 2 && !InBudget(limits.budget, PerPiece(s.schema), Between(s.batches, 0, s.cursor))
  {
    hide Sound, Reach, InBudget, PerPiece;
    SoundParts(s);
    ReachesIff(s, s.cursor, limits);
  }

  /** When such a replay crashes before it stores its own cursor, the stored one says more
      batches are merged than are. The rows other than their last lines up to it are exactly
      those of the ids with a line in between: missing where they have none before, and an
      earlier line where they do. */
  lemma SkippedAreMissing(s: Source, limits: Limits)
    requires Sound(s) && Exact(s) && SkipsBatches(s, Crash) && s.top == s.phase.upto
    ensures var t, merged := Apply(s, Crash, limits), s.phase.upto;
            && From(t) == s.cursor
            && (forall id :: id in Settled(s.batches, s.cursor) && id !in t.shown
                  <==> id in Last(LinesOf(Between(s.batches, merged, s.cursor))) && id !in Settled(s.batches, merged))
            && (forall id :: !SameOf(t.shown, Settled(s.batches, s.cursor), id)
                  <==> PassesOver(s.batches, merged, s.cursor, s.cursor, id))
            && forall id :: id in t.shown ==> t.shown[id] == Settled(s.batches, merged)[id]
  {
    hide Sound, Last, LinesOf, Between, Settled, Merge, PassesOver, SameOf;
    SoundParts(s);
    GapShows(s.batches, s.phase.upto, s.cursor);
  }

  lemma GapShows(batches: seq<Batch>, merged: nat, cursor: nat)
    requires merged <= cursor <= |batches|
    ensures forall id :: id in Settled(batches, cursor) && id !in Settled(batches, merged)
              <==> id in Last(LinesOf(Between(batches, merged, cursor))) && id !in Settled(batches, merged)
    ensures forall id :: !SameOf(Settled(batches, merged), Settled(batches, cursor), id)
              <==> PassesOver(batches, merged, cursor, cursor, id)
  {
    hide Last, LinesOf, Between, Settled, PassesOver, SameOf;
    AfterAGap(batches, merged, cursor, cursor);
    NoneBetween(batches, cursor, cursor);
    SettledSplit(batches, merged, cursor);
    assert Settled(batches, merged) + map[] == Settled(batches, merged);
  }
}
