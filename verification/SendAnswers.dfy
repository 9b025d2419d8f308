/** What the send protocol answers: which steps give which answers, that a retry is given
    its own batch, and that no call is stuck. */
module SendAnswers {
  import opened Options
  import opened Pieces
  import opened Sends
  import opened SendStore
  import opened SendMemory
  import opened SendRuns
  import opened Sums
  import Capacities
  import Runs

  // ---------------------------------------------------------------- The same send

  /** What a send says of each piece: its id, its time and its data. */
  function Said(pieces: seq<SentPiece>): (said: seq<(string, Option<string>, string)>)
    ensures |said| == |pieces|
  {
    seq(|pieces|, i requires 0 <= i < |pieces| => (pieces[i].id, pieces[i].occurredAt, pieces[i].data))
  }

  lemma SameIsSaid(stored: seq<SentPiece>, sent: seq<SentPiece>)
    ensures SameSend(stored, sent) <==> Said(stored) == Said(sent)
  {
    if SameSend(stored, sent) {
      forall i | 0 <= i < |sent|
        ensures Said(stored)[i] == Said(sent)[i]
      {
        assert SamePiece(stored[i], sent[i]);
      }
    }
    if Said(stored) == Said(sent) {
      forall i | 0 <= i < |sent|
        ensures SamePiece(stored[i], sent[i])
      {
        assert Said(stored)[i] == Said(sent)[i];
      }
    }
  }

  /** The same pieces encode to the same size, so a batch of another size is not read. */
  lemma {:induction false} SameSize(stored: seq<SentPiece>, sent: seq<SentPiece>, at: string)
    requires SameSend(stored, sent)
    ensures Capacities.LinesSize(Runs.Arrived(stored, at)) == Capacities.LinesSize(Runs.Arrived(sent, at))
  {
    hide Capacities.LineSize;
    if sent != [] {
      var n := |sent| - 1;
      assert forall i :: 0 <= i < n ==> SamePiece(stored[i], sent[i]);
      SameSize(stored[..n], sent[..n], at);
      assert Runs.Arrived(stored, at)[..n] == Runs.Arrived(stored[..n], at);
      assert Runs.Arrived(sent, at)[..n] == Runs.Arrived(sent[..n], at);
      assert SamePiece(stored[n], sent[n]);
      SameLine(stored[n], sent[n], at);
    }
  }

  lemma SameLine(a: SentPiece, b: SentPiece, at: string)
    requires SamePiece(a, b)
    ensures Capacities.LineSize(Capacities.Rows.Line(a, at)) == Capacities.LineSize(Capacities.Rows.Line(b, at))
  {
  }

  // ---------------------------------------------------------------- Answers

  /** A replay answers by the row it was sent to, whose pieces its object holds: as that
      batch when it said the same, and as an error when it did not. */
  lemma ReplayAnswers(states: seq<System>, actions: seq<Action>, config: Config, n: nat, c: nat)
    requires IsRun(states, actions, config) && n < |actions| && actions[n] == Replay(c)
    ensures c in states[n].calls && states[n].calls[c].pc.Replaying? && c in states[n + 1].calls
    ensures var call, rows := states[n].calls[c], states[n].storage.rows;
            var key := call.pc.key;
            && key in rows && call.token.Some? && rows[key].source == call.source && rows[key].token == call.token
            && states[n + 1].calls[c].pc
               == Done(if Said(rows[key].pieces) == Said(call.pieces) then Replayed(key) else Failed)
            && states[n + 1].storage == states[n].storage
  {
    hide SameSend, OneOwner, OnePerToken, Left, GivenUp, Said;
    RunKeeps(states, actions, config, n);
    assert Moves(states[n], actions[n], states[n + 1], config);
    var call, rows := states[n].calls[c], states[n].storage.rows;
    assert CallKept(states[n].storage, call);
    SameIsSaid(rows[call.pc.key].pieces, call.pieces);
  }

  /** Whoever looks a stored token up, first or after a conflict, is sent to its batch. */
  lemma LooksUpItsBatch(states: seq<System>, actions: seq<Action>, config: Config, n: nat, d: nat, key: nat)
    requires IsRun(states, actions, config) && n < |actions| && d in states[n].calls && key in states[n].storage.rows
    requires Carries(states[n].storage.rows[key], states[n].calls[d].source, states[n].calls[d].token)
    requires actions[n] == LookUp(d) || actions[n] == LookWinner(d)
    ensures d in states[n + 1].calls && states[n + 1].calls[d].pc == Replaying(key)
  {
    hide SameSend, OneOwner, RowsBacked, CallKept;
    RunKeeps(states, actions, config, n);
    assert Moves(states[n], actions[n], states[n + 1], config);
  }

  /** Once a call of a token is answered with success, every later one that looks the token
      up is sent to that batch. */
  lemma RetryLooksUp(states: seq<System>, actions: seq<Action>, config: Config, m: nat, n: nat, c: nat, d: nat)
    requires IsRun(states, actions, config) && m <= n < |actions| && c in states[m].calls && d in states[n].calls
    requires states[m].calls[c].pc.Done? && !states[m].calls[c].pc.answer.Failed? && states[m].calls[c].token.Some?
    requires states[n].calls[d].source == states[m].calls[c].source && states[n].calls[d].token == states[m].calls[c].token
    requires actions[n] == LookUp(d) || actions[n] == LookWinner(d)
    ensures d in states[n + 1].calls && states[n + 1].calls[d].pc == Replaying(states[m].calls[c].pc.answer.key)
  {
    hide SameSend, Enabled, Apply;
    TokenIsTaken(states, actions, config, m, n, c);
    LooksUpItsBatch(states, actions, config, n, d, states[m].calls[c].pc.answer.key);
  }

  /** Its row is then the one of its source and token, in every later state. */
  lemma TokenIsTaken(states: seq<System>, actions: seq<Action>, config: Config, m: nat, n: nat, c: nat)
    requires IsRun(states, actions, config) && m <= n < |states| && c in states[m].calls
    requires states[m].calls[c].pc.Done? && !states[m].calls[c].pc.answer.Failed? && states[m].calls[c].token.Some?
    ensures var call, rows := states[m].calls[c], states[n].storage.rows;
            var key := call.pc.answer.key;
            && key in rows && Carries(rows[key], call.source, call.token) && SameSend(rows[key].pieces, call.pieces)
            && (forall k :: k in rows && Carries(rows[k], call.source, call.token) ==> k == key)
  {
    hide SameSend, OneOwner, RowsBacked, CallKept, Enabled, Apply, CallsKept;
    ExactlyOnce(states, actions, config, m, c);
    StoredForever(states, actions, config, m, n, states[m].calls[c].pc.answer.key);
    RunKeeps(states, actions, config, n);
  }

  /** So a retry is answered by that batch exactly when it says the same, whatever came
      between, and a send of the token that says anything else is refused. */
  lemma RetryAnswers(states: seq<System>, actions: seq<Action>, config: Config, m: nat, n: nat, c: nat, d: nat)
    requires IsRun(states, actions, config) && m <= n < |actions| && c in states[m].calls && d in states[n].calls
    requires states[m].calls[c].pc.Done? && !states[m].calls[c].pc.answer.Failed? && states[m].calls[c].token.Some?
    requires states[n].calls[d].source == states[m].calls[c].source && states[n].calls[d].token == states[m].calls[c].token
    requires actions[n] == Replay(d)
    ensures d in states[n + 1].calls
    ensures var first, retry := states[m].calls[c], states[n].calls[d];
            states[n + 1].calls[d].pc
            == Done(if Said(first.pieces) == Said(retry.pieces) then Replayed(first.pc.answer.key) else Failed)
  {
    hide SameSend, Said, Enabled, Apply;
    TokenIsTaken(states, actions, config, m, n, c);
    ReplayAnswers(states, actions, config, n, d);
    var first := states[m].calls[c];
    SameIsSaid(states[n].storage.rows[first.pc.answer.key].pieces, first.pieces);
  }

  /** A row of the batch's source and token is stored. */
  ghost predicate HasToken(rows: map<nat, Batch>, b: Batch) {
    exists k :: k in rows && rows[k].source == b.source && rows[k].token == b.token
  }

  /** How a commit ends. One of unknown outcome fails, and its row is left to land; one whose
      source has a row of its token goes to drop its object and answer as that row; a
      refusal goes to drop its object; and otherwise the row is stored and named. */
  lemma CommitAnswers(s: System, c: nat, outcome: Outcome, config: Config)
    requires Enabled(s, Commit(c, outcome), config)
    ensures var t, call, rows := Apply(s, Commit(c, outcome), config), s.calls[c], s.storage.rows;
            var row := Batch(call.source, call.token, call.pieces);
            && c in t.calls
            && if outcome.Unknown? then
                 t.calls[c].pc == Done(Failed) && t.storage == s.storage.(limbo := s.storage.limbo[call.key := row])
               else if call.token.Some? && HasToken(rows, row) then
                 t.calls[c].pc == Dropping(true) && t.storage == s.storage
               else if outcome.Refuses? then t.calls[c].pc == Dropping(false) && t.storage == s.storage
               else t.calls[c].pc == Done(Stored(call.key)) && t.storage == s.storage.(rows := rows[call.key := row])
  {
    hide Left, GivenUp, Freed;
    var call, rows := s.calls[c], s.storage.rows;
    assert Taken(rows, call.source, call.token)
      <==> call.token.Some? && exists k :: k in rows && rows[k].source == call.source && rows[k].token == call.token by {
      assert forall k :: k in rows ==>
          (Carries(rows[k], call.source, call.token)
           <==> call.token.Some? && rows[k].source == call.source && rows[k].token == call.token);
    }
  }

  /** A commit of unknown outcome lands unless its token was taken meanwhile: after it, a row
      of its source and token is stored either way, and it is this one if none was. */
  lemma LandAnswers(s: System, key: nat, config: Config)
    requires Enabled(s, Land(key), config)
    ensures var t, row := Apply(s, Land(key), config), s.storage.limbo[key];
            && t.calls == s.calls && t.storage.objects == s.storage.objects
            && (row.token.Some? ==> HasToken(t.storage.rows, row))
            && t.storage.rows == if row.token.Some? && HasToken(s.storage.rows, row) then s.storage.rows else s.storage.rows[key := row]
  {
    var row, rows := s.storage.limbo[key], s.storage.rows;
    var t := Apply(s, Land(key), config);
    if row.token.Some? && HasToken(rows, row) {
      var k :| k in rows && rows[k].source == row.source && rows[k].token == row.token;
      assert Carries(rows[k], row.source, row.token);
      assert k in t.storage.rows;
    } else {
      assert key in t.storage.rows && t.storage.rows[key] == row;
    }
  }

  /** A send that did not commit drops its object, if the store lets it, and looks up the batch
      it lost to, or fails. */
  lemma DropAnswers(s: System, c: nat, deleted: bool, config: Config)
    requires Enabled(s, Drop(c, deleted), config)
    ensures var t, call := Apply(s, Drop(c, deleted), config), s.calls[c];
            && c in t.calls && t.calls[c].pc == (if call.pc == Dropping(true) then Looking else Done(Failed))
            && t.storage == (if deleted then s.storage.(objects := s.storage.objects - {call.key}) else s.storage)
            && (t.calls[c].pc.Looking? ==> t.calls[c] == call.(pc := Looking))
  {
    hide Left, GivenUp;
  }

  /** A crash answers no call with success and takes nothing from the store; each transaction it
      cut off may still land, and nothing else new may. */
  lemma CrashLeaves(s: System, config: Config)
    requires StoreInv(s)
    ensures var t := Apply(s, Crash, config);
            && t.calls.Keys == s.calls.Keys
            && (forall c :: c in s.calls ==> t.calls[c].pc == if s.calls[c].pc.Done? then s.calls[c].pc else Done(Failed))
            && t.storage == s.storage.(limbo := t.storage.limbo)
            && (forall c :: c in s.calls && s.calls[c].pc.Committing? ==>
                  && s.calls[c].key in t.storage.limbo
                  && t.storage.limbo[s.calls[c].key] == Batch(s.calls[c].source, s.calls[c].token, s.calls[c].pieces))
            && (forall key :: key in s.storage.limbo ==> key in t.storage.limbo && t.storage.limbo[key] == s.storage.limbo[key])
            && (forall key :: key in t.storage.limbo ==>
                  key in s.storage.limbo || exists c :: c in s.calls && s.calls[c].pc.Committing? && s.calls[c].key == key)
  {
    hide RowsBacked, OnePerToken, CallsKept, AttemptOf, OneOwner;
    OwnKeys(s);
    forall c | c in s.calls && s.calls[c].pc.Committing?
      ensures s.calls[c].key in AttemptKeys(s.calls)
      ensures AttemptOf(s.calls, s.calls[c].key) == Batch(s.calls[c].source, s.calls[c].token, s.calls[c].pieces)
    {
      assert s.calls[c].key in AttemptKeys(s.calls);
      AttemptIs(s, c);
    }
  }

  lemma AttemptIs(s: System, c: nat)
    requires OneOwner(s.calls) && c in s.calls && s.calls[c].pc.Committing? && s.calls[c].key in AttemptKeys(s.calls)
    ensures AttemptOf(s.calls, s.calls[c].key) == Batch(s.calls[c].source, s.calls[c].token, s.calls[c].pieces)
  {
    hide AttemptKeys;
    var d :| d in s.calls && s.calls[d].pc.Committing? && s.calls[d].key == s.calls[c].key
             && AttemptOf(s.calls, s.calls[c].key) == Batch(s.calls[d].source, s.calls[d].token, s.calls[d].pieces);
  }

  // ---------------------------------------------------------------- No call is stuck

  /** A call that found its token taken looks up a row that is there. */
  lemma {:induction false} ConflictIsTaken(states: seq<System>, actions: seq<Action>, config: Config, n: nat, c: nat)
    requires IsRun(states, actions, config) && n < |states| && c in states[n].calls
    ensures states[n].calls[c].pc == Dropping(true) || states[n].calls[c].pc.Looking? ==>
              Taken(states[n].storage.rows, states[n].calls[c].source, states[n].calls[c].token)
    decreases n
  {
    hide StoreInv, MemoryInv, Enabled, Apply, Taken;
    if n > 0 {
      assert Moves(states[n - 1], actions[n - 1], states[n], config);
      RunKeeps(states, actions, config, n - 1);
      var s, t := states[n - 1], states[n];
      if c in s.calls {
        ConflictIsTaken(states, actions, config, n - 1, c);
      }
      ConflictStep(s, actions[n - 1], config, c);
    }
  }

  ghost predicate ConflictTaken(s: System, c: nat) {
    c in s.calls && (s.calls[c].pc == Dropping(true) || s.calls[c].pc.Looking?) ==>
      Taken(s.storage.rows, s.calls[c].source, s.calls[c].token)
  }

  lemma ConflictStep(s: System, a: Action, config: Config, c: nat)
    requires StoreInv(s) && Enabled(s, a, config) && ConflictTaken(s, c)
    ensures ConflictTaken(Apply(s, a, config), c)
  {
    hide StoreInv, ConflictTaken, Taken, Enabled, Apply;
    if c in s.calls && Taken(s.storage.rows, s.calls[c].source, s.calls[c].token) {
      TakenStays(s, a, config, s.calls[c].source, s.calls[c].token);
    }
    if a.Commit? {
      ConflictCommits(s, a.c, a.outcome, config, c);
    } else {
      ConflictMoves(s, a, config, c);
    }
  }

  lemma ConflictCommits(s: System, d: nat, outcome: Outcome, config: Config, c: nat)
    requires Enabled(s, Commit(d, outcome), config) && ConflictTaken(s, c)
    requires var t := Apply(s, Commit(d, outcome), config);
             c in s.calls && Taken(s.storage.rows, s.calls[c].source, s.calls[c].token) ==>
               Taken(t.storage.rows, s.calls[c].source, s.calls[c].token)
    ensures ConflictTaken(Apply(s, Commit(d, outcome), config), c)
  {
    hide Left, GivenUp, Freed, Taken;
  }

  lemma ConflictMoves(s: System, a: Action, config: Config, c: nat)
    requires Enabled(s, a, config) && !a.Commit? && ConflictTaken(s, c)
    requires c in s.calls && Taken(s.storage.rows, s.calls[c].source, s.calls[c].token) ==>
               Taken(Apply(s, a, config).storage.rows, s.calls[c].source, s.calls[c].token)
    ensures ConflictTaken(Apply(s, a, config), c)
  {
    hide Left, GivenUp, Unlocked, EnterSource, Attempts, SameSend, Taken, Winner, Landed;
  }

  lemma TakenStays(s: System, a: Action, config: Config, source: string, token: Option<string>)
    requires StoreInv(s) && Enabled(s, a, config) && Taken(s.storage.rows, source, token)
    ensures Taken(Apply(s, a, config).storage.rows, source, token)
  {
    hide StoreInv, Enabled, Apply, Carries;
    var key :| key in s.storage.rows && Carries(s.storage.rows[key], source, token);
    RowsStay(s, a, config, key);
  }

  /** The steps that take a call on when nothing fails. */
  predicate Proceeds(a: Action) {
    && !(a.Arrive? || a.Fail? || a.GiveUp? || a.Land? || a.Crash?)
    && (a.Put? ==> !a.fails) && (a.Commit? ==> a.outcome.Lands?)
  }

  ghost predicate CanProceed(s: System, config: Config) {
    exists a :: Proceeds(a) && Enabled(s, a, config)
  }

  /** A call that waits for no permit takes its next step. */
  lemma Unblocked(s: System, c: nat, config: Config)
    requires c in s.calls && !s.calls[c].pc.Done? && ConflictTaken(s, c)
    requires !s.calls[c].pc.Arrived? && !s.calls[c].pc.Queued? && !s.calls[c].pc.Locked?
    ensures CanProceed(s, config)
  {
    var a := match s.calls[c].pc
      case Checking => Enter(c, {})
      case Entered => LookUp(c)
      case Unseen => Admit(c)
      case Keyed => Put(c, false, true)
      case Committing => Commit(c, Lands)
      case Dropping(_) => Drop(c, true)
      case Looking => LookWinner(c)
      case _ => Replay(c);
    hide Taken;
    assert Proceeds(a) && Enabled(s, a, config);
  }

  lemma HolderOf(s: System, permit: Permit) returns (d: nat)
    requires Counted(s) && CountOf(s.memory, permit) > 0
    ensures d in s.calls && Holds(s.calls[d], permit)
  {
    hide Holds, CountOf;
    assert Holding(s.calls, permit) != {};
    d :| d in Holding(s.calls, permit);
  }

  lemma LockedProceeds(s: System, c: nat, config: Config)
    requires MemoryInv(s, config) && config.concurrency > 0 && c in s.calls && s.calls[c].pc.Locked?
    ensures CanProceed(s, config)
  {
    hide Counted, SourcesApart;
    if s.memory.slots < config.concurrency {
      assert Proceeds(TakeSlot(c)) && Enabled(s, TakeSlot(c), config);
    } else {
      var d := HolderOf(s, Slot);
      assert Proceeds(Commit(d, Lands)) && Enabled(s, Commit(d, Lands), config);
    }
  }

  /** While a call has no answer, some call can take its next step: the sends never wait on
      each other in a circle. */
  lemma SomeCallProceeds(states: seq<System>, actions: seq<Action>, config: Config, n: nat, c: nat)
    requires IsRun(states, actions, config) && n < |states| && config.maxInProgress > 0 && config.concurrency > 0
    requires c in states[n].calls && !states[n].calls[c].pc.Done?
    ensures CanProceed(states[n], config)
  {
    hide IsRun, StoreInv, Counted, SourcesApart, CanProceed;
    RunKeeps(states, actions, config, n);
    var s := states[n];
    forall d | d in s.calls
      ensures ConflictTaken(s, d) && CallPlaced(s.memory, s.calls[d])
    {
      ConflictIsTaken(states, actions, config, n, d);
    }
    if s.calls[c].pc.Arrived? {
      if s.memory.checking < config.maxInProgress {
        Proceeding(s, TakePlace(c), config);
      } else {
        var d := HolderOf(s, Place);
        Unblocked(s, d, config);
      }
    } else if s.calls[c].pc.Queued? {
      var id := s.calls[c].state.value;
      if id !in s.memory.locked {
        Proceeding(s, TakeLock(c), config);
      } else {
        var d := HolderOf(s, Lock(id));
        if s.calls[d].pc.Locked? {
          LockedProceeds(s, d, config);
        } else {
          Unblocked(s, d, config);
        }
      }
    } else if s.calls[c].pc.Locked? {
      LockedProceeds(s, c, config);
    } else {
      Unblocked(s, c, config);
    }
  }

  lemma Proceeding(s: System, a: Action, config: Config)
    requires Proceeds(a) && Enabled(s, a, config)
    ensures CanProceed(s, config)
  {
  }

  // ---------------------------------------------------------------- Every call can be answered

  /** How many steps a call has before it at most. */
  function StepsLeft(pc: Pc): nat {
    match pc
    case Arrived => 11
    case Checking => 10
    case Entered => 9
    case Unseen => 8
    case Keyed => 7
    case Queued => 6
    case Locked => 5
    case Committing => 4
    case Dropping(_) => 3
    case Looking => 2
    case Replaying(_) => 1
    case Done(_) => 0
  }

  function AllLeft(calls: map<nat, Call>): map<nat, nat> {
    map c | c in calls :: StepsLeft(calls[c].pc)
  }

  /** Each step of a call takes it on, and no other call anywhere. */
  lemma StepTakesOn(s: System, a: Action, config: Config)
    requires Enabled(s, a, config) && !a.Arrive? && !a.Land? && !a.Crash?
    ensures a.c in s.calls && a.c in Apply(s, a, config).calls
    ensures Apply(s, a, config).calls == s.calls[a.c := Apply(s, a, config).calls[a.c]]
    ensures StepsLeft(Apply(s, a, config).calls[a.c].pc) < StepsLeft(s.calls[a.c].pc)
  {
    hide Taken, Winner, Left, GivenUp, EnterSource, Unlocked, Freed, SameSend, Committed;
    if a.Commit? {
      CommitTakesOn(s, a.c, a.outcome);
    }
  }

  lemma CommitTakesOn(s: System, c: nat, outcome: Outcome)
    requires At(s, c, Committing)
    ensures c in Committed(s, c, outcome).calls
    ensures Committed(s, c, outcome).calls == s.calls[c := Committed(s, c, outcome).calls[c]]
    ensures StepsLeft(Committed(s, c, outcome).calls[c].pc) < StepsLeft(Committing)
  {
    hide Taken, Left, GivenUp, Freed;
  }

  lemma FewerLeft(s: System, a: Action, config: Config)
    requires Enabled(s, a, config) && !a.Arrive? && !a.Land? && !a.Crash?
    ensures Sum(AllLeft(Apply(s, a, config).calls)) < Sum(AllLeft(s.calls))
    ensures Apply(s, a, config).calls.Keys == s.calls.Keys
  {
    hide Enabled, Apply, StepsLeft;
    StepTakesOn(s, a, config);
    var after := Apply(s, a, config).calls[a.c];
    assert AllLeft(s.calls[a.c := after]) == AllLeft(s.calls)[a.c := StepsLeft(after.pc)];
    SumSet(AllLeft(s.calls), a.c, StepsLeft(after.pc));
  }

  /** From every state of every run the calls at hand can all be answered, with no more steps
      than they have left and without a failure or a crash. */
  lemma AllCanBeAnswered(states: seq<System>, actions: seq<Action>, config: Config)
    returns (later: seq<System>, more: seq<Action>)
    requires IsRun(states, actions, config) && config.maxInProgress > 0 && config.concurrency > 0
    ensures IsRun(states + later, actions + more, config) && (forall i :: 0 <= i < |more| ==> Proceeds(more[i]))
    ensures |more| <= Sum(AllLeft(states[|actions|].calls))
    ensures var end := (states + later)[|actions| + |more|];
            end.calls.Keys == states[|actions|].calls.Keys && forall c :: c in end.calls ==> end.calls[c].pc.Done?
    decreases Sum(AllLeft(states[|actions|].calls))
  {
    hide Enabled, Apply, Sum, AllLeft;
    var s := states[|actions|];
    if forall c :: c in s.calls ==> s.calls[c].pc.Done? {
      later, more := [], [];
      assert states + [] == states && actions + [] == actions;
    } else {
      var c :| c in s.calls && !s.calls[c].pc.Done?;
      SomeCallProceeds(states, actions, config, |actions|, c);
      var a :| Proceeds(a) && Enabled(s, a, config);
      var t := Apply(s, a, config);
      FewerLeft(s, a, config);
      RunStep(states, actions, config, a);
      var laterStill, moreStill := AllCanBeAnswered(states + [t], actions + [a], config);
      later, more := [t] + laterStill, [a] + moreStill;
      assert states + later == states + [t] + laterStill && actions + more == actions + [a] + moreStill;
    }
  }

  lemma RunStep(states: seq<System>, actions: seq<Action>, config: Config, a: Action)
    requires IsRun(states, actions, config) && Enabled(states[|actions|], a, config)
    ensures IsRun(states + [Apply(states[|actions|], a, config)], actions + [a], config)
  {
    hide Enabled, Apply;
    var all, acts := states + [Apply(states[|actions|], a, config)], actions + [a];
    forall i | 0 <= i < |acts|
      ensures Moves(all[i], acts[i], all[i + 1], config)
    {
      if i < |actions| {
        assert Moves(states[i], actions[i], states[i + 1], config);
      }
    }
  }

  // ---------------------------------------------------------------- A send and its retry

  /** The state a run has come to. */
  function End(states: seq<System>, actions: seq<Action>): System
    requires |states| == |actions| + 1
  {
    states[|actions|]
  }

  /** A run and one step more. */
  lemma RunOn(states: seq<System>, actions: seq<Action>, config: Config, a: Action)
    returns (all: seq<System>, acts: seq<Action>)
    requires IsRun(states, actions, config) && Enabled(End(states, actions), a, config)
    ensures IsRun(all, acts, config) && acts == actions + [a] && End(all, acts) == Apply(End(states, actions), a, config)
  {
    hide Enabled, Apply;
    RunStep(states, actions, config, a);
    all, acts := states + [Apply(states[|actions|], a, config)], actions + [a];
  }

  /** A send gets a place and enters its source's state. */
  lemma Enters(states: seq<System>, actions: seq<Action>, config: Config, c: nat, source: string, token: Option<string>,
               pieces: seq<SentPiece>)
    returns (all: seq<System>, acts: seq<Action>)
    requires IsRun(states, actions, config) && c !in End(states, actions).calls
    requires End(states, actions).memory.checking < config.maxInProgress
    ensures IsRun(all, acts, config) && acts == actions + [Arrive(c, source, token, pieces), TakePlace(c), Enter(c, {})]
    ensures var s, t := End(states, actions), End(all, acts);
            var id := if source in s.memory.sources then s.memory.sources[source] else s.memory.nextState;
            && t.calls == s.calls[c := Call(source, token, pieces, Entered, 0, Some(id), true)] && t.storage == s.storage
            && t.memory.locked == s.memory.locked && t.memory.slots == s.memory.slots
  {
    hide IsRun;
    all, acts := RunOn(states, actions, config, Arrive(c, source, token, pieces));
    all, acts := RunOn(all, acts, config, TakePlace(c));
    all, acts := RunOn(all, acts, config, Enter(c, {}));
  }

  /** While a place is free, a retry of a stored batch can be answered by it in five steps,
      with nothing stored. */
  lemma RetryCanBeAnswered(states: seq<System>, actions: seq<Action>, config: Config, key: nat, c: nat, pieces: seq<SentPiece>)
    returns (all: seq<System>, acts: seq<Action>)
    requires IsRun(states, actions, config) && c !in End(states, actions).calls && key in End(states, actions).storage.rows
    requires End(states, actions).memory.checking < config.maxInProgress
    requires End(states, actions).storage.rows[key].token.Some?
    requires Said(End(states, actions).storage.rows[key].pieces) == Said(pieces)
    ensures IsRun(all, acts, config)
    ensures var row := End(states, actions).storage.rows[key];
            acts == actions + [Arrive(c, row.source, row.token, pieces), TakePlace(c), Enter(c, {}), LookUp(c), Replay(c)]
    ensures var end := End(all, acts);
            c in end.calls && end.calls[c].pc == Done(Replayed(key)) && end.storage == End(states, actions).storage
  {
    hide StoreInv, MemoryInv, Said, SameSend, Moves, Apply, Enabled;
    var row := End(states, actions).storage.rows[key];
    SameIsSaid(row.pieces, pieces);
    all, acts := Enters(states, actions, config, c, row.source, row.token, pieces);
    RunKeeps(all, acts, config, |acts|);
    LooksUp(End(all, acts), LookUp(c), config, c, key);
    all, acts := RunOn(all, acts, config, LookUp(c));
    Replays(End(all, acts), config, c);
    all, acts := RunOn(all, acts, config, Replay(c));
  }

  /** Two sends of the same token and pieces at once: the one that commits second can be
      answered as the first, in four steps, whether or not its object is dropped. */
  lemma LoserCanBeAnswered(states: seq<System>, actions: seq<Action>, config: Config, c: nat, key: nat, outcome: Outcome, deleted: bool)
    returns (all: seq<System>, acts: seq<Action>)
    requires IsRun(states, actions, config) && At(End(states, actions), c, Committing) && !outcome.Unknown?
    requires key in End(states, actions).storage.rows
    requires var row, call := End(states, actions).storage.rows[key], End(states, actions).calls[c];
             Carries(row, call.source, call.token) && Said(row.pieces) == Said(call.pieces)
    ensures IsRun(all, acts, config) && acts == actions + [Commit(c, outcome), Drop(c, deleted), LookWinner(c), Replay(c)]
    ensures var end := End(all, acts);
            && c in end.calls && end.calls[c].pc == Done(Replayed(key))
            && end.storage.rows == End(states, actions).storage.rows
  {
    hide StoreInv, MemoryInv, Said, SameSend, Moves, Apply, Enabled;
    var s := End(states, actions);
    SameIsSaid(s.storage.rows[key].pieces, s.calls[c].pieces);
    Conflicts(s, config, c, key, outcome, deleted);
    all, acts := RunOn(states, actions, config, Commit(c, outcome));
    all, acts := RunOn(all, acts, config, Drop(c, deleted));
    RunKeeps(all, acts, config, |acts|);
    LooksUp(End(all, acts), LookWinner(c), config, c, key);
    all, acts := RunOn(all, acts, config, LookWinner(c));
    Replays(End(all, acts), config, c);
    all, acts := RunOn(all, acts, config, Replay(c));
  }

  lemma Conflicts(s: System, config: Config, c: nat, key: nat, outcome: Outcome, deleted: bool)
    requires At(s, c, Committing) && !outcome.Unknown? && key in s.storage.rows
    requires Carries(s.storage.rows[key], s.calls[c].source, s.calls[c].token)
    ensures Enabled(s, Commit(c, outcome), config)
    ensures var s1 := Apply(s, Commit(c, outcome), config);
            && Enabled(s1, Drop(c, deleted), config)
            && var s2 := Apply(s1, Drop(c, deleted), config);
            && s2.storage.rows == s.storage.rows && s2.calls == s.calls[c := s.calls[c].(pc := Looking)]
  {
    hide Left, GivenUp, Freed;
    assert Taken(s.storage.rows, s.calls[c].source, s.calls[c].token);
  }

  lemma LooksUp(s: System, a: Action, config: Config, c: nat, key: nat)
    requires StoreInv(s) && c in s.calls && key in s.storage.rows
    requires (a == LookUp(c) && s.calls[c].pc.Entered?) || (a == LookWinner(c) && s.calls[c].pc.Looking?)
    requires Carries(s.storage.rows[key], s.calls[c].source, s.calls[c].token)
    ensures Enabled(s, a, config) && Apply(s, a, config) == Moved(s, c, Replaying(key))
    ensures key in s.storage.objects && s.storage.objects[key] == s.storage.rows[key].pieces
  {
    hide CallsKept, OneOwner;
  }

  lemma Replays(s: System, config: Config, c: nat)
    requires c in s.calls && s.calls[c].pc.Replaying?
    ensures Enabled(s, Replay(c), config)
    ensures var t, call := Apply(s, Replay(c), config), s.calls[c];
            var key := call.pc.key;
            && c in t.calls && t.storage == s.storage
            && t.calls[c].pc == Done(if key in s.storage.objects && SameSend(s.storage.objects[key], call.pieces)
                                     then Replayed(key) else Failed)
  {
    hide SameSend, Left, GivenUp;
  }

  /** While a place, a slot and its source's lock are free, a send of a token no batch has can
      be stored in nine steps, and is answered by its own batch, which holds its pieces. */
  lemma SendCanBeStored(states: seq<System>, actions: seq<Action>, config: Config, c: nat, source: string, token: Option<string>,
                        pieces: seq<SentPiece>)
    returns (all: seq<System>, acts: seq<Action>)
    requires IsRun(states, actions, config) && c !in End(states, actions).calls
    requires var m := End(states, actions).memory;
             && m.checking < config.maxInProgress && m.slots < config.concurrency
             && (source in m.sources ==> m.sources[source] !in m.locked)
    requires !Taken(End(states, actions).storage.rows, source, token)
    ensures IsRun(all, acts, config)
    ensures acts == actions + [Arrive(c, source, token, pieces), TakePlace(c), Enter(c, {}), LookUp(c), Admit(c),
                               Put(c, false, true), TakeLock(c), TakeSlot(c), Commit(c, Lands)]
    ensures var s, end := End(states, actions), End(all, acts);
            var key := s.storage.nextKey;
            && c in end.calls && end.calls[c].pc == Done(Stored(key)) && key !in s.storage.rows
            && end.storage.rows == s.storage.rows[key := Batch(source, token, pieces)]
            && end.storage.objects == s.storage.objects[key := pieces]
  {
    hide StoreInv, Moves, Taken, Counted, SourcesApart, Apply, Enabled;
    var s := End(states, actions);
    RunKeeps(states, actions, config, |actions|);
    NewState(s);
    NextIsNew(s);
    all, acts := Enters(states, actions, config, c, source, token, pieces);
    Puts(End(all, acts), config, c);
    all, acts := RunOn(all, acts, config, LookUp(c));
    all, acts := RunOn(all, acts, config, Admit(c));
    all, acts := RunOn(all, acts, config, Put(c, false, true));
    Commits(End(all, acts), config, c);
    all, acts := RunOn(all, acts, config, TakeLock(c));
    all, acts := RunOn(all, acts, config, TakeSlot(c));
    all, acts := RunOn(all, acts, config, Commit(c, Lands));
  }

  /** A send whose token no batch has puts its object and queues. */
  lemma Puts(s: System, config: Config, c: nat)
    requires c in s.calls && s.calls[c].pc.Entered? && !Taken(s.storage.rows, s.calls[c].source, s.calls[c].token)
    ensures Enabled(s, LookUp(c), config)
    ensures var s1 := Apply(s, LookUp(c), config);
            && Enabled(s1, Admit(c), config)
            && var s2 := Apply(s1, Admit(c), config);
            && Enabled(s2, Put(c, false, true), config)
            && var s3, call, key := Apply(s2, Put(c, false, true), config), s.calls[c], s.storage.nextKey;
            && c in s3.calls && s3.calls[c] == call.(pc := Queued, key := key, checking := false)
            && s3.storage == s.storage.(objects := s.storage.objects[key := call.pieces], nextKey := key + 1)
            && s3.memory.locked == s.memory.locked && s3.memory.slots == s.memory.slots
  {
    hide Taken;
  }

  /** A queued send commits, while a slot and its lock are free. */
  lemma Commits(s: System, config: Config, c: nat)
    requires c in s.calls && s.calls[c].pc.Queued? && s.calls[c].state.Some?
    requires s.calls[c].state.value !in s.memory.locked && s.memory.slots < config.concurrency
    requires !Taken(s.storage.rows, s.calls[c].source, s.calls[c].token)
    ensures Enabled(s, TakeLock(c), config)
    ensures var s1 := Apply(s, TakeLock(c), config);
            && Enabled(s1, TakeSlot(c), config)
            && var s2 := Apply(s1, TakeSlot(c), config);
            && Enabled(s2, Commit(c, Lands), config)
            && var s3, call := Apply(s2, Commit(c, Lands), config), s.calls[c];
            && c in s3.calls && s3.calls[c].pc == Done(Stored(call.key))
            && s3.storage == s.storage.(rows := s.storage.rows[call.key := Batch(call.source, call.token, call.pieces)])
  {
    hide Taken, Left, GivenUp, Freed;
  }

  lemma NextIsNew(s: System)
    requires StoreInv(s)
    ensures s.storage.nextKey !in s.storage.rows
  {
    hide CallsKept, OneOwner, OnePerToken;
  }
}
