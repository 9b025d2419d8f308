/** Whole runs of the send protocol: what its comments promise of retries, objects,
    locks and permits. */
module SendRuns {
  import opened Options
  import opened Pieces
  import opened Sends
  import opened SendStore
  import opened SendMemory

  /** The action takes the system from one state to the next. */
  ghost predicate Moves(s: System, a: Action, t: System, config: Config) {
    Enabled(s, a, config) && t == Apply(s, a, config)
  }

  /** The states a run of actions goes through, from an empty system. */
  ghost predicate IsRun(states: seq<System>, actions: seq<Action>, config: Config) {
    && |states| == |actions| + 1 && states[0] == EMPTY
    && forall i :: 0 <= i < |actions| ==> Moves(states[i], actions[i], states[i + 1], config)
  }

  lemma {:induction false} RunKeeps(states: seq<System>, actions: seq<Action>, config: Config, n: nat)
    requires IsRun(states, actions, config) && n < |states|
    ensures StoreInv(states[n]) && MemoryInv(states[n], config)
  {
    hide StoreInv, MemoryInv, Enabled, Apply;
    if n == 0 {
      EmptyKeeps(config);
    } else {
      RunKeeps(states, actions, config, n - 1);
      assert Moves(states[n - 1], actions[n - 1], states[n], config);
      StepKeepsStore(states[n - 1], actions[n - 1], config);
      StepKeepsMemory(states[n - 1], actions[n - 1], config);
    }
  }

  lemma EmptyKeeps(config: Config)
    ensures StoreInv(EMPTY) && MemoryInv(EMPTY, config)
  {
    NothingHeld(EMPTY);
  }

  /** However calls and retries interleave, fail and crash: a source stores at most
      one batch for a client token, and a call that answers success names that
      batch, which holds the pieces it sent. */
  lemma ExactlyOnce(states: seq<System>, actions: seq<Action>, config: Config, n: nat, c: nat)
    requires IsRun(states, actions, config) && n < |states| && c in states[n].calls
    requires states[n].calls[c].pc.Done? && !states[n].calls[c].pc.answer.Failed?
    ensures var rows, call := states[n].storage.rows, states[n].calls[c];
            var key := call.pc.answer.key;
            && key in rows && rows[key].source == call.source && rows[key].token == call.token
            && SameSend(rows[key].pieces, call.pieces)
            && forall k :: k in rows && Carries(rows[k], call.source, call.token) ==> k == key
  {
    hide RowsBacked, OneOwner, SamePiece;
    RunKeeps(states, actions, config, n);
    assert CallKept(states[n].storage, states[n].calls[c]);
    SamePieces(states[n].calls[c].pieces);
  }

  lemma SamePieces(pieces: seq<SentPiece>)
    ensures SameSend(pieces, pieces)
  {
  }

  /** A batch, once stored, stays stored, as it was. */
  lemma {:induction false} StoredForever(states: seq<System>, actions: seq<Action>, config: Config, m: nat, n: nat, key: nat)
    requires IsRun(states, actions, config) && m <= n < |states| && key in states[m].storage.rows
    ensures key in states[n].storage.rows && states[n].storage.rows[key] == states[m].storage.rows[key]
    decreases n
  {
    hide StoreInv, MemoryInv, Enabled, Apply;
    if m < n {
      StoredForever(states, actions, config, m, n - 1, key);
      RunKeeps(states, actions, config, n - 1);
      assert Moves(states[n - 1], actions[n - 1], states[n], config);
      RowsStay(states[n - 1], actions[n - 1], config, key);
    }
  }

  lemma RowsStay(s: System, a: Action, config: Config, key: nat)
    requires StoreInv(s) && Enabled(s, a, config) && key in s.storage.rows
    ensures var t := Apply(s, a, config);
            key in t.storage.rows && t.storage.rows[key] == s.storage.rows[key]
  {
    hide Taken, Winner, SameSend, Carries, Left, GivenUp, Unlocked, EnterSource, OnePerToken, OneOwner, Attempts;
    OwnKeys(s);
  }

  /** Two sends of one token: once one is answered as stored, one of other pieces is
      never answered as stored or replayed, then or later. */
  lemma DifferentPiecesRefused(states: seq<System>, actions: seq<Action>, config: Config, m: nat, n: nat, c: nat, d: nat)
    requires IsRun(states, actions, config) && m <= n < |states| && c in states[m].calls && d in states[n].calls
    requires states[m].calls[c].pc.Done? && !states[m].calls[c].pc.answer.Failed?
    requires states[m].calls[c].token.Some? && states[n].calls[d].token == states[m].calls[c].token
    requires states[n].calls[d].source == states[m].calls[c].source
    requires !SameSend(states[m].calls[c].pieces, states[n].calls[d].pieces)
    ensures states[n].calls[d].pc.Done? ==> states[n].calls[d].pc.answer.Failed?
  {
    hide SamePiece, Enabled, Apply;
    ExactlyOnce(states, actions, config, m, c);
    var key := states[m].calls[c].pc.answer.key;
    StoredForever(states, actions, config, m, n, key);
    if states[n].calls[d].pc.Done? && !states[n].calls[d].pc.answer.Failed? {
      ExactlyOnce(states, actions, config, n, d);
      SameBoth(states[n].storage.rows[key].pieces, states[m].calls[c].pieces, states[n].calls[d].pieces);
    }
  }

  lemma SameBoth(stored: seq<SentPiece>, a: seq<SentPiece>, b: seq<SentPiece>)
    requires SameSend(stored, a) && SameSend(stored, b)
    ensures SameSend(a, b)
  {
    forall i | 0 <= i < |a|
      ensures SamePiece(a[i], b[i])
    {
      assert SamePiece(stored[i], a[i]) && SamePiece(stored[i], b[i]);
    }
  }

  /** In every state, each batch's object is stored whole: it is put before the row,
      and dropped only once its own row cannot have committed. */
  lemma NoBatchLosesItsObject(states: seq<System>, actions: seq<Action>, config: Config, n: nat, key: nat)
    requires IsRun(states, actions, config) && n < |states| && key in states[n].storage.rows
    ensures key in states[n].storage.objects && states[n].storage.objects[key] == states[n].storage.rows[key].pieces
  {
    RunKeeps(states, actions, config, n);
  }

  /** Two active sends of a source hold the same state and so the same commit lock,
      though idle states are swept: at most one transaction runs for a source. */
  lemma OneTransactionPerSource(states: seq<System>, actions: seq<Action>, config: Config, n: nat, c: nat, d: nat)
    requires IsRun(states, actions, config) && n < |states| && c in states[n].calls && d in states[n].calls && c != d
    requires states[n].calls[c].source == states[n].calls[d].source
    requires states[n].calls[c].state.Some? && states[n].calls[d].state.Some?
    ensures states[n].calls[c].state == states[n].calls[d].state
    ensures !((states[n].calls[c].pc.Locked? || states[n].calls[c].pc.Committing?)
              && (states[n].calls[d].pc.Locked? || states[n].calls[d].pc.Committing?))
  {
    hide StoreInv, SourcesApart, IsRun;
    RunKeeps(states, actions, config, n);
    var s := states[n];
    assert CallPlaced(s.memory, s.calls[c]) && CallPlaced(s.memory, s.calls[d]);
    var lock := Lock(s.calls[c].state.value);
    assert CountOf(s.memory, lock) == |Holding(s.calls, lock)|;
    OnlyOne(Holding(s.calls, lock));
    assert Holds(s.calls[c], lock) ==> c in Holding(s.calls, lock);
    assert Holds(s.calls[d], lock) ==> d in Holding(s.calls, lock);
  }

  lemma OnlyOne(all: set<nat>)
    requires |all| <= 1
    ensures forall c, d :: c in all && d in all ==> c == d
  {
    forall c, d | c in all && d in all
      ensures c == d
    {
      assert all == {c} + (all - {c}) && |all - {c}| == 0;
    }
  }

  /** At most so many sends are checked at once, and so many transactions run; a send
      queued for its commit, or past it, holds no checking place. */
  lemma PermitsBounded(states: seq<System>, actions: seq<Action>, config: Config, n: nat)
    requires IsRun(states, actions, config) && n < |states|
    ensures |Holding(states[n].calls, Place)| <= config.maxInProgress
    ensures |Holding(states[n].calls, Slot)| <= config.concurrency
    ensures forall c :: c in states[n].calls && (HasObject(states[n].calls[c].pc) || states[n].calls[c].pc.Done?) ==>
              !states[n].calls[c].checking
  {
    hide StoreInv, SourcesApart, IsRun;
    RunKeeps(states, actions, config, n);
    var s := states[n];
    assert CountOf(s.memory, Place) == |Holding(s.calls, Place)|;
    assert CountOf(s.memory, Slot) == |Holding(s.calls, Slot)|;
    assert forall c :: c in s.calls ==> CallPlaced(s.memory, s.calls[c]);
  }

  /** Once every call has answered, on whatever paths, every permit is back: no place
      or slot is taken, no state is held and no lock is closed. */
  lemma PermitsReturned(states: seq<System>, actions: seq<Action>, config: Config, n: nat, permit: Permit)
    requires IsRun(states, actions, config) && n < |states|
    requires forall c :: c in states[n].calls ==> states[n].calls[c].pc.Done?
    ensures CountOf(states[n].memory, permit) == 0
  {
    hide StoreInv, SourcesApart, IsRun;
    RunKeeps(states, actions, config, n);
    var s := states[n];
    assert forall c :: c in s.calls ==> CallPlaced(s.memory, s.calls[c]);
    assert Holding(s.calls, permit) == {};
    assert CountOf(s.memory, permit) == |Holding(s.calls, permit)|;
  }
}
