/** What every step of the send protocol keeps of the store: each row backed by its
    object, one row for a token, and each success naming its own row. */
module SendStore {
  import opened Pieces
  import opened Sends

  /** The object of a batch is stored, whole. */
  predicate Backed(storage: Storage, key: nat, pieces: seq<SentPiece>) {
    key < storage.nextKey && key in storage.objects && storage.objects[key] == pieces
  }

  /** The call has a key of its own, which no row or unknown commit has. */
  predicate Owns(pc: Pc) {
    pc.Keyed? || pc.Queued? || pc.Locked? || pc.Committing? || pc.Dropping?
  }

  predicate HasObject(pc: Pc) {
    pc.Queued? || pc.Locked? || pc.Committing?
  }

  ghost predicate CallKept(storage: Storage, call: Call) {
    && (Owns(call.pc) ==> call.key < storage.nextKey && call.key !in storage.rows && call.key !in storage.limbo)
    && (HasObject(call.pc) ==> Backed(storage, call.key, call.pieces))
    && match call.pc
       case Replaying(key) => key in storage.rows && Carries(storage.rows[key], call.source, call.token)
       case Done(Stored(key)) => key in storage.rows && storage.rows[key] == Batch(call.source, call.token, call.pieces)
       case Done(Replayed(key)) =>
         key in storage.rows && Carries(storage.rows[key], call.source, call.token)
         && SameSend(storage.rows[key].pieces, call.pieces)
       case _ => true
  }

  ghost predicate OneOwner(calls: map<nat, Call>) {
    forall c, d :: c in calls && d in calls && c != d && Owns(calls[c].pc) && Owns(calls[d].pc) ==> calls[c].key != calls[d].key
  }

  /** No two rows of a source carry one token. */
  ghost predicate OnePerToken(rows: map<nat, Batch>) {
    forall k, l :: k in rows && l in rows && Carries(rows[k], rows[l].source, rows[l].token) ==> k == l
  }

  ghost predicate RowsBacked(storage: Storage) {
    && (forall key :: key in storage.rows ==> Backed(storage, key, storage.rows[key].pieces))
    && forall key :: key in storage.limbo ==> Backed(storage, key, storage.limbo[key].pieces) && key !in storage.rows
  }

  ghost predicate CallsKept(s: System) {
    forall c :: c in s.calls ==> CallKept(s.storage, s.calls[c])
  }

  ghost predicate StoreInv(s: System) {
    RowsBacked(s.storage) && OnePerToken(s.storage.rows) && CallsKept(s) && OneOwner(s.calls)
  }

  /** A step of one call that leaves the store as it is. */
  lemma CallSteps(s: System, c: nat, call: Call)
    requires StoreInv(s) && CallKept(s.storage, call)
    requires Owns(call.pc) ==> c in s.calls && Owns(s.calls[c].pc) && call.key == s.calls[c].key
    ensures CallsKept(s.(calls := s.calls[c := call])) && OneOwner(s.calls[c := call])
  {
    hide CallKept, Owns;
  }

  /** The stores differ at one key at most, and no row of it is gone. */
  ghost predicate DifferAt(before: Storage, after: Storage, key: nat) {
    && before.nextKey <= after.nextKey
    && (forall k :: k in before.rows ==> k in after.rows && after.rows[k] == before.rows[k])
    && (forall k :: k != key && k in after.rows ==> k in before.rows)
    && (forall k :: k != key && k in before.objects ==> k in after.objects && after.objects[k] == before.objects[k])
    && (forall k :: k != key && k in after.limbo ==> k in before.limbo)
  }

  lemma KeptAcross(before: Storage, after: Storage, call: Call, key: nat)
    requires CallKept(before, call) && DifferAt(before, after, key)
    requires Owns(call.pc) ==> call.key != key
    ensures CallKept(after, call)
  {
    hide SameSend, Carries;
  }

  /** A step that changes the store at one key, which is no other call's, and moves
      the call c if it moves any. */
  lemma StoreSteps(s: System, t: System, c: nat, key: nat)
    requires StoreInv(s) && DifferAt(s.storage, t.storage, key)
    requires t.calls == s.calls || (c in t.calls && t.calls == s.calls[c := t.calls[c]])
    requires forall d :: d in s.calls && (d != c || t.calls == s.calls) && Owns(s.calls[d].pc) ==> s.calls[d].key != key
    requires t.calls != s.calls ==>
               CallKept(t.storage, t.calls[c]) && (Owns(t.calls[c].pc) ==> t.calls[c].key == key)
    ensures CallsKept(t) && OneOwner(t.calls)
  {
    hide CallKept, Owns, RowsBacked, OnePerToken, DifferAt;
    forall d | d in s.calls && (d != c || t.calls == s.calls)
      ensures CallKept(t.storage, s.calls[d])
    {
      KeptAcross(s.storage, t.storage, s.calls[d], key);
    }
  }

  lemma AdmitKeeps(s: System, c: nat, config: Config)
    requires StoreInv(s) && Enabled(s, Admit(c), config)
    ensures StoreInv(Apply(s, Admit(c), config))
  {
    hide CallKept, OneOwner, OnePerToken, Carries;
    OwnKeys(s);
    var t := Apply(s, Admit(c), config);
    KeyedKept(t.storage, t.calls[c], s.storage);
    StoreSteps(s, t, c, s.storage.nextKey);
  }

  lemma OwnKeys(s: System)
    requires StoreInv(s)
    ensures forall d :: d in s.calls && Owns(s.calls[d].pc) ==>
              s.calls[d].key < s.storage.nextKey && s.calls[d].key !in s.storage.rows && s.calls[d].key !in s.storage.limbo
    ensures forall d :: d in s.calls && HasObject(s.calls[d].pc) ==> Backed(s.storage, s.calls[d].key, s.calls[d].pieces)
  {
    hide RowsBacked, OnePerToken, OneOwner, SameSend, Carries;
    forall d | d in s.calls
      ensures CallKept(s.storage, s.calls[d])
    {
    }
  }

  lemma KeyedKept(storage: Storage, call: Call, before: Storage)
    requires call.pc.Keyed? && call.key == before.nextKey && RowsBacked(before)
    requires storage == before.(nextKey := before.nextKey + 1)
    ensures CallKept(storage, call)
  {
  }

  lemma PutKeeps(s: System, c: nat, fails: bool, written: bool, config: Config)
    requires StoreInv(s) && Enabled(s, Put(c, fails, written), config)
    ensures StoreInv(Apply(s, Put(c, fails, written), config))
  {
    hide OneOwner, OnePerToken, Carries, SameSend, GivenUp, Left;
    OwnKeys(s);
    DistinctKeys(s, c);
    var t := Apply(s, Put(c, fails, written), config);
    StoreSteps(s, t, c, s.calls[c].key);
  }

  lemma DistinctKeys(s: System, c: nat)
    requires OneOwner(s.calls) && c in s.calls && Owns(s.calls[c].pc)
    ensures forall d :: d in s.calls && d != c && Owns(s.calls[d].pc) ==> s.calls[d].key != s.calls[c].key
  {
  }

  /** An object that backs nothing may be dropped. */
  lemma DropObject(storage: Storage, key: nat)
    requires RowsBacked(storage) && key !in storage.rows && key !in storage.limbo
    ensures RowsBacked(storage.(objects := storage.objects - {key}))
  {
  }

  /** A batch whose object is stored may be, or may come to be. */
  lemma AddBatch(storage: Storage, key: nat, row: Batch)
    requires RowsBacked(storage) && Backed(storage, key, row.pieces) && key !in storage.rows && key !in storage.limbo
    ensures RowsBacked(storage.(rows := storage.rows[key := row]))
    ensures RowsBacked(storage.(limbo := storage.limbo[key := row]))
  {
  }

  lemma DropKeeps(s: System, c: nat, deleted: bool, config: Config)
    requires StoreInv(s) && Enabled(s, Drop(c, deleted), config)
    ensures StoreInv(Apply(s, Drop(c, deleted), config))
  {
    hide OneOwner, OnePerToken, Carries, SameSend, GivenUp, Left, RowsBacked, Backed, CallsKept;
    OwnKeys(s);
    DistinctKeys(s, c);
    DropObject(s.storage, s.calls[c].key);
    var t := Apply(s, Drop(c, deleted), config);
    StoreSteps(s, t, c, s.calls[c].key);
  }

  lemma CommitKeeps(s: System, c: nat, outcome: Outcome, config: Config)
    requires StoreInv(s) && Enabled(s, Commit(c, outcome), config)
    ensures StoreInv(Apply(s, Commit(c, outcome), config))
  {
    hide OneOwner, OnePerToken, Carries, SameSend, GivenUp, Left, Unlocked, Freed, CallsKept, Taken, RowsBacked, Backed;
    OwnKeys(s);
    DistinctKeys(s, c);
    AddBatch(s.storage, s.calls[c].key, Batch(s.calls[c].source, s.calls[c].token, s.calls[c].pieces));
    var t := Apply(s, Commit(c, outcome), config);
    StoreSteps(s, t, c, s.calls[c].key);
    AddRow(s.storage.rows, s.calls[c].key, Batch(s.calls[c].source, s.calls[c].token, s.calls[c].pieces));
  }

  lemma AddRow(rows: map<nat, Batch>, key: nat, row: Batch)
    requires OnePerToken(rows)
    ensures !Taken(rows, row.source, row.token) ==> OnePerToken(rows[key := row])
  {
  }

  lemma LandKeeps(s: System, key: nat, config: Config)
    requires StoreInv(s) && Enabled(s, Land(key), config)
    ensures StoreInv(Apply(s, Land(key), config))
  {
    hide OneOwner, OnePerToken, Carries, SameSend, CallsKept, Taken;
    OwnKeys(s);
    var t := Apply(s, Land(key), config);
    StoreSteps(s, t, 0, key);
    AddRow(s.storage.rows, key, s.storage.limbo[key]);
  }

  lemma AttemptKept(s: System, key: nat)
    requires StoreInv(s) && key in AttemptKeys(s.calls)
    ensures Backed(s.storage, key, AttemptOf(s.calls, key).pieces) && key !in s.storage.rows
  {
    hide RowsBacked, OnePerToken, OneOwner, Backed, CallsKept;
    OwnKeys(s);
    var c :| c in s.calls && s.calls[c].pc.Committing? && s.calls[c].key == key
             && AttemptOf(s.calls, key) == Batch(s.calls[c].source, s.calls[c].token, s.calls[c].pieces);
  }

  lemma CrashKeeps(s: System, config: Config)
    requires StoreInv(s)
    ensures StoreInv(Crashed(s))
  {
    hide Carries, SameSend, AttemptOf, AttemptKeys, OnePerToken, Backed, OneOwner;
    var t := Crashed(s);
    forall key | key in AttemptKeys(s.calls)
      ensures Backed(s.storage, key, AttemptOf(s.calls, key).pieces) && key !in s.storage.rows
    {
      AttemptKept(s, key);
    }
    forall d | d in s.calls
      ensures CallKept(t.storage, t.calls[d]) && !Owns(t.calls[d].pc)
    {
      assert CallKept(s.storage, s.calls[d]);
    }
    assert OneOwner(t.calls) by {
      NoOwners(t.calls);
    }
    RowsStayBacked(s, t.storage);
  }

  lemma NoOwners(calls: map<nat, Call>)
    requires forall d :: d in calls ==> !Owns(calls[d].pc)
    ensures OneOwner(calls)
  {
  }

  lemma RowsStayBacked(s: System, storage: Storage)
    requires RowsBacked(s.storage) && storage == s.storage.(limbo := storage.limbo)
    requires storage.limbo == s.storage.limbo + Attempts(s.calls)
    requires forall key :: key in AttemptKeys(s.calls) ==>
               Backed(s.storage, key, AttemptOf(s.calls, key).pieces) && key !in s.storage.rows
    ensures RowsBacked(storage)
  {
    hide AttemptOf, AttemptKeys;
  }

  /** Every step keeps each row backed by its object, one row for a token, and each
      success naming its own send's row. */
  lemma StepKeepsStore(s: System, a: Action, config: Config)
    requires StoreInv(s) && Enabled(s, a, config)
    ensures StoreInv(Apply(s, a, config))
  {
    hide StoreInv, Enabled;
    match a
    case Admit(c) => AdmitKeeps(s, c, config);
    case Put(c, fails, written) => PutKeeps(s, c, fails, written, config);
    case Drop(c, deleted) => DropKeeps(s, c, deleted, config);
    case Commit(c, outcome) => CommitKeeps(s, c, outcome, config);
    case Land(key) => LandKeeps(s, key, config);
    case Crash => CrashKeeps(s, config);
    case _ => OwnStep(s, a, config);
  }

  lemma OwnStep(s: System, a: Action, config: Config)
    requires StoreInv(s) && Enabled(s, a, config)
    requires !(a.Admit? || a.Put? || a.Drop? || a.Commit? || a.Land? || a.Crash?)
    ensures StoreInv(Apply(s, a, config))
  {
    hide OneOwner, OnePerToken, SamePiece, Carries, Left, GivenUp, EnterSource, Unlocked;
    var t := Apply(s, a, config);
    if !a.Arrive? {
      assert CallKept(s.storage, s.calls[a.c]);
    }
    CallSteps(s, a.c, t.calls[a.c]);
  }
}
