/** What every step of the send protocol keeps of the memory: places, slots, states
    and locks counted exactly as the calls hold them. */
module SendMemory {
  import opened Options
  import opened Sends
  import opened SendStore

  /** What a call can hold of the memory: a checking place, a transaction slot, a
      source's state, and a state's commit lock. */
  datatype Permit = Place | Slot | State(id: nat) | Lock(id: nat)

  predicate Holds(call: Call, permit: Permit) {
    match permit
    case Place => call.checking
    case Slot => call.pc.Committing?
    case State(id) => call.state == Some(id)
    case Lock(id) => call.state == Some(id) && (call.pc.Locked? || call.pc.Committing?)
  }

  /** How many the memory says are held. */
  function CountOf(m: Memory, permit: Permit): nat {
    match permit
    case Place => m.checking
    case Slot => m.slots
    case State(id) => HoldersOf(m, id)
    case Lock(id) => if id in m.locked then 1 else 0
  }

  function Holding(calls: map<nat, Call>, permit: Permit): set<nat> {
    set c | c in calls && Holds(calls[c], permit)
  }

  /** The memory counts exactly the permits the calls hold. */
  ghost predicate Counted(s: System) {
    forall permit :: CountOf(s.memory, permit) == |Holding(s.calls, permit)|
  }

  /** A call holds a place until it queues for its commit, and its source's state,
      the one every other call of the source holds, until it answers. */
  ghost predicate CallPlaced(m: Memory, call: Call) {
    && (call.pc.Checking? || call.pc.Entered? || call.pc.Unseen? || call.pc.Keyed? ==> call.checking)
    && (call.checking ==> call.pc.Checking? || call.pc.Entered? || call.pc.Unseen? || call.pc.Keyed? || call.pc.Replaying?)
    && (call.state.None? <==> call.pc.Arrived? || call.pc.Checking? || call.pc.Done?)
    && (call.state.Some? ==> call.source in m.sources && m.sources[call.source] == call.state.value)
  }

  ghost predicate SourcesApart(m: Memory) {
    && (forall a :: a in m.sources ==> m.sources[a] < m.nextState)
    && forall a, b :: a in m.sources && b in m.sources && m.sources[a] == m.sources[b] ==> a == b
  }

  ghost predicate MemoryInv(s: System, config: Config) {
    && Counted(s) && SourcesApart(s.memory)
    && s.memory.checking <= config.maxInProgress && s.memory.slots <= config.concurrency
    && forall c :: c in s.calls ==> CallPlaced(s.memory, s.calls[c])
  }

  /** One call's step changes the count of each permit by what it takes and gives back. */
  predicate Settles(s: System, t: System, c: nat, permit: Permit)
    requires c in t.calls
  {
    CountOf(t.memory, permit) + (if c in s.calls && Holds(s.calls[c], permit) then 1 else 0)
    == CountOf(s.memory, permit) + (if Holds(t.calls[c], permit) then 1 else 0)
  }

  lemma StepCounts(s: System, t: System, c: nat)
    requires Counted(s) && c in t.calls && t.calls == s.calls[c := t.calls[c]]
    requires forall permit :: Settles(s, t, c, permit)
    ensures Counted(t)
  {
    hide Holds, CountOf;
    forall permit
      ensures CountOf(t.memory, permit) == |Holding(t.calls, permit)|
    {
      assert Settles(s, t, c, permit);
      HoldingStep(s.calls, c, t.calls[c], permit);
    }
  }

  lemma HoldingStep(calls: map<nat, Call>, c: nat, call: Call, permit: Permit)
    ensures |Holding(calls[c := call], permit)| + (if c in calls && Holds(calls[c], permit) then 1 else 0)
            == |Holding(calls, permit)| + (if Holds(call, permit) then 1 else 0)
  {
    hide Holds;
    var before, after := Holding(calls, permit), Holding(calls[c := call], permit);
    assert forall d :: d != c ==> (d in after <==> d in before);
    OneApart(before, after, c);
  }

  lemma OneApart(before: set<nat>, after: set<nat>, c: nat)
    requires forall d :: d != c ==> (d in after <==> d in before)
    ensures |after| + (if c in before then 1 else 0) == |before| + (if c in after then 1 else 0)
  {
    var others := before - {c};
    assert others == after - {c};
    assert before == others + (if c in before then {c} else {});
    assert after == others + (if c in after then {c} else {});
  }

  /** A holder is counted. */
  lemma Counts(s: System, c: nat, permit: Permit)
    requires Counted(s) && c in s.calls && Holds(s.calls[c], permit)
    ensures CountOf(s.memory, permit) >= 1
  {
    hide Holds, CountOf;
    assert c in Holding(s.calls, permit);
  }

  lemma EnterKeeps(s: System, c: nat, swept: set<string>, config: Config)
    requires MemoryInv(s, config) && Enabled(s, Enter(c, swept), config)
    ensures MemoryInv(Apply(s, Enter(c, swept), config), config)
  {
    var t := Apply(s, Enter(c, swept), config);
    var source := s.calls[c].source;
    NewState(s);
    forall permit
      ensures Settles(s, t, c, permit)
    {
    }
    StepCounts(s, t, c);
    forall d | d in s.calls && d != c
      ensures CallPlaced(t.memory, s.calls[d])
    {
      NotSwept(s, d, swept);
    }
  }

  /** A state not made yet has no holder and no lock. */
  lemma NewState(s: System)
    requires Counted(s) && SourcesApart(s.memory) && forall c :: c in s.calls ==> CallPlaced(s.memory, s.calls[c])
    ensures HoldersOf(s.memory, s.memory.nextState) == 0 && s.memory.nextState !in s.memory.locked
  {
    var id := s.memory.nextState;
    assert Holding(s.calls, State(id)) == {};
    assert Holding(s.calls, Lock(id)) == {};
    assert CountOf(s.memory, State(id)) == 0 && CountOf(s.memory, Lock(id)) == 0;
  }

  /** A state a call holds is not idle. */
  lemma NotSwept(s: System, d: nat, swept: set<string>)
    requires Counted(s) && d in s.calls && CallPlaced(s.memory, s.calls[d])
    requires forall source :: source in swept && source in s.memory.sources ==>
               HoldersOf(s.memory, s.memory.sources[source]) == 0
    ensures s.calls[d].state.Some? ==> s.calls[d].source !in swept
  {
    if s.calls[d].state.Some? {
      Counts(s, d, State(s.calls[d].state.value));
    }
  }

  /** A step that leaves the sources be, moves one call and settles its permits. */
  lemma PlacedSteps(s: System, t: System, c: nat, config: Config)
    requires MemoryInv(s, config) && c in t.calls && t.calls == s.calls[c := t.calls[c]]
    requires t.memory.sources == s.memory.sources && t.memory.nextState == s.memory.nextState
    requires forall permit :: Settles(s, t, c, permit)
    requires t.memory.checking <= config.maxInProgress && t.memory.slots <= config.concurrency
    requires CallPlaced(t.memory, t.calls[c])
    ensures MemoryInv(t, config)
  {
    hide Settles, Counted;
    StepCounts(s, t, c);
  }

  /** A step that takes and gives back nothing. */
  lemma QuietKeeps(s: System, t: System, c: nat, config: Config)
    requires MemoryInv(s, config) && c in t.calls && t.calls == s.calls[c := t.calls[c]] && t.memory == s.memory
    requires if c in s.calls then t.calls[c].checking == s.calls[c].checking && t.calls[c].state == s.calls[c].state
             else t.calls[c].pc.Arrived? && !t.calls[c].checking && t.calls[c].state == None
    requires c in s.calls ==> !s.calls[c].pc.Locked? && !s.calls[c].pc.Committing?
    requires !t.calls[c].pc.Locked? && !t.calls[c].pc.Committing?
    requires CallPlaced(t.memory, t.calls[c])
    ensures MemoryInv(t, config)
  {
    hide Counted, SourcesApart, CallPlaced;
    forall permit
      ensures Settles(s, t, c, permit)
    {
    }
    PlacedSteps(s, t, c, config);
  }

  /** Answering gives back the place, if it is still held, and the state. */
  lemma ReturnKeeps(s: System, c: nat, answer: Answer, config: Config)
    requires MemoryInv(s, config) && c in s.calls && !s.calls[c].pc.Locked? && !s.calls[c].pc.Committing?
    ensures MemoryInv(Returned(s, c, answer), config)
  {
    hide Counted, SourcesApart, CallPlaced;
    var t := Returned(s, c, answer);
    Held(s, c);
    var held: Permit := if s.calls[c].state.Some? then State(s.calls[c].state.value) else Place;
    assert Holds(s.calls[c], held) ==> CountOf(s.memory, held) >= 1;
    assert Holds(s.calls[c], Place) ==> CountOf(s.memory, Place) >= 1;
    forall permit
      ensures Settles(s, t, c, permit)
    {
    }
    PlacedDone(t.memory, t.calls[c]);
    PlacedSteps(s, t, c, config);
  }

  lemma PlacedDone(m: Memory, call: Call)
    requires call.pc.Done? && call.state == None && !call.checking
    ensures CallPlaced(m, call)
  {
  }

  /** Dropping out of a commit gives back its lock, and its slot once it has one. */
  lemma FreeKeeps(s: System, c: nat, conflict: bool, config: Config)
    requires MemoryInv(s, config) && c in s.calls && HasObject(s.calls[c].pc)
    ensures var memory := if s.calls[c].pc.Committing? then Freed(s.memory, s.calls[c]) else Unlocked(s.memory, s.calls[c]);
            MemoryInv(Moved(s, c, Dropping(conflict)).(memory := memory), config)
  {
    hide Counted, SourcesApart;
    var memory := if s.calls[c].pc.Committing? then Freed(s.memory, s.calls[c]) else Unlocked(s.memory, s.calls[c]);
    var t := Moved(s, c, Dropping(conflict)).(memory := memory);
    assert CallPlaced(s.memory, s.calls[c]);
    Held(s, c);
    assert Holds(s.calls[c], Slot) ==> CountOf(s.memory, Slot) >= 1;
    LockOnce(s, c);
    forall permit
      ensures Settles(s, t, c, permit)
    {
    }
    PlacedSteps(s, t, c, config);
  }

  lemma LockOnce(s: System, c: nat)
    requires Counted(s) && c in s.calls
    ensures s.calls[c].state.Some? && Holds(s.calls[c], Lock(s.calls[c].state.value)) ==>
              s.calls[c].state.value in s.memory.locked
  {
    if s.calls[c].state.Some? && Holds(s.calls[c], Lock(s.calls[c].state.value)) {
      Counts(s, c, Lock(s.calls[c].state.value));
    }
  }

  lemma PutPlaced(s: System, c: nat, fails: bool, written: bool, config: Config)
    requires MemoryInv(s, config) && Enabled(s, Put(c, fails, written), config)
    ensures MemoryInv(Apply(s, Put(c, fails, written), config), config)
  {
    hide Counted, SourcesApart;
    var t := Apply(s, Put(c, fails, written), config);
    if fails {
      SameMemory(s, s.(storage := t.storage), config);
      ReturnKeeps(s.(storage := t.storage), c, Failed, config);
    } else {
      assert CallPlaced(s.memory, s.calls[c]);
      Held(s, c);
      assert CountOf(s.memory, Place) >= 1;
      forall permit
        ensures Settles(s, t, c, permit)
      {
      }
      PlacedSteps(s, t, c, config);
    }
  }

  lemma TakeKeeps(s: System, a: Action, config: Config)
    requires MemoryInv(s, config) && Enabled(s, a, config) && (a.TakePlace? || a.TakeLock? || a.TakeSlot?)
    ensures MemoryInv(Apply(s, a, config), config)
  {
    hide Counted, SourcesApart;
    var t := Apply(s, a, config);
    assert CallPlaced(s.memory, s.calls[a.c]);
    forall permit
      ensures Settles(s, t, a.c, permit)
    {
    }
    PlacedSteps(s, t, a.c, config);
  }

  lemma CommitPlaced(s: System, c: nat, outcome: Outcome, config: Config)
    requires MemoryInv(s, config) && Enabled(s, Commit(c, outcome), config)
    ensures MemoryInv(Apply(s, Commit(c, outcome), config), config)
  {
    hide MemoryInv, Freed, Left, GivenUp, Taken;
    var t := Apply(s, Commit(c, outcome), config);
    FreeKeeps(s, c, true, config);
    FreeKeeps(s, c, false, config);
    if t.calls[c].pc.Done? {
      var free := Moved(s, c, Dropping(false)).(memory := Freed(s.memory, s.calls[c]));
      ReturnKeeps(free, c, t.calls[c].pc.answer, config);
      SameMemory(Returned(free, c, t.calls[c].pc.answer), t, config);
    } else {
      SameMemory(Moved(s, c, t.calls[c].pc).(memory := Freed(s.memory, s.calls[c])), t, config);
    }
  }

  lemma SameMemory(s: System, t: System, config: Config)
    requires MemoryInv(s, config) && t.calls == s.calls && t.memory == s.memory
    ensures MemoryInv(t, config)
  {
  }

  lemma CallStepKeeps(s: System, a: Action, config: Config)
    requires MemoryInv(s, config) && Enabled(s, a, config)
    requires a.Arrive? || a.LookUp? || a.Admit? || a.Drop? || a.LookWinner? || a.Replay? || a.Fail?
    ensures MemoryInv(Apply(s, a, config), config)
  {
    hide Counted, SourcesApart, SameSend, Taken, Winner, Carries, Left, GivenUp;
    var t := Apply(s, a, config);
    if !a.Arrive? {
      assert CallPlaced(s.memory, s.calls[a.c]);
    }
    if t.calls[a.c].pc.Done? {
      SameMemory(s, s.(storage := t.storage), config);
      ReturnKeeps(s.(storage := t.storage), a.c, t.calls[a.c].pc.answer, config);
    } else {
      QuietKeeps(s, t, a.c, config);
    }
  }

  lemma Held(s: System, c: nat)
    requires Counted(s) && c in s.calls
    ensures forall permit :: Holds(s.calls[c], permit) ==> CountOf(s.memory, permit) >= 1
  {
    forall permit | Holds(s.calls[c], permit)
      ensures CountOf(s.memory, permit) >= 1
    {
      Counts(s, c, permit);
    }
  }

  lemma CrashEmpties(s: System, config: Config)
    requires MemoryInv(s, config)
    ensures MemoryInv(Crashed(s), config)
  {
    hide Attempts, Counted, SourcesApart;
    var t := Crashed(s);
    forall c | c in s.calls
      ensures CallPlaced(t.memory, t.calls[c]) && t.calls[c].state == None && t.calls[c].pc.Done? && !t.calls[c].checking
    {
      assert CallPlaced(s.memory, s.calls[c]);
    }
    NothingHeld(t);
  }

  lemma NothingHeld(t: System)
    requires forall c :: c in t.calls ==> t.calls[c].state == None && t.calls[c].pc.Done? && !t.calls[c].checking
    requires t.memory == Memory(0, 0, map[], map[], {}, t.memory.nextState)
    ensures Counted(t) && SourcesApart(t.memory)
  {
    forall permit
      ensures CountOf(t.memory, permit) == |Holding(t.calls, permit)|
    {
      assert Holding(t.calls, permit) == {};
    }
  }

  lemma StepKeepsMemory(s: System, a: Action, config: Config)
    requires MemoryInv(s, config) && Enabled(s, a, config)
    ensures MemoryInv(Apply(s, a, config), config)
  {
    hide MemoryInv;
    match a
    case Enter(c, swept) => EnterKeeps(s, c, swept, config);
    case Put(c, fails, written) => PutPlaced(s, c, fails, written, config);
    case TakePlace(_) => TakeKeeps(s, a, config);
    case TakeLock(_) => TakeKeeps(s, a, config);
    case TakeSlot(_) => TakeKeeps(s, a, config);
    case GiveUp(c) => FreeKeeps(s, c, false, config);
    case Commit(c, outcome) => CommitPlaced(s, c, outcome, config);
    case Crash => CrashEmpties(s, config);
    case Land(key) => SameMemory(s, Apply(s, a, config), config);
    case _ => CallStepKeeps(s, a, config);
  }
}
