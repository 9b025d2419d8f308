/** The send protocol of api/event_sources.go: concurrent calls of SendFoundryEvents
    as interleaved steps, over the store and the memory they share. A call may fail
    wherever the code returns an error, the process may crash, and a commit whose
    outcome is unknown may land later or never. */
module Sends {
  import opened Options
  import opened Pieces

  // ---------------------------------------------------------------- Calls

  /** Stored and Replayed are the successes: each names the batch by its object's key. */
  datatype Answer = Stored(key: nat) | Replayed(key: nat) | Failed

  /** Where a call stands. Dropping a conflict looks the winner up next; dropping
      after a refusal or after giving up answers an error. */
  datatype Pc =
    | Arrived
    | Checking
    | Entered
    | Unseen
    | Keyed
    | Queued
    | Locked
    | Committing
    | Dropping(conflict: bool)
    | Looking
    | Replaying(key: nat)
    | Done(answer: Answer)

  /** One call: what it sends, its object's key once it has one, the source's state
      it holds, and whether it holds a checking place. */
  datatype Call = Call(source: string, token: Option<string>, pieces: seq<SentPiece>, pc: Pc, key: nat,
                       state: Option<nat>, checking: bool)

  datatype Batch = Batch(source: string, token: Option<string>, pieces: seq<SentPiece>)

  /** The database's rows by their object's key, the object store, and the commits
      whose outcome no one knows. */
  datatype Storage = Storage(rows: map<nat, Batch>, objects: map<nat, seq<SentPiece>>, limbo: map<nat, Batch>, nextKey: nat)

  /** What the backend holds in memory: the permits taken, and the state of each
      source, which has the source's commit lock. A state is known by its number,
      so one made again after a sweep is another. */
  datatype Memory = Memory(checking: nat, slots: nat, sources: map<string, nat>, holders: map<nat, nat>, locked: set<nat>,
                           nextState: nat)

  datatype System = System(calls: map<nat, Call>, storage: Storage, memory: Memory)

  datatype Config = Config(maxInProgress: nat, concurrency: nat)

  /** What the store answers a commit that no batch's token stands in the way of. */
  datatype Outcome = Lands | Refuses | Unknown

  datatype Action =
    | Arrive(c: nat, source: string, token: Option<string>, pieces: seq<SentPiece>)
    | TakePlace(c: nat)
    | Enter(c: nat, swept: set<string>)
    | LookUp(c: nat)
    | Admit(c: nat)
    | Put(c: nat, fails: bool, written: bool)
    | TakeLock(c: nat)
    | TakeSlot(c: nat)
    | GiveUp(c: nat)
    | Commit(c: nat, outcome: Outcome)
    | Drop(c: nat, deleted: bool)
    | LookWinner(c: nat)
    | Replay(c: nat)
    | Fail(c: nat)
    | Land(key: nat)
    | Crash

  const EMPTY := System(map[], Storage(map[], map[], map[], 0), Memory(0, 0, map[], map[], {}, 0))

  /** The stored pieces are the sent ones: the same ids, times and data in order. */
  predicate SameSend(stored: seq<SentPiece>, sent: seq<SentPiece>) {
    |stored| == |sent| && forall i :: 0 <= i < |sent| ==> SamePiece(stored[i], sent[i])
  }

  predicate SamePiece(a: SentPiece, b: SentPiece) {
    a.id == b.id && a.occurredAt == b.occurredAt && a.data == b.data
  }

  /** The row is the one its source's token finds. */
  predicate Carries(b: Batch, source: string, token: Option<string>) {
    token.Some? && b.source == source && b.token == token
  }

  predicate Taken(rows: map<nat, Batch>, source: string, token: Option<string>) {
    exists key :: key in rows && Carries(rows[key], source, token)
  }

  ghost function Winner(rows: map<nat, Batch>, source: string, token: Option<string>): (key: nat)
    requires Taken(rows, source, token)
    ensures key in rows && Carries(rows[key], source, token)
  {
    var key :| key in rows && Carries(rows[key], source, token);
    key
  }

  // ---------------------------------------------------------------- Steps

  predicate At(s: System, c: nat, pc: Pc) {
    c in s.calls && s.calls[c].pc == pc
  }

  /** Where the code may return an error: everywhere but between the object's put
      and its drop or commit. */
  predicate MayFail(pc: Pc) {
    pc.Arrived? || pc.Checking? || pc.Entered? || pc.Unseen? || pc.Looking? || pc.Replaying?
  }

  ghost predicate Enabled(s: System, a: Action, config: Config) {
    match a
    case Arrive(c, _, _, _) => c !in s.calls
    case TakePlace(c) => At(s, c, Arrived) && s.memory.checking < config.maxInProgress
    case Enter(c, swept) =>
      At(s, c, Checking)
      && forall source :: source in swept && source in s.memory.sources ==>
           HoldersOf(s.memory, s.memory.sources[source]) == 0
    case LookUp(c) => At(s, c, Entered)
    case Admit(c) => At(s, c, Unseen)
    case Put(c, _, _) => At(s, c, Keyed)
    case TakeLock(c) => At(s, c, Queued) && s.calls[c].state.Some? && s.calls[c].state.value !in s.memory.locked
    case TakeSlot(c) => At(s, c, Locked) && s.memory.slots < config.concurrency
    case GiveUp(c) => At(s, c, Queued) || At(s, c, Locked)
    case Commit(c, _) => At(s, c, Committing)
    case Drop(c, _) => At(s, c, Dropping(true)) || At(s, c, Dropping(false))
    case LookWinner(c) => At(s, c, Looking) && Taken(s.storage.rows, s.calls[c].source, s.calls[c].token)
    case Replay(c) => c in s.calls && s.calls[c].pc.Replaying?
    case Fail(c) => c in s.calls && MayFail(s.calls[c].pc)
    case Land(key) => key in s.storage.limbo
    case Crash => true
  }

  function Moved(s: System, c: nat, pc: Pc): System
    requires c in s.calls
  {
    s.(calls := s.calls[c := s.calls[c].(pc := pc)])
  }

  /** The call answers: it gives up its place if it still has it, and its hold on
      its source's state. */
  function Returned(s: System, c: nat, answer: Answer): System
    requires c in s.calls
  {
    var call := s.calls[c];
    s.(calls := s.calls[c := call.(pc := Done(answer), state := None, checking := false)],
       memory := Left(GivenUp(s.memory, call.checking), call.state))
  }

  function GivenUp(m: Memory, checking: bool): Memory {
    if checking && m.checking > 0 then m.(checking := m.checking - 1) else m
  }

  function HoldersOf(m: Memory, id: nat): nat {
    if id in m.holders then m.holders[id] else 0
  }

  function Left(m: Memory, state: Option<nat>): Memory {
    if state.Some? && HoldersOf(m, state.value) > 0
    then m.(holders := m.holders[state.value := HoldersOf(m, state.value) - 1])
    else m
  }

  /** enter: drops the idle states swept, then holds the source's, made when missing. */
  function EnterSource(m: Memory, source: string, swept: set<string>): (entered: (Memory, nat)) {
    var kept := m.sources - swept;
    if source in kept then
      var id := kept[source];
      (m.(sources := kept, holders := m.holders[id := HoldersOf(m, id) + 1]), id)
    else
      var id := m.nextState;
      (m.(sources := kept[source := id], holders := m.holders[id := 1], nextState := id + 1), id)
  }

  function Unlocked(m: Memory, call: Call): Memory {
    if call.pc.Locked? || call.pc.Committing?
    then m.(locked := if call.state.Some? then m.locked - {call.state.value} else m.locked)
    else m
  }

  /** A transaction is over: its slot and its source's commit lock are free. */
  function Freed(m: Memory, call: Call): Memory {
    Unlocked(if m.slots > 0 then m.(slots := m.slots - 1) else m, call)
  }

  ghost function Apply(s: System, a: Action, config: Config): System
    requires Enabled(s, a, config)
  {
    match a
    case Arrive(c, source, token, pieces) =>
      s.(calls := s.calls[c := Call(source, token, pieces, Arrived, 0, None, false)])
    case TakePlace(c) =>
      s.(calls := s.calls[c := s.calls[c].(pc := Checking, checking := true)],
         memory := s.memory.(checking := s.memory.checking + 1))
    case Enter(c, swept) =>
      var (memory, id) := EnterSource(s.memory, s.calls[c].source, swept);
      s.(calls := s.calls[c := s.calls[c].(pc := Entered, state := Some(id))], memory := memory)
    case LookUp(c) =>
      var call := s.calls[c];
      Moved(s, c, if Taken(s.storage.rows, call.source, call.token)
                  then Replaying(Winner(s.storage.rows, call.source, call.token)) else Unseen)
    case Admit(c) =>
      s.(calls := s.calls[c := s.calls[c].(pc := Keyed, key := s.storage.nextKey)],
         storage := s.storage.(nextKey := s.storage.nextKey + 1))
    case Put(c, fails, written) =>
      var call := s.calls[c];
      var stored := if fails && !written then s.storage else s.storage.(objects := s.storage.objects[call.key := call.pieces]);
      if fails then Returned(s.(storage := stored), c, Failed)
      else System(s.calls[c := call.(pc := Queued, checking := false)], stored, GivenUp(s.memory, call.checking))
    case TakeLock(c) =>
      Moved(s, c, Locked).(memory := s.memory.(locked := s.memory.locked + {s.calls[c].state.value}))
    case TakeSlot(c) => Moved(s, c, Committing).(memory := s.memory.(slots := s.memory.slots + 1))
    case GiveUp(c) => Moved(s, c, Dropping(false)).(memory := Unlocked(s.memory, s.calls[c]))
    case Commit(c, outcome) => Committed(s, c, outcome)
    case Drop(c, deleted) =>
      var call := s.calls[c];
      var stored := if deleted then s.storage.(objects := s.storage.objects - {call.key}) else s.storage;
      if call.pc.conflict then Moved(s, c, Looking).(storage := stored)
      else Returned(s.(storage := stored), c, Failed)
    case LookWinner(c) => Moved(s, c, Replaying(Winner(s.storage.rows, s.calls[c].source, s.calls[c].token)))
    case Replay(c) =>
      var call := s.calls[c];
      Returned(s, c, if call.pc.key in s.storage.objects && SameSend(s.storage.objects[call.pc.key], call.pieces)
                     then Replayed(call.pc.key) else Failed)
    case Fail(c) => Returned(s, c, Failed)
    case Land(key) => s.(storage := Landed(s.storage, key))
    case Crash => Crashed(s)
  }

  /** The transaction of a send, at once: a batch of the source with the token is a
      conflict, else it lands, is refused, or may land later. */
  ghost function Committed(s: System, c: nat, outcome: Outcome): System
    requires c in s.calls
  {
    var call := s.calls[c];
    var free := s.(memory := Freed(s.memory, call));
    var row := Batch(call.source, call.token, call.pieces);
    if outcome.Unknown? then
      Returned(free.(storage := s.storage.(limbo := s.storage.limbo[call.key := row])), c, Failed)
    else if Taken(s.storage.rows, call.source, call.token) then Moved(free, c, Dropping(true))
    else if outcome.Refuses? then Moved(free, c, Dropping(false))
    else Returned(free.(storage := s.storage.(rows := s.storage.rows[call.key := row])), c, Stored(call.key))
  }

  /** A commit of unknown outcome ends: its row lands unless its token is taken. */
  ghost function Landed(storage: Storage, key: nat): Storage
    requires key in storage.limbo
  {
    var row := storage.limbo[key];
    storage.(limbo := storage.limbo - {key},
             rows := if Taken(storage.rows, row.source, row.token) then storage.rows else storage.rows[key := row])
  }

  /** The process ends: no call answers, its memory is gone, and the transactions it
      was running may still land. */
  ghost function Crashed(s: System): System {
    System(map c | c in s.calls :: if s.calls[c].pc.Done? then s.calls[c]
                                   else s.calls[c].(pc := Done(Failed), state := None, checking := false),
           s.storage.(limbo := s.storage.limbo + Attempts(s.calls)),
           Memory(0, 0, map[], map[], {}, s.memory.nextState))
  }

  /** The rows of the transactions running, by key. */
  ghost function Attempts(calls: map<nat, Call>): map<nat, Batch> {
    map key | key in AttemptKeys(calls) :: AttemptOf(calls, key)
  }

  function AttemptKeys(calls: map<nat, Call>): set<nat> {
    set c | c in calls && calls[c].pc.Committing? :: calls[c].key
  }

  ghost function AttemptOf(calls: map<nat, Call>, key: nat): Batch
    requires key in AttemptKeys(calls)
  {
    var c :| c in calls && calls[c].pc.Committing? && calls[c].key == key;
    Batch(calls[c].source, calls[c].token, calls[c].pieces)
  }
}
