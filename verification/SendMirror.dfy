/** The state in memory of SendState.dfy, seen as the protocol of Sends.dfy counts it: each
    source's state by a number of its own, and how many calls hold it. */
module SendMirror {
  import opened Options
  import opened SendState
  import opened Sends

  /** The protocol's memory counts what the sources' states hold: each state is known by its
      number, never used before, and no two by the same. */
  ghost predicate Numbered<S>(sources: map<string, S>, held: map<S, nat>, m: Memory, numbers: map<S, nat>) {
    && m.sources.Keys == sources.Keys
    && (forall k :: k in sources ==> IsNumbered(sources[k], held, m, m.sources[k], numbers))
    && forall a, b :: a in m.sources && b in m.sources && m.sources[a] == m.sources[b] ==> a == b
  }

  ghost predicate IsNumbered<S>(state: S, held: map<S, nat>, m: Memory, id: nat, numbers: map<S, nat>) {
    state in numbers && numbers[state] == id < m.nextState && state in held && HoldersOf(m, id) == held[state]
  }

  /** The sources whose state was dropped: they have none, or another. */
  ghost function Dropped<S>(before: map<string, S>, after: map<string, S>): set<string> {
    set k | k in before && (k !in after || after[k] != before[k])
  }

  /** What enter does to the states is the protocol's step. */
  lemma EnterCounts<S>(before: map<string, S>, held: map<S, nat>, after: map<string, S>, now: map<S, nat>, m: Memory,
                             numbers: map<S, nat>, key: string)
    requires Numbered(before, held, m, numbers) && key in after && after[key] in now
    requires forall a, b :: a in after && b in after && after[a] == after[b] ==> a == b
    requires forall k :: k in after && k != key ==>
               k in before && after[k] == before[k] && after[k] in now && now[after[k]] == held[before[k]]
    requires now[after[key]] == if key in before && before[key] == after[key] then held[before[key]] + 1 else 1
    ensures var (memory, id) := EnterSource(m, key, Dropped(before, after));
            Numbered(after, now, memory, numbers[after[key] := id])
  {
    hide HoldersOf, EnterSource;
    var swept := Dropped(before, after);
    var (memory, id) := EnterSource(m, key, swept);
    EnterHolders(m, key, swept);
    assert memory.sources.Keys == after.Keys;
    assert memory.nextState >= m.nextState && id < memory.nextState by {
      if key in m.sources {
        assert IsNumbered(before[key], held, m, m.sources[key], numbers);
      }
    }
    forall k | k in after
      ensures IsNumbered(after[k], now, memory, memory.sources[k], numbers[after[key] := id])
    {
      if k != key {
        assert IsNumbered(before[k], held, m, m.sources[k], numbers);
      } else if key in before && before[key] == after[key] {
        assert IsNumbered(before[key], held, m, m.sources[key], numbers);
      }
    }
    NumbersApart(before, held, m, numbers, key, swept);
  }

  /** The states keep numbers of their own. */
  lemma NumbersApart<S>(before: map<string, S>, held: map<S, nat>, m: Memory, numbers: map<S, nat>, key: string,
                        swept: set<string>)
    requires Numbered(before, held, m, numbers)
    ensures var sources := EnterSource(m, key, swept).0.sources;
            forall a, b :: a in sources && b in sources && sources[a] == sources[b] ==> a == b
  {
    hide HoldersOf, IsNumbered;
    EnterHolders(m, key, swept);
    forall k | k in m.sources
      ensures m.sources[k] < m.nextState
    {
      Below(before[k], held, m, m.sources[k], numbers);
    }
  }

  lemma Below<S>(state: S, held: map<S, nat>, m: Memory, id: nat, numbers: map<S, nat>)
    requires IsNumbered(state, held, m, id, numbers)
    ensures id < m.nextState
  {
  }

  lemma EnterHolders(m: Memory, key: string, swept: set<string>)
    ensures var (memory, id) := EnterSource(m, key, swept);
            && (forall other: nat :: other != id ==> HoldersOf(memory, other) == HoldersOf(m, other))
            && HoldersOf(memory, id) == (if key in m.sources && key !in swept then HoldersOf(m, id) + 1 else 1)
            && m.nextState <= memory.nextState
            && memory.sources == (m.sources - swept)[key := id]
            && (key in m.sources && key !in swept ==> id == m.sources[key])
            && (key !in m.sources || key in swept ==> id == m.nextState < memory.nextState)
  {
  }

  /** How many calls hold each source's state. */
  ghost function HeldBy(e: EventSends): map<EventSource, nat>
    reads e, e.sources.Values
  {
    map s | s in e.sources.Values :: s.holders
  }

  ghost predicate Mirrors(e: EventSends, m: Memory, numbers: map<EventSource, nat>)
    reads e, e.sources.Values
  {
    Numbered(e.sources, HeldBy(e), m, numbers)
  }

  /** Entering is the protocol's step: what it drops no call holds, and the state it holds is
      the one the protocol numbers. */
  method EnterMirrors(e: EventSends, ghost m: Memory, ghost numbers: map<EventSource, nat>, workspaceId: string,
                      connectorId: string, now: int)
    returns (source: EventSource, workspace: EventWorkspace, ghost swept: set<string>, ghost after: map<EventSource, nat>)
    requires e.Valid() && Mirrors(e, m, numbers)
    modifies e`sources, e`workspaces, e`swept, e.sources.Values`holders, e.workspaces.Values`holders
    ensures e.Valid()
    ensures forall k :: k in swept && k in m.sources ==> HoldersOf(m, m.sources[k]) == 0
    ensures var (memory, id) := EnterSource(m, workspaceId + "/" + connectorId, swept);
            Mirrors(e, memory, after) && source in after && after[source] == id
  {
    hide EnterSource, HoldersOf, Numbered;
    ghost var before, held, key := e.sources, HeldBy(e), workspaceId + "/" + connectorId;
    DroppedIdle(e, m, numbers);
    source, workspace := e.Enter(workspaceId, connectorId, now);
    swept := Dropped(before, e.sources);
    after := numbers[source := EnterSource(m, key, swept).1];
    EnterCounts(before, held, e.sources, HeldBy(e), m, numbers, key);
  }

  lemma DroppedIdle(e: EventSends, m: Memory, numbers: map<EventSource, nat>)
    requires Mirrors(e, m, numbers)
    ensures m.sources.Keys == e.sources.Keys
    ensures forall k :: k in e.sources ==> HoldersOf(m, m.sources[k]) == e.sources[k].holders
  {
    forall k | k in e.sources
      ensures HoldersOf(m, m.sources[k]) == e.sources[k].holders
    {
      assert IsNumbered(e.sources[k], HeldBy(e), m, m.sources[k], numbers);
    }
  }

  /** And so is leaving. */
  method LeaveMirrors(e: EventSends, ghost m: Memory, ghost numbers: map<EventSource, nat>, ghost key: string,
                      source: EventSource, workspace: EventWorkspace, now: int)
    requires e.Valid() && Mirrors(e, m, numbers)
    requires key in e.sources && e.sources[key] == source && source.holders > 0 && workspace.holders > 0
    modifies source`holders, source`idleSince, workspace`holders, workspace`idleSince
    ensures e.Valid() && Mirrors(e, Left(m, Some(m.sources[key])), numbers)
  {
    hide Numbered, Left, HoldersOf;
    ghost var sources: map<string, EventSource> := e.sources;
    ghost var held: map<EventSource, nat> := HeldBy(e);
    DroppedIdle(e, m, numbers);
    assert sources[key] in sources.Values && held[source] == source.holders;
    e.Leave(source, workspace, now);
    assert e.sources == sources && HeldBy(e) == held[source := held[source] - 1];
    LeaveCounts(sources, held, HeldBy(e), m, numbers, key);
  }

  lemma LeaveCounts<S>(sources: map<string, S>, held: map<S, nat>, now: map<S, nat>, m: Memory, numbers: map<S, nat>,
                             key: string)
    requires Numbered(sources, held, m, numbers) && key in sources && held[sources[key]] > 0
    requires forall a, b :: a in sources && b in sources && sources[a] == sources[b] ==> a == b
    requires now.Keys == held.Keys && now == held[sources[key] := held[sources[key]] - 1]
    ensures Numbered(sources, now, Left(m, Some(m.sources[key])), numbers)
  {
    forall k | k in sources
      ensures IsNumbered(sources[k], now, Left(m, Some(m.sources[key])), m.sources[k], numbers)
    {
      assert IsNumbered(sources[k], held, m, m.sources[k], numbers);
      assert IsNumbered(sources[key], held, m, m.sources[key], numbers);
    }
  }
}
