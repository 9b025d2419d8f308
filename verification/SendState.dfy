/** eventSends of api/event_sources.go: the state of sources and workspaces that
    sends hold while they run, dropped when idle, and each workspace's counters of
    its UTC day. Each method runs under the lock the code takes for it. */
module SendState {
  import opened Options
  import opened Sums

  const IDLE_NANOS: int := 10 * 60 * 1_000_000_000
  const SWEEP_NANOS: int := 60 * 1_000_000_000
  const DAY_NANOS: int := 24 * 60 * 60 * 1_000_000_000

  /** Pieces and bytes, as a day's counters and caps count them. */
  datatype Totals = Totals(pieces: nat, bytes: nat)

  // ---------------------------------------------------------------- A day's counters

  /** A workspace's day: the day counted, if any yet, its counters, and, for the
      record, what they were seeded with and the reservations of the day that are
      still held or were stored, by reservation. */
  datatype Day = Day(day: Option<int>, pieces: int, bytes: int, seed: Totals, kept: map<nat, Totals>)

  /** What a send holds of a day until it stores its batch. */
  datatype Hold = Hold(day: int, share: Totals)

  datatype Reserved = Granted(hold: Hold) | RateLimited | Unreadable | OverCap

  function DayOf(now: int): int {
    now / DAY_NANOS
  }

  /** The day's counters for a send at now: seeded from the day's batches when the
      day is another. */
  function Seeded(d: Day, now: int, seed: Totals): Day {
    if d.day == Some(DayOf(now)) then d else Day(Some(DayOf(now)), seed.pieces, seed.bytes, seed, map[])
  }

  predicate Fits(d: Day, share: Totals, caps: Totals) {
    d.pieces + share.pieces <= caps.pieces && d.bytes + share.bytes <= caps.bytes
  }

  function Added(d: Day, id: nat, share: Totals): Day {
    d.(pieces := d.pieces + share.pieces, bytes := d.bytes + share.bytes, kept := d.kept[id := share])
  }

  /** Giving a reservation back; one of a day that has ended is not counted any more. */
  function Released(d: Day, id: nat, hold: Hold): Day {
    if d.day == Some(hold.day)
    then d.(pieces := d.pieces - hold.share.pieces, bytes := d.bytes - hold.share.bytes, kept := d.kept - {id})
    else d
  }

  function PiecesIn(kept: map<nat, Totals>): (pieces: map<nat, nat>)
    ensures pieces.Keys == kept.Keys
  {
    map id | id in kept :: kept[id].pieces
  }

  function BytesIn(kept: map<nat, Totals>): (bytes: map<nat, nat>)
    ensures bytes.Keys == kept.Keys
  {
    map id | id in kept :: kept[id].bytes
  }

  ghost function PiecesKept(kept: map<nat, Totals>): nat {
    Sum(PiecesIn(kept))
  }

  ghost function BytesKept(kept: map<nat, Totals>): nat {
    Sum(BytesIn(kept))
  }

  lemma KeptAdds(kept: map<nat, Totals>, id: nat, share: Totals)
    requires id !in kept
    ensures PiecesKept(kept[id := share]) == PiecesKept(kept) + share.pieces
    ensures BytesKept(kept[id := share]) == BytesKept(kept) + share.bytes
  {
    hide Sum;
    assert PiecesIn(kept[id := share]) == PiecesIn(kept)[id := share.pieces];
    assert BytesIn(kept[id := share]) == BytesIn(kept)[id := share.bytes];
    SumSet(PiecesIn(kept), id, share.pieces);
    SumSet(BytesIn(kept), id, share.bytes);
  }

  lemma KeptDrops(kept: map<nat, Totals>, id: nat)
    requires id in kept
    ensures PiecesKept(kept) == PiecesKept(kept - {id}) + kept[id].pieces
    ensures BytesKept(kept) == BytesKept(kept - {id}) + kept[id].bytes
  {
    assert kept == (kept - {id})[id := kept[id]];
    KeptAdds(kept - {id}, id, kept[id]);
  }

  /** The counters are the seed and the reservations kept since, and no more than the
      caps once the seed is. */
  ghost predicate Balanced(d: Day, caps: Totals) {
    && d.pieces == d.seed.pieces + PiecesKept(d.kept)
    && d.bytes == d.seed.bytes + BytesKept(d.kept)
    && (d.kept != map[] ==> d.pieces <= caps.pieces && d.bytes <= caps.bytes)
    && (d.day.None? ==> d.kept == map[])
  }

  /** A reservation of the day counted is kept. */
  ghost predicate IsKept(d: Day, id: nat, hold: Hold) {
    d.day.Some? && hold.day <= d.day.value && (hold.day == d.day.value ==> id in d.kept && d.kept[id] == hold.share)
  }

  lemma AddKeeps(d: Day, now: int, seed: Totals, id: nat, share: Totals, caps: Totals)
    requires Balanced(d, caps) && id !in d.kept && Fits(Seeded(d, now, seed), share, caps)
    ensures Balanced(Seeded(d, now, seed), caps)
    ensures Balanced(Added(Seeded(d, now, seed), id, share), caps)
  {
    hide PiecesKept, BytesKept, DayOf;
    NoneKept();
    KeptAdds(Seeded(d, now, seed).kept, id, share);
  }

  lemma NoneKept()
    ensures PiecesKept(map[]) == 0 && BytesKept(map[]) == 0
  {
    assert PiecesIn(map[]).Keys == {} && BytesIn(map[]).Keys == {};
  }

  /** A hold the counters can give back: of another day, or a reservation of the day
      counted with the share it was kept at. One the day was seeded again without can
      be given back only when it has no share. */
  predicate GivesBack(d: Day, id: nat, hold: Hold) {
    d.day == Some(hold.day) ==> (if id in d.kept then d.kept[id] else Totals(0, 0)) == hold.share
  }

  /** Giving a hold back keeps the balance exactly when it is one of those. */
  lemma ReleaseKeepsIff(d: Day, id: nat, hold: Hold, caps: Totals)
    requires Balanced(d, caps)
    ensures Balanced(Released(d, id, hold), caps) <==> GivesBack(d, id, hold)
  {
    hide PiecesKept, BytesKept;
    if d.day == Some(hold.day) {
      if id in d.kept {
        KeptDrops(d.kept, id);
      } else {
        assert d.kept - {id} == d.kept;
      }
    }
  }

  // ---------------------------------------------------------------- Runs of a day's counters

  /** What happens to a workspace's counters, each step under its lock: a send
      reserves, a send that stored nothing releases, a send stores its batch. */
  datatype Event =
    | Reserve(id: nat, now: int, seed: Totals, share: Totals)
    | Release(id: nat)
    | Store(id: nat)

  datatype Counting = Counting(day: Day, holds: map<nat, Hold>, used: set<nat>)

  const UNCOUNTED := Counting(Day(None, 0, 0, Totals(0, 0), map[]), map[], {})

  ghost predicate CanHappen(c: Counting, e: Event) {
    match e
    case Reserve(id, _, _, _) => id !in c.used
    case Release(id) => id in c.holds
    case Store(id) => id in c.holds
  }

  function Happened(c: Counting, e: Event, caps: Totals): Counting
    requires e.Release? ==> e.id in c.holds
  {
    match e
    case Reserve(id, now, seed, share) =>
      var d := Seeded(c.day, now, seed);
      if Fits(d, share, caps)
      then Counting(Added(d, id, share), c.holds[id := Hold(DayOf(now), share)], c.used + {id})
      else Counting(d, c.holds, c.used + {id})
    case Release(id) => Counting(Released(c.day, id, c.holds[id]), c.holds - {id}, c.used)
    case Store(id) => c.(holds := c.holds - {id})
  }

  /** Clock readings do not go back to a day before the one counted, in the order the
      sends take the workspace's lock. A send reads its clock before it takes the lock,
      so two sends at midnight can break this order though no clock goes back. */
  predicate InOrder(c: Counting, e: Event) {
    e.Reserve? && c.day.day.Some? ==> c.day.day.value <= DayOf(e.now)
  }

  ghost predicate CountingInv(c: Counting, caps: Totals) {
    && Balanced(c.day, caps)
    && c.holds.Keys <= c.used && c.day.kept.Keys <= c.used
    && forall id :: id in c.holds ==> IsKept(c.day, id, c.holds[id])
  }

  lemma EventKeeps(c: Counting, e: Event, caps: Totals)
    requires CountingInv(c, caps) && CanHappen(c, e) && InOrder(c, e)
    ensures CountingInv(Happened(c, e, caps), caps)
  {
    hide PiecesKept, BytesKept, DayOf, Balanced;
    match e
    case Reserve(id, now, seed, share) =>
      if Fits(Seeded(c.day, now, seed), share, caps) {
        AddKeeps(c.day, now, seed, id, share, caps);
      } else {
        SeedKeeps(c.day, now, seed, caps);
      }
    case Release(id) =>
      ReleaseKeepsIff(c.day, id, c.holds[id], caps);
    case Store(id) =>
  }

  /** A reservation is granted exactly when what the day was seeded with, the reservations of
      the day kept so far and its own share are within the caps. */
  lemma GrantedIff(c: Counting, id: nat, now: int, seed: Totals, share: Totals, caps: Totals)
    requires CountingInv(c, caps) && CanHappen(c, Reserve(id, now, seed, share))
    ensures var same := c.day.day == Some(now / (24 * 60 * 60 * 1_000_000_000));
            var from, kept := if same then c.day.seed else seed, if same then c.day.kept else map[];
            id in Happened(c, Reserve(id, now, seed, share), caps).holds
            <==> && from.pieces + PiecesKept(kept) + share.pieces <= caps.pieces
                 && from.bytes + BytesKept(kept) + share.bytes <= caps.bytes
  {
    hide PiecesKept, BytesKept;
    NothingKept();
  }

  lemma NothingKept()
    ensures PiecesKept(map[]) == 0 && BytesKept(map[]) == 0
  {
  }

  lemma SeedKeeps(d: Day, now: int, seed: Totals, caps: Totals)
    requires Balanced(d, caps)
    ensures Balanced(Seeded(d, now, seed), caps)
  {
    hide PiecesKept, BytesKept, DayOf;
    NoneKept();
  }

  ghost predicate IsDayRun(run: seq<Counting>, events: seq<Event>, caps: Totals) {
    && |run| == |events| + 1 && run[0] == UNCOUNTED
    && forall i :: 0 <= i < |events| ==>
         CanHappen(run[i], events[i]) && InOrder(run[i], events[i]) && run[i + 1] == Happened(run[i], events[i], caps)
  }

  /** Under any interleaving of limits and releases, with clock readings in order:
      the day's counters are their seed and the day's reservations still held or
      stored, so never below the seed, and no reservation takes them past the caps. */
  lemma {:induction false} CountersConserve(run: seq<Counting>, events: seq<Event>, caps: Totals, n: nat)
    requires IsDayRun(run, events, caps) && n < |run|
    ensures CountingInv(run[n], caps)
    ensures run[n].day.pieces >= run[n].day.seed.pieces && run[n].day.bytes >= run[n].day.seed.bytes
  {
    hide CountingInv, CanHappen, InOrder, Happened;
    if n == 0 {
      NoneKept();
      UncountedKeeps(caps);
    } else {
      CountersConserve(run, events, caps, n - 1);
      EventKeeps(run[n - 1], events[n - 1], caps);
    }
    NotBelow(run[n], caps);
  }

  lemma UncountedKeeps(caps: Totals)
    ensures CountingInv(UNCOUNTED, caps)
  {
    NoneKept();
  }

  lemma NotBelow(c: Counting, caps: Totals)
    requires CountingInv(c, caps)
    ensures c.day.pieces >= c.day.seed.pieces && c.day.bytes >= c.day.seed.bytes
  {
  }

  /** Readings that go back over midnight: a send late in a day reserves, one the next
      day does, then one whose reading is of the first day, taken before it waited for
      the lock. */
  function ClockBack(caps: Totals): Counting {
    var late := Happened(UNCOUNTED, Reserve(0, 0, Totals(0, 0), Totals(5, 0)), caps);
    var next := Happened(late, Reserve(1, DAY_NANOS, Totals(0, 0), Totals(1, 0)), caps);
    Happened(next, Reserve(2, 0, Totals(0, 0), Totals(1, 0)), caps)
  }

  /** Out of order, conservation fails: the first day is seeded afresh, so giving the
      first reservation back then takes the counter below its seed. */
  lemma ClockBackGoesBelowSeed(caps: Totals)
    requires caps.pieces >= 5
    ensures CanHappen(ClockBack(caps), Release(0)) && !GivesBack(ClockBack(caps).day, 0, ClockBack(caps).holds[0])
    ensures var c := Happened(ClockBack(caps), Release(0), caps);
            c.day.pieces < c.day.seed.pieces
  {
    FirstDays();
    hide DayOf;
    var late := Happened(UNCOUNTED, Reserve(0, 0, Totals(0, 0), Totals(5, 0)), caps);
    assert late.day.day == Some(0) && late.holds[0] == Hold(0, Totals(5, 0));
    var next := Happened(late, Reserve(1, DAY_NANOS, Totals(0, 0), Totals(1, 0)), caps);
    assert next.day.day == Some(1) && next.holds[0] == Hold(0, Totals(5, 0));
  }

  lemma FirstDays()
    ensures DayOf(0) == 0 && DayOf(DAY_NANOS) == 1
  {
  }

  // ---------------------------------------------------------------- The state in memory

  /** The sends and lists holding a state, and when the last let go. taken counts the
      tokens taken of its bucket and not given back. */
  class EventSource {
    var holders: nat
    var idleSince: int
    var taken: nat

    constructor ()
      ensures holders == 0 && taken == 0
    {
      holders, idleSince, taken := 0, 0, 0;
    }

    predicate Idle(now: int)
      reads this
    {
      holders == 0 && now - idleSince >= IDLE_NANOS
    }
  }

  class EventWorkspace {
    var holders: nat
    var idleSince: int
    var taken: nat
    var day: Option<int>
    var pieces: int
    var bytes: int
    ghost var seed: Totals
    ghost var kept: map<nat, Totals>

    constructor ()
      ensures holders == 0 && taken == 0 && Counted() == UNCOUNTED.day
    {
      holders, idleSince, taken := 0, 0, 0;
      day, pieces, bytes, seed, kept := None, 0, 0, Totals(0, 0), map[];
    }

    predicate Idle(now: int)
      reads this
    {
      holders == 0 && now - idleSince >= IDLE_NANOS
    }

    ghost function Counted(): Day
      reads this
    {
      Day(day, pieces, bytes, seed, kept)
    }
  }

  /** The day's caps of a workspace, and the state of every source and workspace a
      send has named lately. */
  class EventSends {
    const caps: Totals
    var sources: map<string, EventSource>
    var workspaces: map<string, EventWorkspace>
    var swept: int

    constructor (caps: Totals, now: int)
      ensures Valid() && sources == map[] && workspaces == map[] && this.caps == caps
    {
      this.caps, sources, workspaces, swept := caps, map[], map[], now;
    }

    /** Each source and workspace has a state of its own. */
    ghost predicate Valid()
      reads this
    {
      && (forall a, b :: a in sources && b in sources && sources[a] == sources[b] ==> a == b)
      && forall a, b :: a in workspaces && b in workspaces && workspaces[a] == workspaces[b] ==> a == b
    }

    /** Drops the state nothing has held for a while, at most once in a while. */
    method Sweep(now: int)
      requires Valid()
      modifies this`sources, this`workspaces, this`swept
      ensures Valid()
      ensures forall k :: k in old(sources) && k !in sources ==> old(sources)[k].Idle(now)
      ensures forall k :: k in sources ==> k in old(sources) && sources[k] == old(sources)[k]
      ensures forall k :: k in old(workspaces) && k !in workspaces ==> old(workspaces)[k].Idle(now)
      ensures forall k :: k in workspaces ==> k in old(workspaces) && workspaces[k] == old(workspaces)[k]
      ensures now - old(swept) < 60_000_000_000 ==>
                sources == old(sources) && workspaces == old(workspaces) && swept == old(swept)
      ensures now - old(swept) >= 60_000_000_000 ==>
                && swept == now
                && (forall k :: k in sources ==> sources[k].holders > 0 || now - sources[k].idleSince < 600_000_000_000)
                && (forall k :: k in workspaces ==> workspaces[k].holders > 0 || now - workspaces[k].idleSince < 600_000_000_000)
    {
      if now - swept >= SWEEP_NANOS {
        sources := map k | k in sources && !sources[k].Idle(now) :: sources[k];
        workspaces := map k | k in workspaces && !workspaces[k].Idle(now) :: workspaces[k];
        swept := now;
      }
    }

    method HoldSource(key: string) returns (source: EventSource)
      requires Valid()
      modifies this`sources, sources.Values`holders
      ensures Valid()
      ensures if key in old(sources)
              then sources == old(sources) && source == sources[key] && source.holders == old(sources[key].holders) + 1
              else fresh(source) && source.holders == 1 && sources == old(sources)[key := source]
      ensures forall s :: s in old(sources.Values) && s != source ==> s.holders == old(s.holders)
    {
      if key !in sources {
        var made := new EventSource();
        sources := sources[key := made];
      }
      source := sources[key];
      source.holders := source.holders + 1;
    }

    method HoldWorkspace(key: string) returns (workspace: EventWorkspace)
      requires Valid()
      modifies this`workspaces, workspaces.Values`holders
      ensures Valid()
      ensures if key in old(workspaces)
              then workspaces == old(workspaces) && workspace == workspaces[key]
                   && workspace.holders == old(workspaces[key].holders) + 1
              else fresh(workspace) && workspace.holders == 1 && workspace.Counted() == UNCOUNTED.day
                   && workspaces == old(workspaces)[key := workspace]
      ensures forall w :: w in old(workspaces.Values) && w != workspace ==> w.holders == old(w.holders)
    {
      if key !in workspaces {
        var made := new EventWorkspace();
        workspaces := workspaces[key := made];
      }
      workspace := workspaces[key];
      workspace.holders := workspace.holders + 1;
    }

    /** Holds a source's and its workspace's state, made when missing or swept. State
        that is held is never dropped or replaced, and no other state is touched. */
    method Enter(workspaceId: string, connectorId: string, now: int) returns (source: EventSource, workspace: EventWorkspace)
      requires Valid()
      modifies this`sources, this`workspaces, this`swept, sources.Values`holders, workspaces.Values`holders
      ensures Valid()
      ensures var key := workspaceId + "/" + connectorId;
              && key in sources && sources[key] == source
              && (if fresh(source) then source.holders == 1 else key in old(sources) && source == old(sources)[key])
              && forall k :: k in old(sources) && !old(sources[k].Idle(now)) ==> k in sources && sources[k] == old(sources)[k]
      ensures !fresh(source) ==> source.holders == old(source.holders) + 1
      ensures forall k :: k in sources && k != workspaceId + "/" + connectorId ==>
                k in old(sources) && sources[k] == old(sources)[k]
      ensures workspaceId in workspaces && workspaces[workspaceId] == workspace
      ensures if fresh(workspace) then workspace.holders == 1 && workspace.Counted() == UNCOUNTED.day
              else workspaceId in old(workspaces) && workspace == old(workspaces)[workspaceId]
      ensures forall k :: k in old(workspaces) && !old(workspaces[k].Idle(now)) ==>
                k in workspaces && workspaces[k] == old(workspaces)[k]
      ensures !fresh(workspace) ==> workspace.holders == old(workspace.holders) + 1
      ensures forall s :: s in old(sources.Values) && s != source ==> s.holders == old(s.holders)
      ensures forall w :: w in old(workspaces.Values) && w != workspace ==> w.holders == old(w.holders)
    {
      Sweep(now);
      source := HoldSource(workspaceId + "/" + connectorId);
      workspace := HoldWorkspace(workspaceId);
    }

    /** Lets go of both; the state idles from when its last holder left. */
    method Leave(source: EventSource, workspace: EventWorkspace, now: int)
      requires source.holders > 0 && workspace.holders > 0
      modifies source`holders, source`idleSince, workspace`holders, workspace`idleSince
      ensures source.holders == old(source.holders) - 1 && source.idleSince == now
      ensures workspace.holders == old(workspace.holders) - 1 && workspace.idleSince == now
    {
      source.holders, source.idleSince := source.holders - 1, now;
      workspace.holders, workspace.idleSince := workspace.holders - 1, now;
    }

    /** A send's token of each bucket and its share of the workspace's day, or a
        refusal, which gives back what the send had taken. sourceOk and workspaceOk
        say whether each bucket has a token; totals are the day's batches, or None
        when they cannot be read. */
    method Limit(source: EventSource, workspace: EventWorkspace, now: int, share: Totals, sourceOk: bool, workspaceOk: bool,
                 totals: Option<Totals>, ghost id: nat)
      returns (reserved: Reserved)
      modifies source`taken, workspace`taken, workspace`day, workspace`pieces, workspace`bytes, workspace`seed, workspace`kept
      ensures reserved.Granted? ==>
                && sourceOk && workspaceOk && (totals.Some? || old(workspace.day) == Some(DayOf(now)))
                && source.taken == old(source.taken) + 1 && workspace.taken == old(workspace.taken) + 1
                && reserved.hold == Hold(DayOf(now), share)
                && var d := Seeded(old(workspace.Counted()), now, if totals.Some? then totals.value else Totals(0, 0));
                   Fits(d, share, caps) && workspace.Counted() == Added(d, id, share)
      ensures !reserved.Granted? ==> source.taken == old(source.taken) && workspace.taken == old(workspace.taken)
      ensures reserved.OverCap? ==>
                var d := Seeded(old(workspace.Counted()), now, if totals.Some? then totals.value else Totals(0, 0));
                !Fits(d, share, caps) && workspace.Counted() == d
      ensures reserved.RateLimited? <==> !sourceOk || !workspaceOk
      ensures reserved.RateLimited? || reserved.Unreadable? ==> workspace.Counted() == old(workspace.Counted())
    {
      source.taken := source.taken + 1;
      if !sourceOk {
        source.taken := source.taken - 1;
        return RateLimited;
      }
      workspace.taken := workspace.taken + 1;
      if !workspaceOk {
        workspace.taken := workspace.taken - 1;
        source.taken := source.taken - 1;
        return RateLimited;
      }
      var today := DayOf(now);
      if workspace.day != Some(today) {
        if totals.None? {
          workspace.taken := workspace.taken - 1;
          source.taken := source.taken - 1;
          return Unreadable;
        }
        workspace.day, workspace.pieces, workspace.bytes := Some(today), totals.value.pieces, totals.value.bytes;
        workspace.seed, workspace.kept := totals.value, map[];
      }
      if workspace.pieces + share.pieces > caps.pieces || workspace.bytes + share.bytes > caps.bytes {
        workspace.taken := workspace.taken - 1;
        source.taken := source.taken - 1;
        return OverCap;
      }
      workspace.pieces := workspace.pieces + share.pieces;
      workspace.bytes := workspace.bytes + share.bytes;
      workspace.kept := workspace.kept[id := share];
      return Granted(Hold(today, share));
    }

    /** Gives back the hold of a send that stored nothing. */
    method GiveBack(source: EventSource, workspace: EventWorkspace, hold: Hold, ghost id: nat)
      requires source.taken > 0 && workspace.taken > 0
      modifies source`taken, workspace`taken, workspace`pieces, workspace`bytes, workspace`kept
      ensures source.taken == old(source.taken) - 1 && workspace.taken == old(workspace.taken) - 1
      ensures workspace.Counted() == Released(old(workspace.Counted()), id, hold)
    {
      source.taken := source.taken - 1;
      workspace.taken := workspace.taken - 1;
      if workspace.day == Some(hold.day) {
        workspace.pieces := workspace.pieces - hold.share.pieces;
        workspace.bytes := workspace.bytes - hold.share.bytes;
        workspace.kept := workspace.kept - {id};
      }
    }
  }
}
