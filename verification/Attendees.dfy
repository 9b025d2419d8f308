/** The change read of Google calendar events, connector/google_changes.go: each
    copy of an event takes its attendees' rows from the ones it had, against a
    writer whose last write to a key wins and whose DeleteWhere removes only rows
    the table held before the read. */
module Attendees {
  import opened Options

  datatype Key = Key(event: string, email: string)

  datatype Person = Person(key: Key, response: string)

  type Table = map<Key, Person>

  // ---------------------------------------------------------------- The writer

  datatype Op = Upsert(row: Person) | Delete(key: Key) | DeleteWhere(event: string)

  /** The last change to each key: a row, or None for a delete. */
  function LastOf(ops: seq<Op>): map<Key, Option<Person>> {
    if ops == [] then map[]
    else
      var before := LastOf(ops[..|ops| - 1]);
      match ops[|ops| - 1]
      case Upsert(row) => before[row.key := Some(row)]
      case Delete(key) => before[key := None]
      case DeleteWhere(_) => before
  }

  function WhereOf(ops: seq<Op>): set<string> {
    if ops == [] then {}
    else
      var before := WhereOf(ops[..|ops| - 1]);
      if ops[|ops| - 1].DeleteWhere? then before + {ops[|ops| - 1].event} else before
  }

  /** The row a table holds at a key once the changes are merged. */
  function MergedAt(prev: Table, ops: seq<Op>, key: Key): Option<Person> {
    if key in LastOf(ops) then LastOf(ops)[key]
    else if key in prev && key.event !in WhereOf(ops) then Some(prev[key])
    else None
  }

  /** The table once the syncer merges a change set into it. */
  function Merged(prev: Table, ops: seq<Op>): Table {
    map key | key in prev.Keys + LastOf(ops).Keys && MergedAt(prev, ops, key).Some? :: MergedAt(prev, ops, key).value
  }

  class ChangeWriter {
    var ops: seq<Op>

    constructor ()
      ensures ops == []
    {
      ops := [];
    }

    method Write(op: Op)
      modifies this`ops
      ensures ops == old(ops) + [op]
    {
      ops := ops + [op];
    }
  }

  // ---------------------------------------------------------------- Copies of events

  /** A copy of an event, as a calendar's changes list it. */
  datatype Copy = Cancelled(event: string) | Outside(event: string) | InWindow(event: string, people: seq<Person>)

  /** The event's own rows, one for an email. */
  predicate Invites(event: string, people: seq<Person>) {
    && (forall i :: 0 <= i < |people| ==> people[i].key.event == event)
    && forall i, j :: 0 <= i < j < |people| ==> people[i].key != people[j].key
  }

  predicate WellFormed(copy: Copy) {
    copy.InWindow? ==> Invites(copy.event, copy.people)
  }

  /** What an event lists of one attendee. */
  datatype Attendee = Attendee(email: string, resource: bool, response: string)

  /** The first attendee of this email that is a person. */
  predicate IsFirst(attendees: seq<Attendee>, k: nat, email: string)
    requires k < |attendees|
  {
    && email != "" && attendees[k].email == email && !attendees[k].resource
    && forall j :: 0 <= j < k && attendees[j].email == email ==> attendees[j].resource
  }

  /** Each person an event invites, once by email, as the first of it says, no room or
      other resource. */
  method PeopleOf(event: string, attendees: seq<Attendee>) returns (people: seq<Person>)
    ensures Invites(event, people)
    ensures forall a :: a in attendees && a.email != "" && !a.resource ==>
              exists p :: p in people && p.key == Key(event, a.email)
    ensures forall p :: p in people ==> exists k: nat :: k < |attendees| && IsFirst(attendees, k, p.key.email)
                                                       && attendees[k].response == p.response
  {
    people := [];
    var seen: set<string> := {};
    for i := 0 to |attendees|
      invariant Invites(event, people)
      invariant forall p :: p in people ==> p.key.email in seen
      invariant forall email :: email in seen ==> exists p :: p in people && p.key == Key(event, email)
      invariant forall k :: 0 <= k < i && attendees[k].email != "" && !attendees[k].resource ==> attendees[k].email in seen
      invariant forall p :: p in people ==> exists k: nat :: k < |attendees| && IsFirst(attendees, k, p.key.email)
                                                           && attendees[k].response == p.response
    {
      var a := attendees[i];
      if a.email == "" || a.resource || a.email in seen {
        continue;
      }
      assert IsFirst(attendees, i, a.email);
      seen := seen + {a.email};
      var person := Person(Key(event, a.email), a.response);
      assert forall k :: 0 <= k < |people| ==> people[k] in people;
      assert person in people + [person];
      people := people + [person];
    }
  }

  /** The table after one copy, applied at once: a cancelled event has no attendees,
      one in the window exactly its people, and one outside it is left as it is. */
  function Applied(table: Table, copy: Copy): Table {
    match copy
    case Outside(_) => table
    case Cancelled(event) => map key | key in table && key.event != event :: table[key]
    case InWindow(event, people) =>
      (map key | key in table && key.event != event :: table[key]) + RowsOf(people)
  }

  function RowsOf(people: seq<Person>): Table {
    if people == [] then map[] else RowsOf(people[..|people| - 1])[people[|people| - 1].key := people[|people| - 1]]
  }

  function AppliedAll(table: Table, copies: seq<Copy>): Table {
    if copies == [] then table else Applied(AppliedAll(table, copies[..|copies| - 1]), copies[|copies| - 1])
  }

  // ---------------------------------------------------------------- Writing a copy's changes

  /** wrote holds the key of every row this read wrote of an event and has not taken
      back, and an event not yet written about has neither. */
  ghost predicate Tracks(wrote: map<string, seq<Key>>, ops: seq<Op>) {
    && (forall key :: key in LastOf(ops) && LastOf(ops)[key].Some? ==> key.event in wrote && key in wrote[key.event])
    && (forall key :: key in LastOf(ops) ==> key.event in WhereOf(ops))
    && forall event :: event in wrote ==> event in WhereOf(ops) && forall key :: key in wrote[event] ==> key.event == event
  }

  lemma Step(ops: seq<Op>, op: Op)
    ensures LastOf(ops + [op]) == (match op
                                   case Upsert(row) => LastOf(ops)[row.key := Some(row)]
                                   case Delete(key) => LastOf(ops)[key := None]
                                   case DeleteWhere(_) => LastOf(ops))
    ensures WhereOf(ops + [op]) == WhereOf(ops) + if op.DeleteWhere? then {op.event} else {}
  {
    assert (ops + [op])[..|ops|] == ops;
  }

  /** No row of the event is left to write, and no other key's last change moved. */
  ghost predicate TookBack(before: seq<Op>, ops: seq<Op>, event: string) {
    && WhereOf(ops) == WhereOf(before) + {event}
    && (forall key: Key :: key.event != event ==>
          (key in LastOf(ops) <==> key in LastOf(before))
          && (key in LastOf(ops) ==> LastOf(ops)[key] == LastOf(before)[key]))
    && forall key :: key in LastOf(ops) && key.event == event ==> LastOf(ops)[key] == None
  }

  /** Takes back an event's rows: those the table held, and those this read wrote. */
  method TakeBack(w: ChangeWriter, event: string, wrote: map<string, seq<Key>>)
    requires Tracks(wrote, w.ops)
    modifies w`ops
    ensures TookBack(old(w.ops), w.ops, event)
  {
    hide LastOf, WhereOf;
    ghost var before := w.ops;
    Step(w.ops, DeleteWhere(event));
    w.Write(DeleteWhere(event));
    var keys := if event in wrote then wrote[event] else [];
    for i := 0 to |keys|
      invariant WhereOf(w.ops) == WhereOf(before) + {event}
      invariant forall key: Key :: key.event != event ==>
                  (key in LastOf(w.ops) <==> key in LastOf(before))
                  && (key in LastOf(w.ops) ==> LastOf(w.ops)[key] == LastOf(before)[key])
      invariant forall key :: key in LastOf(w.ops) && key.event == event ==>
                  LastOf(w.ops)[key] == None || key in keys[i..]
    {
      assert keys[i] in keys;
      Step(w.ops, Delete(keys[i]));
      w.Write(Delete(keys[i]));
      assert keys[i..] == [keys[i]] + keys[i + 1..];
    }
  }

  /** The attendees of a cancelled event go. */
  method EventGone(w: ChangeWriter, event: string, wrote: map<string, seq<Key>>, ghost prev: Table)
    returns (after: map<string, seq<Key>>)
    requires Tracks(wrote, w.ops)
    modifies w`ops
    ensures Tracks(after, w.ops) && Merged(prev, w.ops) == Applied(Merged(prev, old(w.ops)), Cancelled(event))
  {
    hide LastOf, WhereOf, Merged, Applied;
    ghost var before := w.ops;
    TakeBack(w, event, wrote);
    after := wrote - {event};
    TakenBack(prev, before, w.ops, event);
    TracksTaken(wrote, before, w.ops, event);
  }

  lemma TracksTaken(wrote: map<string, seq<Key>>, before: seq<Op>, ops: seq<Op>, event: string)
    requires Tracks(wrote, before) && TookBack(before, ops, event)
    ensures Tracks(wrote - {event}, ops) && Tracks(wrote[event := []], ops)
  {
    hide LastOf, WhereOf;
  }

  lemma TracksUpsert(wrote: map<string, seq<Key>>, ops: seq<Op>, event: string, row: Person)
    requires Tracks(wrote, ops) && event in wrote && event in WhereOf(ops) && row.key.event == event
    ensures Tracks(wrote[event := wrote[event] + [row.key]], ops + [Upsert(row)])
    ensures WhereOf(ops + [Upsert(row)]) == WhereOf(ops)
  {
    Step(ops, Upsert(row));
    hide LastOf, WhereOf;
  }

  /** After taking an event's rows back, none is left and no other row changed. */
  lemma TakenBack(prev: Table, before: seq<Op>, ops: seq<Op>, event: string)
    requires TookBack(before, ops, event)
    ensures Merged(prev, ops) == Applied(Merged(prev, before), Cancelled(event))
  {
    hide LastOf, WhereOf;
    forall key
      ensures MergedAt(prev, ops, key) == if key.event == event then None else MergedAt(prev, before, key)
    {
    }
  }

  /** The attendees of a changed event, in place of the ones it had. */
  method EventChanged(w: ChangeWriter, event: string, people: seq<Person>, wrote: map<string, seq<Key>>, ghost prev: Table)
    returns (after: map<string, seq<Key>>)
    requires Tracks(wrote, w.ops) && Invites(event, people)
    modifies w`ops
    ensures Tracks(after, w.ops) && Merged(prev, w.ops) == Applied(Merged(prev, old(w.ops)), InWindow(event, people))
  {
    hide LastOf, WhereOf, RowsOf, Merged, Applied, Tracks;
    ghost var before := w.ops;
    TakeBack(w, event, wrote);
    TakenBack(prev, before, w.ops, event);
    TracksTaken(wrote, before, w.ops, event);
    after := wrote[event := []];
    NoRows(Merged(prev, w.ops));
    for i := 0 to |people|
      invariant Tracks(after, w.ops)
      invariant Merged(prev, w.ops) == Applied(Merged(prev, before), Cancelled(event)) + RowsOf(people[..i])
      invariant event in after && event in WhereOf(w.ops)
    {
      assert people[..i + 1][..i] == people[..i];
      UpsertOne(prev, w.ops, people[i]);
      RowsNext(people, i);
      TracksUpsert(after, w.ops, event, people[i]);
      w.Write(Upsert(people[i]));
      after := after[event := after[event] + [people[i].key]];
    }
    assert people[..|people|] == people;
    Replaced(Merged(prev, before), event, people);
  }

  lemma NoRows(table: Table)
    ensures RowsOf([]) == map[] && table + map[] == table
  {
  }

  lemma RowsNext(people: seq<Person>, i: nat)
    requires i < |people|
    ensures RowsOf(people[..i + 1]) == RowsOf(people[..i])[people[i].key := people[i]]
  {
    assert people[..i + 1][..i] == people[..i];
  }

  lemma UpsertOne(prev: Table, ops: seq<Op>, row: Person)
    ensures Merged(prev, ops + [Upsert(row)]) == Merged(prev, ops)[row.key := row]
  {
    hide LastOf, WhereOf;
    Step(ops, Upsert(row));
  }

  lemma Replaced(table: Table, event: string, people: seq<Person>)
    ensures Applied(table, Cancelled(event)) + RowsOf(people) == Applied(table, InWindow(event, people))
  {
  }

  /** The change read's copies in order, each calendar's as it lists them: what its
      writer merges is each copy applied at once, whatever the table held before. */
  method EventChanges(w: ChangeWriter, copies: seq<Copy>, ghost prev: Table)
    requires w.ops == [] && forall i :: 0 <= i < |copies| ==> WellFormed(copies[i])
    modifies w`ops
    ensures Merged(prev, w.ops) == AppliedAll(prev, copies)
  {
    hide LastOf, WhereOf, Applied, Merged, Invites;
    var wrote: map<string, seq<Key>> := map[];
    NoChanges(prev);
    for i := 0 to |copies|
      invariant Tracks(wrote, w.ops) && Merged(prev, w.ops) == AppliedAll(prev, copies[..i])
    {
      assert copies[..i + 1][..i] == copies[..i];
      match copies[i]
      case Cancelled(event) =>
        wrote := EventGone(w, event, wrote, prev);
      case Outside(event) =>
        LeftAlone(Merged(prev, w.ops), event);
      case InWindow(event, people) =>
        wrote := EventChanged(w, event, people, wrote, prev);
    }
    assert copies[..|copies|] == copies;
  }

  lemma NoChanges(prev: Table)
    ensures Merged(prev, []) == prev && Tracks(map[], [])
  {
  }

  lemma LeftAlone(table: Table, event: string)
    ensures Applied(table, Outside(event)) == table
  {
  }

  // ---------------------------------------------------------------- What it leaves

  function Attending(table: Table, event: string): Table {
    map key | key in table && key.event == event :: table[key]
  }

  /** The last copy of the event that says anything of its attendees. */
  function LastRelevant(copies: seq<Copy>, event: string): Option<Copy> {
    if copies == [] then None
    else if copies[|copies| - 1].event == event && !copies[|copies| - 1].Outside? then Some(copies[|copies| - 1])
    else LastRelevant(copies[..|copies| - 1], event)
  }

  /** However many copies of an event a read lists, in whatever order among others:
      its attendees end as those of its last copy in the window, none if its last
      relevant copy is cancelled, and as they were if it has none. */
  lemma {:induction false} LastCopyDecides(prev: Table, copies: seq<Copy>, event: string)
    requires forall i :: 0 <= i < |copies| ==> WellFormed(copies[i])
    ensures Attending(AppliedAll(prev, copies), event)
            == match LastRelevant(copies, event)
               case None => Attending(prev, event)
               case Some(Cancelled(_)) => map[]
               case Some(InWindow(_, people)) => RowsOf(people)
               case Some(Outside(_)) => map[]
  {
    hide RowsOf, Attending, Applied;
    if copies != [] {
      var n := |copies| - 1;
      LastCopyDecides(prev, copies[..n], event);
      AppliedOne(AppliedAll(prev, copies[..n]), copies[n], event);
    }
  }

  lemma AppliedOne(table: Table, copy: Copy, event: string)
    requires WellFormed(copy)
    ensures Attending(Applied(table, copy), event)
            == if copy.event != event || copy.Outside? then Attending(table, event)
               else if copy.Cancelled? then map[] else RowsOf(copy.people)
  {
    hide RowsOf;
    if copy.InWindow? {
      RowsAre(copy.people, copy.event);
    }
  }

  lemma {:induction false} RowsAre(people: seq<Person>, event: string)
    requires Invites(event, people)
    ensures forall key :: key in RowsOf(people) ==> key.event == event && RowsOf(people)[key] in people
    ensures forall p :: p in people ==> p.key in RowsOf(people) && RowsOf(people)[p.key] == p
  {
    if people != [] {
      var n := |people| - 1;
      RowsAre(people[..n], event);
      assert people == people[..n] + [people[n]];
    }
  }
}
