/** mergeSchema and withText of mock/event-pieces.ts: what a source learns of
    its pieces' fields. */
module Schemas {
  import opened Options
  import opened JsonText
  import opened Pieces
  import opened Utf8
  import ScanRules

  /** The fields a source's pieces have carried, each with its type. */
  type Schema = map<string, FieldType>

  datatype Field = Field(name: string, kind: FieldType)

  datatype Merged = Merged(schema: Schema, newFields: seq<Field>) | Refused(refusal: Refusal)

  /** Conflict is a value of one type for a field of another, in piece index
      (from 0); TooManyFields a schema past the cap. */
  datatype Refusal =
    | Conflict(index: nat, name: string, sent: FieldType, held: FieldType)
    | TooManyFields(fields: int, added: int)
    | NotText(name: string, held: FieldType)
    | BadName(problem: ScanRules.KeyProblem)

  /** A schema's fields by byte order of name. */
  function FieldsOf(schema: Schema): (fields: seq<Field>)
    ensures |fields| == |schema|
  {
    var names := SortNames(schema.Keys);
    seq(|names|, i requires 0 <= i < |names| => assert names[i] in names; Field(names[i], schema[names[i]]))
  }

  /** The fields the schema did not have before, each with its type now, by byte order of
      name. */
  ghost predicate AreNew(fields: seq<Field>, before: Schema, after: Schema) {
    && FieldsAscend(fields) && NamesHeld(fields) == after.Keys - before.Keys
    && forall f :: f in fields ==> f.name in after && f.kind == after[f.name]
  }

  predicate FieldsAscend(fields: seq<Field>) {
    forall i, j :: 0 <= i < j < |fields| ==> NameBelow(fields[i].name, fields[j].name)
  }

  function NamesHeld(fields: seq<Field>): set<string> {
    set f | f in fields :: f.name
  }

  lemma NewFields(before: Schema, after: Schema)
    ensures AreNew(FieldsOf(after - before.Keys), before, after)
  {
    hide NameBelow, SortNames, FieldsOf, FieldsAscend, NamesHeld;
    FieldsHeld(after - before.Keys);
  }

  lemma FieldsHeld(schema: Schema)
    ensures FieldsAscend(FieldsOf(schema)) && NamesHeld(FieldsOf(schema)) == schema.Keys
    ensures forall f :: f in FieldsOf(schema) ==> f.name in schema && f.kind == schema[f.name]
  {
    hide NameBelow, SortNames, FieldsOf, FieldsAscend, NamesHeld, Ascending;
    var names := SortNames(schema.Keys);
    FieldNames(schema);
    FieldsFollow(names, FieldsOf(schema));
    assert (set n | n in names) == schema.Keys;
  }

  lemma FieldsFollow(names: seq<string>, fields: seq<Field>)
    requires Ascending(names) && |fields| == |names| && forall i :: 0 <= i < |names| ==> fields[i].name == names[i]
    ensures FieldsAscend(fields) && NamesHeld(fields) == set n | n in names
  {
    hide NameBelow;
    assert forall i :: 0 <= i < |fields| ==> fields[i] in fields;
  }

  lemma FieldNames(schema: Schema)
    ensures var names, fields := SortNames(schema.Keys), FieldsOf(schema);
            && |fields| == |names|
            && forall i :: 0 <= i < |names| ==> names[i] in schema && fields[i] == Field(names[i], schema[names[i]])
  {
    hide SortNames, NameBelow;
    var names := SortNames(schema.Keys);
    assert forall i :: 0 <= i < |names| ==> names[i] in names;
  }

  // ---------------------------------------------------------------- What a send teaches

  /** The non-null types a name has, in the schema and in the members. */
  ghost function TypesOf(schema: Schema, members: seq<Member>, name: string): set<FieldType> {
    (if name in schema && schema[name] != FNull then {schema[name]} else {})
    + (set m | m in members && m.name == name && m.kind != FNull :: m.kind)
  }

  /** No field is sent as two types, nor as one the schema does not hold it as. */
  ghost predicate Agree(schema: Schema, members: seq<Member>) {
    forall name :: OneType(schema, members, name)
  }

  ghost predicate OneType(schema: Schema, members: seq<Member>, name: string) {
    forall s, t :: s in TypesOf(schema, members, name) && t in TypesOf(schema, members, name) ==> s == t
  }

  /** after holds every field of schema and members, each with the one type it
      has, or null while it has none. */
  ghost predicate Learned(schema: Schema, members: seq<Member>, after: Schema) {
    && after.Keys == schema.Keys + (set m | m in members :: m.name)
    && forall name :: name in after ==> Holds(schema, members, name, after[name])
  }

  ghost predicate Holds(schema: Schema, members: seq<Member>, name: string, kind: FieldType) {
    if kind == FNull then TypesOf(schema, members, name) == {} else kind in TypesOf(schema, members, name)
  }

  /** The schema once it has learned one more member. */
  function Learn(schema: Schema, m: Member): Option<Schema> {
    if m.name !in schema then Some(schema[m.name := m.kind])
    else if m.kind == FNull || m.kind == schema[m.name] then Some(schema)
    else if schema[m.name] == FNull then Some(schema[m.name := m.kind])
    else None
  }

  function LearnAll(schema: Schema, members: seq<Member>): Option<Schema> {
    if members == [] then Some(schema)
    else
      var before := LearnAll(schema, members[..|members| - 1]);
      if before.None? then None else Learn(before.value, members[|members| - 1])
  }

  function Flat(pieces: seq<SentPiece>): seq<Member> {
    if pieces == [] then [] else Flat(pieces[..|pieces| - 1]) + pieces[|pieces| - 1].members
  }

  /** What merging a send gives: what its members teach, unless that is a
      conflict or adds fields past the cap. */
  predicate Accepts(schema: Schema, pieces: seq<SentPiece>, maxFields: nat) {
    var after := LearnAll(schema, Flat(pieces));
    after.Some? && (|after.value| == |schema| || |after.value| <= maxFields)
  }

  function After(schema: Schema, pieces: seq<SentPiece>): Schema
    requires LearnAll(schema, Flat(pieces)).Some?
  {
    LearnAll(schema, Flat(pieces)).value
  }

  // ---------------------------------------------------------------- mergeSchema

  /** One piece's members: the schema once it has learned them, or, with clash,
      the schema at the member that does not fit. */
  method LearnPiece(types: Schema, members: seq<Member>) returns (after: Schema, clash: Option<nat>)
    ensures clash.None? ==> LearnAll(types, members) == Some(after)
    ensures clash.Some? ==>
              && clash.value < |members|
              && LearnAll(types, members[..clash.value]) == Some(after)
              && Learn(after, members[clash.value]) == None
  {
    after := types;
    for j := 0 to |members|
      invariant LearnAll(types, members[..j]) == Some(after)
    {
      var f := members[j];
      assert members[..j + 1][..j] == members[..j];
      if f.name !in after {
        after := after[f.name := f.kind];
      } else if f.kind != FNull && f.kind != after[f.name] {
        if after[f.name] != FNull {
          return after, Some(j);
        }
        after := after[f.name := f.kind];
      }
    }
    assert members[..|members|] == members;
    return after, None;
  }

  method MergeSchema(schema: Schema, send: seq<SentPiece>, maxFields: nat) returns (merged: Merged)
    ensures merged.Merged? <==> Accepts(schema, send, maxFields)
    ensures merged.Merged? ==>
              && merged.schema == After(schema, send)
              && AreNew(merged.newFields, schema, merged.schema)
    ensures merged.Refused? ==> merged.refusal.Conflict? || merged.refusal.TooManyFields?
    ensures merged.Refused? && merged.refusal.Conflict? ==> IsConflict(schema, send, merged.refusal)
    ensures merged.Refused? && merged.refusal.TooManyFields? ==>
              && LearnAll(schema, Flat(send)).Some?
              && merged.refusal == TooManyFields(|schema|, |After(schema, send)| - |schema|)
  {
    hide LearnAll, Flat, FieldsOf;
    Nothing(schema, send);
    var types := schema;
    for i := 0 to |send|
      invariant LearnAll(schema, Flat(send[..i])) == Some(types)
    {
      var members := send[i].members;
      FlatNext(send, i);
      var clash;
      ghost var before := types;
      types, clash := LearnPiece(types, members);
      LearnPrefix(schema, Flat(send[..i]), members);
      if clash.Some? {
        var j := clash.value;
        LearnPrefix(schema, Flat(send[..i]), members[..j]);
        ConflictStays(schema, send, i, j, before, types);
        return Refused(Conflict(i, members[j].name, members[j].kind, types[members[j].name]));
      }
    }
    assert send[..|send|] == send;
    FieldsGrow(schema, Flat(send));
    AddedCount(schema, types);
    var added := types.Keys - schema.Keys;
    if added != {} && |types| > maxFields {
      return Refused(TooManyFields(|schema|, |added|));
    }
    NewFields(schema, types);
    return Merged(types, FieldsOf(types - schema.Keys));
  }

  lemma AddedCount(schema: Schema, after: Schema)
    requires schema.Keys <= after.Keys
    ensures |after.Keys - schema.Keys| == |after| - |schema|
    ensures after.Keys - schema.Keys == {} <==> |after| == |schema|
  {
    var added := after.Keys - schema.Keys;
    assert after.Keys == schema.Keys + added;
  }

  lemma Nothing(schema: Schema, send: seq<SentPiece>)
    ensures LearnAll(schema, Flat(send[..0])) == Some(schema)
  {
  }

  lemma FlatNext(send: seq<SentPiece>, i: nat)
    requires i < |send|
    ensures Flat(send[..i + 1]) == Flat(send[..i]) + send[i].members
  {
    assert send[..i + 1][..i] == send[..i];
  }

  lemma {:induction false} FieldsGrow(schema: Schema, members: seq<Member>)
    ensures LearnAll(schema, members).Some? ==> schema.Keys <= LearnAll(schema, members).value.Keys
  {
    if members != [] {
      FieldsGrow(schema, members[..|members| - 1]);
    }
  }

  /** The first member that does not fit what came before it, as a refusal names it. */
  ghost predicate IsConflict(schema: Schema, send: seq<SentPiece>, refusal: Refusal)
    requires refusal.Conflict?
  {
    exists j: nat ::
      && refusal.index < |send| && j < |send[refusal.index].members|
      && var before := LearnAll(schema, Flat(send[..refusal.index]) + send[refusal.index].members[..j]);
      && var f := send[refusal.index].members[j];
      && before.Some? && f.name in before.value
      && refusal == Conflict(refusal.index, f.name, f.kind, before.value[f.name])
      && f.kind != FNull && before.value[f.name] != FNull && f.kind != before.value[f.name]
  }

  lemma ConflictStays(schema: Schema, send: seq<SentPiece>, i: nat, j: nat, before: Schema, held: Schema)
    requires i < |send| && j < |send[i].members|
    requires LearnAll(schema, Flat(send[..i])) == Some(before)
    requires LearnAll(before, send[i].members[..j]) == Some(held) && Learn(held, send[i].members[j]) == None
    ensures LearnAll(schema, Flat(send)) == None
  {
    var members := send[i].members;
    assert members[..j + 1][..j] == members[..j];
    assert LearnAll(before, members[..j + 1]) == None;
    hide LearnAll, Flat;
    assert members == members[..j + 1] + members[j + 1..];
    LearnPrefix(before, members[..j + 1], members[j + 1..]);
    LearnPrefix(schema, Flat(send[..i]), members);
    FlatNext(send, i);
    assert send == send[..i + 1] + send[i + 1..];
    FlatConcat(send[..i + 1], send[i + 1..]);
    LearnPrefix(schema, Flat(send[..i + 1]), Flat(send[i + 1..]));
  }

  lemma {:induction false} LearnPrefix(schema: Schema, a: seq<Member>, b: seq<Member>)
    ensures LearnAll(schema, a) == None ==> LearnAll(schema, a + b) == None
    ensures LearnAll(schema, a).Some? ==> LearnAll(schema, a + b) == LearnAll(LearnAll(schema, a).value, b)
  {
    if b == [] {
      assert a + b == a;
    } else {
      var n := |b| - 1;
      assert (a + b)[..|a| + n] == a + b[..n];
      LearnPrefix(schema, a, b[..n]);
    }
  }

  lemma {:induction false} FlatConcat(a: seq<SentPiece>, b: seq<SentPiece>)
    ensures Flat(a + b) == Flat(a) + Flat(b)
  {
    if b == [] {
      assert a + b == a;
    } else {
      var n := |b| - 1;
      assert (a + b)[..|a| + n] == a + b[..n];
      FlatConcat(a, b[..n]);
    }
  }

  // ---------------------------------------------------------------- What merging means

  /** Learning has no order: it succeeds exactly when no field has two types, and
      then gives each field the one type it has. */
  lemma {:induction false} LearnMeans(schema: Schema, members: seq<Member>)
    ensures LearnAll(schema, members).Some? <==> Agree(schema, members)
    ensures LearnAll(schema, members).Some? ==> Learned(schema, members, LearnAll(schema, members).value)
  {
    if members == [] {
      assert LearnAll(schema, members) == Some(schema);
      forall name
        ensures OneType(schema, members, name)
      {
      }
    } else {
      var n := |members| - 1;
      var before, m := members[..n], members[n];
      assert members == before + [m];
      LearnMeans(schema, before);
      TypesStep(schema, before, m);
      if LearnAll(schema, before).Some? {
        LearnOneMeans(schema, before, LearnAll(schema, before).value, m);
      } else {
        var name :| !OneType(schema, before, name);
        assert !OneType(schema, members, name);
      }
    }
  }

  lemma TypesStep(schema: Schema, before: seq<Member>, m: Member)
    ensures forall name :: TypesOf(schema, before + [m], name)
                           == TypesOf(schema, before, name) + if m.name == name && m.kind != FNull then {m.kind} else {}
  {
  }

  lemma LearnOneMeans(schema: Schema, before: seq<Member>, held: Schema, m: Member)
    requires Agree(schema, before) && Learned(schema, before, held)
    ensures var members := before + [m];
            && (Learn(held, m).Some? <==> Agree(schema, members))
            && (Learn(held, m).Some? ==> Learned(schema, members, Learn(held, m).value))
  {
    var members := before + [m];
    TypesStep(schema, before, m);
    assert m.name !in held ==> TypesOf(schema, before, m.name) == {};
    assert (set x | x in members :: x.name) == (set x | x in before :: x.name) + {m.name};
    hide TypesOf;
    assert OneType(schema, before, m.name);
    if Learn(held, m).None? {
      assert Holds(schema, before, m.name, held[m.name]);
      assert !OneType(schema, members, m.name);
    } else {
      LearnsOne(schema, before, held, m);
    }
  }

  lemma LearnsOne(schema: Schema, before: seq<Member>, held: Schema, m: Member)
    requires Agree(schema, before) && Learned(schema, before, held) && Learn(held, m).Some?
    requires forall name :: TypesOf(schema, before + [m], name)
                            == TypesOf(schema, before, name) + if m.name == name && m.kind != FNull then {m.kind} else {}
    requires m.name !in held ==> TypesOf(schema, before, m.name) == {}
    requires (set x | x in before + [m] :: x.name) == (set x | x in before :: x.name) + {m.name}
    ensures Agree(schema, before + [m]) && Learned(schema, before + [m], Learn(held, m).value)
  {
    hide TypesOf, Holds, OneType;
    var members, after := before + [m], Learn(held, m).value;
    forall name
      ensures OneType(schema, members, name)
      ensures name in after ==> Holds(schema, members, name, after[name])
    {
      assert OneType(schema, before, name);
      assert name in held ==> Holds(schema, before, name, held[name]);
      assert TypesOf(schema, members, name)
          == TypesOf(schema, before, name) + if m.name == name && m.kind != FNull then {m.kind} else {};
      LearnsName(schema, before, held, m, name);
    }
  }

  lemma LearnsName(schema: Schema, before: seq<Member>, held: Schema, m: Member, name: string)
    requires Learn(held, m).Some? && OneType(schema, before, name)
    requires name in held ==> Holds(schema, before, name, held[name])
    requires TypesOf(schema, before + [m], name)
             == TypesOf(schema, before, name) + if m.name == name && m.kind != FNull then {m.kind} else {}
    requires m.name !in held ==> TypesOf(schema, before, m.name) == {}
    ensures OneType(schema, before + [m], name)
    ensures name in Learn(held, m).value ==> Holds(schema, before + [m], name, Learn(held, m).value[name])
  {
    hide TypesOf;
  }

  /** Fields only grow, and a locked type never changes. */
  ghost predicate Extends(later: Schema, earlier: Schema) {
    forall name :: name in earlier ==> name in later && (earlier[name] != FNull ==> later[name] == earlier[name])
  }

  /** Every value is null or has its field's type. */
  ghost predicate Fits(members: seq<Member>, schema: Schema) {
    forall m :: m in members ==> m.name in schema && (m.kind == FNull || m.kind == schema[m.name])
  }

  lemma {:induction false} LearnKeeps(schema: Schema, members: seq<Member>)
    requires LearnAll(schema, members).Some?
    ensures Extends(LearnAll(schema, members).value, schema)
    ensures Fits(members, LearnAll(schema, members).value)
  {
    if members != [] {
      var n := |members| - 1;
      assert members == members[..n] + [members[n]];
      LearnKeeps(schema, members[..n]);
    }
  }

  /** A run of accepted merges, from a source's first send: the schema before
      and after each. */
  ghost predicate AcceptedRun(schemas: seq<Schema>, sends: seq<seq<SentPiece>>, maxFields: nat) {
    && |schemas| == |sends| + 1
    && forall i :: 0 <= i < |sends| ==>
         Accepts(schemas[i], sends[i], maxFields) && schemas[i + 1] == After(schemas[i], sends[i])
  }

  /** Over any run of sends, whatever a send was accepted with fits the schema
      ever after. */
  lemma {:induction false} AcceptedValuesFit(schemas: seq<Schema>, sends: seq<seq<SentPiece>>, maxFields: nat, i: nat, j: nat)
    requires AcceptedRun(schemas, sends, maxFields) && i < j < |schemas|
    ensures Extends(schemas[j], schemas[i]) && Fits(Flat(sends[i]), schemas[j])
    decreases j
  {
    hide LearnAll, Flat;
    LearnKeeps(schemas[j - 1], Flat(sends[j - 1]));
    if i < j - 1 {
      AcceptedValuesFit(schemas, sends, maxFields, i, j - 1);
    }
  }

  /** Merging one send then another is merging them as one, the field cap
      included: accepted together, with one schema. */
  lemma MergeComposes(schema: Schema, a: seq<SentPiece>, b: seq<SentPiece>, maxFields: nat)
    ensures Accepts(schema, a + b, maxFields)
            <==> Accepts(schema, a, maxFields) && Accepts(After(schema, a), b, maxFields)
    ensures Accepts(schema, a + b, maxFields) ==> After(schema, a + b) == After(After(schema, a), b)
  {
    hide LearnAll, Flat;
    FlatConcat(a, b);
    LearnPrefix(schema, Flat(a), Flat(b));
    FieldsGrow(schema, Flat(a));
    if LearnAll(schema, Flat(a)).Some? {
      var middle := LearnAll(schema, Flat(a)).value;
      AddedCount(schema, middle);
      FieldsGrow(middle, Flat(b));
      if LearnAll(middle, Flat(b)).Some? {
        AddedCount(middle, LearnAll(middle, Flat(b)).value);
      }
    }
  }

  /** A send is accepted exactly when no field would have two types, and it adds none or the
      fields with its own are no more than the cap. */
  lemma AcceptsIff(schema: Schema, pieces: seq<SentPiece>, maxFields: nat)
    ensures var sent := set m | m in Flat(pieces) :: m.name;
            Accepts(schema, pieces, maxFields)
            <==> Agree(schema, Flat(pieces)) && (sent <= schema.Keys || |schema.Keys + sent| <= maxFields)
  {
    hide LearnAll, Flat, Agree, Holds;
    LearnMeans(schema, Flat(pieces));
    var sent := set m | m in Flat(pieces) :: m.name;
    assert sent <= schema.Keys <==> schema.Keys + sent == schema.Keys;
    if LearnAll(schema, Flat(pieces)).Some? {
      AddedCount(schema, LearnAll(schema, Flat(pieces)).value);
    }
  }

  // ---------------------------------------------------------------- withText

  datatype Locked = Locked(schema: Schema) | Unlocked(refusal: Refusal)

  /** The schema with name locked as the source's text field. */
  function WithText(schema: Schema, name: string, maxFields: nat): Locked {
    if ScanRules.KeyRules(name).Some? then Unlocked(BadName(ScanRules.KeyRules(name).value))
    else if name in schema && schema[name] == FString then Locked.Locked(schema)
    else if name in schema && schema[name] != FNull then Unlocked(NotText(name, schema[name]))
    else if name !in schema && |schema| >= maxFields then Unlocked(TooManyFields(|schema|, 1))
    else Locked.Locked(schema[name := FString])
  }

  /** A lock takes exactly a legal name of a field that holds strings, or nothing but nulls,
      or, below the cap, is new. */
  lemma LockDecides(schema: Schema, name: string, maxFields: nat)
    ensures WithText(schema, name, maxFields).Locked?
            <==> && ScanRules.LegalKey(name)
                 && if name in schema then schema[name] == FString || schema[name] == FNull else |schema| < maxFields
    ensures WithText(schema, name, maxFields).Locked? ==> WithText(schema, name, maxFields).schema == schema[name := FString]
  {
    hide ScanRules.KeyRules, ScanRules.LegalKey;
    ScanRules.KeyRulesDecide(name);
    if name in schema && schema[name] == FString {
      assert schema[name := FString] == schema;
    }
  }

  /** Locking a text field is what a send of one piece with one string in that
      field teaches, and is accepted exactly when it would be. */
  lemma WithTextIsASend(schema: Schema, name: string, maxFields: nat, piece: SentPiece, value: string)
    requires ScanRules.LegalKey(name) && piece.members == [Member.Member(name, FString, value)]
    ensures WithText(schema, name, maxFields).Locked? <==> Accepts(schema, [piece], maxFields)
    ensures WithText(schema, name, maxFields).Locked? ==>
              WithText(schema, name, maxFields).schema == After(schema, [piece])
  {
    hide LearnAll, Flat, ScanRules.KeyRules, ScanRules.LegalKey;
    ScanRules.KeyRulesDecide(name);
    OneMember(schema, piece);
    if name !in schema {
      AddedCount(schema, schema[name := FString]);
    } else if schema[name] == FNull {
      assert schema[name := FString].Keys == schema.Keys;
    }
  }

  lemma OneMember(schema: Schema, piece: SentPiece)
    requires |piece.members| == 1
    ensures LearnAll(schema, Flat([piece])) == Learn(schema, piece.members[0])
  {
    assert [piece][..0] == [] && Flat([]) == [];
    assert Flat([piece]) == piece.members;
    assert piece.members[..0] == [] && LearnAll(schema, []) == Some(schema);
  }

  // ---------------------------------------------------------------- Names

  /** Each field's name is one a column may have. */
  ghost predicate LegalNames(schema: Schema) {
    forall name :: name in schema ==> ScanRules.LegalKey(name)
  }

  /** Sends whose keys are legal, and locks, only learn legal names. */
  lemma LearnedLegal(schema: Schema, pieces: seq<SentPiece>)
    requires LegalNames(schema) && LearnAll(schema, Flat(pieces)).Some?
    requires forall i :: 0 <= i < |pieces| ==> ScanRules.LegalKeys(ScanRules.Names(pieces[i].members))
    ensures LegalNames(After(schema, pieces))
  {
    hide LearnAll, Flat, ScanRules.LegalKey, ScanRules.LegalKeys, Agree, Holds;
    LearnMeans(schema, Flat(pieces));
    FlatLegal(pieces);
  }

  lemma {:induction false} FlatLegal(pieces: seq<SentPiece>)
    requires forall i :: 0 <= i < |pieces| ==> ScanRules.LegalKeys(ScanRules.Names(pieces[i].members))
    ensures forall m :: m in Flat(pieces) ==> ScanRules.LegalKey(m.name)
  {
    hide ScanRules.LegalKey, ScanRules.LegalKeys, ScanRules.Names;
    if pieces != [] {
      var n := |pieces| - 1;
      FlatLegal(pieces[..n]);
      MembersLegal(pieces[n].members);
    }
  }

  lemma MembersLegal(members: seq<Member>)
    requires ScanRules.LegalKeys(ScanRules.Names(members))
    ensures forall m :: m in members ==> ScanRules.LegalKey(m.name)
  {
    hide ScanRules.LegalKey;
    forall m | m in members
      ensures ScanRules.LegalKey(m.name)
    {
      var i :| 0 <= i < |members| && members[i] == m;
      assert ScanRules.Names(members)[i] == m.name;
    }
  }

  lemma LockIsLegal(schema: Schema, name: string, maxFields: nat)
    requires LegalNames(schema) && WithText(schema, name, maxFields).Locked?
    ensures LegalNames(WithText(schema, name, maxFields).schema)
  {
    hide ScanRules.KeyRules, ScanRules.LegalKey;
    LockDecides(schema, name, maxFields);
  }
}
