/** The machine on the text of an object answers what the rules do. */
module ScanRuns {
  import opened Options
  import opened JsonText
  import opened Pieces
  import opened ScanRules
  import opened ScanMachine

  // ---------------------------------------------------------------- Values

  /** The state when the pass has read value v, whose text starts at i. */
  function After(st: State, v: Value, i: nat): State
    requires st.stack != []
  {
    var n, top := |st.stack| - 1, st.stack[|st.stack| - 1];
    st.(stack := st.stack[..n] + [if top.isObject then top.(key := true) else top],
        members := if n == 0 then st.members + [Member.Member(st.name, TypeOf(v), Print(v))] else st.members,
        start := if n == 0 then i else st.start)
  }

  /** Refused for a problem, else the pass from i on. */
  ghost function Continue(problem: Option<Problem>, data: string, i: nat, st: State, finite: string -> bool): Outcome
    requires i <= |data|
  {
    if problem.Some? then Refused(problem.value) else Run(data, i, st, finite)
  }

  ghost predicate ExpectsValue(st: State, i: nat) {
    && 1 <= |st.stack| <= MAX_DEPTH
    && st.stack[|st.stack| - 1] != Frame(true, true)
    && st.start <= i
  }

  lemma RunStep(data: string, i: nat, st: State, finite: string -> bool)
    requires i < |data|
    ensures var move := Step(data, i, st, finite);
            && (move.Stop? ==> Run(data, i, st, finite) == Refused(move.problem))
            && (move.Next? ==> Run(data, i, st, finite) == Run(data, move.i, move.st, finite))
  {
  }

  lemma StepText(data: string, i: nat, st: State, units: seq<Unit>, finite: string -> bool)
    requires ValidUnits(units) && At(data, i, Quoted(units)) && ExpectsValue(st, i)
    ensures Step(data, i, st, finite)
            == if LoneAmong(units).Some? then Stop(LoneAmong(units).value)
               else Next(i + |Quoted(units)|, After(st, Text(units), i))
  {
    hide StringEnd, UnitsText, LoneAmong, StringAt, Whole, Quoted;
    StringRead(data, i, units);
    assert data[i..i + |Quoted(units)|] == Quoted(units);
  }

  /** A number, true, false or null. */
  lemma StepLiteral(data: string, i: nat, st: State, v: Value, finite: string -> bool)
    requires v.Numeral? || v.Boolean? || v.Null?
    requires ValidValue(v) && At(data, i, Print(v)) && Delimited(data, i + |Print(v)|) && ExpectsValue(st, i)
    ensures Step(data, i, st, finite)
            == if CheckValue(v, |st.stack|, finite).Some? then Stop(CheckValue(v, |st.stack|, finite).value)
               else Next(i + |Print(v)|, After(st, v, i))
  {
    hide Literal, Print, LiteralEnd, StringEnd, Whole, StringAt, LoneAmong, KeyStep, ValidValue, At, Delimited;
    LiteralRead(data, i, v);
  }

  /** A literal is read up to its separator. */
  lemma LiteralRead(data: string, i: nat, v: Value)
    requires v.Numeral? || v.Boolean? || v.Null?
    requires ValidValue(v) && At(data, i, Print(v)) && Delimited(data, i + |Print(v)|)
    ensures i < |data| && !Separates(data[i]) && KindAt(data[i]) == TypeOf(v)
    ensures LiteralEnd(data, i + 1) == i + |Print(v)|
    ensures data[i..i + |Print(v)|] == Print(v) && (v.Numeral? ==> Print(v) == Literal(v.number))
  {
    PrintsLiteral(v);
    hide Literal, Print, LiteralEnd;
    var literal := Print(v);
    LiteralStarts(v, literal);
    LiteralEndsAfter(data, i, literal);
  }

  lemma LiteralEndsAfter(data: string, i: nat, literal: string)
    requires literal != [] && At(data, i, literal) && Delimited(data, i + |literal|)
    requires forall k :: 0 <= k < |literal| ==> !Separates(literal[k])
    ensures data[i] == literal[0] && LiteralEnd(data, i + 1) == i + |literal|
  {
    hide LiteralEnd, At;
    assert literal == "" + [literal[0]] + literal[1..];
    AtJoin(data, i, "", literal[0], literal[1..]);
    LiteralEnds(data, i + 1, literal[1..]);
  }

  lemma PrintsLiteral(v: Value)
    ensures v.Numeral? ==> Print(v) == Literal(v.number)
  {
  }

  lemma LiteralStarts(v: Value, literal: string)
    requires (v.Numeral? || v.Boolean? || v.Null?) && ValidValue(v) && literal == Print(v)
    ensures literal != [] && KindAt(literal[0]) == TypeOf(v)
    ensures forall k :: 0 <= k < |literal| ==> !Separates(literal[k])
  {
    if v.Numeral? {
      LiteralChars(v.number);
    }
  }

  lemma StepOpen(data: string, i: nat, st: State, kind: FieldType, finite: string -> bool)
    requires kind == FObject || kind == FArray
    requires i < |data| && data[i] == (if kind == FObject then '{' else '[') && ExpectsValue(st, i)
    ensures Step(data, i, st, finite)
            == if |st.stack| == MAX_DEPTH then Stop(TooDeep) else Next(i + 1, Opened(st, kind, i))
  {
  }

  /** The state inside an object or array that starts at i. */
  function Opened(st: State, kind: FieldType, i: nat): State {
    Started(st, kind, i).(stack := st.stack + [Frame(kind == FObject, kind == FObject)])
  }

  lemma StepClose(data: string, i: nat, st: State, v: Value, finite: string -> bool)
    requires v.Object? || v.Array?
    requires At(data, i, Print(v)) && ExpectsValue(st, i)
    requires Closes(data[i + |Print(v)| - 1])
    ensures Step(data, i + |Print(v)| - 1, Opened(st, TypeOf(v), i), finite)
            == Next(i + |Print(v)|, After(st, v, i))
  {
    hide Print, StringEnd, LiteralEnd, ValueStep, KeyStep, Whole;
    Brackets(v);
    var inside := Opened(st, TypeOf(v), i);
    var popped := inside.(stack := inside.stack[..|inside.stack| - 1]);
    assert popped.stack == st.stack;
    assert data[i..i + |Print(v)|] == Print(v);
  }

  lemma Brackets(v: Value)
    ensures v.Object? || v.Array? ==> |Print(v)| >= 2
  {
  }

  lemma {:induction false} RunValue(data: string, i: nat, st: State, v: Value, finite: string -> bool)
    requires ValidValue(v) && At(data, i, Print(v)) && Delimited(data, i + |Print(v)|)
    requires ExpectsValue(st, i)
    ensures Run(data, i, st, finite)
            == Continue(CheckValue(v, |st.stack|, finite), data, i + |Print(v)|, After(st, v, i), finite)
    decreases v, 1
  {
    match v
    case Array(items) =>
      RunArray(data, i, st, v, finite);
    case Object(members) =>
      RunObject(data, i, st, v, finite);
    case _ =>
      RunScalar(data, i, st, v, finite);
  }

  lemma RunScalar(data: string, i: nat, st: State, v: Value, finite: string -> bool)
    requires !v.Array? && !v.Object?
    requires ValidValue(v) && At(data, i, Print(v)) && Delimited(data, i + |Print(v)|)
    requires ExpectsValue(st, i)
    ensures Run(data, i, st, finite)
            == Continue(CheckValue(v, |st.stack|, finite), data, i + |Print(v)|, After(st, v, i), finite)
  {
    hide Run, Step, LoneAmong;
    if v.Text? {
      StepText(data, i, st, v.units, finite);
    } else {
      StepLiteral(data, i, st, v, finite);
    }
    RunStep(data, i, st, finite);
  }

  lemma {:induction false} RunArray(data: string, i: nat, st: State, v: Value, finite: string -> bool)
    requires v.Array? && ValidValue(v) && At(data, i, Print(v)) && ExpectsValue(st, i)
    ensures Run(data, i, st, finite)
            == Continue(CheckValue(v, |st.stack|, finite), data, i + |Print(v)|, After(st, v, i), finite)
    decreases v, 0
  {
    hide Run, Step, PrintItems;
    var inner, last := PrintItems(v.items), i + |Print(v)| - 1;
    assert Print(v) == ['['] + inner + [']'];
    AtJoin(data, i, ['['] + inner, ']', "");
    AtJoin(data, i, "", '[', inner);
    StepOpen(data, i, st, FArray, finite);
    RunStep(data, i, st, finite);
    if |st.stack| < MAX_DEPTH {
      var inside := Opened(st, FArray, i);
      RunWithinArray(data, i + 1, inside, v.items, finite);
      StepClose(data, i, st, v, finite);
      RunStep(data, last, inside, finite);
    }
  }

  lemma {:induction false} RunWithinArray(data: string, i: nat, st: State, items: Items, finite: string -> bool)
    requires ValidItems(items) && At(data, i, PrintItems(items))
    requires i + |PrintItems(items)| < |data| && data[i + |PrintItems(items)|] == ']'
    requires 2 <= |st.stack| <= MAX_DEPTH && st.stack[|st.stack| - 1] == Frame(false, false) && st.start <= i
    ensures Run(data, i, st, finite)
            == Continue(CheckItems(items, |st.stack|, finite), data, i + |PrintItems(items)|, st, finite)
    decreases items, 3
  {
    if items.Item? {
      RunItems(data, i, st, items, finite);
    }
  }

  lemma {:induction false} RunObject(data: string, i: nat, st: State, v: Value, finite: string -> bool)
    requires v.Object? && ValidValue(v) && At(data, i, Print(v)) && ExpectsValue(st, i)
    ensures Run(data, i, st, finite)
            == Continue(CheckValue(v, |st.stack|, finite), data, i + |Print(v)|, After(st, v, i), finite)
    decreases v, 0
  {
    hide Run, Step, PrintMembers;
    var inner, last := PrintMembers(v.members), i + |Print(v)| - 1;
    assert Print(v) == ['{'] + inner + ['}'];
    AtJoin(data, i, ['{'] + inner, '}', "");
    AtJoin(data, i, "", '{', inner);
    StepOpen(data, i, st, FObject, finite);
    RunStep(data, i, st, finite);
    if |st.stack| < MAX_DEPTH {
      var inside := Opened(st, FObject, i);
      RunWithinObject(data, i + 1, inside, v.members, finite);
      StepClose(data, i, st, v, finite);
      RunStep(data, last, inside, finite);
    }
  }

  lemma {:induction false} RunWithinObject(data: string, i: nat, st: State, members: Members, finite: string -> bool)
    requires ValidMembers(members) && At(data, i, PrintMembers(members))
    requires i + |PrintMembers(members)| < |data| && data[i + |PrintMembers(members)|] == '}'
    requires 2 <= |st.stack| <= MAX_DEPTH && st.stack[|st.stack| - 1] == Frame(true, true) && st.start <= i
    ensures Run(data, i, st, finite)
            == Continue(CheckMembers(members, |st.stack|, finite), data, i + |PrintMembers(members)|, st, finite)
    decreases members, 3
  {
    if members.Member? {
      RunMembers(data, i, st, members, finite);
    }
  }

  lemma {:induction false} RunItems(data: string, i: nat, st: State, items: Items, finite: string -> bool)
    requires items.Item? && ValidItems(items) && At(data, i, PrintItems(items))
    requires i + |PrintItems(items)| < |data| && data[i + |PrintItems(items)|] == ']'
    requires 2 <= |st.stack| <= MAX_DEPTH && st.stack[|st.stack| - 1] == Frame(false, false) && st.start <= i
    ensures Run(data, i, st, finite)
            == Continue(CheckItems(items, |st.stack|, finite), data, i + |PrintItems(items)|, st, finite)
    decreases items, 0
  {
    hide Run, Step, Print, PrintItems;
    var Item(head, tail) := items;
    ItemAt(data, i, items);
    var comma := i + |Print(head)|;
    RunValue(data, i, st, head, finite);
    assert After(st, head, i) == st;
    if tail.Item? {
      StepSkip(data, comma, st, finite);
      RunStep(data, comma, st, finite);
      RunItems(data, comma + 1, st, tail, finite);
    }
  }

  /** Where the parts of an array's text are. */
  lemma ItemAt(data: string, i: nat, items: Items)
    requires items.Item? && At(data, i, PrintItems(items))
    requires i + |PrintItems(items)| < |data| && data[i + |PrintItems(items)|] == ']'
    ensures At(data, i, Print(items.head)) && Delimited(data, i + |Print(items.head)|)
    ensures var comma := i + |Print(items.head)|;
            if items.tail.Item? then
              && data[comma] == ','
              && At(data, comma + 1, PrintItems(items.tail))
              && comma + 1 + |PrintItems(items.tail)| == i + |PrintItems(items)|
            else comma == i + |PrintItems(items)|
  {
    if items.tail.Item? {
      AtJoin(data, i, Print(items.head), ',', PrintItems(items.tail));
    }
  }

  lemma {:induction false} RunMembers(data: string, i: nat, st: State, members: Members, finite: string -> bool)
    requires members.Member? && ValidMembers(members) && At(data, i, PrintMembers(members))
    requires i + |PrintMembers(members)| < |data| && data[i + |PrintMembers(members)|] == '}'
    requires 2 <= |st.stack| <= MAX_DEPTH && st.stack[|st.stack| - 1] == Frame(true, true) && st.start <= i
    ensures Run(data, i, st, finite)
            == Continue(CheckMembers(members, |st.stack|, finite), data, i + |PrintMembers(members)|, st, finite)
    decreases members, 0
  {
    hide Run, Step, Print, Quoted, PrintMembers;
    var Member(key, value, tail) := members;
    MemberAt(data, i, members);
    RunMember(data, i, st, key, value, finite);
    var comma := i + |Quoted(key)| + 1 + |Print(value)|;
    if tail.Member? {
      StepSkip(data, comma, st, finite);
      RunStep(data, comma, st, finite);
      RunMembers(data, comma + 1, st, tail, finite);
    }
  }

  /** One member of an object that is not the whole data. */
  lemma {:induction false} RunMember(data: string, i: nat, st: State, key: seq<Unit>, value: Value, finite: string -> bool)
    requires ValidUnits(key) && ValidValue(value)
    requires At(data, i, Quoted(key)) && Delimited(data, i + |Quoted(key)|) && data[i + |Quoted(key)|] == ':'
    requires At(data, i + |Quoted(key)| + 1, Print(value))
    requires Delimited(data, i + |Quoted(key)| + 1 + |Print(value)|)
    requires 2 <= |st.stack| <= MAX_DEPTH && st.stack[|st.stack| - 1] == Frame(true, true) && st.start <= i
    ensures Run(data, i, st, finite)
            == Continue(if LoneAmong(key).Some? then LoneAmong(key) else CheckValue(value, |st.stack|, finite),
                        data, i + |Quoted(key)| + 1 + |Print(value)|, st, finite)
    decreases value, 2
  {
    hide Run, Step, Print, Quoted;
    var colon := i + |Quoted(key)|;
    var keyed := st.(stack := st.stack[..|st.stack| - 1] + [Frame(true, false)]);
    StepNestedKey(data, i, st, key, finite);
    RunStep(data, i, st, finite);
    if LoneAmong(key).None? {
      StepSkip(data, colon, keyed, finite);
      RunStep(data, colon, keyed, finite);
      RunValue(data, colon + 1, keyed, value, finite);
      assert After(keyed, value, colon + 1) == st;
    }
  }

  lemma StepSkip(data: string, i: nat, st: State, finite: string -> bool)
    requires i < |data| && (data[i] == ',' || data[i] == ':') && st.start <= i
    ensures Step(data, i, st, finite) == Next(i + 1, st)
  {
  }

  lemma StepNestedKey(data: string, i: nat, st: State, key: seq<Unit>, finite: string -> bool)
    requires ValidUnits(key) && At(data, i, Quoted(key))
    requires 2 <= |st.stack| && st.stack[|st.stack| - 1] == Frame(true, true) && st.start <= i
    ensures Step(data, i, st, finite)
            == if LoneAmong(key).Some? then Stop(LoneAmong(key).value)
               else Next(i + |Quoted(key)|, st.(stack := st.stack[..|st.stack| - 1] + [Frame(true, false)]))
  {
    hide StringEnd, UnitsText, Quoted, LoneAmong, StringAt, Whole, LiteralEnd, ValueStep;
    StringRead(data, i, key);
  }

  /** Where the parts of the first member's text are. */
  lemma MemberAt(data: string, i: nat, members: Members)
    requires members.Member? && At(data, i, PrintMembers(members))
    requires i + |PrintMembers(members)| < |data| && data[i + |PrintMembers(members)|] == '}'
    ensures At(data, i, Quoted(members.key))
    ensures i + |Quoted(members.key)| < |data| && data[i + |Quoted(members.key)|] == ':'
    ensures At(data, i + |Quoted(members.key)| + 1, Print(members.value))
    ensures var comma := i + |Quoted(members.key)| + 1 + |Print(members.value)|;
            && Delimited(data, comma)
            && if members.tail.Member? then
                 && data[comma] == ','
                 && At(data, comma + 1, PrintMembers(members.tail))
                 && comma + 1 + |PrintMembers(members.tail)| == i + |PrintMembers(members)|
               else comma == i + |PrintMembers(members)|
  {
    hide Quoted, Print, PrintMembers, At;
    var key, value, rest := Quoted(members.key), Print(members.value), RestText(members.tail);
    MembersText(members);
    MemberSplit(data, i, key, value, rest);
    if members.tail.Member? {
      assert rest == "" + [','] + PrintMembers(members.tail);
      AtJoin(data, i + |key| + 1 + |value|, "", ',', PrintMembers(members.tail));
    }
  }

  lemma MemberSplit(data: string, i: nat, key: string, value: string, rest: string)
    requires At(data, i, key + (":" + (value + rest)))
    ensures At(data, i, key) && i + |key| < |data| && data[i + |key|] == ':'
    ensures At(data, i + |key| + 1, value) && At(data, i + |key| + 1 + |value|, rest)
    ensures i + |key| + 1 + |value| + |rest| <= |data|
  {
    hide At;
    AtConcat(data, i, key, ":" + (value + rest));
    assert ":" + (value + rest) == "" + [':'] + (value + rest);
    AtJoin(data, i + |key|, "", ':', value + rest);
    AtConcat(data, i + |key| + 1, value, rest);
  }

  // ---------------------------------------------------------------- The machine on a whole object

  const START := State([], [], {}, "", 0)

  lemma StepTopKey(data: string, i: nat, st: State, key: seq<Unit>, finite: string -> bool)
    requires ValidUnits(key) && At(data, i, Quoted(key)) && st.stack == [Frame(true, true)] && st.start <= i
    ensures Step(data, i, st, finite)
            == if CheckKey(key, st.seen).Some? then Stop(CheckKey(key, st.seen).value)
               else Next(i + |Quoted(key)|,
                         st.(stack := [Frame(true, false)], seen := st.seen + {Decode(key)}, name := Decode(key)))
  {
    hide StringEnd, UnitsText, Quoted, LoneAmong, StringAt, Whole, Decode, KeyRules, LiteralEnd, ValueStep, Units, Ended;
    StringRead(data, i, key);
    assert st.stack[..0] + [Frame(true, false)] == [Frame(true, false)];
  }

  /** One top-level member. */
  lemma RunTopMember(data: string, i: nat, st: State, key: seq<Unit>, value: Value, finite: string -> bool)
    requires ValidUnits(key) && ValidValue(value)
    requires At(data, i, Quoted(key)) && Delimited(data, i + |Quoted(key)|) && data[i + |Quoted(key)|] == ':'
    requires At(data, i + |Quoted(key)| + 1, Print(value))
    requires Delimited(data, i + |Quoted(key)| + 1 + |Print(value)|)
    requires st.stack == [Frame(true, true)] && st.start <= i
    ensures var problem := if CheckKey(key, st.seen).Some? then CheckKey(key, st.seen) else CheckValue(value, 1, finite);
            Run(data, i, st, finite)
            == Continue(problem, data, i + |Quoted(key)| + 1 + |Print(value)|,
                        AfterMember(st, key, value, i + |Quoted(key)| + 1), finite)
  {
    hide Run, Step, Print, Quoted, CheckKey;
    var colon := i + |Quoted(key)|;
    StepTopKey(data, i, st, key, finite);
    RunStep(data, i, st, finite);
    if CheckKey(key, st.seen).None? {
      var keyed := st.(stack := [Frame(true, false)], seen := st.seen + {Decode(key)}, name := Decode(key));
      StepSkip(data, colon, keyed, finite);
      RunStep(data, colon, keyed, finite);
      RunValue(data, colon + 1, keyed, value, finite);
      assert keyed.stack[..0] + [Frame(true, true)] == [Frame(true, true)];
      assert After(keyed, value, colon + 1) == AfterMember(st, key, value, colon + 1);
    }
  }

  /** The state once a top-level member whose value starts at i is read. */
  function AfterMember(st: State, key: seq<Unit>, value: Value, i: nat): State {
    State([Frame(true, true)], st.members + [Member.Member(Decode(key), TypeOf(value), Print(value))],
          st.seen + {Decode(key)}, Decode(key), i)
  }

  lemma {:induction false} RunTop(data: string, i: nat, st: State, members: Members, finite: string -> bool)
    requires ValidMembers(members) && At(data, i, PrintMembers(members))
    requires i + |PrintMembers(members)| + 1 == |data| && data[|data| - 1] == '}'
    requires st.stack == [Frame(true, true)] && st.start <= i
    ensures var problem := CheckTop(members, st.seen, finite);
            Run(data, i, st, finite)
            == if problem.Some? then Refused(problem.value) else Accepted(st.members + MembersOf(members))
    decreases members
  {
    if members.NoMembers? {
      RunClose(data, st, finite);
      assert st.members + [] == st.members;
    } else {
      RunTopFirst(data, i, st, members, finite);
    }
  }

  lemma {:induction false} RunTopFirst(data: string, i: nat, st: State, members: Members, finite: string -> bool)
    requires members.Member? && ValidMembers(members) && At(data, i, PrintMembers(members))
    requires i + |PrintMembers(members)| + 1 == |data| && data[|data| - 1] == '}'
    requires st.stack == [Frame(true, true)] && st.start <= i
    ensures var problem := CheckTop(members, st.seen, finite);
            Run(data, i, st, finite)
            == if problem.Some? then Refused(problem.value) else Accepted(st.members + MembersOf(members))
    decreases members, 0
  {
    hide Run, Step, Print, Quoted, PrintMembers, CheckKey, At, Decode, CheckValue;
    var Member(key, value, tail) := members;
    MemberAt(data, i, members);
    RunTopMember(data, i, st, key, value, finite);
    var colon := i + |Quoted(key)|;
    var comma := colon + 1 + |Print(value)|;
    var after := AfterMember(st, key, value, colon + 1);
    assert after.members + MembersOf(tail) == st.members + MembersOf(members);
    if tail.Member? {
      StepSkip(data, comma, after, finite);
      RunStep(data, comma, after, finite);
      RunTop(data, comma + 1, after, tail, finite);
    } else {
      RunClose(data, after, finite);
      assert after.members == st.members + MembersOf(members) by {
        assert MembersOf(members) == [Member.Member(Decode(key), TypeOf(value), Print(value))] + [];
      }
    }
  }

  /** The brace that ends the text. */
  lemma RunClose(data: string, st: State, finite: string -> bool)
    requires data != [] && data[|data| - 1] == '}' && st.stack == [Frame(true, true)] && st.start < |data|
    ensures Run(data, |data| - 1, st, finite) == Accepted(st.members)
  {
    RunStep(data, |data| - 1, st, finite);
    assert st.stack[..0] == [];
  }

  /** The pass over a compacted object's text answers what the grammar says:
      the first problem in the order of the text, or the members. */
  lemma RunDecides(members: Members, finite: string -> bool)
    requires ValidMembers(members)
    ensures Run(Print(Object(members)), 0, START, finite) == Answer(members, finite)
  {
    ObjectText(members);
    hide PrintMembers, Print, Run, Step, CheckTop;
    var inner, data := PrintMembers(members), Print(Object(members));
    assert At(data, 0, "{" + inner + "}");
    AtJoin(data, 0, "{" + inner, '}', "");
    AtJoin(data, 0, "", '{', inner);
    var inside := START.(stack := [Frame(true, true)]);
    StepStart(data, finite);
    RunStep(data, 0, START, finite);
    RunTop(data, 1, inside, members, finite);
    assert [] + MembersOf(members) == MembersOf(members);
  }

  lemma ObjectText(members: Members)
    ensures Print(Object(members)) == "{" + PrintMembers(members) + "}"
  {
  }

  lemma StepStart(data: string, finite: string -> bool)
    requires data != [] && data[0] == '{'
    ensures Step(data, 0, START, finite) == Next(1, START.(stack := [Frame(true, true)]))
  {
  }
}
