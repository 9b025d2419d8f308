/** The one-pass stack machine of scan of mock/event-pieces.ts, and how it reads the
    strings and literals of a text. */
module ScanMachine {
  import opened Options
  import opened JsonText
  import opened Pieces
  import opened ScanRules

  // ---------------------------------------------------------------- The machine

  /** One open object or array; key marks an object expecting a key. */
  datatype Frame = Frame(isObject: bool, key: bool)

  datatype State = State(stack: seq<Frame>, members: seq<Member>, seen: set<string>, name: string, start: nat)

  datatype Move = Broken | Stop(problem: Problem) | Next(i: nat, st: State)

  /** Past the quote that ends the string whose text continues at j. */
  function StringEnd(data: string, j: nat): (end: Option<nat>)
    ensures end.Some? ==> j < end.value <= |data|
    decreases |data| - j
  {
    if j >= |data| then None
    else if data[j] == '"' then Some(j + 1)
    else StringEnd(data, j + if data[j] == '\\' then 2 else 1)
  }

  /** What ends a number, true, false or null: what scan's LITERAL stops at. */
  predicate Separates(c: char) {
    c == ',' || c == ':' || Closes(c)
  }

  predicate Closes(c: char) {
    c == '}' || c == ']'
  }

  /** Where the number, true, false or null at i ends: at the next separator. */
  function LiteralEnd(data: string, i: nat): (end: nat)
    requires i <= |data|
    ensures i <= end <= |data|
    decreases |data| - i
  {
    if i == |data| || Separates(data[i]) then i else LiteralEnd(data, i + 1)
  }

  /** A value of the innermost container, or a top-level member's, has ended. */
  function Ended(st: State, data: string, end: nat): State
    requires st.start <= end <= |data|
    requires |st.stack| == 1 ==> st.members != []
  {
    if st.stack == [] then st
    else
      var top := st.stack[|st.stack| - 1];
      st.(stack := st.stack[..|st.stack| - 1] + [if top.isObject then top.(key := true) else top],
          members := if |st.stack| == 1
                     then st.members[..|st.members| - 1] + [st.members[|st.members| - 1].(value := data[st.start..end])]
                     else st.members)
  }

  /** A value of type kind starts at i; a top-level one starts a member. */
  function Started(st: State, kind: FieldType, i: nat): State {
    if |st.stack| == 1
    then st.(members := st.members + [Member.Member(st.name, kind, "")], start := i)
    else st
  }

  function KindAt(c: char): FieldType {
    if c == '"' then FString
    else if c == '{' then FObject
    else if c == '[' then FArray
    else if c == 't' || c == 'f' then FBoolean
    else if c == 'n' then FNull
    else FNumber
  }

  /** The units of the string data[i..end], its quotes left out. */
  function StringAt(data: string, i: nat, end: nat): seq<Unit>
    requires i + 1 < end <= |data|
  {
    Units(data[i + 1..end - 1])
  }

  ghost predicate Whole(data: string, i: nat, end: nat)
    requires i + 1 < end <= |data|
  {
    ValidUnits(StringAt(data, i, end)) && data[i..end] == Quoted(StringAt(data, i, end))
  }

  /** The branch the pass takes at data[i]. */
  ghost function Step(data: string, i: nat, st: State, finite: string -> bool): (move: Move)
    requires i < |data|
    ensures move.Next? ==> i < move.i <= |data|
  {
    var c := data[i];
    if st.start > i then Broken
    else if c == ',' || c == ':' then Next(i + 1, st)
    else if c == '}' || c == ']' then
      if st.stack == [] then Broken
      else
        var popped := st.(stack := st.stack[..|st.stack| - 1]);
        if |popped.stack| == 1 && popped.members == [] then Broken
        else Next(i + 1, Ended(popped, data, i + 1))
    else if c == '"' && st.stack != [] && st.stack[|st.stack| - 1] == Frame(true, true) then
      KeyStep(data, i, st)
    else ValueStep(data, i, st, finite)
  }

  ghost function KeyStep(data: string, i: nat, st: State): (move: Move)
    requires i < |data| && data[i] == '"' && st.stack != []
    ensures move.Next? ==> i < move.i <= |data|
  {
    var at := StringEnd(data, i + 1);
    if at == None || !Whole(data, i, at.value) then Broken
    else
      var key := StringAt(data, i, at.value);
      if LoneAmong(key).Some? then Stop(LoneAmong(key).value)
      else
        var keyed := st.(stack := st.stack[..|st.stack| - 1] + [Frame(true, false)]);
        if |st.stack| > 1 then Next(at.value, keyed)
        else
          var name := Decode(key);
          if KeyRules(name).Some? then Stop(BadKey(name, KeyRules(name).value))
          else if name in st.seen then Stop(KeyTwice(name))
          else Next(at.value, keyed.(seen := st.seen + {name}, name := name))
  }

  ghost function ValueStep(data: string, i: nat, st: State, finite: string -> bool): (move: Move)
    requires st.start <= i < |data| && !Separates(data[i])
    ensures move.Next? ==> i < move.i <= |data|
  {
    var c := data[i];
    var kind := KindAt(c);
    var begun := Started(st, kind, i);
    if kind == FObject || kind == FArray then
      if |st.stack| == MAX_DEPTH then Stop(TooDeep)
      else Next(i + 1, begun.(stack := st.stack + [Frame(kind == FObject, kind == FObject)]))
    else
      var at := if kind == FString then StringEnd(data, i + 1) else Some(LiteralEnd(data, i + 1));
      if at == None || (kind == FString && !Whole(data, i, at.value)) then Broken
      else if kind == FString && LoneAmong(StringAt(data, i, at.value)).Some? then
        Stop(LoneAmong(StringAt(data, i, at.value)).value)
      else if kind == FNumber && !finite(data[i..at.value]) then Stop(NotFinite(data[i..at.value]))
      else Next(at.value, Ended(begun, data, at.value))
  }

  ghost function Run(data: string, i: nat, st: State, finite: string -> bool): Outcome
    requires i <= |data|
    decreases |data| - i
  {
    if i == |data| then Accepted(st.members)
    else match Step(data, i, st, finite)
      case Broken => Stuck
      case Stop(problem) => Refused(problem)
      case Next(j, next) => Run(data, j, next, finite)
  }

  // ---------------------------------------------------------------- The machine on the text of a value

  /** data holds s at i. */
  predicate At(data: string, i: nat, s: string) {
    i + |s| <= |data| && data[i..i + |s|] == s
  }

  lemma AtConcat(data: string, i: nat, a: string, b: string)
    requires At(data, i, a + b)
    ensures At(data, i, a) && At(data, i + |a|, b) && i + |a| + |b| <= |data|
  {
    assert data[i..i + |a|] == (a + b)[..|a|];
    assert data[i + |a|..i + |a| + |b|] == (a + b)[|a|..];
  }

  /** a, then c, then b. */
  lemma AtJoin(data: string, i: nat, a: string, c: char, b: string)
    requires At(data, i, a + [c] + b)
    ensures i + |a| + 1 + |b| <= |data|
    ensures At(data, i, a) && data[i + |a|] == c && At(data, i + |a| + 1, b)
  {
    AtConcat(data, i, a + [c], b);
    AtConcat(data, i, a, [c]);
    assert data[i + |a|] == data[i + |a|..i + |a| + 1][0];
  }

  lemma SkipUnit(data: string, j: nat, unit: Unit)
    requires ValidUnit(unit) && At(data, j, UnitText(unit))
    ensures StringEnd(data, j) == StringEnd(data, j + |UnitText(unit)|)
  {
    var text := UnitText(unit);
    assert data[j] == data[j..j + |text|][0] == text[0];
    if unit.Hex? {
      assert At(data, j, "\\u" + unit.digits);
      AtConcat(data, j, "\\u", unit.digits);
      SkipDigits(data, j + 2, unit.digits);
    }
  }

  lemma {:induction false} SkipDigits(data: string, j: nat, digits: string)
    requires At(data, j, digits) && forall k :: 0 <= k < |digits| ==> IsHex(digits[k])
    ensures StringEnd(data, j) == StringEnd(data, j + |digits|)
    decreases |digits|
  {
    if digits != [] {
      assert data[j] == data[j..j + |digits|][0];
      assert data[j + 1..j + |digits|] == digits[1..];
      SkipDigits(data, j + 1, digits[1..]);
    }
  }

  lemma {:induction false} StringEnds(data: string, j: nat, units: seq<Unit>)
    requires ValidUnits(units) && At(data, j, UnitsText(units))
    requires j + |UnitsText(units)| < |data| && data[j + |UnitsText(units)|] == '"'
    ensures StringEnd(data, j) == Some(j + |UnitsText(units)| + 1)
    decreases |units|
  {
    hide At, UnitText;
    if units != [] {
      AtConcat(data, j, UnitText(units[0]), UnitsText(units[1..]));
      SkipUnit(data, j, units[0]);
      StringEnds(data, j + |UnitText(units[0])|, units[1..]);
    }
  }

  /** Where the parts of text in quotes are. */
  lemma QuotedAt(data: string, i: nat, inner: string)
    requires At(data, i, "\"" + inner + "\"")
    ensures data[i] == '"' && At(data, i + 1, inner)
    ensures data[i + 1 + |inner|] == '"'
  {
    AtJoin(data, i, "", '"', inner + "\"");
    AtConcat(data, i + 1, inner, "\"");
    assert data[i + 1 + |inner|] == data[i + 1 + |inner|..i + 1 + |inner| + 1][0];
  }

  /** A string is read whole, as the units it was written with. */
  lemma StringRead(data: string, i: nat, units: seq<Unit>)
    requires ValidUnits(units) && At(data, i, Quoted(units))
    ensures data[i] == '"'
    ensures StringEnd(data, i + 1) == Some(i + |Quoted(units)|)
    ensures StringAt(data, i, i + |Quoted(units)|) == units && Whole(data, i, i + |Quoted(units)|)
  {
    hide UnitsText, Units, StringEnd;
    var inner := UnitsText(units);
    QuotedAt(data, i, inner);
    StringEnds(data, i + 1, units);
    UnitsOfText(units);
  }

  lemma {:induction false} LiteralEnds(data: string, i: nat, literal: string)
    requires At(data, i, literal) && i + |literal| < |data| && Separates(data[i + |literal|])
    requires forall k :: 0 <= k < |literal| ==> !Separates(literal[k])
    ensures LiteralEnd(data, i) == i + |literal|
    decreases |literal|
  {
    if literal != [] {
      assert data[i] == data[i..i + |literal|][0];
      assert data[i + 1..i + |literal|] == literal[1..];
      LiteralEnds(data, i + 1, literal[1..]);
    }
  }

  lemma LiteralChars(n: Number)
    requires ValidNumber(n)
    ensures Literal(n) != [] && (Literal(n)[0] == '-' || IsDigit(Literal(n)[0]))
    ensures forall k :: 0 <= k < |Literal(n)| ==> !Separates(Literal(n)[k])
  {
    var digit := n.whole[0];
    assert forall i :: 0 < i < |n.fraction| ==> n.fraction[i] == n.fraction[1..][i - 1];
    if n.exponent != [] {
      var k := if IsSign(n.exponent[1]) then 2 else 1;
      assert forall i :: k <= i < |n.exponent| ==> n.exponent[i] == n.exponent[k..][i - k];
    }
  }

  predicate Delimited(data: string, end: nat) {
    end < |data| && Separates(data[end])
  }
}
