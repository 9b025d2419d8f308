/** The rules scan of mock/event-pieces.ts decides: what the engine refuses in a
    piece's data, the rules of its top-level keys, and the members it has. */
module ScanRules {
  import opened Options
  import opened JsonText
  import opened Pieces
  import opened Utf8

  const MAX_DEPTH: nat := 64
  const MAX_KEY_BYTES: nat := 64

  /** What is wrong with a piece's data, as scan finds it. */
  datatype Problem =
    | LoneSurrogate(escape: string)
    | BadKey(key: string, problem: KeyProblem)
    | KeyTwice(key: string)
    | TooDeep
    | NotFinite(literal: string)

  datatype KeyProblem = KeySize | KeyControl | KeyBacktick | KeyReserved

  /** Stuck is text no compacted JSON value holds: an unterminated or malformed
      string, or a bracket with nothing open. */
  datatype Outcome = Stuck | Refused(problem: Problem) | Accepted(members: seq<Member>)

  // ---------------------------------------------------------------- The rules

  /** The first lone surrogate escape among a string's units. */
  function LoneAmong(units: seq<Unit>): Option<Problem> {
    if units == [] then None
    else if IsLow(units[0]) then Some(LoneSurrogate(UnitText(units[0])))
    else if IsHigh(units[0]) then
      if |units| > 1 && IsLow(units[1]) then LoneAmong(units[2..]) else Some(LoneSurrogate(UnitText(units[0])))
    else LoneAmong(units[1..])
  }

  /** The escape at i is the first that is not half of a pair. */
  predicate FirstLone(units: seq<Unit>, i: nat)
    requires i < |units|
  {
    !PairedAt(units, i) && forall k :: 0 <= k < i ==> PairedAt(units, k)
  }

  /** No escape is named exactly when all pair, and otherwise the first that does not. */
  lemma {:induction false} LoneAmongIffPaired(units: seq<Unit>)
    ensures LoneAmong(units) == None <==> Paired(units)
    ensures LoneAmong(units).Some? ==>
              exists i :: 0 <= i < |units| && FirstLone(units, i) && LoneAmong(units) == Some(LoneSurrogate(UnitText(units[i])))
  {
    hide IsHigh, IsLow, UnitText;
    if units == [] {
    } else if IsLow(units[0]) || (IsHigh(units[0]) && (|units| == 1 || !IsLow(units[1]))) {
      assert FirstLone(units, 0);
    } else {
      var k := if IsHigh(units[0]) then 2 else 1;
      var rest := units[k..];
      HighNotLow(units[0]);
      HighNotLow(units[k - 1]);
      LoneAmongIffPaired(rest);
      forall i | 0 <= i < |units|
        ensures PairedAt(units, i) <==> i < k || PairedAt(rest, i - k)
      {
        PairedLater(units, k, i);
      }
      forall i | 0 <= i < |rest|
        ensures PairedAt(rest, i) <==> PairedAt(units, k + i)
      {
      }
      if LoneAmong(rest).Some? {
        var i :| 0 <= i < |rest| && FirstLone(rest, i) && LoneAmong(rest) == Some(LoneSurrogate(UnitText(rest[i])));
        assert FirstLone(units, k + i);
      }
    }
  }

  /** Past a pair, or an escape that is no surrogate, the rest pairs on its own. */
  lemma PairedLater(units: seq<Unit>, k: nat, i: nat)
    requires i < |units| && 1 <= k <= |units|
    requires k == 1 ==> !IsHigh(units[0]) && !IsLow(units[0])
    requires k != 1 ==> k == 2 && IsHigh(units[0]) && IsLow(units[1]) && !IsLow(units[0]) && !IsHigh(units[1])
    ensures PairedAt(units, i) <==> i < k || PairedAt(units[k..], i - k)
  {
    hide IsHigh, IsLow;
  }

  lemma HighNotLow(unit: Unit)
    ensures !(IsHigh(unit) && IsLow(unit))
  {
  }

  /** Go's unicode.IsControl: C0, DEL and C1. */
  predicate IsControl(c: char) {
    c < ' ' || '\U{007F}' <= c <= '\U{009F}'
  }

  function KeyRules(key: string): Option<KeyProblem> {
    if BytesOf(key) < 1 || BytesOf(key) > MAX_KEY_BYTES then Some(KeySize)
    else if exists i :: 0 <= i < |key| && IsControl(key[i]) then Some(KeyControl)
    else if '`' in key then Some(KeyBacktick)
    else if key == "id" || key == "received_at" || key == "occurred_at" then Some(KeyReserved)
    else None
  }

  /** The first problem of a value inside `open` objects and arrays, in the
      order of its text. */
  function CheckValue(v: Value, open: nat, finite: string -> bool): Option<Problem> {
    match v
    case Text(units) => LoneAmong(units)
    case Numeral(n) => if finite(Literal(n)) then None else Some(NotFinite(Literal(n)))
    case Boolean(_) => None
    case Null => None
    case Array(items) => if open == MAX_DEPTH then Some(TooDeep) else CheckItems(items, open + 1, finite)
    case Object(members) => if open == MAX_DEPTH then Some(TooDeep) else CheckMembers(members, open + 1, finite)
  }

  function CheckItems(items: Items, open: nat, finite: string -> bool): Option<Problem> {
    match items
    case NoItems => None
    case Item(head, tail) =>
      var problem := CheckValue(head, open, finite);
      if problem.Some? then problem else CheckItems(tail, open, finite)
  }

  function CheckMembers(members: Members, open: nat, finite: string -> bool): Option<Problem> {
    match members
    case NoMembers => None
    case Member(key, value, tail) =>
      if LoneAmong(key).Some? then LoneAmong(key)
      else
        var problem := CheckValue(value, open, finite);
        if problem.Some? then problem else CheckMembers(tail, open, finite)
  }

  /** The first problem of the top-level members after those named by seen. */
  function CheckTop(members: Members, seen: set<string>, finite: string -> bool): Option<Problem> {
    match members
    case NoMembers => None
    case Member(key, value, tail) =>
      var problem := CheckKey(key, seen);
      if problem.Some? then problem
      else
        var within := CheckValue(value, 1, finite);
        if within.Some? then within else CheckTop(tail, seen + {Decode(key)}, finite)
  }

  function CheckKey(key: seq<Unit>, seen: set<string>): Option<Problem> {
    if LoneAmong(key).Some? then LoneAmong(key)
    else
      var name := Decode(key);
      match KeyRules(name)
      case Some(problem) => Some(BadKey(name, problem))
      case None => if name in seen then Some(KeyTwice(name)) else None
  }

  /** The members in the order written, each value exactly as its text has it. */
  function MembersOf(members: Members): seq<Member> {
    match members
    case NoMembers => []
    case Member(key, value, tail) =>
      [Member.Member(Decode(key), TypeOf(value), Print(value))] + MembersOf(tail)
  }

  /** What the pass must answer for an object. */
  function Answer(members: Members, finite: string -> bool): Outcome {
    match CheckTop(members, {}, finite)
    case Some(problem) => Refused(problem)
    case None => Accepted(MembersOf(members))
  }

  // ---------------------------------------------------------------- What the answer means

  /** Every number of the value is finite. */
  predicate AllFinite(v: Value, finite: string -> bool) {
    match v
    case Numeral(n) => finite(Literal(n))
    case Array(items) => ItemsFinite(items, finite)
    case Object(members) => MembersFinite(members, finite)
    case _ => true
  }

  predicate ItemsFinite(items: Items, finite: string -> bool) {
    items.Item? ==> AllFinite(items.head, finite) && ItemsFinite(items.tail, finite)
  }

  predicate MembersFinite(members: Members, finite: string -> bool) {
    members.Member? ==> AllFinite(members.value, finite) && MembersFinite(members.tail, finite)
  }

  /** Every surrogate escape of the value's strings and keys is half of a pair. */
  predicate AllPaired(v: Value) {
    match v
    case Text(units) => Paired(units)
    case Array(items) => ItemsPaired(items)
    case Object(members) => MembersPaired(members)
    case _ => true
  }

  predicate ItemsPaired(items: Items) {
    items.Item? ==> AllPaired(items.head) && ItemsPaired(items.tail)
  }

  predicate MembersPaired(members: Members) {
    members.Member? ==> Paired(members.key) && AllPaired(members.value) && MembersPaired(members.tail)
  }

  lemma {:induction false} CheckValueMeans(v: Value, open: nat, finite: string -> bool)
    requires open <= MAX_DEPTH
    ensures CheckValue(v, open, finite) == None
            <==> open + Depth(v) <= MAX_DEPTH && AllFinite(v, finite) && AllPaired(v)
  {
    match v
    case Text(units) => LoneAmongIffPaired(units);
    case Array(items) =>
      if open < MAX_DEPTH {
        CheckItemsMeans(items, open + 1, finite);
      }
    case Object(members) =>
      if open < MAX_DEPTH {
        CheckMembersMeans(members, open + 1, finite);
      }
    case _ =>
  }

  lemma {:induction false} CheckItemsMeans(items: Items, open: nat, finite: string -> bool)
    requires open <= MAX_DEPTH
    ensures CheckItems(items, open, finite) == None
            <==> open + ItemsDepth(items) <= MAX_DEPTH && ItemsFinite(items, finite) && ItemsPaired(items)
  {
    if items.Item? {
      CheckValueMeans(items.head, open, finite);
      CheckItemsMeans(items.tail, open, finite);
    }
  }

  lemma {:induction false} CheckMembersMeans(members: Members, open: nat, finite: string -> bool)
    requires open <= MAX_DEPTH
    ensures CheckMembers(members, open, finite) == None
            <==> open + MembersDepth(members) <= MAX_DEPTH && MembersFinite(members, finite) && MembersPaired(members)
  {
    if members.Member? {
      LoneAmongIffPaired(members.key);
      CheckValueMeans(members.value, open, finite);
      CheckMembersMeans(members.tail, open, finite);
    }
  }

  /** The top-level keys, decoded, in the order written. */
  function Keys(members: Members): seq<string> {
    if members.NoMembers? then [] else [Decode(members.key)] + Keys(members.tail)
  }

  /** A key a column may have: 1 to 64 bytes, no control character and no backtick, and not
      one of a row's own columns. */
  predicate LegalKey(key: string) {
    && 1 <= BytesOf(key) <= 64
    && (forall i :: 0 <= i < |key| ==> key[i] >= ' ' && !('\U{007F}' <= key[i] <= '\U{009F}') && key[i] != '`')
    && key != "id" && key != "received_at" && key != "occurred_at"
  }

  predicate LegalKeys(keys: seq<string>) {
    forall i :: 0 <= i < |keys| ==> LegalKey(keys[i])
  }

  predicate HoldsControl(key: string) {
    exists i :: 0 <= i < |key| && (key[i] < ' ' || '\U{007F}' <= key[i] <= '\U{009F}')
  }

  /** The rules of a key take exactly the legal ones, and name the first that one breaks. */
  lemma KeyRulesDecide(key: string)
    ensures KeyRules(key) == None <==> LegalKey(key)
    ensures KeyRules(key) == Some(KeySize) <==> BytesOf(key) < 1 || BytesOf(key) > 64
    ensures KeyRules(key) == Some(KeyControl) <==> 1 <= BytesOf(key) <= 64 && HoldsControl(key)
    ensures KeyRules(key) == Some(KeyBacktick) <==> 1 <= BytesOf(key) <= 64 && !HoldsControl(key) && '`' in key
    ensures KeyRules(key) == Some(KeyReserved) ==> key == "id" || key == "received_at" || key == "occurred_at"
  {
    hide BytesOf;
    assert forall i :: 0 <= i < |key| ==> key[i] in key;
  }

  predicate Distinct(keys: seq<string>) {
    forall i, j :: 0 <= i < j < |keys| ==> keys[i] != keys[j]
  }

  lemma {:induction false} CheckTopMeans(members: Members, seen: set<string>, finite: string -> bool)
    ensures CheckTop(members, seen, finite) == None
            <==> && 1 + MembersDepth(members) <= MAX_DEPTH && MembersFinite(members, finite) && MembersPaired(members)
                 && LegalKeys(Keys(members)) && Distinct(Keys(members))
                 && forall k :: k in Keys(members) ==> k !in seen
  {
    if members.Member? {
      var Member(key, value, tail) := members;
      var name, later := Decode(key), Keys(tail);
      var keys := Keys(members);
      LoneAmongIffPaired(key);
      CheckValueMeans(value, 1, finite);
      CheckTopMeans(tail, seen + {name}, finite);
      assert keys == [name] + later;
      KeysCons(name, later);
      KeyRulesDecide(name);
    }
  }

  lemma KeysCons(name: string, later: seq<string>)
    ensures LegalKeys([name] + later) <==> LegalKey(name) && LegalKeys(later)
    ensures Distinct([name] + later) <==> name !in later && Distinct(later)
    ensures forall k :: k in [name] + later <==> k == name || k in later
  {
    var keys := [name] + later;
    assert keys[0] == name;
    assert forall i :: 0 <= i < |later| ==> later[i] == keys[i + 1];
    assert forall i :: 0 < i < |keys| ==> keys[i] == later[i - 1];
    if Distinct(keys) {
      forall i, j | 0 <= i < j < |later|
        ensures later[i] != later[j]
      {
        assert keys[i + 1] != keys[j + 1];
      }
    }
  }

  /** scan accepts exactly the objects nested at most 64 deep, every number
      finite, every surrogate escape paired, and the top-level keys legal and
      distinct; and then it returns the members in order, each value's text
      whole, from which the object's text is rebuilt. */
  lemma ScanDecides(members: Members, finite: string -> bool)
    ensures Answer(members, finite).Accepted?
            <==> && Depth(Object(members)) <= 64
                 && AllFinite(Object(members), finite) && AllPaired(Object(members))
                 && LegalKeys(Keys(members)) && Distinct(Keys(members))
    ensures Answer(members, finite).Accepted? ==>
              && Names(Answer(members, finite).members) == Keys(members)
              && Print(Object(members)) == Rebuilt(KeyTexts(members), Answer(members, finite).members)
  {
    CheckTopMeans(members, {}, finite);
    MembersRebuild(members);
  }

  function Names(members: seq<Member>): seq<string> {
    seq(|members|, i requires 0 <= i < |members| => members[i].name)
  }

  /** The top-level keys' texts, quotes included, in the order written. */
  function KeyTexts(members: Members): (texts: seq<string>)
    ensures |texts| == |MembersOf(members)|
  {
    if members.NoMembers? then [] else [Quoted(members.key)] + KeyTexts(members.tail)
  }

  /** An object's text from its keys' texts and its members' values. */
  function Rebuilt(keys: seq<string>, members: seq<Member>): string
    requires |keys| == |members|
  {
    "{" + RebuiltMembers(keys, members) + "}"
  }

  function RebuiltMembers(keys: seq<string>, members: seq<Member>): string
    requires |keys| == |members|
  {
    if keys == [] then ""
    else keys[0] + (":" + (members[0].value + if |keys| == 1 then "" else "," + RebuiltMembers(keys[1..], members[1..])))
  }

  /** What the members after one add to its object's text. */
  function RestText(tail: Members): string {
    if tail.NoMembers? then "" else "," + PrintMembers(tail)
  }

  lemma MembersText(members: Members)
    requires members.Member?
    ensures PrintMembers(members) == Quoted(members.key) + (":" + (Print(members.value) + RestText(members.tail)))
  {
    hide Quoted, Print;
  }

  lemma EmptyText()
    ensures PrintMembers(NoMembers) == ""
  {
  }

  lemma {:induction false} MembersRebuild(members: Members)
    ensures Names(MembersOf(members)) == Keys(members)
    ensures RebuiltMembers(KeyTexts(members), MembersOf(members)) == PrintMembers(members)
  {
    hide Print, PrintMembers, Quoted, MembersOf, KeyTexts, RebuiltMembers, Names, Decode, TypeOf;
    EmptyText();
    NoneRebuild();
    if members.Member? {
      MembersRebuild(members.tail);
      MembersText(members);
      MembersFirst(members);
    }
  }

  lemma NoneRebuild()
    ensures MembersOf(NoMembers) == [] && KeyTexts(NoMembers) == [] && RebuiltMembers([], []) == "" && Names([]) == []
  {
  }

  /** An object's first member, taken off its names and its rebuilt text. */
  lemma MembersFirst(members: Members)
    requires members.Member?
    ensures Names(MembersOf(members)) == [Decode(members.key)] + Names(MembersOf(members.tail))
    ensures RebuiltMembers(KeyTexts(members), MembersOf(members))
            == Quoted(members.key)
               + (":" + (Print(members.value)
                         + if members.tail.NoMembers? then ""
                           else "," + RebuiltMembers(KeyTexts(members.tail), MembersOf(members.tail))))
  {
    hide Print, Quoted, Decode, TypeOf, Names, RebuiltMembers;
    var first := Member.Member(Decode(members.key), TypeOf(members.value), Print(members.value));
    NamesFirst(first, MembersOf(members.tail));
    RebuiltFirst(Quoted(members.key), KeyTexts(members.tail), first, MembersOf(members.tail));
    assert KeyTexts(members.tail) == [] <==> members.tail.NoMembers?;
  }

  lemma NamesFirst(first: Member, rest: seq<Member>)
    ensures Names([first] + rest) == [first.name] + Names(rest)
  {
  }

  lemma RebuiltFirst(key: string, keys: seq<string>, first: Member, rest: seq<Member>)
    requires |keys| == |rest|
    ensures RebuiltMembers([key] + keys, [first] + rest)
            == key + (":" + (first.value + if keys == [] then "" else "," + RebuiltMembers(keys, rest)))
  {
    assert ([key] + keys)[1..] == keys && ([first] + rest)[1..] == rest;
  }
}
