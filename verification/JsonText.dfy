/** JSON text (RFC 8259) as a grammar: its values, and the one compacted text of each. */
module JsonText {

  /** The JSON type a field holds; FNull until its first non-null value locks one. */
  datatype FieldType = FNull | FString | FNumber | FBoolean | FObject | FArray

  /** One character of a string as its text writes it (section 7): itself, a
      two-character escape, or \u and four hexadecimal digits. */
  datatype Unit = Plain(c: char) | Short(c: char) | Hex(digits: string)

  /** A number (section 6): -?whole, then a fraction and an exponent or "". */
  datatype Number = Number(minus: bool, whole: string, fraction: string, exponent: string)

  datatype Value =
    | Text(units: seq<Unit>)
    | Numeral(number: Number)
    | Boolean(b: bool)
    | Null
    | Array(items: Items)
    | Object(members: Members)
  datatype Items = NoItems | Item(head: Value, tail: Items)
  datatype Members = NoMembers | Member(key: seq<Unit>, value: Value, tail: Members)

  // ---------------------------------------------------------------- Validity

  predicate IsDigit(c: char) {
    '0' <= c <= '9'
  }

  predicate Digits(s: string) {
    s != [] && forall i :: 0 <= i < |s| ==> IsDigit(s[i])
  }

  predicate IsSign(c: char) {
    c == '+' || c == '-'
  }

  predicate IsHex(c: char) {
    IsDigit(c) || 'a' <= c <= 'f' || 'A' <= c <= 'F'
  }

  predicate ValidUnit(u: Unit) {
    match u
    case Plain(c) => c != '"' && c != '\\' && ' ' <= c
    case Short(c) =>
      c == '"' || c == '\\' || c == '/' || c == 'b' || c == 'f' || c == 'n' || c == 'r' || c == 't'
    case Hex(digits) => |digits| == 4 && forall i :: 0 <= i < 4 ==> IsHex(digits[i])
  }

  predicate ValidUnits(units: seq<Unit>) {
    forall i :: 0 <= i < |units| ==> ValidUnit(units[i])
  }

  predicate ValidNumber(n: Number) {
    && Digits(n.whole) && (n.whole[0] == '0' ==> |n.whole| == 1)
    && (n.fraction == [] || (n.fraction[0] == '.' && Digits(n.fraction[1..])))
    && (n.exponent == []
        || (&& (n.exponent[0] == 'e' || n.exponent[0] == 'E') && |n.exponent| > 1
            && Digits(n.exponent[if IsSign(n.exponent[1]) then 2 else 1..])))
  }

  predicate ValidValue(v: Value) {
    match v
    case Text(units) => ValidUnits(units)
    case Numeral(n) => ValidNumber(n)
    case Boolean(_) => true
    case Null => true
    case Array(items) => ValidItems(items)
    case Object(members) => ValidMembers(members)
  }

  predicate ValidItems(items: Items) {
    items.Item? ==> ValidValue(items.head) && ValidItems(items.tail)
  }

  predicate ValidMembers(members: Members) {
    members.Member? ==> ValidUnits(members.key) && ValidValue(members.value) && ValidMembers(members.tail)
  }

  // ---------------------------------------------------------------- Compacted text

  function UnitText(u: Unit): string {
    match u
    case Plain(c) => [c]
    case Short(c) => ['\\', c]
    case Hex(digits) => "\\u" + digits
  }

  function UnitsText(units: seq<Unit>): string {
    if units == [] then [] else UnitText(units[0]) + UnitsText(units[1..])
  }

  function Quoted(units: seq<Unit>): string {
    "\"" + UnitsText(units) + "\""
  }

  function Literal(n: Number): string {
    (if n.minus then "-" else "") + n.whole + n.fraction + n.exponent
  }

  function Print(v: Value): string {
    match v
    case Text(units) => Quoted(units)
    case Numeral(n) => Literal(n)
    case Boolean(b) => if b then "true" else "false"
    case Null => "null"
    case Array(items) => "[" + PrintItems(items) + "]"
    case Object(members) => "{" + PrintMembers(members) + "}"
  }

  function PrintItems(items: Items): string {
    match items
    case NoItems => ""
    case Item(head, NoItems) => Print(head)
    case Item(head, tail) => Print(head) + "," + PrintItems(tail)
  }

  function PrintMembers(members: Members): string {
    match members
    case NoMembers => ""
    case Member(key, value, NoMembers) => Quoted(key) + ":" + Print(value)
    case Member(key, value, tail) => Quoted(key) + ":" + Print(value) + "," + PrintMembers(tail)
  }

  function TypeOf(v: Value): FieldType {
    match v
    case Text(_) => FString
    case Numeral(_) => FNumber
    case Boolean(_) => FBoolean
    case Null => FNull
    case Array(_) => FArray
    case Object(_) => FObject
  }

  // ---------------------------------------------------------------- Strings

  function HexDigit(c: char): (n: nat)
    requires IsHex(c)
    ensures n < 16
  {
    if IsDigit(c) then c as int - '0' as int
    else if 'a' <= c <= 'f' then c as int - 'a' as int + 10
    else c as int - 'A' as int + 10
  }

  function HexValue(digits: string): (n: nat)
    requires |digits| == 4 && forall i :: 0 <= i < 4 ==> IsHex(digits[i])
    ensures n < 0x1_0000
  {
    HexDigit(digits[0]) * 0x1000 + HexDigit(digits[1]) * 0x100 + HexDigit(digits[2]) * 0x10 + HexDigit(digits[3])
  }

  /** The first half of a surrogate pair, as an escape. */
  predicate IsHigh(u: Unit) {
    u.Hex? && ValidUnit(u) && 0xD800 <= HexValue(u.digits) <= 0xDBFF
  }

  /** The second half of a surrogate pair, as an escape. */
  predicate IsLow(u: Unit) {
    u.Hex? && ValidUnit(u) && 0xDC00 <= HexValue(u.digits) <= 0xDFFF
  }

  /** Every surrogate escape is half of a pair (section 7). */
  predicate Paired(units: seq<Unit>) {
    forall i :: 0 <= i < |units| ==> PairedAt(units, i)
  }

  predicate PairedAt(units: seq<Unit>, i: nat)
    requires i < |units|
  {
    && (IsHigh(units[i]) ==> i + 1 < |units| && IsLow(units[i + 1]))
    && (IsLow(units[i]) ==> i > 0 && IsHigh(units[i - 1]))
  }

  /** The string a JSON parser reads: section 7's escapes decoded, a lone
      surrogate escape as U+FFFD. */
  function Decode(units: seq<Unit>): string {
    if units == [] then []
    else match units[0]
      case Plain(c) => [c] + Decode(units[1..])
      case Short(c) => [ShortChar(c)] + Decode(units[1..])
      case Hex(digits) =>
        if |units| > 1 && IsHigh(units[0]) && IsLow(units[1]) then
          var scalar := 0x1_0000 + (HexValue(digits) - 0xD800) * 0x400 + (HexValue(units[1].digits) - 0xDC00);
          [scalar as char] + Decode(units[2..])
        else if ValidUnit(units[0]) && !IsHigh(units[0]) && !IsLow(units[0]) then
          [HexValue(digits) as char] + Decode(units[1..])
        else
          ['\U{FFFD}'] + Decode(units[1..])
  }

  function ShortChar(c: char): char {
    match c
    case 'b' => '\U{0008}'
    case 'f' => '\U{000C}'
    case 'n' => '\n'
    case 'r' => '\r'
    case 't' => '\t'
    case _ => c
  }

  /** Splits a string's text back into its units. */
  function Units(text: string): seq<Unit> {
    if text == [] then []
    else if text[0] != '\\' || |text| == 1 then [Plain(text[0])] + Units(text[1..])
    else if text[1] != 'u' || |text| < 6 then [Short(text[1])] + Units(text[2..])
    else [Hex(text[2..6])] + Units(text[6..])
  }

  lemma {:induction false} UnitsOfText(units: seq<Unit>)
    requires ValidUnits(units)
    ensures Units(UnitsText(units)) == units
  {
    if units != [] {
      UnitsOfText(units[1..]);
      var first, rest := UnitText(units[0]), UnitsText(units[1..]);
      assert (first + rest)[|first|..] == rest;
      if units[0].Hex? {
        assert (first + rest)[2..6] == units[0].digits;
      }
      assert units == [units[0]] + units[1..];
    }
  }

  // ---------------------------------------------------------------- Members

  /** How deep a value nests, an object or array around nothing counting as 1. */
  function Depth(v: Value): nat {
    match v
    case Array(items) => 1 + ItemsDepth(items)
    case Object(members) => 1 + MembersDepth(members)
    case _ => 0
  }

  function ItemsDepth(items: Items): nat {
    if items.NoItems? then 0 else Max(Depth(items.head), ItemsDepth(items.tail))
  }

  function MembersDepth(members: Members): nat {
    if members.NoMembers? then 0 else Max(Depth(members.value), MembersDepth(members.tail))
  }

  function Max(a: nat, b: nat): nat {
    if a < b then b else a
  }
}
