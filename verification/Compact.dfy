/** compact of mock/event-pieces.ts: drops JSON whitespace outside strings. */
module Compact {
  import opened JsonText

  /** What the pass drops. */
  predicate IsSpace(c: char) {
    c == ' ' || c == '\t' || c == '\n' || c == '\r'
  }

  /** Insignificant whitespace (section 2 of RFC 8259). */
  predicate AllSpace(s: string) {
    forall i :: 0 <= i < |s| ==> s[i] == ' ' || s[i] == '\t' || s[i] == '\n' || s[i] == '\r'
  }

  /** text without the whitespace outside its strings, where it starts inside one or not. */
  function Compacted(text: string, inString: bool): string {
    if text == [] then []
    else if !inString then
      (if IsSpace(text[0]) then [] else [text[0]]) + Compacted(text[1..], text[0] == '"')
    else if text[0] == '\\' && |text| > 1 then text[..2] + Compacted(text[2..], true)
    else [text[0]] + Compacted(text[1..], text[0] != '"')
  }

  /** Compacted, one character of text further on. */
  lemma CompactedAt(text: string, i: nat, inString: bool)
    requires i < |text|
    ensures !inString ==> Compacted(text[i..], false)
                          == (if IsSpace(text[i]) then [] else text[i..i + 1]) + Compacted(text[i + 1..], text[i] == '"')
    ensures inString && text[i] == '\\' && i + 1 < |text| ==>
              Compacted(text[i..], true) == text[i..i + 2] + Compacted(text[i + 2..], true)
    ensures inString && text[i] == '\\' && i + 1 == |text| ==> Compacted(text[i..], true) == text[i..]
    ensures inString && text[i] != '\\' ==>
              Compacted(text[i..], true) == text[i..i + 1] + Compacted(text[i + 1..], text[i] != '"')
  {
    assert text[i..][1..] == text[i + 1..] && text[i..i + 1] == [text[i]];
    if i + 1 < |text| {
      assert text[i..][2..] == text[i + 2..] && text[i..][..2] == text[i..i + 2];
    }
  }

  /** What a copied stretch adds: out and the stretch from `from`, grown from i to j. */
  lemma Copied(out: string, text: string, from: nat, i: nat, j: nat, rest: string)
    requires from <= i <= j <= |text|
    ensures out + text[from..j] + rest == out + text[from..i] + (text[i..j] + rest)
  {
    assert text[from..j] == text[from..i] + text[i..j];
  }

  /** A character copied: the stretch grows by it. */
  lemma CopiedOne(out: string, text: string, from: nat, i: nat, inString: bool)
    requires from <= i < |text| && !(inString && text[i] == '\\') && (inString || !IsSpace(text[i]))
    ensures out + text[from..i] + Compacted(text[i..], inString)
            == out + text[from..i + 1] + Compacted(text[i + 1..], if inString then text[i] != '"' else text[i] == '"')
  {
    hide Compacted;
    CompactedAt(text, i, inString);
    Copied(out, text, from, i, i + 1, Compacted(text[i + 1..], if inString then text[i] != '"' else text[i] == '"'));
  }

  /** A backslash copied, with the character it escapes, if any. */
  lemma CopiedEscape(out: string, text: string, from: nat, i: nat)
    requires from <= i < |text| && text[i] == '\\'
    ensures i + 1 < |text| ==>
              out + text[from..i] + Compacted(text[i..], true) == out + text[from..i + 2] + Compacted(text[i + 2..], true)
    ensures i + 1 == |text| ==> out + text[from..i] + Compacted(text[i..], true) == out + text[from..]
  {
    hide Compacted;
    CompactedAt(text, i, true);
    if i + 1 < |text| {
      Copied(out, text, from, i, i + 2, Compacted(text[i + 2..], true));
    } else {
      assert text[from..i] + text[i..] == text[from..];
    }
  }

  /** Whitespace outside strings is dropped. */
  lemma Dropped(out: string, text: string, from: nat, i: nat)
    requires from <= i < |text| && IsSpace(text[i])
    ensures out + text[from..i] + Compacted(text[i..], false)
            == (out + text[from..i]) + text[i + 1..i + 1] + Compacted(text[i + 1..], false)
  {
    hide Compacted;
    CompactedAt(text, i, false);
    var rest := Compacted(text[i + 1..], false);
    assert [] + rest == rest && (out + text[from..i]) + text[i + 1..i + 1] == out + text[from..i];
  }

  method Compact(text: string) returns (compacted: string)
    ensures compacted == Compacted(text, false)
  {
    assert Compacted("", true) == Compacted("", false) == "";
    hide Compacted, IsSpace;
    var out, from, inString := "", 0, false;
    var i := 0;
    assert text[0..] == text && out + text[0..0] + Compacted(text, false) == Compacted(text, false);
    while i < |text|
      invariant from <= |text| && i <= |text| + 1
      invariant i <= |text| ==> from <= i && out + text[from..i] + Compacted(text[i..], inString) == Compacted(text, false)
      invariant i > |text| ==> out + text[from..] == Compacted(text, false)
    {
      var c := text[i];
      if inString {
        if c == '\\' {
          CopiedEscape(out, text, from, i);
          i := i + 1;
        } else {
          CopiedOne(out, text, from, i, true);
          if c == '"' {
            inString := false;
          }
        }
      } else if c == '"' {
        QuoteIsNoSpace();
        CopiedOne(out, text, from, i, false);
        inString := true;
      } else if IsSpace(c) {
        Dropped(out, text, from, i);
        out := out + text[from..i];
        from := i + 1;
      } else {
        CopiedOne(out, text, from, i, false);
      }
      i := i + 1;
    }
    assert i == |text| ==> text[i..] == "" && text[from..i] == text[from..];
    return out + text[from..];
  }

  lemma QuoteIsNoSpace()
    ensures !IsSpace('"')
  {
  }

  // ---------------------------------------------------------------- What it drops

  /** Compacting again changes nothing. */
  lemma {:induction false} CompactIdempotent(text: string, inString: bool)
    ensures Compacted(Compacted(text, inString), inString) == Compacted(text, inString)
  {
    if text == [] {
    } else if !inString {
      CompactIdempotent(text[1..], text[0] == '"');
      var rest := Compacted(text[1..], text[0] == '"');
      assert ([text[0]] + rest)[1..] == rest && [] + rest == rest;
    } else if text[0] == '\\' && |text| > 1 {
      CompactIdempotent(text[2..], true);
      assert (text[..2] + Compacted(text[2..], true))[2..] == Compacted(text[2..], true);
    } else {
      CompactIdempotent(text[1..], text[0] != '"');
      assert ([text[0]] + Compacted(text[1..], text[0] != '"'))[1..] == Compacted(text[1..], text[0] != '"');
    }
  }

  /** A token of JSON text: a string, or text with no whitespace and no quote. */
  ghost predicate IsToken(token: string) {
    || (exists units :: ValidUnits(units) && token == Quoted(units))
    || forall i :: 0 <= i < |token| ==> !IsSpace(token[i]) && token[i] != '"'
  }

  /** The tokens in order, with the given whitespace before each and after the last. */
  function Spread(tokens: seq<string>, spaces: seq<string>): string
    requires |spaces| == |tokens| + 1
  {
    if tokens == [] then spaces[0] else spaces[0] + tokens[0] + Spread(tokens[1..], spaces[1..])
  }

  function Joined(tokens: seq<string>): string {
    if tokens == [] then [] else tokens[0] + Joined(tokens[1..])
  }

  lemma {:induction false} CompactSpace(space: string, rest: string)
    requires AllSpace(space)
    ensures Compacted(space + rest, false) == Compacted(rest, false)
  {
    if space == [] {
      assert space + rest == rest;
    } else {
      assert (space + rest)[1..] == space[1..] + rest;
      CompactSpace(space[1..], rest);
    }
  }

  lemma {:induction false} CompactPlain(token: string, rest: string)
    requires forall i :: 0 <= i < |token| ==> !IsSpace(token[i]) && token[i] != '"'
    ensures Compacted(token + rest, false) == token + Compacted(rest, false)
  {
    if token == [] {
      assert token + rest == rest;
    } else {
      assert (token + rest)[1..] == token[1..] + rest;
      CompactPlain(token[1..], rest);
    }
  }

  lemma {:induction false} CompactUnits(units: seq<Unit>, rest: string)
    requires ValidUnits(units)
    ensures Compacted(UnitsText(units) + rest, true) == UnitsText(units) + Compacted(rest, true)
  {
    if units == [] {
      assert UnitsText(units) + rest == rest;
    } else {
      var first, tail := UnitText(units[0]), UnitsText(units[1..]);
      CompactUnits(units[1..], rest);
      CompactUnit(units[0], tail + rest);
      hide UnitText, UnitsText, Compacted;
      assert (first + tail) + rest == first + (tail + rest);
      assert (first + tail) + Compacted(rest, true) == first + (tail + Compacted(rest, true));
    }
  }

  lemma CompactUnit(unit: Unit, after: string)
    requires ValidUnit(unit)
    ensures Compacted(UnitText(unit) + after, true) == UnitText(unit) + Compacted(after, true)
  {
    hide Compacted;
    var text := UnitText(unit) + after;
    CompactedAt(text, 0, true);
    assert text[0..] == text;
    match unit
    case Plain(c) =>
      assert text[..1] == [c] && text[1..] == after;
    case Short(c) =>
      assert text[..2] == ['\\', c] && text[2..] == after;
    case Hex(digits) =>
      assert text[..2] == "\\u" && text[2..] == digits + after;
      CompactDigits(digits, after);
      assert text[..2] + (digits + Compacted(after, true)) == "\\u" + digits + Compacted(after, true);
  }

  lemma {:induction false} CompactDigits(digits: string, rest: string)
    requires forall i :: 0 <= i < |digits| ==> IsHex(digits[i])
    ensures Compacted(digits + rest, true) == digits + Compacted(rest, true)
  {
    if digits == [] {
      assert digits + rest == rest;
    } else {
      assert (digits + rest)[1..] == digits[1..] + rest;
      CompactDigits(digits[1..], rest);
    }
  }

  lemma CompactQuoted(units: seq<Unit>, rest: string)
    requires ValidUnits(units)
    ensures Compacted(Quoted(units) + rest, false) == Quoted(units) + Compacted(rest, false)
  {
    hide UnitsText;
    var inner, end := UnitsText(units), "\"" + rest;
    CompactUnits(units, end);
    CompactQuote(rest, true);
    CompactQuote(inner + end, false);
    assert Quoted(units) + rest == "\"" + (inner + end);
    assert "\"" + (inner + ("\"" + Compacted(rest, false))) == Quoted(units) + Compacted(rest, false);
  }

  lemma CompactQuote(rest: string, inString: bool)
    ensures Compacted("\"" + rest, inString) == "\"" + Compacted(rest, !inString)
  {
    assert ("\"" + rest)[1..] == rest;
  }

  lemma CompactToken(token: string, rest: string)
    requires IsToken(token)
    ensures Compacted(token + rest, false) == token + Compacted(rest, false)
  {
    if units :| ValidUnits(units) && token == Quoted(units) {
      CompactQuoted(units, rest);
    } else {
      CompactPlain(token, rest);
    }
  }

  /** Compacting tokens spread with whitespace leaves the tokens, whole and in
      order, and nothing else. */
  lemma {:induction false} CompactDropsOnlySpace(tokens: seq<string>, spaces: seq<string>)
    requires |spaces| == |tokens| + 1
    requires forall i :: 0 <= i < |tokens| ==> IsToken(tokens[i])
    requires forall i :: 0 <= i < |spaces| ==> AllSpace(spaces[i])
    ensures Compacted(Spread(tokens, spaces), false) == Joined(tokens)
  {
    if tokens == [] {
      assert spaces[0] == spaces[0] + "";
      CompactSpace(spaces[0], "");
    } else {
      var rest := Spread(tokens[1..], spaces[1..]);
      assert Spread(tokens, spaces) == spaces[0] + (tokens[0] + rest);
      CompactSpace(spaces[0], tokens[0] + rest);
      CompactToken(tokens[0], rest);
      CompactDropsOnlySpace(tokens[1..], spaces[1..]);
    }
  }

  // ---------------------------------------------------------------- The tokens of a value

  function Tokens(v: Value): seq<string> {
    match v
    case Array(items) => ["["] + ItemTokens(items) + ["]"]
    case Object(members) => ["{"] + MemberTokens(members) + ["}"]
    case _ => [Print(v)]
  }

  function ItemTokens(items: Items): seq<string> {
    match items
    case NoItems => []
    case Item(head, NoItems) => Tokens(head)
    case Item(head, tail) => Tokens(head) + [","] + ItemTokens(tail)
  }

  function MemberTokens(members: Members): seq<string> {
    match members
    case NoMembers => []
    case Member(key, value, NoMembers) => [Quoted(key), ":"] + Tokens(value)
    case Member(key, value, tail) => [Quoted(key), ":"] + Tokens(value) + [","] + MemberTokens(tail)
  }

  lemma {:induction false} JoinedConcat(a: seq<string>, b: seq<string>)
    ensures Joined(a + b) == Joined(a) + Joined(b)
  {
    if a == [] {
      assert a + b == b;
    } else {
      assert (a + b)[1..] == a[1..] + b;
      JoinedConcat(a[1..], b);
    }
  }

  ghost predicate AllTokens(tokens: seq<string>) {
    forall i :: 0 <= i < |tokens| ==> IsToken(tokens[i])
  }

  /** Appending tokens appends their text. */
  lemma Append(a: seq<string>, b: seq<string>)
    requires AllTokens(a) && AllTokens(b)
    ensures AllTokens(a + b) && Joined(a + b) == Joined(a) + Joined(b)
  {
    JoinedConcat(a, b);
  }

  lemma DigitsPlain(s: string)
    requires Digits(s)
    ensures forall i :: 0 <= i < |s| ==> !IsSpace(s[i]) && s[i] != '"'
  {
  }

  lemma LiteralToken(n: Number)
    requires ValidNumber(n)
    ensures IsToken(Literal(n))
  {
    DigitsPlain(n.whole);
    assert forall i :: 0 < i < |n.fraction| ==> n.fraction[i] == n.fraction[1..][i - 1];
    if n.exponent != [] {
      var k := if IsSign(n.exponent[1]) then 2 else 1;
      assert forall i :: k <= i < |n.exponent| ==> n.exponent[i] == n.exponent[k..][i - k];
    }
  }

  lemma Bracketed(open: string, middle: seq<string>, close: string)
    requires IsToken(open) && IsToken(close) && AllTokens(middle)
    ensures AllTokens([open] + middle + [close])
    ensures Joined([open] + middle + [close]) == open + Joined(middle) + close
  {
    JoinedConcat([open] + middle, [close]);
    JoinedConcat([open], middle);
    One(open);
    One(close);
  }

  lemma One(token: string)
    ensures Joined([token]) == token
  {
    assert Joined([token]) == token + Joined([]);
  }

  /** A value's compacted text is its tokens, with nothing between them. */
  lemma {:induction false} PrintIsTokens(v: Value)
    requires ValidValue(v)
    ensures AllTokens(Tokens(v)) && Joined(Tokens(v)) == Print(v)
  {
    match v
    case Array(items) =>
      PrintItemsIsTokens(items);
      Bracketed("[", ItemTokens(items), "]");
    case Object(members) =>
      PrintMembersIsTokens(members);
      Bracketed("{", MemberTokens(members), "}");
    case Text(units) =>
      One(Print(v));
    case Numeral(n) =>
      LiteralToken(n);
      One(Print(v));
    case Boolean(_) =>
      One(Print(v));
    case Null =>
      One(Print(v));
  }

  lemma {:induction false} PrintItemsIsTokens(items: Items)
    requires ValidItems(items)
    ensures AllTokens(ItemTokens(items)) && Joined(ItemTokens(items)) == PrintItems(items)
  {
    if items.Item? {
      PrintIsTokens(items.head);
      PrintItemsIsTokens(items.tail);
      hide Print, Tokens;
      One(",");
      JoinedConcat(Tokens(items.head) + [","], ItemTokens(items.tail));
      JoinedConcat(Tokens(items.head), [","]);
    }
  }

  /** A member's tokens: its key, a colon and its value's. */
  lemma MemberHead(key: seq<Unit>, value: Value)
    requires ValidUnits(key) && AllTokens(Tokens(value)) && Joined(Tokens(value)) == Print(value)
    ensures AllTokens([Quoted(key), ":"] + Tokens(value))
    ensures Joined([Quoted(key), ":"] + Tokens(value)) == Quoted(key) + ":" + Print(value)
  {
    assert IsToken(Quoted(key));
    hide Quoted, Print, Tokens, IsToken;
    One(Quoted(key));
    One(":");
    assert [Quoted(key), ":"] == [Quoted(key)] + [":"];
    JoinedConcat([Quoted(key)], [":"]);
    JoinedConcat([Quoted(key), ":"], Tokens(value));
  }

  /** The members of an object, one further on. */
  lemma MembersNext(members: Members)
    requires members.Member?
    ensures members.tail.NoMembers? ==>
              && PrintMembers(members) == Quoted(members.key) + ":" + Print(members.value)
              && MemberTokens(members) == [Quoted(members.key), ":"] + Tokens(members.value)
    ensures members.tail.Member? ==>
              && PrintMembers(members) == Quoted(members.key) + ":" + Print(members.value) + "," + PrintMembers(members.tail)
              && MemberTokens(members)
                 == [Quoted(members.key), ":"] + Tokens(members.value) + [","] + MemberTokens(members.tail)
  {
  }

  lemma {:induction false} PrintMembersIsTokens(members: Members)
    requires ValidMembers(members)
    ensures AllTokens(MemberTokens(members)) && Joined(MemberTokens(members)) == PrintMembers(members)
  {
    if members.Member? {
      PrintIsTokens(members.value);
      PrintMembersIsTokens(members.tail);
      MemberHead(members.key, members.value);
      MembersNext(members);
      hide Quoted, Print, Tokens, PrintMembers, MemberTokens, Joined, IsToken;
      assert IsToken(",") by { CommaIsToken(); }
      One(",");
      var head := [Quoted(members.key), ":"] + Tokens(members.value);
      Append(head, [","]);
      if members.tail.Member? {
        Append(head + [","], MemberTokens(members.tail));
      }
    }
  }

  lemma CommaIsToken()
    ensures IsToken(",")
  {
  }

  /** Any spacing of a value's text compacts to the value's one compacted text. */
  lemma CompactPrints(v: Value, spaces: seq<string>)
    requires ValidValue(v) && |spaces| == |Tokens(v)| + 1
    requires forall i :: 0 <= i < |spaces| ==> AllSpace(spaces[i])
    ensures Compacted(Spread(Tokens(v), spaces), false) == Print(v)
  {
    PrintIsTokens(v);
    CompactDropsOnlySpace(Tokens(v), spaces);
  }
}
