/** scan of mock/event-pieces.ts: one pass over compacted JSON object text that
    refuses what the engine refuses, checks the top-level keys and returns the
    top-level members. */
module Scanner {
  import opened Options
  import opened JsonText
  import opened ScanRules
  import opened ScanMachine
  import opened ScanRuns

  // ---------------------------------------------------------------- The loops

  method FindStringEnd(data: string, i: nat) returns (end: nat)
    requires i < |data| && StringEnd(data, i + 1).Some?
    ensures StringEnd(data, i + 1) == Some(end)
  {
    var j := i + 1;
    while data[j] != '"'
      invariant j < |data| && StringEnd(data, j) == StringEnd(data, i + 1)
      decreases |data| - j
    {
      j := j + if data[j] == '\\' then 2 else 1;
    }
    return j + 1;
  }

  /** The text from i to j, cut at its end as JavaScript's slice is. */
  function Slice(text: string, i: nat, j: nat): string
    requires i <= j
  {
    if i >= |text| then "" else if j > |text| then text[i..] else text[i..j]
  }

  /** The first surrogate escape of a string's text that is not half of a pair. */
  method FindLoneSurrogate(text: string, ghost units: seq<Unit>) returns (lone: Option<string>)
    requires ValidUnits(units) && text == Quoted(units)
    ensures LoneAmong(units) == if lone.Some? then Some(LoneSurrogate(lone.value)) else None
  {
    ghost var rest := WithQuotes(units);
    TextWithQuotes(units);
    var i := 0;
    while i < |text|
      invariant Reached(text, i, rest)
      invariant LoneAmong(units) == LoneAmong(rest)
    {
      UnitAt(text, i, rest);
      if text[i] != '\\' {
        rest := rest[1..];
        i := i + 1;
      } else if text[i + 1] != 'u' {
        rest := rest[1..];
        i := i + 2; // a one-character escape
      } else {
        var isLone, paired := ReadEscape(text, i, rest);
        if isLone {
          return Some(Slice(text, i, i + 6));
        }
        rest := rest[if paired then 2 else 1..];
        i := i + if paired then 12 else 6;
      }
    }
    return None;
  }

  /** A string's units with its quotes as characters of their own. */
  ghost function WithQuotes(units: seq<Unit>): seq<Unit> {
    [Plain('"')] + units + [Plain('"')]
  }

  lemma TextWithQuotes(units: seq<Unit>)
    requires ValidUnits(units)
    ensures Reached(Quoted(units), 0, WithQuotes(units))
    ensures LoneAmong(WithQuotes(units)) == LoneAmong(units)
  {
    var all := WithQuotes(units);
    assert all[1..] == units + [Plain('"')];
    ClosingQuote(units);
    assert Quoted(units)[0..] == UnitsText(all);
  }

  lemma {:induction false} ClosingQuote(units: seq<Unit>)
    ensures UnitsText(units + [Plain('"')]) == UnitsText(units) + "\""
    ensures LoneAmong(units + [Plain('"')]) == LoneAmong(units)
  {
    var closed := units + [Plain('"')];
    if units == [] {
      assert closed[1..] == [];
      assert UnitsText(closed) == "\"" + UnitsText([]);
    } else {
      assert closed[1..] == units[1..] + [Plain('"')];
      ClosingQuote(units[1..]);
      if |units| > 1 {
        assert closed[2..] == units[2..] + [Plain('"')];
        ClosingQuote(units[2..]);
      }
    }
  }

  /** The text from i on is these units, none of them malformed. */
  ghost predicate Reached(text: string, i: nat, units: seq<Unit>) {
    && i <= |text| && text[i..] == UnitsText(units)
    && forall k :: 0 <= k < |units| ==> ValidUnit(units[k]) || units[k] == Plain('"')
  }

  /** The unit at i, and what follows it. */
  lemma UnitAt(text: string, i: nat, units: seq<Unit>)
    requires Reached(text, i, units) && i < |text|
    ensures units != []
    ensures var end := i + |UnitText(units[0])|;
            && end <= |text| && text[i..end] == UnitText(units[0]) && Reached(text, end, units[1..])
            && match units[0]
               case Plain(c) => text[i] == c != '\\'
               case Short(c) => end == i + 2 && text[i] == '\\' && text[i + 1] == c != 'u'
               case Hex(digits) => end == i + 6 && text[i] == '\\' && text[i + 1] == 'u' && text[i + 2..i + 6] == digits
  {
    var first, rest := UnitText(units[0]), UnitsText(units[1..]);
    assert text[i..] == first + rest;
    assert text[i..i + |first|] == (first + rest)[..|first|];
    assert text[i + |first|..] == (first + rest)[|first|..];
    assert forall k :: 0 <= k < |first| ==> text[i..i + |first|][k] == first[k];
    assert text[i] == first[0];
    if units[0].Hex? {
      assert text[i + 2..i + 6] == text[i..i + 6][2..];
    }
  }

  /** What follows an escape of four digits: another, or no \u. */
  lemma NextUnit(text: string, i: nat, units: seq<Unit>)
    requires units != [] && Reached(text, i, units) && i < |text| && units[0].Hex?
    ensures var next := Slice(text, i + 6, i + 12);
            if |units| > 1 && units[1].Hex? then next == "\\u" + units[1].digits
            else |next| < 6 || next[..2] != "\\u"
  {
    UnitAt(text, i, units);
    if i + 6 < |text| {
      UnitAt(text, i + 6, units[1..]);
    }
    var next := Slice(text, i + 6, i + 12);
    if |units| > 1 && units[1].Hex? {
      assert text[i + 6..i + 12] == "\\u" + units[1].digits;
    } else if |next| == 6 {
      assert next[0] == text[i + 6] && next[1] == text[i + 7];
    }
  }

  /** Whether the \u escape at i is a lone surrogate, or the first half of a pair. */
  method ReadEscape(text: string, i: nat, ghost units: seq<Unit>) returns (isLone: bool, paired: bool)
    requires units != [] && Reached(text, i, units) && i < |text| && units[0].Hex?
    ensures isLone <==> IsLow(units[0]) || (IsHigh(units[0]) && (|units| == 1 || !IsLow(units[1])))
    ensures paired <==> IsHigh(units[0]) && |units| > 1 && IsLow(units[1])
    ensures paired ==> Reached(text, i + 12, units[2..])
  {
    UnitAt(text, i, units);
    NextUnit(text, i, units);
    var code := HexValue(text[i + 2..i + 6]);
    isLone, paired := 0xDC00 <= code <= 0xDFFF, false;
    if 0xD800 <= code <= 0xDBFF {
      var next := Slice(text, i + 6, i + 12);
      var low := if |next| == 6 && next[..2] == "\\u" then HexValue(next[2..]) else 0;
      isLone := low < 0xDC00 || low > 0xDFFF;
      paired := !isLone;
      if |units| > 1 && units[1].Hex? {
        UnitAt(text, i + 6, units[1..]);
        assert units[1..][1..] == units[2..] && next[2..] == units[1].digits;
      }
    }
  }

  /** A key of the innermost object. */
  method ReadKey(data: string, i: nat, st: State) returns (move: Move)
    requires i < |data| && data[i] == '"' && st.stack != []
    requires !KeyStep(data, i, st).Broken?
    ensures move == KeyStep(data, i, st)
  {
    var end := FindStringEnd(data, i);
    var lone := FindLoneSurrogate(data[i..end], StringAt(data, i, end));
    if lone.Some? {
      return Stop(LoneSurrogate(lone.value));
    }
    var after := st.(stack := st.stack[..|st.stack| - 1] + [Frame(true, false)]);
    if |st.stack| > 1 {
      return Next(end, after);
    }
    var key := Decode(StringAt(data, i, end));
    var problem := KeyRules(key);
    if problem.Some? {
      return Stop(BadKey(key, problem.value));
    }
    if key in st.seen {
      return Stop(KeyTwice(key));
    }
    return Next(end, after.(seen := st.seen + {key}, name := key));
  }

  /** A value starts. */
  method ReadValue(data: string, i: nat, st: State, finite: string -> bool) returns (move: Move)
    requires st.start <= i < |data| && !Separates(data[i])
    requires !ValueStep(data, i, st, finite).Broken?
    ensures move == ValueStep(data, i, st, finite)
  {
    var kind := KindAt(data[i]);
    var begun := Started(st, kind, i);
    if kind == FObject || kind == FArray {
      if |st.stack| == MAX_DEPTH {
        return Stop(TooDeep);
      }
      return Next(i + 1, begun.(stack := st.stack + [Frame(kind == FObject, kind == FObject)]));
    }
    var end := LiteralEnd(data, i + 1);
    if kind == FString {
      end := FindStringEnd(data, i);
      var lone := FindLoneSurrogate(data[i..end], StringAt(data, i, end));
      if lone.Some? {
        return Stop(LoneSurrogate(lone.value));
      }
    } else if kind == FNumber && !finite(data[i..end]) {
      return Stop(NotFinite(data[i..end]));
    }
    return Next(end, Ended(begun, data, end));
  }

  /** Scans a compacted JSON object. No quote it needs is missing and no bracket
      closes what is not open: the pass is never Stuck. */
  method Scan(data: string, finite: string -> bool, ghost members: Members) returns (outcome: Outcome)
    requires ValidMembers(members) && data == Print(Object(members))
    ensures outcome == Answer(members, finite)
  {
    RunDecides(members, finite);
    hide Print, KeyStep, ValueStep, CheckTop;
    var st, i := START, 0;
    while i < |data|
      invariant i <= |data| && Run(data, i, st, finite) == Answer(members, finite)
    {
      var c := data[i];
      var move;
      if c == ',' || c == ':' {
        move := Next(i + 1, st);
      } else if c == '}' || c == ']' {
        move := Next(i + 1, Ended(st.(stack := st.stack[..|st.stack| - 1]), data, i + 1));
      } else if c == '"' && st.stack != [] && st.stack[|st.stack| - 1] == Frame(true, true) {
        move := ReadKey(data, i, st);
      } else {
        move := ReadValue(data, i, st, finite);
      }
      if move.Stop? {
        return Refused(move.problem);
      }
      i, st := move.i, move.st;
    }
    return Accepted(st.members);
  }
}
