/** What a piece's document says, render of mock/event-pieces.ts: its title, which lines its
    list has and in what order, and its text. */
module DocumentText {
  import opened Options
  import opened Utf8
  import opened Rendering

  // ---------------------------------------------------------------- Splitting and joining

  /** The parts are the runs of characters between separators, in order, and all of them. */
  ghost predicate IsSplit(s: string, parts: seq<string>, separates: char -> bool) {
    if parts == [] then AllSeparate(s, 0, separates)
    else
      var last := parts[|parts| - 1];
      exists a: nat :: a < |s| && EndsWith(s, last, a, separates) && IsSplit(s[..a], parts[..|parts| - 1], separates)
  }

  predicate AllSeparate(s: string, from: nat, separates: char -> bool) {
    forall k :: from <= k < |s| ==> separates(s[k])
  }

  /** The last part of s begins at a. */
  predicate EndsWith(s: string, part: string, a: nat, separates: char -> bool) {
    && part != "" && a + |part| <= |s| && part == s[a..a + |part|] && (a > 0 ==> separates(s[a - 1]))
    && (forall k :: a <= k < a + |part| ==> !separates(s[k])) && AllSeparate(s, a + |part|, separates)
  }

  lemma SplitAdds(s: string, parts: seq<string>, a: nat, part: string, separates: char -> bool)
    requires a < |s| && EndsWith(s, part, a, separates) && IsSplit(s[..a], parts, separates)
    ensures IsSplit(s, parts + [part], separates)
  {
    hide EndsWith;
    var all := parts + [part];
    assert all[..|parts|] == parts && all[|all| - 1] == part;
  }

  lemma SplitTakes(s: string, parts: seq<string>, separates: char -> bool) returns (a: nat)
    requires parts != [] && IsSplit(s, parts, separates)
    ensures a < |s| && EndsWith(s, parts[|parts| - 1], a, separates) && IsSplit(s[..a], parts[..|parts| - 1], separates)
  {
    hide EndsWith;
    a :| a < |s| && EndsWith(s, parts[|parts| - 1], a, separates) && IsSplit(s[..a], parts[..|parts| - 1], separates);
  }

  lemma SplitNone(s: string, separates: char -> bool)
    ensures IsSplit(s, [], separates) <==> AllSeparate(s, 0, separates)
  {
  }

  lemma {:induction false} PartsSplit(s: string, separates: char -> bool)
    ensures IsSplit(s, Parts(s, separates), separates)
  {
    hide IsSplit;
    if s == "" {
      SplitNone(s, separates);
    } else {
      var n := |s| - 1;
      var before := Parts(s[..n], separates);
      PartsSplit(s[..n], separates);
      if separates(s[n]) {
        SplitSkips(s, before, separates);
      } else if n > 0 && !separates(s[n - 1]) {
        SplitNone(s[..n], separates);
        assert !separates(s[..n][n - 1]);
        SplitGrows(s, before, separates);
      } else {
        assert s[n..n + 1] == [s[n]];
        SplitAdds(s, before, n, [s[n]], separates);
      }
    }
  }

  lemma SplitSkips(s: string, parts: seq<string>, separates: char -> bool)
    requires s != "" && separates(s[|s| - 1]) && IsSplit(s[..|s| - 1], parts, separates)
    ensures IsSplit(s, parts, separates)
  {
    hide IsSplit, EndsWith;
    var n := |s| - 1;
    SplitNone(s[..n], separates);
    SplitNone(s, separates);
    if parts == [] {
      assert forall k :: 0 <= k < n ==> s[..n][k] == s[k];
    } else {
      var a := SplitTakes(s[..n], parts, separates);
      EndsSkips(s, parts[|parts| - 1], a, separates);
      assert s[..n][..a] == s[..a];
      SplitAdds(s, parts[..|parts| - 1], a, parts[|parts| - 1], separates);
      assert parts == parts[..|parts| - 1] + [parts[|parts| - 1]];
    }
  }

  lemma EndsSkips(s: string, part: string, a: nat, separates: char -> bool)
    requires s != "" && separates(s[|s| - 1]) && EndsWith(s[..|s| - 1], part, a, separates)
    ensures EndsWith(s, part, a, separates)
  {
    var n := |s| - 1;
    assert s[..n][a..a + |part|] == s[a..a + |part|];
    assert forall k :: 0 <= k < n ==> s[..n][k] == s[k];
  }

  lemma SplitGrows(s: string, parts: seq<string>, separates: char -> bool)
    requires |s| > 1 && !separates(s[|s| - 1]) && !separates(s[|s| - 2])
    requires parts != [] && IsSplit(s[..|s| - 1], parts, separates)
    ensures IsSplit(s, parts[..|parts| - 1] + [parts[|parts| - 1] + [s[|s| - 1]]], separates)
  {
    hide IsSplit, EndsWith;
    var n := |s| - 1;
    var a := SplitTakes(s[..n], parts, separates);
    EndsGrows(s, parts[|parts| - 1], a, separates);
    assert s[..n][..a] == s[..a];
    SplitAdds(s, parts[..|parts| - 1], a, parts[|parts| - 1] + [s[n]], separates);
  }

  lemma EndsGrows(s: string, part: string, a: nat, separates: char -> bool)
    requires |s| > 1 && !separates(s[|s| - 1]) && !separates(s[|s| - 2]) && EndsWith(s[..|s| - 1], part, a, separates)
    ensures EndsWith(s, part + [s[|s| - 1]], a, separates)
  {
    var n := |s| - 1;
    assert forall k :: 0 <= k < n ==> s[..n][k] == s[k];
    assert !separates(s[..n][n - 1]);
    assert a + |part| == n;
    assert s[..n][a..n] == s[a..n] && s[a..n] + [s[n]] == s[a..n + 1];
  }

  /** There is one such split. */
  lemma {:induction false} SplitOnce(s: string, parts: seq<string>, others: seq<string>, separates: char -> bool)
    requires IsSplit(s, parts, separates) && IsSplit(s, others, separates)
    ensures parts == others
    decreases |parts|
  {
    hide EndsWith, IsSplit, AllSeparate;
    SplitNone(s, separates);
    if parts != [] && others != [] {
      var a := SplitTakes(s, parts, separates);
      var c := SplitTakes(s, others, separates);
      OneLast(s, parts[|parts| - 1], a, others[|others| - 1], c, separates);
      SplitOnce(s[..a], parts[..|parts| - 1], others[..|others| - 1], separates);
      assert parts == parts[..|parts| - 1] + [parts[|parts| - 1]] && others == others[..|others| - 1] + [others[|others| - 1]];
    } else if parts != [] {
      var a := SplitTakes(s, parts, separates);
      HasOne(s, parts[|parts| - 1], a, separates);
    } else if others != [] {
      var c := SplitTakes(s, others, separates);
      HasOne(s, others[|others| - 1], c, separates);
    }
  }

  lemma HasOne(s: string, part: string, a: nat, separates: char -> bool)
    requires EndsWith(s, part, a, separates)
    ensures !AllSeparate(s, 0, separates)
  {
    assert !separates(s[a]);
  }

  lemma OneLast(s: string, part: string, a: nat, other: string, c: nat, separates: char -> bool)
    requires EndsWith(s, part, a, separates) && EndsWith(s, other, c, separates)
    ensures a == c && part == other
  {
    assert !separates(s[a + |part| - 1]) && !separates(s[c + |other| - 1]);
    assert (a > 0 ==> separates(s[a - 1])) && (c > 0 ==> separates(s[c - 1]));
  }

  /** The parts, one text between each two. */
  function Between(parts: seq<string>, between: string): string {
    if parts == [] then "" else if |parts| == 1 then parts[0] else parts[0] + between + Between(parts[1..], between)
  }

  lemma {:induction false} JoinIs(parts: seq<string>, between: string)
    ensures Join(parts, between) == Between(parts, between)
  {
    if |parts| > 1 {
      var n := |parts| - 1;
      JoinIs(parts[1..], between);
      BetweenLast(parts, between);
      JoinIs(parts[..n], between);
    }
  }

  lemma {:induction false} BetweenLast(parts: seq<string>, between: string)
    requires |parts| > 1
    ensures Between(parts, between) == Between(parts[..|parts| - 1], between) + between + parts[|parts| - 1]
  {
    var n := |parts| - 1;
    if n > 1 {
      BetweenLast(parts[1..], between);
      assert parts[1..][..n - 1] == parts[..n][1..];
    } else {
      assert parts[1..] == [parts[1]] && parts[..1] == [parts[0]];
    }
  }

  // ---------------------------------------------------------------- The title

  /** Line feed, vertical tab, form feed, carriage return, next line, and the line and
      paragraph separators. */
  const BREAKS: set<int> := {0x0A, 0x0B, 0x0C, 0x0D, 0x85, 0x2028, 0x2029}

  /** The other characters of the White_Space property. */
  const SPACES: set<int> := {0x09, 0x20, 0xA0, 0x1680, 0x2000, 0x2001, 0x2002, 0x2003, 0x2004, 0x2005, 0x2006, 0x2007, 0x2008, 0x2009,
                             0x200A, 0x202F, 0x205F, 0x3000}

  lemma BreaksAndSpaces(c: char)
    ensures IsBreak(c) <==> c as int in BREAKS
    ensures IsWhite(c) <==> c as int in BREAKS + SPACES
  {
  }

  /** t is s, or its first n - 1 characters and an ellipsis when it has more than n. */
  predicate IsCut(t: string, s: string, n: nat) {
    if |s| <= n then t == s else |t| == n > 0 && t[..n - 1] == s[..n - 1] && t[n - 1] == '\U{2026}'
  }

  predicate IsAllWhite(s: string) {
    AllSeparate(s, 0, IsWhite)
  }

  /** The words of the first line that is not blank. */
  ghost predicate FirstLine(lines: seq<string>, i: nat, words: seq<string>) {
    && i < |lines| && !IsAllWhite(lines[i]) && IsSplit(lines[i], words, IsWhite)
    && forall k :: 0 <= k < i ==> IsAllWhite(lines[k])
  }

  /** A text has a title exactly when it is not blank: the words of its first line that is not
      blank, a space between each two, cut at 120 characters. */
  lemma TitleIs(text: string, lines: seq<string>)
    requires IsSplit(text, lines, IsBreak)
    ensures Title(text) == "" <==> IsAllWhite(text)
    ensures forall i, words :: FirstLine(lines, i, words) ==> IsCut(Title(text), Between(words, " "), 120)
    ensures !IsAllWhite(text) ==> exists i :: 0 <= i < |lines| && FirstLine(lines, i, Parts(lines[i], IsWhite))
  {
    hide IsSplit, IsAllWhite, FirstLine;
    PartsSplit(text, IsBreak);
    SplitOnce(text, lines, Parts(text, IsBreak), IsBreak);
    WhiteLines(text, lines);
    FirstWordsAre(lines);
  }

  /** A text is blank exactly when its lines are. */
  lemma {:induction false} WhiteLines(text: string, lines: seq<string>)
    requires IsSplit(text, lines, IsBreak)
    ensures IsAllWhite(text) <==> forall k :: 0 <= k < |lines| ==> IsAllWhite(lines[k])
    decreases |lines|
  {
    hide IsSplit;
    SplitNone(text, IsBreak);
    if lines != [] {
      hide IsBreak, IsWhite;
      var n := |lines| - 1;
      var a := SplitTakes(text, lines, IsBreak);
      WhiteLines(text[..a], lines[..n]);
      WhiteLast(text, lines[n], a);
      assert forall k :: 0 <= k < n ==> lines[..n][k] == lines[k];
    } else {
      BreaksAreWhite();
    }
  }

  lemma BreaksAreWhite()
    ensures forall c :: IsBreak(c) ==> IsWhite(c)
  {
  }

  lemma WhiteLast(text: string, last: string, a: nat)
    requires a < |text| && EndsWith(text, last, a, IsBreak)
    ensures IsAllWhite(text) <==> IsAllWhite(text[..a]) && IsAllWhite(last)
  {
    hide IsBreak, IsWhite;
    BreaksAreWhite();
    if IsAllWhite(text[..a]) && IsAllWhite(last) {
      forall k | 0 <= k < |text|
        ensures IsWhite(text[k])
      {
        if k < a {
          assert text[..a][k] == text[k];
        } else if k < a + |last| {
          assert last[k - a] == text[k];
        }
      }
    }
    if IsAllWhite(text) {
      assert forall k :: 0 <= k < |last| ==> last[k] == text[a + k];
    }
  }

  lemma {:induction false} FirstWordsAre(lines: seq<string>)
    ensures FirstWords(lines) == "" <==> forall k :: 0 <= k < |lines| ==> IsAllWhite(lines[k])
    ensures forall i, words :: FirstLine(lines, i, words) ==> IsCut(FirstWords(lines), Between(words, " "), 120)
    ensures FirstWords(lines) != "" ==> exists i :: 0 <= i < |lines| && FirstLine(lines, i, Parts(lines[i], IsWhite))
  {
    hide IsSplit, IsAllWhite, IsCut;
    if lines != [] {
      var words, rest := Parts(lines[0], IsWhite), lines[1..];
      PartsSplit(lines[0], IsWhite);
      NoWords(lines[0], words);
      if words != [] {
        TitleCut(words, lines[0]);
        assert FirstLine(lines, 0, words);
        forall i: nat, others | FirstLine(lines, i, others)
          ensures IsCut(FirstWords(lines), Between(others, " "), 120)
        {
          SplitOnce(lines[0], words, others, IsWhite);
        }
      } else {
        FirstWordsAre(rest);
        forall i: nat, others | FirstLine(lines, i, others)
          ensures IsCut(FirstWords(lines), Between(others, " "), 120)
        {
          assert i > 0;
          assert FirstLine(rest, i - 1, others);
        }
        if FirstWords(rest) != "" {
          var i :| 0 <= i < |rest| && FirstLine(rest, i, Parts(rest[i], IsWhite));
          assert FirstLine(lines, i + 1, Parts(lines[i + 1], IsWhite));
        }
        assert forall k :: 0 < k < |lines| ==> lines[k] == rest[k - 1];
        assert forall k :: 0 <= k < |rest| ==> rest[k] == lines[k + 1];
      }
    }
  }

  lemma NoWords(line: string, words: seq<string>)
    requires IsSplit(line, words, IsWhite)
    ensures words == [] <==> IsAllWhite(line)
  {
    hide IsSplit, EndsWith;
    SplitNone(line, IsWhite);
    if words != [] {
      var a := SplitTakes(line, words, IsWhite);
      HasOne(line, words[|words| - 1], a, IsWhite);
    }
  }

  lemma TitleCut(words: seq<string>, line: string)
    requires IsSplit(line, words, IsWhite) && words != []
    ensures IsCut(Cut(Join(words, " "), MAX_TITLE), Between(words, " "), 120) && Cut(Join(words, " "), MAX_TITLE) != ""
  {
    hide IsSplit, EndsWith;
    JoinIs(words, " ");
    var a := SplitTakes(line, words, IsWhite);
    NotEmpty(line, words[|words| - 1], a);
    JoinEnds(words, " ");
    CutIs(Join(words, " "), MAX_TITLE);
  }

  lemma NotEmpty(line: string, part: string, a: nat)
    requires EndsWith(line, part, a, IsWhite)
    ensures part != ""
  {
  }

  lemma JoinEnds(parts: seq<string>, between: string)
    requires parts != [] && parts[|parts| - 1] != ""
    ensures Join(parts, between) != ""
  {
  }

  lemma CutIs(s: string, n: nat)
    requires n > 0
    ensures IsCut(Cut(s, n), s, n) && (s != "" ==> Cut(s, n) != "")
  {
  }

  /** On one line a string has its lines that are not empty, a space between each two, cut at
      500 characters. */
  lemma OneLineIs(s: string, lines: seq<string>)
    requires IsSplit(s, lines, IsBreak)
    ensures IsCut(OneLine(s), Between(lines, " "), 500)
  {
    hide IsSplit, Parts;
    PartsSplit(s, IsBreak);
    SplitOnce(s, lines, Parts(s, IsBreak), IsBreak);
    JoinIs(lines, " ");
    CutIs(Join(lines, " "), MAX_VALUE);
  }

  // ---------------------------------------------------------------- What a line shows

  /** What a value that is no array shows. */
  lemma ScalarShown(v: Json, grouped: nat -> string)
    ensures v.Bool? ==> Shown(v, grouped) == if v.b then "true" else "false"
    ensures v.Literal? ==> Shown(v, grouped) == v.text
    ensures v.Text? ==> Shown(v, grouped) == OneLine(v.text)
    ensures v.Nothing? || v.Record? ==> Shown(v, grouped) == ""
  {
  }

  /** What an array shows: how many records it has if any item is one, and otherwise its first
      20 items, null as such, and how many more it has. */
  lemma ArrayShown(items: seq<Json>, grouped: nat -> string) returns (texts: seq<string>)
    ensures |texts| == (if |items| <= 20 then |items| else 20)
    ensures forall i :: 0 <= i < |texts| ==> texts[i] == if items[i].Nothing? then "null" else ItemShown(items[i])
    ensures var records, n := exists i :: 0 <= i < |items| && (items[i].List? || items[i].Record?), |items|;
            Shown(List(items), grouped)
            == if records then (if n == 1 then "1 record" else grouped(n) + " records")
               else Between(texts, ", ") + (if n <= 20 then "" else ", and " + grouped(n - 20) + " more")
  {
    hide OneLine, Join, Between, Listed, ItemShown;
    var listed := if |items| > MAX_LISTED then items[..MAX_LISTED] else items;
    texts := Listed(listed);
    ListedAre(listed);
    JoinIs(texts, ", ");
    if items == [] {
      NoTexts();
    }
    assert forall i :: 0 <= i < |items| ==> (IsScalar(items[i]) <==> !items[i].List? && !items[i].Record?);
  }

  lemma NoTexts()
    ensures Between([], ", ") + "" == ""
  {
  }

  /** What an item that is no record shows. */
  function ItemShown(v: Json): string {
    match v
    case Literal(text) => text
    case Bool(b) => if b then "true" else "false"
    case Text(text) => OneLine(text)
    case _ => ""
  }

  lemma {:induction false} ListedAre(items: seq<Json>)
    ensures |Listed(items)| == |items|
    ensures forall i :: 0 <= i < |items| ==> Listed(items)[i] == if items[i].Nothing? then "null" else ItemShown(items[i])
  {
    hide OneLine;
    if items != [] {
      ListedAre(items[..|items| - 1]);
    }
  }

  // ---------------------------------------------------------------- Which lines there are

  /** The value at a path of keys, none where one is missing. */
  function At(v: Json, path: seq<string>): Json
    decreases |path|
  {
    if path == [] then v else if v.Record? then At(ValueIn(v.members, path[0]), path[1..]) else Nothing
  }

  /** A path's text: its keys, each on one line, a dot before each. */
  function Extended(p: string, path: seq<string>): string
    decreases |path|
  {
    if path == [] then p else Extended(p + "." + OneLine(path[0]), path[1..])
  }

  /** The line is that of the value at the path, which has something to show and is three keys
      deep at most, depth of them before. */
  ghost predicate IsLineOf(line: FieldLine, p: string, v: Json, path: seq<string>, depth: nat, grouped: nat -> string) {
    && depth + |path| <= 3 && !At(v, path).Record? && Shown(At(v, path), grouped) != ""
    && line == FieldLine("- " + Extended(p, path) + ": " + Shown(At(v, path), grouped), depth + |path| > 1)
  }

  lemma {:induction false} LineHasValue(line: FieldLine, p: string, v: Json, depth: nat, grouped: nat -> string)
    returns (path: seq<string>)
    requires 1 <= depth <= 3 && line in FieldLines(p, v, depth, grouped)
    ensures IsLineOf(line, p, v, path, depth, grouped)
    decreases 3 - depth
  {
    hide Shown, OneLine, SortNames, ValueIn, KeyLines;
    if v.Record? {
      var key := LineHasKey(line, p + ".", v.members, SortNames(NamesIn(v.members)), depth + 1, grouped);
      var rest := LineHasValue(line, p + "." + OneLine(key), ValueIn(v.members, key), depth + 1, grouped);
      path := [key] + rest;
      assert path[1..] == rest;
    } else {
      path := [];
    }
  }

  lemma {:induction false} LineHasKey(line: FieldLine, prefix: string, members: seq<Member>, names: seq<string>, depth: nat,
                                      grouped: nat -> string)
    returns (key: string)
    requires line in KeyLines(prefix, members, names, depth, grouped)
    ensures key in names && line in FieldLines(prefix + OneLine(key), ValueIn(members, key), depth, grouped)
  {
    hide FieldLines, OneLine, ValueIn;
    var n := |names| - 1;
    if line in KeyLines(prefix, members, names[..n], depth, grouped) {
      key := LineHasKey(line, prefix, members, names[..n], depth, grouped);
    } else {
      key := names[n];
    }
  }

  lemma {:induction false} ValueHasLine(line: FieldLine, p: string, v: Json, path: seq<string>, depth: nat, grouped: nat -> string)
    requires depth >= 1 && IsLineOf(line, p, v, path, depth, grouped)
    ensures line in FieldLines(p, v, depth, grouped)
    decreases |path|
  {
    hide Shown, OneLine, SortNames, ValueIn, KeyLines;
    NothingToShow(grouped);
    if path != [] {
      Missing(path[1..]);
      var key := path[0];
      var value := ValueIn(v.members, key);
      Unheld(v.members, key);
      assert key in NamesIn(v.members);
      ValueHasLine(line, p + "." + OneLine(key), value, path[1..], depth + 1, grouped);
      KeyHasLine(line, p + ".", v.members, SortNames(NamesIn(v.members)), key, depth + 1, grouped);
    }
  }

  lemma NothingToShow(grouped: nat -> string)
    ensures Shown(Nothing, grouped) == ""
  {
  }

  lemma Missing(path: seq<string>)
    ensures At(Nothing, path) == Nothing
  {
  }

  lemma {:induction false} KeyHasLine(line: FieldLine, prefix: string, members: seq<Member>, names: seq<string>, key: string, depth: nat,
                                      grouped: nat -> string)
    requires key in names && line in FieldLines(prefix + OneLine(key), ValueIn(members, key), depth, grouped)
    ensures line in KeyLines(prefix, members, names, depth, grouped)
  {
    hide FieldLines, OneLine, ValueIn;
    var n := |names| - 1;
    if key != names[n] {
      assert key in names[..n];
      KeyHasLine(line, prefix, members, names[..n], key, depth, grouped);
    }
  }

  /** A document has a line for a value exactly where the value is, one to three keys deep and
      not of the text field, and has something to show: the path and what the value shows. */
  lemma LinesAreValues(row: Row, textField: string, grouped: nat -> string, line: FieldLine)
    ensures line in LinesOf(row, textField, grouped)
            <==> exists name, path :: name != textField && IsLineOf(line, OneLine(name), ValueIn(row.fields, name), path, 1, grouped)
  {
    hide KeyLines, FieldLines, OneLine, ValueIn, SortNames, IsLineOf;
    var names := SortNames(NamesIn(row.fields) - {textField});
    if line in LinesOf(row, textField, grouped) {
      var name := LineHasKey(line, "", row.fields, names, 1, grouped);
      assert "" + OneLine(name) == OneLine(name);
      var path := LineHasValue(line, OneLine(name), ValueIn(row.fields, name), 1, grouped);
    }
    if exists name, path :: name != textField && IsLineOf(line, OneLine(name), ValueIn(row.fields, name), path, 1, grouped) {
      var name, path :| name != textField && IsLineOf(line, OneLine(name), ValueIn(row.fields, name), path, 1, grouped);
      ShowsIsHeld(line, row.fields, name, path, grouped);
      ValueHasLine(line, OneLine(name), ValueIn(row.fields, name), path, 1, grouped);
      assert "" + OneLine(name) == OneLine(name);
      KeyHasLine(line, "", row.fields, names, name, 1, grouped);
    }
  }

  lemma ShowsIsHeld(line: FieldLine, fields: seq<Member>, name: string, path: seq<string>, grouped: nat -> string)
    requires IsLineOf(line, OneLine(name), ValueIn(fields, name), path, 1, grouped)
    ensures name in NamesIn(fields)
  {
    hide Shown, OneLine, ValueIn, Extended;
    NothingToShow(grouped);
    Missing(path);
    Unheld(fields, name);
  }

  // ---------------------------------------------------------------- In which order

  /** The lines of an object's key are between those of the keys before it and after it in byte
      order, and so are a field's. */
  lemma KeysInOrder(prefix: string, members: seq<Member>, names: set<string>, name: string, depth: nat, grouped: nat -> string)
    returns (before: seq<string>, after: seq<string>)
    requires name in names
    ensures KeyLines(prefix, members, SortNames(names), depth, grouped)
            == KeyLines(prefix, members, before, depth, grouped)
               + FieldLines(prefix + OneLine(name), ValueIn(members, name), depth, grouped)
               + KeyLines(prefix, members, after, depth, grouped)
    ensures (forall n :: n in before <==> n in names && NameBelow(n, name))
    ensures (forall n :: n in after <==> n in names && NameBelow(name, n))
  {
    hide FieldLines, OneLine, ValueIn, SortNames, KeyLines, NameBelow;
    var sorted := SortNames(names);
    var k :| 0 <= k < |sorted| && sorted[k] == name;
    before, after := sorted[..k], sorted[k + 1..];
    assert sorted == before + ([name] + after);
    KeyLinesConcat(prefix, members, before, [name] + after, depth, grouped);
    KeyLinesConcat(prefix, members, [name], after, depth, grouped);
    OneKey(prefix, members, name, depth, grouped);
    SidesOf(sorted, k);
    var a, b, c := KeyLines(prefix, members, before, depth, grouped),
                   FieldLines(prefix + OneLine(name), ValueIn(members, name), depth, grouped),
                   KeyLines(prefix, members, after, depth, grouped);
    assert a + (b + c) == a + b + c;
  }

  lemma SidesOf(sorted: seq<string>, k: nat)
    requires Ascending(sorted) && k < |sorted|
    ensures forall n :: n in sorted[..k] <==> n in sorted && NameBelow(n, sorted[k])
    ensures forall n :: n in sorted[k + 1..] <==> n in sorted && NameBelow(sorted[k], n)
  {
    hide NameBelow;
    forall n | n in sorted
      ensures n in sorted[..k] <==> NameBelow(n, sorted[k])
      ensures n in sorted[k + 1..] <==> NameBelow(sorted[k], n)
    {
      var i :| 0 <= i < |sorted| && sorted[i] == n;
      NamesTotal(n, sorted[k]);
      if i < k {
        assert sorted[..k][i] == n;
      } else if i > k {
        assert sorted[k + 1..][i - k - 1] == n;
      }
    }
  }

  /** A field with something to show has one line and no more, after those of the fields
      before it in byte order and before those of the fields after it. */
  lemma FieldHasItsLine(row: Row, textField: string, grouped: nat -> string, name: string)
    returns (before: seq<string>, after: seq<string>)
    requires name != textField && name in NamesIn(row.fields) && !ValueIn(row.fields, name).Record?
    requires Shown(ValueIn(row.fields, name), grouped) != ""
    ensures LinesOf(row, textField, grouped)
            == KeyLines("", row.fields, before, 1, grouped)
               + [FieldLine("- " + OneLine(name) + ": " + Shown(ValueIn(row.fields, name), grouped), false)]
               + KeyLines("", row.fields, after, 1, grouped)
    ensures forall n :: n in before <==> n != textField && n in NamesIn(row.fields) && NameBelow(n, name)
    ensures forall n :: n in after <==> n != textField && n in NamesIn(row.fields) && NameBelow(name, n)
  {
    hide KeyLines, OneLine, ValueIn, SortNames, NameBelow, Shown, NamesIn;
    before, after := KeysInOrder("", row.fields, NamesIn(row.fields) - {textField}, name, 1, grouped);
    assert "" + OneLine(name) == OneLine(name);
  }

  // ---------------------------------------------------------------- Which lines are kept

  function NestedBefore(lines: seq<FieldLine>, i: nat): set<nat>
    requires i <= |lines|
  {
    set k: nat | k < i && lines[k].nested
  }

  /** A line is kept if it is a top-level field's, or fewer than 50 of the lines before it are
      of fields inside objects. */
  predicate Keeps(lines: seq<FieldLine>, i: nat)
    requires i < |lines|
  {
    !lines[i].nested || |NestedBefore(lines, i)| < 50
  }

  /** kept has the places of the lines that are kept, in order. */
  ghost predicate AreKept(lines: seq<FieldLine>, kept: seq<nat>) {
    && (forall i, j :: 0 <= i < j < |kept| ==> kept[i] < kept[j])
    && forall i: nat :: i in kept <==> i < |lines| && Keeps(lines, i)
  }

  /** These lines in order, each with its end. */
  function Written(lines: seq<FieldLine>, kept: seq<nat>): string
    requires forall i :: 0 <= i < |kept| ==> kept[i] < |lines|
  {
    if kept == [] then ""
    else
      var n := |kept| - 1;
      Written(lines, kept[..n]) + (lines[kept[n]].line + "\n")
  }

  lemma {:induction false} NestedCount(lines: seq<FieldLine>, i: nat)
    requires i <= |lines|
    ensures CountNested(lines[..i]) == |NestedBefore(lines, i)|
  {
    if i > 0 {
      NestedCount(lines, i - 1);
      assert lines[..i][..i - 1] == lines[..i - 1];
      assert NestedBefore(lines, i) == NestedBefore(lines, i - 1) + if lines[i - 1].nested then {i - 1} else {};
    } else {
      assert NestedBefore(lines, 0) == {};
    }
  }

  lemma {:induction false} KeptLinesAre(lines: seq<FieldLine>, n: nat) returns (kept: seq<nat>)
    requires n <= |lines|
    ensures (forall i, j :: 0 <= i < j < |kept| ==> kept[i] < kept[j])
    ensures (forall i: nat :: i in kept <==> i < n && Keeps(lines, i))
    ensures (forall i :: 0 <= i < |kept| ==> kept[i] < n)
    ensures KeptLines(lines[..n]) == Written(lines, kept)
  {
    hide CountNested, Keeps, Written, KeepsLine;
    if n == 0 {
      kept := [];
      NoneWritten(lines);
    } else {
      kept := KeptLinesAre(lines, n - 1);
      assert lines[..n][..n - 1] == lines[..n - 1];
      KeepsNext(lines, n);
      if Keeps(lines, n - 1) {
        WrittenNext(lines, kept, n - 1);
        kept := kept + [n - 1];
      } else {
        assert KeptLines(lines[..n - 1]) + "" == KeptLines(lines[..n - 1]);
      }
    }
  }

  lemma NoneWritten(lines: seq<FieldLine>)
    ensures KeptLines(lines[..0]) == Written(lines, [])
  {
  }

  lemma WrittenNext(lines: seq<FieldLine>, kept: seq<nat>, k: nat)
    requires k < |lines| && forall i :: 0 <= i < |kept| ==> kept[i] < |lines|
    ensures Written(lines, kept + [k]) == Written(lines, kept) + (lines[k].line + "\n")
  {
    assert (kept + [k])[..|kept|] == kept;
  }

  lemma KeepsNext(lines: seq<FieldLine>, n: nat)
    requires 0 < n <= |lines|
    ensures KeepsLine(lines[..n], n - 1) <==> Keeps(lines, n - 1)
  {
    NestedCount(lines, n - 1);
    assert lines[..n][..n - 1] == lines[..n - 1];
  }

  // ---------------------------------------------------------------- The document

  /** A document is its heading, the piece's id and time, its lines that are kept, and, when it
      is not blank, its text as it is. It is titled by its text, or else by its id. */
  lemma DocumentIs(row: Row, textField: string, grouped: nat -> string) returns (kept: seq<nat>)
    ensures AreKept(LinesOf(row, textField, grouped), kept)
    ensures forall i :: 0 <= i < |kept| ==> kept[i] < |LinesOf(row, textField, grouped)|
    ensures var value := ValueIn(row.fields, textField);
            var text := if value.Text? then value.text else "";
            var title := if IsAllWhite(text) then row.id else Title(text);
            Render(row, textField, grouped)
            == Rendered(title,
                        "# " + title + "\n\n- Piece: " + row.id + "\n"
                        + (if row.occurredAt.Some? then "- Occurred: " + row.occurredAt.value + "\n" else "")
                        + Written(LinesOf(row, textField, grouped), kept)
                        + (if IsAllWhite(text) then "" else "\n" + text))
  {
    hide ValueIn, LinesOf, Title, KeptLines, Keeps, Written, IsAllWhite;
    var lines := LinesOf(row, textField, grouped);
    kept := KeptLinesAre(lines, |lines|);
    assert lines[..|lines|] == lines;
    var text := TextOf(row, textField);
    PartsSplit(text, IsBreak);
    TitleIs(text, Parts(text, IsBreak));
  }
}
