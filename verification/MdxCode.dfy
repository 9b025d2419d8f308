/** Which characters of an MDX text blankMdx of mock/mdx.ts takes for code: exactly those of
    its import and export blocks and of its expressions. */
module MdxCode {
  import opened Options
  import opened Mdx
  import Rendering

  // ---------------------------------------------------------------- Expressions

  /** The expression that opens at j ends at the first place after it where its braces, those
      in its strings left out, are as many closed as open. */
  ghost predicate EndsAt(text: string, j: nat, end: nat) {
    j < end <= |text| && DepthAt(text, j, end) == 0 && forall k :: j < k < end ==> DepthAt(text, j, k) > 0
  }

  /** The brace at j never closes. */
  ghost predicate NeverEnds(text: string, j: nat) {
    forall k :: j < k <= |text| ==> DepthAt(text, j, k) > 0
  }

  lemma OpensOne(text: string, j: nat, k: nat)
    requires j < k <= |text| && text[j] == '{'
    ensures DepthAt(text, j, k) == 1 + DepthAt(text, j + 1, k)
  {
  }

  /** An expression is found to its end, and only when it has one. */
  lemma ExpressionEnds(text: string, j: nat)
    requires j < |text| && text[j] == '{'
    ensures forall end: nat :: Closing(text, j, 0) == Some(end) <==> EndsAt(text, j, end)
    ensures Closing(text, j, 0) == None <==> NeverEnds(text, j)
  {
    hide DepthAt;
    ClosingBalances(text, j + 1, 1);
    var closing := Closing(text, j, 0);
    assert closing == Closing(text, j + 1, 1);
    forall k | j < k <= |text|
      ensures DepthAt(text, j, k) == 1 + DepthAt(text, j + 1, k)
    {
      OpensOne(text, j, k);
    }
    if closing.Some? {
      assert EndsAt(text, j, closing.value);
    }
  }

  /** With no brace and no quote inside, it ends with the first closing brace. */
  lemma PlainExpression(text: string, j: nat, k: nat)
    requires j < k < |text| && text[j] == '{' && text[k] == '}'
    requires forall x :: j < x < k ==> text[x] != '{' && text[x] != '}' && !IsQuote(text[x])
    ensures EndsAt(text, j, k + 1)
  {
    forall x | j < x <= k + 1
      ensures DepthAt(text, j, x) == if x == k + 1 then 0 else 1
    {
      OpensOne(text, j, x);
      PlainDepth(text, j + 1, x, k);
    }
  }

  lemma {:induction false} PlainDepth(text: string, from: nat, x: nat, k: nat)
    requires from <= x <= k + 1 <= |text| && from <= k && text[k] == '}'
    requires forall y :: from <= y < k ==> text[y] != '{' && text[y] != '}' && !IsQuote(text[y])
    ensures DepthAt(text, from, x) == if x == k + 1 then -1 else 0
    decreases k - from
  {
    if from < k && from < x {
      PlainDepth(text, from + 1, x, k);
    } else if from < x {
      assert DepthAt(text, x, x) == 0;
    }
  }

  // ---------------------------------------------------------------- Inline code and fences

  /** The run of the character at i is this long. */
  predicate IsRun(text: string, c: char, i: nat, n: nat) {
    i + n <= |text| && (forall k :: i <= k < i + n ==> text[k] == c) && (i + n < |text| ==> text[i + n] != c)
  }

  lemma RunIs(text: string, c: char, i: nat, n: nat)
    requires i <= |text|
    ensures RunOf(text, c, i) == n <==> IsRun(text, c, i, n)
  {
  }

  /** part is next at this place, from i on. */
  predicate IsNext(text: string, part: string, i: nat, at: nat) {
    i <= at && HeldAt(text, part, at) && forall k :: i <= k < at ==> !HeldAt(text, part, k)
  }

  lemma FirstFound(text: string, part: string, i: nat, at: nat)
    ensures FindText(text, part, i) == Some(at) <==> IsNext(text, part, i, at)
  {
    hide FindText;
    var found := FindText(text, part, i);
  }

  /** The run of backticks at j is closed at the next place that has as many. */
  predicate CodeCloses(text: string, j: nat, run: nat, close: nat) {
    run > 0 && IsRun(text, '`', j, run) && IsNext(text, text[j..j + run], j + run, close)
  }

  /** Inline code at j is a run of backticks closed in its line. */
  ghost predicate InlineCode(text: string, j: nat, end: nat, past: nat) {
    exists run: nat, close: nat :: CodeCloses(text, j, run, close) && close < end && past == close + run
  }

  lemma CodeEndIs(text: string, j: nat, end: nat, past: nat)
    requires j < end <= |text|
    ensures CodeEnd(text, j, end) == Some(past) <==> InlineCode(text, j, end, past)
  {
    hide HeldAt, IsRun, RunOf, FindText;
    var run := RunOf(text, '`', j);
    RunIs(text, '`', j, run);
    if InlineCode(text, j, end, past) {
      var n: nat, close: nat :| CodeCloses(text, j, n, close) && close < end && past == close + n;
      RunIs(text, '`', j, n);
      FirstFound(text, text[j..j + n], j + n, close);
    } else if run > 0 && past >= run {
      FirstFound(text, text[j..j + run], j + run, past - run);
      assert CodeCloses(text, j, run, past - run) <==> IsNext(text, text[j..j + run], j + run, past - run);
    }
  }

  /** A fence is three or more of either mark, all there are, after three spaces at most. */
  ghost predicate IsFence(line: string, fence: Fence) {
    && (fence.mark == '`' || fence.mark == '~') && fence.length >= 3
    && exists indent: nat :: indent <= 3 && IsRun(line, ' ', 0, indent) && IsRun(line, fence.mark, indent, fence.length)
  }

  lemma FenceIs(line: string, fence: Fence)
    ensures FenceOf(line) == Some(fence) <==> IsFence(line, fence)
  {
    hide RunOf;
    var indent := RunOf(line, ' ', 0);
    RunIs(line, ' ', 0, indent);
    if IsFence(line, fence) {
      var n: nat :| n <= 3 && IsRun(line, ' ', 0, n) && IsRun(line, fence.mark, n, fence.length);
      RunIs(line, ' ', 0, n);
      RunIs(line, fence.mark, n, fence.length);
    } else if indent < |line| {
      RunIs(line, line[indent], indent, RunOf(line, line[indent], indent));
    }
  }

  /** line is the word and then what does not go on with it. */
  predicate BeginsWith(line: string, word: string, rest: string) {
    line == word + rest && (rest == "" || !IsWord(rest[0]))
  }

  /** What trimming takes off is white space, next line aside, and the byte order mark. */
  lemma TrimmedSpaces(c: char)
    ensures IsSpace(c) <==> c == '\U{FEFF}' || (Rendering.IsWhite(c) && c != '\U{0085}')
  {
  }

  /** A word is of ASCII letters, digits and underscores. */
  lemma WordChars(c: char)
    ensures IsWord(c) <==> c as int in WORD
  {
  }

  const WORD: set<int> := (set n: int | 0x30 <= n <= 0x39) + (set n: int | 0x41 <= n <= 0x5A) + {0x5F} + (set n: int | 0x61 <= n <= 0x7A)

  /** A block starts with a line whose first word is import or export. */
  lemma EsmIs(line: string)
    ensures StartsEsm(line) <==> exists rest :: BeginsWith(line, "import", rest) || BeginsWith(line, "export", rest)
  {
    if StartsEsm(line) {
      var rest := line[6..];
      assert BeginsWith(line, "import", rest) || BeginsWith(line, "export", rest);
    }
  }

  // ---------------------------------------------------------------- The scan of a line

  /** Where the scan of a line goes on from j: past inline code, past an expression, or to the
      next character. */
  ghost function Stop(text: string, j: nat, end: nat): (stop: nat)
    requires j < end <= |text|
    ensures j < stop <= |text|
  {
    if text[j] == '`' && CodeEnd(text, j, end).Some? then CodeEnd(text, j, end).value
    else if text[j] == '{' && Closing(text, j, 0).Some? then Closing(text, j, 0).value
    else j + 1
  }

  /** The scan of the line from j comes to k, outside what it has passed. */
  ghost predicate Reaches(text: string, j: nat, end: nat, k: nat)
    requires end <= |text|
    decreases |text| - j
  {
    j <= k < end && (j == k || Reaches(text, Stop(text, j, end), end, k))
  }

  /** The character at x is marked, by marks that start at from. */
  predicate Marked(mask: seq<bool>, from: nat, x: nat) {
    from <= x < from + |mask| && mask[x - from]
  }

  lemma MarkedConcat(a: seq<bool>, b: seq<bool>, from: nat, x: nat)
    ensures Marked(a + b, from, x) <==> if x < from + |a| then Marked(a, from, x) else Marked(b, from + |a|, x)
  {
  }

  /** An expression that has an end begins at k. */
  ghost predicate Begins(text: string, k: nat) {
    k < |text| && text[k] == '{' && Closing(text, k, 0).Some?
  }

  /** What begins at k is marked whole if it is an expression and kept whole if it is not. */
  lemma {:induction false} InlineMarks(text: string, j: nat, end: nat, k: nat, x: nat)
    requires end <= |text| && Reaches(text, j, end, k) && k <= x < Stop(text, k, end)
    ensures x < Inline(text, j, end).next
    ensures Marked(Inline(text, j, end).mask, j, x) <==> Begins(text, k)
    decreases |text| - j
  {
    hide Closing, CodeEnd, Inline;
    var stop, begins := Stop(text, j, end), Begins(text, j);
    var rest := Inline(text, stop, end);
    InlineNext(text, j, end);
    var piece := if stop == j + 1 && !begins then [false] else All(begins, stop - j);
    assert Inline(text, j, end).mask == piece + rest.mask;
    MarkedConcat(piece, rest.mask, j, x);
    if j < k {
      InlineMarks(text, stop, end, k, x);
    }
  }

  /** Each character passed is of what begins at some place the scan came to. */
  lemma {:induction false} InlineCovers(text: string, j: nat, end: nat, x: nat) returns (k: nat)
    requires j < end <= |text| && j <= x < Inline(text, j, end).next
    ensures Reaches(text, j, end, k) && k < end && k <= x < Stop(text, k, end)
    decreases |text| - j
  {
    hide Closing, CodeEnd, Inline;
    InlineNext(text, j, end);
    var stop := Stop(text, j, end);
    if x < stop {
      k := j;
    } else if stop >= end {
      assert false;
    } else {
      k := InlineCovers(text, stop, end, x);
    }
  }

  /** With no backtick and no brace before it, the scan comes to a character. */
  lemma {:induction false} PlainReaches(text: string, j: nat, end: nat, k: nat)
    requires j <= k < end <= |text| && forall x :: j <= x < k ==> text[x] != '`' && text[x] != '{'
    ensures Reaches(text, j, end, k)
    decreases k - j
  {
    if j < k {
      PlainReaches(text, j + 1, end, k);
    }
  }

  // ---------------------------------------------------------------- The scan of a text

  /** The line that starts at i goes whole: it is fenced code's, or a block's. */
  predicate GoesWhole(text: string, i: nat, fence: Option<Fence>, esm: bool)
    requires i < |text|
  {
    StartsLine(text, i) && (fence.Some? || FenceOf(LineAt(text, i)).Some? || OfBlock(LineAt(text, i), esm))
  }

  /** The line goes on with a block, or starts one. */
  predicate OfBlock(line: string, esm: bool) {
    !IsBlank(line) && (esm || StartsEsm(line))
  }

  /** Where the scan goes on from a line, in or out of fenced code and of a block. */
  function NextAt(text: string, i: nat, fence: Option<Fence>, esm: bool): (next: (nat, Option<Fence>, bool))
    requires i < |text|
    ensures i < next.0 <= |text|
  {
    var line, end := LineAt(text, i), LineEnd(text, i);
    if !GoesWhole(text, i, fence, esm) then (Inline(text, i, end).next, fence, esm && !StartsLine(text, i))
    else if fence.Some? then (end, Closed(fence.value, FenceOf(line)), esm)
    else if FenceOf(line).Some? then (end, FenceOf(line), esm)
    else (end, None, true)
  }

  /** The scan from i comes to k, outside fenced code, blocks, inline code and expressions. */
  ghost predicate Visits(text: string, i: nat, fence: Option<Fence>, esm: bool, k: nat)
    requires i <= |text|
    decreases |text| - i
  {
    i < |text|
    && ((!GoesWhole(text, i, fence, esm) && Reaches(text, i, LineEnd(text, i), k))
        || var next := NextAt(text, i, fence, esm); Visits(text, next.0, next.1, next.2, k))
  }

  /** x is in a line of a block the scan from i comes to. */
  ghost predicate Blocked(text: string, i: nat, fence: Option<Fence>, esm: bool, x: nat)
    requires i <= |text|
    decreases |text| - i
  {
    i < |text|
    && ((GoesWhole(text, i, fence, esm) && fence.None? && FenceOf(LineAt(text, i)).None? && i <= x < LineEnd(text, i))
        || var next := NextAt(text, i, fence, esm); Blocked(text, next.0, next.1, next.2, x))
  }

  /** x is in the expression from k to end. */
  ghost predicate IsIn(text: string, k: nat, end: nat, x: nat) {
    k < |text| && text[k] == '{' && EndsAt(text, k, end) && k <= x < end
  }

  /** x is in an expression the scan from i comes to. */
  ghost predicate InExpression(text: string, i: nat, fence: Option<Fence>, esm: bool, x: nat)
    requires i <= |text|
  {
    exists k: nat, end: nat :: Visits(text, i, fence, esm, k) && IsIn(text, k, end, x)
  }

  lemma CodeNext(text: string, i: nat, fence: Option<Fence>, esm: bool)
    requires i < |text|
    ensures var next := NextAt(text, i, fence, esm);
            var piece := if GoesWhole(text, i, fence, esm)
                         then All(fence.None? && FenceOf(LineAt(text, i)).None?, next.0 - i)
                         else Inline(text, i, LineEnd(text, i)).mask;
            Code(text, i, fence, esm) == piece + Code(text, next.0, next.1, next.2)
  {
    hide LineAt, LineEnd, FenceOf, IsBlank, StartsEsm, Inline, Closed, Code, StartsLine;
    CodeLine(text, i, fence, esm);
  }

  lemma {:induction false} VisitsAfter(text: string, i: nat, fence: Option<Fence>, esm: bool, k: nat)
    requires i <= |text| && Visits(text, i, fence, esm, k)
    ensures i <= k < |text|
    decreases |text| - i
  {
    hide GoesWhole, NextAt, Inline;
    var next := NextAt(text, i, fence, esm);
    if Visits(text, next.0, next.1, next.2, k) {
      VisitsAfter(text, next.0, next.1, next.2, k);
    }
  }

  lemma {:induction false} BlockedAfter(text: string, i: nat, fence: Option<Fence>, esm: bool, x: nat)
    requires i <= |text| && Blocked(text, i, fence, esm, x)
    ensures i <= x < |text|
    decreases |text| - i
  {
    hide GoesWhole, NextAt, Inline;
    var next := NextAt(text, i, fence, esm);
    if Blocked(text, next.0, next.1, next.2, x) {
      BlockedAfter(text, next.0, next.1, next.2, x);
    }
  }

  /** A character of the line at i is in an expression exactly when it is in one of that
      line's. */
  lemma FirstLineMarks(text: string, i: nat, fence: Option<Fence>, esm: bool, x: nat)
    requires i < |text| && !GoesWhole(text, i, fence, esm) && i <= x < NextAt(text, i, fence, esm).0
    ensures Marked(Inline(text, i, LineEnd(text, i)).mask, i, x) <==> InExpression(text, i, fence, esm, x)
  {
    hide GoesWhole, Inline, Closing, Reaches, DepthAt, EndsAt, LineEnd, Marked;
    var end, next := LineEnd(text, i), NextAt(text, i, fence, esm);
    var k := InlineCovers(text, i, end, x);
    InlineMarks(text, i, end, k, x);
    if Begins(text, k) {
      ExpressionEnds(text, k);
      assert Visits(text, i, fence, esm, k) && IsIn(text, k, Stop(text, k, end), x);
    }
    if InExpression(text, i, fence, esm, x) {
      var at: nat, last: nat :| Visits(text, i, fence, esm, at) && IsIn(text, at, last, x);
      if Visits(text, next.0, next.1, next.2, at) {
        VisitsAfter(text, next.0, next.1, next.2, at);
      }
      ExpressionEnds(text, at);
      InlineMarks(text, i, end, at, x);
    }
  }

  /** And one past it when it is in an expression of what follows. */
  lemma LaterMarks(text: string, i: nat, fence: Option<Fence>, esm: bool, x: nat)
    requires i < |text| && NextAt(text, i, fence, esm).0 <= x
    ensures var next := NextAt(text, i, fence, esm);
            InExpression(text, i, fence, esm, x) <==> InExpression(text, next.0, next.1, next.2, x)
  {
    hide GoesWhole, Inline, Closing, Reaches, DepthAt, EndsAt, LineEnd;
    var end, next := LineEnd(text, i), NextAt(text, i, fence, esm);
    if InExpression(text, next.0, next.1, next.2, x) {
      var at: nat, last: nat :| Visits(text, next.0, next.1, next.2, at) && IsIn(text, at, last, x);
      assert Visits(text, i, fence, esm, at);
    }
    if InExpression(text, i, fence, esm, x) {
      var at: nat, last: nat :| Visits(text, i, fence, esm, at) && IsIn(text, at, last, x);
      if !Visits(text, next.0, next.1, next.2, at) {
        ExpressionEnds(text, at);
        InlineMarks(text, i, end, at, x);
      }
    }
  }

  /** The characters blanked are exactly those of the blocks and of the expressions the scan
      comes to: fenced code, inline code and braces that never close are kept. */
  lemma {:induction false} CodeIsExactly(text: string, i: nat, fence: Option<Fence>, esm: bool, x: nat)
    requires i <= x < |text|
    ensures Marked(Code(text, i, fence, esm), i, x) <==> Blocked(text, i, fence, esm, x) || InExpression(text, i, fence, esm, x)
    decreases |text| - i
  {
    hide GoesWhole, Inline, Code, InExpression, Visits, Marked, LineEnd, LineAt, FenceOf, Closed, StartsLine;
    var next := NextAt(text, i, fence, esm);
    CodeNext(text, i, fence, esm);
    var whole := GoesWhole(text, i, fence, esm);
    var piece := if whole then All(fence.None? && FenceOf(LineAt(text, i)).None?, next.0 - i) else Inline(text, i, LineEnd(text, i)).mask;
    MarkedConcat(piece, Code(text, next.0, next.1, next.2), i, x);
    if x >= next.0 {
      LaterMarks(text, i, fence, esm, x);
      CodeIsExactly(text, next.0, next.1, next.2, x);
    } else {
      if Blocked(text, next.0, next.1, next.2, x) {
        BlockedAfter(text, next.0, next.1, next.2, x);
      }
      if whole {
        WholeHasNone(text, i, fence, esm, x);
        AllMarked(fence.None? && FenceOf(LineAt(text, i)).None?, next.0 - i, i, x);
      } else {
        FirstLineMarks(text, i, fence, esm, x);
      }
    }
  }

  lemma AllMarked(b: bool, n: nat, from: nat, x: nat)
    requires from <= x < from + n
    ensures Marked(All(b, n), from, x) <==> b
  {
  }

  lemma WholeHasNone(text: string, i: nat, fence: Option<Fence>, esm: bool, x: nat)
    requires i < |text| && GoesWhole(text, i, fence, esm) && x < NextAt(text, i, fence, esm).0
    ensures !InExpression(text, i, fence, esm, x)
  {
    hide GoesWhole, Inline, LineEnd, EndsAt;
    var next := NextAt(text, i, fence, esm);
    if InExpression(text, i, fence, esm, x) {
      var at: nat, last: nat :| Visits(text, i, fence, esm, at) && IsIn(text, at, last, x);
      VisitsAfter(text, next.0, next.1, next.2, at);
    }
  }

  // ---------------------------------------------------------------- A line of text

  /** In a line of text, after what holds neither a backtick nor a brace, an expression is
      blanked whole, and a brace that never closes is kept. */
  lemma TextLineMarks(text: string, i: nat, j: nat, x: nat)
    requires i < |text| && i <= j < LineEnd(text, i) && !GoesWhole(text, i, None, false) && text[j] == '{'
    requires forall k :: i <= k < j ==> text[k] != '`' && text[k] != '{'
    ensures (exists end :: EndsAt(text, j, end) && j <= x < end) ==> Marked(Code(text, i, None, false), i, x)
    ensures NeverEnds(text, j) && x == j ==> !Marked(Code(text, i, None, false), i, x)
  {
    hide GoesWhole, Inline, Code, LineEnd, Marked, DepthAt;
    var end := LineEnd(text, i);
    PlainReaches(text, i, end, j);
    ExpressionEnds(text, j);
    CodeNext(text, i, None, false);
    var next := NextAt(text, i, None, false);
    MarkedConcat(Inline(text, i, end).mask, Code(text, next.0, next.1, next.2), i, x);
    if j <= x < Stop(text, j, end) {
      InlineMarks(text, i, end, j, x);
    }
  }

  /** No character begins or ends anything: no brace, quote or line end. */
  predicate IsPlain(s: string) {
    forall k :: 0 <= k < |s| ==> s[k] != '{' && s[k] != '}' && s[k] != '\n' && !IsQuote(s[k])
  }

  /** A line of text around one plain expression comes out with the expression blanked. */
  lemma OneExpression(before: string, inside: string, after: string)
    requires IsPlain(before) && IsPlain(inside) && IsPlain(after)
    requires var text := before + ("{" + inside + "}" + after); !GoesWhole(text, 0, None, false)
    ensures var text := before + ("{" + inside + "}" + after);
            Masked(text, Code(text, 0, None, false)) == before + (Blank("{" + inside + "}") + after)
  {
    hide GoesWhole, Inline, Code, Masked, Blank, EndsAt, Visits, Blocked, Closing;
    var text, j, end := before + ("{" + inside + "}" + after), |before|, |before| + |inside| + 2;
    PlainParts(before, inside, after);
    PlainExpression(text, j, end - 1);
    var code := Code(text, 0, None, false);
    var marks := All(false, j) + (All(true, end - j) + All(false, |after|));
    forall x | 0 <= x < |text|
      ensures code[x] == marks[x]
    {
      CodeIsExactly(text, 0, None, false, x);
      OnlyExpression(text, j, end, x);
    }
    assert code == marks;
    MaskedConcat(before, "{" + inside + "}" + after, All(false, j), All(true, end - j) + All(false, |after|));
    MaskedConcat("{" + inside + "}", after, All(true, end - j), All(false, |after|));
    MaskedAll(before);
    MaskedAll("{" + inside + "}");
    MaskedAll(after);
  }

  lemma PlainParts(before: string, inside: string, after: string)
    requires IsPlain(before) && IsPlain(inside) && IsPlain(after)
    ensures var text, j, k := before + ("{" + inside + "}" + after), |before|, |before| + |inside| + 1;
            && |text| == k + 1 + |after| && text[j] == '{' && text[k] == '}'
            && forall x :: 0 <= x < |text| && x != j && x != k ==>
                 text[x] != '{' && text[x] != '}' && text[x] != '\n' && !IsQuote(text[x])
  {
    var text, j, k := before + ("{" + inside + "}" + after), |before|, |before| + |inside| + 1;
    forall x | 0 <= x < |text| && x != j && x != k
      ensures text[x] != '{' && text[x] != '}' && text[x] != '\n' && !IsQuote(text[x])
    {
      assert text[x] == if x < j then before[x] else if x < k then inside[x - j - 1] else after[x - k - 1];
    }
  }

  /** Of a text of one line with one expression, just that is code. */
  lemma OnlyExpression(text: string, j: nat, end: nat, x: nat)
    requires j < end <= |text| && EndsAt(text, j, end) && x < |text| && text[j] == '{' && !GoesWhole(text, 0, None, false)
    requires forall k :: 0 <= k < |text| ==> text[k] != '\n' && text[k] != '`' && (text[k] == '{' ==> k == j)
    ensures !Blocked(text, 0, None, false, x)
    ensures InExpression(text, 0, None, false, x) <==> j <= x < end
  {
    hide GoesWhole, Inline, EndsAt, DepthAt, Closing;
    assert LineEnd(text, 0) == |text|;
    LineGoesOn(text, 0, |text|);
    PlainReaches(text, 0, |text|, j);
    assert Visits(text, 0, None, false, j);
    assert j <= x < end ==> IsIn(text, j, end, x);
    if InExpression(text, 0, None, false, x) {
      var at: nat, last: nat :| Visits(text, 0, None, false, at) && IsIn(text, at, last, x);
      ExpressionEnds(text, j);
      assert last == end;
    }
  }

  lemma {:induction false} LineGoesOn(text: string, i: nat, end: nat)
    requires i <= end <= |text|
    ensures Inline(text, i, end).next >= end
    decreases |text| - i
  {
    hide Closing, CodeEnd, Inline;
    if i < end {
      InlineNext(text, i, end);
      var stop := Stop(text, i, end);
      if stop < end {
        LineGoesOn(text, stop, end);
      } else {
        InlineStops(text, stop, end);
      }
    } else {
      InlineStops(text, i, end);
    }
  }

  /** So is that of a short line. */
  lemma ALine()
    ensures Masked("Pay {a} now", Code("Pay {a} now", 0, None, false)) == "Pay     now"
  {
    hide Masked, Code, GoesWhole, Blank;
    var built := "Pay " + ("{" + "a" + "}" + " now");
    assert built == "Pay {a} now";
    OfText(built);
    OneExpression("Pay ", "a", " now");
    assert "{" + "a" + "}" == "{a}";
    ThreeSpaces();
    assert "Pay " + ("   " + " now") == "Pay     now";
  }

  /** A line that begins with a capital is text. */
  lemma OfText(text: string)
    requires text != "" && text[0] == 'P'
    ensures !GoesWhole(text, 0, None, false)
  {
    var line := LineAt(text, 0);
    assert line[0] == 'P';
    assert "import"[0] == 'i' && "export"[0] == 'e';
  }

  lemma ThreeSpaces()
    ensures Blank("{a}") == "   "
  {
    assert "{a}"[..2] == "{a" && "{a"[..1] == "{" && "{"[..0] == "";
    assert BlankChar('a') == " " && BlankChar('{') == " " && BlankChar('}') == " ";
  }
}
