/** MDX as a load reads it, mock/mdx.ts: its code overwritten with spaces of the
    same UTF-8 length, newlines kept, so every byte offset is the original's. */
module Mdx {
  import opened Options
  import opened Utf8

  // ---------------------------------------------------------------- Blanking

  function Spaces(n: nat): string {
    if n == 0 then "" else " " + Spaces(n - 1)
  }

  /** A character blanked: spaces of its length, a newline kept. */
  function BlankChar(c: char): string {
    if c == '\n' then "\n" else Spaces(|EncodeChar(c)|)
  }

  function Blank(text: string): string {
    if text == "" then "" else Blank(text[..|text| - 1]) + BlankChar(text[|text| - 1])
  }

  /** text with the characters mask marks blanked, and the others copied. */
  function Masked(text: string, mask: seq<bool>): string
    requires |mask| == |text|
  {
    if text == "" then ""
    else
      var n := |text| - 1;
      Masked(text[..n], mask[..n]) + (if mask[n] then BlankChar(text[n]) else [text[n]])
  }

  function All(b: bool, n: nat): (mask: seq<bool>)
    ensures |mask| == n && forall i :: 0 <= i < n ==> mask[i] == b
  {
    seq(n, _ => b)
  }

  // ---------------------------------------------------------------- Lines

  /** Where c is next, from i on. */
  function Find(text: string, c: char, i: nat): (at: Option<nat>)
    ensures at.Some? ==> i <= at.value < |text| && text[at.value] == c && forall k :: i <= k < at.value ==> text[k] != c
    ensures at.None? ==> forall k :: i <= k < |text| ==> text[k] != c
    decreases |text| - i
  {
    if i >= |text| then None else if text[i] == c then Some(i) else Find(text, c, i + 1)
  }

  predicate HeldAt(text: string, part: string, i: nat) {
    i + |part| <= |text| && text[i..i + |part|] == part
  }

  /** Where some text is next, from i on. */
  function FindText(text: string, part: string, i: nat): (at: Option<nat>)
    ensures at.Some? ==> i <= at.value && HeldAt(text, part, at.value) && forall k :: i <= k < at.value ==> !HeldAt(text, part, k)
    ensures at.None? ==> forall k :: i <= k <= |text| ==> !HeldAt(text, part, k)
    decreases |text| - i
  {
    if i + |part| > |text| then None
    else if text[i..i + |part|] == part then Some(i)
    else if i == |text| then None
    else FindText(text, part, i + 1)
  }

  /** Past the newline of i's line, or the end of the text. */
  function LineEnd(text: string, i: nat): (end: nat)
    requires i < |text|
    ensures i < end <= |text|
  {
    var newline := Find(text, '\n', i);
    if newline.Some? then newline.value + 1 else |text|
  }

  /** The rest of i's line, without its newline. */
  function LineAt(text: string, i: nat): string
    requires i < |text|
  {
    var newline := Find(text, '\n', i);
    text[i..if newline.Some? then newline.value else |text|]
  }

  predicate StartsLine(text: string, i: nat)
    requires i <= |text|
  {
    i == 0 || text[i - 1] == '\n'
  }

  /** What String.prototype.trim takes off: white space and line terminators. */
  predicate IsSpace(c: char) {
    || c == '\t' || c == '\n' || c == '\U{000B}' || c == '\U{000C}' || c == '\r' || c == ' ' || c == '\U{00A0}'
    || c == '\U{1680}' || '\U{2000}' <= c <= '\U{200A}' || c == '\U{2028}' || c == '\U{2029}' || c == '\U{202F}'
    || c == '\U{205F}' || c == '\U{3000}' || c == '\U{FEFF}'
  }

  predicate IsBlank(line: string) {
    forall k :: 0 <= k < |line| ==> IsSpace(line[k])
  }

  predicate IsWord(c: char) {
    'a' <= c <= 'z' || 'A' <= c <= 'Z' || '0' <= c <= '9' || c == '_'
  }

  predicate StartsEsm(line: string) {
    && ("import" <= line || "export" <= line)
    && (|line| == 6 || !IsWord(line[6]))
  }

  /** How many characters c line has from i on. */
  function RunOf(line: string, c: char, i: nat): (n: nat)
    ensures i <= |line| ==> i + n <= |line|
    ensures forall k :: i <= k < i + n && k < |line| ==> line[k] == c
    ensures i + n < |line| ==> line[i + n] != c
    decreases |line| - i
  {
    if i < |line| && line[i] == c then 1 + RunOf(line, c, i + 1) else 0
  }

  /** What opens or closes fenced code: which character, and how many. */
  datatype Fence = Fence(mark: char, length: nat)

  function FenceOf(line: string): Option<Fence> {
    var indent := RunOf(line, ' ', 0);
    if indent > 3 || indent >= |line| || (line[indent] != '`' && line[indent] != '~') then None
    else
      var length := RunOf(line, line[indent], indent);
      if length >= 3 then Some(Fence(line[indent], length)) else None
  }

  // ---------------------------------------------------------------- Expressions

  predicate IsQuote(c: char) {
    c == '"' || c == '\'' || c == '`'
  }

  /** Past the brace that closes depth open ones, strings skipped, from i on. */
  function Closing(text: string, i: nat, depth: nat): (end: Option<nat>)
    ensures end.Some? ==> i < end.value <= |text|
    decreases |text| - i
  {
    if i >= |text| then None
    else if IsQuote(text[i]) then
      var close := Find(text, text[i], i + 1);
      if close.None? then None else Closing(text, close.value + 1, depth)
    else if text[i] == '{' then Closing(text, i + 1, depth + 1)
    else if text[i] == '}' then
      if depth == 1 then Some(i + 1) else Closing(text, i + 1, if depth > 0 then depth - 1 else 0)
    else Closing(text, i + 1, depth)
  }

  method FindClosing(text: string, from: nat) returns (end: Option<nat>)
    requires from < |text| && text[from] == '{'
    ensures end == Closing(text, from, 0)
  {
    var depth: int := 0;
    var i := from;
    while i < |text|
      invariant from <= i && depth >= 0 && (i > from ==> depth >= 1)
      invariant Closing(text, i, depth) == Closing(text, from, 0)
    {
      var c := text[i];
      if IsQuote(c) {
        var close := Find(text, c, i + 1);
        if close.None? {
          return None;
        }
        i := close.value;
      } else if c == '{' {
        depth := depth + 1;
      } else if c == '}' {
        depth := depth - 1;
        if depth == 0 {
          return Some(i + 1);
        }
      }
      i := i + 1;
    }
    return None;
  }

  // ---------------------------------------------------------------- What is blanked

  /** The marks of the text from i to next. */
  datatype Span = Span(mask: seq<bool>, next: nat)

  /** Where the inline code at j ends, if its run of backticks closes in the line. */
  function CodeEnd(text: string, j: nat, end: nat): (past: Option<nat>)
    requires j < end <= |text|
    ensures past.Some? ==> j < past.value <= |text|
  {
    var run := RunOf(text, '`', j);
    if run == 0 then None
    else
      var close := FindText(text, text[j..j + run], j + run);
      if close.Some? && close.value < end then Some(close.value + run) else None
  }

  /** A line's text from j: inline code is kept and an expression blanked, to where it
      ends, which may be past the line; all else is kept. */
  function Inline(text: string, j: nat, end: nat): (span: Span)
    requires end <= |text|
    ensures j <= |text| ==> j <= span.next <= |text| && |span.mask| == span.next - j
    ensures j < end ==> j < span.next
    ensures j >= end ==> span == Span([], j)
    decreases |text| - j
  {
    if j >= end then Span([], j)
    else
      var code := if text[j] == '`' then CodeEnd(text, j, end) else None;
      var expression := if text[j] == '{' then Closing(text, j, 0) else None;
      if code.Some? then
        var rest := Inline(text, code.value, end);
        Span(All(false, code.value - j) + rest.mask, rest.next)
      else if expression.Some? then
        var rest := Inline(text, expression.value, end);
        Span(All(true, expression.value - j) + rest.mask, rest.next)
      else
        var rest := Inline(text, j + 1, end);
        Span([false] + rest.mask, rest.next)
  }

  /** Which of the text's characters from i on are code: lines of an import or export
      block, from one that starts with either to the next blank line, and expressions,
      outside fenced and inline code. */
  function Code(text: string, i: nat, fence: Option<Fence>, esm: bool): (mask: seq<bool>)
    requires i <= |text|
    ensures |mask| == |text| - i
    decreases |text| - i
  {
    if i == |text| then []
    else
      var line, end := LineAt(text, i), LineEnd(text, i);
      if StartsLine(text, i) && fence.Some? then
        All(false, end - i) + Code(text, end, Closed(fence.value, FenceOf(line)), esm)
      else if StartsLine(text, i) && FenceOf(line).Some? then
        All(false, end - i) + Code(text, end, FenceOf(line), esm)
      else
        var block := if !StartsLine(text, i) then esm else !IsBlank(line) && (esm || StartsEsm(line));
        if StartsLine(text, i) && block then All(true, end - i) + Code(text, end, None, true)
        else
          var span := Inline(text, i, end);
          span.mask + Code(text, span.next, fence, block)
  }

  /** The fence after a line of fenced code. */
  function Closed(fence: Fence, found: Option<Fence>): Option<Fence> {
    if found.Some? && found.value.mark == fence.mark && found.value.length >= fence.length then None else Some(fence)
  }

  // ---------------------------------------------------------------- blankMdx

  lemma {:induction false} MaskedConcat(a: string, b: string, m: seq<bool>, n: seq<bool>)
    requires |m| == |a| && |n| == |b|
    ensures Masked(a + b, m + n) == Masked(a, m) + Masked(b, n)
  {
    hide BlankChar;
    if b == "" {
      assert a + b == a && m + n == m;
    } else {
      var k := |b| - 1;
      MaskedConcat(a, b[..k], m, n[..k]);
      MaskedLast(a + b, m + n);
      MaskedLast(b, n);
      assert (a + b)[..|a| + k] == a + b[..k] && (m + n)[..|m| + k] == m + n[..k];
    }
  }

  lemma MaskedLast(text: string, mask: seq<bool>)
    requires |mask| == |text| > 0
    ensures var n := |text| - 1;
            Masked(text, mask) == Masked(text[..n], mask[..n]) + (if mask[n] then BlankChar(text[n]) else [text[n]])
  {
  }

  lemma {:induction false} MaskedAll(text: string)
    ensures Masked(text, All(true, |text|)) == Blank(text)
    ensures Masked(text, All(false, |text|)) == text
  {
    hide BlankChar;
    if text != "" {
      var n := |text| - 1;
      MaskedAll(text[..n]);
      assert All(true, |text|)[..n] == All(true, n) && All(false, |text|)[..n] == All(false, n);
      assert text == text[..n] + [text[n]];
    }
  }

  /** Once a stretch of the text is written with its marks, the rest follows. */
  lemma Advance(text: string, mask: seq<bool>, i: nat, j: nat, out: string, piece: seq<bool>, rest: seq<bool>, whole: seq<bool>)
    requires i <= j <= |text| && |mask| == i && |piece| == j - i && out == Masked(text[..i], mask)
    requires mask + (piece + rest) == whole
    ensures Masked(text[..j], mask + piece) == out + Masked(text[i..j], piece)
    ensures (mask + piece) + rest == whole
  {
    assert text[..j] == text[..i] + text[i..j];
    MaskedConcat(text[..i], text[i..j], mask, piece);
  }

  method BlankMdx(text: string) returns (out: string)
    ensures out == Masked(text, Code(text, 0, None, false))
  {
    hide Masked, Code;
    out := "";
    var fence: Option<Fence>, esm := None, false;
    var i := 0;
    ghost var mask: seq<bool> := [];
    ghost var whole := Code(text, 0, None, false);
    StartMask(text);
    while i < |text|
      invariant i <= |text| && |mask| == i
      invariant mask + Code(text, i, fence, esm) == whole
      invariant out == Masked(text[..i], mask)
      decreases |text| - i
    {
      var written, next, nextFence, nextEsm, piece := BlankPart(text, i, fence, esm);
      Advance(text, mask, i, next, out, piece, Code(text, next, nextFence, nextEsm), whole);
      out := out + written;
      mask := mask + piece;
      i, fence, esm := next, nextFence, nextEsm;
    }
    CodeEnds(text, fence, esm);
    assert text[..|text|] == text && mask + [] == mask;
  }

  /** A line, or the rest of one an expression ended on: what is written for it, and
      where the scan goes on. */
  method BlankPart(text: string, i: nat, fence: Option<Fence>, esm: bool)
    returns (written: string, next: nat, nextFence: Option<Fence>, nextEsm: bool, ghost piece: seq<bool>)
    requires i < |text|
    ensures i < next <= |text| && |piece| == next - i && written == Masked(text[i..next], piece)
    ensures Code(text, i, fence, esm) == piece + Code(text, next, nextFence, nextEsm)
  {
    hide Masked, Code, Inline, LineEnd, StartsLine, LineAt, IsBlank, StartsEsm, FenceOf, Blank;
    var line, end := LineAt(text, i), LineEnd(text, i);
    CodeLine(text, i, fence, esm);
    MaskedAll(text[i..end]);
    nextFence, nextEsm := fence, esm;
    if StartsLine(text, i) {
      var found := FenceOf(line);
      if fence.Some? {
        if found.Some? && found.value.mark == fence.value.mark && found.value.length >= fence.value.length {
          nextFence := None;
        }
        return text[i..end], end, nextFence, nextEsm, All(false, end - i);
      }
      if found.Some? {
        return text[i..end], end, found, nextEsm, All(false, end - i);
      }
      if IsBlank(line) {
        nextEsm := false;
      } else if esm || StartsEsm(line) {
        nextEsm := true;
      }
      if nextEsm {
        return Blank(text[i..end]), end, nextFence, nextEsm, All(true, end - i);
      }
    }
    piece := Inline(text, i, end).mask;
    written, next := BlankInline(text, i, end);
  }

  lemma StartMask(text: string)
    ensures "" == Masked(text[..0], []) && [] + Code(text, 0, None, false) == Code(text, 0, None, false)
  {
    var whole := Code(text, 0, None, false);
    assert [] + whole == whole && Masked(text[..0], []) == "";
  }

  lemma CodeEnds(text: string, fence: Option<Fence>, esm: bool)
    ensures Code(text, |text|, fence, esm) == []
  {
  }

  /** Code, one line further on. */
  lemma CodeLine(text: string, i: nat, fence: Option<Fence>, esm: bool)
    requires i < |text|
    ensures var line, end := LineAt(text, i), LineEnd(text, i);
            var block := if !StartsLine(text, i) then esm else !IsBlank(line) && (esm || StartsEsm(line));
            && (StartsLine(text, i) && fence.Some? ==>
                  Code(text, i, fence, esm) == All(false, end - i) + Code(text, end, Closed(fence.value, FenceOf(line)), esm))
            && (StartsLine(text, i) && fence.None? && FenceOf(line).Some? ==>
                  Code(text, i, fence, esm) == All(false, end - i) + Code(text, end, FenceOf(line), esm))
            && (!(StartsLine(text, i) && (fence.Some? || FenceOf(line).Some?)) ==>
                  if StartsLine(text, i) && block then
                    Code(text, i, fence, esm) == All(true, end - i) + Code(text, end, None, true)
                  else Code(text, i, fence, esm)
                       == Inline(text, i, end).mask + Code(text, Inline(text, i, end).next, fence, block))
  {
  }

  /** The rest of a line, from i, and where the scan goes on. */
  method BlankInline(text: string, i: nat, end: nat) returns (out: string, next: nat)
    requires i < end <= |text|
    ensures next == Inline(text, i, end).next && out == Masked(text[i..next], Inline(text, i, end).mask)
  {
    hide Masked, Inline;
    out := "";
    var j := i;
    ghost var mask: seq<bool> := [];
    NoMask(text, i, end);
    while j < end
      invariant i <= j <= |text| && |mask| == j - i && out == Masked(text[i..j], mask)
      invariant mask + Inline(text, j, end).mask == Inline(text, i, end).mask
      invariant Inline(text, j, end).next == Inline(text, i, end).next
      decreases |text| - j
    {
      var written, past, piece := InlinePart(text, j, end);
      Stretch(text, mask, i, j, past, out, piece);
      Regroup(mask, piece, Inline(text, past, end).mask);
      out := out + written;
      mask := mask + piece;
      j := past;
    }
    next := j;
    InlineStops(text, j, end);
    assert mask + [] == mask;
  }

  lemma Regroup(a: seq<bool>, b: seq<bool>, c: seq<bool>)
    ensures a + (b + c) == (a + b) + c
  {
  }

  /** Inline code, an expression or one character of a line: what is written for it, and
      where the scan goes on. */
  method InlinePart(text: string, j: nat, end: nat) returns (written: string, past: nat, ghost piece: seq<bool>)
    requires j < end <= |text|
    ensures j < past <= |text| && |piece| == past - j && written == Masked(text[j..past], piece)
    ensures Inline(text, j, end) == Span(piece + Inline(text, past, end).mask, Inline(text, past, end).next)
  {
    hide Masked, Inline, Closing, CodeEnd, Blank, Find, FindText, RunOf;
    InlineNext(text, j, end);
    var c := text[j];
    if c == '`' {
      var close := CodeEnd(text, j, end);
      if close.Some? {
        MaskedAll(text[j..close.value]);
        return text[j..close.value], close.value, All(false, close.value - j);
      }
    }
    if c == '{' {
      var close := FindClosing(text, j);
      if close.Some? {
        MaskedAll(text[j..close.value]);
        return Blank(text[j..close.value]), close.value, All(true, close.value - j);
      }
    }
    OneKept(text, j);
    return [c], j + 1, [false];
  }

  lemma NoMask(text: string, i: nat, end: nat)
    requires i <= end <= |text|
    ensures "" == Masked(text[i..i], []) && [] + Inline(text, i, end).mask == Inline(text, i, end).mask
  {
    var mask := Inline(text, i, end).mask;
    assert [] + mask == mask && Masked(text[i..i], []) == "";
  }

  lemma OneKept(text: string, j: nat)
    requires j < |text|
    ensures Masked(text[j..j + 1], [false]) == [text[j]]
  {
    assert text[j..j + 1][..0] == "" && [false][..0] == [];
    assert Masked("", []) == "";
  }

  lemma Stretch(text: string, mask: seq<bool>, i: nat, j: nat, k: nat, out: string, piece: seq<bool>)
    requires i <= j <= k <= |text| && |mask| == j - i && |piece| == k - j && out == Masked(text[i..j], mask)
    ensures Masked(text[i..k], mask + piece) == out + Masked(text[j..k], piece)
  {
    assert text[i..k] == text[i..j] + text[j..k];
    MaskedConcat(text[i..j], text[j..k], mask, piece);
  }

  /** Inline, one step further on. */
  lemma InlineNext(text: string, j: nat, end: nat)
    requires j < end <= |text|
    ensures var code := if text[j] == '`' then CodeEnd(text, j, end) else None;
            var expression := if text[j] == '{' then Closing(text, j, 0) else None;
            var past := if code.Some? then code.value else if expression.Some? then expression.value else j + 1;
            var piece := if code.Some? then All(false, past - j) else if expression.Some? then All(true, past - j) else [false];
            && j < past <= |text|
            && Inline(text, j, end) == Span(piece + Inline(text, past, end).mask, Inline(text, past, end).next)
  {
  }

  // ---------------------------------------------------------------- What blanking keeps

  const NEWLINE: byte := 0x0A

  lemma {:induction false} SpacesBytes(n: nat)
    ensures |Encode(Spaces(n))| == n && forall k :: 0 <= k < n ==> Encode(Spaces(n))[k] == 0x20
  {
    if n > 0 {
      SpacesBytes(n - 1);
      assert Spaces(n)[1..] == Spaces(n - 1);
      assert EncodeChar(' ') == [0x20];
    }
  }

  /** A blanked character takes the bytes it took, and is a newline where it was. */
  lemma BlankedBytes(c: char)
    ensures |Encode(BlankChar(c))| == |Encode([c])|
    ensures forall k :: 0 <= k < |Encode([c])| ==> (Encode(BlankChar(c))[k] == NEWLINE <==> Encode([c])[k] == NEWLINE)
  {
    assert [c][1..] == "" && Encode("") == [];
    assert Encode([c]) == EncodeChar(c) + [];
    SpacesBytes(|EncodeChar(c)|);
    assert c == '\n' <==> EncodeChar(c)[0] == NEWLINE;
    assert |EncodeChar(c)| > 1 ==> forall k :: 0 <= k < |EncodeChar(c)| ==> EncodeChar(c)[k] >= 0x80;
  }

  /** Whatever is blanked: the same UTF-8 length, and a newline at exactly the byte
      offsets that had one. */
  lemma {:induction false} MaskedKeepsOffsets(text: string, mask: seq<bool>)
    requires |mask| == |text|
    ensures |Encode(Masked(text, mask))| == |Encode(text)|
    ensures forall k :: 0 <= k < |Encode(text)| ==>
              (Encode(Masked(text, mask))[k] == NEWLINE <==> Encode(text)[k] == NEWLINE)
  {
    hide BlankChar, EncodeChar;
    if text != "" {
      var n := |text| - 1;
      MaskedKeepsOffsets(text[..n], mask[..n]);
      var last := if mask[n] then BlankChar(text[n]) else [text[n]];
      BlankedBytes(text[n]);
      assert text == text[..n] + [text[n]];
      EncodeConcat(text[..n], [text[n]]);
      EncodeConcat(Masked(text[..n], mask[..n]), last);
    }
  }

  /** So each character of the text starts at its own byte offset still. */
  lemma EachOffsetKept(text: string, mask: seq<bool>, i: nat)
    requires |mask| == |text| && i < |text|
    ensures Masked(text, mask) == Masked(text[..i], mask[..i]) + Masked([text[i]], [mask[i]]) + Masked(text[i + 1..], mask[i + 1..])
    ensures BytesOf(Masked(text[..i], mask[..i])) == BytesOf(text[..i])
    ensures Masked([text[i]], [mask[i]]) == if mask[i] then BlankChar(text[i]) else [text[i]]
  {
    hide BlankChar, Masked, Encode;
    assert text == text[..i] + [text[i]] + text[i + 1..] && mask == mask[..i] + [mask[i]] + mask[i + 1..];
    MaskedConcat(text[..i] + [text[i]], text[i + 1..], mask[..i] + [mask[i]], mask[i + 1..]);
    MaskedConcat(text[..i], [text[i]], mask[..i], [mask[i]]);
    MaskedKeepsOffsets(text[..i], mask[..i]);
    MaskedOne(text[i], mask[i]);
  }

  lemma MaskedOne(c: char, b: bool)
    ensures Masked([c], [b]) == if b then BlankChar(c) else [c]
  {
    assert [c][..0] == "" && [b][..0] == [];
    assert Masked("", []) == "";
  }

  // ---------------------------------------------------------------- What is left alone

  /** No line of the text from i on starts an import or export block. */
  predicate NoEsm(text: string, i: nat) {
    forall k :: i <= k < |text| && StartsLine(text, k) ==> !StartsEsm(LineAt(text, k))
  }

  /** Text with no brace and no import or export line is read as it is. */
  lemma {:induction false} PlainIsKept(text: string, i: nat, fence: Option<Fence>)
    requires i <= |text| && '{' !in text && NoEsm(text, i)
    ensures Code(text, i, fence, false) == All(false, |text| - i)
    decreases |text| - i
  {
    hide LineEnd, LineAt, StartsEsm, FenceOf, IsBlank, Closed, Inline;
    if i < |text| {
      var end := LineEnd(text, i);
      InlineKept(text, i, end);
      var next := Inline(text, i, end).next;
      PlainIsKept(text, end, if fence.Some? then Closed(fence.value, FenceOf(LineAt(text, i))) else FenceOf(LineAt(text, i)));
      PlainIsKept(text, next, fence);
    }
  }

  lemma {:induction false} InlineKept(text: string, j: nat, end: nat)
    requires j <= end <= |text| && '{' !in text
    ensures Inline(text, j, end).mask == All(false, Inline(text, j, end).next - j)
    decreases end - j
  {
    hide Closing, CodeEnd;
    if j < end {
      var code := if text[j] == '`' then CodeEnd(text, j, end) else None;
      if code.Some? && code.value > end {
        InlineStops(text, code.value, end);
      } else {
        InlineKept(text, if code.Some? then code.value else j + 1, end);
      }
    }
  }

  lemma InlineStops(text: string, j: nat, end: nat)
    requires end <= j <= |text|
    ensures Inline(text, j, end) == Span([], j)
  {
  }

  /** Past the line that closes the fence, from the line at i on, or the end of the text
      when none does. */
  function FenceEnd(text: string, i: nat, fence: Fence): (end: nat)
    requires i <= |text|
    ensures i <= end <= |text|
    decreases |text| - i
  {
    if i == |text| then i
    else if Closed(fence, FenceOf(LineAt(text, i))).None? then LineEnd(text, i)
    else FenceEnd(text, LineEnd(text, i), fence)
  }

  lemma NextLine(text: string, i: nat)
    requires i < |text|
    ensures LineEnd(text, i) < |text| ==> StartsLine(text, LineEnd(text, i))
  {
  }

  lemma AllJoin(b: bool, m: nat, n: nat)
    ensures All(b, m) + All(b, n) == All(b, m + n)
  {
  }

  /** Fenced code is kept, line by line, to the line that closes it; what follows is read
      as it would be without it. */
  lemma {:induction false} FencedToItsEnd(text: string, i: nat, fence: Fence, esm: bool)
    requires i < |text| ==> StartsLine(text, i)
    requires i <= |text|
    ensures var end := FenceEnd(text, i, fence);
            Code(text, i, Some(fence), esm) == All(false, end - i) + Code(text, end, None, esm)
    decreases |text| - i
  {
    hide LineEnd, LineAt, FenceOf, IsBlank, Closed, Inline, StartsLine, Code;
    if i < |text| {
      var end, next := LineEnd(text, i), Closed(fence, FenceOf(LineAt(text, i)));
      CodeLine(text, i, Some(fence), esm);
      NextLine(text, i);
      ClosedIs(fence, FenceOf(LineAt(text, i)));
      if next.Some? {
        FencedToItsEnd(text, end, fence, esm);
        AllJoin(false, end - i, FenceEnd(text, end, fence) - end);
      }
    } else {
      CodeEnds(text, Some(fence), esm);
      CodeEnds(text, None, esm);
      assert All(false, 0) + [] == [];
    }
  }

  lemma ClosedIs(fence: Fence, found: Option<Fence>)
    ensures Closed(fence, found) == None || Closed(fence, found) == Some(fence)
  {
  }

  /** From a line that opens fenced code, every line to the one that closes it is kept. */
  lemma FencedIsKept(text: string, i: nat, esm: bool)
    requires i < |text| && StartsLine(text, i) && FenceOf(LineAt(text, i)).Some?
    ensures var end := FenceEnd(text, LineEnd(text, i), FenceOf(LineAt(text, i)).value);
            && (forall k :: 0 <= k < end - i ==> !Code(text, i, None, esm)[k])
            && Code(text, i, None, esm)[end - i..] == Code(text, end, None, esm)
  {
    hide LineEnd, LineAt, FenceOf, IsBlank, Closed, Inline, StartsLine, Code, FenceEnd;
    var end, fence := LineEnd(text, i), FenceOf(LineAt(text, i)).value;
    CodeLine(text, i, None, esm);
    NextLine(text, i);
    FencedToItsEnd(text, end, fence, esm);
    AllJoin(false, end - i, FenceEnd(text, end, fence) - end);
  }

  /** The lines of fenced code before the last do not close it, and the last does, unless
      the text ends first. */
  lemma {:induction false} FenceEndCloses(text: string, i: nat, fence: Fence, k: nat)
    requires i <= |text| && i <= k < FenceEnd(text, i, fence) && (k == i || StartsLine(text, k))
    ensures Closed(fence, FenceOf(LineAt(text, k))).None? ==> LineEnd(text, k) == FenceEnd(text, i, fence)
    ensures LineEnd(text, k) == FenceEnd(text, i, fence) < |text| ==> Closed(fence, FenceOf(LineAt(text, k))).None?
    decreases |text| - i
  {
    hide LineAt, FenceOf, Closed;
    if k > i {
      NoStartInside(text, i, k);
      FenceEndCloses(text, LineEnd(text, i), fence, k);
    }
  }

  lemma NoStartInside(text: string, i: nat, k: nat)
    requires i < k < |text| && StartsLine(text, k)
    ensures k >= LineEnd(text, i)
  {
  }

  /** The next blank line from i on, or the next that opens fenced code, or the end. */
  function BlockEnd(text: string, i: nat): (end: nat)
    requires i <= |text|
    ensures i <= end <= |text|
    ensures end < |text| ==> IsBlank(LineAt(text, end)) || FenceOf(LineAt(text, end)).Some?
    decreases |text| - i
  {
    if i == |text| || IsBlank(LineAt(text, i)) || FenceOf(LineAt(text, i)).Some? then i else BlockEnd(text, LineEnd(text, i))
  }

  lemma {:induction false} BlockToItsEnd(text: string, i: nat)
    requires i < |text| ==> StartsLine(text, i)
    requires i <= |text|
    ensures var end := BlockEnd(text, i);
            Code(text, i, None, true) == All(true, end - i) + Code(text, end, None, true)
    decreases |text| - i
  {
    hide LineEnd, LineAt, FenceOf, IsBlank, Closed, Inline, StartsLine, Code;
    var end := BlockEnd(text, i);
    if end == i {
      var rest := Code(text, i, None, true);
      assert All(true, 0) + rest == rest;
    } else {
      var next := LineEnd(text, i);
      CodeLine(text, i, None, true);
      NextLine(text, i);
      BlockToItsEnd(text, next);
      AllJoin(true, next - i, end - next);
    }
  }

  /** From a line that starts an import or export block, every line to the next blank
      one is blanked, or to one that opens fenced code; the block goes on after such
      code, and ends with the blank line. */
  lemma BlockIsBlanked(text: string, i: nat)
    requires i < |text| && StartsLine(text, i) && StartsEsm(LineAt(text, i))
    ensures var end := BlockEnd(text, i);
            && LineEnd(text, i) <= end
            && (forall k :: 0 <= k < end - i ==> Code(text, i, None, false)[k])
            && Code(text, i, None, false)[end - i..] == Code(text, end, None, true)
            && (end < |text| && IsBlank(LineAt(text, end)) ==>
                  Code(text, end, None, true) == Code(text, end, None, false))
  {
    hide LineEnd, LineAt, FenceOf, IsBlank, Closed, Inline, StartsLine, Code, StartsEsm;
    var end, next := BlockEnd(text, i), LineEnd(text, i);
    EsmIsALine(LineAt(text, i));
    CodeLine(text, i, None, false);
    CodeLine(text, i, None, true);
    BlockToItsEnd(text, i);
    if end < |text| {
      BlockEndStarts(text, i);
      if IsBlank(LineAt(text, end)) {
        BlankOpensNone(LineAt(text, end));
      }
      CodeLine(text, end, None, true);
      CodeLine(text, end, None, false);
    }
  }

  lemma EsmIsALine(line: string)
    requires StartsEsm(line)
    ensures !IsBlank(line) && FenceOf(line).None?
  {
    assert line[0] == 'i' || line[0] == 'e';
  }

  lemma BlankOpensNone(line: string)
    requires IsBlank(line)
    ensures FenceOf(line).None?
  {
  }

  lemma {:induction false} BlockEndStarts(text: string, i: nat)
    requires i < |text| && StartsLine(text, i)
    ensures BlockEnd(text, i) < |text| ==> StartsLine(text, BlockEnd(text, i))
    decreases |text| - i
  {
    hide LineEnd, LineAt, FenceOf, IsBlank, StartsLine;
    if BlockEnd(text, i) != i && LineEnd(text, i) < |text| {
      NextLine(text, i);
      BlockEndStarts(text, LineEnd(text, i));
    }
  }

  // ---------------------------------------------------------------- What closes an expression

  /** How deep the braces are after text[from..end], quoted strings skipped. */
  function DepthAt(text: string, from: nat, end: nat): int
    requires from <= end <= |text|
    decreases end - from
  {
    if from == end then 0
    else if IsQuote(text[from]) then
      var close := Find(text, text[from], from + 1);
      if close.None? || close.value >= end then 0 else DepthAt(text, close.value + 1, end)
    else (if text[from] == '{' then 1 else if text[from] == '}' then -1 else 0) + DepthAt(text, from + 1, end)
  }

  /** An expression ends at the first place its depth comes to nothing, just past a
      brace, and not at all when there is none: an unbalanced brace is text. */
  lemma {:induction false} ClosingBalances(text: string, i: nat, depth: nat)
    requires depth > 0 && i <= |text|
    ensures var end := Closing(text, i, depth);
            && (end.Some? ==> text[end.value - 1] == '}' && depth + DepthAt(text, i, end.value) == 0)
            && forall k :: i <= k < (if end.Some? then end.value else |text| + 1) ==> depth + DepthAt(text, i, k) > 0
    decreases |text| - i
  {
    hide Find;
    if i < |text| {
      if IsQuote(text[i]) {
        var close := Find(text, text[i], i + 1);
        if close.Some? {
          ClosingBalances(text, close.value + 1, depth);
        }
      } else if text[i] == '{' {
        ClosingBalances(text, i + 1, depth + 1);
      } else if text[i] == '}' && depth > 1 {
        ClosingBalances(text, i + 1, depth - 1);
      } else if text[i] != '}' {
        ClosingBalances(text, i + 1, depth);
      }
    }
  }
}
