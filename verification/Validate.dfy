/** checkData and validate of mock/event-pieces.ts: the rules of a send that need no
    state, and what a send they accept holds. */
module Validation {
  import opened Options
  import opened JsonText
  import opened Compact
  import opened Pieces
  import opened Utf8
  import opened Rows
  import opened Capacities
  import opened Runs
  import ScanMachine
  import ScanRules
  import Scanner

  /** A piece's data as its sender gave it: what decoding it as UTF-8 and parsing it
      as JSON finds. JSON text is a value with whitespace among its tokens. */
  datatype RawData = NotUtf8 | NotJson | Json(value: Value, spaces: seq<string>)

  datatype Piece = Piece(id: string, occurredAt: Option<string>, data: RawData)

  datatype SendLimits = SendLimits(maxPieces: nat, maxBytes: nat, maxPieceBytes: nat)

  datatype DataProblem = BadUtf8 | BadJson | NotAnObject | TooLarge(size: nat) | Found(problem: ScanRules.Problem)

  datatype Checked = Fine(data: string, members: seq<Member>) | Wrong(problem: DataProblem)

  /** The first rule a send breaks, its pieces counted from 0. */
  datatype Problem =
    | PieceCount(count: nat)
    | BadId(index: nat)
    | RepeatsId(index: nat, before: nat)
    | BadData(index: nat, problem: DataProblem)
    | TooMuchData(bytes: nat)

  datatype Validated = Sent(pieces: seq<SentPiece>, bytes: nat) | Refused(problem: Problem)

  const MAX_ID_BYTES: nat := 128

  /** What a JSON parser reads is a well-formed value, its tokens spread with
      insignificant whitespace. */
  predicate Readable(raw: RawData) {
    raw.Json? ==>
      && ValidValue(raw.value) && |raw.spaces| == |Tokens(raw.value)| + 1
      && forall i :: 0 <= i < |raw.spaces| ==> AllSpace(raw.spaces[i])
  }

  /** What is wrong with a piece's data, or its compacted text and members. */
  function CheckOf(raw: RawData, maxBytes: nat, finite: string -> bool): Checked {
    match raw
    case NotUtf8 => Wrong(BadUtf8)
    case NotJson => Wrong(BadJson)
    case Json(value, _) =>
      if !value.Object? then Wrong(NotAnObject)
      else if BytesOf(Print(value)) > maxBytes then Wrong(TooLarge(BytesOf(Print(value))))
      else
        var answer := ScanRules.Answer(value.members, finite);
        if answer.Accepted? then Fine(Print(value), answer.members)
        else if answer.Refused? then Wrong(Found(answer.problem))
        else Wrong(BadJson)
  }

  lemma ObjectsBegin(v: Value)
    requires ValidValue(v)
    ensures Print(v) != "" && (Print(v)[0] == '{' <==> v.Object?)
  {
    if v.Numeral? {
      ScanMachine.LiteralChars(v.number);
    }
  }

  method CheckData(raw: RawData, maxBytes: nat, finite: string -> bool) returns (checked: Checked)
    requires Readable(raw)
    ensures checked == CheckOf(raw, maxBytes, finite)
  {
    hide Print, Tokens, Spread, ValidValue, Encode;
    if raw.NotUtf8? {
      return Wrong(BadUtf8);
    }
    if raw.NotJson? {
      return Wrong(BadJson);
    }
    var data := Compact.Compact(Spread(Tokens(raw.value), raw.spaces));
    CompactPrints(raw.value, raw.spaces);
    ObjectsBegin(raw.value);
    if data[0] != '{' {
      return Wrong(NotAnObject);
    }
    var size := BytesOf(data);
    if size > maxBytes {
      return Wrong(TooLarge(size));
    }
    ValidInside(raw.value);
    var outcome := Scanner.Scan(data, finite, raw.value.members);
    if outcome.Accepted? {
      return Fine(data, outcome.members);
    }
    return Wrong(if outcome.Refused? then Found(outcome.problem) else BadJson);
  }

  lemma ValidInside(v: Value)
    requires ValidValue(v) && v.Object?
    ensures ValidMembers(v.members) && v == Object(v.members)
  {
  }

  /** Data is accepted exactly when it is an object within the size whose nesting,
      numbers, escapes and keys the engine takes; the piece then holds its text, and
      the members that text is rebuilt from. */
  lemma DataDecides(raw: RawData, maxBytes: nat, finite: string -> bool)
    requires Readable(raw)
    ensures CheckOf(raw, maxBytes, finite).Fine?
            <==> && raw.Json? && raw.value.Object? && BytesOf(Print(raw.value)) <= maxBytes
                 && Depth(raw.value) <= 64
                 && ScanRules.AllFinite(raw.value, finite) && ScanRules.AllPaired(raw.value)
                 && ScanRules.LegalKeys(ScanRules.Keys(raw.value.members)) && ScanRules.Distinct(ScanRules.Keys(raw.value.members))
    ensures CheckOf(raw, maxBytes, finite).Fine? ==>
              forall id, at :: Scanned(SentPiece(id, at, CheckOf(raw, maxBytes, finite).data, CheckOf(raw, maxBytes, finite).members))
    ensures CheckOf(raw, maxBytes, finite).Fine? ==>
              ScanRules.Names(CheckOf(raw, maxBytes, finite).members) == ScanRules.Keys(raw.value.members)
  {
    hide Print, BytesOf, Depth, ScanRules.AllFinite, ScanRules.AllPaired, ScanRules.LegalKeys, ScanRules.Keys, ScanRules.Distinct;
    if raw.Json? && raw.value.Object? {
      ScanRules.ScanDecides(raw.value.members, finite);
      ValidInside(raw.value);
    }
  }

  /** And what it is refused for, when it is not the problem scan finds. */
  lemma DataRefused(raw: RawData, maxBytes: nat, finite: string -> bool)
    ensures CheckOf(raw, maxBytes, finite) == Wrong(BadUtf8) <==> raw.NotUtf8?
    ensures CheckOf(raw, maxBytes, finite) == Wrong(BadJson) <==> raw.NotJson?
    ensures CheckOf(raw, maxBytes, finite) == Wrong(NotAnObject) <==> raw.Json? && !raw.value.Object?
    ensures forall size :: CheckOf(raw, maxBytes, finite) == Wrong(TooLarge(size))
                           <==> raw.Json? && raw.value.Object? && size == BytesOf(Print(raw.value)) > maxBytes
  {
    hide Print, BytesOf, ScanRules.CheckTop, ScanRules.MembersOf;
  }

  /** The type a value's text has, by how it begins. */
  predicate KindShown(kind: FieldType, text: string) {
    match kind
    case FString => text != "" && text[0] == '"'
    case FObject => text != "" && text[0] == '{'
    case FArray => text != "" && text[0] == '['
    case FBoolean => text == "true" || text == "false"
    case FNull => text == "null"
    case FNumber => text != "" && (text[0] == '-' || IsDigit(text[0]))
  }

  /** Each member of accepted data has the type its value's text shows, and no other. */
  lemma MemberKinds(raw: RawData, maxBytes: nat, finite: string -> bool, m: Member)
    requires Readable(raw) && CheckOf(raw, maxBytes, finite).Fine? && m in CheckOf(raw, maxBytes, finite).members
    ensures forall kind :: KindShown(kind, m.value) <==> kind == m.kind
  {
    hide Print, ScanRules.CheckTop, ScanRules.MembersOf, Depth, KindShown, ValidMembers;
    ValidInside(raw.value);
    KindsOf(raw.value.members, m);
  }

  lemma {:induction false} KindsOf(members: Members, m: Member)
    requires ValidMembers(members) && m in ScanRules.MembersOf(members)
    ensures forall kind :: KindShown(kind, m.value) <==> kind == m.kind
  {
    hide KindShown, Print, TypeOf, Decode;
    var first := Member.Member(Decode(members.key), TypeOf(members.value), Print(members.value));
    if m != first {
      KindsOf(members.tail, m);
    } else {
      KindOfText(members.value);
    }
  }

  lemma KindOfText(v: Value)
    requires ValidValue(v)
    ensures forall kind :: KindShown(kind, Print(v)) <==> kind == TypeOf(v)
  {
    if v.Numeral? {
      ScanMachine.LiteralChars(v.number);
    }
    assert Print(v) != "";
    assert v.Boolean? || v.Null? || (Print(v)[0] != 't' && Print(v)[0] != 'f' && Print(v)[0] != 'n');
    assert "true"[0] == 't' && "false"[0] == 'f' && "null"[0] == 'n';
  }

  // ---------------------------------------------------------------- validate

  /** 1 to 128 bytes, each printable ASCII other than space. */
  predicate ValidId(id: string) {
    1 <= |id| <= MAX_ID_BYTES && forall i :: 0 <= i < |id| ==> '!' <= id[i] <= '~'
  }

  /** In bytes as in characters. */
  lemma ValidIdBytes(id: string)
    ensures ValidId(id) <==> 1 <= BytesOf(id) <= 128 && forall i :: 0 <= i < |Encode(id)| ==> 0x21 <= Encode(id)[i] <= 0x7E
  {
    IdBytes(id);
  }

  lemma {:induction false} IdBytes(id: string)
    ensures (forall i :: 0 <= i < |id| ==> '!' <= id[i] <= '~')
            <==> forall i :: 0 <= i < |Encode(id)| ==> 0x21 <= Encode(id)[i] <= 0x7E
    ensures (forall i :: 0 <= i < |id| ==> '!' <= id[i] <= '~') ==> BytesOf(id) == |id|
  {
    if id != [] {
      var c, rest := EncodeChar(id[0]), id[1..];
      IdBytes(rest);
      assert Encode(id) == c + Encode(rest);
      assert '!' <= id[0] <= '~' <==> forall i :: 0 <= i < |c| ==> 0x21 <= c[i] <= 0x7E by {
        assert c[0] < 0x80 ==> c == [id[0] as int];
      }
      if forall i :: 0 <= i < |Encode(id)| ==> 0x21 <= Encode(id)[i] <= 0x7E {
        assert forall i :: 0 <= i < |c| ==> c[i] == Encode(id)[i];
        assert forall i :: 0 <= i < |Encode(rest)| ==> Encode(rest)[i] == Encode(id)[|c| + i];
      }
    }
  }

  /** A piece every rule of one piece takes, and no earlier one has its id. */
  predicate PieceFine(pieces: seq<Piece>, i: nat, limits: SendLimits, finite: string -> bool)
    requires i < |pieces|
  {
    && ValidId(pieces[i].id) && CheckOf(pieces[i].data, limits.maxPieceBytes, finite).Fine?
    && forall k :: 0 <= k < i ==> pieces[k].id != pieces[i].id
  }

  /** The piece as the send holds it. */
  function AsSent(p: Piece, limits: SendLimits, finite: string -> bool): SentPiece
    requires CheckOf(p.data, limits.maxPieceBytes, finite).Fine?
  {
    var checked := CheckOf(p.data, limits.maxPieceBytes, finite);
    SentPiece(p.id, p.occurredAt, checked.data, checked.members)
  }

  function DataBytes(pieces: seq<SentPiece>): nat {
    if pieces == [] then 0 else DataBytes(pieces[..|pieces| - 1]) + BytesOf(pieces[|pieces| - 1].data)
  }

  ghost predicate IsSent(pieces: seq<Piece>, sent: seq<SentPiece>, limits: SendLimits, finite: string -> bool) {
    && |sent| == |pieces|
    && forall i :: 0 <= i < |pieces| ==> PieceFine(pieces, i, limits, finite) && sent[i] == AsSent(pieces[i], limits, finite)
  }

  /** The first rule broken is the one named: every piece before is fine. */
  ghost predicate FirstProblem(pieces: seq<Piece>, problem: Problem, limits: SendLimits, finite: string -> bool) {
    match problem
    case PieceCount(count) => count == |pieces| && (count == 0 || count > limits.maxPieces)
    case BadId(i) => i < |pieces| && FineBefore(pieces, i, limits, finite) && !ValidId(pieces[i].id)
    case RepeatsId(i, before) =>
      && before < i < |pieces| && FineBefore(pieces, i, limits, finite) && ValidId(pieces[i].id)
      && pieces[before].id == pieces[i].id
    case BadData(i, wrong) =>
      && i < |pieces| && FineBefore(pieces, i, limits, finite) && ValidId(pieces[i].id)
      && (forall k :: 0 <= k < i ==> pieces[k].id != pieces[i].id)
      && CheckOf(pieces[i].data, limits.maxPieceBytes, finite) == Wrong(wrong)
    case TooMuchData(bytes) =>
      exists sent :: IsSent(pieces, sent, limits, finite) && bytes == DataBytes(sent) && bytes > limits.maxBytes
  }

  ghost predicate FineBefore(pieces: seq<Piece>, i: nat, limits: SendLimits, finite: string -> bool)
    requires i <= |pieces|
  {
    forall k :: 0 <= k < i ==> PieceFine(pieces, k, limits, finite)
  }

  /** Checks a send against every rule that needs no state, in order. */
  method Validate(pieces: seq<Piece>, limits: SendLimits, finite: string -> bool) returns (v: Validated)
    requires forall i :: 0 <= i < |pieces| ==> Readable(pieces[i].data)
    ensures v.Sent? ==>
              && 1 <= |pieces| <= limits.maxPieces && IsSent(pieces, v.pieces, limits, finite)
              && DataBytes(v.pieces) <= limits.maxBytes
              && v.bytes == LinesSize(Arrived(v.pieces, Placeholder()))
    ensures v.Refused? ==> FirstProblem(pieces, v.problem, limits, finite)
  {
    hide CheckOf, LineSize, Encode, Placeholder, PieceFine, IsSent, AsSent, DataBytes, LinesSize, Arrived, Readable, FineBefore;
    if |pieces| == 0 || |pieces| > limits.maxPieces {
      return Refused(PieceCount(|pieces|));
    }
    var first: map<string, nat> := map[];
    var sent: seq<SentPiece> := [];
    var data, bytes := 0, 0;
    NoneSent(pieces, limits, finite);
    for i := 0 to |pieces|
      invariant IsSent(pieces[..i], sent, limits, finite) && FineBefore(pieces, i, limits, finite)
      invariant FirstOf(pieces, i, first)
      invariant data == DataBytes(sent) && bytes == LinesSize(Arrived(sent, Placeholder()))
    {
      var wrong, piece := CheckPiece(pieces, i, first, limits, finite);
      if wrong.Some? {
        return Refused(wrong.value);
      }
      first := first[pieces[i].id := i];
      data := data + BytesOf(piece.data);
      bytes := bytes + LineSize(Line(piece, Placeholder()));
      SentNext(pieces, i, sent, piece, limits, finite);
      sent := sent + [piece];
    }
    assert pieces[..|pieces|] == pieces;
    if data > limits.maxBytes {
      return Refused(TooMuchData(data));
    }
    return Sent(sent, bytes);
  }

  /** first says which earlier piece has each id. */
  predicate FirstOf(pieces: seq<Piece>, i: nat, first: map<string, nat>)
    requires i <= |pieces|
  {
    && (forall id :: id in first ==> first[id] < i && pieces[first[id]].id == id)
    && forall k :: 0 <= k < i ==> pieces[k].id in first
  }

  lemma NoneSent(pieces: seq<Piece>, limits: SendLimits, finite: string -> bool)
    ensures IsSent(pieces[..0], [], limits, finite) && FineBefore(pieces, 0, limits, finite)
    ensures DataBytes([]) == 0 && LinesSize(Arrived([], Placeholder())) == 0
  {
  }

  /** One piece's rules: its id, that no earlier piece has it, and its data. */
  method CheckPiece(pieces: seq<Piece>, i: nat, first: map<string, nat>, limits: SendLimits, finite: string -> bool)
    returns (wrong: Option<Problem>, piece: SentPiece)
    requires i < |pieces| && Readable(pieces[i].data) && FineBefore(pieces, i, limits, finite) && FirstOf(pieces, i, first)
    ensures wrong.Some? ==> FirstProblem(pieces, wrong.value, limits, finite)
    ensures wrong.None? ==> PieceFine(pieces, i, limits, finite) && piece == AsSent(pieces[i], limits, finite)
  {
    hide CheckOf, FineBefore, IsSent, ValidId;
    var p := pieces[i];
    piece := SentPiece(p.id, p.occurredAt, "", []);
    if !ValidId(p.id) {
      return Some(BadId(i)), piece;
    }
    if p.id in first {
      return Some(RepeatsId(i, first[p.id])), piece;
    }
    var checked := CheckData(p.data, limits.maxPieceBytes, finite);
    if checked.Wrong? {
      return Some(BadData(i, checked.problem)), piece;
    }
    return None, SentPiece(p.id, p.occurredAt, checked.data, checked.members);
  }

  lemma SentNext(pieces: seq<Piece>, i: nat, sent: seq<SentPiece>, piece: SentPiece, limits: SendLimits, finite: string -> bool)
    requires i < |pieces| && IsSent(pieces[..i], sent, limits, finite) && PieceFine(pieces, i, limits, finite)
    requires piece == AsSent(pieces[i], limits, finite)
    ensures IsSent(pieces[..i + 1], sent + [piece], limits, finite)
    ensures FineBefore(pieces, i, limits, finite) ==> FineBefore(pieces, i + 1, limits, finite)
    ensures DataBytes(sent + [piece]) == DataBytes(sent) + BytesOf(piece.data)
    ensures LinesSize(Arrived(sent + [piece], Placeholder()))
            == LinesSize(Arrived(sent, Placeholder())) + LineSize(Line(piece, Placeholder()))
  {
    hide CheckOf, LineSize, LinesSize, DataBytes, Encode, ValidId, Placeholder, AsSent;
    BytesNext(sent, piece);
    forall k | 0 <= k <= i
      ensures PieceFine(pieces[..i + 1], k, limits, finite) && (sent + [piece])[k] == AsSent(pieces[..i + 1][k], limits, finite)
    {
      if k < i {
        assert PieceFine(pieces[..i], k, limits, finite) && pieces[..i][k] == pieces[k];
      }
    }
  }

  lemma BytesNext(sent: seq<SentPiece>, piece: SentPiece)
    ensures DataBytes(sent + [piece]) == DataBytes(sent) + BytesOf(piece.data)
    ensures LinesSize(Arrived(sent + [piece], Placeholder()))
            == LinesSize(Arrived(sent, Placeholder())) + LineSize(Line(piece, Placeholder()))
  {
    hide LineSize, Encode, Placeholder;
    assert (sent + [piece])[..|sent|] == sent;
    assert Arrived(sent + [piece], Placeholder())[..|sent|] == Arrived(sent, Placeholder());
  }

  /** A received_at of the length every one has. */
  function Placeholder(): string {
    "000000000000000000000000000"
  }

  lemma PlaceholderBytes()
    ensures BytesOf(Placeholder()) == RECEIVED_BYTES
  {
    Ascii(Placeholder());
  }

  // ---------------------------------------------------------------- What an accepted send is

  /** A send's size is known before it arrives: its lines take the same bytes whenever
      it does. */
  lemma {:induction false} SizeIsKnown(pieces: seq<SentPiece>, at: string, other: string)
    requires BytesOf(at) == BytesOf(other)
    ensures LinesSize(Arrived(pieces, at)) == LinesSize(Arrived(pieces, other))
  {
    hide BytesOf, LineText;
    if pieces != [] {
      var n := |pieces| - 1;
      SizeIsKnown(pieces[..n], at, other);
      assert Arrived(pieces, at)[..n] == Arrived(pieces[..n], at);
      assert Arrived(pieces, other)[..n] == Arrived(pieces[..n], other);
      LineBytes(Line(pieces[n], at));
      LineBytes(Line(pieces[n], other));
    }
  }

  /** Every send accepted is one a run of the source takes: it has pieces, each holding
      the text its members rebuild, and its size is its batch object's. */
  lemma AcceptedIsSendable(pieces: seq<Piece>, sent: seq<SentPiece>, limits: SendLimits, finite: string -> bool, at: string)
    requires forall i :: 0 <= i < |pieces| ==> Readable(pieces[i].data)
    requires IsSent(pieces, sent, limits, finite) && BytesOf(at) == RECEIVED_BYTES
    ensures forall i :: 0 <= i < |sent| ==> Scanned(sent[i])
    ensures forall i, j :: 0 <= i < j < |sent| ==> sent[i].id != sent[j].id
    ensures LinesSize(Arrived(sent, at)) == LinesSize(Arrived(sent, Placeholder()))
  {
    hide CheckOf, Readable, ValidId, Scanned, BytesOf, Placeholder, LinesSize;
    PlaceholderBytes();
    SizeIsKnown(sent, at, Placeholder());
    forall i | 0 <= i < |sent|
      ensures Scanned(sent[i])
    {
      assert PieceFine(pieces, i, limits, finite);
      DataDecides(pieces[i].data, limits.maxPieceBytes, finite);
    }
    forall i, j | 0 <= i < j < |sent|
      ensures sent[i].id != sent[j].id
    {
      assert PieceFine(pieces, j, limits, finite) && PieceFine(pieces, i, limits, finite);
    }
  }
}
