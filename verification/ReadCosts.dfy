/** What the budget of one read, events/budget.go, bounds: the lines read, and the rows and
    parsed fields a merge of them holds. */
module ReadCosts {
  import opened JsonText
  import opened Schemas
  import opened Rows
  import opened Reads
  import opened Capacities
  import opened Sums

  /** A batch's bytes are its lines', and its pieces hold the text scan read. */
  ghost predicate Stored(b: Batch) {
    b.bytes == LinesSize(b.lines) && forall i :: 0 <= i < |b.lines| ==> Scanned(b.lines[i].piece)
  }

  ghost predicate AllStored(batches: seq<Batch>) {
    forall i :: 0 <= i < |batches| ==> Stored(batches[i])
  }

  /** What the lines count for in a read: their bytes, and for each the schema's null fill
      and 64 bytes a field. */
  function ReadCost(lines: seq<Line>, schema: Schema): nat {
    LinesSize(lines) + Product(|lines|, Fill(schema.Keys) + 64 * |schema|)
  }

  /** What a merge of the lines holds: each one's row, and 64 bytes for each of its fields. */
  function HeldBytes(lines: seq<Line>, schema: Schema): nat {
    if lines == [] then 0
    else HeldBytes(lines[..|lines| - 1], schema) + SizeOf(RowOf(lines[|lines| - 1], schema)) + 64 * |schema|
  }

  lemma {:induction false} CostIs(batches: seq<Batch>, schema: Schema)
    requires AllStored(batches)
    ensures PiecesOf(batches) == |LinesOf(batches)|
    ensures CostOf(batches, PerPiece(schema)) == ReadCost(LinesOf(batches), schema)
    ensures forall l :: l in LinesOf(batches) ==> Scanned(l.piece)
  {
    hide Fill, LineSize, Scanned, LinesSize;
    NoLines();
    if batches != [] {
      var n := |batches| - 1;
      CostIs(batches[..n], schema);
      assert Stored(batches[n]);
      SizeConcat(LinesOf(batches[..n]), batches[n].lines);
      MorePieces(|LinesOf(batches[..n])|, |batches[n].lines|, PerPiece(schema));
    }
  }

  lemma NoLines()
    ensures LinesSize([]) == 0 && forall each :: Product(0, each) == 0
  {
  }

  lemma MorePieces(m: nat, n: nat, each: nat)
    ensures Product(m + n, each) == Product(m, each) + n * each
  {
  }

  /** The rows and parsed fields take what the lines count for, but for a slack a line. */
  lemma {:induction false} HeldWithinCost(lines: seq<Line>, schema: Schema)
    requires forall l :: l in lines ==> Scanned(l.piece)
    ensures HeldBytes(lines, schema) <= ReadCost(lines, schema) + Product(|lines|, ROW_SLACK - 1)
  {
    hide Fill, LineText, Scanned, RowOf, SizeOf, Product;
    if lines == [] {
      NoLines();
    } else {
      var n := |lines| - 1;
      HeldWithinCost(lines[..n], schema);
      RowWithinLine(lines[n], schema);
      OneMore(n, Fill(schema.Keys) + 64 * |schema|);
      OneMore(n, ROW_SLACK - 1);
    }
  }

  /** A read that takes more than one batch is within every bound, the rows and parsed fields
      its merge holds included, up to the slack; and one batch more would have been past one. */
  lemma ReadWithinBudget(budget: ReadBudget, schema: Schema, batches: seq<Batch>)
    requires AllStored(batches)
    ensures var n := Takes(budget, PerPiece(schema), batches);
            var lines := LinesOf(batches[..n]);
            && (n > 1 ==>
                  && n <= budget.batches && |lines| <= budget.pieces && ReadCost(lines, schema) <= budget.bytes
                  && HeldBytes(lines, schema) <= budget.bytes + Product(|lines|, ROW_SLACK - 1))
            && (n < |batches| ==>
                  var more := LinesOf(batches[..n + 1]);
                  n + 1 > budget.batches || |more| > budget.pieces || ReadCost(more, schema) > budget.bytes)
  {
    hide PerPiece, Takes, Product, Stored, LinesOf, HeldBytes, ReadCost, Scanned, CostOf, PiecesOf;
    var n := Takes(budget, PerPiece(schema), batches);
    TakesIff(budget, PerPiece(schema), batches, n);
    CostIs(batches[..n], schema);
    HeldWithinCost(LinesOf(batches[..n]), schema);
    if n < |batches| {
      TakesIff(budget, PerPiece(schema), batches, n + 1);
      CostIs(batches[..n + 1], schema);
    }
  }
}
