/** The page-windowed chunker of `AzureFormRecognizerClient.analyze_read`,
    from the point where the layout has come back from the analysis service:
    paragraphs and tables, each tagged with the page it starts on, become a
    list of strings, one per window of `pages_per_embeddings` pages.

    The loops are modelled as written: all paragraphs are handled before any
    table; the list grows by at most one entry per item, so an item more than
    one window past the end raises `IndexError`; the table row counter counts
    row breaks instead of reading the cell's row index; and the last row of a
    table is never written out. */
module FormRecognizer {
  import opened Wrappers
  import opened Text

  /** Page numbers reported by the layout service start at 1. */
  type PageNumber = p: int | p >= 1 witness 1

  datatype Paragraph = Paragraph(content: string, page: PageNumber, role: Option<string>)

  datatype Cell = Cell(rowIndex: nat, content: string)

  datatype Table = Table(page: PageNumber, cells: seq<Cell>)

  datatype Layout = Layout(paragraphs: seq<Paragraph>, tables: seq<Table>)

  /** The one exception the chunking loops raise: `results[output_file_id]` past the end of the list. */
  datatype ChunkError = IndexError

  /** `pages_per_embeddings` when `PAGES_PER_EMBEDDINGS` is not set. */
  const DefaultPagesPerEmbeddings: nat := 2

  /** `section_to_exclude`: paragraph roles whose text is dropped. */
  const SectionsToExclude: seq<string> := ["footnote", "pageHeader", "pageFooter", "pageNumber"]

  /** `p.role in self.section_to_exclude`; a paragraph without a role is kept. */
  predicate Excluded(role: Option<string>) {
    role.Some? && role.value in SectionsToExclude
  }

  /** `int((page_number - 1) / pages_per_embeddings)` */
  function ChunkIndex(page: PageNumber, pagesPerEmbeddings: nat): nat
    requires pagesPerEmbeddings >= 1
  {
    (page - 1) / pagesPerEmbeddings
  }

  /** Chunk `k` holds exactly the pages `k * w + 1 .. (k + 1) * w` of a window of `w` pages. */
  lemma ChunkIndexWindow(page: PageNumber, w: nat)
    requires w >= 1
    ensures var k := ChunkIndex(page, w); k * w < page <= (k + 1) * w
  {
    var k := ChunkIndex(page, w);
    assert (page - 1) == k * w + (page - 1) % w;
    assert (k + 1) * w == k * w + w;
  }

  // ---------------------------------------------------------------------
  // Table rendering

  /** The accumulators of the cell loop: `previous_cell_row`, `rowcontent`, `tablecontent`. */
  datatype RowState = RowState(previousRow: nat, rowContent: string, tableContent: string)

  const InitialRowState: RowState := RowState(0, "| ", "")

  /** One turn of the cell loop. A row break flushes the pending row and adds
      exactly 1 to the counter, whatever the cell's own row index is. */
  function CellStep(s: RowState, c: Cell): RowState {
    if c.rowIndex == s.previousRow then
      s.(rowContent := s.rowContent + c.content + " | ")
    else
      RowState(s.previousRow + 1, "|" + c.content + " | ", s.tableContent + s.rowContent + "\n")
  }

  /** The accumulators once the cell loop has run over `cells`. */
  function RenderCells(cells: seq<Cell>): RowState
    decreases |cells|
  {
    if cells == [] then InitialRowState
    else CellStep(RenderCells(cells[..|cells| - 1]), cells[|cells| - 1])
  }

  /** `f"{tablecontent}|"`: what one table appends to its chunk. The pending
      row is not part of it. */
  function TableText(cells: seq<Cell>): string {
    RenderCells(cells).tableContent + "|"
  }

  // ---------------------------------------------------------------------
  // The two loops as one run over items

  /** A paragraph or a table, in the order the loops visit them. */
  datatype Item = ParagraphItem(paragraph: Paragraph) | TableItem(table: Table)

  function ItemPage(item: Item): PageNumber {
    match item
    case ParagraphItem(p) => p.page
    case TableItem(t) => t.page
  }

  /** Whether the loop body reads `results[output_file_id]` for this item: an
      excluded paragraph skips the `+=` and so never indexes the list. */
  predicate Indexes(item: Item) {
    item.TableItem? || !Excluded(item.paragraph.role)
  }

  /** The text the item appends to the chunk of its own window. */
  function ItemText(item: Item): string {
    match item
    case ParagraphItem(p) => if Excluded(p.role) then "" else p.content + "\n"
    case TableItem(t) => TableText(t.cells)
  }

  /** One turn of either loop: append one empty chunk if the list is shorter
      than `output_file_id + 1`, then append the item's text to chunk
      `output_file_id`, which raises when that index is still past the end. */
  function Step(results: seq<string>, item: Item, n: nat): Result<seq<string>, ChunkError>
    requires n >= 1
  {
    var k := ChunkIndex(ItemPage(item), n);
    var grown := if |results| < k + 1 then results + [""] else results;
    if !Indexes(item) then Success(grown)
    else if k < |grown| then Success(grown[k := grown[k] + ItemText(item)])
    else Failure(IndexError)
  }

  /** The loops run over `items`, starting from the list `results`. */
  function Run(results: seq<string>, items: seq<Item>, n: nat): Result<seq<string>, ChunkError>
    requires n >= 1
    decreases |items|
  {
    if items == [] then Success(results)
    else
      match Run(results, items[..|items| - 1], n)
      case Failure(e) => Failure(e)
      case Success(r) => Step(r, items[|items| - 1], n)
  }

  function ParagraphItems(ps: seq<Paragraph>): (items: seq<Item>)
    ensures |items| == |ps|
    ensures forall i :: 0 <= i < |ps| ==> items[i] == ParagraphItem(ps[i])
  {
    seq(|ps|, i requires 0 <= i < |ps| => ParagraphItem(ps[i]))
  }

  function TableItems(ts: seq<Table>): (items: seq<Item>)
    ensures |items| == |ts|
    ensures forall i :: 0 <= i < |ts| ==> items[i] == TableItem(ts[i])
  {
    seq(|ts|, i requires 0 <= i < |ts| => TableItem(ts[i]))
  }

  /** Every paragraph, then every table: the order of the two loops. */
  function Items(layout: Layout): seq<Item> {
    ParagraphItems(layout.paragraphs) + TableItems(layout.tables)
  }

  /** The list `analyze_read` returns, or the exception it raises. */
  function Extract(layout: Layout, n: nat): Result<seq<string>, ChunkError>
    requires n >= 1
  {
    Run([], Items(layout), n)
  }

  // ---------------------------------------------------------------------
  // The imperative loops

  /** The cell loop of `analyze_read` over one table: the three accumulators
      it leaves behind. */
  method RenderTable(cells: seq<Cell>) returns (previousCellRow: nat, rowContent: string, tableContent: string)
    ensures RowState(previousCellRow, rowContent, tableContent) == RenderCells(cells)
  {
    previousCellRow, rowContent, tableContent := 0, "| ", "";
    var m := 0;
    while m < |cells|
      invariant 0 <= m <= |cells|
      invariant RenderCells(cells[..m]) == RowState(previousCellRow, rowContent, tableContent)
    {
      var c := cells[m];
      assert cells[..m + 1][..m] == cells[..m];
      if c.rowIndex == previousCellRow {
        rowContent := rowContent + c.content + " | ";
      } else {
        tableContent := tableContent + rowContent + "\n";
        rowContent := "|";
        rowContent := rowContent + c.content + " | ";
        previousCellRow := previousCellRow + 1;
      }
      m := m + 1;
    }
    assert cells[..m] == cells;
  }

  /** The body of the paragraph loop for one paragraph. */
  method ChunkParagraph(results: seq<string>, p: Paragraph, n: nat) returns (r: Result<seq<string>, ChunkError>)
    requires n >= 1
    ensures r == Step(results, ParagraphItem(p), n)
  {
    var outputFileId := (p.page - 1) / n;
    var grown := results;
    if |grown| < outputFileId + 1 {
      grown := grown + [""];
    }
    if Excluded(p.role) {
      return Success(grown);
    }
    if outputFileId >= |grown| {
      return Failure(IndexError);
    }
    r := Success(grown[outputFileId := grown[outputFileId] + (p.content + "\n")]);
  }

  /** The paragraph loop of `analyze_read`, starting from the empty list. */
  method ChunkParagraphs(ps: seq<Paragraph>, n: nat) returns (r: Result<seq<string>, ChunkError>)
    requires n >= 1
    ensures r == Run([], ParagraphItems(ps), n)
  {
    ghost var items := ParagraphItems(ps);
    var results: seq<string> := [];
    var i := 0;
    while i < |ps|
      invariant 0 <= i <= |ps|
      invariant Run([], items[..i], n) == Success(results)
    {
      RunPrefixStep([], items, i, n);
      var next := ChunkParagraph(results, ps[i], n);
      if next.Failure? {
        RunPrefixFails([], items, i + 1, n);
        return next;
      }
      results := next.value;
      i := i + 1;
    }
    assert items[..i] == items;
    r := Success(results);
  }

  /** The body of the table loop for one table. */
  method ChunkTable(results: seq<string>, t: Table, n: nat) returns (r: Result<seq<string>, ChunkError>)
    requires n >= 1
    ensures r == Step(results, TableItem(t), n)
  {
    var outputFileId := (t.page - 1) / n;
    var grown := results;
    if |grown| < outputFileId + 1 {
      grown := grown + [""];
    }
    var previousCellRow, rowContent, tableContent := RenderTable(t.cells);
    if outputFileId >= |grown| {
      return Failure(IndexError);
    }
    r := Success(grown[outputFileId := grown[outputFileId] + (tableContent + "|")]);
  }

  /** The table loop of `analyze_read`, continuing from the list the
      paragraph loop left. */
  method ChunkTables(start: seq<string>, ts: seq<Table>, n: nat) returns (r: Result<seq<string>, ChunkError>)
    requires n >= 1
    ensures r == Run(start, TableItems(ts), n)
  {
    ghost var items := TableItems(ts);
    var results := start;
    var j := 0;
    while j < |ts|
      invariant 0 <= j <= |ts|
      invariant Run(start, items[..j], n) == Success(results)
    {
      RunPrefixStep(start, items, j, n);
      var next := ChunkTable(results, ts[j], n);
      if next.Failure? {
        RunPrefixFails(start, items, j + 1, n);
        return next;
      }
      results := next.value;
      j := j + 1;
    }
    assert items[..j] == items;
    r := Success(results);
  }

  /** Running over one more item is one more `Step`. */
  lemma RunPrefixStep(results: seq<string>, items: seq<Item>, i: nat, n: nat)
    requires n >= 1 && i < |items|
    ensures Run(results, items[..i + 1], n) ==
      match Run(results, items[..i], n)
      case Failure(e) => Failure(e)
      case Success(r) => Step(r, items[i], n)
  {
    assert items[..i + 1][..i] == items[..i];
  }

  /** Once a prefix of the items raises, the whole run raises the same. */
  lemma RunPrefixFails(results: seq<string>, items: seq<Item>, i: nat, n: nat)
    requires n >= 1 && i <= |items|
    requires Run(results, items[..i], n).Failure?
    ensures Run(results, items, n) == Run(results, items[..i], n)
  {
    RunAppend(results, items[..i], items[i..], n);
    assert items[..i] + items[i..] == items;
  }

  /** `analyze_read` after the analysis call: the paragraph loop, then the
      table loop, over the layout the service returned. */
  method AnalyzeRead(layout: Layout, pagesPerEmbeddings: nat) returns (r: Result<seq<string>, ChunkError>)
    requires pagesPerEmbeddings >= 1
    ensures r == Extract(layout, pagesPerEmbeddings)
  {
    RunAppend([], ParagraphItems(layout.paragraphs), TableItems(layout.tables), pagesPerEmbeddings);
    r := ChunkParagraphs(layout.paragraphs, pagesPerEmbeddings);
    if r.Success? {
      r := ChunkTables(r.value, layout.tables, pagesPerEmbeddings);
    }
  }

  // ---------------------------------------------------------------------
  // Properties of the run

  /** Running over `xs + ys` is running over `xs`, then over `ys` from where
      `xs` left the list; an exception in `xs` ends the run. */
  lemma {:induction false} RunAppend(results: seq<string>, xs: seq<Item>, ys: seq<Item>, n: nat)
    requires n >= 1
    ensures Run(results, xs + ys, n) ==
      match Run(results, xs, n)
      case Failure(e) => Failure(e)
      case Success(r) => Run(r, ys, n)
    decreases |ys|
  {
    if ys == [] {
      assert xs + ys == xs;
    } else {
      var init := ys[..|ys| - 1];
      assert (xs + ys)[..|xs + ys| - 1] == xs + init;
      assert (xs + ys)[|xs + ys| - 1] == ys[|ys| - 1];
      RunAppend(results, xs, init, n);
    }
  }

  /** One item either raises, exactly when it indexes the list and its window
      is more than one past the end, or grows the list by at most one empty
      chunk and appends its text to its own chunk only. */
  lemma StepOutcome(results: seq<string>, item: Item, n: nat)
    requires n >= 1
    ensures var k := ChunkIndex(ItemPage(item), n);
      Step(results, item, n).Failure? <==> Indexes(item) && k > |results|
    ensures var k := ChunkIndex(ItemPage(item), n);
      Step(results, item, n).Success? ==>
        var r := Step(results, item, n).value;
        && |r| == (if k >= |results| then |results| + 1 else |results|)
        && (forall j :: 0 <= j < |r| && j != k ==> r[j] == (if j < |results| then results[j] else ""))
        && (k < |r| ==> r[k] == (if k < |results| then results[k] else "") + ItemText(item))
  {
  }

  /** The text of chunk `j` as an independent reference: the texts of the
      items whose page falls in window `j`, in item order. */
  function ChunkText(items: seq<Item>, j: nat, n: nat): string
    requires n >= 1
    decreases |items|
  {
    if items == [] then ""
    else
      var last := items[|items| - 1];
      ChunkText(items[..|items| - 1], j, n) + (if ChunkIndex(ItemPage(last), n) == j then ItemText(last) else "")
  }

  /** The last item adds its text to the chunk of its own window only. */
  lemma ChunkTextLast(items: seq<Item>, j: nat, n: nat)
    requires n >= 1 && items != []
    ensures var last := items[|items| - 1];
      ChunkText(items, j, n)
        == ChunkText(items[..|items| - 1], j, n) + (if ChunkIndex(ItemPage(last), n) == j then ItemText(last) else "")
  {
  }

  lemma {:induction false} ChunkTextAppend(xs: seq<Item>, ys: seq<Item>, j: nat, n: nat)
    requires n >= 1
    ensures ChunkText(xs + ys, j, n) == ChunkText(xs, j, n) + ChunkText(ys, j, n)
    decreases |ys|
  {
    if ys == [] {
      assert xs + ys == xs;
    } else {
      var init, last := ys[..|ys| - 1], ys[|ys| - 1];
      assert (xs + ys)[..|xs + ys| - 1] == xs + init;
      assert (xs + ys)[|xs + ys| - 1] == last;
      ChunkTextAppend(xs, init, j, n);
      AppendAssoc(ChunkText(xs, j, n), ChunkText(init, j, n),
                  if ChunkIndex(ItemPage(last), n) == j then ItemText(last) else "");
    }
  }

  /** A run that does not raise leaves every chunk equal to its starting text
      followed by the text of each item of its window, in order, and no item
      has text for a window past the end of the list; it never shrinks the
      list. */
  lemma {:induction false} RunChunks(results: seq<string>, items: seq<Item>, n: nat)
    requires n >= 1
    requires Run(results, items, n).Success?
    ensures var r := Run(results, items, n).value;
      && |results| <= |r|
      && (forall j :: 0 <= j < |r| ==>
            r[j] == (if j < |results| then results[j] else "") + ChunkText(items, j, n))
      && (forall j: nat :: j >= |r| ==> ChunkText(items, j, n) == "")
    decreases |items|
  {
    if items != [] {
      var init := items[..|items| - 1];
      var last := items[|items| - 1];
      RunChunks(results, init, n);
      var r0 := Run(results, init, n).value;
      var r := Run(results, items, n).value;
      assert Step(r0, last, n) == Success(r);
      StepOutcome(r0, last, n);
      var k := ChunkIndex(ItemPage(last), n);
      forall j: nat
        ensures ChunkText(items, j, n) == ChunkText(init, j, n) + (if k == j then ItemText(last) else "")
      {
        ChunkTextLast(items, j, n);
      }
      forall j | 0 <= j < |r|
        ensures r[j] == (if j < |results| then results[j] else "") + ChunkText(items, j, n)
      {
        var before := if j < |results| then results[j] else "";
        var added := if k == j then ItemText(last) else "";
        if j < |r0| {
          assert r0[j] == before + ChunkText(init, j, n);
          assert r[j] == r0[j] + added;
          AppendAssoc(before, ChunkText(init, j, n), added);
        } else {
          assert ChunkText(init, j, n) == "" && before == "";
          assert r[j] == "" + added;
          assert ChunkText(items, j, n) == "" + added;
        }
      }
    }
  }

  /** Chunks only grow by appending: each chunk's earlier text is a prefix of
      its final text, and the list never gets shorter. */
  lemma AppendOnly(results: seq<string>, items: seq<Item>, n: nat)
    requires n >= 1
    requires Run(results, items, n).Success?
    ensures var r := Run(results, items, n).value;
      |results| <= |r| && forall j :: 0 <= j < |results| ==> results[j] <= r[j]
  {
    RunChunks(results, items, n);
  }

  /** The content of every chunk `analyze_read` returns: the text of the
      kept paragraphs of its window, then the text of the tables of its
      window. A table on an earlier page never precedes a paragraph. */
  lemma ChunkContents(layout: Layout, n: nat)
    requires n >= 1
    requires Extract(layout, n).Success?
    ensures var r := Extract(layout, n).value;
      forall j :: 0 <= j < |r| ==>
        r[j] == ChunkText(ParagraphItems(layout.paragraphs), j, n) + ChunkText(TableItems(layout.tables), j, n)
  {
    RunChunks([], Items(layout), n);
    forall j: nat {
      ChunkTextAppend(ParagraphItems(layout.paragraphs), TableItems(layout.tables), j, n);
    }
  }

  /** The list length a run reaches, raising or not: one more entry for each
      item whose window is not yet in the list. */
  function GrownLength(len: nat, items: seq<Item>, n: nat): nat
    requires n >= 1
    decreases |items|
  {
    if items == [] then len
    else
      var l := GrownLength(len, items[..|items| - 1], n);
      if l < ChunkIndex(ItemPage(items[|items| - 1]), n) + 1 then l + 1 else l
  }

  /** Item `i` indexes the list while its window is more than one past the end. */
  predicate Jumps(len: nat, items: seq<Item>, n: nat, i: int)
    requires n >= 1
  {
    0 <= i < |items| && Indexes(items[i]) && ChunkIndex(ItemPage(items[i]), n) > GrownLength(len, items[..i], n)
  }

  /** A run raises `IndexError` exactly when some indexing item lands more
      than one window past the end of the list as it stands then; otherwise
      the list has the grown length. */
  lemma {:induction false} RunFailsIffJump(results: seq<string>, items: seq<Item>, n: nat)
    requires n >= 1
    ensures Run(results, items, n).Failure? <==> exists i :: Jumps(|results|, items, n, i)
    ensures Run(results, items, n).Success? ==> |Run(results, items, n).value| == GrownLength(|results|, items, n)
    decreases |items|
  {
    if items != [] {
      var m := |items| - 1;
      var init := items[..m];
      var last := items[m];
      RunFailsIffJump(results, init, n);
      forall i | 0 <= i < m
        ensures Jumps(|results|, init, n, i) <==> Jumps(|results|, items, n, i)
      {
        assert items[..i] == init[..i];
      }
      if Run(results, init, n).Failure? {
        var i :| Jumps(|results|, init, n, i);
        assert Jumps(|results|, items, n, i);
      } else {
        var r0 := Run(results, init, n).value;
        StepOutcome(r0, last, n);
        if Step(r0, last, n).Failure? {
          assert Jumps(|results|, items, n, m);
        } else {
          assert forall i :: !Jumps(|results|, items, n, i);
        }
      }
    }
  }

  // ---------------------------------------------------------------------
  // Properties of table rendering

  /** A table whose cells all sit in row 0 never flushes a row: its whole
      contribution is the single `"|"`. */
  lemma {:induction false} AllRowZeroTable(cells: seq<Cell>)
    requires forall i :: 0 <= i < |cells| ==> cells[i].rowIndex == 0
    ensures RenderCells(cells).previousRow == 0 && RenderCells(cells).tableContent == ""
    ensures TableText(cells) == "|"
    decreases |cells|
  {
    if cells != [] {
      AllRowZeroTable(cells[..|cells| - 1]);
    }
  }

  /** A cell that continues the pending row changes nothing in the table's
      contribution: the cells of the final row never reach the output. */
  lemma PendingRowNotFlushed(cells: seq<Cell>, c: Cell)
    requires c.rowIndex == RenderCells(cells).previousRow
    ensures TableText(cells + [c]) == TableText(cells)
  {
    assert (cells + [c])[..|cells|] == cells;
  }

  /** The counter counts row breaks rather than reading row indices: two
      cells of row 2 after a cell of row 0 are written as two rows. */
  lemma SkippedRowIndexQuirk()
    ensures TableText([Cell(0, "a"), Cell(2, "b"), Cell(2, "c")]) == "| a | \n|b | \n|"
  {
    var cells := [Cell(0, "a"), Cell(2, "b"), Cell(2, "c")];
    assert cells[..2][..1] == [Cell(0, "a")];
    assert [Cell(0, "a")][..0] == [];
    assert cells[..2] == [Cell(0, "a"), Cell(2, "b")];
    assert RenderCells([Cell(0, "a")]) == RowState(0, "| a | ", "");
    assert RenderCells(cells[..2]) == RowState(1, "|b | ", "| a | \n");
  }

  /** Cells listed row by row: the first in row 0, each next one in the same
      row or the row after. This is the order the layout service reports. */
  predicate RowMajor(cells: seq<Cell>) {
    && (|cells| > 0 ==> cells[0].rowIndex == 0)
    && forall i :: 0 < i < |cells| ==>
         cells[i].rowIndex == cells[i - 1].rowIndex || cells[i].rowIndex == cells[i - 1].rowIndex + 1
  }

  /** The cells of row `row`, in order. */
  function RowCells(cells: seq<Cell>, row: nat): seq<Cell>
    decreases |cells|
  {
    if cells == [] then []
    else
      var last := cells[|cells| - 1];
      RowCells(cells[..|cells| - 1], row) + (if last.rowIndex == row then [last] else [])
  }

  /** Each cell's text followed by `" | "`. */
  function CellsText(cells: seq<Cell>): string
    decreases |cells|
  {
    if cells == [] then "" else CellsText(cells[..|cells| - 1]) + cells[|cells| - 1].content + " | "
  }

  /** A row as the table grid writes it: `"| "` before the first row, `"|"`
      before every later one. */
  function RowText(cells: seq<Cell>, row: nat): string {
    (if row == 0 then "| " else "|") + CellsText(RowCells(cells, row))
  }

  /** Rows `0 .. count - 1`, each followed by a newline. */
  function FlushedRows(cells: seq<Cell>, count: nat): string
    decreases count
  {
    if count == 0 then "" else FlushedRows(cells, count - 1) + RowText(cells, count - 1) + "\n"
  }

  lemma {:induction false} RowMajorBounded(cells: seq<Cell>)
    requires RowMajor(cells) && |cells| > 0
    ensures forall i :: 0 <= i < |cells| ==> cells[i].rowIndex <= cells[|cells| - 1].rowIndex
    decreases |cells|
  {
    if |cells| > 1 {
      var init := cells[..|cells| - 1];
      assert RowMajor(init);
      RowMajorBounded(init);
    }
  }

  lemma {:induction false} RowCellsAbove(cells: seq<Cell>, row: nat)
    requires forall i :: 0 <= i < |cells| ==> cells[i].rowIndex < row
    ensures RowCells(cells, row) == []
    decreases |cells|
  {
    if cells != [] {
      RowCellsAbove(cells[..|cells| - 1], row);
    }
  }

  lemma {:induction false} FlushedRowsAgree(a: seq<Cell>, b: seq<Cell>, count: nat)
    requires forall row: nat :: row < count ==> RowText(a, row) == RowText(b, row)
    ensures FlushedRows(a, count) == FlushedRows(b, count)
    decreases count
  {
    if count > 0 {
      FlushedRowsAgree(a, b, count - 1);
      assert RowText(a, count - 1) == RowText(b, count - 1);
      assert FlushedRows(a, count) == FlushedRows(a, count - 1) + RowText(a, count - 1) + "\n";
    }
  }

  lemma RowCellsSnoc(init: seq<Cell>, c: Cell, row: nat)
    ensures RowCells(init + [c], row) == RowCells(init, row) + (if c.rowIndex == row then [c] else [])
  {
    assert (init + [c])[..|init|] == init;
  }

  lemma CellsTextSnoc(cells: seq<Cell>, c: Cell)
    ensures CellsText(cells + [c]) == CellsText(cells) + c.content + " | "
  {
    assert (cells + [c])[..|cells|] == cells;
  }

  /** A cell of another row leaves a row's text as it was. */
  lemma RowTextSnoc(init: seq<Cell>, c: Cell, row: nat)
    requires c.rowIndex != row
    ensures RowText(init + [c], row) == RowText(init, row)
  {
    RowCellsSnoc(init, c, row);
    assert RowCells(init + [c], row) == RowCells(init, row) + [];
    assert RowCells(init, row) + [] == RowCells(init, row);
  }

  /** The first cell of a new row makes that row's text on its own. */
  lemma OpenRowText(init: seq<Cell>, c: Cell)
    requires c.rowIndex > 0
    requires forall i :: 0 <= i < |init| ==> init[i].rowIndex < c.rowIndex
    ensures RowText(init + [c], c.rowIndex) == "|" + c.content + " | "
  {
    RowCellsAbove(init, c.rowIndex);
    RowCellsSnoc(init, c, c.rowIndex);
    assert RowCells(init + [c], c.rowIndex) == [] + [c];
    CellsTextSnoc([], c);
    assert [] + [c] == [c];
  }

  /** A cell in row `l` or later leaves every row before `l` as it was. */
  lemma FlushedRowsSnoc(init: seq<Cell>, c: Cell, l: nat)
    requires c.rowIndex >= l
    ensures FlushedRows(init + [c], l) == FlushedRows(init, l)
  {
    forall row: nat | row < l
      ensures RowText(init + [c], row) == RowText(init, row)
    {
      RowTextSnoc(init, c, row);
    }
    FlushedRowsAgree(init + [c], init, l);
  }

  /** A cell in the pending row is added to that row. */
  lemma SameRowStep(init: seq<Cell>, c: Cell, l: nat)
    requires RenderCells(init) == RowState(l, RowText(init, l), FlushedRows(init, l))
    requires c.rowIndex == l
    ensures RenderCells(init + [c]) == RowState(l, RowText(init + [c], l), FlushedRows(init + [c], l))
  {
    assert (init + [c])[..|init|] == init;
    assert RenderCells(init + [c]) == CellStep(RenderCells(init), c);
    FlushedRowsSnoc(init, c, l);
    SameRowText(init, c);
  }

  /** A cell of a row adds its text and `" | "` to that row's text. */
  lemma SameRowText(init: seq<Cell>, c: Cell)
    ensures RowText(init + [c], c.rowIndex) == RowText(init, c.rowIndex) + c.content + " | "
  {
    var row := c.rowIndex;
    var opening := if row == 0 then "| " else "|";
    var cells := RowCells(init, row);
    RowCellsSnoc(init, c, row);
    CellsTextSnoc(cells, c);
    AppendAssoc(opening, CellsText(cells), c.content);
    AppendAssoc(opening, CellsText(cells) + c.content, " | ");
  }

  /** A cell in the row after the pending one writes the pending row out and
      opens the next one. */
  lemma NextRowStep(init: seq<Cell>, c: Cell, l: nat)
    requires RenderCells(init) == RowState(l, RowText(init, l), FlushedRows(init, l))
    requires forall i :: 0 <= i < |init| ==> init[i].rowIndex <= l
    requires c.rowIndex == l + 1
    ensures RenderCells(init + [c]) == RowState(l + 1, RowText(init + [c], l + 1), FlushedRows(init + [c], l + 1))
  {
    var cells := init + [c];
    assert cells[..|init|] == init;
    assert RenderCells(cells) == CellStep(RenderCells(init), c);
    OpenRowText(init, c);
    RowTextSnoc(init, c, l);
    FlushedRowsSnoc(init, c, l);
    assert FlushedRows(cells, l + 1) == FlushedRows(cells, l) + RowText(cells, l) + "\n";
  }

  /** A table's first cell, in row 0, opens row 0. */
  lemma FirstCell(c: Cell)
    requires c.rowIndex == 0
    ensures RenderCells([c]) == RowState(0, RowText([c], 0), FlushedRows([c], 0))
  {
    assert [c][..0] == [];
    RowCellsSnoc([], c, 0);
    assert [] + [c] == [c];
    CellsTextSnoc([], c);
  }

  /** Dropping the last cell keeps the cells row by row; the last cell sits
      in the row of the one before it or the row after. */
  lemma RowMajorInit(cells: seq<Cell>)
    requires RowMajor(cells) && |cells| > 1
    ensures RowMajor(cells[..|cells| - 1])
    ensures var l := cells[|cells| - 2].rowIndex;
      cells[|cells| - 1].rowIndex == l || cells[|cells| - 1].rowIndex == l + 1
  {
  }

  /** For cells listed row by row, the cell loop ends with the counter on the
      last row, that row pending, and every earlier row written out in grid
      form. */
  lemma {:induction false} RowMajorRendering(cells: seq<Cell>)
    requires RowMajor(cells) && |cells| > 0
    ensures RenderCells(cells) == RowState(cells[|cells| - 1].rowIndex,
                                           RowText(cells, cells[|cells| - 1].rowIndex),
                                           FlushedRows(cells, cells[|cells| - 1].rowIndex))
    decreases |cells|
  {
    var m := |cells| - 1;
    var c := cells[m];
    var init := cells[..m];
    assert cells == init + [c];
    if m == 0 {
      FirstCell(c);
    } else {
      RowMajorInit(cells);
      RowMajorRendering(init);
      var l := init[m - 1].rowIndex;
      if c.rowIndex == l {
        SameRowStep(init, c, l);
      } else {
        RowMajorBounded(init);
        NextRowStep(init, c, l);
      }
    }
  }

  /** The table text of cells listed row by row is every row but the last in
      grid form, then `"|"`: the last row is never written out. */
  lemma RowMajorTableText(cells: seq<Cell>)
    requires RowMajor(cells) && |cells| > 0
    ensures TableText(cells) == FlushedRows(cells, cells[|cells| - 1].rowIndex) + "|"
  {
    RowMajorRendering(cells);
  }

  // ---------------------------------------------------------------------
  // Worked cases

  /** A kept paragraph in a window already in the list. */
  lemma KeptParagraphStep(results: seq<string>, p: Paragraph, n: nat)
    requires n >= 1 && !Excluded(p.role) && ChunkIndex(p.page, n) < |results|
    ensures var k := ChunkIndex(p.page, n);
      Step(results, ParagraphItem(p), n) == Success(results[k := results[k] + (p.content + "\n")])
  {
  }

  /** A kept paragraph in the window just past the end of the list. */
  lemma NewChunkParagraphStep(results: seq<string>, p: Paragraph, n: nat)
    requires n >= 1 && !Excluded(p.role) && ChunkIndex(p.page, n) == |results|
    ensures Step(results, ParagraphItem(p), n) == Success(results + [p.content + "\n"])
  {
    var k := |results|;
    var text := p.content + "\n";
    assert "" + text == text;
    assert (results + [""])[k := text] == results + [text];
  }

  /** A layout without tables is its paragraphs. */
  lemma ParagraphsOnly(ps: seq<Paragraph>)
    ensures Items(Layout(ps, [])) == ParagraphItems(ps)
  {
    assert ParagraphItems(ps) + [] == ParagraphItems(ps);
  }

  /** Paragraphs on pages 1, 1, 2 and 3 with the default window of 2 give
      exactly two chunks: the text of pages 1-2, then the text of page 3. */
  lemma FourParagraphsTwoChunks(a: string, b: string, c: string, d: string)
    ensures Extract(Layout([Paragraph(a, 1, None), Paragraph(b, 1, None),
                            Paragraph(c, 2, None), Paragraph(d, 3, None)], []),
                    DefaultPagesPerEmbeddings)
            == Success([(a + "\n") + (b + "\n") + (c + "\n"), d + "\n"])
  {
    var n := DefaultPagesPerEmbeddings;
    var ps := [Paragraph(a, 1, None), Paragraph(b, 1, None), Paragraph(c, 2, None), Paragraph(d, 3, None)];
    var items := [ParagraphItem(ps[0]), ParagraphItem(ps[1]), ParagraphItem(ps[2]), ParagraphItem(ps[3])];
    ParagraphsOnly(ps);
    assert ParagraphItems(ps) == items;
    assert ChunkIndex(1, n) == 0 && ChunkIndex(2, n) == 0 && ChunkIndex(3, n) == 1;
    var r0: seq<string> := [];
    var r1 := r0 + [a + "\n"];
    var r2 := r1[0 := r1[0] + (b + "\n")];
    var r3 := r2[0 := r2[0] + (c + "\n")];
    var r4 := r3 + [d + "\n"];
    assert items[..0] == [];
    RunPrefixStep([], items, 0, n);
    NewChunkParagraphStep(r0, ps[0], n);
    assert Run([], items[..1], n) == Success(r1);
    RunPrefixStep([], items, 1, n);
    KeptParagraphStep(r1, ps[1], n);
    assert Run([], items[..2], n) == Success(r2);
    RunPrefixStep([], items, 2, n);
    KeptParagraphStep(r2, ps[2], n);
    assert Run([], items[..3], n) == Success(r3);
    RunPrefixStep([], items, 3, n);
    NewChunkParagraphStep(r3, ps[3], n);
    assert items[..4] == items;
    assert r4 == [(a + "\n") + (b + "\n") + (c + "\n"), d + "\n"];
  }

  /** A first paragraph on page 5 with a window of 2 raises: its window 2 is
      two past the empty list. An excluded one on the same page does not
      raise; it only adds a single empty chunk. */
  lemma FirstParagraphOnPageFive()
    ensures Extract(Layout([Paragraph("x", 5, None)], []), 2) == Failure(IndexError)
    ensures Extract(Layout([Paragraph("x", 5, Some("pageFooter"))], []), 2) == Success([""])
  {
    assert ChunkIndex(5, 2) == 2;
    var kept := ParagraphItem(Paragraph("x", 5, None));
    assert Items(Layout([Paragraph("x", 5, None)], [])) == [kept];
    assert [kept][..0] == [];
    assert Step([], kept, 2) == Failure(IndexError);
    var footer := ParagraphItem(Paragraph("x", 5, Some("pageFooter")));
    assert Items(Layout([Paragraph("x", 5, Some("pageFooter"))], [])) == [footer];
    assert [footer][..0] == [];
    assert SectionsToExclude[2] == "pageFooter";
    assert Excluded(Some("pageFooter"));
    assert ItemPage(footer) == 5;
    assert !Indexes(footer);
    var e: seq<string> := [];
    assert e + [""] == [""];
    assert Step([], footer, 2) == Success([""]);
  }
}
