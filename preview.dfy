/**
 * The HTML preview of a document body: `_render_paragraph`, `_render_table` and
 * `_render_blocks`, which append one HTML string per block to a caller's list and total the
 * placeholders and paragraphs they rendered, descending into table cells.
 */
module Preview {
  import opened Text
  import opened Html
  import opened Highlight
  import opened Docx

  const EmptyLine: string := "<p class=\"empty-line\">&nbsp;</p>"
  const TableOpen: string := "<table class=\"doc-table\">"
  const EmptyCell: string := "&nbsp;"

  /** The list of HTML strings `_render_blocks` appends to. */
  class HtmlParts {
    var items: seq<string>

    constructor ()
      ensures items == []
    {
      items := [];
    }
  }

  /** A paragraph whose preview strips to nothing becomes an empty line. */
  function ParagraphHtml(text: string): string
  {
    var rendered := Highlighted(text);
    if Trim(rendered) == [] then EmptyLine else "<p>" + rendered + "</p>"
  }

  /** The strings `_render_blocks` appends for `blocks`, one per block. */
  function BlocksHtml(blocks: seq<Block>): seq<string>
  {
    seq(|blocks|, i requires 0 <= i < |blocks| => BlockHtml(blocks[i]))
  }

  function BlockHtml(b: Block): string
  {
    match b
    case Paragraph(runs) => ParagraphHtml(ParagraphText(runs))
    case Table(rows) => TableHtml(rows)
  }

  function TableHtml(rows: seq<Row>): string
    decreases rows, 1
  {
    TableOpen + Concat(RowsHtml(rows)) + "</table>"
  }

  function RowsHtml(rows: seq<Row>): seq<string>
    decreases rows, 0
  {
    seq(|rows|, i requires 0 <= i < |rows| => RowHtml(rows[i]))
  }

  function RowHtml(row: Row): string
  {
    "<tr>" + Concat(CellsHtml(row.cells)) + "</tr>"
  }

  function CellsHtml(cells: seq<Cell>): seq<string>
  {
    seq(|cells|, i requires 0 <= i < |cells| => CellHtml(cells[i]))
  }

  function CellHtml(cell: Cell): string
  {
    "<td>" + CellContent(Concat(BlocksHtml(cell.blocks))) + "</td>"
  }

  /** `"".join(cell_parts).strip() or "&nbsp;"` */
  function CellContent(joined: string): string
  {
    if Trim(joined) == [] then EmptyCell else Trim(joined)
  }

  /** The placeholders counted over a list of paragraphs. */
  function PlaceholderSum(paragraphs: seq<seq<string>>): nat
  {
    if paragraphs == [] then 0
    else (PlaceholderSum(paragraphs[..|paragraphs| - 1])
          + PlaceholderCount(ParagraphText(paragraphs[|paragraphs| - 1])))
  }

  lemma PlaceholderSumAppend(a: seq<seq<string>>, b: seq<seq<string>>)
    ensures PlaceholderSum(a + b) == PlaceholderSum(a) + PlaceholderSum(b)
    decreases |b|
  {
    if b == [] {
      assert a + b == a;
    } else {
      assert (a + b)[..|a + b| - 1] == a + b[..|b| - 1];
      PlaceholderSumAppend(a, b[..|b| - 1]);
    }
  }

  method RenderParagraph(runs: seq<string>) returns (html: string, count: nat)
    ensures html == ParagraphHtml(ParagraphText(runs))
    ensures count == PlaceholderCount(ParagraphText(runs))
  {
    var text := Concat(runs);
    var rendered;
    rendered, count := HighlightPlaceholders(text);
    if Trim(rendered) == [] {
      html := EmptyLine;
    } else {
      html := "<p>" + rendered + "</p>";
    }
  }

  method RenderTable(rows: seq<Row>) returns (tableHtml: string, placeholderTotal: nat, paragraphTotal: nat)
    ensures tableHtml == TableHtml(rows)
    ensures placeholderTotal == PlaceholderSum(RowsParagraphs(rows))
    ensures paragraphTotal == |RowsParagraphs(rows)|
  {
    placeholderTotal, paragraphTotal := 0, 0;
    var rowsHtml: seq<string> := [];
    var i := 0;
    while i < |rows|
      invariant i <= |rows|
      invariant rowsHtml == RowsHtml(rows[..i])
      invariant placeholderTotal == PlaceholderSum(RowsParagraphs(rows[..i]))
      invariant paragraphTotal == |RowsParagraphs(rows[..i])|
    {
      var row := rows[i];
      RowsStep(rows, i);
      RowsHtmlSnoc(rows, i);
      var rowHtml, rowPlaceholders, rowParagraphs := RenderRow(row);
      placeholderTotal := placeholderTotal + rowPlaceholders;
      paragraphTotal := paragraphTotal + rowParagraphs;
      rowsHtml := rowsHtml + [rowHtml];
      i := i + 1;
    }
    assert rows[..i] == rows;
    tableHtml := TableOpen + Concat(rowsHtml) + "</table>";
  }

  /** The body of `_render_table`'s outer loop: the cells of one row, rendered in turn. */
  method RenderRow(row: Row) returns (rowHtml: string, placeholders: nat, paragraphs: nat)
    ensures rowHtml == RowHtml(row)
    ensures placeholders == PlaceholderSum(CellsParagraphs(row.cells))
    ensures paragraphs == |CellsParagraphs(row.cells)|
  {
    var cells := row.cells;
    var cellsHtml: seq<string> := [];
    placeholders, paragraphs := 0, 0;
    var j := 0;
    while j < |cells|
      invariant j <= |cells|
      invariant cellsHtml == CellsHtml(cells[..j])
      invariant placeholders == PlaceholderSum(CellsParagraphs(cells[..j]))
      invariant paragraphs == |CellsParagraphs(cells[..j])|
    {
      var cell := cells[j];
      CellsStep(cells, j);
      CellsHtmlSnoc(cells, j);
      var cellHtml, cellPlaceholders, cellParagraphs := RenderCell(cell);
      placeholders := placeholders + cellPlaceholders;
      paragraphs := paragraphs + cellParagraphs;
      cellsHtml := cellsHtml + [cellHtml];
      j := j + 1;
    }
    assert cells[..j] == cells;
    rowHtml := "<tr>" + Concat(cellsHtml) + "</tr>";
  }

  /** The body of `_render_table`'s inner loop: one cell rendered into a list of its own. */
  method RenderCell(cell: Cell) returns (cellHtml: string, placeholders: nat, paragraphs: nat)
    ensures cellHtml == CellHtml(cell)
    ensures placeholders == PlaceholderSum(BlocksParagraphs(cell.blocks))
    ensures paragraphs == |BlocksParagraphs(cell.blocks)|
  {
    var cellParts := new HtmlParts();
    placeholders, paragraphs := RenderBlocks(cell.blocks, cellParts);
    assert cellParts.items == BlocksHtml(cell.blocks);
    var joined := Concat(cellParts.items);
    var cellContent := if Trim(joined) == [] then EmptyCell else Trim(joined);
    cellHtml := "<td>" + cellContent + "</td>";
  }

  method RenderBlocks(blocks: seq<Block>, container: HtmlParts) returns (placeholderTotal: nat, paragraphTotal: nat)
    modifies container
    ensures container.items == old(container.items) + BlocksHtml(blocks)
    ensures placeholderTotal == PlaceholderSum(BlocksParagraphs(blocks))
    ensures paragraphTotal == |BlocksParagraphs(blocks)|
  {
    placeholderTotal, paragraphTotal := 0, 0;
    var k := 0;
    while k < |blocks|
      invariant k <= |blocks|
      invariant container.items == old(container.items) + BlocksHtml(blocks[..k])
      invariant placeholderTotal == PlaceholderSum(BlocksParagraphs(blocks[..k]))
      invariant paragraphTotal == |BlocksParagraphs(blocks[..k])|
    {
      var block := blocks[k];
      BlocksStep(blocks, k);
      BlocksHtmlSnoc(blocks, k);
      var blockHtml, blockPlaceholders, blockParagraphs := RenderBlock(block);
      SnocAssoc(old(container.items), BlocksHtml(blocks[..k]), blockHtml);
      container.items := container.items + [blockHtml];
      paragraphTotal := paragraphTotal + blockParagraphs;
      placeholderTotal := placeholderTotal + blockPlaceholders;
      k := k + 1;
    }
    assert blocks[..k] == blocks;
  }

  /** The body of `_render_blocks`'s loop: a paragraph or a table, rendered. */
  method RenderBlock(block: Block) returns (html: string, placeholders: nat, paragraphs: nat)
    ensures html == BlockHtml(block)
    ensures placeholders == PlaceholderSum(BlockParagraphs(block))
    ensures paragraphs == |BlockParagraphs(block)|
  {
    match block {
      case Paragraph(runs) =>
        html, placeholders := RenderParagraph(runs);
        paragraphs := 1;
        PlaceholderSumSingle(runs);
      case Table(rows) =>
        html, placeholders, paragraphs := RenderTable(rows);
    }
  }

  lemma SnocAssoc(a: seq<string>, b: seq<string>, x: string)
    ensures (a + b) + [x] == a + (b + [x])
  {
  }

  lemma BlocksHtmlSnoc(blocks: seq<Block>, n: nat)
    requires n < |blocks|
    ensures BlocksHtml(blocks[..n + 1]) == BlocksHtml(blocks[..n]) + [BlockHtml(blocks[n])]
  {
    var a := BlocksHtml(blocks[..n + 1]);
    var b := BlocksHtml(blocks[..n]) + [BlockHtml(blocks[n])];
    forall j | 0 <= j < n + 1 ensures a[j] == b[j] {
      assert blocks[..n + 1][j] == blocks[j];
      if j < n {
        assert blocks[..n][j] == blocks[j];
      }
    }
  }

  lemma BlocksStep(blocks: seq<Block>, k: nat)
    requires k < |blocks|
    ensures var before := BlocksParagraphs(blocks[..k]); var added := BlockParagraphs(blocks[k]);
      BlocksParagraphs(blocks[..k + 1]) == before + added &&
      PlaceholderSum(before + added) == PlaceholderSum(before) + PlaceholderSum(added)
  {
    assert blocks[..k + 1][..k] == blocks[..k];
    PlaceholderSumAppend(BlocksParagraphs(blocks[..k]), BlockParagraphs(blocks[k]));
  }

  lemma RowsHtmlSnoc(rows: seq<Row>, n: nat)
    requires n < |rows|
    ensures RowsHtml(rows[..n + 1]) == RowsHtml(rows[..n]) + [RowHtml(rows[n])]
  {
    var a := RowsHtml(rows[..n + 1]);
    var b := RowsHtml(rows[..n]) + [RowHtml(rows[n])];
    forall j | 0 <= j < n + 1 ensures a[j] == b[j] {
      assert rows[..n + 1][j] == rows[j];
      if j < n {
        assert rows[..n][j] == rows[j];
      }
    }
  }

  lemma RowsStep(rows: seq<Row>, i: nat)
    requires i < |rows|
    ensures var before := RowsParagraphs(rows[..i]); var added := CellsParagraphs(rows[i].cells);
      RowsParagraphs(rows[..i + 1]) == before + added &&
      PlaceholderSum(before + added) == PlaceholderSum(before) + PlaceholderSum(added)
  {
    assert rows[..i + 1][..i] == rows[..i];
    PlaceholderSumAppend(RowsParagraphs(rows[..i]), CellsParagraphs(rows[i].cells));
  }

  lemma CellsHtmlSnoc(cells: seq<Cell>, n: nat)
    requires n < |cells|
    ensures CellsHtml(cells[..n + 1]) == CellsHtml(cells[..n]) + [CellHtml(cells[n])]
  {
    var a := CellsHtml(cells[..n + 1]);
    var b := CellsHtml(cells[..n]) + [CellHtml(cells[n])];
    forall j | 0 <= j < n + 1 ensures a[j] == b[j] {
      assert cells[..n + 1][j] == cells[j];
      if j < n {
        assert cells[..n][j] == cells[j];
      }
    }
  }

  lemma CellsStep(cells: seq<Cell>, j: nat)
    requires j < |cells|
    ensures var before := CellsParagraphs(cells[..j]); var added := BlocksParagraphs(cells[j].blocks);
      CellsParagraphs(cells[..j + 1]) == before + added &&
      PlaceholderSum(before + added) == PlaceholderSum(before) + PlaceholderSum(added)
  {
    assert cells[..j + 1][..j] == cells[..j];
    PlaceholderSumAppend(CellsParagraphs(cells[..j]), BlocksParagraphs(cells[j].blocks));
  }

  lemma PlaceholderSumSingle(runs: seq<string>)
    ensures PlaceholderSum([runs]) == PlaceholderCount(ParagraphText(runs))
  {
    assert [runs][..0] == [];
  }

  /** A paragraph is shown as an empty line exactly when its text is whitespace without
      line breaks; otherwise its highlighted text is wrapped in `<p>`. */
  lemma ParagraphHtmlBlank(text: string)
    ensures ParagraphHtml(text) == EmptyLine <==> AllSpace(text) && '\n' !in text
    ensures ParagraphHtml(text) != EmptyLine ==> ParagraphHtml(text) == "<p>" + Highlighted(text) + "</p>"
  {
    var rendered := Highlighted(text);
    TrimEmpty(rendered);
    HighlightedBlank(text);
    WrappedNotEmptyLine(rendered);
  }

  lemma WrappedNotEmptyLine(r: string)
    ensures "<p>" + r + "</p>" != EmptyLine
  {
    var w := "<p>" + r + "</p>";
    assert w[2] == '>';
    assert EmptyLine[..3] == "<p ";
  }

  /** The preview of a paragraph is one line: its line breaks became `<br />`. */
  lemma ParagraphHtmlNoNewline(text: string)
    ensures '\n' !in ParagraphHtml(text)
  {
    HighlightedNoNewline(text);
    WrappedNoNewline(Highlighted(text));
  }

  lemma WrappedNoNewline(r: string)
    requires '\n' !in r
    ensures '\n' !in "<p>" + r + "</p>" && '\n' !in EmptyLine
  {
  }

  /** A table cell is never empty: blank content is shown as `&nbsp;`. */
  lemma CellContentNotBlank(joined: string)
    ensures !AllSpace(CellContent(joined))
    ensures IsTrimmed(CellContent(joined))
  {
    if Trim(joined) == [] {
      EmptyCellShape();
    } else {
      TrimIsTrimmed(joined);
    }
  }

  lemma EmptyCellShape()
    ensures !AllSpace(EmptyCell) && IsTrimmed(EmptyCell)
  {
    assert EmptyCell[0] == '&';
    assert EmptyCell[|EmptyCell| - 1] == ';';
  }
}
