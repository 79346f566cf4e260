/**
 * The part of a Word document the service looks at: a body, or a table cell, is a sequence
 * of blocks in document order; a block is a paragraph (the texts of its runs) or a table
 * (rows of cells, each cell again a sequence of blocks).
 */
module Docx {
  import opened Text

  datatype Block = Paragraph(runs: seq<string>) | Table(rows: seq<Row>)
  datatype Row = Row(cells: seq<Cell>)
  datatype Cell = Cell(blocks: seq<Block>)

  /** The text of a paragraph: the texts of its runs, joined. It stands for both
      `paragraph.text` and the join of `paragraph.runs`; hyperlink runs, which only the
      former includes, are not modelled. */
  function ParagraphText(runs: seq<string>): string
  {
    Concat(runs)
  }

  /** `_iter_all_paragraphs`: the run lists of every paragraph, depth first, including those
      in the cells of (nested) tables, row by row and cell by cell. */
  function BlocksParagraphs(blocks: seq<Block>): seq<seq<string>>
  {
    if blocks == [] then []
    else BlocksParagraphs(blocks[..|blocks| - 1]) + BlockParagraphs(blocks[|blocks| - 1])
  }

  function BlockParagraphs(b: Block): seq<seq<string>>
  {
    match b
    case Paragraph(runs) => [runs]
    case Table(rows) => RowsParagraphs(rows)
  }

  function RowsParagraphs(rows: seq<Row>): seq<seq<string>>
  {
    if rows == [] then []
    else RowsParagraphs(rows[..|rows| - 1]) + CellsParagraphs(rows[|rows| - 1].cells)
  }

  function CellsParagraphs(cells: seq<Cell>): seq<seq<string>>
  {
    if cells == [] then []
    else CellsParagraphs(cells[..|cells| - 1]) + BlocksParagraphs(cells[|cells| - 1].blocks)
  }

  /** Paragraphs of a block list that holds no table are exactly its blocks' run lists. */
  lemma {:induction false} FlatParagraphs(blocks: seq<Block>)
    requires forall i :: 0 <= i < |blocks| ==> blocks[i].Paragraph?
    ensures |BlocksParagraphs(blocks)| == |blocks|
    ensures forall i :: 0 <= i < |blocks| ==> BlocksParagraphs(blocks)[i] == blocks[i].runs
  {
    if blocks != [] {
      FlatParagraphs(blocks[..|blocks| - 1]);
    }
  }
}
