/**
 * `_replace_in_paragraph` and `_replace_in_table`: a paragraph object holds the texts of its
 * runs, which the replacement overwrites in place; a table holds rows of cells, and a cell
 * its paragraphs and its nested tables. Every paragraph is a distinct object.
 */
module ReplaceDocx {
  import opened Text
  import opened Patterns
  import opened Substitute

  /** A paragraph of the document; `runs` are the texts of its runs, in order. */
  class Paragraph {
    var runs: seq<string>

    constructor (runs: seq<string>)
      ensures this.runs == runs
    {
      this.runs := runs;
    }
  }

  /** A document body or a table cell: its paragraphs and the tables directly inside it. */
  datatype BlockContainer = BlockContainer(paragraphs: seq<Paragraph>, tables: seq<DocTable>)
  datatype DocTable = DocTable(rows: seq<DocRow>)
  datatype DocRow = DocRow(cells: seq<BlockContainer>)

  /** The replacement a paragraph's text undergoes, `(replaced, count)`. */
  function ParagraphReplaced(runs: seq<string>, patterns: seq<Pattern>): Replaced
    requires NonEmptyTokens(patterns)
  {
    if runs == [] || Concat(runs) == [] then Replaced(Concat(runs), 0)
    else ReplaceAll(Concat(runs), patterns)
  }

  /** The run texts after `_replace_in_paragraph`: when something was replaced and the text
      changed, the first run holds the whole new text and the others are emptied; otherwise
      the runs are left alone. */
  function ParagraphAfter(runs: seq<string>, patterns: seq<Pattern>): seq<string>
    requires NonEmptyTokens(patterns)
  {
    var r := ParagraphReplaced(runs, patterns);
    if r.count != 0 && r.text != Concat(runs) then [r.text] + Blanks(|runs| - 1)
    else runs
  }

  function Blanks(n: nat): (r: seq<string>)
    ensures |r| == n && forall i :: 0 <= i < n ==> r[i] == []
  {
    if n == 0 then [] else Blanks(n - 1) + [[]]
  }

  method ReplaceInParagraph(paragraph: Paragraph, patterns: seq<Pattern>) returns (count: nat)
    requires NonEmptyTokens(patterns)
    modifies paragraph
    ensures paragraph.runs == ParagraphAfter(old(paragraph.runs), patterns)
    ensures count == ParagraphReplaced(old(paragraph.runs), patterns).count
  {
    if paragraph.runs == [] {
      return 0;
    }
    var original := Concat(paragraph.runs);
    if original == [] {
      return 0;
    }
    var replaced;
    replaced, count := ReplaceInText(original, patterns);
    if count != 0 && replaced != original {
      ghost var n := |paragraph.runs|;
      var i := 0;
      while i < |paragraph.runs|
        invariant |paragraph.runs| == n && i <= n
        invariant forall k :: 0 <= k < i ==> paragraph.runs[k] == []
      {
        paragraph.runs := paragraph.runs[i := []];
        i := i + 1;
      }
      paragraph.runs := paragraph.runs[0 := replaced];
      assert paragraph.runs == [replaced] + Blanks(n - 1);
    }
  }

  /** Whatever happens, the runs joined give the replaced text: collapsing into the first run
      loses nothing, and leaving the runs alone happens only when the text is unchanged. */
  lemma ParagraphAfterText(runs: seq<string>, patterns: seq<Pattern>)
    requires NonEmptyTokens(patterns)
    ensures Concat(ParagraphAfter(runs, patterns)) == ParagraphReplaced(runs, patterns).text
    ensures |ParagraphAfter(runs, patterns)| == |runs|
  {
    var r := ParagraphReplaced(runs, patterns);
    if r.count != 0 && r.text != Concat(runs) {
      ConcatBlanks(|runs| - 1);
      ConcatAppend([r.text], Blanks(|runs| - 1));
      assert [r.text][..0] == [];
    } else if runs != [] && Concat(runs) != [] && r.count == 0 {
      ReplaceAllNone(Concat(runs), patterns);
    }
  }

  lemma {:induction false} ConcatBlanks(n: nat)
    ensures Concat(Blanks(n)) == []
  {
    if n > 0 {
      ConcatBlanks(n - 1);
      ConcatSnoc(Blanks(n - 1), []);
    }
  }

  /** A paragraph without any run or text, or without any match, is left exactly as it was
      and counts nothing. */
  lemma ParagraphUntouched(runs: seq<string>, patterns: seq<Pattern>)
    requires NonEmptyTokens(patterns)
    requires forall k :: 0 <= k < |patterns| ==> !Occurs(Concat(runs), patterns[k].token)
    ensures ParagraphAfter(runs, patterns) == runs
    ensures ParagraphReplaced(runs, patterns).count == 0
  {
    ReplaceAllNone(Concat(runs), patterns);
  }

  /** A paragraph reports no replacement exactly when no token occurs in its text; an empty
      paragraph or one without runs has no occurrence of a non-empty token. */
  lemma ParagraphCountZero(runs: seq<string>, patterns: seq<Pattern>)
    requires NonEmptyTokens(patterns)
    ensures ParagraphReplaced(runs, patterns).count == 0 <==>
      forall k :: 0 <= k < |patterns| ==> !Occurs(Concat(runs), patterns[k].token)
  {
    ReplaceAllNone(Concat(runs), patterns);
    if runs == [] || Concat(runs) == [] {
      forall k, i: nat | 0 <= k < |patterns| ensures !MatchesAt(Concat(runs), patterns[k].token, i) {
        assert patterns[k].token != [];
      }
    }
  }

  /** When the text changes, only the first run keeps text. */
  lemma ParagraphCollapsed(runs: seq<string>, patterns: seq<Pattern>)
    requires NonEmptyTokens(patterns)
    requires ParagraphAfter(runs, patterns) != runs
    ensures runs != [] && ParagraphAfter(runs, patterns)[0] == ParagraphReplaced(runs, patterns).text
    ensures forall k :: 1 <= k < |runs| ==> ParagraphAfter(runs, patterns)[k] == []
  {
  }

  /** The paragraphs of a table in the order `_replace_in_table` visits them: row by row,
      cell by cell, a cell's own paragraphs before those of its nested tables. */
  function TableParagraphs(t: DocTable): seq<Paragraph>
  {
    RowsParagraphs(t.rows)
  }

  function RowsParagraphs(rows: seq<DocRow>): seq<Paragraph>
  {
    if rows == [] then [] else CellsParagraphs(rows[0].cells) + RowsParagraphs(rows[1..])
  }

  function CellsParagraphs(cells: seq<BlockContainer>): seq<Paragraph>
  {
    if cells == [] then [] else ContainerParagraphs(cells[0]) + CellsParagraphs(cells[1..])
  }

  function ContainerParagraphs(c: BlockContainer): seq<Paragraph>
  {
    c.paragraphs + TablesParagraphs(c.tables)
  }

  function TablesParagraphs(ts: seq<DocTable>): seq<Paragraph>
  {
    if ts == [] then [] else TableParagraphs(ts[0]) + TablesParagraphs(ts[1..])
  }

  /** The paragraphs of a list, as a set: what a walk over them may change. */
  function Footprint(ps: seq<Paragraph>): set<Paragraph>
  {
    if ps == [] then {} else {ps[0]} + Footprint(ps[1..])
  }

  /** No paragraph occurs twice in `ps`. */
  predicate Distinct(ps: seq<Paragraph>)
  {
    ps == [] || (ps[0] !in Footprint(ps[1..]) && Distinct(ps[1..]))
  }

  /** The paragraphs of two lists are those of each. */
  lemma {:induction false} FootprintAppend(a: seq<Paragraph>, b: seq<Paragraph>)
    ensures Footprint(a + b) == Footprint(a) + Footprint(b)
  {
    if a == [] {
      assert a + b == b;
    } else {
      assert (a + b)[1..] == a[1..] + b;
      FootprintAppend(a[1..], b);
    }
  }

  /** A list without repeats splits into two lists without repeats and without a common
      paragraph. */
  lemma {:induction false} DistinctAppend(a: seq<Paragraph>, b: seq<Paragraph>)
    requires Distinct(a + b)
    ensures Distinct(a) && Distinct(b) && Footprint(a) !! Footprint(b)
    ensures Footprint(a + b) == Footprint(a) + Footprint(b)
  {
    FootprintAppend(a, b);
    if a == [] {
      assert a + b == b;
    } else {
      assert (a + b)[1..] == a[1..] + b;
      FootprintAppend(a[1..], b);
      DistinctAppend(a[1..], b);
    }
  }

  /** What visiting one paragraph does: its run texts before and after, and the number of
      replacements reported. */
  datatype Visit = Visit(before: seq<string>, after: seq<string>, count: nat)

  /** A visit as `_replace_in_paragraph` makes it. */
  ghost predicate Follows(v: Visit, patterns: seq<Pattern>)
    requires NonEmptyTokens(patterns)
  {
    v.after == ParagraphAfter(v.before, patterns) && v.count == ParagraphReplaced(v.before, patterns).count
  }

  /** Every paragraph of the plan is visited as `_replace_in_paragraph` does it. */
  ghost predicate Planned(plan: map<Paragraph, Visit>, patterns: seq<Pattern>)
    requires NonEmptyTokens(patterns)
  {
    forall p {:trigger Follows(plan[p], patterns)} :: p in plan ==> Follows(plan[p], patterns)
  }

  /** The replacement counts of the paragraphs `ps` in the plan, added up. */
  function Count(ps: seq<Paragraph>, plan: map<Paragraph, Visit>): nat
    requires Footprint(ps) <= plan.Keys
  {
    if ps == [] then 0 else plan[ps[0]].count + Count(ps[1..], plan)
  }

  /** Counting over two lists is counting over each. */
  lemma {:induction false} CountAppend(a: seq<Paragraph>, b: seq<Paragraph>, plan: map<Paragraph, Visit>)
    requires Footprint(a + b) <= plan.Keys
    ensures Footprint(a) <= plan.Keys && Footprint(b) <= plan.Keys
    ensures Count(a + b, plan) == Count(a, plan) + Count(b, plan)
  {
    FootprintAppend(a, b);
    if a == [] {
      assert a + b == b;
    } else {
      assert (a + b)[1..] == a[1..] + b;
      FootprintAppend(a[1..], b);
      CountAppend(a[1..], b, plan);
    }
  }

  /** One step of the walk over a list of rows, cells or tables: the first element's
      paragraphs, then the rest. */
  lemma RowsParagraphsStep(xs: seq<DocRow>, i: nat)
    requires i < |xs|
    ensures RowsParagraphs(xs[i..]) == CellsParagraphs(xs[i].cells) + RowsParagraphs(xs[i + 1..])
  {
    assert xs[i..][0] == xs[i] && xs[i..][1..] == xs[i + 1..];
  }

  lemma CellsParagraphsStep(xs: seq<BlockContainer>, i: nat)
    requires i < |xs|
    ensures CellsParagraphs(xs[i..]) == ContainerParagraphs(xs[i]) + CellsParagraphs(xs[i + 1..])
  {
    assert xs[i..][0] == xs[i] && xs[i..][1..] == xs[i + 1..];
  }

  lemma TablesParagraphsStep(xs: seq<DocTable>, i: nat)
    requires i < |xs|
    ensures TablesParagraphs(xs[i..]) == TableParagraphs(xs[i]) + TablesParagraphs(xs[i + 1..])
  {
    assert xs[i..][0] == xs[i] && xs[i..][1..] == xs[i + 1..];
  }

  /** One step of the walk over a list of paragraphs. */
  lemma ParagraphsStep(xs: seq<Paragraph>, i: nat, plan: map<Paragraph, Visit>)
    requires i < |xs| && Distinct(xs[i..]) && Footprint(xs[i..]) <= plan.Keys
    ensures Distinct(xs[i + 1..]) && xs[i] !in Footprint(xs[i + 1..])
    ensures Footprint(xs[i..]) == {xs[i]} + Footprint(xs[i + 1..])
    ensures xs[i] in plan && Count(xs[i..], plan) == plan[xs[i]].count + Count(xs[i + 1..], plan)
  {
    assert xs[i..][0] == xs[i] && xs[i..][1..] == xs[i + 1..];
  }

  /** A stretch of paragraphs without repeats, in two parts. */
  lemma Split(a: seq<Paragraph>, b: seq<Paragraph>, plan: map<Paragraph, Visit>)
    requires Distinct(a + b) && Footprint(a + b) <= plan.Keys
    ensures Distinct(a) && Distinct(b) && Footprint(a) !! Footprint(b)
    ensures Footprint(a + b) == Footprint(a) + Footprint(b)
    ensures Footprint(a) <= plan.Keys && Footprint(b) <= plan.Keys
    ensures Count(a + b, plan) == Count(a, plan) + Count(b, plan)
  {
    DistinctAppend(a, b);
    CountAppend(a, b, plan);
  }

  /** `for paragraph in paragraphs: _replace_in_paragraph(paragraph, ...)`. */
  method ReplaceInParagraphs(paragraphs: seq<Paragraph>, patterns: seq<Pattern>, ghost plan: map<Paragraph, Visit>)
    returns (total: nat)
    requires NonEmptyTokens(patterns) && Planned(plan, patterns)
    requires Distinct(paragraphs) && Footprint(paragraphs) <= plan.Keys
    requires forall p :: p in Footprint(paragraphs) ==> p.runs == plan[p].before
    modifies Footprint(paragraphs)
    ensures forall p :: p in Footprint(paragraphs) ==> p.runs == plan[p].after
    ensures total == Count(paragraphs, plan)
  {
    var xs := paragraphs;
    total := 0;
    var i := 0;
    ghost var rest := xs;
    assert xs[0..] == xs;
    while i < |xs|
      invariant i <= |xs| && rest == xs[i..] && Distinct(rest)
      invariant Footprint(rest) <= Footprint(xs)
      invariant forall p :: p in Footprint(rest) ==> p.runs == plan[p].before
      invariant forall p :: p in Footprint(xs) && p !in Footprint(rest) ==> p.runs == plan[p].after
      invariant total + Count(rest, plan) == Count(xs, plan)
    {
      ghost var rest' := xs[i + 1..];
      ParagraphsStep(xs, i, plan);
      assert Follows(plan[xs[i]], patterns);
      var count := ReplaceInParagraph(xs[i], patterns);
      total := total + count;
      i := i + 1;
      rest := rest';
    }
  }

  /** `_replace_in_table`: every paragraph of the table, nested tables included, goes through
      `_replace_in_paragraph` once; the counts add up in visiting order. */
  method ReplaceInTable(t: DocTable, patterns: seq<Pattern>, ghost plan: map<Paragraph, Visit>)
    returns (total: nat)
    requires NonEmptyTokens(patterns) && Planned(plan, patterns)
    requires Distinct(TableParagraphs(t)) && Footprint(TableParagraphs(t)) <= plan.Keys
    requires forall p :: p in Footprint(TableParagraphs(t)) ==> p.runs == plan[p].before
    modifies Footprint(TableParagraphs(t))
    ensures forall p :: p in Footprint(TableParagraphs(t)) ==> p.runs == plan[p].after
    ensures total == Count(TableParagraphs(t), plan)
    decreases t, 2
  {
    var xs := t.rows;
    ghost var all := RowsParagraphs(xs);
    total := 0;
    var i := 0;
    ghost var rest := all;
    assert xs[0..] == xs;
    while i < |xs|
      invariant i <= |xs| && rest == RowsParagraphs(xs[i..]) && Distinct(rest)
      invariant Footprint(rest) <= Footprint(all)
      invariant forall p :: p in Footprint(rest) ==> p.runs == plan[p].before
      invariant forall p :: p in Footprint(all) && p !in Footprint(rest) ==> p.runs == plan[p].after
      invariant total + Count(rest, plan) == Count(all, plan)
    {
      var row := xs[i];
      ghost var sub := CellsParagraphs(row.cells);
      ghost var rest' := RowsParagraphs(xs[i + 1..]);
      RowsParagraphsStep(xs, i);
      Split(sub, rest', plan);
      assert row in t.rows;
      var count := ReplaceInRow(row, patterns, plan);
      total := total + count;
      i := i + 1;
      rest := rest';
    }
  }

  /** The cells of one row, in order. */
  method ReplaceInRow(row: DocRow, patterns: seq<Pattern>, ghost plan: map<Paragraph, Visit>)
    returns (total: nat)
    requires NonEmptyTokens(patterns) && Planned(plan, patterns)
    requires Distinct(CellsParagraphs(row.cells)) && Footprint(CellsParagraphs(row.cells)) <= plan.Keys
    requires forall p :: p in Footprint(CellsParagraphs(row.cells)) ==> p.runs == plan[p].before
    modifies Footprint(CellsParagraphs(row.cells))
    ensures forall p :: p in Footprint(CellsParagraphs(row.cells)) ==> p.runs == plan[p].after
    ensures total == Count(CellsParagraphs(row.cells), plan)
    decreases row, 2
  {
    var xs := row.cells;
    ghost var all := CellsParagraphs(xs);
    total := 0;
    var i := 0;
    ghost var rest := all;
    assert xs[0..] == xs;
    while i < |xs|
      invariant i <= |xs| && rest == CellsParagraphs(xs[i..]) && Distinct(rest)
      invariant Footprint(rest) <= Footprint(all)
      invariant forall p :: p in Footprint(rest) ==> p.runs == plan[p].before
      invariant forall p :: p in Footprint(all) && p !in Footprint(rest) ==> p.runs == plan[p].after
      invariant total + Count(rest, plan) == Count(all, plan)
    {
      var cell := xs[i];
      ghost var sub := ContainerParagraphs(cell);
      ghost var rest' := CellsParagraphs(xs[i + 1..]);
      CellsParagraphsStep(xs, i);
      Split(sub, rest', plan);
      assert cell in row.cells;
      var count := ReplaceInContainer(cell, patterns, plan);
      total := total + count;
      i := i + 1;
      rest := rest';
    }
  }

  /** A cell, or the document body: its own paragraphs first, then its tables. */
  method ReplaceInContainer(c: BlockContainer, patterns: seq<Pattern>, ghost plan: map<Paragraph, Visit>)
    returns (total: nat)
    requires NonEmptyTokens(patterns) && Planned(plan, patterns)
    requires Distinct(ContainerParagraphs(c)) && Footprint(ContainerParagraphs(c)) <= plan.Keys
    requires forall p :: p in Footprint(ContainerParagraphs(c)) ==> p.runs == plan[p].before
    modifies Footprint(ContainerParagraphs(c))
    ensures forall p :: p in Footprint(ContainerParagraphs(c)) ==> p.runs == plan[p].after
    ensures total == Count(ContainerParagraphs(c), plan)
    decreases c, 1
  {
    DistinctAppend(c.paragraphs, TablesParagraphs(c.tables));
    CountAppend(c.paragraphs, TablesParagraphs(c.tables), plan);
    var inParagraphs := ReplaceInParagraphs(c.paragraphs, patterns, plan);
    var inTables := ReplaceInTables(c.tables, patterns, plan);
    total := inParagraphs + inTables;
  }

  /** A list of tables, in order. */
  method ReplaceInTables(ts: seq<DocTable>, patterns: seq<Pattern>, ghost plan: map<Paragraph, Visit>)
    returns (total: nat)
    requires NonEmptyTokens(patterns) && Planned(plan, patterns)
    requires Distinct(TablesParagraphs(ts)) && Footprint(TablesParagraphs(ts)) <= plan.Keys
    requires forall p :: p in Footprint(TablesParagraphs(ts)) ==> p.runs == plan[p].before
    modifies Footprint(TablesParagraphs(ts))
    ensures forall p :: p in Footprint(TablesParagraphs(ts)) ==> p.runs == plan[p].after
    ensures total == Count(TablesParagraphs(ts), plan)
    decreases ts, 0
  {
    var xs := ts;
    ghost var all := TablesParagraphs(xs);
    total := 0;
    var i := 0;
    ghost var rest := all;
    assert xs[0..] == xs;
    while i < |xs|
      invariant i <= |xs| && rest == TablesParagraphs(xs[i..]) && Distinct(rest)
      invariant Footprint(rest) <= Footprint(all)
      invariant forall p :: p in Footprint(rest) ==> p.runs == plan[p].before
      invariant forall p :: p in Footprint(all) && p !in Footprint(rest) ==> p.runs == plan[p].after
      invariant total + Count(rest, plan) == Count(all, plan)
    {
      var t := xs[i];
      ghost var sub := TableParagraphs(t);
      ghost var rest' := TablesParagraphs(xs[i + 1..]);
      TablesParagraphsStep(xs, i);
      Split(sub, rest', plan);
      assert t in ts;
      var count := ReplaceInTable(t, patterns, plan);
      total := total + count;
      i := i + 1;
      rest := rest';
    }
  }
}
