/**
 * `render_docx_from_b64`: the size guard on the decoded upload, the walk over the whole
 * document (body paragraphs, body tables, then every section's header and footer
 * paragraphs), the replacement total and the name of the filled file. Decoding, loading and
 * saving the document are outside the model: the decoded size and the loaded document are
 * parameters, and the document is returned by changing its paragraphs in place.
 */
module RenderDocx {
  import opened Wrappers
  import opened Text
  import opened Patterns
  import opened Substitute
  import opened ReplaceDocx

  /** A section's header and footer paragraphs. */
  datatype Section = Section(header: seq<Paragraph>, footer: seq<Paragraph>)

  /** A loaded document: its body (top-level paragraphs and tables) and its sections. */
  datatype Document = Document(body: BlockContainer, sections: seq<Section>)

  /** What a successful render returns besides the document: the number of replacements and
      the suggested file name. */
  datatype Rendered = Rendered(replacements: nat, name: string)

  /** The largest decoded upload accepted: 5 MiB. */
  const MaxUpload: nat := 5 * 1024 * 1024

  /** The paragraphs of a section in visiting order: header, then footer. */
  function SectionParagraphs(s: Section): seq<Paragraph>
  {
    s.header + s.footer
  }

  function SectionsParagraphs(ss: seq<Section>): seq<Paragraph>
  {
    if ss == [] then [] else SectionParagraphs(ss[0]) + SectionsParagraphs(ss[1..])
  }

  /** Every paragraph the render visits, in order. */
  function DocumentParagraphs(doc: Document): seq<Paragraph>
  {
    ContainerParagraphs(doc.body) + SectionsParagraphs(doc.sections)
  }

  /** The run texts of the paragraphs `ps`, in order. */
  function Texts(ps: seq<Paragraph>): (r: seq<seq<string>>)
    reads Footprint(ps)
    ensures |r| == |ps|
  {
    if ps == [] then [] else [ps[0].runs] + Texts(ps[1..])
  }

  /** The replacements reported for paragraphs with the run texts `texts`, added up. */
  function TotalCount(texts: seq<seq<string>>, patterns: seq<Pattern>): nat
    requires NonEmptyTokens(patterns)
  {
    if texts == [] then 0 else ParagraphReplaced(texts[0], patterns).count + TotalCount(texts[1..], patterns)
  }

  /** The total is zero exactly when no token occurs in the text of any paragraph. */
  lemma {:induction false} TotalCountZero(texts: seq<seq<string>>, patterns: seq<Pattern>)
    requires NonEmptyTokens(patterns)
    ensures TotalCount(texts, patterns) == 0 <==>
      forall i, k :: 0 <= i < |texts| && 0 <= k < |patterns| ==> !Occurs(Concat(texts[i]), patterns[k].token)
  {
    if texts != [] {
      TotalCountZero(texts[1..], patterns);
      ParagraphCountZero(texts[0], patterns);
      if TotalCount(texts, patterns) == 0 {
        forall i, k | 0 <= i < |texts| && 0 <= k < |patterns|
          ensures !Occurs(Concat(texts[i]), patterns[k].token)
        {
          if i > 0 {
            assert texts[i] == texts[1..][i - 1];
          }
        }
      } else if ParagraphReplaced(texts[0], patterns).count != 0 {
        var k :| 0 <= k < |patterns| && Occurs(Concat(texts[0]), patterns[k].token);
      } else {
        var i, k :| 0 <= i < |texts[1..]| && 0 <= k < |patterns| && Occurs(Concat(texts[1..][i]), patterns[k].token);
        assert texts[1..][i] == texts[i + 1];
      }
    }
  }

  /** With a plan taken from the paragraphs as they are, the plan's count is the total of the
      paragraphs' own replacements. */
  lemma {:induction false} CountIsTotal(ps: seq<Paragraph>, plan: map<Paragraph, Visit>, patterns: seq<Pattern>)
    requires NonEmptyTokens(patterns) && Planned(plan, patterns) && Footprint(ps) <= plan.Keys
    requires forall p :: p in Footprint(ps) ==> plan[p].before == p.runs
    ensures Count(ps, plan) == TotalCount(Texts(ps), patterns)
  {
    if ps != [] {
      assert Follows(plan[ps[0]], patterns);
      CountIsTotal(ps[1..], plan, patterns);
      assert Texts(ps)[1..] == Texts(ps[1..]);
    }
  }

  /** The texts are the paragraphs' runs, position by position. */
  lemma {:induction false} TextsRuns(ps: seq<Paragraph>)
    ensures forall i :: 0 <= i < |ps| ==> Texts(ps)[i] == ps[i].runs
  {
    if ps != [] {
      TextsRuns(ps[1..]);
      assert forall i :: 1 <= i < |ps| ==> ps[i] == ps[1..][i - 1];
    }
  }

  /** Every paragraph of a list is in its footprint. */
  lemma {:induction false} FootprintHolds(ps: seq<Paragraph>)
    ensures forall i :: 0 <= i < |ps| ==> ps[i] in Footprint(ps)
  {
    if ps != [] {
      FootprintHolds(ps[1..]);
      assert forall i :: 1 <= i < |ps| ==> ps[i] == ps[1..][i - 1];
    }
  }

  /** `for paragraph in section.header.paragraphs` then the same over the footer. */
  method ReplaceInSection(s: Section, patterns: seq<Pattern>, ghost plan: map<Paragraph, Visit>)
    returns (total: nat)
    requires NonEmptyTokens(patterns) && Planned(plan, patterns)
    requires Distinct(SectionParagraphs(s)) && Footprint(SectionParagraphs(s)) <= plan.Keys
    requires forall p :: p in Footprint(SectionParagraphs(s)) ==> p.runs == plan[p].before
    modifies Footprint(SectionParagraphs(s))
    ensures forall p :: p in Footprint(SectionParagraphs(s)) ==> p.runs == plan[p].after
    ensures total == Count(SectionParagraphs(s), plan)
  {
    Split(s.header, s.footer, plan);
    var inHeader := ReplaceInParagraphs(s.header, patterns, plan);
    var inFooter := ReplaceInParagraphs(s.footer, patterns, plan);
    total := inHeader + inFooter;
  }

  /** `for section in document.sections`. */
  method ReplaceInSections(ss: seq<Section>, patterns: seq<Pattern>, ghost plan: map<Paragraph, Visit>)
    returns (total: nat)
    requires NonEmptyTokens(patterns) && Planned(plan, patterns)
    requires Distinct(SectionsParagraphs(ss)) && Footprint(SectionsParagraphs(ss)) <= plan.Keys
    requires forall p :: p in Footprint(SectionsParagraphs(ss)) ==> p.runs == plan[p].before
    modifies Footprint(SectionsParagraphs(ss))
    ensures forall p :: p in Footprint(SectionsParagraphs(ss)) ==> p.runs == plan[p].after
    ensures total == Count(SectionsParagraphs(ss), plan)
  {
    var xs := ss;
    ghost var all := SectionsParagraphs(xs);
    total := 0;
    var i := 0;
    ghost var rest := all;
    assert xs[0..] == xs;
    while i < |xs|
      invariant i <= |xs| && rest == SectionsParagraphs(xs[i..]) && Distinct(rest)
      invariant Footprint(rest) <= Footprint(all)
      invariant forall p :: p in Footprint(rest) ==> p.runs == plan[p].before
      invariant forall p :: p in Footprint(all) && p !in Footprint(rest) ==> p.runs == plan[p].after
      invariant total + Count(rest, plan) == Count(all, plan)
    {
      var section := xs[i];
      ghost var sub := SectionParagraphs(section);
      ghost var rest' := SectionsParagraphs(xs[i + 1..]);
      SectionsParagraphsStep(xs, i);
      Split(sub, rest', plan);
      assert section in ss;
      var count := ReplaceInSection(section, patterns, plan);
      total := total + count;
      i := i + 1;
      rest := rest';
    }
  }

  lemma SectionsParagraphsStep(xs: seq<Section>, i: nat)
    requires i < |xs|
    ensures SectionsParagraphs(xs[i..]) == SectionParagraphs(xs[i]) + SectionsParagraphs(xs[i + 1..])
  {
    assert xs[i..][0] == xs[i] && xs[i..][1..] == xs[i + 1..];
  }

  /** The document loop: every paragraph ends up as `_replace_in_paragraph` leaves it, and the
      total is the sum of the paragraphs' own replacement counts. */
  method FillDocument(doc: Document, patterns: seq<Pattern>) returns (total: nat)
    requires NonEmptyTokens(patterns) && Distinct(DocumentParagraphs(doc))
    modifies Footprint(DocumentParagraphs(doc))
    ensures var ps := DocumentParagraphs(doc);
      forall i :: 0 <= i < |ps| ==> ps[i].runs == ParagraphAfter(old(ps[i].runs), patterns)
    ensures total == TotalCount(old(Texts(DocumentParagraphs(doc))), patterns)
  {
    ghost var all := DocumentParagraphs(doc);
    FootprintHolds(all);
    ghost var plan := map p | p in Footprint(all) ::
      Visit(p.runs, ParagraphAfter(p.runs, patterns), ParagraphReplaced(p.runs, patterns).count);
    assert Planned(plan, patterns);
    CountIsTotal(all, plan, patterns);
    Split(ContainerParagraphs(doc.body), SectionsParagraphs(doc.sections), plan);
    var inBody := ReplaceInContainer(doc.body, patterns, plan);
    var inSections := ReplaceInSections(doc.sections, patterns, plan);
    total := inBody + inSections;
  }

  /** The position of the last dot in `s`, or -1 when there is none. */
  function LastDot(s: string): (j: int)
    ensures -1 <= j < |s| && (j >= 0 ==> s[j] == '.')
    ensures forall k :: j < k < |s| ==> s[k] != '.'
  {
    if s == [] then -1
    else if s[|s| - 1] == '.' then |s| - 1
    else LastDot(s[..|s| - 1])
  }

  /** `rsplit(".", 1)[0]`: everything before the last dot, or the whole text without one. */
  function BeforeLastDot(s: string): (r: string)
    ensures '.' !in s ==> r == s
    ensures '.' in s ==>
      |r| < |s| && r == s[..|r|] && s[|r|] == '.' && (forall k :: |r| < k < |s| ==> s[k] != '.')
  {
    var j := LastDot(s);
    if j < 0 then s else s[..j]
  }

  /** `(suggested_name or "document.docx")` with its last extension replaced by
      `_filled.docx`. */
  function FilledName(suggested: Option<string>): (name: string)
    ensures EndsWith(name, "_filled.docx")
  {
    var given := if suggested.Some? && suggested.value != [] then suggested.value else "document.docx";
    BeforeLastDot(given) + "_filled.docx"
  }

  /** Without a usable name the result is `document_filled.docx`. */
  lemma FilledNameDefault(suggested: Option<string>)
    requires suggested == None || suggested == Some([])
    ensures FilledName(suggested) == "document" + "_filled.docx"
  {
    var s := "document.docx";
    assert s[8] == '.' && forall k :: 8 < k < |s| ==> s[k] != '.';
    assert LastDot(s) == 8;
    assert s[..8] == "document";
  }

  /** The last extension is what gets replaced: `b.ext` becomes `b_filled.docx`, whatever
      dots `b` holds. */
  lemma FilledNameExtension(b: string, ext: string)
    requires '.' !in ext
    ensures FilledName(Some(b + "." + ext)) == b + "_filled.docx"
  {
    var s := b + "." + ext;
    assert s[|b|] == '.';
    forall k | |b| < k < |s| ensures s[k] != '.' {
      assert s[k] == ext[k - |b| - 1];
    }
    assert s[..|b|] == b;
  }

  /** A name without a dot keeps all of itself. */
  lemma FilledNameNoDot(s: string)
    requires s != [] && '.' !in s
    ensures FilledName(Some(s)) == s + "_filled.docx"
  {
  }

  /** `render_docx_from_b64` once the upload is decoded (`rawSize` is its length) and
      loaded (`doc`): an upload over the limit is refused before anything is touched;
      otherwise the patterns are prepared from the mapping and every paragraph of the
      document is filled. */
  method Render(rawSize: nat, doc: Document, mapping: seq<Entry>, suggested: Option<string>)
    returns (r: Result<Rendered, string>)
    requires Distinct(DocumentParagraphs(doc))
    modifies Footprint(DocumentParagraphs(doc))
    ensures var ps := DocumentParagraphs(doc);
      rawSize > MaxUpload ==>
        r == Failure("file_too_large") && (forall i :: 0 <= i < |ps| ==> ps[i].runs == old(ps[i].runs))
    ensures var ps := DocumentParagraphs(doc); var patterns := Prepared(mapping);
      rawSize <= MaxUpload ==>
        NonEmptyTokens(patterns) &&
        r == Success(Rendered(TotalCount(old(Texts(ps)), patterns), FilledName(suggested))) &&
        (forall i :: 0 <= i < |ps| ==> ps[i].runs == ParagraphAfter(old(ps[i].runs), patterns))
  {
    ghost var ps := DocumentParagraphs(doc);
    assert allocated(ps);
    TextsRuns(ps);
    ghost var before := Texts(ps);
    if rawSize > MaxUpload {
      return Failure("file_too_large");
    }
    var patterns := PreparePatterns(mapping);
    TextsRuns(ps);
    assert Texts(ps) == before;
    PreparedDistinct(mapping);
    var total := FillDocument(doc, patterns);
    r := Success(Rendered(total, FilledName(suggested)));
  }
}
