/**
 * `_highlight_placeholders`: the preview HTML of one paragraph's text, with each counted
 * placeholder wrapped in a `<span class="placeholder">`, and the number of such placeholders.
 */
module Highlight {
  import opened Text
  import opened Html
  import opened SnakeCase
  import opened PlaceholderScan

  const BlankSpanOpen: string := "<span class=\"placeholder\" data-key=\"blank\">"
  const KeySpanPrefix: string := "<span class=\"placeholder\" data-key=\""
  const SpanClose: string := "</span>"

  function KeySpanOpen(key: string): string
  {
    KeySpanPrefix + Escape(key) + "\">"
  }

  /** Group 0 of a match. */
  function Literal(text: string, m: Match): string
    requires m.start <= m.end <= |text|
  {
    text[m.start..m.end]
  }

  /** The key a bracket match is shown under: the snake case of its whitespace-normalised
      inner text (group 1). */
  function BracketKey(text: string, m: Match): string
    requires m.start + 2 <= m.end <= |text|
  {
    ToSnakeCase(NormalizeSpace(text[m.start + 1..m.end - 1]))
  }

  /** A blank always counts; a bracket match counts when its key is not empty. */
  predicate Counted(text: string, m: Match)
    requires m.start + 2 <= m.end <= |text|
  {
    m.Blank? || BracketKey(text, m) != []
  }

  /** The HTML emitted for one match. */
  function Segment(text: string, m: Match): string
    requires m.start + 2 <= m.end <= |text|
  {
    match m
    case Bracket(_, _) =>
      if BracketKey(text, m) == [] then Escape(Literal(text, m))
      else KeySpanOpen(BracketKey(text, m)) + Escape(Literal(text, m)) + SpanClose
    case Blank(_, _) =>
      BlankSpanOpen + Escape(Literal(text, m)) + SpanClose
  }

  /** The joined `result_parts` for the matches `ms`, starting after position `last`. */
  function Render(text: string, ms: seq<Match>, last: nat): string
    requires Chained(ms, last, |text|)
  {
    if ms == [] then Escape(text[last..])
    else Escape(text[last..ms[0].start]) + Segment(text, ms[0]) + Render(text, ms[1..], ms[0].end)
  }

  function CountCounted(text: string, ms: seq<Match>, last: nat): nat
    requires Chained(ms, last, |text|)
  {
    if ms == [] then 0
    else (if Counted(text, ms[0]) then 1 else 0) + CountCounted(text, ms[1..], ms[0].end)
  }

  function Highlighted(text: string): string
  {
    if text == [] then [] else BrNewlines(Render(text, Scan(text), 0))
  }

  function PlaceholderCount(text: string): nat
  {
    if text == [] then 0 else CountCounted(text, Scan(text), 0)
  }

  /** One step of the loop: the next gap, the next match, then the rest. */
  lemma RenderStep(text: string, ms: seq<Match>, last: nat)
    requires ms != [] && Chained(ms, last, |text|)
    ensures Render(text, ms, last)
      == Escape(text[last..ms[0].start]) + Segment(text, ms[0]) + Render(text, ms[1..], ms[0].end)
    ensures CountCounted(text, ms, last)
      == (if Counted(text, ms[0]) then 1 else 0) + CountCounted(text, ms[1..], ms[0].end)
  {
  }

  /** The body of the loop over `finditer`: the HTML of one match and whether it counts. */
  method MatchHtml(text: string, m: Match) returns (seg: string, counted: bool)
    requires m.start + 2 <= m.end <= |text|
    ensures seg == Segment(text, m)
    ensures counted == Counted(text, m)
  {
    var literal := Literal(text, m);
    if m.Bracket? {
      var key := BracketKey(text, m);
      if key == [] {
        seg, counted := Escape(literal), false;
      } else {
        seg, counted := KeySpanOpen(key) + Escape(literal) + SpanClose, true;
      }
    } else {
      seg, counted := BlankSpanOpen + Escape(literal) + SpanClose, true;
    }
  }

  method HighlightPlaceholders(text: string) returns (rendered: string, count: nat)
    ensures rendered == Highlighted(text)
    ensures count == PlaceholderCount(text)
    ensures text == [] ==> rendered == [] && count == 0
  {
    if text == [] {
      return [], 0;
    }
    var matches := Scan(text);
    var parts: seq<string> := [];
    var lastIndex: nat := 0;
    count := 0;
    var k := 0;
    while k < |matches|
      invariant k <= |matches|
      invariant Chained(matches[k..], lastIndex, |text|)
      invariant Concat(parts) + Render(text, matches[k..], lastIndex) == Render(text, matches, 0)
      invariant count + CountCounted(text, matches[k..], lastIndex) == CountCounted(text, matches, 0)
    {
      var m := matches[k];
      assert matches[k..][0] == m && matches[k..][1..] == matches[k + 1..];
      RenderStep(text, matches[k..], lastIndex);
      var gap := Escape(text[lastIndex..m.start]);
      var seg, counted := MatchHtml(text, m);
      if counted {
        count := count + 1;
      }
      ghost var done := Concat(parts);
      ghost var rest := Render(text, matches[k + 1..], m.end);
      ConcatSnoc(parts, gap);
      ConcatSnoc(parts + [gap], seg);
      Assoc4(done, gap, seg, rest);
      parts := parts + [gap] + [seg];
      lastIndex := m.end;
      k := k + 1;
    }
    ConcatSnoc(parts, Escape(text[lastIndex..]));
    parts := parts + [Escape(text[lastIndex..])];
    rendered := BrNewlines(Concat(parts));
  }

  /** Every line break of the paragraph has become `<br />`. */
  lemma HighlightedNoNewline(text: string)
    ensures '\n' !in Highlighted(text)
  {
    if text != [] {
      BrNewlinesRemovesAll(Render(text, Scan(text), 0));
    }
  }

  /** The HTML of a match starts with a character that is not whitespace. */
  lemma SegmentNotBlank(text: string, m: Match)
    requires m.start + 2 <= m.end <= |text| && WellFormed(text, m)
    ensures !AllSpace(Segment(text, m))
  {
    var lit := Literal(text, m);
    assert lit[0] == text[m.start];
    EscapeKeeps(lit);
    SpanOpeners();
    if m.Blank? {
      OpensWithAngle(BlankSpanOpen, Escape(lit));
      OpensWithAngle(BlankSpanOpen + Escape(lit), SpanClose);
    } else if BracketKey(text, m) != [] {
      var key := BracketKey(text, m);
      OpensWithAngle(KeySpanPrefix, Escape(key));
      OpensWithAngle(KeySpanPrefix + Escape(key), "\">");
      OpensWithAngle(KeySpanOpen(key), Escape(lit));
      OpensWithAngle(KeySpanOpen(key) + Escape(lit), SpanClose);
    }
  }

  /** A match opens with '[' or '_', which escaping keeps. */
  lemma EscapeKeeps(lit: string)
    requires lit != [] && (lit[0] == '[' || lit[0] == '_')
    ensures !AllSpace(Escape(lit))
  {
    assert Escape(lit) == [lit[0]] + Escape(lit[1..]);
    assert Escape(lit)[0] == lit[0];
  }

  lemma SpanOpeners()
    ensures BlankSpanOpen != [] && BlankSpanOpen[0] == '<'
    ensures KeySpanPrefix != [] && KeySpanPrefix[0] == '<'
  {
  }

  lemma OpensWithAngle(open: string, rest: string)
    requires open != [] && open[0] == '<'
    ensures open + rest != [] && (open + rest)[0] == '<' && !AllSpace(open + rest)
  {
  }

  lemma {:induction false} RenderBlank(text: string, ms: seq<Match>, last: nat)
    requires Chained(ms, last, |text|)
    requires forall m :: m in ms ==> WellFormed(text, m)
    ensures AllSpace(Render(text, ms, last)) <==> ms == [] && AllSpace(text[last..])
    ensures ms == [] ==> (('\n' in Render(text, ms, last)) <==> ('\n' in text[last..]))
  {
    if ms == [] {
      EscapeAllSpace(text[last..]);
      EscapeNewlines(text[last..]);
    } else {
      var gap := Escape(text[last..ms[0].start]);
      var seg := Segment(text, ms[0]);
      var rest := Render(text, ms[1..], ms[0].end);
      SegmentNotBlank(text, ms[0]);
      AllSpaceAppend(gap, seg);
      AllSpaceAppend(gap + seg, rest);
      assert Render(text, ms, last) == gap + seg + rest;
    }
  }

  /** A paragraph's preview is blank exactly when its text is whitespace without line breaks. */
  lemma HighlightedBlank(text: string)
    ensures AllSpace(Highlighted(text)) <==> AllSpace(text) && '\n' !in text
  {
    if text != [] {
      var ms := Scan(text);
      ScanWellFormed(text, 0);
      var r := Render(text, ms, 0);
      RenderBlank(text, ms, 0);
      BrNewlinesAllSpace(r);
      if ms != [] {
        assert ms[0] in ms;
        assert !IsSpace(text[ms[0].start]);
      }
    }
  }

  lemma UncountedSegment(text: string, m: Match)
    requires m.start + 2 <= m.end <= |text| && !Counted(text, m)
    ensures Segment(text, m) == Escape(Literal(text, m))
  {
  }

  lemma {:induction false} RenderUncounted(text: string, ms: seq<Match>, last: nat)
    requires Chained(ms, last, |text|)
    requires CountCounted(text, ms, last) == 0
    ensures Render(text, ms, last) == Escape(text[last..])
  {
    if ms != [] {
      var m := ms[0];
      RenderStep(text, ms, last);
      RenderUncounted(text, ms[1..], m.end);
      UncountedSegment(text, m);
      EscapeAppend3(text[last..m.start], text[m.start..m.end], text[m.end..]);
      SliceSplit3(text, last, m.start, m.end);
    }
  }

  /** With nothing counted, every match (an empty-key bracket) is shown escaped and
      unwrapped, exactly like the text around it. */
  lemma HighlightedWithoutPlaceholders(text: string)
    requires PlaceholderCount(text) == 0
    ensures Highlighted(text) == BrNewlines(Escape(text))
  {
    if text != [] {
      RenderUncounted(text, Scan(text), 0);
      assert text[0..] == text;
    }
  }
}
