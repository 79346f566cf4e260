/**
 * The placeholder pattern `\[([^\]]+)\]|(_{3,})` and `finditer` over it, written out as
 * a scanner: at each position the bracket alternative is tried first, then the underscore
 * alternative; a match resumes the search at its end, a failure one position further.
 */
module PlaceholderScan {
  import opened Wrappers

  /** A match of the pattern: `text[start..end]`. For a bracket match the inner text
      (group 1) is `text[start + 1..end - 1]`; for a blank, the whole match is group 2. */
  datatype Match = Bracket(start: nat, end: nat) | Blank(start: nat, end: nat)

  /** Index of the first ']' at or after `i`, or `|text|` when there is none. */
  function CloseFrom(text: string, i: nat): (j: nat)
    requires i <= |text|
    ensures i <= j <= |text|
    ensures j < |text| ==> text[j] == ']'
    ensures forall k :: i <= k < j ==> text[k] != ']'
    decreases |text| - i
  {
    if i == |text| || text[i] == ']' then i else CloseFrom(text, i + 1)
  }

  /** End of the run of '_' that starts at `i`. */
  function UnderscoreEnd(text: string, i: nat): (j: nat)
    requires i <= |text|
    ensures i <= j <= |text|
    ensures j < |text| ==> text[j] != '_'
    ensures forall k :: i <= k < j ==> text[k] == '_'
    decreases |text| - i
  {
    if i == |text| || text[i] != '_' then i else UnderscoreEnd(text, i + 1)
  }

  /** What the pattern matches when tried at position `i`. `[^\]]+` is greedy and cannot
      cross a ']', so the bracket alternative closes at the first ']' after `i`. */
  function MatchAt(text: string, i: nat): (r: Option<Match>)
    requires i <= |text|
    ensures r.Some? ==> r.value.start == i && i + 3 <= r.value.end <= |text|
  {
    if i < |text| && text[i] == '[' && i + 1 < CloseFrom(text, i + 1) < |text| then
      Some(Bracket(i, CloseFrom(text, i + 1) + 1))
    else if i + 3 <= UnderscoreEnd(text, i) then
      Some(Blank(i, UnderscoreEnd(text, i)))
    else
      None
  }

  /** The matches lie left to right from `last`, without overlap, each at least 3 long. */
  predicate Chained(ms: seq<Match>, last: nat, n: nat)
  {
    if ms == [] then last <= n
    else last <= ms[0].start && ms[0].start + 3 <= ms[0].end <= n && Chained(ms[1..], ms[0].end, n)
  }

  /** `finditer` from position `i`. */
  function ScanFrom(text: string, i: nat): (ms: seq<Match>)
    requires i <= |text|
    ensures Chained(ms, i, |text|)
    ensures forall m :: m in ms ==> i <= m.start && m.start + 3 <= m.end <= |text|
    decreases |text| - i
  {
    if i == |text| then []
    else match MatchAt(text, i)
      case Some(m) => [m] + ScanFrom(text, m.end)
      case None => ScanFrom(text, i + 1)
  }

  function Scan(text: string): seq<Match>
  {
    ScanFrom(text, 0)
  }

  /** A bracket match: '[', a non-empty inner text without ']', then ']'. */
  predicate IsBracketMatch(text: string, s: nat, e: nat)
  {
    s + 3 <= e <= |text| && text[s] == '[' && text[e - 1] == ']'
    && forall k :: s < k < e - 1 ==> text[k] != ']'
  }

  /** A blank: at least three '_', not followed by another '_'. */
  predicate IsBlankRun(text: string, s: nat, e: nat)
  {
    s + 3 <= e <= |text| && (forall k :: s <= k < e ==> text[k] == '_')
    && (e == |text| || text[e] != '_')
  }

  predicate WellFormed(text: string, m: Match)
  {
    match m
    case Bracket(s, e) => IsBracketMatch(text, s, e)
    case Blank(s, e) => IsBlankRun(text, s, e)
  }

  predicate Covers(m: Match, p: int)
  {
    m.start <= p < m.end
  }

  lemma {:induction false} ScanWellFormed(text: string, i: nat)
    requires i <= |text|
    ensures forall m :: m in ScanFrom(text, i) ==> WellFormed(text, m)
    decreases |text| - i
  {
    if i < |text| {
      match MatchAt(text, i)
      case Some(m) => ScanWellFormed(text, m.end);
      case None => ScanWellFormed(text, i + 1);
    }
  }

  lemma {:induction false} ChainedOrdered(ms: seq<Match>, last: nat, n: nat)
    requires Chained(ms, last, n)
    ensures forall k :: 0 <= k < |ms| ==> last <= ms[k].start && ms[k].start + 3 <= ms[k].end <= n
    ensures forall k, l :: 0 <= k < l < |ms| ==> ms[k].end <= ms[l].start
  {
    if ms != [] {
      ChainedOrdered(ms[1..], ms[0].end, n);
      assert forall k :: 1 <= k < |ms| ==> ms[k] == ms[1..][k - 1];
    }
  }

  /** Matches come left to right and no position of the text lies in two of them; in
      particular the underscores inside a bracket match never form a blank of their own. */
  lemma ScanDisjoint(text: string)
    ensures forall k, l :: 0 <= k < l < |Scan(text)| ==> Scan(text)[k].end <= Scan(text)[l].start
    ensures forall k, l, p ::
              (0 <= k < |Scan(text)| && 0 <= l < |Scan(text)| && k != l && Covers(Scan(text)[k], p))
              ==> !Covers(Scan(text)[l], p)
    ensures forall k :: 0 <= k < |Scan(text)| ==> Scan(text)[k].end <= |text|
  {
    ChainedOrdered(Scan(text), 0, |text|);
  }

  /** Leftmost matching: no match starts at a position the scan stepped over. */
  lemma {:induction false} ScanLeftmost(text: string, i: nat, p: nat)
    requires i <= p < |text|
    requires forall m :: m in ScanFrom(text, i) ==> !Covers(m, p)
    ensures MatchAt(text, p).None?
    decreases |text| - i
  {
    match MatchAt(text, i)
    case Some(m) =>
      assert m in ScanFrom(text, i);
      assert m.end <= p;
      ScanLeftmost(text, m.end, p);
    case None =>
      if i < p {
        ScanLeftmost(text, i + 1, p);
      }
  }

  /** The scan position is never in the middle of an underscore run it skipped past. */
  predicate NoSkippedRun(text: string, i: nat)
    requires i <= |text|
  {
    i == 0 || text[i - 1] != '_' || UnderscoreEnd(text, i) < i + 2
  }

  lemma {:induction false} ScanBlanksLeftMaximal(text: string, i: nat)
    requires i <= |text| && NoSkippedRun(text, i)
    ensures forall m :: m in ScanFrom(text, i) && m.Blank? && m.start > 0 ==> text[m.start - 1] != '_'
    decreases |text| - i
  {
    if i < |text| {
      match MatchAt(text, i)
      case Some(m) =>
        MatchKeeps(text, i);
        ScanBlanksLeftMaximal(text, m.end);
        assert ScanFrom(text, i) == [m] + ScanFrom(text, m.end);
      case None =>
        SkipKeeps(text, i);
        ScanBlanksLeftMaximal(text, i + 1);
    }
  }

  /** A match leaves the scan at a position that no skipped run reaches, and a blank found
      there is not preceded by '_'. */
  lemma MatchKeeps(text: string, i: nat)
    requires i < |text| && NoSkippedRun(text, i) && MatchAt(text, i).Some?
    ensures NoSkippedRun(text, MatchAt(text, i).value.end)
    ensures MatchAt(text, i).value.Blank? && i > 0 ==> text[i - 1] != '_'
  {
    var m := MatchAt(text, i).value;
    if m.Blank? {
      assert m.end == |text| || text[m.end] != '_';
    } else {
      assert text[m.end - 1] == ']';
    }
  }

  /** Stepping past a position where nothing matches keeps the scan off a skipped run. */
  lemma SkipKeeps(text: string, i: nat)
    requires i < |text| && NoSkippedRun(text, i) && MatchAt(text, i).None?
    ensures NoSkippedRun(text, i + 1)
  {
    if text[i] == '_' {
      assert UnderscoreEnd(text, i) == UnderscoreEnd(text, i + 1);
    }
  }

  /** Every blank the scan reports is a maximal run of underscores: preceded and followed
      by something other than '_'. */
  lemma ScanBlanksMaximal(text: string)
    ensures forall m :: m in Scan(text) && m.Blank? ==>
              IsBlankRun(text, m.start, m.end) && (m.start == 0 || text[m.start - 1] != '_')
  {
    ScanWellFormed(text, 0);
    ScanBlanksLeftMaximal(text, 0);
  }

  /** The text between and inside the matches, put back together. */
  function Reassemble(text: string, ms: seq<Match>, last: nat): string
    requires Chained(ms, last, |text|)
  {
    if ms == [] then text[last..]
    else text[last..ms[0].start] + text[ms[0].start..ms[0].end] + Reassemble(text, ms[1..], ms[0].end)
  }

  /** The gaps and the matches cover the text exactly, in order. */
  lemma {:induction false} ReassembleIsText(text: string, ms: seq<Match>, last: nat)
    requires Chained(ms, last, |text|)
    ensures Reassemble(text, ms, last) == text[last..]
  {
    if ms != [] {
      ReassembleIsText(text, ms[1..], ms[0].end);
      assert text[last..] == text[last..ms[0].start] + text[ms[0].start..ms[0].end] + text[ms[0].end..];
    }
  }
}
