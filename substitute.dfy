/**
 * `_replace_in_text`: the patterns are applied one after another, each to the text the
 * previous ones produced, and the number of replacements is added up. Each pattern is an
 * escaped literal token compiled with `re.IGNORECASE`, so `pattern.subn(value, text)`
 * replaces every non-overlapping occurrence of the token, leftmost first, ignoring case.
 */
module Substitute {
  import opened Text
  import opened Patterns

  /** The new text and the number of replacements, as `subn` returns them. */
  datatype Replaced = Replaced(text: string, count: nat)

  /** `tok` matches `text` at `i`, ignoring ASCII case. */
  predicate MatchesAt(text: string, tok: string, i: nat)
  {
    i + |tok| <= |text| && forall k :: 0 <= k < |tok| ==> LowerChar(text[i + k]) == LowerChar(tok[k])
  }

  /** `tok` matches somewhere in `text`. */
  ghost predicate Occurs(text: string, tok: string)
  {
    exists i: nat :: MatchesAt(text, tok, i)
  }

  /** `pattern.subn(repl, text)` for the literal, non-empty token `tok`: scanning from the
      left, a match is replaced and skipped over, any other character is kept. */
  function Sub(text: string, tok: string, repl: string): Replaced
    requires tok != []
    decreases |text|
  {
    if |text| < |tok| then Replaced(text, 0)
    else if MatchesAt(text, tok, 0) then
      var rest := Sub(text[|tok|..], tok, repl);
      Replaced(repl + rest.text, rest.count + 1)
    else
      var rest := Sub(text[1..], tok, repl);
      Replaced([text[0]] + rest.text, rest.count)
  }

  /** The `(updated, total)` pair after applying `patterns` in order. */
  function ReplaceAll(text: string, patterns: seq<Pattern>): Replaced
    requires NonEmptyTokens(patterns)
  {
    if patterns == [] then Replaced(text, 0)
    else
      var prev := ReplaceAll(text, patterns[..|patterns| - 1]);
      var p := patterns[|patterns| - 1];
      var step := Sub(prev.text, p.token, p.replacement);
      Replaced(step.text, prev.count + step.count)
  }

  method ReplaceInText(text: string, patterns: seq<Pattern>) returns (updated: string, total: nat)
    requires NonEmptyTokens(patterns)
    ensures Replaced(updated, total) == ReplaceAll(text, patterns)
  {
    total := 0;
    updated := text;
    var i := 0;
    while i < |patterns|
      invariant i <= |patterns|
      invariant Replaced(updated, total) == ReplaceAll(text, patterns[..i])
    {
      assert patterns[..i + 1][..i] == patterns[..i];
      var r := Sub(updated, patterns[i].token, patterns[i].replacement);
      updated, total := r.text, total + r.count;
      i := i + 1;
    }
    assert patterns[..i] == patterns;
  }

  /** A match inside the suffix `text[d..]` is a match in `text`, and conversely. */
  lemma MatchesShift(text: string, tok: string, d: nat, i: nat)
    requires d <= |text|
    ensures MatchesAt(text[d..], tok, i) <==> MatchesAt(text, tok, d + i)
  {
    if MatchesAt(text, tok, d + i) {
      forall k | 0 <= k < |tok| ensures LowerChar(text[d..][i + k]) == LowerChar(tok[k]) {
        assert text[d..][i + k] == text[d + i + k];
      }
    }
  }

  /** Past a position where the token does not match, it occurs in the text exactly when
      it occurs in the rest. */
  lemma OccursTail(text: string, tok: string)
    requires text != [] && !MatchesAt(text, tok, 0)
    ensures Occurs(text, tok) <==> Occurs(text[1..], tok)
  {
    if Occurs(text, tok) {
      var i: nat :| MatchesAt(text, tok, i);
      MatchesShift(text, tok, 1, i - 1);
    }
    if Occurs(text[1..], tok) {
      var i: nat :| MatchesAt(text[1..], tok, i);
      MatchesShift(text, tok, 1, i);
    }
  }

  /** `subn` finds no match exactly when the token does not occur; then the text is kept. */
  lemma {:induction false} SubNone(text: string, tok: string, repl: string)
    requires tok != []
    ensures Sub(text, tok, repl).count == 0 <==> !Occurs(text, tok)
    ensures Sub(text, tok, repl).count == 0 ==> Sub(text, tok, repl).text == text
    decreases |text|
  {
    if |text| < |tok| {
      forall i: nat ensures !MatchesAt(text, tok, i) { }
    } else if MatchesAt(text, tok, 0) {
    } else {
      SubNone(text[1..], tok, repl);
      OccursTail(text, tok);
      assert [text[0]] + text[1..] == text;
    }
  }

  /** Each replacement swaps `|tok|` characters for `|repl|`; the replaced stretches fit in
      the text. */
  lemma {:induction false} SubLength(text: string, tok: string, repl: string)
    requires tok != []
    ensures var r := Sub(text, tok, repl);
      |r.text| + r.count * |tok| == |text| + r.count * |repl| && r.count * |tok| <= |text|
    decreases |text|
  {
    if |text| >= |tok| {
      if MatchesAt(text, tok, 0) {
        var rest := Sub(text[|tok|..], tok, repl);
        SubLength(text[|tok|..], tok, repl);
        MulSucc(rest.count, |tok|);
        MulSucc(rest.count, |repl|);
      } else {
        SubLength(text[1..], tok, repl);
      }
    }
  }

  lemma MulSucc(m: nat, x: nat)
    ensures (m + 1) * x == m * x + x
  {
  }

  /** Applying a list of patterns is applying its first part, then the rest to the result;
      the totals add up. */
  lemma {:induction false} ReplaceAllAppend(text: string, a: seq<Pattern>, b: seq<Pattern>)
    requires NonEmptyTokens(a) && NonEmptyTokens(b)
    ensures NonEmptyTokens(a + b)
    ensures var first := ReplaceAll(text, a); var second := ReplaceAll(first.text, b);
      ReplaceAll(text, a + b) == Replaced(second.text, first.count + second.count)
    decreases |b|
  {
    if b == [] {
      assert a + b == a;
    } else {
      var b' := b[..|b| - 1];
      assert (a + b)[..|a + b| - 1] == a + b';
      assert (a + b)[|a + b| - 1] == b[|b| - 1];
      ReplaceAllAppend(text, a, b');
    }
  }

  /** No replacement at all happens exactly when no token occurs in the original text; the
      text is then returned unchanged. */
  lemma {:induction false} ReplaceAllNone(text: string, patterns: seq<Pattern>)
    requires NonEmptyTokens(patterns)
    ensures ReplaceAll(text, patterns).count == 0 <==>
      forall k :: 0 <= k < |patterns| ==> !Occurs(text, patterns[k].token)
    ensures ReplaceAll(text, patterns).count == 0 ==> ReplaceAll(text, patterns).text == text
  {
    if patterns != [] {
      var init := patterns[..|patterns| - 1];
      var p := patterns[|patterns| - 1];
      ReplaceAllNone(text, init);
      var prev := ReplaceAll(text, init);
      SubNone(prev.text, p.token, p.replacement);
      if prev.count == 0 {
        assert forall k :: 0 <= k < |init| ==> init[k] == patterns[k];
      } else {
        assert !(forall k :: 0 <= k < |init| ==> !Occurs(text, init[k].token));
        var k :| 0 <= k < |init| && Occurs(text, init[k].token);
        assert patterns[k] == init[k];
      }
    }
  }

  /** Text without any match of any token passes through unchanged. */
  lemma ReplaceAllUntouched(text: string, patterns: seq<Pattern>)
    requires NonEmptyTokens(patterns)
    requires forall k :: 0 <= k < |patterns| ==> !Occurs(text, patterns[k].token)
    ensures ReplaceAll(text, patterns) == Replaced(text, 0)
  {
    ReplaceAllNone(text, patterns);
  }

  /** A token that is the whole text is replaced once. */
  lemma SubWhole(tok: string, repl: string)
    requires tok != []
    ensures Sub(tok, tok, repl) == Replaced(repl, 1)
  {
    assert MatchesAt(tok, tok, 0);
    assert tok[|tok|..] == [];
  }

  /** Later patterns see the text earlier ones inserted: with the patterns `a → b` then
      `b → v`, the text `a` becomes `v` after two replacements. */
  lemma ChainedReplacement(a: string, b: string, v: string)
    requires a != [] && b != []
    ensures ReplaceAll(a, [Pattern(a, b), Pattern(b, v)]) == Replaced(v, 2)
  {
    var ps := [Pattern(a, b), Pattern(b, v)];
    assert ps[..1] == [Pattern(a, b)];
    assert [Pattern(a, b)][..0] == [];
    assert ReplaceAll(a, []) == Replaced(a, 0);
    SubWhole(a, b);
    assert ReplaceAll(a, [Pattern(a, b)]) == Replaced(b, 1);
    SubWhole(b, v);
  }
}
