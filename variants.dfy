/**
 * `_expand_placeholder_variants`: the literal tokens a mapping key stands for in the
 * document. A bracketed key is its own token (plus its inner text when that is a run of
 * underscores); a run of three or more underscores is its own token; any other key with a
 * space or underscore becomes `[display text]`; a bare word gives no token at all.
 */
module Variants {
  import opened Text

  /** `UNDERSCORE_RUN_RE.fullmatch(s)` for `_{3,}`. */
  predicate IsUnderscoreRun(s: string)
  {
    |s| >= 3 && forall i :: 0 <= i < |s| ==> s[i] == '_'
  }

  /** `s.startswith("[") and s.endswith("]")`; no one-character text does both. */
  predicate IsBracketed(s: string)
  {
    |s| >= 2 && s[0] == '[' && s[|s| - 1] == ']'
  }

  /** `s.replace("_", " ")` */
  function UnderscoresToSpaces(s: string): (r: string)
    ensures |r| == |s|
    ensures forall i :: 0 <= i < |s| ==> r[i] == (if s[i] == '_' then ' ' else s[i])
  {
    if s == [] then [] else [if s[0] == '_' then ' ' else s[0]] + UnderscoresToSpaces(s[1..])
  }

  /** `list(dict.fromkeys(xs))`: the first occurrence of each element, in order. */
  function Dedup(xs: seq<string>): (r: seq<string>)
    ensures NoDuplicates(r)
    ensures |r| <= |xs|
  {
    if xs == [] then []
    else
      var init := Dedup(xs[..|xs| - 1]);
      var last := xs[|xs| - 1];
      if last in init then init else init + [last]
  }

  predicate NoDuplicates(xs: seq<string>)
  {
    forall i, j :: 0 <= i < j < |xs| ==> xs[i] != xs[j]
  }

  /** The inner text of a bracketed key, trimmed. */
  function Inner(key: string): string
    requires IsBracketed(key)
  {
    Trim(key[1..|key| - 1])
  }

  /** The `[display]` form of a key with spaces or underscores. */
  function Display(key: string): string
  {
    Trim(UnderscoresToSpaces(key))
  }

  function ExpandVariants(rawKey: string): (r: seq<string>)
    ensures |r| <= 2 && NoDuplicates(r)
  {
    var key := Trim(rawKey);
    if key == [] then []
    else if IsBracketed(key) then
      var inner := Inner(key);
      Dedup([key] + (if inner != [] && IsUnderscoreRun(inner) then [inner] else []))
    else if IsUnderscoreRun(key) then [key]
    else if ' ' in key || '_' in key then
      var display := Display(key);
      Dedup(if display != [] then ["[" + display + "]"] else [])
    else []
  }

  /** `dict.fromkeys` keeps every element once. */
  lemma {:induction false} DedupMembers(xs: seq<string>)
    ensures forall x :: x in Dedup(xs) <==> x in xs
  {
    if xs != [] {
      DedupMembers(xs[..|xs| - 1]);
      assert xs == xs[..|xs| - 1] + [xs[|xs| - 1]];
    }
  }

  lemma DedupDistinct(xs: seq<string>)
    requires NoDuplicates(xs)
    ensures Dedup(xs) == xs
  {
    if xs != [] {
      var init := xs[..|xs| - 1];
      assert NoDuplicates(init);
      DedupDistinct(init);
    }
  }

  /** An empty or whitespace-only key has no token. */
  lemma ExpandBlank(rawKey: string)
    requires AllSpace(rawKey)
    ensures ExpandVariants(rawKey) == []
  {
    TrimEmpty(rawKey);
  }

  /** A bare word (not bracketed, not an underscore run, without space or underscore) has
      no token: such keys would match ordinary prose. */
  lemma ExpandBareWord(rawKey: string)
    requires !IsBracketed(Trim(rawKey)) && ' ' !in Trim(rawKey) && '_' !in Trim(rawKey)
    ensures ExpandVariants(rawKey) == []
  {
  }

  /** A bracketed key is its own first token; its trimmed inner text follows only when that is
      a run of three or more underscores. */
  lemma ExpandBracketed(rawKey: string)
    requires IsBracketed(Trim(rawKey))
    ensures var key := Trim(rawKey); var r := ExpandVariants(rawKey);
      |r| == (if IsUnderscoreRun(Inner(key)) then 2 else 1) && r[0] == key &&
      (|r| == 2 ==> r[1] == Inner(key))
  {
    var key := Trim(rawKey);
    var inner := Inner(key);
    if inner != [] && IsUnderscoreRun(inner) {
      assert key[0] == '[' && inner[0] == '_';
      DedupDistinct([key, inner]);
      assert [key] + [inner] == [key, inner];
    } else {
      DedupDistinct([key]);
      assert [key] + [] == [key];
    }
  }

  /** A key that is a run of underscores is its own single token. */
  lemma ExpandUnderscores(rawKey: string)
    requires IsUnderscoreRun(Trim(rawKey))
    ensures ExpandVariants(rawKey) == [Trim(rawKey)]
  {
    var key := Trim(rawKey);
    assert key[0] == '_';
  }

  /** Any other key with a space or underscore becomes `[display]`, underscores read as
      spaces and the result trimmed; a blank display gives nothing. */
  lemma ExpandDisplay(rawKey: string)
    requires var key := Trim(rawKey);
      key != [] && !IsBracketed(key) && !IsUnderscoreRun(key) && (' ' in key || '_' in key)
    ensures var d := Display(Trim(rawKey));
      ExpandVariants(rawKey) == (if d != [] then ["[" + d + "]"] else [])
  {
    var d := Display(Trim(rawKey));
    if d != [] {
      DedupDistinct(["[" + d + "]"]);
    }
  }

  /** Every token is non-empty and has no surrounding whitespace. */
  lemma ExpandTrimmed(rawKey: string)
    ensures forall t :: t in ExpandVariants(rawKey) ==> t != [] && IsTrimmed(t)
  {
    var key := Trim(rawKey);
    if key != [] && IsBracketed(key) {
      BracketedTrimmed(rawKey);
    } else if key != [] && IsUnderscoreRun(key) {
      UnderscoresTrimmed(rawKey);
    } else if key != [] && (' ' in key || '_' in key) {
      DisplayTrimmed(rawKey);
    } else {
      NoTokens(rawKey);
    }
  }

  lemma NoTokens(rawKey: string)
    requires var key := Trim(rawKey);
      key == [] || (!IsBracketed(key) && !IsUnderscoreRun(key) && ' ' !in key && '_' !in key)
    ensures ExpandVariants(rawKey) == []
  {
  }

  lemma UnderscoresTrimmed(rawKey: string)
    requires Trim(rawKey) != [] && !IsBracketed(Trim(rawKey)) && IsUnderscoreRun(Trim(rawKey))
    ensures forall t :: t in ExpandVariants(rawKey) ==> t != [] && IsTrimmed(t)
  {
    TrimIsTrimmed(rawKey);
    ExpandUnderscores(rawKey);
  }

  lemma DisplayTrimmed(rawKey: string)
    requires var key := Trim(rawKey);
      key != [] && !IsBracketed(key) && !IsUnderscoreRun(key) && (' ' in key || '_' in key)
    ensures forall t :: t in ExpandVariants(rawKey) ==> t != [] && IsTrimmed(t)
  {
    var d := Display(Trim(rawKey));
    ExpandDisplay(rawKey);
    var r := ExpandVariants(rawKey);
    if d != [] {
      DisplayTokenTrimmed(d);
      TwoTokensTrimmed(r, "[" + d + "]", []);
    } else {
      assert r == [];
    }
  }

  lemma BracketedTrimmed(rawKey: string)
    requires Trim(rawKey) != [] && IsBracketed(Trim(rawKey))
    ensures forall t :: t in ExpandVariants(rawKey) ==> t != [] && IsTrimmed(t)
  {
    var key := Trim(rawKey);
    TrimIsTrimmed(rawKey);
    ExpandBracketed(rawKey);
    TrimIsTrimmed(key[1..|key| - 1]);
    var r := ExpandVariants(rawKey);
    TwoTokensTrimmed(r, key, Inner(key));
  }

  lemma TwoTokensTrimmed(r: seq<string>, first: string, second: string)
    requires 1 <= |r| <= 2 && r[0] == first && first != [] && IsTrimmed(first)
    requires |r| == 2 ==> r[1] == second && second != [] && IsTrimmed(second)
    ensures forall t :: t in r ==> t != [] && IsTrimmed(t)
  {
  }

  lemma DisplayTokenTrimmed(d: string)
    ensures "[" + d + "]" != [] && IsTrimmed("[" + d + "]")
  {
    var t := "[" + d + "]";
    assert t[0] == '[' && t[|t| - 1] == ']';
  }

  /** A label followed by a blank (`Signature ____`) gives the bracketed label alone: the
      blank turns into spaces that are trimmed away. */
  lemma ExpandLabelWithBlank(labelText: string, blank: string)
    requires labelText != [] && labelText[0] != '['
    requires forall i :: 0 <= i < |labelText| ==> !IsSpace(labelText[i]) && labelText[i] != '_'
    requires blank != [] && forall i :: 0 <= i < |blank| ==> blank[i] == '_'
    ensures ExpandVariants(labelText + " " + blank) == ["[" + labelText + "]"]
  {
    var key := labelText + " " + blank;
    DisplayKey(key, |labelText|, ' ');
    LabelBlankDisplay(labelText, blank);
    ExpandDisplay(key);
  }

  /** A key that starts and ends with a non-space, has `sep` at index `n` and does not
      start with '[' or '_' is its own trimmed form and goes to the display branch. */
  lemma DisplayKey(key: string, n: nat, sep: char)
    requires n < |key| && key[n] == sep && (sep == ' ' || sep == '_')
    requires !IsSpace(key[0]) && !IsSpace(key[|key| - 1]) && key[0] != '[' && key[0] != '_'
    ensures Trim(key) == key
    ensures key != [] && !IsBracketed(key) && !IsUnderscoreRun(key) && (' ' in key || '_' in key)
  {
    TrimOfTrimmed(key);
  }

  lemma LabelBlankDisplay(labelText: string, blank: string)
    requires labelText != []
    requires forall i :: 0 <= i < |labelText| ==> !IsSpace(labelText[i]) && labelText[i] != '_'
    requires blank != [] && forall i :: 0 <= i < |blank| ==> blank[i] == '_'
    ensures Display(Trim(labelText + " " + blank)) == labelText
  {
    var key := labelText + " " + blank;
    var n := |labelText|;
    assert key[0] == labelText[0] && key[|key| - 1] == blank[|blank| - 1];
    var spaced := UnderscoresToSpaces(key);
    forall i | n <= i < |spaced| ensures IsSpace(spaced[i]) {
      if i > n {
        assert key[i] == blank[i - n - 1];
      }
    }
    forall i | 0 <= i < n ensures spaced[i] == labelText[i] {
      assert key[i] == labelText[i];
    }
    TrimSlices(spaced, 0, n);
    assert spaced[0..n] == labelText;
    TrimOfTrimmed(key);
  }

  /** Two words joined by an underscore (`COMPANY_NAME`) give the words, space-separated, in
      brackets. */
  lemma ExpandSnakeKey(first: string, second: string)
    requires first != [] && second != [] && first[0] != '[' && first[0] != '_'
    requires forall i :: 0 <= i < |first| ==> !IsSpace(first[i]) && first[i] != '_'
    requires forall i :: 0 <= i < |second| ==> !IsSpace(second[i]) && second[i] != '_'
    ensures var display := first + " " + second;
      ExpandVariants(first + "_" + second) == ["[" + display + "]"]
  {
    var key := first + "_" + second;
    assert key[|first|] == '_' && key[0] == first[0] && key[|key| - 1] == second[|second| - 1];
    DisplayKey(key, |first|, '_');
    SnakeKeyDisplay(first, second);
    ExpandDisplay(key);
  }

  lemma SnakeKeyDisplay(first: string, second: string)
    requires first != [] && second != []
    requires forall i :: 0 <= i < |first| ==> !IsSpace(first[i]) && first[i] != '_'
    requires forall i :: 0 <= i < |second| ==> !IsSpace(second[i]) && second[i] != '_'
    ensures Display(first + "_" + second) == first + " " + second
  {
    var key := first + "_" + second;
    var n := |first|;
    var spaced := UnderscoresToSpaces(key);
    var display := first + " " + second;
    forall i | 0 <= i < |key| ensures spaced[i] == display[i] {
      if i < n {
        assert key[i] == first[i] && display[i] == first[i];
      } else if i > n {
        assert key[i] == second[i - n - 1] && display[i] == second[i - n - 1];
      }
    }
    assert spaced == display;
    assert display[0] == first[0] && display[|display| - 1] == second[|second| - 1];
    TrimOfTrimmed(display);
  }

  /** A bracketed key whose inner text is not a run of underscores (`[DATE____]`) is its own
      and only token. */
  lemma ExpandBracketedLabel(inner: string)
    requires !IsUnderscoreRun(Trim(inner))
    ensures ExpandVariants("[" + inner + "]") == ["[" + inner + "]"]
  {
    var key := "[" + inner + "]";
    assert IsTrimmed(key);
    TrimOfTrimmed(key);
    assert key[1..|key| - 1] == inner;
    ExpandBracketed(key);
    var r := ExpandVariants(key);
    assert |r| == 1 && r[0] == key;
    assert r == [key];
  }
}
