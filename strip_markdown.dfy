/**
 * `_strip_md`: the schema reply of the model may come wrapped in a Markdown code fence,
 * optionally tagged `json`; the fence and the tag line are removed and the rest trimmed.
 */
module StripMarkdown {
  import opened Text

  const Fence: string := "```"
  const JsonTag: string := "json"

  /** `s.split(sep, maxsplit)`: at most `maxsplit` cuts, at the leftmost occurrences. */
  function SplitMax(s: string, sep: string, maxsplit: nat): (parts: seq<string>)
    requires sep != []
    ensures 1 <= |parts| <= maxsplit + 1
  {
    SplitFrom(s, sep, 0, maxsplit)
  }

  /** The split of `s[from..]`, searching the whole text from `from` on. */
  function SplitFrom(s: string, sep: string, from: nat, maxsplit: nat): (parts: seq<string>)
    requires sep != [] && from <= |s|
    ensures 1 <= |parts| <= maxsplit + 1
    decreases maxsplit
  {
    var i := IndexOf(s, sep, from);
    if maxsplit == 0 || i == |s| then [s[from..]]
    else [s[from..i]] + SplitFrom(s, sep, i + |sep|, maxsplit - 1)
  }

  function StripMd(value: string): string
  {
    var v := Trim(value);
    if StartsWith(v, Fence) then
      var parts := SplitMax(v, Fence, 2);
      if |parts| >= 2 then Trim(DropTag(parts[1])) else v
    else v
  }

  /** Text between the fences that opens with `json` loses its first line; a tag without a
      line break leaves nothing. */
  function DropTag(content: string): string
  {
    if StartsWith(content, JsonTag) then
      var lines := SplitMax(content, "\n", 1);
      if |lines| > 1 then lines[1] else []
    else content
  }

  /** `pat` occurs nowhere in `s`. */
  ghost predicate NoOccurrence(s: string, pat: string)
  {
    forall j :: !OccursAt(s, pat, j)
  }

  /** Splitting loses nothing: joining the parts with the separator gives the text back. */
  lemma SplitMaxJoin(s: string, sep: string, maxsplit: nat)
    requires sep != []
    ensures Join(sep, SplitMax(s, sep, maxsplit)) == s
  {
    SplitFromJoin(s, sep, 0, maxsplit);
  }

  lemma {:induction false} SplitFromJoin(s: string, sep: string, from: nat, maxsplit: nat)
    requires sep != [] && from <= |s|
    ensures Join(sep, SplitFrom(s, sep, from, maxsplit)) == s[from..]
    decreases maxsplit
  {
    var i := IndexOf(s, sep, from);
    if maxsplit != 0 && i != |s| {
      SplitFromJoin(s, sep, i + |sep|, maxsplit - 1);
      SplitFromJoinStep(s, sep, from, maxsplit);
    } else {
      SplitFromJoinLast(s, sep, from, maxsplit);
    }
  }

  lemma SplitFromJoinLast(s: string, sep: string, from: nat, maxsplit: nat)
    requires sep != [] && from <= |s| && (maxsplit == 0 || IndexOf(s, sep, from) == |s|)
    ensures Join(sep, SplitFrom(s, sep, from, maxsplit)) == s[from..]
  {
    assert SplitFrom(s, sep, from, maxsplit) == [s[from..]];
  }

  /** The join of a split with a cut, from the join of the rest. */
  lemma SplitFromJoinStep(s: string, sep: string, from: nat, maxsplit: nat)
    requires sep != [] && from <= |s| && maxsplit != 0 && IndexOf(s, sep, from) != |s|
    requires var i := IndexOf(s, sep, from);
      Join(sep, SplitFrom(s, sep, i + |sep|, maxsplit - 1)) == s[i + |sep|..]
    ensures Join(sep, SplitFrom(s, sep, from, maxsplit)) == s[from..]
  {
    var i := IndexOf(s, sep, from);
    SplitFromStep(s, sep, from, maxsplit);
    CutAt(s, sep, from, i);
    JoinStep(s[from..i], sep, SplitFrom(s, sep, i + |sep|, maxsplit - 1), s[i + |sep|..], s[from..]);
  }

  /** One cut of the split: the part before the first separator, then the rest split once
      less. */
  lemma SplitFromStep(s: string, sep: string, from: nat, maxsplit: nat)
    requires sep != [] && from <= |s| && maxsplit != 0 && IndexOf(s, sep, from) != |s|
    ensures var i := IndexOf(s, sep, from);
      SplitFrom(s, sep, from, maxsplit) == [s[from..i]] + SplitFrom(s, sep, i + |sep|, maxsplit - 1)
  {
  }

  lemma JoinStep(x: string, sep: string, tail: seq<string>, rest: string, whole: string)
    requires tail != [] && Join(sep, tail) == rest && whole == x + sep + rest
    ensures Join(sep, [x] + tail) == whole
  {
    assert ([x] + tail)[1..] == tail;
  }

  /** Around an occurrence at `i`, the text from `from` on is the part before it, the
      separator and the part after it. */
  lemma CutAt(s: string, sep: string, from: nat, i: nat)
    requires from <= i && OccursAt(s, sep, i)
    ensures s[from..] == s[from..i] + sep + s[i + |sep|..]
  {
    assert s[from..] == s[from..i] + s[i..i + |sep|] + s[i + |sep|..];
  }

  /** No part but the last holds a separator, and neither does the last when fewer than
      `maxsplit` cuts were made. */
  ghost predicate CleanParts(parts: seq<string>, sep: string, maxsplit: nat)
  {
    (forall k :: 0 <= k < |parts| - 1 ==> NoOccurrence(parts[k], sep)) &&
    (0 < |parts| <= maxsplit ==> NoOccurrence(parts[|parts| - 1], sep))
  }

  /** The separator is found only where a part ends. */
  lemma SplitMaxParts(s: string, sep: string, maxsplit: nat)
    requires sep != []
    ensures CleanParts(SplitMax(s, sep, maxsplit), sep, maxsplit)
  {
    SplitFromParts(s, sep, 0, maxsplit);
  }

  lemma {:induction false} SplitFromParts(s: string, sep: string, from: nat, maxsplit: nat)
    requires sep != [] && from <= |s|
    ensures CleanParts(SplitFrom(s, sep, from, maxsplit), sep, maxsplit)
    decreases maxsplit
  {
    var i := IndexOf(s, sep, from);
    if maxsplit != 0 && i != |s| {
      SplitFromParts(s, sep, i + |sep|, maxsplit - 1);
      SplitFromPartsStep(s, sep, from, maxsplit);
    } else {
      SplitFromPartsLast(s, sep, from, maxsplit);
    }
  }

  lemma SplitFromPartsLast(s: string, sep: string, from: nat, maxsplit: nat)
    requires sep != [] && from <= |s| && (maxsplit == 0 || IndexOf(s, sep, from) == |s|)
    ensures CleanParts(SplitFrom(s, sep, from, maxsplit), sep, maxsplit)
  {
    assert SplitFrom(s, sep, from, maxsplit) == [s[from..]];
    if maxsplit != 0 {
      PartBeforeFound(s, sep, from);
      assert s[from..IndexOf(s, sep, from)] == s[from..];
    }
  }

  lemma SplitFromPartsStep(s: string, sep: string, from: nat, maxsplit: nat)
    requires sep != [] && from <= |s| && maxsplit != 0 && IndexOf(s, sep, from) != |s|
    requires var i := IndexOf(s, sep, from);
      CleanParts(SplitFrom(s, sep, i + |sep|, maxsplit - 1), sep, maxsplit - 1)
    ensures CleanParts(SplitFrom(s, sep, from, maxsplit), sep, maxsplit)
  {
    var i := IndexOf(s, sep, from);
    var tail := SplitFrom(s, sep, i + |sep|, maxsplit - 1);
    SplitFromStep(s, sep, from, maxsplit);
    PartBeforeFound(s, sep, from);
    CleanCons(s[from..i], tail, sep, maxsplit);
  }

  lemma CleanCons(x: string, tail: seq<string>, sep: string, maxsplit: nat)
    requires maxsplit != 0 && tail != [] && NoOccurrence(x, sep) && CleanParts(tail, sep, maxsplit - 1)
    ensures CleanParts([x] + tail, sep, maxsplit)
  {
    var parts := [x] + tail;
    forall k | 1 <= k < |parts| - 1 ensures NoOccurrence(parts[k], sep) {
      assert parts[k] == tail[k - 1];
    }
    assert parts[|parts| - 1] == tail[|tail| - 1];
  }

  /** The text between `from` and the occurrence found holds no occurrence. */
  lemma PartBeforeFound(s: string, pat: string, from: nat)
    requires pat != [] && from <= |s|
    ensures NoOccurrence(s[from..IndexOf(s, pat, from)], pat)
  {
    var i := IndexOf(s, pat, from);
    forall j ensures !OccursAt(s[from..i], pat, j) {
      OccursInSlice(s, pat, from, i, j);
      IndexOfFirst(s, pat, from, from + j);
    }
  }

  /** An occurrence inside a slice is an occurrence in the whole text. */
  lemma OccursInSlice(s: string, pat: string, a: nat, b: nat, j: int)
    requires a <= b <= |s|
    ensures OccursAt(s[a..b], pat, j) ==> OccursAt(s, pat, a + j)
  {
    if OccursAt(s[a..b], pat, j) {
      var sub := s[a..b];
      var w := s[a + j..a + j + |pat|];
      forall k | 0 <= k < |pat| ensures w[k] == pat[k] {
        assert w[k] == sub[j + k] == sub[j..j + |pat|][k];
      }
    }
  }

  lemma NoOccurrenceSlice(s: string, pat: string, a: nat, b: nat)
    requires a <= b <= |s| && NoOccurrence(s, pat)
    ensures NoOccurrence(s[a..b], pat)
  {
    forall j ensures !OccursAt(s[a..b], pat, j) {
      OccursInSlice(s, pat, a, b, j);
    }
  }

  lemma TrimSlice(s: string) returns (a: nat, b: nat)
    ensures a <= b <= |s| && Trim(s) == s[a..b]
  {
    var r := TrimRight(s);
    var t := TrimLeft(r);
    a, b := |r| - |t|, |r|;
    assert t == r[a..] && r == s[..b];
    assert s[..b][a..] == s[a..b];
  }

  lemma NoOccurrenceTrim(s: string, pat: string)
    requires NoOccurrence(s, pat)
    ensures NoOccurrence(Trim(s), pat)
  {
    var a, b := TrimSlice(s);
    NoOccurrenceSlice(s, pat, a, b);
  }

  lemma StartsWithOccurs(s: string, p: string)
    ensures StartsWith(s, p) <==> OccursAt(s, p, 0)
  {
    if |p| <= |s| {
      assert s[0..|p|] == s[..|p|];
    }
  }

  /** The result is always trimmed. */
  lemma StripMdTrimmed(value: string)
    ensures IsTrimmed(StripMd(value))
  {
    TrimIsTrimmed(value);
    var v := Trim(value);
    if StartsWith(v, Fence) {
      TrimIsTrimmed(DropTag(SplitMax(v, Fence, 2)[1]));
    }
  }

  /** A reply that does not open with a fence is only trimmed. */
  lemma StripMdUnfenced(value: string)
    requires !StartsWith(Trim(value), Fence)
    ensures StripMd(value) == Trim(value)
  {
  }

  lemma DropTagNoFence(content: string)
    requires NoOccurrence(content, Fence)
    ensures NoOccurrence(DropTag(content), Fence)
  {
    if StartsWith(content, JsonTag) {
      var lines := SplitMax(content, "\n", 1);
      if |lines| > 1 {
        var i := IndexOf(content, "\n", 0);
        assert lines[1] == SplitFrom(content, "\n", i + 1, 0)[0] == content[i + 1..];
        NoOccurrenceSlice(content, Fence, i + 1, |content|);
        assert content[i + 1..|content|] == content[i + 1..];
      }
    }
  }

  /** What is left of a fenced reply holds no fence. */
  lemma StripMdFenced(value: string)
    requires StartsWith(Trim(value), Fence)
    ensures NoOccurrence(StripMd(value), Fence)
  {
    var v := Trim(value);
    SplitMaxParts(v, Fence, 2);
    var content := SplitMax(v, Fence, 2)[1];
    DropTagNoFence(content);
    NoOccurrenceTrim(DropTag(content), Fence);
  }

  /** Stripping twice is stripping once. */
  lemma StripMdIdempotent(value: string)
    ensures StripMd(StripMd(value)) == StripMd(value)
  {
    var r := StripMd(value);
    StripMdTrimmed(value);
    TrimOfTrimmed(r);
    if StartsWith(Trim(value), Fence) {
      StripMdFenced(value);
      StartsWithOccurs(r, Fence);
    }
  }

  /** A reply fenced as ```` ```json ```` on its own line gives the fenced text, trimmed. */
  lemma StripMdJsonFence(body: string)
    requires NoOccurrence(body, Fence)
    ensures StripMd("```json\n" + body + "\n```") == Trim(body)
  {
    var v := "```json\n" + body + "\n```";
    var content := "json\n" + body + "\n";
    FencedSplit(v, content, body);
    DropTagLine(body + "\n");
    assert content == "json\n" + (body + "\n");
    assert StripMd(v) == Trim(body + "\n");
    TrimDropsTrailingSpace(body, '\n');
  }

  /** Content opening with the line `json` loses exactly that line. */
  lemma DropTagLine(rest: string)
    ensures DropTag("json\n" + rest) == rest
  {
    var content := "json\n" + rest;
    assert StartsWith(content, JsonTag);
    assert OccursAt(content, "\n", 4);
    forall j | 0 <= j < 4 ensures !OccursAt(content, "\n", j) {
      assert content[j] != '\n';
    }
    IndexOfAt(content, "\n", 0, 4);
    assert SplitFrom(content, "\n", 5, 0) == [content[5..]];
    assert content[5..] == rest;
  }

  /** `v` is `content` between two fences, with no fence inside; the first line break of
      `content` keeps a fence from forming across the opening one. */
  lemma FencedSplit(v: string, content: string, body: string)
    requires v == Fence + content + Fence && NoOccurrence(body, Fence)
    requires |content| >= |body| + 2 && content[|content| - 1] == '\n'
    requires content[|content| - |body| - 2] == '\n' && content[|content| - |body| - 1..|content| - 1] == body
    requires forall j :: 0 <= j < |content| - |body| - 1 ==> content[j] != '`'
    ensures Trim(v) == v && StartsWith(v, Fence)
    ensures |SplitMax(v, Fence, 2)| >= 2 && SplitMax(v, Fence, 2)[1] == content
  {
    assert IsTrimmed(v);
    TrimOfTrimmed(v);
    assert OccursAt(v, Fence, 0);
    IndexOfAt(v, Fence, 0, 0);
    var n := |content|;
    assert OccursAt(v, Fence, 3 + n);
    forall j | 3 <= j < 3 + n ensures !OccursAt(v, Fence, j) {
      FenceInside(v, content, body, j);
    }
    IndexOfAt(v, Fence, 3, 3 + n);
    assert v[3..3 + n] == content;
  }

  /** No fence starts inside `content`. */
  lemma FenceInside(v: string, content: string, body: string, j: nat)
    requires v == Fence + content + Fence && NoOccurrence(body, Fence)
    requires |content| >= |body| + 2 && content[|content| - 1] == '\n'
    requires content[|content| - |body| - 2] == '\n' && content[|content| - |body| - 1..|content| - 1] == body
    requires forall j :: 0 <= j < |content| - |body| - 1 ==> content[j] != '`'
    requires 3 <= j < 3 + |content|
    ensures !OccursAt(v, Fence, j)
  {
    var n := |content|;
    var c0 := n - |body| - 1;
    if j - 3 < c0 {
      assert v[j] == content[j - 3];
    } else if j + 3 <= 3 + n - 1 {
      var p := j - 3 - c0;
      forall q | j <= q < j + 3 ensures v[q] == body[q - 3 - c0] {
        assert v[q] == content[q - 3];
        assert content[c0..n - 1][q - 3 - c0] == body[q - 3 - c0];
      }
      assert v[j..j + 3] == body[p..p + 3];
      assert !OccursAt(body, Fence, p);
    } else {
      assert v[3 + n - 1] == '\n';
    }
  }
}
