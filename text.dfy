/**
 * The string primitives the doc service relies on, restricted to ASCII:
 * Python's `str.isspace`, `\w`, `str.strip`, `str.split()`, `str.join` and `str.lower`.
 */
module Text {

  /** Python's `str.isspace` on ASCII: space, \t \n \v \f \r, and the separators 0x1C-0x1F. */
  predicate IsSpace(c: char)
  {
    c == ' ' || 9 <= c as int <= 13 || 28 <= c as int <= 31
  }

  /** The ASCII part of the regex class `\w`. */
  predicate IsWordChar(c: char)
  {
    ('a' <= c <= 'z') || ('A' <= c <= 'Z') || ('0' <= c <= '9') || c == '_'
  }

  predicate IsUpper(c: char)
  {
    'A' <= c <= 'Z'
  }

  predicate NoSpace(s: string)
  {
    forall i :: 0 <= i < |s| ==> !IsSpace(s[i])
  }

  predicate AllSpace(s: string)
  {
    forall i :: 0 <= i < |s| ==> IsSpace(s[i])
  }

  /** `str.lower` on one character, ASCII only. */
  function LowerChar(c: char): (d: char)
    ensures !IsUpper(d)
    ensures IsWordChar(d) == IsWordChar(c)
    ensures !IsUpper(c) ==> d == c
  {
    if IsUpper(c) then (c as int + 32) as char else c
  }

  function Lower(s: string): (r: string)
    ensures |r| == |s|
    ensures forall i :: 0 <= i < |s| ==> r[i] == LowerChar(s[i])
  {
    if s == [] then [] else [LowerChar(s[0])] + Lower(s[1..])
  }

  /** `"".join(parts)`. */
  function Concat(parts: seq<string>): string
  {
    if parts == [] then [] else Concat(parts[..|parts| - 1]) + parts[|parts| - 1]
  }

  lemma ConcatSnoc(parts: seq<string>, s: string)
    ensures Concat(parts + [s]) == Concat(parts) + s
  {
    assert (parts + [s])[..|parts|] == parts;
  }

  lemma {:induction false} ConcatAppend(a: seq<string>, b: seq<string>)
    ensures Concat(a + b) == Concat(a) + Concat(b)
    decreases |b|
  {
    if b == [] {
      assert a + b == a;
    } else {
      var b' := b[..|b| - 1];
      assert a + b == (a + b') + [b[|b| - 1]];
      ConcatSnoc(a + b', b[|b| - 1]);
      ConcatAppend(a, b');
      ConcatSnoc(b', b[|b| - 1]);
      assert b == b' + [b[|b| - 1]];
    }
  }

  /** `sep.join(parts)`. */
  function Join(sep: string, parts: seq<string>): string
  {
    if parts == [] then []
    else if |parts| == 1 then parts[0]
    else parts[0] + sep + Join(sep, parts[1..])
  }

  lemma JoinEmpty(sep: string, parts: seq<string>)
    requires forall w :: w in parts ==> w != []
    ensures Join(sep, parts) == [] <==> parts == []
  {
    if |parts| > 0 {
      assert parts[0] in parts;
    }
  }

  /** `str.lstrip()` */
  function TrimLeft(s: string): (r: string)
    ensures |r| <= |s| && r == s[|s| - |r|..]
    ensures r == [] || !IsSpace(r[0])
    ensures forall i :: 0 <= i < |s| - |r| ==> IsSpace(s[i])
  {
    if s != [] && IsSpace(s[0]) then TrimLeft(s[1..]) else s
  }

  /** `str.rstrip()` */
  function TrimRight(s: string): (r: string)
    ensures |r| <= |s| && r == s[..|r|]
    ensures r == [] || !IsSpace(r[|r| - 1])
    ensures forall i :: |r| <= i < |s| ==> IsSpace(s[i])
  {
    if s != [] && IsSpace(s[|s| - 1]) then TrimRight(s[..|s| - 1]) else s
  }

  /** `str.strip()` */
  function Trim(s: string): string
  {
    TrimLeft(TrimRight(s))
  }

  predicate IsTrimmed(s: string)
  {
    s == [] || (!IsSpace(s[0]) && !IsSpace(s[|s| - 1]))
  }

  lemma TrimIsTrimmed(s: string)
    ensures IsTrimmed(Trim(s))
  {
    var r := TrimRight(s);
    var t := TrimLeft(r);
    if t != [] {
      assert t[|t| - 1] == r[|r| - |t|..][|t| - 1] == r[|r| - 1];
    }
  }

  lemma TrimOfTrimmed(s: string)
    requires IsTrimmed(s)
    ensures Trim(s) == s
  {
  }

  /** Trimming only removes whitespace: a non-space character survives it. */
  lemma TrimKeeps(s: string, i: int)
    requires 0 <= i < |s| && !IsSpace(s[i])
    ensures s[i] in Trim(s)
  {
    var r := TrimRight(s);
    forall k | |r| <= k < |s| ensures IsSpace(s[k]) {
      assert s[|r|..][k - |r|] == s[k];
    }
    var t := TrimLeft(r);
    assert r[i] == s[i];
    forall k | 0 <= k < |r| - |t| ensures IsSpace(r[k]) {
      assert r[..|r| - |t|][k] == r[k];
    }
    assert t[i - (|r| - |t|)] == s[i];
  }

  lemma TrimChars(s: string)
    ensures forall c :: c in Trim(s) ==> c in s
  {
    var t := Trim(s);
    var k := TrimOffset(s);
    forall c | c in t ensures c in s {
      var j :| 0 <= j < |t| && t[j] == c;
      assert s[k + j] == c;
    }
  }

  /** The stripped text is a slice of the original. */
  lemma TrimOffset(s: string) returns (k: nat)
    ensures k + |Trim(s)| <= |s|
    ensures forall j :: 0 <= j < |Trim(s)| ==> Trim(s)[j] == s[k + j]
  {
    var r := TrimRight(s);
    var t := TrimLeft(r);
    k := |r| - |t|;
    forall j | 0 <= j < |t| ensures t[j] == s[k + j] {
      assert t[j] == r[k + j];
    }
  }

  /** Stripping leaves nothing exactly when the text is all whitespace. */
  lemma TrimEmpty(s: string)
    ensures Trim(s) == [] <==> AllSpace(s)
  {
    var r := TrimRight(s);
    var t := TrimLeft(r);
    assert r != [] ==> r[|r| - 1] == s[|r| - 1];
    assert t == [] ==> r[..|r| - |t|] == r;
    assert r == [] ==> s[|r|..] == s;
  }

  /** Trimming a text that is whitespace outside `[a, b)` and starts and ends with a
      non-space inside it gives `s[a..b]`. */
  lemma TrimSlices(s: string, a: nat, b: nat)
    requires a < b <= |s|
    requires forall i :: 0 <= i < a ==> IsSpace(s[i])
    requires forall i :: b <= i < |s| ==> IsSpace(s[i])
    requires !IsSpace(s[a]) && !IsSpace(s[b - 1])
    ensures Trim(s) == s[a..b]
  {
    TrimRightAt(s, b);
    var r := s[..b];
    TrimLeftAt(r, a);
    assert r[a..] == s[a..b];
  }

  /** `rstrip` stops at the last non-space character. */
  lemma TrimRightAt(s: string, b: nat)
    requires 0 < b <= |s| && !IsSpace(s[b - 1])
    requires forall i :: b <= i < |s| ==> IsSpace(s[i])
    ensures TrimRight(s) == s[..b]
  {
    assert |TrimRight(s)| == b;
  }

  /** `lstrip` stops at the first non-space character. */
  lemma TrimLeftAt(r: string, a: nat)
    requires a < |r| && !IsSpace(r[a])
    requires forall i :: 0 <= i < a ==> IsSpace(r[i])
    ensures TrimLeft(r) == r[a..]
  {
    assert |r| - |TrimLeft(r)| == a;
  }

  lemma TrimLeftDrop(s: string)
    requires s != [] && IsSpace(s[0]) && !IsSpace(s[|s| - 1])
    ensures Trim(s) == Trim(s[1..])
  {
  }

  lemma TrimDropsTrailingSpace(s: string, c: char)
    requires IsSpace(c)
    ensures Trim(s + [c]) == Trim(s)
  {
    assert (s + [c])[..|s|] == s;
  }

  /** Index of the first whitespace character at or after `i`, or `|s|`. */
  function WordEnd(s: string, i: nat): (j: nat)
    requires i <= |s|
    ensures i <= j <= |s|
    ensures j < |s| ==> IsSpace(s[j])
    ensures forall k :: i <= k < j ==> !IsSpace(s[k])
    decreases |s| - i
  {
    if i == |s| || IsSpace(s[i]) then i else WordEnd(s, i + 1)
  }

  /** `str.split()`: the maximal runs of non-whitespace characters, left to right. */
  function Words(s: string): seq<string>
    decreases |s|
  {
    if s == [] then []
    else if IsSpace(s[0]) then Words(s[1..])
    else
      var n := WordEnd(s, 0);
      [s[..n]] + Words(s[n..])
  }

  /** Every word is a non-empty run of non-whitespace characters taken from `s`. */
  lemma {:induction false} WordsShape(s: string)
    ensures forall w :: w in Words(s) ==> w != [] && NoSpace(w)
    ensures forall w, c :: w in Words(s) && c in w ==> c in s
    decreases |s|
  {
    if s == [] {
    } else if IsSpace(s[0]) {
      WordsShape(s[1..]);
      assert forall c :: c in s[1..] ==> c in s;
    } else {
      var n := WordEnd(s, 0);
      WordsShape(s[n..]);
      assert forall c :: c in s[..n] ==> c in s;
      assert forall c :: c in s[n..] ==> c in s;
    }
  }

  lemma {:induction false} WordsEmpty(s: string)
    ensures Words(s) == [] <==> AllSpace(s)
    decreases |s|
  {
    if s != [] && IsSpace(s[0]) {
      WordsEmpty(s[1..]);
    }
  }

  lemma WordsOfWord(s: string)
    requires s != [] && NoSpace(s)
    ensures Words(s) == [s]
  {
    WordEndNoSpace(s, 0);
    assert !IsSpace(s[0]);
    assert s[..|s|] == s;
    assert s[|s|..] == [];
  }

  lemma {:induction false} WordEndNoSpace(s: string, i: nat)
    requires i <= |s| && NoSpace(s)
    ensures WordEnd(s, i) == |s|
    decreases |s| - i
  {
    if i < |s| {
      WordEndNoSpace(s, i + 1);
    }
  }

  /** `" ".join(s.split())`: runs of whitespace collapse to one space, ends trimmed. */
  function NormalizeSpace(s: string): string
  {
    Join(" ", Words(s))
  }

  /** `pat` occurs in `s` starting at index `j`. */
  predicate OccursAt(s: string, pat: string, j: int)
  {
    0 <= j && j + |pat| <= |s| && s[j..j + |pat|] == pat
  }

  /** Index of the first occurrence of `pat` at or after `from` (`str.find`), or `|s|`. */
  function IndexOf(s: string, pat: string, from: nat): (k: nat)
    requires from <= |s|
    ensures from <= k <= |s|
    ensures k < |s| ==> OccursAt(s, pat, k)
    decreases |s| - from
  {
    if from == |s| then |s|
    else if OccursAt(s, pat, from) then from
    else IndexOf(s, pat, from + 1)
  }

  /** No occurrence starts between `from` and the one found. */
  lemma {:induction false} IndexOfFirst(s: string, pat: string, from: nat, j: int)
    requires from <= |s|
    ensures from <= j < IndexOf(s, pat, from) ==> !OccursAt(s, pat, j)
    decreases |s| - from
  {
    if from < |s| && !OccursAt(s, pat, from) {
      IndexOfFirst(s, pat, from + 1, j);
    }
  }

  /** An occurrence at `k` with none before it, from `from` on, is the one found. */
  lemma {:induction false} IndexOfAt(s: string, pat: string, from: nat, k: nat)
    requires from <= k < |s| && OccursAt(s, pat, k)
    requires forall j :: from <= j < k ==> !OccursAt(s, pat, j)
    ensures IndexOf(s, pat, from) == k
    decreases k - from
  {
    if from < k {
      IndexOfAt(s, pat, from + 1, k);
    }
  }

  lemma Assoc4(a: string, b: string, c: string, d: string)
    ensures a + b + c + d == a + (b + c + d)
  {
  }

  lemma SliceSplit3(s: string, i: nat, j: nat, k: nat)
    requires i <= j <= k <= |s|
    ensures s[i..] == s[i..j] + s[j..k] + s[k..]
  {
  }

  predicate StartsWith(s: string, p: string)
  {
    |p| <= |s| && s[..|p|] == p
  }

  predicate EndsWith(s: string, p: string)
  {
    |p| <= |s| && s[|s| - |p|..] == p
  }
}
