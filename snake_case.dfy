/**
 * `_to_snake_case`: strip, replace every character that is neither a word character nor
 * whitespace by a space, split on whitespace, lower-case each part, join with "_".
 */
module SnakeCase {
  import opened Text

  /** `re.sub(r"[^\w\s]", " ", …)` on one character. */
  function CleanChar(c: char): char
  {
    if IsWordChar(c) || IsSpace(c) then c else ' '
  }

  function Clean(s: string): (r: string)
    ensures |r| == |s|
    ensures forall i :: 0 <= i < |s| ==> r[i] == CleanChar(s[i])
  {
    if s == [] then [] else [CleanChar(s[0])] + Clean(s[1..])
  }

  function LowerAll(ws: seq<string>): (r: seq<string>)
    ensures |r| == |ws|
    ensures forall i :: 0 <= i < |ws| ==> r[i] == Lower(ws[i])
  {
    if ws == [] then [] else [Lower(ws[0])] + LowerAll(ws[1..])
  }

  function ToSnakeCase(value: string): string
  {
    Join("_", LowerAll(Words(Clean(Trim(value)))))
  }

  predicate IsSnake(s: string)
  {
    forall i :: 0 <= i < |s| ==> IsWordChar(s[i]) && !IsUpper(s[i])
  }

  /** A key holds only lower-case word characters and "_": no whitespace, no upper case. */
  lemma SnakeCaseChars(value: string)
    ensures IsSnake(ToSnakeCase(value))
    ensures NoSpace(ToSnakeCase(value))
  {
    var cleaned := Clean(Trim(value));
    CleanChars(Trim(value));
    LoweredWordsSnake(cleaned);
    JoinSnake(LowerAll(Words(cleaned)));
  }

  lemma CleanChars(s: string)
    ensures forall c :: c in Clean(s) ==> IsWordChar(c) || IsSpace(c)
  {
    var r := Clean(s);
    forall c | c in r ensures IsWordChar(c) || IsSpace(c) {
      var j :| 0 <= j < |r| && r[j] == c;
      assert c == CleanChar(s[j]);
    }
  }

  /** The lower-cased words of cleaned text are keys. */
  lemma LoweredWordsSnake(cleaned: string)
    requires forall c :: c in cleaned ==> IsWordChar(c) || IsSpace(c)
    ensures forall k :: 0 <= k < |LowerAll(Words(cleaned))| ==> IsSnake(LowerAll(Words(cleaned))[k])
  {
    var ws := Words(cleaned);
    WordsShape(cleaned);
    forall k | 0 <= k < |ws| ensures IsSnake(LowerAll(ws)[k]) {
      var w := ws[k];
      assert w in ws;
      forall i | 0 <= i < |w| ensures IsWordChar(w[i]) {
        assert w[i] in w;
      }
      LowerSnake(w);
    }
  }

  lemma LowerSnake(w: string)
    requires forall i :: 0 <= i < |w| ==> IsWordChar(w[i])
    ensures IsSnake(Lower(w))
  {
  }

  /** Keys joined with "_" form a key. */
  lemma {:induction false} JoinSnake(parts: seq<string>)
    requires forall k :: 0 <= k < |parts| ==> IsSnake(parts[k])
    ensures IsSnake(Join("_", parts))
    decreases |parts|
  {
    if |parts| > 1 {
      JoinSnake(parts[1..]);
      assert IsSnake("_") by {
        assert "_"[0] == '_';
      }
      SnakeAppend(parts[0], "_");
      SnakeAppend(parts[0] + "_", Join("_", parts[1..]));
    }
  }

  lemma SnakeAppend(a: string, b: string)
    requires IsSnake(a) && IsSnake(b)
    ensures IsSnake(a + b)
  {
    forall i | 0 <= i < |a + b| ensures IsWordChar((a + b)[i]) && !IsUpper((a + b)[i]) {
      if i < |a| {
        assert (a + b)[i] == a[i];
      } else {
        assert (a + b)[i] == b[i - |a|];
      }
    }
  }

  /** `value` has no word character. */
  predicate NoWordChar(value: string)
  {
    forall i :: 0 <= i < |value| ==> !IsWordChar(value[i])
  }

  /** The key is empty exactly when the input has no word character at all. */
  lemma SnakeCaseEmpty(value: string)
    ensures ToSnakeCase(value) == [] <==> NoWordChar(value)
  {
    var t := Trim(value);
    var cleaned := Clean(t);
    JoinedWordsEmpty(cleaned);
    WordsEmpty(cleaned);
    CleanAllSpace(t);
    TrimNoWordChar(value);
  }

  /** Joining the lower-cased words gives nothing exactly when there are no words. */
  lemma JoinedWordsEmpty(cleaned: string)
    ensures Join("_", LowerAll(Words(cleaned))) == [] <==> Words(cleaned) == []
  {
    var ws := Words(cleaned);
    var lowered := LowerAll(ws);
    WordsShape(cleaned);
    forall w | w in lowered ensures w != [] {
      var k :| 0 <= k < |lowered| && lowered[k] == w;
      assert ws[k] in ws;
    }
    JoinEmpty("_", lowered);
  }

  /** Cleaning leaves only whitespace exactly when there was no word character. */
  lemma CleanAllSpace(t: string)
    ensures AllSpace(Clean(t)) <==> NoWordChar(t)
  {
    var c := Clean(t);
    if NoWordChar(t) {
      forall j | 0 <= j < |c| ensures IsSpace(c[j]) {
        assert c[j] == CleanChar(t[j]);
      }
    } else {
      var j :| 0 <= j < |t| && IsWordChar(t[j]);
      assert c[j] == t[j];
    }
  }

  /** Stripping removes only whitespace, so it keeps every word character. */
  lemma TrimNoWordChar(value: string)
    ensures NoWordChar(Trim(value)) <==> NoWordChar(value)
  {
    var t := Trim(value);
    var k := TrimOffset(value);
    if NoWordChar(value) {
      forall j | 0 <= j < |t| ensures !IsWordChar(t[j]) {
        assert t[j] == value[k + j];
      }
    } else {
      var i :| 0 <= i < |value| && IsWordChar(value[i]);
      TrimKeeps(value, i);
      var j :| 0 <= j < |t| && t[j] == value[i];
      assert IsWordChar(t[j]);
    }
  }

  lemma SnakeCaseOfSnake(s: string)
    requires IsSnake(s)
    ensures ToSnakeCase(s) == s
  {
    assert NoSpace(s);
    TrimOfTrimmed(s);
    assert Clean(s) == s;
    if s != [] {
      WordsOfWord(s);
      assert Lower(s) == s;
      assert LowerAll([s]) == [s];
    }
  }

  /** Deriving a key from a key changes nothing. */
  lemma SnakeCaseIdempotent(value: string)
    ensures ToSnakeCase(ToSnakeCase(value)) == ToSnakeCase(value)
  {
    SnakeCaseChars(value);
    SnakeCaseOfSnake(ToSnakeCase(value));
  }
}
