/**
 * `html.escape(s)` (quote=True, so five characters are replaced) and the final
 * `.replace("\n", "<br />")` of the preview, with the decoder that undoes the escaping.
 */
module Html {
  import opened Text

  function EscapeChar(c: char): string
  {
    if c == '&' then "&amp;"
    else if c == '<' then "&lt;"
    else if c == '>' then "&gt;"
    else if c == '"' then "&quot;"
    else if c == '\'' then "&#x27;"
    else [c]
  }

  function Escape(s: string): string
  {
    if s == [] then [] else EscapeChar(s[0]) + Escape(s[1..])
  }

  /** Decodes the five entities that `Escape` produces; every other character stands for itself. */
  function Unescape(s: string): string
    decreases |s|
  {
    if s == [] then []
    else if s[0] != '&' then [s[0]] + Unescape(s[1..])
    else if StartsWith(s, "&amp;") then "&" + Unescape(s[5..])
    else if StartsWith(s, "&lt;") then "<" + Unescape(s[4..])
    else if StartsWith(s, "&gt;") then ">" + Unescape(s[4..])
    else if StartsWith(s, "&quot;") then "\"" + Unescape(s[6..])
    else if StartsWith(s, "&#x27;") then "'" + Unescape(s[6..])
    else [s[0]] + Unescape(s[1..])
  }

  /** `s.replace("\n", "<br />")` */
  function BrNewlines(s: string): string
  {
    if s == [] then []
    else (if s[0] == '\n' then "<br />" else [s[0]]) + BrNewlines(s[1..])
  }

  lemma {:induction false} EscapeAppend(a: string, b: string)
    ensures Escape(a + b) == Escape(a) + Escape(b)
  {
    if a != [] {
      assert (a + b)[1..] == a[1..] + b;
      EscapeAppend(a[1..], b);
    } else {
      assert a + b == b;
    }
  }

  lemma EscapeAppend3(a: string, b: string, c: string)
    ensures Escape(a) + Escape(b) + Escape(c) == Escape(a + b + c)
  {
    EscapeAppend(a, b);
    EscapeAppend(a + b, c);
  }

  lemma {:induction false} BrNewlinesAppend(a: string, b: string)
    ensures BrNewlines(a + b) == BrNewlines(a) + BrNewlines(b)
  {
    if a != [] {
      assert (a + b)[1..] == a[1..] + b;
      BrNewlinesAppend(a[1..], b);
    } else {
      assert a + b == b;
    }
  }

  /** Decoding one escaped character in front of anything gives that character back. */
  lemma UnescapeEscapeChar(c: char, rest: string)
    ensures Unescape(EscapeChar(c) + rest) == [c] + Unescape(rest)
  {
    var e := EscapeChar(c) + rest;
    if c == '&' {
      assert e[..5] == "&amp;" && e[5..] == rest;
    } else if c == '<' {
      assert e[1] == 'l';
      assert e[..4] == "&lt;" && e[4..] == rest;
    } else if c == '>' {
      assert e[1] == 'g' && e[2] == 't';
      assert e[..4] == "&gt;" && e[4..] == rest;
    } else if c == '"' {
      assert e[1] == 'q';
      assert e[..6] == "&quot;" && e[6..] == rest;
    } else if c == '\'' {
      assert e[1] == '#';
      assert e[..6] == "&#x27;" && e[6..] == rest;
    } else {
      assert e[0] == c && e[1..] == rest;
    }
  }

  /** Escaping is lossless: decoding the escaped text gives the text back. */
  lemma {:induction false} UnescapeEscape(s: string)
    ensures Unescape(Escape(s)) == s
  {
    if s != [] {
      UnescapeEscape(s[1..]);
      UnescapeEscapeChar(s[0], Escape(s[1..]));
      assert s == [s[0]] + s[1..];
    }
  }

  /** Escaping never produces a line break that was not there, nor removes one. */
  lemma {:induction false} EscapeNewlines(s: string)
    ensures ('\n' in Escape(s)) == ('\n' in s)
  {
    if s != [] {
      EscapeNewlines(s[1..]);
      assert s == [s[0]] + s[1..];
    }
  }

  /** After the `<br />` substitution no line break is left. */
  lemma {:induction false} BrNewlinesRemovesAll(s: string)
    ensures '\n' !in BrNewlines(s)
  {
    if s != [] {
      BrNewlinesRemovesAll(s[1..]);
    }
  }

  lemma {:induction false} EscapeAllSpace(s: string)
    ensures AllSpace(Escape(s)) <==> AllSpace(s)
  {
    if s != [] {
      EscapeAllSpace(s[1..]);
      var e := EscapeChar(s[0]);
      assert e == [s[0]] || (e[0] == '&' && !IsSpace(s[0]));
      assert Escape(s) == e + Escape(s[1..]);
      AllSpaceAppend(e, Escape(s[1..]));
      AllSpaceAppend([s[0]], s[1..]);
      assert s == [s[0]] + s[1..];
    }
  }

  lemma {:induction false} BrNewlinesAllSpace(s: string)
    ensures AllSpace(BrNewlines(s)) <==> AllSpace(s) && '\n' !in s
  {
    if s != [] {
      BrNewlinesAllSpace(s[1..]);
      var h := if s[0] == '\n' then "<br />" else [s[0]];
      assert s[0] == '\n' ==> !IsSpace(h[0]);
      assert BrNewlines(s) == h + BrNewlines(s[1..]);
      AllSpaceAppend(h, BrNewlines(s[1..]));
      AllSpaceAppend([s[0]], s[1..]);
      assert s == [s[0]] + s[1..];
    }
  }

  lemma AllSpaceAppend(a: string, b: string)
    ensures AllSpace(a + b) <==> AllSpace(a) && AllSpace(b)
  {
    if AllSpace(a) && AllSpace(b) {
      forall i | 0 <= i < |a + b| ensures IsSpace((a + b)[i]) {
        if i >= |a| { assert (a + b)[i] == b[i - |a|]; }
      }
    }
    if AllSpace(a + b) {
      forall i | 0 <= i < |b| ensures IsSpace(b[i]) {
        assert (a + b)[|a| + i] == b[i];
      }
      forall i | 0 <= i < |a| ensures IsSpace(a[i]) {
        assert (a + b)[i] == a[i];
      }
    }
  }
}
