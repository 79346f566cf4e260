/**
 * `_prepare_patterns`: the find/replace patterns for a token→value mapping. Entries are taken
 * in mapping order; an entry whose value is null is skipped; each key's tokens are ordered
 * bracketed first, then longest first; a token already claimed by an earlier pattern is not
 * used again, so the earlier entry wins.
 */
module Patterns {
  import opened Wrappers
  import opened Text
  import opened Variants

  /** A compiled pattern: the literal token, matched ignoring case, and its replacement. */
  datatype Pattern = Pattern(token: string, replacement: string)

  /** One mapping item: the key and its value, `None` for a JSON null. */
  datatype Entry = Entry(key: string, value: Option<string>)

  /** The first component of the sort key: bracketed tokens sort first. */
  function Rank(t: string): nat
  {
    if IsBracketed(t) then 0 else 1
  }

  /** `a` sorts strictly before `b` under the key `(rank, -len)`. */
  predicate Before(a: string, b: string)
  {
    Rank(a) < Rank(b) || (Rank(a) == Rank(b) && |a| > |b|)
  }

  predicate SortedByKey(ts: seq<string>)
  {
    forall i, j :: 0 <= i < j < |ts| ==> !Before(ts[j], ts[i])
  }

  /** Places `t` after every element whose key is not greater, as a stable sort does with a
      later element. */
  function Insert(t: string, sorted: seq<string>): (r: seq<string>)
    ensures |r| == |sorted| + 1
  {
    if sorted == [] then [t]
    else if Before(t, sorted[0]) then [t] + sorted
    else [sorted[0]] + Insert(t, sorted[1..])
  }

  /** `tokens.sort(key=...)`: a stable sort by `(rank, -len)`. */
  function SortTokens(ts: seq<string>): (r: seq<string>)
    ensures |r| == |ts|
  {
    if ts == [] then [] else Insert(ts[|ts| - 1], SortTokens(ts[..|ts| - 1]))
  }

  /** Inserting keeps every element and adds `t`. */
  lemma {:induction false} InsertMultiset(t: string, sorted: seq<string>)
    ensures multiset(Insert(t, sorted)) == multiset(sorted) + multiset{t}
  {
    if sorted != [] && !Before(t, sorted[0]) {
      InsertMultiset(t, sorted[1..]);
      assert sorted == [sorted[0]] + sorted[1..];
    }
  }

  lemma {:induction false} InsertSorted(t: string, sorted: seq<string>)
    requires SortedByKey(sorted)
    ensures SortedByKey(Insert(t, sorted))
  {
    if sorted != [] && !Before(t, sorted[0]) {
      var rest := sorted[1..];
      assert SortedByKey(rest);
      InsertSorted(t, rest);
      InsertMultiset(t, rest);
      var ins := Insert(t, rest);
      forall k | 0 <= k < |ins| ensures !Before(ins[k], sorted[0]) {
        assert ins[k] in multiset(ins);
        if ins[k] != t {
          var m :| 0 <= m < |rest| && rest[m] == ins[k];
          assert rest[m] == sorted[m + 1];
        }
      }
    }
  }

  /** The sort orders the tokens and keeps each of them. */
  lemma {:induction false} SortTokensSorted(ts: seq<string>)
    ensures SortedByKey(SortTokens(ts))
    ensures multiset(SortTokens(ts)) == multiset(ts)
  {
    if ts != [] {
      var init := ts[..|ts| - 1];
      SortTokensSorted(init);
      InsertSorted(ts[|ts| - 1], SortTokens(init));
      InsertMultiset(ts[|ts| - 1], SortTokens(init));
      assert ts == init + [ts[|ts| - 1]];
    }
  }

  /** A key's tokens already come in sort order, so the sort leaves them as they are. */
  lemma SortVariants(rawKey: string)
    ensures SortTokens(ExpandVariants(rawKey)) == ExpandVariants(rawKey)
  {
    var r := ExpandVariants(rawKey);
    if |r| == 2 {
      var key := Trim(rawKey);
      ExpandCases(rawKey);
      ExpandBracketed(rawKey);
      SortPair(r, key, Inner(key));
    } else if |r| == 1 {
      SortSingle(r);
    }
  }

  lemma SortSingle(r: seq<string>)
    requires |r| == 1
    ensures SortTokens(r) == r
  {
    assert r[..0] == [];
  }

  lemma SortPair(r: seq<string>, first: string, second: string)
    requires |r| == 2 && r[0] == first && r[1] == second
    requires IsBracketed(first) && |second| >= 1 && second[0] == '_'
    ensures SortTokens(r) == r
  {
    assert r[..1] == [first];
    assert [first][..0] == [];
    assert SortTokens([first]) == [first];
    assert !Before(second, first);
    assert Insert(second, [first]) == [first] + Insert(second, []);
    assert r == [first] + [second];
  }

  /** Only a bracketed key yields two tokens, and then the second is an underscore run. */
  lemma ExpandCases(rawKey: string)
    ensures |ExpandVariants(rawKey)| == 2 ==>
      IsBracketed(Trim(rawKey)) && IsUnderscoreRun(Inner(Trim(rawKey)))
  {
    var key := Trim(rawKey);
    if key != [] && IsBracketed(key) {
      ExpandBracketed(rawKey);
    } else if key != [] && IsUnderscoreRun(key) {
      ExpandUnderscores(rawKey);
    } else if key != [] && (' ' in key || '_' in key) {
      ExpandDisplay(rawKey);
    }
  }

  /** The tokens claimed by a list of patterns. */
  function TokenSet(ps: seq<Pattern>): set<string>
  {
    if ps == [] then {} else TokenSet(ps[..|ps| - 1]) + {ps[|ps| - 1].token}
  }

  /** `token.strip()` of every token. */
  function TrimAll(ts: seq<string>): seq<string>
  {
    seq(|ts|, i requires 0 <= i < |ts| => Trim(ts[i]))
  }

  /** The patterns one entry adds from its stripped token keys, given the keys `seen` so far:
      an empty or already-seen key is skipped, a new one is claimed. */
  function EntryPatterns(keys: seq<string>, value: string, seen: set<string>): seq<Pattern>
  {
    if keys == [] then []
    else if keys[0] == [] || keys[0] in seen then EntryPatterns(keys[1..], value, seen)
    else [Pattern(keys[0], value)] + EntryPatterns(keys[1..], value, seen + {keys[0]})
  }

  /** The stripped keys of an entry's tokens, in sort order. */
  function EntryKeys(e: Entry): seq<string>
  {
    TrimAll(SortTokens(ExpandVariants(e.key)))
  }

  /** The list `_prepare_patterns` returns. */
  function Prepared(mapping: seq<Entry>): seq<Pattern>
  {
    if mapping == [] then []
    else
      var ps := Prepared(mapping[..|mapping| - 1]);
      var e := mapping[|mapping| - 1];
      if e.value.None? then ps
      else ps + EntryPatterns(EntryKeys(e), e.value.value, TokenSet(ps))
  }

  method PreparePatterns(mapping: seq<Entry>) returns (patterns: seq<Pattern>)
    ensures patterns == Prepared(mapping)
  {
    patterns := [];
    var seen: set<string> := {};
    var i := 0;
    while i < |mapping|
      invariant i <= |mapping|
      invariant patterns == Prepared(mapping[..i])
      invariant seen == TokenSet(patterns)
    {
      assert mapping[..i + 1][..i] == mapping[..i];
      var e := mapping[i];
      if e.value.Some? {
        var tokens := SortTokens(ExpandVariants(e.key));
        patterns, seen := AddTokens(patterns, seen, tokens, e.value.value);
      }
      i := i + 1;
    }
    assert mapping[..i] == mapping;
  }

  /** The loop over one entry's tokens: strip each, skip empty and already-seen keys, claim
      the rest. */
  method AddTokens(patterns: seq<Pattern>, seen: set<string>, tokens: seq<string>, value: string)
    returns (patterns': seq<Pattern>, seen': set<string>)
    requires seen == TokenSet(patterns)
    ensures patterns' == patterns + EntryPatterns(TrimAll(tokens), value, seen)
    ensures seen' == TokenSet(patterns')
  {
    ghost var keys := TrimAll(tokens);
    patterns', seen' := patterns, seen;
    var j := 0;
    assert keys[j..] == keys;
    while j < |tokens|
      invariant j <= |tokens|
      invariant seen' == TokenSet(patterns')
      invariant patterns' + EntryPatterns(keys[j..], value, seen')
        == patterns + EntryPatterns(keys, value, seen)
    {
      var tokenKey := Trim(tokens[j]);
      assert keys[j..][0] == tokenKey && keys[j..][1..] == keys[j + 1..];
      EntryPatternsStep(patterns', keys[j..], value, seen');
      if tokenKey != [] && tokenKey !in seen' {
        TokenSetPush(patterns', Pattern(tokenKey, value));
        seen' := seen' + {tokenKey};
        patterns' := patterns' + [Pattern(tokenKey, value)];
      }
      j := j + 1;
    }
    assert keys[j..] == [];
  }

  /** One step of the loop over an entry's keys, seen from the patterns built so far. */
  lemma EntryPatternsStep(done: seq<Pattern>, keys: seq<string>, value: string, seen: set<string>)
    requires keys != []
    ensures var k0 := keys[0];
      if k0 == [] || k0 in seen then
        done + EntryPatterns(keys, value, seen) == done + EntryPatterns(keys[1..], value, seen)
      else
        done + EntryPatterns(keys, value, seen)
          == (done + [Pattern(k0, value)]) + EntryPatterns(keys[1..], value, seen + {k0})
  {
    var k0 := keys[0];
    if !(k0 == [] || k0 in seen) {
      var rest := EntryPatterns(keys[1..], value, seen + {k0});
      assert done + ([Pattern(k0, value)] + rest) == (done + [Pattern(k0, value)]) + rest;
    }
  }

  lemma TokenSetPush(ps: seq<Pattern>, p: Pattern)
    ensures TokenSet(ps + [p]) == TokenSet(ps) + {p.token}
  {
    assert (ps + [p])[..|ps|] == ps;
  }

  /** Every token in a token set belongs to some pattern, and conversely. */
  lemma {:induction false} TokenSetMembers(ps: seq<Pattern>)
    ensures forall t :: t in TokenSet(ps) <==> exists k :: 0 <= k < |ps| && ps[k].token == t
  {
    if ps != [] {
      TokenSetMembers(ps[..|ps| - 1]);
    }
  }

  predicate DistinctTokens(ps: seq<Pattern>)
  {
    forall i, j :: 0 <= i < j < |ps| ==> ps[i].token != ps[j].token
  }

  predicate NonEmptyTokens(ps: seq<Pattern>)
  {
    forall i :: 0 <= i < |ps| ==> ps[i].token != []
  }

  /** The non-empty keys among `keys`. */
  function ClaimSet(keys: seq<string>): set<string>
  {
    if keys == [] then {}
    else (if keys[0] != [] then {keys[0]} else {}) + ClaimSet(keys[1..])
  }

  /** An empty or already-claimed key adds nothing. */
  lemma EntryPatternsSkip(keys: seq<string>, value: string, seen: set<string>)
    requires keys != [] && (keys[0] == [] || keys[0] in seen)
    ensures EntryPatterns(keys, value, seen) == EntryPatterns(keys[1..], value, seen)
  {
  }

  /** A new key gives the first pattern; the rest follow with that key claimed. */
  lemma EntryPatternsTake(keys: seq<string>, value: string, seen: set<string>)
    requires keys != [] && keys[0] != [] && keys[0] !in seen
    ensures var eps := EntryPatterns(keys, value, seen);
      var tail := EntryPatterns(keys[1..], value, seen + {keys[0]});
      |eps| == |tail| + 1 && eps[0] == Pattern(keys[0], value) &&
      forall k :: 0 < k < |eps| ==> eps[k] == tail[k - 1]
  {
  }

  /** What one entry adds: new, non-empty tokens, all with the entry's value. */
  lemma {:induction false} EntryPatternsFresh(keys: seq<string>, value: string, seen: set<string>)
    ensures var eps := EntryPatterns(keys, value, seen);
      NonEmptyTokens(eps) &&
      forall k :: 0 <= k < |eps| ==> eps[k].token !in seen && eps[k].replacement == value
  {
    if keys != [] {
      var tk := keys[0];
      if tk == [] || tk in seen {
        EntryPatternsSkip(keys, value, seen);
        EntryPatternsFresh(keys[1..], value, seen);
      } else {
        EntryPatternsTake(keys, value, seen);
        EntryPatternsFresh(keys[1..], value, seen + {tk});
      }
    }
  }

  /** The tokens one entry adds are distinct, and the claimed set grows by exactly the
      entry's non-empty keys. */
  lemma {:induction false} EntryPatternsClaims(keys: seq<string>, value: string, seen: set<string>)
    ensures var eps := EntryPatterns(keys, value, seen);
      DistinctTokens(eps) && seen + TokenSet(eps) == seen + ClaimSet(keys)
  {
    if keys != [] {
      var tk := keys[0];
      if tk == [] || tk in seen {
        EntryPatternsSkip(keys, value, seen);
        EntryPatternsClaims(keys[1..], value, seen);
      } else {
        var seen' := seen + {tk};
        EntryPatternsTake(keys, value, seen);
        EntryPatternsClaims(keys[1..], value, seen');
        EntryPatternsFresh(keys[1..], value, seen');
        var rest := EntryPatterns(keys[1..], value, seen');
        var eps := EntryPatterns(keys, value, seen);
        assert eps == [Pattern(tk, value)] + rest;
        TokenSetAppend([Pattern(tk, value)], rest);
        assert TokenSet([Pattern(tk, value)]) == {tk};
        forall i, j | 0 <= i < j < |eps| ensures eps[i].token != eps[j].token {
          assert eps[j] == rest[j - 1];
          if i > 0 {
            assert eps[i] == rest[i - 1];
          }
        }
      }
    }
  }

  /** No token appears in two patterns, and none is empty. */
  lemma {:induction false} PreparedDistinct(mapping: seq<Entry>)
    ensures DistinctTokens(Prepared(mapping)) && NonEmptyTokens(Prepared(mapping))
  {
    if mapping != [] {
      var init := mapping[..|mapping| - 1];
      var e := mapping[|mapping| - 1];
      PreparedDistinct(init);
      if e.value.Some? {
        var ps := Prepared(init);
        var eps := EntryPatterns(EntryKeys(e), e.value.value, TokenSet(ps));
        EntryPatternsFresh(EntryKeys(e), e.value.value, TokenSet(ps));
        EntryPatternsClaims(EntryKeys(e), e.value.value, TokenSet(ps));
        TokenSetMembers(ps);
        AppendDistinct(ps, eps);
      }
    }
  }

  lemma AppendDistinct(ps: seq<Pattern>, eps: seq<Pattern>)
    requires DistinctTokens(ps) && NonEmptyTokens(ps) && DistinctTokens(eps) && NonEmptyTokens(eps)
    requires forall k, m :: 0 <= k < |eps| && 0 <= m < |ps| ==> eps[k].token != ps[m].token
    ensures DistinctTokens(ps + eps) && NonEmptyTokens(ps + eps)
  {
    var all := ps + eps;
    forall i, j | 0 <= i < j < |all| ensures all[i].token != all[j].token {
      if j >= |ps| {
        assert all[j] == eps[j - |ps|];
        if i >= |ps| {
          assert all[i] == eps[i - |ps|];
        }
      }
    }
  }

  /** The keys of an entry with a value, as the patterns use them. */
  function Claims(e: Entry): set<string>
  {
    if e.value.None? then {} else ClaimSet(EntryKeys(e))
  }

  /** The tokens claimed by all entries of a mapping. */
  function ClaimedBy(mapping: seq<Entry>): set<string>
  {
    if mapping == [] then {} else ClaimedBy(mapping[..|mapping| - 1]) + Claims(mapping[|mapping| - 1])
  }

  /** The patterns claim exactly the tokens of the entries with a value. */
  lemma {:induction false} PreparedTokens(mapping: seq<Entry>)
    ensures TokenSet(Prepared(mapping)) == ClaimedBy(mapping)
  {
    if mapping != [] {
      var init := mapping[..|mapping| - 1];
      var e := mapping[|mapping| - 1];
      PreparedTokens(init);
      var ps := Prepared(init);
      if e.value.Some? {
        var eps := EntryPatterns(EntryKeys(e), e.value.value, TokenSet(ps));
        EntryPatternsClaims(EntryKeys(e), e.value.value, TokenSet(ps));
        TokenSetAppend(ps, eps);
      }
    }
  }

  lemma {:induction false} TokenSetAppend(a: seq<Pattern>, b: seq<Pattern>)
    ensures TokenSet(a + b) == TokenSet(a) + TokenSet(b)
    decreases |b|
  {
    if b == [] {
      assert a + b == a;
    } else {
      assert (a + b)[..|a + b| - 1] == a + b[..|b| - 1];
      TokenSetAppend(a, b[..|b| - 1]);
    }
  }

  /** An entry whose value is null adds nothing. */
  lemma NoneSkipped(mapping: seq<Entry>, key: string)
    ensures Prepared(mapping + [Entry(key, None)]) == Prepared(mapping)
  {
    var m := mapping + [Entry(key, None)];
    assert m[..|m| - 1] == mapping;
  }
}
