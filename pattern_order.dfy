/**
 * The order `_prepare_patterns` gives its patterns: the pattern for a token comes from the
 * first entry that claims it, and one entry's patterns keep the sort order of its tokens.
 */
module PatternOrder {
  import opened Wrappers
  import opened Text
  import opened Variants
  import opened Patterns

  /** A token no entry of `mapping` claims is not in their claimed set. */
  lemma {:induction false} NotClaimedBefore(mapping: seq<Entry>, t: string)
    requires forall j :: 0 <= j < |mapping| ==> t !in Claims(mapping[j])
    ensures t !in ClaimedBy(mapping)
  {
    if mapping != [] {
      var init := mapping[..|mapping| - 1];
      forall j | 0 <= j < |init| ensures t !in Claims(init[j]) {
        assert init[j] == mapping[j];
      }
      NotClaimedBefore(init, t);
    }
  }

  /** The first entry that claims a token gives the pattern for it: later entries never
      overwrite an earlier one's token. */
  lemma {:induction false} PreparedFirstWins(mapping: seq<Entry>, i: nat, t: string) returns (k: nat)
    requires i < |mapping| && t in Claims(mapping[i])
    requires forall j :: 0 <= j < i ==> t !in Claims(mapping[j])
    ensures k < |Prepared(mapping)| && Prepared(mapping)[k] == Pattern(t, mapping[i].value.value)
  {
    var init := mapping[..|mapping| - 1];
    if i < |mapping| - 1 {
      forall j | 0 <= j < i ensures t !in Claims(init[j]) {
        assert init[j] == mapping[j];
      }
      assert init[i] == mapping[i];
      k := PreparedFirstWins(init, i, t);
      PreparedPrefix(mapping);
    } else {
      k := LastEntryClaims(mapping, t);
    }
  }

  /** The last entry's claim of a token no earlier entry claims. */
  lemma LastEntryClaims(mapping: seq<Entry>, t: string) returns (k: nat)
    requires mapping != [] && t in Claims(mapping[|mapping| - 1])
    requires forall j :: 0 <= j < |mapping| - 1 ==> t !in Claims(mapping[j])
    ensures k < |Prepared(mapping)| && Prepared(mapping)[k] == Pattern(t, mapping[|mapping| - 1].value.value)
  {
    var e := mapping[|mapping| - 1];
    assert e.value.Some?;
    var ps := Prepared(mapping[..|mapping| - 1]);
    InitUnclaimed(mapping, t);
    var keys := EntryKeys(e);
    var idx := ClaimSetIndex(keys, t);
    var m := ClaimedByEntry(keys, e.value.value, TokenSet(ps), t, idx);
    PreparedLast(mapping);
    AppendIndex(ps, EntryPatterns(keys, e.value.value, TokenSet(ps)), m);
    k := |ps| + m;
  }

  /** A token no entry before the last claims has no pattern before the last entry's. */
  lemma InitUnclaimed(mapping: seq<Entry>, t: string)
    requires mapping != []
    requires forall j :: 0 <= j < |mapping| - 1 ==> t !in Claims(mapping[j])
    ensures t !in TokenSet(Prepared(mapping[..|mapping| - 1]))
  {
    var init := mapping[..|mapping| - 1];
    PreparedTokens(init);
    forall j | 0 <= j < |init| ensures t !in Claims(init[j]) {
      assert init[j] == mapping[j];
    }
    NotClaimedBefore(init, t);
  }

  /** The patterns of a mapping whose last entry has a value. */
  lemma PreparedLast(mapping: seq<Entry>)
    requires mapping != [] && mapping[|mapping| - 1].value.Some?
    ensures var ps := Prepared(mapping[..|mapping| - 1]);
      var e := mapping[|mapping| - 1];
      Prepared(mapping) == ps + EntryPatterns(EntryKeys(e), e.value.value, TokenSet(ps))
  {
  }

  lemma AppendIndex(ps: seq<Pattern>, eps: seq<Pattern>, m: nat)
    requires m < |eps|
    ensures |ps| + m < |ps + eps| && (ps + eps)[|ps| + m] == eps[m]
  {
  }

  /** Patterns only accumulate: the patterns of a prefix of the mapping stay in front. */
  lemma PreparedPrefix(mapping: seq<Entry>)
    requires mapping != []
    ensures Prepared(mapping[..|mapping| - 1]) <= Prepared(mapping)
  {
  }

  lemma {:induction false} ClaimSetIndex(keys: seq<string>, t: string) returns (idx: nat)
    requires t in ClaimSet(keys)
    ensures idx < |keys| && keys[idx] == t && t != []
  {
    if keys[0] == t && t != [] {
      idx := 0;
    } else {
      var j := ClaimSetIndex(keys[1..], t);
      idx := j + 1;
    }
  }

  /** A claimed key not yet seen gets a pattern with the entry's value. */
  lemma {:induction false} ClaimedByEntry(keys: seq<string>, value: string, seen: set<string>, t: string, idx: nat)
    returns (k: nat)
    requires idx < |keys| && keys[idx] == t && t != [] && t !in seen
    ensures k < |EntryPatterns(keys, value, seen)| && EntryPatterns(keys, value, seen)[k] == Pattern(t, value)
  {
    var tk := keys[0];
    if tk == t {
      EntryPatternsTake(keys, value, seen);
      k := 0;
    } else {
      assert keys[1..][idx - 1] == keys[idx];
      if tk == [] || tk in seen {
        EntryPatternsSkip(keys, value, seen);
        k := ClaimedByEntry(keys[1..], value, seen, t, idx - 1);
      } else {
        EntryPatternsTake(keys, value, seen);
        var m := ClaimedByEntry(keys[1..], value, seen + {tk}, t, idx - 1);
        k := m + 1;
      }
    }
  }

  /** Every pattern an entry adds carries one of its keys. */
  lemma {:induction false} EntryPatternsFrom(keys: seq<string>, value: string, seen: set<string>, k: nat)
    returns (idx: nat)
    requires k < |EntryPatterns(keys, value, seen)|
    ensures idx < |keys| && EntryPatterns(keys, value, seen)[k].token == keys[idx]
  {
    var tk := keys[0];
    if tk == [] || tk in seen {
      EntryPatternsSkip(keys, value, seen);
      var m := EntryPatternsFrom(keys[1..], value, seen, k);
      idx := m + 1;
    } else {
      EntryPatternsTake(keys, value, seen);
      if k == 0 {
        idx := 0;
      } else {
        var m := EntryPatternsFrom(keys[1..], value, seen + {tk}, k - 1);
        idx := m + 1;
      }
    }
  }

  /** The patterns an entry adds keep the sorted order of its keys: bracketed ones first,
      then longer before shorter. */
  lemma {:induction false} EntryPatternsOrdered(keys: seq<string>, value: string, seen: set<string>)
    requires SortedByKey(keys)
    ensures var eps := EntryPatterns(keys, value, seen);
      forall i, j :: 0 <= i < j < |eps| ==> !Before(eps[j].token, eps[i].token)
  {
    if keys != [] {
      var tk := keys[0];
      var rest := keys[1..];
      assert SortedByKey(rest);
      if tk == [] || tk in seen {
        EntryPatternsSkip(keys, value, seen);
        EntryPatternsOrdered(rest, value, seen);
      } else {
        EntryPatternsTake(keys, value, seen);
        EntryPatternsOrdered(rest, value, seen + {tk});
        var eps := EntryPatterns(keys, value, seen);
        var tail := EntryPatterns(rest, value, seen + {tk});
        forall i, j | 0 <= i < j < |eps| ensures !Before(eps[j].token, eps[i].token) {
          assert eps[j] == tail[j - 1];
          if i == 0 {
            HeadBeforeTail(keys, value, seen + {tk}, j - 1);
          } else {
            assert eps[i] == tail[i - 1];
          }
        }
      }
    }
  }

  lemma HeadBeforeTail(keys: seq<string>, value: string, seen: set<string>, k: nat)
    requires keys != [] && SortedByKey(keys)
    requires k < |EntryPatterns(keys[1..], value, seen)|
    ensures !Before(EntryPatterns(keys[1..], value, seen)[k].token, keys[0])
  {
    var m := EntryPatternsFrom(keys[1..], value, seen, k);
    assert keys[1..][m] == keys[m + 1];
  }

  /** Stripping tokens that have no surrounding whitespace changes nothing. */
  lemma TrimAllTrimmed(ts: seq<string>)
    requires forall k :: 0 <= k < |ts| ==> IsTrimmed(ts[k])
    ensures TrimAll(ts) == ts
  {
    forall k | 0 <= k < |ts| ensures TrimAll(ts)[k] == ts[k] {
      TrimOfTrimmed(ts[k]);
    }
  }

  /** Within one entry, the patterns come bracketed first and longest first. */
  lemma EntryOrdered(mapping: seq<Entry>, key: string, value: string)
    ensures var added := Prepared(mapping + [Entry(key, Some(value))])[|Prepared(mapping)|..];
      forall i, j :: 0 <= i < j < |added| ==> !Before(added[j].token, added[i].token)
  {
    var m := mapping + [Entry(key, Some(value))];
    assert m[..|m| - 1] == mapping;
    var e := Entry(key, Some(value));
    var ps := Prepared(mapping);
    var tokens := SortTokens(ExpandVariants(key));
    SortTokensSorted(ExpandVariants(key));
    ExpandTrimmed(key);
    forall k | 0 <= k < |tokens| ensures IsTrimmed(tokens[k]) {
      assert tokens[k] in multiset(ExpandVariants(key));
    }
    TrimAllTrimmed(tokens);
    EntryPatternsOrdered(tokens, value, TokenSet(ps));
    assert Prepared(m)[|ps|..] == EntryPatterns(EntryKeys(e), value, TokenSet(ps));
  }
}
