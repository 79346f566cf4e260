/**
 * `extract_placeholders`: every counted match of every paragraph, tallied in an ordered
 * dictionary keyed by the snake-case key; the first occurrence of a key fixes its label and
 * its place in the output, later ones only raise its count.
 */
module Extract {
  import opened Wrappers
  import opened Text
  import opened SnakeCase
  import opened PlaceholderScan
  import opened Highlight
  import opened Docx
  import opened Preview

  const BlankKey: string := "blank"
  const BlankLabel: string := "Blank"

  /** A counted match: the key it is filed under and the label it carries. */
  datatype Occurrence = Occurrence(key: string, labelText: string)

  /** The value the ordered dictionary holds for a key. */
  datatype Entry = Entry(labelText: string, occurrences: nat)

  /** The ordered dictionary: its keys in insertion order, and their entries. */
  datatype Tally = Tally(keys: seq<string>, entries: map<string, Entry>)

  /** One element of the response. */
  datatype ParsedPlaceholder = ParsedPlaceholder(key: string, labelText: string, occurrences: nat)

  /** What one match contributes: a blank always counts as `blank`/`Blank`; a bracket match
      counts under the snake case of its normalised inner text unless that text or its key
      is empty. */
  function MatchOccurrence(text: string, m: Match): Option<Occurrence>
    requires m.start + 2 <= m.end <= |text|
  {
    match m
    case Bracket(s, e) => LabelOccurrence(NormalizeSpace(text[s + 1..e - 1]))
    case Blank(_, _) => Some(Occurrence(BlankKey, BlankLabel))
  }

  /** A bracket match with normalised inner text `labelText`. */
  function LabelOccurrence(labelText: string): Option<Occurrence>
  {
    if labelText == [] then None
    else if ToSnakeCase(labelText) == [] then None
    else Some(Occurrence(ToSnakeCase(labelText), labelText))
  }

  /** The occurrence a match contributes, if any, as a list. */
  function Counts(r: Option<Occurrence>): seq<Occurrence>
  {
    match r
    case Some(o) => [o]
    case None => []
  }

  predicate InText(text: string, ms: seq<Match>)
  {
    forall m :: m in ms ==> m.start + 2 <= m.end <= |text|
  }

  function MatchesOccurrences(text: string, ms: seq<Match>): seq<Occurrence>
    requires InText(text, ms)
  {
    if ms == [] then []
    else
      Counts(MatchOccurrence(text, ms[0])) + MatchesOccurrences(text, ms[1..])
  }

  /** The occurrences of one paragraph, from its joined run texts. */
  function ParagraphOccurrences(runs: seq<string>): seq<Occurrence>
  {
    var text := ParagraphText(runs);
    if runs == [] || text == [] then [] else MatchesOccurrences(text, Scan(text))
  }

  /** The occurrences of a list of paragraphs, in order. */
  function DocumentOccurrences(paragraphs: seq<seq<string>>): seq<Occurrence>
  {
    if paragraphs == [] then []
    else DocumentOccurrences(paragraphs[..|paragraphs| - 1]) + ParagraphOccurrences(paragraphs[|paragraphs| - 1])
  }

  /** `["occurrences"] += 1` on one entry. */
  function Bump(e: Entry): Entry
  {
    e.(occurrences := e.occurrences + 1)
  }

  /** `placeholders.setdefault(key, {"label": label, "occurrences": 0})["occurrences"] += 1` */
  function Upsert(t: Tally, o: Occurrence): Tally
  {
    if o.key in t.entries then
      Tally(t.keys, t.entries[o.key := Bump(t.entries[o.key])])
    else
      Tally(t.keys + [o.key], t.entries[o.key := Entry(o.labelText, 1)])
  }

  function TallyOf(occ: seq<Occurrence>): (t: Tally)
    ensures forall k :: k in t.keys ==> k in t.entries
  {
    if occ == [] then Tally([], map[]) else Upsert(TallyOf(occ[..|occ| - 1]), occ[|occ| - 1])
  }

  /** The list built from the dictionary's items, in key order. */
  function Emit(keys: seq<string>, entries: map<string, Entry>): seq<ParsedPlaceholder>
    requires forall k :: k in keys ==> k in entries
  {
    if keys == [] then []
    else
      var k := keys[|keys| - 1];
      Emit(keys[..|keys| - 1], entries) + [ParsedPlaceholder(k, entries[k].labelText, entries[k].occurrences)]
  }

  /** What `extract_placeholders` returns for a document whose paragraphs are `paragraphs`. */
  function Extracted(paragraphs: seq<seq<string>>): seq<ParsedPlaceholder>
  {
    var t := TallyOf(DocumentOccurrences(paragraphs));
    Emit(t.keys, t.entries)
  }

  method ExtractPlaceholders(blocks: seq<Block>) returns (result: seq<ParsedPlaceholder>)
    ensures result == Extracted(BlocksParagraphs(blocks))
  {
    var paragraphs := BlocksParagraphs(blocks);
    var keys: seq<string> := [];
    var entries: map<string, Entry> := map[];
    ghost var seen: seq<Occurrence> := [];
    var i := 0;
    while i < |paragraphs|
      invariant i <= |paragraphs|
      invariant Tally(keys, entries) == TallyOf(seen)
      invariant seen == DocumentOccurrences(paragraphs[..i])
    {
      DocumentStep(paragraphs, i);
      var runs := paragraphs[i];
      var text := Concat(runs);
      if runs != [] && text != [] {
        keys, entries := TallyParagraph(text, keys, entries, seen);
      } else {
        assert seen + ParagraphOccurrences(runs) == seen;
      }
      seen := seen + ParagraphOccurrences(runs);
      i := i + 1;
    }
    assert paragraphs[..i] == paragraphs;
    result := Emit(keys, entries);
  }

  /** The inner loop of `extract_placeholders`: the matches of one non-empty paragraph
      text, each counted match recorded in the dictionary. */
  method TallyParagraph(text: string, keys: seq<string>, entries: map<string, Entry>, ghost seen: seq<Occurrence>)
    returns (keys': seq<string>, entries': map<string, Entry>)
    requires Tally(keys, entries) == TallyOf(seen)
    ensures Tally(keys', entries') == TallyOf(seen + MatchesOccurrences(text, Scan(text)))
  {
    keys', entries' := keys, entries;
    var ms := Scan(text);
    ghost var done := seen;
    assert ms[0..] == ms;
    var k := 0;
    while k < |ms|
      invariant k <= |ms|
      invariant InText(text, ms[k..])
      invariant Tally(keys', entries') == TallyOf(done)
      invariant done + MatchesOccurrences(text, ms[k..]) == seen + MatchesOccurrences(text, ms)
    {
      MatchesStep(text, ms, k);
      var found, key, labelText := MatchKey(text, ms[k]);
      ghost var rest := MatchesOccurrences(text, ms[k + 1..]);
      ghost var step := Counts(MatchOccurrence(text, ms[k]));
      SeenStep(done, step, rest);
      if found {
        keys', entries' := Record(keys', entries', key, labelText);
        TallySnoc(done, Occurrence(key, labelText));
      }
      done := done + step;
      k := k + 1;
    }
    assert ms[k..] == [];
    assert done == done + [];
  }

  /** `setdefault(key, {"label": label, "occurrences": 0})` followed by `+= 1`. */
  method Record(keys: seq<string>, entries: map<string, Entry>, key: string, labelText: string)
    returns (keys': seq<string>, entries': map<string, Entry>)
    ensures Tally(keys', entries') == Upsert(Tally(keys, entries), Occurrence(key, labelText))
  {
    keys', entries' := keys, entries;
    if key !in entries' {
      keys' := keys' + [key];
      entries' := entries'[key := Entry(labelText, 0)];
    }
    entries' := entries'[key := entries'[key].(occurrences := entries'[key].occurrences + 1)];
  }

  lemma SeenStep(seen: seq<Occurrence>, step: seq<Occurrence>, rest: seq<Occurrence>)
    ensures seen + (step + rest) == (seen + step) + rest
    ensures step == [] ==> seen + step == seen
  {
  }

  lemma TallySnoc(occ: seq<Occurrence>, o: Occurrence)
    ensures TallyOf(occ + [o]) == Upsert(TallyOf(occ), o)
  {
    assert (occ + [o])[..|occ|] == occ;
  }

  lemma DocumentStep(paragraphs: seq<seq<string>>, i: nat)
    requires i < |paragraphs|
    ensures DocumentOccurrences(paragraphs[..i + 1])
      == DocumentOccurrences(paragraphs[..i]) + ParagraphOccurrences(paragraphs[i])
  {
    assert paragraphs[..i + 1][..i] == paragraphs[..i];
  }

  lemma MatchesStep(text: string, ms: seq<Match>, k: nat)
    requires k < |ms| && InText(text, ms[k..])
    ensures ms[k] in ms[k..] && InText(text, ms[k + 1..])
    ensures MatchesOccurrences(text, ms[k..])
      == Counts(MatchOccurrence(text, ms[k])) + MatchesOccurrences(text, ms[k + 1..])
  {
    assert ms[k..][0] == ms[k] && ms[k..][1..] == ms[k + 1..];
  }

  /** The body of the inner loop before the dictionary update: the key and label of one match,
      or `found == false` when the match is skipped. */
  method MatchKey(text: string, m: Match) returns (found: bool, key: string, labelText: string)
    requires m.start + 2 <= m.end <= |text|
    ensures found <==> MatchOccurrence(text, m).Some?
    ensures found ==> MatchOccurrence(text, m) == Some(Occurrence(key, labelText))
  {
    if m.Blank? {
      return true, BlankKey, BlankLabel;
    }
    labelText := NormalizeSpace(text[m.start + 1..m.end - 1]);
    key := [];
    if labelText != [] {
      key := ToSnakeCase(labelText);
    }
    found := key != [];
    LabelKey(text, m, labelText, key);
  }

  lemma LabelKey(text: string, m: Match, labelText: string, key: string)
    requires m.start + 2 <= m.end <= |text| && m.Bracket?
    requires labelText == NormalizeSpace(text[m.start + 1..m.end - 1])
    requires key == if labelText == [] then [] else ToSnakeCase(labelText)
    ensures MatchOccurrence(text, m) == if key == [] then None else Some(Occurrence(key, labelText))
  {
  }

  // ---------------------------------------------------------------------------------------
  // Properties of the tally

  function KeysOf(occ: seq<Occurrence>): set<string>
  {
    set i | 0 <= i < |occ| :: occ[i].key
  }

  /** Index of the first occurrence filed under `k`. */
  function FirstIndex(occ: seq<Occurrence>, k: string): (r: nat)
    requires k in KeysOf(occ)
    ensures r < |occ| && occ[r].key == k
    ensures forall j :: 0 <= j < r ==> occ[j].key != k
  {
    var init := occ[..|occ| - 1];
    if k in KeysOf(init) then
      FirstIndex(init, k)
    else
      assert forall j :: 0 <= j < |init| ==> occ[j].key == init[j].key;
      |occ| - 1
  }

  /** How many occurrences are filed under `k`. */
  function CountKey(occ: seq<Occurrence>, k: string): nat
  {
    if occ == [] then 0
    else CountKey(occ[..|occ| - 1], k) + (if occ[|occ| - 1].key == k then 1 else 0)
  }

  predicate Distinct(keys: seq<string>)
  {
    forall i, j :: 0 <= i < j < |keys| ==> keys[i] != keys[j]
  }

  function Total(ps: seq<ParsedPlaceholder>): nat
  {
    if ps == [] then 0 else Total(ps[..|ps| - 1]) + ps[|ps| - 1].occurrences
  }

  /** The keys are listed once each, and they are the keys of the occurrences so far. */
  ghost predicate KeysInvariant(t: Tally, occ: seq<Occurrence>)
  {
    && Distinct(t.keys)
    && (forall k :: k in t.keys <==> k in t.entries)
    && t.entries.Keys == KeysOf(occ)
  }

  /** Each entry holds the label of its key's first occurrence and the key's count. */
  ghost predicate EntriesInvariant(t: Tally, occ: seq<Occurrence>)
    requires KeysInvariant(t, occ)
  {
    forall k :: k in t.entries ==> t.entries[k] == Entry(occ[FirstIndex(occ, k)].labelText, CountKey(occ, k))
  }

  /** The keys are listed in order of first appearance. */
  ghost predicate OrderInvariant(t: Tally, occ: seq<Occurrence>)
    requires KeysInvariant(t, occ)
  {
    forall i, j :: 0 <= i < j < |t.keys| ==> FirstIndex(occ, t.keys[i]) < FirstIndex(occ, t.keys[j])
  }

  /** What the dictionary holds after the occurrences `occ`. */
  ghost predicate TallyOfInvariant(t: Tally, occ: seq<Occurrence>)
  {
    && KeysInvariant(t, occ)
    && EntriesInvariant(t, occ)
    && OrderInvariant(t, occ)
    && Total(Emit(t.keys, t.entries)) == |occ|
  }

  lemma {:induction false} TallyFacts(occ: seq<Occurrence>)
    ensures TallyOfInvariant(TallyOf(occ), occ)
  {
    if occ != [] {
      var init := occ[..|occ| - 1];
      var o := occ[|occ| - 1];
      TallyFacts(init);
      var t := TallyOf(init);
      assert init + [o] == occ;
      assert TallyOf(occ) == Upsert(t, o);
      UpsertKeys(t, init, o);
      UpsertEntries(t, init, o);
      UpsertOrder(t, init, o);
      UpsertTotal(t, o);
    }
  }

  lemma KeysOfSnoc(occ: seq<Occurrence>, o: Occurrence)
    ensures KeysOf(occ + [o]) == KeysOf(occ) + {o.key}
  {
    var occ' := occ + [o];
    forall k | k in KeysOf(occ') ensures k in KeysOf(occ) + {o.key} {
      var i :| 0 <= i < |occ'| && occ'[i].key == k;
      if i < |occ| { assert occ[i].key == k; }
    }
    forall k | k in KeysOf(occ) ensures k in KeysOf(occ') {
      var i :| 0 <= i < |occ| && occ[i].key == k;
      assert occ'[i].key == k;
    }
    assert occ'[|occ|].key == o.key;
  }

  lemma FirstIndexSnoc(occ: seq<Occurrence>, o: Occurrence, k: string)
    requires k in KeysOf(occ + [o])
    ensures FirstIndex(occ + [o], k) == if k in KeysOf(occ) then FirstIndex(occ, k) else |occ|
  {
    assert (occ + [o])[..|occ|] == occ;
  }

  lemma CountKeySnoc(occ: seq<Occurrence>, o: Occurrence, k: string)
    ensures CountKey(occ + [o], k) == CountKey(occ, k) + (if o.key == k then 1 else 0)
  {
    assert (occ + [o])[..|occ|] == occ;
  }

  lemma UpsertKeys(t: Tally, occ: seq<Occurrence>, o: Occurrence)
    requires KeysInvariant(t, occ)
    ensures KeysInvariant(Upsert(t, o), occ + [o])
  {
    KeysOfSnoc(occ, o);
  }

  lemma UpsertEntries(t: Tally, occ: seq<Occurrence>, o: Occurrence)
    requires KeysInvariant(t, occ) && EntriesInvariant(t, occ)
    ensures KeysInvariant(Upsert(t, o), occ + [o])
    ensures EntriesInvariant(Upsert(t, o), occ + [o])
  {
    UpsertKeys(t, occ, o);
    KeysOfSnoc(occ, o);
    var t' := Upsert(t, o);
    forall k | k in t'.entries
      ensures t'.entries[k] == Entry((occ + [o])[FirstIndex(occ + [o], k)].labelText, CountKey(occ + [o], k))
    {
      UpsertEntryAt(t, occ, o, k);
    }
  }

  /** The entry of one key after an update. */
  lemma UpsertEntryAt(t: Tally, occ: seq<Occurrence>, o: Occurrence, k: string)
    requires t.entries.Keys == KeysOf(occ)
    requires k in t.entries ==> t.entries[k] == Entry(occ[FirstIndex(occ, k)].labelText, CountKey(occ, k))
    requires k in KeysOf(occ + [o])
    ensures k in Upsert(t, o).entries
    ensures Upsert(t, o).entries[k] == Entry((occ + [o])[FirstIndex(occ + [o], k)].labelText, CountKey(occ + [o], k))
  {
    KeysOfSnoc(occ, o);
    FirstIndexSnoc(occ, o, k);
    CountKeySnoc(occ, o, k);
    if k in t.entries {
      assert (occ + [o])[FirstIndex(occ, k)] == occ[FirstIndex(occ, k)];
      if k == o.key {
        var entries' := t.entries[o.key := Bump(t.entries[o.key])];
        assert Upsert(t, o) == Tally(t.keys, entries');
      } else {
        assert Upsert(t, o).entries[k] == t.entries[k];
      }
    } else {
      assert k == o.key;
      CountKeyAbsent(occ, k);
      assert (occ + [o])[|occ|] == o;
      assert Upsert(t, o).entries[k] == Entry(o.labelText, 1);
    }
  }

  lemma UpsertOrder(t: Tally, occ: seq<Occurrence>, o: Occurrence)
    requires KeysInvariant(t, occ) && OrderInvariant(t, occ)
    ensures KeysInvariant(Upsert(t, o), occ + [o])
    ensures OrderInvariant(Upsert(t, o), occ + [o])
  {
    UpsertKeys(t, occ, o);
    var t' := Upsert(t, o);
    forall i | 0 <= i < |t'.keys| ensures FirstIndex(occ + [o], t'.keys[i]) == (if i < |t.keys| then FirstIndex(occ, t.keys[i]) else |occ|) {
      FirstIndexSnoc(occ, o, t'.keys[i]);
      if i < |t.keys| {
        assert t'.keys[i] == t.keys[i] && t.keys[i] in t.entries;
      }
    }
  }

  /** Recording an occurrence raises the total of the emitted counts by one. */
  lemma UpsertTotal(t: Tally, o: Occurrence)
    requires Distinct(t.keys) && forall k :: k in t.keys <==> k in t.entries
    ensures forall k :: k in Upsert(t, o).keys ==> k in Upsert(t, o).entries
    ensures Total(Emit(Upsert(t, o).keys, Upsert(t, o).entries)) == Total(Emit(t.keys, t.entries)) + 1
  {
    if o.key in t.entries {
      var entries' := t.entries[o.key := Bump(t.entries[o.key])];
      assert Upsert(t, o) == Tally(t.keys, entries');
      TotalBump(t.keys, t.entries, o.key);
    } else {
      var e := Entry(o.labelText, 1);
      assert Upsert(t, o) == Tally(t.keys + [o.key], t.entries[o.key := e]);
      TotalIgnores(t.keys, t.entries, o.key, e);
      EmitPush(t.keys, t.entries[o.key := e], o.key);
    }
  }

  lemma EmitPush(keys: seq<string>, entries: map<string, Entry>, k: string)
    requires forall x :: x in keys ==> x in entries
    requires k in entries
    ensures Total(Emit(keys + [k], entries)) == Total(Emit(keys, entries)) + entries[k].occurrences
  {
    assert (keys + [k])[..|keys|] == keys;
  }

  lemma {:induction false} CountKeyAbsent(occ: seq<Occurrence>, k: string)
    requires k !in KeysOf(occ)
    ensures CountKey(occ, k) == 0
  {
    if occ != [] {
      var init := occ[..|occ| - 1];
      assert KeysOf(init) <= KeysOf(occ) by {
        forall x | x in KeysOf(init) ensures x in KeysOf(occ) {
          var i :| 0 <= i < |init| && init[i].key == x;
          assert occ[i].key == x;
        }
      }
      CountKeyAbsent(init, k);
    }
  }

  /** Changing the entry of a key that is not listed does not change the emitted list. */
  lemma {:induction false} TotalIgnores(keys: seq<string>, entries: map<string, Entry>, k: string, e: Entry)
    requires forall x :: x in keys ==> x in entries
    requires k !in keys
    ensures Emit(keys, entries[k := e]) == Emit(keys, entries)
  {
    if keys != [] {
      TotalIgnores(keys[..|keys| - 1], entries, k, e);
    }
  }

  /** Raising the count of one listed key raises the total by one. */
  lemma {:induction false} TotalBump(keys: seq<string>, entries: map<string, Entry>, k: string)
    requires forall x :: x in keys ==> x in entries
    requires Distinct(keys) && k in keys
    ensures Total(Emit(keys, entries[k := Bump(entries[k])]))
      == Total(Emit(keys, entries)) + 1
  {
    var init := keys[..|keys| - 1];
    var entries' := entries[k := Bump(entries[k])];
    if keys[|keys| - 1] == k {
      assert k !in init;
      TotalIgnores(init, entries, k, entries'[k]);
    } else {
      assert k in init by {
        var i :| 0 <= i < |keys| && keys[i] == k;
        assert init[i] == k;
      }
      TotalBump(init, entries, k);
    }
  }

  /** The response lists every key of the document's occurrences, each exactly once. */
  lemma ExtractedKeys(paragraphs: seq<seq<string>>)
    ensures var r := Extracted(paragraphs);
      forall i, j :: 0 <= i < j < |r| ==> r[i].key != r[j].key
    ensures var r := Extracted(paragraphs);
      forall k :: k in KeysOf(DocumentOccurrences(paragraphs)) <==> exists i :: 0 <= i < |r| && r[i].key == k
  {
    var occ := DocumentOccurrences(paragraphs);
    var t := TallyOf(occ);
    TallyKeys(occ);
    EmitShape(t.keys, t.entries);
    forall k | k in KeysOf(occ) ensures exists i :: 0 <= i < |t.keys| && t.keys[i] == k {
      assert k in t.keys;
    }
  }

  /** Each listed key carries the label of its first occurrence and the number of its
      occurrences, which is at least one. */
  lemma ExtractedEntries(paragraphs: seq<seq<string>>)
    ensures var occ := DocumentOccurrences(paragraphs);
      var r := Extracted(paragraphs);
      forall i :: 0 <= i < |r| ==>
        && r[i].key in KeysOf(occ)
        && r[i].labelText == occ[FirstIndex(occ, r[i].key)].labelText
        && r[i].occurrences == CountKey(occ, r[i].key) >= 1
  {
    var occ := DocumentOccurrences(paragraphs);
    var t := TallyOf(occ);
    TallyEntries(occ);
    EmitShape(t.keys, t.entries);
    forall k | k in KeysOf(occ) ensures CountKey(occ, k) >= 1 {
      CountKeyPresent(occ, k);
    }
  }

  /** The keys are listed in order of first appearance. */
  lemma ExtractedOrder(paragraphs: seq<seq<string>>)
    ensures var occ := DocumentOccurrences(paragraphs);
      var r := Extracted(paragraphs);
      forall i, j :: 0 <= i < j < |r| ==>
        && r[i].key in KeysOf(occ) && r[j].key in KeysOf(occ)
        && FirstIndex(occ, r[i].key) < FirstIndex(occ, r[j].key)
  {
    var occ := DocumentOccurrences(paragraphs);
    var t := TallyOf(occ);
    TallyOrder(occ);
    EmitShape(t.keys, t.entries);
  }

  lemma TallyKeys(occ: seq<Occurrence>)
    ensures KeysInvariant(TallyOf(occ), occ)
  {
    TallyFacts(occ);
  }

  lemma TallyEntries(occ: seq<Occurrence>)
    ensures KeysInvariant(TallyOf(occ), occ) && EntriesInvariant(TallyOf(occ), occ)
  {
    TallyFacts(occ);
  }

  lemma TallyOrder(occ: seq<Occurrence>)
    ensures KeysInvariant(TallyOf(occ), occ) && OrderInvariant(TallyOf(occ), occ)
  {
    TallyFacts(occ);
  }

  /** The counts add up to the number of occurrences. */
  lemma ExtractedTotal(paragraphs: seq<seq<string>>)
    ensures Total(Extracted(paragraphs)) == |DocumentOccurrences(paragraphs)|
  {
    TallyFacts(DocumentOccurrences(paragraphs));
  }

  lemma {:induction false} EmitShape(keys: seq<string>, entries: map<string, Entry>)
    requires forall k :: k in keys ==> k in entries
    ensures |Emit(keys, entries)| == |keys|
    ensures forall i :: 0 <= i < |keys| ==>
      Emit(keys, entries)[i] == ParsedPlaceholder(keys[i], entries[keys[i]].labelText, entries[keys[i]].occurrences)
  {
    if keys != [] {
      EmitShape(keys[..|keys| - 1], entries);
    }
  }

  lemma {:induction false} CountKeyPresent(occ: seq<Occurrence>, k: string)
    requires k in KeysOf(occ)
    ensures CountKey(occ, k) >= 1
  {
    var init := occ[..|occ| - 1];
    if occ[|occ| - 1].key != k {
      var i :| 0 <= i < |occ| && occ[i].key == k;
      assert init[i].key == k;
      CountKeyPresent(init, k);
    }
  }

  /** A match is an occurrence exactly when the preview counts it: an empty normalised
      inner text always gives an empty key, so the two skip conditions agree. */
  lemma OccurrenceIffCounted(text: string, m: Match)
    requires m.start + 2 <= m.end <= |text|
    ensures MatchOccurrence(text, m).Some? <==> Counted(text, m)
  {
    if m.Bracket? {
      assert Trim([]) == [];
      assert ToSnakeCase([]) == [];
    }
  }

  /** Every key is a non-empty snake-case identifier. */
  lemma OccurrenceKey(text: string, m: Match)
    requires m.start + 2 <= m.end <= |text| && MatchOccurrence(text, m).Some?
    ensures MatchOccurrence(text, m).value.key != []
    ensures IsSnake(MatchOccurrence(text, m).value.key)
    ensures m.Blank? ==> MatchOccurrence(text, m).value == Occurrence(BlankKey, BlankLabel)
  {
    if m.Bracket? {
      SnakeCaseChars(NormalizeSpace(text[m.start + 1..m.end - 1]));
    }
  }

  lemma {:induction false} MatchesCounted(text: string, ms: seq<Match>, last: nat)
    requires Chained(ms, last, |text|)
    ensures InText(text, ms)
    ensures |MatchesOccurrences(text, ms)| == CountCounted(text, ms, last)
  {
    if ms != [] {
      MatchesCounted(text, ms[1..], ms[0].end);
      OccurrenceIffCounted(text, ms[0]);
    }
  }

  /** A paragraph yields as many occurrences as its preview counts placeholders. */
  lemma ParagraphOccurrencesCount(runs: seq<string>)
    ensures |ParagraphOccurrences(runs)| == PlaceholderCount(ParagraphText(runs))
  {
    var text := ParagraphText(runs);
    if runs != [] && text != [] {
      MatchesCounted(text, Scan(text), 0);
    }
  }

  /** The occurrence counts of `/parse` add up to the placeholder total of the preview. */
  lemma {:induction false} ExtractTotalMatchesPreview(paragraphs: seq<seq<string>>)
    ensures Total(Extracted(paragraphs)) == PlaceholderSum(paragraphs)
  {
    ExtractedTotal(paragraphs);
    OccurrenceTotal(paragraphs);
  }

  lemma {:induction false} OccurrenceTotal(paragraphs: seq<seq<string>>)
    ensures |DocumentOccurrences(paragraphs)| == PlaceholderSum(paragraphs)
  {
    if paragraphs != [] {
      OccurrenceTotal(paragraphs[..|paragraphs| - 1]);
      ParagraphOccurrencesCount(paragraphs[|paragraphs| - 1]);
    }
  }
}
