/**
 * The normalisation `schema_endpoint` applies to the `placeholders` list of its JSON body
 * before asking the model for a schema: items that are not objects are skipped, the name is
 * the first truthy of `name`, `key` and `"UNKNOWN"`, and the occurrence count is
 * `max(int(v), 1)`, falling back to 1 when `int` refuses the value; an infinite float makes
 * `int` overflow, which nothing catches, so the request fails.
 */
module SchemaPayload {
  import opened Wrappers
  import opened Text

  /** A decoded JSON value; numbers with a fraction or exponent are `JNum`, and the
      non-standard literals `Infinity`, `-Infinity` and `NaN` that Python's decoder accepts
      are `JInfinity` and `JNaN`. */
  datatype Json =
    | JNull
    | JBool(b: bool)
    | JInt(i: int)
    | JNum(r: real)
    | JInfinity(negative: bool)
    | JNaN
    | JStr(s: string)
    | JArray(elems: seq<Json>)
    | JObject(fields: map<string, Json>)

  /** The `Placeholder` record handed to schema generation. */
  datatype Placeholder = Placeholder(name: string, occurrences: int, exampleContext: Option<string>)

  const Unknown: string := "UNKNOWN"
  const NameNotString: string := "name is not a string"
  const ContextNotString: string := "example_context is not a string"
  const InfinityOverflow: string := "cannot convert float infinity to integer"

  /** Why `int(v)` raised: `TypeError` or `ValueError` (`Refused`), or `OverflowError`. */
  datatype IntError = Refused | Overflow

  /** Python truthiness of a JSON value. */
  predicate Truthy(j: Json)
  {
    match j
    case JNull => false
    case JBool(b) => b
    case JInt(i) => i != 0
    case JNum(r) => r != 0.0
    case JInfinity(_) => true
    case JNaN => true
    case JStr(s) => s != []
    case JArray(elems) => elems != []
    case JObject(fields) => fields != map[]
  }

  /** `item.get(k)`: a missing key reads as `null`. */
  function Get(item: map<string, Json>, k: string): Json
  {
    if k in item then item[k] else JNull
  }

  /** `item.get("name") or item.get("key") or "UNKNOWN"` */
  function NameValue(item: map<string, Json>): (v: Json)
    ensures Truthy(v)
  {
    if Truthy(Get(item, "name")) then Get(item, "name")
    else if Truthy(Get(item, "key")) then Get(item, "key")
    else JStr(Unknown)
  }

  predicate IsDigit(c: char)
  {
    '0' <= c <= '9'
  }

  /** Decimal digits with single underscores between digits, as `int(str)` accepts them:
      digits at both ends, and no two underscores side by side. */
  predicate DigitGroups(d: string)
  {
    |d| > 0 && IsDigit(d[0]) && IsDigit(d[|d| - 1]) &&
    (forall i :: 0 <= i < |d| ==> IsDigit(d[i]) || d[i] == '_') &&
    (forall i :: 0 < i < |d| ==> IsDigit(d[i - 1]) || IsDigit(d[i]))
  }

  /** The number the digits of `d` spell, underscores ignored. */
  function DigitsValue(d: string): nat
  {
    if d == [] then 0
    else if IsDigit(d[|d| - 1]) then DigitsValue(d[..|d| - 1]) * 10 + (d[|d| - 1] as int - '0' as int)
    else DigitsValue(d[..|d| - 1])
  }

  /** The number of digit characters in `d`, underscores not counted. */
  function DigitCount(d: string): nat
  {
    if d == [] then 0
    else DigitCount(d[..|d| - 1]) + (if IsDigit(d[|d| - 1]) then 1 else 0)
  }

  /** The interpreter's default `sys.get_int_max_str_digits()`: `int` of a decimal string
      with more digits raises `ValueError`. */
  const MaxStrDigits: nat := 4300

  /** `int(s)` for a string: surrounding whitespace, an optional sign, then digit groups of
      at most `MaxStrDigits` digits; anything else is a `ValueError`, here `None`. */
  function ParseInt(s: string): Option<int>
  {
    var t := Trim(s);
    if t == [] then None else ParseSigned(t)
  }

  function ParseSigned(t: string): Option<int>
    requires t != []
  {
    var d := if t[0] == '-' || t[0] == '+' then t[1..] else t;
    var v: int := DigitsValue(d);
    if !DigitGroups(d) || DigitCount(d) > MaxStrDigits then None
    else if t[0] == '-' then Some(-v)
    else Some(v)
  }

  /** `int(r)` for a finite float: truncation toward zero. */
  function Truncate(r: real): (n: int)
    ensures r >= 0.0 ==> 0 <= n && n as real <= r < n as real + 1.0
    ensures r < 0.0 ==> n <= 0 && n as real - 1.0 < r <= n as real
  {
    if r >= 0.0 then r.Floor else -((-r).Floor)
  }

  /** `int(v)`, or the kind of exception Python raises instead. */
  function IntOf(v: Json): (r: Result<int, IntError>)
    ensures r == Failure(Overflow) <==> v.JInfinity?
  {
    match v
    case JNull => Failure(Refused)
    case JBool(b) => Success(if b then 1 else 0)
    case JInt(i) => Success(i)
    case JNum(r) => Success(Truncate(r))
    case JInfinity(_) => Failure(Overflow)
    case JNaN => Failure(Refused)
    case JStr(s) => if ParseInt(s).Some? then Success(ParseInt(s).value) else Failure(Refused)
    case JArray(_) => Failure(Refused)
    case JObject(_) => Failure(Refused)
  }

  /** `max(int(item.get("occurrences", 1)), 1)`, or 1 when `int` raises `TypeError` or
      `ValueError`; the `OverflowError` of an infinite value is not caught. */
  function Occurrences(item: map<string, Json>): (r: Result<int, string>)
    ensures r.Success? ==> r.value >= 1
    ensures r.Failure? <==> "occurrences" in item && item["occurrences"].JInfinity?
  {
    if "occurrences" !in item then Success(1)
    else match IntOf(item["occurrences"])
      case Failure(Overflow) => Failure(InfinityOverflow)
      case Failure(Refused) => Success(1)
      case Success(k) => Success(if k > 1 then k else 1)
  }

  /** The record for one object item: an infinite count fails first, then a name or context
      that is not a string fails the record's validation. */
  function NormalizeItem(item: map<string, Json>): Result<Placeholder, string>
  {
    var name := NameValue(item);
    match Occurrences(item)
    case Failure(e) => Failure(e)
    case Success(n) =>
      var context := Get(item, "example_context");
      if !name.JStr? then Failure(NameNotString)
      else if !(context.JStr? || context.JNull?) then Failure(ContextNotString)
      else Success(Placeholder(name.s, n, if context.JStr? then Some(context.s) else None))
  }

  /** The list the loop builds, or the first item's failure. */
  function Normalized(items: seq<Json>): Result<seq<Placeholder>, string>
  {
    if items == [] then Success([])
    else
      var last := items[|items| - 1];
      match Normalized(items[..|items| - 1])
      case Failure(e) => Failure(e)
      case Success(ps) =>
        if !last.JObject? then Success(ps)
        else match NormalizeItem(last.fields)
          case Failure(e) => Failure(e)
          case Success(p) => Success(ps + [p])
  }

  /** `payload.get("placeholders", [])`: a list is iterated; a string or an object iterates
      to strings only, which are all skipped; anything else cannot be iterated. */
  function PayloadItems(payload: map<string, Json>): Result<seq<Json>, string>
  {
    if "placeholders" !in payload then Success([])
    else match payload["placeholders"]
      case JArray(elems) => Success(elems)
      case JStr(_) => Success([])
      case JObject(_) => Success([])
      case _ => Failure("placeholders is not iterable")
  }

  method NormalizeItems(items: seq<Json>) returns (result: Result<seq<Placeholder>, string>)
    ensures result == Normalized(items)
  {
    var placeholders: seq<Placeholder> := [];
    var k := 0;
    while k < |items|
      invariant k <= |items|
      invariant Normalized(items[..k]) == Success(placeholders)
    {
      assert items[..k + 1][..k] == items[..k];
      var item := items[k];
      if item.JObject? {
        var r := NormalizeObject(item.fields);
        if r.Failure? {
          FailurePersists(items, k + 1, r.error);
          return Failure(r.error);
        }
        placeholders := placeholders + [r.value];
      }
      k := k + 1;
    }
    assert items[..k] == items;
    result := Success(placeholders);
  }

  /** The body of the loop for an object item. */
  method NormalizeObject(fields: map<string, Json>) returns (r: Result<Placeholder, string>)
    ensures r == NormalizeItem(fields)
  {
    var name := if "name" in fields && Truthy(fields["name"]) then fields["name"]
      else if "key" in fields && Truthy(fields["key"]) then fields["key"]
      else JStr(Unknown);
    var occurrences := 1;
    if "occurrences" in fields {
      var converted := IntOf(fields["occurrences"]);
      if converted == Failure(Overflow) {
        return Failure(InfinityOverflow);
      }
      if converted.Success? && converted.value > 1 {
        occurrences := converted.value;
      }
    }
    var context := if "example_context" in fields then fields["example_context"] else JNull;
    if !name.JStr? {
      return Failure(NameNotString);
    }
    if !(context.JStr? || context.JNull?) {
      return Failure(ContextNotString);
    }
    var exampleContext := if context.JStr? then Some(context.s) else None;
    r := Success(Placeholder(name.s, occurrences, exampleContext));
  }

  /** Once a prefix has failed, the whole list fails the same way. */
  lemma {:induction false} FailurePersists(items: seq<Json>, k: nat, e: string)
    requires k <= |items| && Normalized(items[..k]) == Failure(e)
    ensures Normalized(items) == Failure(e)
    decreases |items| - k
  {
    if k < |items| {
      assert items[..k + 1][..k] == items[..k];
      FailurePersists(items, k + 1, e);
    } else {
      assert items[..k] == items;
    }
  }

  /** The object items of a list, in order. */
  function Objects(items: seq<Json>): seq<map<string, Json>>
  {
    if items == [] then []
    else
      var last := items[|items| - 1];
      Objects(items[..|items| - 1]) + (if last.JObject? then [last.fields] else [])
  }

  /** On success the result holds one record per object item, in order, and each is the
      normalisation of that item; everything else in the list was skipped. */
  lemma {:induction false} NormalizedObjects(items: seq<Json>)
    requires Normalized(items).Success?
    ensures |Normalized(items).value| == |Objects(items)|
    ensures forall i :: 0 <= i < |Objects(items)| ==>
      NormalizeItem(Objects(items)[i]) == Success(Normalized(items).value[i])
  {
    if items != [] {
      NormalizedObjects(items[..|items| - 1]);
    }
  }

  /** The list fails exactly when one of its object items fails, and then with the failure
      of the first such item. */
  lemma {:induction false} NormalizedFails(items: seq<Json>)
    ensures Normalized(items).Failure? <==>
      exists i :: 0 <= i < |Objects(items)| && NormalizeItem(Objects(items)[i]).Failure?
    ensures Normalized(items).Failure? ==>
      exists i :: 0 <= i < |Objects(items)| && NormalizeItem(Objects(items)[i]) == Failure(Normalized(items).error) &&
        forall j :: 0 <= j < i ==> NormalizeItem(Objects(items)[j]).Success?
  {
    if items != [] {
      var init := items[..|items| - 1];
      var last := items[|items| - 1];
      NormalizedFails(init);
      var os := Objects(items);
      var n := |Objects(init)|;
      assert forall j :: 0 <= j < n ==> os[j] == Objects(init)[j];
      if Normalized(init).Success? {
        NormalizedObjects(init);
        if last.JObject? && NormalizeItem(last.fields).Failure? {
          assert os[n] == last.fields;
          assert NormalizeItem(os[n]) == Failure(Normalized(items).error);
        } else if last.JObject? {
          assert os[n] == last.fields;
        } else {
          assert |os| == n;
        }
      }
    }
  }

  /** Iterating a string yields its one-character strings; none is an object, so treating a
      string of placeholders as an empty list changes nothing. */
  lemma PayloadStringSkipped(payload: map<string, Json>, text: string)
    requires "placeholders" in payload && payload["placeholders"] == JStr(text)
    ensures Normalized(seq(|text|, i requires 0 <= i < |text| => JStr([text[i]])))
      == Normalized(PayloadItems(payload).value)
      == Success([])
  {
    NormalizedNoObjects(seq(|text|, i requires 0 <= i < |text| => JStr([text[i]])));
  }

  /** A list without objects normalises to nothing, whatever else it holds. */
  lemma {:induction false} NormalizedNoObjects(items: seq<Json>)
    requires forall i :: 0 <= i < |items| ==> !items[i].JObject?
    ensures Normalized(items) == Success([])
  {
    if items != [] {
      NormalizedNoObjects(items[..|items| - 1]);
    }
  }

  /** The decimal spelling of a natural number. */
  function Digits(n: nat): (d: string)
    ensures |d| > 0 && forall i :: 0 <= i < |d| ==> IsDigit(d[i])
  {
    if n < 10 then [('0' as int + n) as char]
    else Digits(n / 10) + [('0' as int + n % 10) as char]
  }

  /** `str(n)` for an integer. */
  function Decimal(n: int): string
  {
    if n < 0 then "-" + Digits(-n) else Digits(n)
  }

  lemma {:induction false} DigitsValueOfDigits(n: nat)
    ensures DigitsValue(Digits(n)) == n
  {
    if n >= 10 {
      var d := Digits(n);
      assert d[..|d| - 1] == Digits(n / 10);
      DigitsValueOfDigits(n / 10);
    }
  }

  /** `int(str(n)) == n`, also with whitespace around the digits, for a numeral within the
      digit limit. */
  lemma ParseIntDecimal(n: int, pad: string)
    requires AllSpace(pad) && |Digits(if n < 0 then -n else n)| <= MaxStrDigits
    ensures ParseInt(pad + Decimal(n) + pad) == Some(n)
  {
    var s := Decimal(n);
    assert IsTrimmed(s);
    TrimPadded(pad, s);
    ParseSignedDecimal(n);
  }

  lemma ParseSignedDecimal(n: int)
    requires |Digits(if n < 0 then -n else n)| <= MaxStrDigits
    ensures Decimal(n) != [] && ParseSigned(Decimal(n)) == Some(n)
  {
    var m: nat := if n < 0 then -n else n;
    DigitsValueOfDigits(m);
    DigitsGroups(m);
    DigitCountAll(Digits(m));
    if n < 0 {
      NegativeDecimal(n);
    }
  }

  /** A numeral with more digits than the limit is refused, so its count falls back to 1. */
  lemma ParseIntTooLong(n: int, pad: string)
    requires AllSpace(pad) && |Digits(if n < 0 then -n else n)| > MaxStrDigits
    ensures ParseInt(pad + Decimal(n) + pad) == None
    ensures Occurrences(map["occurrences" := JStr(pad + Decimal(n) + pad)]) == Success(1)
  {
    var t := pad + Decimal(n) + pad;
    ParseIntRefusedPadded(n, pad);
    RefusedCountsOnce(t);
  }

  lemma ParseIntRefusedPadded(n: int, pad: string)
    requires AllSpace(pad) && |Digits(if n < 0 then -n else n)| > MaxStrDigits
    ensures ParseInt(pad + Decimal(n) + pad) == None
  {
    var s := Decimal(n);
    assert IsTrimmed(s);
    TrimPadded(pad, s);
    ParseSignedTooLong(n);
  }

  lemma RefusedCountsOnce(t: string)
    requires ParseInt(t) == None
    ensures Occurrences(map["occurrences" := JStr(t)]) == Success(1)
  {
    var item := map["occurrences" := JStr(t)];
    assert IntOf(item["occurrences"]) == Failure(Refused);
  }

  lemma ParseSignedTooLong(n: int)
    requires |Digits(if n < 0 then -n else n)| > MaxStrDigits
    ensures Decimal(n) != [] && ParseSigned(Decimal(n)) == None
  {
    var m: nat := if n < 0 then -n else n;
    DigitCountAll(Digits(m));
    if n < 0 {
      NegativeDecimal(n);
    }
  }

  lemma {:induction false} DigitCountAll(d: string)
    requires forall i :: 0 <= i < |d| ==> IsDigit(d[i])
    ensures DigitCount(d) == |d|
  {
    if d != [] {
      DigitCountAll(d[..|d| - 1]);
    }
  }

  lemma DigitsGroups(m: nat)
    ensures DigitGroups(Digits(m))
  {
  }

  lemma NegativeDecimal(n: int)
    requires n < 0
    ensures Decimal(n) != [] && Decimal(n)[0] == '-' && Decimal(n)[1..] == Digits(-n)
  {
  }

  lemma TrimPadded(pad: string, s: string)
    requires AllSpace(pad) && IsTrimmed(s) && s != []
    ensures Trim(pad + s + pad) == s
  {
    TrimSlices(pad + s + pad, |pad|, |pad| + |s|);
    assert (pad + s + pad)[|pad|..|pad| + |s|] == s;
  }

  /** A character `int` never accepts, wherever it stands. */
  predicate Foreign(c: char)
  {
    !IsSpace(c) && !IsDigit(c) && c != '_' && c != '-' && c != '+'
  }

  /** A string that is blank, or holds a character outside whitespace, signs, digits and
      underscores, is refused. */
  lemma ParseIntRefuses(s: string)
    ensures AllSpace(s) ==> ParseInt(s) == None
    ensures (exists i :: 0 <= i < |s| && Foreign(s[i])) ==> ParseInt(s) == None
  {
    TrimEmpty(s);
    if exists i :: 0 <= i < |s| && Foreign(s[i]) {
      var i :| 0 <= i < |s| && Foreign(s[i]);
      TrimKeeps(s, i);
      ParseSignedRefuses(Trim(s), s[i]);
    }
  }

  lemma NotDigitGroups(d: string, i: int)
    requires 0 <= i < |d| && !IsDigit(d[i]) && d[i] != '_'
    ensures !DigitGroups(d)
  {
  }

  lemma ParseSignedRefuses(t: string, c: char)
    requires c in t && Foreign(c)
    ensures ParseSigned(t) == None
  {
    var d := if t[0] == '-' || t[0] == '+' then t[1..] else t;
    var k :| 0 <= k < |t| && t[k] == c;
    if t[0] == '-' || t[0] == '+' {
      assert k > 0 && d[k - 1] == c;
      NotDigitGroups(d, k - 1);
    } else {
      NotDigitGroups(d, k);
    }
  }

  /** The count the schema prompt receives: an integer value at least 1 is kept, anything
      smaller is raised to 1, and a missing or unconvertible value gives 1. */
  lemma OccurrencesCases(item: map<string, Json>)
    ensures "occurrences" !in item ==> Occurrences(item) == Success(1)
    ensures "occurrences" in item && IntOf(item["occurrences"]) == Failure(Refused) ==>
      Occurrences(item) == Success(1)
    ensures "occurrences" in item && IntOf(item["occurrences"]).Success? ==>
      Occurrences(item) == Success(if IntOf(item["occurrences"]).value >= 1 then IntOf(item["occurrences"]).value else 1)
  {
  }

  /** `NaN` is refused like any other unconvertible value and counts once; an infinite count
      fails its item whatever its name and context, and with it the whole list. */
  lemma NonFiniteOccurrences(items: seq<Json>, i: nat)
    requires i < |items| && items[i].JObject? && "occurrences" in items[i].fields
    ensures items[i].fields["occurrences"] == JNaN ==> Occurrences(items[i].fields) == Success(1)
    ensures items[i].fields["occurrences"].JInfinity? ==>
      NormalizeItem(items[i].fields) == Failure(InfinityOverflow) && Normalized(items).Failure?
  {
    if items[i].fields["occurrences"].JInfinity? {
      var k := ObjectIndex(items, i);
      NormalizedFails(items);
    }
  }

  /** Every object item appears among the list's objects. */
  lemma {:induction false} ObjectIndex(items: seq<Json>, i: nat) returns (k: nat)
    requires i < |items| && items[i].JObject?
    ensures k < |Objects(items)| && Objects(items)[k] == items[i].fields
  {
    var init := items[..|items| - 1];
    if i == |items| - 1 {
      k := |Objects(init)|;
    } else {
      assert init[i] == items[i];
      k := ObjectIndex(init, i);
    }
  }

  /** A record's name is the first truthy string of `name`, `key`, else `UNKNOWN`. */
  lemma NormalizeItemName(item: map<string, Json>)
    requires NormalizeItem(item).Success?
    ensures var p := NormalizeItem(item).value;
      p.name != [] &&
      (Truthy(Get(item, "name")) ==> Get(item, "name") == JStr(p.name)) &&
      (!Truthy(Get(item, "name")) && Truthy(Get(item, "key")) ==> Get(item, "key") == JStr(p.name)) &&
      (!Truthy(Get(item, "name")) && !Truthy(Get(item, "key")) ==> p.name == Unknown) &&
      Occurrences(item) == Success(p.occurrences)
  {
  }
}
