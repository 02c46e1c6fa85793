/**
 The pure parts of the Schedule H report: the row filters built from the
 report configuration and their sequential application, the expansion and
 de-duplication of the EIN list, free-text column matching, the `{key}`
 templating of the output path, and the business-name defaulting.
 */
module ScheduleH {
  import opened Outcomes
  import opened JsText
  import opened JsValues
  import opened Sequences

  /** A mega-index row after `JSON.parse`: its properties by name. */
  type Row = map<string, JsValue>

  /** `row[name]`: a missing property reads as `undefined`. */
  function Get(row: Row, name: string): JsValue {
    if name in row then row[name] else JUndefined
  }

  /** JavaScript truthiness. */
  predicate Truthy(v: JsValue) {
    match v
    case JStr(s) => s != ""
    case JNum(n) => n.Fin? && n.value != 0.0
    case JNull => false
    case JUndefined => false
  }

  /** One `fieldValue` entry of the configuration: `{ name, operator, value }`. */
  datatype FilterDef = FilterDef(name: string, operator: string, value: JsValue)

  /** A filter closure, by what it captured. */
  datatype Filter =
    | MinimumYears(minimum: int)
    /** `includes`, holding the lower-cased needle. */
    | Contains(name: string, needle: string)
    | Above(name: string, bound: Number)
    | Below(name: string, bound: Number)
    | Equal(name: string, value: JsValue)

  /** `parseFloat(value)`: the value is first converted to a string; a number converts back to itself. */
  function ParseFloatOf(v: JsValue): Number {
    match v
    case JStr(s) => ParseFloat(s)
    case JNum(n) => n
    case JNull => NaN
    case JUndefined => NaN
  }

  /**
   The closure one `fieldValue` entry becomes. `includes` lower-cases the
   configured value at once, so a value that is not a string fails here.
   */
  function FilterOf(def: FilterDef): (r: Result<Filter>)
    ensures def.operator == "includes" ==> (r.Ok? <==> def.value.JStr?)
    ensures def.operator != "includes" ==> r.Ok?
    ensures r.Ok? && def.operator == "includes" ==> r.value == Contains(def.name, ToLower(def.value.s))
    ensures r.Ok? && def.operator == "gt" ==> r.value == Above(def.name, ParseFloatOf(def.value))
    ensures r.Ok? && def.operator == "lt" ==> r.value == Below(def.name, ParseFloatOf(def.value))
    ensures def.operator !in {"includes", "gt", "lt"} ==> r == Ok(Equal(def.name, def.value))
  {
    if def.operator == "includes" then
      if def.value.JStr? then Ok(Contains(def.name, ToLower(def.value.s))) else Err(NotAString(def.name))
    else if def.operator == "gt" then Ok(Above(def.name, ParseFloatOf(def.value)))
    else if def.operator == "lt" then Ok(Below(def.name, ParseFloatOf(def.value)))
    else Ok(Equal(def.name, def.value))
  }

  /** The closures for the `fieldValue` entries, in configuration order. */
  function FieldFilters(defs: seq<FilterDef>): (r: Result<seq<Filter>>)
    ensures r.Ok? ==> |r.value| == |defs|
    ensures r.Ok? ==> forall k :: 0 <= k < |defs| ==> FilterOf(defs[k]) == Ok(r.value[k])
    ensures r.Err? ==> exists k :: 0 <= k < |defs| && FilterOf(defs[k]).Err?
  {
    if defs == [] then Ok([])
    else
      var first :- FilterOf(defs[0]);
      var rest :- FieldFilters(defs[1..]);
      Ok([first] + rest)
  }

  /**
   The whole filter list: the `minimumYears` filter first when it is set
   (a zero or missing setting is falsy), then one per `fieldValue` entry.
   */
  function FiltersOf(minimumYears: int, defs: seq<FilterDef>): (r: Result<seq<Filter>>)
    ensures r.Ok? <==> FieldFilters(defs).Ok?
    ensures r.Ok? && minimumYears != 0 ==> r.value == [MinimumYears(minimumYears)] + FieldFilters(defs).value
    ensures r.Ok? && minimumYears == 0 ==> r.value == FieldFilters(defs).value
  {
    var fields :- FieldFilters(defs);
    Ok(if minimumYears != 0 then [MinimumYears(minimumYears)] + fields else fields)
  }

  /** The row test of a filter that never fails. */
  predicate Passes(f: Filter, row: Row)
    requires !f.Contains? && !f.MinimumYears?
  {
    match f
    case Above(name, bound) => NumberLess(bound, ToNumeric(Get(row, name)))
    case Below(name, bound) => NumberLess(ToNumeric(Get(row, name)), bound)
    case Equal(name, value) => StrictEquals(Get(row, name), value)
  }

  /** `row[name].toLowerCase().includes(needle)` for a row whose property is a string. */
  predicate ContainsNeedle(name: string, needle: string, row: Row)
    requires Get(row, name).JStr?
  {
    Includes(ToLower(Get(row, name).s), needle)
  }

  /** `Contains` keeps a row when its property, lower-cased, contains the needle. */
  function ContainsTest(name: string, needle: string): Row -> bool {
    row => Get(row, name).JStr? && ContainsNeedle(name, needle, row)
  }

  function PassesTest(f: Filter): Row -> bool
    requires !f.Contains? && !f.MinimumYears?
  {
    row => Passes(f, row)
  }

  /** A row passes both comparison filters. */
  function BothTest(f: Filter, g: Filter): Row -> bool
    requires !f.Contains? && !f.MinimumYears? && !g.Contains? && !g.MinimumYears?
  {
    row => Passes(f, row) && Passes(g, row)
  }

  /** Every row's property is a string, so `toLowerCase` succeeds on all of them. */
  predicate AllStrings(rows: seq<Row>, name: string) {
    forall k :: 0 <= k < |rows| ==> Get(rows[k], name).JStr?
  }

  /** One filter applied to the rows; `includes` throws on a row whose property is not a string. */
  function Apply(f: Filter, rows: seq<Row>): (r: Result<seq<Row>>)
    ensures f.MinimumYears? ==> r == Ok(if |rows| > f.minimum then rows else [])
    ensures f.Contains? ==> (r.Ok? <==> AllStrings(rows, f.name))
    ensures r.Ok? ==> forall k :: 0 <= k < |r.value| ==> r.value[k] in rows
  {
    match f
    case MinimumYears(minimum) => Ok(if |rows| > minimum then rows else [])
    case Contains(name, needle) =>
      if AllStrings(rows, name) then Ok(Where(rows, ContainsTest(name, needle)))
      else Err(NotAString(name))
    case _ => Ok(Where(rows, PassesTest(f)))
  }

  /** `for (const filter of filters) rows = filter(rows)`: the filters in order, each on the last one's output. */
  function ApplyAll(fs: seq<Filter>, rows: seq<Row>): (r: Result<seq<Row>>)
    ensures r.Ok? ==> forall k :: 0 <= k < |r.value| ==> r.value[k] in rows
    ensures fs == [] ==> r == Ok(rows)
  {
    if fs == [] then Ok(rows)
    else
      var once :- Apply(fs[0], rows);
      ApplyAll(fs[1..], once)
  }

  /** Filter lists compose: applying `a + b` is applying `a`, then `b` to the result. */
  lemma {:induction false} ApplyAllAppend(a: seq<Filter>, b: seq<Filter>, rows: seq<Row>)
    ensures ApplyAll(a + b, rows) ==
      match ApplyAll(a, rows)
      case Err(e) => Err(e)
      case Ok(mid) => ApplyAll(b, mid)
    decreases |a|
  {
    if a == [] {
      assert a + b == b;
    } else {
      assert (a + b)[0] == a[0];
      assert (a + b)[1..] == a[1..] + b;
      match Apply(a[0], rows)
      case Err(_) =>
      case Ok(once) => ApplyAllAppend(a[1..], b, once);
    }
  }

  /** Two comparison filters in sequence keep exactly the rows passing both, in their original order. */
  lemma ComparisonsConjoin(f: Filter, g: Filter, rows: seq<Row>)
    requires !f.Contains? && !f.MinimumYears? && !g.Contains? && !g.MinimumYears?
    ensures ApplyAll([f, g], rows) == Ok(Where(rows, BothTest(f, g)))
  {
    WhereWhere(rows, PassesTest(f), PassesTest(g), BothTest(f, g));
    assert [f, g][1..] == [g];
    assert [g][1..] == [];
  }

  /** A row passes `includes` exactly when its property, lower-cased, contains the lower-cased value. */
  lemma IncludesIsCaseInsensitive(def: FilterDef, rows: seq<Row>, row: Row)
    requires def.operator == "includes" && def.value.JStr?
    requires AllStrings(rows, def.name) && row in rows
    ensures Apply(FilterOf(def).value, rows).Ok?
    ensures row in Apply(FilterOf(def).value, rows).value <==>
      Includes(ToLower(Get(row, def.name).s), ToLower(def.value.s))
  {
  }

  /** Changing the case of the configured value changes nothing. */
  lemma IncludesIgnoresValueCase(name: string, value: string, rows: seq<Row>)
    ensures Apply(FilterOf(FilterDef(name, "includes", JStr(ToLower(value)))).value, rows)
      == Apply(FilterOf(FilterDef(name, "includes", JStr(value))).value, rows)
  {
    ToLowerIdempotent(value);
  }

  /** `gt` keeps exactly the rows whose property, as a number, exceeds `parseFloat` of the value. */
  lemma GtKeeps(def: FilterDef, rows: seq<Row>, row: Row)
    requires def.operator == "gt"
    requires row in rows
    ensures Apply(FilterOf(def).value, rows).Ok?
    ensures row in Apply(FilterOf(def).value, rows).value <==>
      NumberLess(ParseFloatOf(def.value), ToNumeric(Get(row, def.name)))
  {
  }

  /** `lt` keeps exactly the rows whose property, as a number, is below `parseFloat` of the value. */
  lemma LtKeeps(def: FilterDef, rows: seq<Row>, row: Row)
    requires def.operator == "lt"
    requires row in rows
    ensures Apply(FilterOf(def).value, rows).Ok?
    ensures row in Apply(FilterOf(def).value, rows).value <==>
      NumberLess(ToNumeric(Get(row, def.name)), ParseFloatOf(def.value))
  {
  }

  /** `gt` and `lt` are strict: a row equal to the bound passes neither. */
  lemma BoundsAreStrict(name: string, bound: real, row: Row)
    requires Get(row, name) == JNum(Fin(bound))
    ensures !Passes(Above(name, Fin(bound)), row)
    ensures !Passes(Below(name, Fin(bound)), row)
  {
  }

  /** Any operator other than `includes`, `gt` and `lt` keeps the rows whose property is strictly equal to the value. */
  lemma OtherOperatorIsEquality(def: FilterDef, rows: seq<Row>, row: Row)
    requires def.operator !in {"includes", "gt", "lt"}
    requires row in rows
    ensures Apply(FilterOf(def).value, rows).Ok?
    ensures row in Apply(FilterOf(def).value, rows).value <==> StrictEquals(Get(row, def.name), def.value)
  {
  }

  /** One entry of `config.eins`: a `list:` entry names a list file, anything else is an EIN. */
  function ExpandEntry(entry: string, lists: string -> seq<string>): (r: seq<string>)
    ensures !Includes(entry, "list:") ==> r == [entry]
  {
    if Includes(entry, "list:") then
      var parts := Split(entry, ':');
      lists(if |parts| > 1 then parts[1] else "undefined")
    else [entry]
  }

  /**
   `configEins`: the entries in order, each list replaced by its EINs. `lists`
   reads `./lists/<name>.yml`'s keys. `ein.includes` needs a string, so the
   first entry that is not one throws and ends the script.
   */
  function ConfigEins(entries: seq<JsValue>, lists: string -> seq<string>): Result<seq<string>> {
    if entries == [] then Ok([])
    else
      var before :- ConfigEins(entries[..|entries| - 1], lists);
      var last := entries[|entries| - 1];
      if last.JStr? then Ok(before + ExpandEntry(last.s, lists)) else Err(NotAString("ein"))
  }

  /** The EIN list is built exactly when every entry is a string. */
  lemma {:induction false} ConfigEinsFailsOnNonString(entries: seq<JsValue>, lists: string -> seq<string>)
    ensures ConfigEins(entries, lists).Ok? <==> forall k :: 0 <= k < |entries| ==> entries[k].JStr?
    ensures ConfigEins(entries, lists).Err? ==> ConfigEins(entries, lists).error == NotAString("ein")
    decreases |entries|
  {
    if entries != [] {
      var init := entries[..|entries| - 1];
      ConfigEinsFailsOnNonString(init, lists);
      assert forall k :: 0 <= k < |init| ==> init[k] == entries[k];
    }
  }

  /** `Array.from(new Set([...configEins, ...Object.keys(businessNames)]))` */
  function EinsToProcess(configEins: seq<string>, namedEins: seq<string>): (r: seq<string>)
    ensures Distinct(r)
    ensures forall e :: e in r <==> e in configEins || e in namedEins
  {
    var all := configEins + namedEins;
    assert forall e :: e in all <==> e in configEins || e in namedEins;
    Dedup(all)
  }

  /** The configured EINs come first, named EINs not already listed follow, each at its first occurrence in the joined list. */
  lemma EinsToProcessOrder(configEins: seq<string>, namedEins: seq<string>)
    ensures EinsToProcess(configEins, namedEins) ==
      Dedup(configEins) + Without(Dedup(namedEins), set e | e in configEins)
    ensures var all, r := configEins + namedEins, EinsToProcess(configEins, namedEins);
      forall i, j :: 0 <= i < j < |r| ==> r[i] in all && r[j] in all && FirstIndex(all, r[i]) < FirstIndex(all, r[j])
  {
    DedupAppend(configEins, namedEins);
    DedupFirstOccurrenceOrder(configEins + namedEins);
  }

  /** The configuration entries for a list of EINs given as strings. */
  function Strings(eins: seq<string>): (r: seq<JsValue>)
    ensures |r| == |eins|
    ensures forall k :: 0 <= k < |eins| ==> r[k] == JStr(eins[k])
  {
    seq(|eins|, k requires 0 <= k < |eins| => JStr(eins[k]))
  }

  /** An entry without `list:` stands for itself, so a plain EIN list passes through in order. */
  lemma {:induction false} PlainEinsPassThrough(eins: seq<string>, lists: string -> seq<string>)
    requires forall k :: 0 <= k < |eins| ==> !Includes(eins[k], "list:")
    ensures ConfigEins(Strings(eins), lists) == Ok(eins)
    decreases |eins|
  {
    if eins != [] {
      var init := eins[..|eins| - 1];
      PlainEinsPassThrough(init, lists);
      assert Strings(eins)[..|eins| - 1] == Strings(init);
      assert eins == init + [eins[|eins| - 1]];
    }
  }

  /** A `list:` entry contributes exactly the EINs of the list it names; an earlier failure stands. */
  lemma ListEntryExpands(before: seq<JsValue>, listName: string, lists: string -> seq<string>)
    requires ':' !in listName
    ensures ConfigEins(before + [JStr("list:" + listName)], lists) ==
      (var eins :- ConfigEins(before, lists); Ok(eins + lists(listName)))
  {
    var entry := "list:" + listName;
    var all := before + [JStr(entry)];
    assert all[..|all| - 1] == before && all[|all| - 1] == JStr(entry);
    assert OccursAt(entry, "list:", 0);
    IncludesIff(entry, "list:");
    assert entry[..4] == "list";
    assert ':' !in entry[..4];
    FindCharFirst(entry, ':', 4);
    assert entry[5..] == listName;
    assert Split(entry, ':') == [entry[..4]] + Split(listName, ':');
    assert FindChar(listName, ':').None?;
    assert Split(listName, ':') == [listName];
  }

  /** One entry of a row's `freeText` list. */
  datatype FreeText = FreeText(formLine: string, explanationText: string)

  /** The entry's lower-cased form line contains every filter. */
  predicate MatchesAll(entry: FreeText, filters: seq<string>) {
    forall k :: 0 <= k < |filters| ==> Includes(ToLower(entry.formLine), filters[k])
  }

  /** A `freeText:<headerName>:<filter>…` field: its column name and its lower-cased filters. */
  datatype FreeTextField = FreeTextField(headerName: string, filters: seq<string>)

  /** `field.split(":")` destructured as `[_, headerName, ...filters]`, each filter lower-cased. */
  function FreeTextFieldOf(field: string): (r: FreeTextField)
    ensures forall k :: 0 <= k < |r.filters| ==> ToLower(r.filters[k]) == r.filters[k]
  {
    var parts := Split(field, ':');
    var rest := if |parts| > 2 then parts[2..] else [];
    forall k | 0 <= k < |rest| ensures ToLower(ToLower(rest[k])) == ToLower(rest[k]) {
      ToLowerIdempotent(rest[k]);
    }
    FreeTextField(
      if |parts| > 1 then parts[1] else "undefined",
      seq(|rest|, k requires 0 <= k < |rest| => ToLower(rest[k])))
  }

  /** The match test of one free-text column. */
  function MatcherOf(filters: seq<string>): FreeText -> bool {
    entry => MatchesAll(entry, filters)
  }

  /** The explanation of the last entry passing `matches`, if any does. */
  function LastMatch(entries: seq<FreeText>, matches: FreeText -> bool): Option<string> {
    if entries == [] then None
    else if matches(entries[|entries| - 1]) then Some(entries[|entries| - 1].explanationText)
    else LastMatch(entries[..|entries| - 1], matches)
  }

  /** No entry from position `from` on matches. */
  predicate NoneMatchFrom(entries: seq<FreeText>, matches: FreeText -> bool, from: nat) {
    forall j :: from <= j < |entries| ==> !matches(entries[j])
  }

  /** The column stays unset exactly when no entry matches. */
  lemma {:induction false} LastMatchNone(entries: seq<FreeText>, matches: FreeText -> bool)
    ensures LastMatch(entries, matches).None? <==> NoneMatchFrom(entries, matches, 0)
    decreases |entries|
  {
    if entries != [] {
      var init := entries[..|entries| - 1];
      LastMatchNone(init, matches);
      assert forall k :: 0 <= k < |init| ==> init[k] == entries[k];
    }
  }

  /** Entry `k` matches and no later entry does. */
  predicate IsLastMatch(entries: seq<FreeText>, matches: FreeText -> bool, k: int) {
    0 <= k < |entries| && matches(entries[k]) && NoneMatchFrom(entries, matches, k + 1)
  }

  /** A set column holds the explanation of the last matching entry. */
  lemma {:induction false} LastMatchSome(entries: seq<FreeText>, matches: FreeText -> bool)
    requires LastMatch(entries, matches).Some?
    ensures exists k :: IsLastMatch(entries, matches, k) && LastMatch(entries, matches).value == entries[k].explanationText
    decreases |entries|
  {
    var last := |entries| - 1;
    if matches(entries[last]) {
      assert IsLastMatch(entries, matches, last);
    } else {
      var init := entries[..last];
      LastMatchSome(init, matches);
      var k :| IsLastMatch(init, matches, k) && LastMatch(init, matches).value == init[k].explanationText;
      assert init[k] == entries[k];
      assert forall j :: k < j < last ==> init[j] == entries[j];
      assert IsLastMatch(entries, matches, k);
    }
  }

  /**
   The script's loop for one free-text column of one row: every matching entry
   overwrites the column, so the last match stays; with no match the column
   keeps what it had. `freeText` is the row's `freeText` list, `None` when the
   row has none: `for … of undefined` throws.
   */
  method FreeTextColumn(freeText: Option<seq<FreeText>>, field: FreeTextField, current: Option<string>)
    returns (r: Result<Option<string>>)
    ensures r.Err? <==> freeText.None?
    ensures r.Err? ==> r.error == NotIterable("freeText")
    ensures freeText.Some? && LastMatch(freeText.value, MatcherOf(field.filters)).Some? ==>
      r == Ok(LastMatch(freeText.value, MatcherOf(field.filters)))
    ensures freeText.Some? && LastMatch(freeText.value, MatcherOf(field.filters)).None? ==> r == Ok(current)
  {
    if freeText.None? {
      return Err(NotIterable("freeText"));
    }
    var entries := freeText.value;
    var value := current;
    var i := 0;
    while i < |entries|
      invariant 0 <= i <= |entries|
      invariant LastMatch(entries[..i], MatcherOf(field.filters)).Some? ==> value == LastMatch(entries[..i], MatcherOf(field.filters))
      invariant LastMatch(entries[..i], MatcherOf(field.filters)).None? ==> value == current
    {
      var ft := entries[i];
      assert entries[..i + 1][..i] == entries[..i] && entries[..i + 1][i] == ft;
      var formLine := ToLower(ft.formLine);
      if forall k :: 0 <= k < |field.filters| ==> Includes(formLine, field.filters[k]) {
        value := Some(ft.explanationText);
      }
      i := i + 1;
    }
    assert entries[..i] == entries;
    r := Ok(value);
  }

  /**
   `config.output` with every `{…}` replaced: the text between the braces,
   with any `{` removed, names a replacement value; an unknown name gives
   `undefined`. A `{` with no `}` after it is kept as it is.
   */
  function Substitute(template: string, values: map<string, string>): string
    decreases |template|
  {
    if template == [] then []
    else if template[0] == '{' && FindChar(template, '}').Some? then
      var close := FindChar(template, '}').value;
      ValueOf(values, WithoutOpenBraces(template[1..close])) + Substitute(template[close + 1..], values)
    else [template[0]] + Substitute(template[1..], values)
  }

  /** `replacementValues[key]` as it lands in the path. */
  function ValueOf(values: map<string, string>, key: string): string {
    if key in values then values[key] else "undefined"
  }

  /** `s.replace(/[{}]/g, "")` on text that holds no `}`. */
  function WithoutOpenBraces(s: string): (r: string)
    ensures '{' !in r
  {
    if s == [] then [] else (if s[0] == '{' then [] else [s[0]]) + WithoutOpenBraces(s[1..])
  }

  lemma {:induction false} WithoutOpenBracesOfPlain(s: string)
    requires '{' !in s
    ensures WithoutOpenBraces(s) == s
    decreases |s|
  {
    if s != [] {
      WithoutOpenBracesOfPlain(s[1..]);
      assert s == [s[0]] + s[1..];
    }
  }

  /** Text without `{` is left unchanged. */
  lemma {:induction false} SubstitutePlain(s: string, values: map<string, string>)
    requires '{' !in s
    ensures Substitute(s, values) == s
    decreases |s|
  {
    if s != [] {
      SubstitutePlain(s[1..], values);
      assert s == [s[0]] + s[1..];
    }
  }

  /** A template opening with `{key}`: the value of `key`, then the rest substituted. */
  lemma SubstituteAtPlaceholder(key: string, rest: string, values: map<string, string>)
    requires '{' !in key && '}' !in key
    ensures Substitute(['{'] + key + ['}'] + rest, values) == ValueOf(values, key) + Substitute(rest, values)
  {
    var s := ['{'] + key + ['}'] + rest;
    var close := 1 + |key|;
    assert s[close] == '}';
    assert s[..close] == ['{'] + key;
    FindCharFirst(s, '}', close);
    assert s[1..close] == key;
    assert s[close + 1..] == rest;
    WithoutOpenBracesOfPlain(key);
  }

  /** A character other than `{` is copied. */
  lemma SubstituteLiteralHead(c: char, t: string, values: map<string, string>)
    requires c != '{'
    ensures Substitute([c] + t, values) == [c] + Substitute(t, values)
  {
    assert ([c] + t)[1..] == t;
  }

  /** Literal text without `{` is copied in front of whatever follows. */
  lemma {:induction false} SubstituteLiteralPrefix(prefix: string, t: string, values: map<string, string>)
    requires '{' !in prefix
    ensures Substitute(prefix + t, values) == prefix + Substitute(t, values)
    decreases |prefix|
  {
    if prefix != [] {
      assert prefix + t == [prefix[0]] + (prefix[1..] + t);
      SubstituteLiteralHead(prefix[0], prefix[1..] + t, values);
      SubstituteLiteralPrefix(prefix[1..], t, values);
      assert prefix == [prefix[0]] + prefix[1..];
    } else {
      assert prefix + t == t;
    }
  }

  /** Literal text, a `{key}` placeholder and the rest: the placeholder becomes its value, the literal text stays. */
  lemma SubstitutePlaceholder(prefix: string, key: string, rest: string, values: map<string, string>)
    requires '{' !in prefix && '{' !in key && '}' !in key
    ensures Substitute(prefix + ['{'] + key + ['}'] + rest, values) == prefix + ValueOf(values, key) + Substitute(rest, values)
  {
    var tail := ['{'] + key + ['}'] + rest;
    assert prefix + ['{'] + key + ['}'] + rest == prefix + tail;
    SubstituteLiteralPrefix(prefix, tail, values);
    SubstituteAtPlaceholder(key, rest, values);
  }

  /** `Math.min(...years)`, with `Infinity` for no years. */
  function MinYear(years: seq<int>): (r: Option<int>)
    ensures r.None? <==> years == []
    ensures r.Some? ==> r.value in years && forall k :: 0 <= k < |years| ==> r.value <= years[k]
  {
    if years == [] then None
    else match MinYear(years[1..])
      case None => Some(years[0])
      case Some(m) => Some(if years[0] <= m then years[0] else m)
  }

  /** `Math.max(...years)`, with `-Infinity` for no years. */
  function MaxYear(years: seq<int>): (r: Option<int>)
    ensures r.None? <==> years == []
    ensures r.Some? ==> r.value in years && forall k :: 0 <= k < |years| ==> years[k] <= r.value
  {
    if years == [] then None
    else match MaxYear(years[1..])
      case None => Some(years[0])
      case Some(m) => Some(if years[0] >= m then years[0] else m)
  }

  /** `replacementValues`, each value as it prints into the path. */
  function ReplacementValues(years: seq<int>, einCount: nat): (r: map<string, string>)
    ensures r.Keys == {"minYear", "maxYear", "einCount"}
    ensures r["einCount"] == NatToString(einCount)
    ensures years == [] ==> r["minYear"] == "Infinity" && r["maxYear"] == "-Infinity"
    ensures years != [] ==>
      exists k :: 0 <= k < |years| && r["minYear"] == IntToString(years[k]) && forall j :: 0 <= j < |years| ==> years[k] <= years[j]
    ensures years != [] ==>
      exists k :: 0 <= k < |years| && r["maxYear"] == IntToString(years[k]) && forall j :: 0 <= j < |years| ==> years[k] >= years[j]
  {
    map[
      "minYear" := (match MinYear(years) case None => "Infinity" case Some(y) => IntToString(y)),
      "maxYear" := (match MaxYear(years) case None => "-Infinity" case Some(y) => IntToString(y)),
      "einCount" := NatToString(einCount)
    ]
  }

  /**
   Business-name defaulting for the rows of one EIN, starting from the
   configured name: a falsy name so far is replaced by the row's name, and
   the row gets the name so far (`??` falls back to its own when that is
   nullish). The result is the name each row gets.
   */
  function DefaultNames(configured: JsValue, rowNames: seq<JsValue>): (r: seq<JsValue>)
    ensures |r| == |rowNames|
    decreases |rowNames|
  {
    if rowNames == [] then []
    else
      var earlier := DefaultNames(configured, rowNames[..|rowNames| - 1]);
      var sofar := if earlier == [] then configured else earlier[|earlier| - 1];
      var name := if Truthy(sofar) then sofar else rowNames[|rowNames| - 1];
      earlier + [if name.JNull? || name.JUndefined? then rowNames[|rowNames| - 1] else name]
  }

  /** The first truthy name among the configured one and the rows' names, if any. */
  function FirstTruthy(configured: JsValue, rowNames: seq<JsValue>): (r: Option<JsValue>)
    ensures r.Some? ==> Truthy(r.value)
    ensures r.None? ==> !Truthy(configured) && forall k :: 0 <= k < |rowNames| ==> !Truthy(rowNames[k])
    decreases |rowNames|
  {
    if Truthy(configured) then Some(configured)
    else if rowNames == [] then None
    else FirstTruthy(rowNames[0], rowNames[1..])
  }

  lemma {:induction false} FirstTruthySnoc(configured: JsValue, rowNames: seq<JsValue>, next: JsValue)
    ensures FirstTruthy(configured, rowNames + [next]) ==
      if FirstTruthy(configured, rowNames).Some? then FirstTruthy(configured, rowNames)
      else if Truthy(next) then Some(next) else None
    decreases |rowNames|
  {
    if !Truthy(configured) {
      if rowNames == [] {
        assert (rowNames + [next])[1..] == [];
      } else {
        assert (rowNames + [next])[0] == rowNames[0];
        assert (rowNames + [next])[1..] == rowNames[1..] + [next];
        FirstTruthySnoc(rowNames[0], rowNames[1..], next);
      }
    }
  }

  /**
   Each row gets the configured name when it is truthy, otherwise the first
   truthy name among the rows so far; before any truthy name appears, a row
   keeps its own.
   */
  lemma {:induction false} DefaultNamesFirstTruthy(configured: JsValue, rowNames: seq<JsValue>, i: int)
    requires 0 <= i < |rowNames|
    ensures DefaultNames(configured, rowNames)[i] ==
      match FirstTruthy(configured, rowNames[..i + 1])
      case Some(n) => n
      case None => rowNames[i]
    decreases |rowNames|
  {
    var init := rowNames[..|rowNames| - 1];
    var earlier := DefaultNames(configured, init);
    if i < |rowNames| - 1 {
      DefaultNamesFirstTruthy(configured, init, i);
      assert init[..i + 1] == rowNames[..i + 1];
    } else {
      FirstTruthySnoc(configured, init, rowNames[i]);
      assert rowNames[..i + 1] == init + [rowNames[i]];
      if i > 0 {
        DefaultNamesFirstTruthy(configured, init, i - 1);
        assert init[..i] == init;
      }
    }
  }

  /** A truthy configured name is given to every row. */
  lemma ConfiguredNameWins(configured: JsValue, rowNames: seq<JsValue>, i: int)
    requires Truthy(configured) && 0 <= i < |rowNames|
    ensures DefaultNames(configured, rowNames)[i] == configured
  {
    DefaultNamesFirstTruthy(configured, rowNames, i);
  }

  /** Without a configured name, a truthy first row's name is given to every row. */
  lemma FirstRowNameWins(configured: JsValue, rowNames: seq<JsValue>, i: int)
    requires !Truthy(configured) && |rowNames| > 0 && Truthy(rowNames[0]) && 0 <= i < |rowNames|
    ensures DefaultNames(configured, rowNames)[i] == rowNames[0]
  {
    DefaultNamesFirstTruthy(configured, rowNames, i);
    assert rowNames[..i + 1][0] == rowNames[0];
  }
}
