/**
 The legacy donations report: for each EIN listed in `eins.txt`, one
 tab-separated row and one JSON object per distinct tax period, read through
 the DOM (`getElementsByTagName`) rather than XPath. A header row of titles
 comes first.
 */
module Donations {
  import opened Outcomes
  import opened JsText
  import opened JsValues
  import opened XmlTree
  import opened Sequences

  /** The Schedule H line groups the report reads, in column order. */
  const Lines: seq<string> := [
    "FinancialAssistanceAtCostTyp",
    "UnreimbursedMedicaidGrp",
    "TotalFinancialAssistanceTyp",
    "CommunityHealthServicesGrp",
    "HealthProfessionsEducationGrp",
    "SubsidizedHealthServicesGrp",
    "ResearchGrp",
    "CashAndInKindContributionsGrp",
    "TotalOtherBenefitsGrp",
    "TotalCommunityBenefitsGrp",
    "CommunitySupportGrp",
    "TotalCommuntityBuildingActyGrp"
  ]

  /** The amounts read inside each line group, in column order. */
  const Fields: seq<string> := [
    "TotalCommunityBenefitExpnsAmt",
    "DirectOffsettingRevenueAmt",
    "NetCommunityBenefitExpnsAmt",
    "TotalExpensePct"
  ]

  /** The columns that precede the line-group values. */
  const FixedColumns: seq<string> := ["EIN", "Business Name", "Tax End Date", "Total Functional Expenses"]

  /** The header title of one line-group value: `${line} ${field}`. */
  function ColumnTitle(line: string, field: string): string {
    line + " " + field
  }

  /** The header row's columns. */
  function Header(): seq<string> {
    FixedColumns + Cross(Lines, Fields, ColumnTitle)
  }

  /**
   The header has the four fixed columns and then one title per (line, field)
   pair, line-major: 4 + 12 * 4 = 52 columns.
   */
  lemma HeaderShape()
    ensures |Header()| == |FixedColumns| + |Lines| * |Fields| == 52
    ensures Header()[..4] == FixedColumns
  {
    PrefixOfAppend(FixedColumns, Cross(Lines, Fields, ColumnTitle));
  }

  /** Column `4 + 4i + j` is titled by line `i` and field `j`. */
  lemma HeaderTitle(i: int, j: int)
    requires 0 <= i < |Lines| && 0 <= j < |Fields|
    ensures Header()[4 + 4 * i + j] == ColumnTitle(Lines[i], Fields[j])
  {
    TitleAt(FixedColumns, Lines, Fields, i, j);
  }

  /** Behind four fixed columns, column `4 + 4i + j` of a four-field title block is titled by line `i` and field `j`. */
  lemma TitleAt(fixed: seq<string>, lines: seq<string>, fields: seq<string>, i: int, j: int)
    requires |fixed| == 4 && |fields| == 4 && 0 <= i < |lines| && 0 <= j < 4
    ensures (fixed + Cross(lines, fields, ColumnTitle))[4 + 4 * i + j] == ColumnTitle(lines[i], fields[j])
  {
    CrossAt(fixed, lines, fields, ColumnTitle, 4, 4, i, j);
    var title := (fixed + Cross(lines, fields, ColumnTitle))[4 + 4 * i + j];
    assert title == ColumnTitle(lines[i], fields[j]);
  }

  /** `documentElement.getElementsByTagName("TaxPeriodEndDt")[0].textContent`: throws when there is none. */
  function PeriodEnd(doc: Document): (r: Result<string>)
    ensures r.Ok? <==> ByTag(doc.root, "TaxPeriodEndDt") != []
    ensures r.Ok? ==> r.value == TextContent(ByTag(doc.root, "TaxPeriodEndDt")[0])
  {
    match FirstByTag(doc.root, "TaxPeriodEndDt")
    case None => Err(MissingNode(["TaxPeriodEndDt"]))
    case Some(e) => Ok(TextContent(e))
  }

  /**
   The `BusinessNameLine1Txt` text of the first `Filer`: throws when the filer
   or its name element is missing.
   */
  function FilerName(doc: Document): (r: Result<string>)
    ensures r.Ok? <==> FirstByTag(doc.root, "Filer").Some?
                       && ByTag(FirstByTag(doc.root, "Filer").value, "BusinessNameLine1Txt") != []
  {
    match FirstByTag(doc.root, "Filer")
    case None => Err(MissingNode(["Filer"]))
    case Some(filer) =>
      match FirstByTag(filer, "BusinessNameLine1Txt")
      case None => Err(MissingNode(["Filer", "BusinessNameLine1Txt"]))
      case Some(e) => Ok(TextContent(e))
  }

  /** Part IX line 25 column A: the first `TotalAmt` of the first `TotalFunctionalExpensesGrp`, `""` when either is missing. */
  function TotalExpenses(doc: Document): (t: string)
    ensures FirstByTag(doc.root, "TotalFunctionalExpensesGrp").None? ==> t == ""
    ensures FirstByTag(doc.root, "TotalFunctionalExpensesGrp").Some? ==>
      var amounts := ByTag(FirstByTag(doc.root, "TotalFunctionalExpensesGrp").value, "TotalAmt");
      t == if amounts == [] then "" else TextContent(amounts[0])
  {
    match FirstByTag(doc.root, "TotalFunctionalExpensesGrp")
    case None => ""
    case Some(group) =>
      match FirstByTag(group, "TotalAmt")
      case None => ""
      case Some(amount) => TextContent(amount)
  }

  /**
   The text of `field` inside the first `line` of the first Schedule H, when
   the schedule, the line group and the field all exist.
   */
  function Cell(doc: Document, line: string, field: string): Option<string> {
    match FirstByTag(doc.root, "IRS990ScheduleH")
    case None => None
    case Some(schedule) =>
      match FirstByTag(schedule, line)
      case None => None
      case Some(lineItem) =>
        match FirstByTag(lineItem, field)
        case None => None
        case Some(fieldItem) => Some(TextContent(fieldItem))
  }

  /** A numeric property of the JSON object. */
  datatype JsonField = JsonField(key: string, value: Number)

  /** The JSON object of one filing; `fields` holds the line-group properties in assignment order. */
  datatype JsonRow = JsonRow(
    ein: ParsedInt, businessName: string, taxPeriodEndDate: string,
    totalFunctionalExpensesAmt: Number, fields: seq<JsonField>)

  /** The TSV columns and the JSON object built from one filing. */
  datatype Report = Report(cols: seq<string>, json: JsonRow)

  /** The JSON key of a line-group value: `${line}_${field}`. */
  function JsonKey(line: string, field: string): string {
    line + "_" + field
  }

  /** A JSON property the nested loops consider, with the text found for it. */
  datatype Candidate = Candidate(key: string, text: Option<string>)

  function CandidateOf(doc: Document, line: string, field: string): Candidate {
    Candidate(JsonKey(line, field), Cell(doc, line, field))
  }

  function CandidateFn(doc: Document): (string, string) -> Candidate {
    (l, f) => CandidateOf(doc, l, f)
  }

  /** Every (line, field) pair in loop order, with the text found for it. */
  function Candidates(doc: Document): seq<Candidate> {
    Cross(Lines, Fields, CandidateFn(doc))
  }

  /** The properties assigned: only candidates whose line and field both exist. */
  function Assigned(cs: seq<Candidate>): seq<JsonField> {
    if cs == [] then [] else Assign(cs[0]) + Assigned(cs[1..])
  }

  /** One candidate's assignment: its property when its text exists, nothing otherwise. */
  function Assign(c: Candidate): seq<JsonField> {
    match c.text
    case None => []
    case Some(t) => [JsonField(c.key, ParseFloat(t))]
  }

  /** `jsonObj[key]`: the value of the property with that key, if it was assigned. */
  function JsonLookup(fields: seq<JsonField>, key: string): Option<Number> {
    if fields == [] then None
    else if fields[0].key == key then Some(fields[0].value)
    else JsonLookup(fields[1..], key)
  }

  /** The column of each (line, field) pair: its text, or `""` when it is missing. */
  function CellColumns(doc: Document): seq<string> {
    Cross(Lines, Fields, CellFn(doc))
  }

  function CellFn(doc: Document): (string, string) -> string {
    (l, f) => Cell(doc, l, f).GetOr("")
  }

  /**
   The row and the JSON object of one filing whose period-end date is `date`;
   throws when the filer's business name is missing.
   */
  function Build(ein: ParsedInt, doc: Document, date: string): (r: Result<Report>)
    ensures r.Ok? <==> FilerName(doc).Ok?
    ensures r.Ok? ==> |r.value.cols| == |FixedColumns| + |Lines| * |Fields|
    ensures r.Ok? ==> r.value.cols[..4] == [ParsedIntToString(ein), FilerName(doc).value, date, TotalExpenses(doc)]
    ensures r.Ok? ==> r.value.json.taxPeriodEndDate == date
  {
    var name :- FilerName(doc);
    var total := TotalExpenses(doc);
    var fixed := [ParsedIntToString(ein), name, date, total];
    PrefixOfAppend(fixed, CellColumns(doc));

    Ok(Report(
      fixed + CellColumns(doc),
      JsonRow(ein, name, date, ParseFloat(total), Assigned(Candidates(doc)))))
  }

  /** Each line-group column holds the field's text, or `""` when the schedule, line or field is missing. */
  lemma BuildColumn(ein: ParsedInt, doc: Document, date: string, i: int, j: int)
    requires FilerName(doc).Ok?
    requires 0 <= i < |Lines| && 0 <= j < |Fields|
    ensures Build(ein, doc, date).value.cols[4 + 4 * i + j] == Cell(doc, Lines[i], Fields[j]).GetOr("")
  {
    BuildCols(ein, doc, date);
    CellAt(FixedValues(ein, doc, date), doc, Lines, Fields, i, j);
  }

  /** Behind four fixed values, column `4 + 4i + j` of a four-field cell block holds line `i`'s field `j`. */
  lemma CellAt(fixed: seq<string>, doc: Document, lines: seq<string>, fields: seq<string>, i: int, j: int)
    requires |fixed| == 4 && |fields| == 4 && 0 <= i < |lines| && 0 <= j < 4
    ensures (fixed + Cross(lines, fields, CellFn(doc)))[4 + 4 * i + j] == Cell(doc, lines[i], fields[j]).GetOr("")
  {
    CrossAt(fixed, lines, fields, CellFn(doc), 4, 4, i, j);
    var cell := (fixed + Cross(lines, fields, CellFn(doc)))[4 + 4 * i + j];
    assert cell == Cell(doc, lines[i], fields[j]).GetOr("");
  }

  /** The JSON object has a `${line}_${field}` property exactly when both elements exist, holding `parseFloat` of the text. */
  lemma BuildJsonField(ein: ParsedInt, doc: Document, date: string, i: int, j: int)
    requires FilerName(doc).Ok?
    requires 0 <= i < |Lines| && 0 <= j < |Fields|
    ensures var v := JsonLookup(Build(ein, doc, date).value.json.fields, JsonKey(Lines[i], Fields[j]));
      && (v.Some? <==> Cell(doc, Lines[i], Fields[j]).Some?)
      && (v.Some? ==> v.value == ParseFloat(Cell(doc, Lines[i], Fields[j]).value))
  {
    BuildJson(ein, doc, date);
    CandidateKeysDistinct(doc);
    CandidateLookup(doc, Lines, Fields, i, j);
  }

  /** With distinct keys, the `${line}_${field}` property is assigned exactly when its cell exists, as `parseFloat` of the text. */
  lemma CandidateLookup(doc: Document, lines: seq<string>, fields: seq<string>, i: int, j: int)
    requires 0 <= i < |lines| && 0 <= j < |fields|
    requires KeysDistinct(Cross(lines, fields, CandidateFn(doc)))
    ensures var v := JsonLookup(Assigned(Cross(lines, fields, CandidateFn(doc))), JsonKey(lines[i], fields[j]));
      && (v.Some? <==> Cell(doc, lines[i], fields[j]).Some?)
      && (v.Some? ==> v.value == ParseFloat(Cell(doc, lines[i], fields[j]).value))
  {
    CrossIndex(lines, fields, CandidateFn(doc), i, j);
    AssignedLookup(Cross(lines, fields, CandidateFn(doc)), i * |fields| + j);
  }

  /** The four leading columns of a built row. */
  function FixedValues(ein: ParsedInt, doc: Document, date: string): seq<string>
    requires FilerName(doc).Ok?
  {
    [ParsedIntToString(ein), FilerName(doc).value, date, TotalExpenses(doc)]
  }

  /** A built row is the four leading columns then the cell columns. */
  lemma BuildCols(ein: ParsedInt, doc: Document, date: string)
    requires FilerName(doc).Ok?
    ensures Build(ein, doc, date).value.cols == FixedValues(ein, doc, date) + CellColumns(doc)
  {
  }

  /** A built JSON object holds the assigned candidates. */
  lemma BuildJson(ein: ParsedInt, doc: Document, date: string)
    requires FilerName(doc).Ok?
    ensures Build(ein, doc, date).value.json.fields == Assigned(Candidates(doc))
  {
  }

  /** The candidates' keys are pairwise different. */
  predicate KeysDistinct(cs: seq<Candidate>) {
    forall a, b :: 0 <= a < b < |cs| ==> cs[a].key != cs[b].key
  }

  /** With distinct keys, looking up a candidate's key finds its value exactly when it was assigned. */
  lemma {:induction false} AssignedLookup(cs: seq<Candidate>, k: int)
    requires KeysDistinct(cs)
    requires 0 <= k < |cs|
    ensures var v := JsonLookup(Assigned(cs), cs[k].key);
      && (v.Some? <==> cs[k].text.Some?)
      && (v.Some? ==> v.value == ParseFloat(cs[k].text.value))
    decreases k
  {
    var head := Assign(cs[0]);
    var key := cs[k].key;
    JsonLookupAppend(head, Assigned(cs[1..]), key);
    if k == 0 {
      AssignedAbsent(cs[1..], key);
    } else {
      assert cs[0].key != key;
      assert cs[1..][k - 1] == cs[k];
      AssignedLookup(cs[1..], k - 1);
    }
  }

  /** A key no candidate carries is never assigned. */
  lemma {:induction false} AssignedAbsent(cs: seq<Candidate>, key: string)
    requires forall a :: 0 <= a < |cs| ==> cs[a].key != key
    ensures JsonLookup(Assigned(cs), key) == None
    decreases |cs|
  {
    if cs != [] {
      AssignedAbsent(cs[1..], key);
      JsonLookupAppend(Assign(cs[0]), Assigned(cs[1..]), key);
    }
  }

  lemma {:induction false} JsonLookupAppend(a: seq<JsonField>, b: seq<JsonField>, key: string)
    ensures JsonLookup(a + b, key) == if JsonLookup(a, key).Some? then JsonLookup(a, key) else JsonLookup(b, key)
    decreases |a|
  {
    if a == [] {
      assert a + b == b;
    } else {
      assert (a + b)[1..] == a[1..] + b;
      JsonLookupAppend(a[1..], b, key);
    }
  }

  /** `${line}_${field}` determines the line and the field, since no line name contains `_`. */
  lemma JsonKeyInjective(l1: string, f1: string, l2: string, f2: string)
    requires '_' !in l1 && '_' !in l2
    requires JsonKey(l1, f1) == JsonKey(l2, f2)
    ensures l1 == l2 && f1 == f2
  {
    var k := JsonKey(l1, f1);
    assert k[..|l1|] == l1 && k[|l1|] == '_';
    FindCharFirst(k, '_', |l1|);
    assert k[..|l2|] == l2 && k[|l2|] == '_';
    FindCharFirst(k, '_', |l2|);
    assert l1 == k[..|l1|] == l2;
    assert f1 == k[|l1| + 1..] == f2;
  }

  /** No line tag contains `_`; checked four tags at a time. */
  lemma LinesWithoutUnderscore()
    ensures forall a :: 0 <= a < |Lines| ==> '_' !in Lines[a]
  {
    LinesWithoutUnderscoreFrom0();
    LinesWithoutUnderscoreFrom4();
    LinesWithoutUnderscoreFrom8();
  }

  lemma LinesWithoutUnderscoreFrom0()
    ensures forall a :: 0 <= a < 4 ==> '_' !in Lines[a]
  {
  }

  lemma LinesWithoutUnderscoreFrom4()
    ensures forall a :: 4 <= a < 8 ==> '_' !in Lines[a]
  {
  }

  lemma LinesWithoutUnderscoreFrom8()
    ensures forall a :: 8 <= a < 12 ==> '_' !in Lines[a]
  {
  }

  lemma LinesDistinct()
    ensures Distinct(Lines)
  {
  }

  lemma FieldsDistinct()
    ensures Distinct(Fields)
  {
  }

  /** The JSON keys of the 48 (line, field) pairs are all different. */
  lemma CandidateKeysDistinct(doc: Document)
    ensures KeysDistinct(Candidates(doc))
  {
    LinesWithoutUnderscore();
    LinesDistinct();
    FieldsDistinct();
    CrossKeysDistinct(doc, Lines, Fields);
  }

  /** Distinct underscore-free lines and distinct fields give distinct `${line}_${field}` keys. */
  lemma CrossKeysDistinct(doc: Document, lines: seq<string>, fields: seq<string>)
    requires forall a :: 0 <= a < |lines| ==> '_' !in lines[a]
    requires Distinct(lines) && Distinct(fields)
    ensures KeysDistinct(Cross(lines, fields, CandidateFn(doc)))
  {
    CandidatesInjective(doc, lines, fields);
    CrossDistinct(lines, fields, CandidateFn(doc));
    var cs := Cross(lines, fields, CandidateFn(doc));
    forall x, y | 0 <= x < y < |cs| ensures cs[x].key != cs[y].key {
      KeysApart(doc, lines, fields, cs[x], cs[y]);
    }
  }

  /** Candidates of different (line, field) positions differ, since their keys do. */
  lemma CandidatesInjective(doc: Document, lines: seq<string>, fields: seq<string>)
    requires forall a :: 0 <= a < |lines| ==> '_' !in lines[a]
    requires Distinct(lines) && Distinct(fields)
    ensures InjectiveOn(lines, fields, CandidateFn(doc))
  {
    var f := CandidateFn(doc);
    forall a, b, c, d |
      0 <= a < |lines| && 0 <= b < |fields| && 0 <= c < |lines| && 0 <= d < |fields|
      && f(lines[a], fields[b]) == f(lines[c], fields[d])
      ensures a == c && b == d
    {
      JsonKeyInjective(lines[a], fields[b], lines[c], fields[d]);
    }
  }

  /** Two different candidates of the cross product have different keys. */
  lemma KeysApart(doc: Document, lines: seq<string>, fields: seq<string>, x: Candidate, y: Candidate)
    requires forall a :: 0 <= a < |lines| ==> '_' !in lines[a]
    requires x in Cross(lines, fields, CandidateFn(doc)) && y in Cross(lines, fields, CandidateFn(doc))
    requires x != y
    ensures x.key != y.key
  {
    var f := CandidateFn(doc);
    CrossMember(lines, fields, f, x);
    CrossMember(lines, fields, f, y);
    var a, b :| 0 <= a < |lines| && 0 <= b < |fields| && x == f(lines[a], fields[b]);
    var c, d :| 0 <= c < |lines| && 0 <= d < |fields| && y == f(lines[c], fields[d]);
    if x.key == y.key {
      JsonKeyInjective(lines[a], fields[b], lines[c], fields[d]);
    }
  }

  /** The period-end dates of the filings that have one. */
  function DatesOf(docs: seq<Document>): set<string> {
    set i | 0 <= i < |docs| && PeriodEnd(docs[i]).Ok? :: PeriodEnd(docs[i]).value
  }

  /** Adding a filing adds its date, if it has one. */
  lemma DatesOfSnoc(docs: seq<Document>)
    requires docs != []
    ensures var last := PeriodEnd(docs[|docs| - 1]);
      DatesOf(docs) == DatesOf(docs[..|docs| - 1]) + (if last.Ok? then {last.value} else {})
  {
    var earlier := docs[..|docs| - 1];
    assert forall k :: 0 <= k < |earlier| ==> earlier[k] == docs[k];
  }

  type Builder = (ParsedInt, Document, string) -> Result<Report>

  /**
   `runReport` for one EIN as a reference definition: the filings are handled
   in order, a filing whose period-end date an earlier filing already had is
   skipped, and the first failure ends the run.
   */
  function Run(build: Builder, ein: ParsedInt, docs: seq<Document>): Result<seq<Report>>
    decreases |docs|
  {
    if docs == [] then Ok([])
    else
      var rows :- Run(build, ein, docs[..|docs| - 1]);
      Step(build, ein, rows, DatesOf(docs[..|docs| - 1]), docs[|docs| - 1])
  }

  /** One iteration of the loop: skip a date already handled, else append the filing's row. */
  function Step(build: Builder, ein: ParsedInt, rows: seq<Report>, handled: set<string>, doc: Document): (r: Result<seq<Report>>)
    ensures r.Ok? <==> PeriodEnd(doc).Ok? && (PeriodEnd(doc).value in handled || build(ein, doc, PeriodEnd(doc).value).Ok?)
    ensures r.Ok? && PeriodEnd(doc).value in handled ==> r.value == rows
    ensures r.Ok? && PeriodEnd(doc).value !in handled ==> r.value == rows + [build(ein, doc, PeriodEnd(doc).value).value]
    ensures r.Err? ==> r.error == if PeriodEnd(doc).Err? then PeriodEnd(doc).error else build(ein, doc, PeriodEnd(doc).value).error
  {
    var date :- PeriodEnd(doc);
    if date in handled then Ok(rows)
    else
      var row :- build(ein, doc, date);
      Ok(rows + [row])
  }

  /** A successful run extends the successful run over all but its last filing by one step. */
  lemma RunLast(build: Builder, ein: ParsedInt, docs: seq<Document>)
    requires docs != [] && Run(build, ein, docs).Ok?
    ensures Run(build, ein, docs[..|docs| - 1]).Ok?
    ensures Run(build, ein, docs) == Step(build, ein, Run(build, ein, docs[..|docs| - 1]).value, DatesOf(docs[..|docs| - 1]), docs[|docs| - 1])
  {
  }

  /** Once a prefix of the filings fails, the whole run fails the same way. */
  lemma {:induction false} RunFailsFromPrefix(build: Builder, ein: ParsedInt, docs: seq<Document>, i: int)
    requires 0 <= i <= |docs|
    requires Run(build, ein, docs[..i]).Err?
    ensures Run(build, ein, docs) == Run(build, ein, docs[..i])
    decreases |docs| - i
  {
    if i < |docs| {
      var longer := docs[..i + 1];
      assert longer[..|longer| - 1] == docs[..i];
      RunFailsFromPrefix(build, ein, docs, i + 1);
    } else {
      assert docs[..i] == docs;
    }
  }

  /** The run over the first `i + 1` filings is one step past the run over the first `i`. */
  lemma RunNext(build: Builder, ein: ParsedInt, docs: seq<Document>, i: int, rows: seq<Report>)
    requires 0 <= i < |docs| && Run(build, ein, docs[..i]) == Ok(rows)
    ensures Run(build, ein, docs[..i + 1]) == Step(build, ein, rows, DatesOf(docs[..i]), docs[i])
    ensures DatesOf(docs[..i + 1]) == DatesOf(docs[..i]) + (if PeriodEnd(docs[i]).Ok? then {PeriodEnd(docs[i]).value} else {})
  {
    var prefix := docs[..i + 1];
    assert prefix[..i] == docs[..i] && prefix[i] == docs[i];
    DatesOfSnoc(prefix);
  }

  /**
   `runReport` as written: a loop over the filings with a `handled` set of
   dates, here with the per-filing builder as a parameter (`Build` is the one
   the script uses). It computes the reference definition.
   */
  method RunReport(build: Builder, ein: ParsedInt, docs: seq<Document>) returns (r: Result<seq<Report>>)
    ensures r == Run(build, ein, docs)
  {
    var handled: set<string> := {};
    var rows: seq<Report> := [];
    var i := 0;
    while i < |docs|
      invariant 0 <= i <= |docs|
      invariant Run(build, ein, docs[..i]) == Ok(rows)
      invariant handled == DatesOf(docs[..i])
    {
      RunNext(build, ein, docs, i, rows);
      var date := PeriodEnd(docs[i]);
      if date.Err? {
        RunFailsFromPrefix(build, ein, docs, i + 1);
        return Err(date.error);
      }
      if date.value !in handled {
        handled := handled + {date.value};
        var row := build(ein, docs[i], date.value);
        if row.Err? {
          RunFailsFromPrefix(build, ein, docs, i + 1);
          return Err(row.error);
        }
        rows := rows + [row.value];
      }
      i := i + 1;
    }
    assert docs[..i] == docs;
    r := Ok(rows);
  }

  /** The period-end dates of a run's rows, in order. */
  function RowDates(rows: seq<Report>): (ds: seq<string>)
    ensures |ds| == |rows|
    ensures forall k :: 0 <= k < |rows| ==> ds[k] == rows[k].json.taxPeriodEndDate
  {
    seq(|rows|, k requires 0 <= k < |rows| => rows[k].json.taxPeriodEndDate)
  }

  /** The builder records the date it was given. */
  ghost predicate KeepsDate(build: Builder) {
    forall ein, doc, date :: build(ein, doc, date).Ok? ==> build(ein, doc, date).value.json.taxPeriodEndDate == date
  }

  /** A successful run found a period-end date in every filing. */
  lemma {:induction false} RunAllDated(build: Builder, ein: ParsedInt, docs: seq<Document>)
    requires Run(build, ein, docs).Ok?
    ensures forall i :: 0 <= i < |docs| ==> PeriodEnd(docs[i]).Ok?
    decreases |docs|
  {
    if docs != [] {
      var earlier := docs[..|docs| - 1];
      RunLast(build, ein, docs);
      RunAllDated(build, ein, earlier);
      forall i | 0 <= i < |docs|
        ensures PeriodEnd(docs[i]).Ok?
      {
        if i < |earlier| {
          assert docs[i] == earlier[i];
        }
      }
    }
  }

  /**
   A successful run gives one row per distinct period-end date: no date
   twice, and every filing's date among the rows.
   */
  lemma {:induction false} RunOnePerDate(build: Builder, ein: ParsedInt, docs: seq<Document>)
    requires KeepsDate(build)
    requires Run(build, ein, docs).Ok?
    ensures Distinct(RowDates(Run(build, ein, docs).value))
    ensures (set d | d in RowDates(Run(build, ein, docs).value)) == DatesOf(docs)
    decreases |docs|
  {
    if docs != [] {
      var earlier := docs[..|docs| - 1];
      var last := docs[|docs| - 1];
      RunLast(build, ein, docs);
      RunAllDated(build, ein, docs);
      RunOnePerDate(build, ein, earlier);
      DatesOfSnoc(docs);
      var rows := Run(build, ein, earlier).value;
      var date := PeriodEnd(last).value;
      var out := Run(build, ein, docs).value;
      if date !in DatesOf(earlier) {
        assert out == rows + [build(ein, last, date).value];
        assert build(ein, last, date).value.json.taxPeriodEndDate == date;
        assert RowDates(out) == RowDates(rows) + [date];
      } else {
        assert out == rows;
      }
    }
  }

  /** `Build` records the date it was given. */
  lemma BuildKeepsDate()
    ensures KeepsDate(Build)
  {
  }

  /**
   For one EIN's filings, the report has one row per distinct period-end
   date, and the first filing of each date supplies it.
   */
  lemma ReportOnePerDate(ein: ParsedInt, docs: seq<Document>, i: int)
    requires Run(Build, ein, docs).Ok?
    requires 0 <= i < |docs|
    requires forall m :: 0 <= m < i ==> PeriodEnd(docs[m]) != PeriodEnd(docs[i])
    ensures Distinct(RowDates(Run(Build, ein, docs).value))
    ensures (set d | d in RowDates(Run(Build, ein, docs).value)) == DatesOf(docs)
    ensures PeriodEnd(docs[i]).Ok? && Build(ein, docs[i], PeriodEnd(docs[i]).value).Ok?
    ensures Build(ein, docs[i], PeriodEnd(docs[i]).value).value in Run(Build, ein, docs).value
  {
    BuildKeepsDate();
    RunOnePerDate(Build, ein, docs);
    RunKeepsFirst(Build, ein, docs, i);
  }

  /** The first filing with a given period-end date always contributes its row. */
  lemma {:induction false} RunKeepsFirst(build: Builder, ein: ParsedInt, docs: seq<Document>, i: int)
    requires Run(build, ein, docs).Ok?
    requires 0 <= i < |docs|
    requires forall m :: 0 <= m < i ==> PeriodEnd(docs[m]) != PeriodEnd(docs[i])
    ensures PeriodEnd(docs[i]).Ok?
    ensures build(ein, docs[i], PeriodEnd(docs[i]).value).Ok?
    ensures build(ein, docs[i], PeriodEnd(docs[i]).value).value in Run(build, ein, docs).value
    decreases |docs|
  {
    var earlier := docs[..|docs| - 1];
    RunLast(build, ein, docs);
    RunAllDated(build, ein, docs);
    if i == |docs| - 1 {
      FreshDate(docs, i);
    } else {
      assert forall m :: 0 <= m <= i ==> earlier[m] == docs[m];
      RunKeepsFirst(build, ein, earlier, i);
      RunGrows(build, ein, docs);
    }
  }

  /** A date no earlier filing had is not among the dates handled before it. */
  lemma FreshDate(docs: seq<Document>, i: int)
    requires 0 <= i < |docs| && PeriodEnd(docs[i]).Ok?
    requires forall m :: 0 <= m < i ==> PeriodEnd(docs[m]) != PeriodEnd(docs[i])
    ensures PeriodEnd(docs[i]).value !in DatesOf(docs[..i])
  {
    var earlier := docs[..i];
    assert forall m :: 0 <= m < |earlier| ==> earlier[m] == docs[m];
  }

  /** A successful run keeps every row of the run over all but its last filing. */
  lemma RunGrows(build: Builder, ein: ParsedInt, docs: seq<Document>)
    requires docs != [] && Run(build, ein, docs).Ok?
    ensures Run(build, ein, docs[..|docs| - 1]).Ok?
    ensures forall x :: x in Run(build, ein, docs[..|docs| - 1]).value ==> x in Run(build, ein, docs).value
  {
    RunLast(build, ein, docs);
  }

  /** A filing whose date an earlier filing had adds nothing: the run over both equals the run without it. */
  lemma SkipsLaterDuplicate(build: Builder, ein: ParsedInt, docs: seq<Document>, d: Document)
    requires Run(build, ein, docs).Ok?
    requires PeriodEnd(d).Ok? && PeriodEnd(d).value in DatesOf(docs)
    ensures Run(build, ein, docs + [d]) == Run(build, ein, docs)
  {
    var all := docs + [d];
    assert all[..|all| - 1] == docs;
  }

  /** `cols.join("\t")` */
  function TsvLine(cols: seq<string>): string {
    Join(cols, '\t')
  }

  /** A row whose texts hold no tab splits back into exactly the header's number of columns. */
  lemma TsvRowWidth(ein: ParsedInt, doc: Document, date: string)
    requires FilerName(doc).Ok?
    requires SeparatorFree(Build(ein, doc, date).value.cols, '\t')
    ensures Split(TsvLine(Build(ein, doc, date).value.cols), '\t') == Build(ein, doc, date).value.cols
    ensures |Split(TsvLine(Build(ein, doc, date).value.cols), '\t')| == |Header()|
  {
    SplitJoin(Build(ein, doc, date).value.cols, '\t');
  }

  /** Lines of `eins.txt`: split on newlines, empty lines dropped. */
  function NonEmptyLines(text: string): seq<string> {
    Filter(Split(text, '\n'))
  }

  /** `.filter((s) => s.length)`: the non-empty lines, in order. */
  function Filter(lines: seq<string>): (r: seq<string>)
    ensures forall k :: 0 <= k < |r| ==> r[k] != "" && r[k] in lines
    ensures forall k :: 0 <= k < |lines| && lines[k] != "" ==> lines[k] in r
  {
    Where(lines, l => l != "")
  }

  /** The EINs of `eins.txt`, each line trimmed and read base 10. */
  function EinsOf(text: string): seq<ParsedInt> {
    var lines := NonEmptyLines(text);
    seq(|lines|, k requires 0 <= k < |lines| => ParseInt(Trim(lines[k])))
  }

  /** A text that starts and ends with a non-space is its own trim. */
  lemma TrimOfUnpadded(s: string)
    requires |s| > 0 && !IsSpace(s[0]) && !IsSpace(s[|s| - 1])
    ensures Trim(s) == s
  {
    assert TrimStart(s) == s;
  }

  /** Filtering keeps a list whose entries are all non-empty. */
  lemma {:induction false} FilterKeepsNonEmpty(lines: seq<string>)
    requires forall k :: 0 <= k < |lines| ==> lines[k] != ""
    ensures Filter(lines) == lines
    decreases |lines|
  {
    if lines != [] {
      FilterKeepsNonEmpty(lines[1..]);
    }
  }

  /** Filtering works line by line: an empty line is dropped, any other is kept, in order. */
  lemma FilterLineByLine(a: seq<string>, b: seq<string>, line: string)
    ensures Filter(a + b) == Filter(a) + Filter(b)
    ensures Filter([line]) == if line == "" then [] else [line]
  {
    WhereAppend(a, b, l => l != "");
    assert [line][1..] == [];
  }

  /** The decimal form of each EIN, one per line. */
  function EinListing(eins: seq<nat>): string {
    Join(seq(|eins|, k requires 0 <= k < |eins| => NatToString(eins[k])), '\n')
  }

  /** Reading back a listing of EINs, one decimal number per line, recovers the EINs. */
  lemma EinsOfListing(eins: seq<nat>)
    ensures EinsOf(EinListing(eins)) == seq(|eins|, k requires 0 <= k < |eins| => Int(eins[k]))
  {
    var texts := seq(|eins|, k requires 0 <= k < |eins| => NatToString(eins[k]));
    if eins == [] {
      assert Split("", '\n') == [""];
    } else {
      ListingLines(eins);
      forall k | 0 <= k < |eins| ensures ParseInt(Trim(texts[k])) == Int(eins[k]) {
        DecimalReadsBack(eins[k]);
      }
    }
  }

  /** The non-empty lines of a listing are the decimal forms of the EINs. */
  lemma ListingLines(eins: seq<nat>)
    requires eins != []
    ensures NonEmptyLines(EinListing(eins)) == seq(|eins|, k requires 0 <= k < |eins| => NatToString(eins[k]))
  {
    var texts := seq(|eins|, k requires 0 <= k < |eins| => NatToString(eins[k]));
    assert SeparatorFree(texts, '\n') by {
      forall k | 0 <= k < |texts| ensures '\n' !in texts[k] {
        assert AllDigits(texts[k]);
      }
    }
    SplitJoin(texts, '\n');
    FilterKeepsNonEmpty(texts);
  }

  /** A trimmed decimal line reads back as its number. */
  lemma DecimalReadsBack(n: nat)
    ensures ParseInt(Trim(NatToString(n))) == Int(n)
  {
    var t := NatToString(n);
    assert AllDigits(t);
    TrimOfUnpadded(t);
    ParseIntOfIntToString(n);
  }
}
