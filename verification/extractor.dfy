/**
 The Schedule H field extractor: the format gate (`isValidFormat`), the tax
 year reader (`getTaxYear`), blank-versus-number coercion (`parseNumber`) and
 the record extraction (`extractFields`) that resolves every catalog entry
 against a filing.
 */
module Extractor {
  import opened Outcomes
  import opened JsValues
  import opened XmlTree
  import opened Sequences
  import opened FieldCatalog

  /** A value of an extracted record. */
  datatype Value =
    /** Text copied from the filing. */
    | Str(s: string)
    /** `parseInt` of the `TaxYr` text. */
    | Year(year: ParsedInt)
    /** `parseFloat` of a non-empty text; the text is kept, its value is `ParseFloat(text)`. */
    | Num(text: string)
    /** The `""` marker: nothing reported. */
    | Blank
    /** `undefined`: no business-name element was found. */
    | Undefined

  /** One property of the record, in the order it was assigned. */
  datatype Entry = Entry(key: string, value: Value)

  /** A record: its properties in insertion order, which is the order `Object.keys` lists them. */
  type Record = seq<Entry>

  const TaxYrPath: seq<string> := ["TaxYr"]
  const EinPath: seq<string> := ["Filer", "EIN"]
  const NamePath: seq<string> := ["Filer", "BusinessName", "BusinessNameLine1Txt"]
  const LegacyNamePath: seq<string> := ["Filer", "BusinessName", "BusinessNameLine1"]
  const TaxPeriodEndPath: seq<string> := ["TaxPeriodEndDt"]
  const ReturnTsPath: seq<string> := ["ReturnTs"]
  const TotalExpensesPath: seq<string> := ["TotalFunctionalExpensesGrp", "TotalAmt"]
  const OtherSalariesPath: seq<string> := ["OtherSalariesAndWagesGrp", "TotalAmt"]
  const ScheduleH: string := "IRS990ScheduleH"

  /** `parseNumber`: the empty text is the blank marker, any other text is a number. */
  function ParseNumber(text: string): (v: Value)
    ensures v.Blank? <==> text == ""
    ensures v.Blank? || v == Num(text)
  {
    if |text| > 0 then Num(text) else Blank
  }

  /** A literal `"0"` gives the number 0, which is not the blank marker. */
  lemma BlankIsNotZero()
    ensures ParseNumber("0") == Num("0") && ParseFloat("0") == Fin(0.0)
    ensures ParseNumber("0") != ParseNumber("")
  {
    ParseFloatOfNatToString(0);
    assert NatToString(0) == "0";
  }

  /** `isValidFormat`: the filing has at least one `TaxYr` element. */
  predicate IsValidFormat(doc: Document) {
    |Select(doc, TaxYrPath)| > 0
  }

  /** `select(path, doc)[0].textContent`: throws when nothing matches. */
  function Required(doc: Document, path: seq<string>): (r: Result<string>)
    ensures r.Ok? <==> Select(doc, path) != []
    ensures r.Ok? ==> FirstText(doc, path) == Some(r.value)
    ensures r.Err? ==> r.error == MissingNode(path)
  {
    match FirstText(doc, path)
    case Some(t) => Ok(t)
    case None => Err(MissingNode(path))
  }

  /** `getTaxYear`: the first `TaxYr` text read base 10; throws when there is none. */
  function GetTaxYear(doc: Document): (r: Result<ParsedInt>)
    ensures r.Ok? <==> IsValidFormat(doc)
    ensures r.Ok? ==> r.value == ParseInt(FirstText(doc, TaxYrPath).value)
  {
    var text :- Required(doc, TaxYrPath);
    Ok(ParseInt(text))
  }

  /** `parseNumber(select(path, doc)?.[0]?.textContent ?? "")` */
  function NumberAt(doc: Document, path: seq<string>): (v: Value)
    ensures v.Blank? <==> FirstText(doc, path) == None || FirstText(doc, path) == Some("")
    ensures v.Num? ==> FirstText(doc, path) == Some(v.text) && v.text != ""
    ensures v.Blank? || v.Num?
  {
    ParseNumber(FirstText(doc, path).GetOr(""))
  }

  /** The record entry of one line group's sub-field. */
  function PartIEntry(doc: Document, line: Line, field: SubField): Entry {
    Entry(PartIId(line, field), NumberAt(doc, [ScheduleH, line.tag, field.tag]))
  }

  function PartIFn(doc: Document): (Line, SubField) -> Entry {
    (l, f) => PartIEntry(doc, l, f)
  }

  /** The Part I entries, line-major as the nested loops assign them. */
  function PartIEntries(doc: Document, lines: seq<Line>): seq<Entry> {
    Cross(lines, SubFields, PartIFn(doc))
  }

  /** One extra element: its value when the element exists, the blank marker otherwise. */
  function ExtraValue(doc: Document, tag: string): (v: Value)
    ensures v == NumberAt(doc, [ScheduleH, tag])
  {
    match FirstText(doc, [ScheduleH, tag])
    case Some(t) => ParseNumber(t)
    case None => Blank
  }

  function ExtraEntries(doc: Document): (r: seq<Entry>)
    ensures |r| == |Extras|
    ensures forall k :: 0 <= k < |Extras| ==> r[k] == Entry(Extras[k].id, ExtraValue(doc, Extras[k].tag))
  {
    seq(|Extras|, k requires 0 <= k < |Extras| => Entry(Extras[k].id, ExtraValue(doc, Extras[k].tag)))
  }

  /**
   The business name as intended: the `BusinessNameLine1Txt` text, else the
   legacy `BusinessNameLine1` text, else `undefined`.
   */
  function BusinessName(doc: Document): (v: Value)
    ensures Select(doc, NamePath) != [] ==> v == Str(FirstText(doc, NamePath).value)
    ensures Select(doc, NamePath) == [] && Select(doc, LegacyNamePath) != [] ==>
      v == Str(FirstText(doc, LegacyNamePath).value)
    ensures v == Undefined <==> Select(doc, NamePath) == [] && Select(doc, LegacyNamePath) == []
  {
    match FirstText(doc, NamePath)
    case Some(t) => Str(t)
    case None =>
      match FirstText(doc, LegacyNamePath)
      case Some(t) => Str(t)
      case None => Undefined
  }

  /**
   The business name as written: the fallback query is evaluated without a
   context node, which throws as soon as the first tag is missing.
   */
  function BusinessNameAsWritten(doc: Document): (r: Result<Value>)
    ensures r.Ok? <==> Select(doc, NamePath) != []
    ensures r.Ok? ==> r.value == BusinessName(doc)
    ensures r.Err? ==> r.error == NoContextNode(LegacyNamePath)
  {
    match FirstText(doc, NamePath)
    case Some(t) => Ok(Str(t))
    case None => Err(NoContextNode(LegacyNamePath))
  }

  /** The header values `extractFields` reads before the numeric fields. */
  datatype HeaderValues = HeaderValues(
    ein: string, businessName: Value, taxYear: ParsedInt, taxEndDate: string, returnTimeStamp: string)

  /** The record, property by property in the order `extractFields` assigns them. */
  function RecordOf(doc: Document, h: HeaderValues): Record {
    HeaderEntries(doc, h) + PartIEntries(doc, Lines) + ExtraEntries(doc)
  }

  /** The seven properties assigned before the Schedule H fields. */
  function HeaderEntries(doc: Document, h: HeaderValues): (r: Record)
    ensures |r| == 7
  {
    [ Entry("ein", Str(h.ein)),
      Entry("businessName", h.businessName),
      Entry("taxYear", Year(h.taxYear)),
      Entry("taxEndDate", Str(h.taxEndDate)),
      Entry("returnTimeStamp", Str(h.returnTimeStamp)),
      Entry("990_IX_25_A", NumberAt(doc, TotalExpensesPath)),
      Entry("990_IX_7_A", NumberAt(doc, OtherSalariesPath)) ]
  }

  /** The header values read from a filing whose mandatory elements are present. */
  function HeaderOf(doc: Document, name: Value): HeaderValues {
    HeaderValues(
      FirstText(doc, EinPath).GetOr(""), name, ParseInt(FirstText(doc, TaxYrPath).GetOr("")),
      FirstText(doc, TaxPeriodEndPath).GetOr(""), FirstText(doc, ReturnTsPath).GetOr(""))
  }

  /** Reads the header values, throwing at the first mandatory element that is missing. */
  function Assemble(doc: Document, name: Result<Value>): (r: Result<Record>)
    ensures r.Ok? ==> name.Ok? && r.value == RecordOf(doc, HeaderOf(doc, name.value))
  {
    var ein :- Required(doc, EinPath);
    var businessName :- name;
    var taxYear :- GetTaxYear(doc);
    var taxEndDate :- Required(doc, TaxPeriodEndPath);
    var returnTimeStamp :- Required(doc, ReturnTsPath);
    Ok(RecordOf(doc, HeaderValues(ein, businessName, taxYear, taxEndDate, returnTimeStamp)))
  }

  /** The structurally mandatory elements: EIN, tax year, period end and return timestamp. */
  predicate MandatoryPresent(doc: Document) {
    && Select(doc, EinPath) != []
    && IsValidFormat(doc)
    && Select(doc, TaxPeriodEndPath) != []
    && Select(doc, ReturnTsPath) != []
  }

  /** `extractFields` with the business-name fallback reading the document. */
  function ExtractFields(doc: Document): (r: Result<Record>)
    ensures r.Ok? <==> MandatoryPresent(doc)
    ensures r.Ok? ==> r.value == RecordOf(doc, HeaderOf(doc, BusinessName(doc)))
  {
    Assemble(doc, Ok(BusinessName(doc)))
  }

  /** `extractFields` as written, with the context-free fallback query. */
  function ExtractFieldsAsWritten(doc: Document): (r: Result<Record>)
    ensures r.Ok? <==> MandatoryPresent(doc) && Select(doc, NamePath) != []
  {
    Assemble(doc, BusinessNameAsWritten(doc))
  }

  /** The keys of a record, in order. */
  function Keys(r: Record): (ks: seq<string>)
    ensures |ks| == |r|
    ensures forall k :: 0 <= k < |r| ==> ks[k] == r[k].key
  {
    seq(|r|, k requires 0 <= k < |r| => r[k].key)
  }

  /** `record[key]`: the value of the first property with that key. */
  function Lookup(r: Record, key: string): Option<Value> {
    if r == [] then None
    else if r[0].key == key then Some(r[0].value)
    else Lookup(r[1..], key)
  }

  /** With distinct keys, each property is found at its own position. */
  lemma {:induction false} LookupAt(r: Record, k: int)
    requires Distinct(Keys(r))
    requires 0 <= k < |r|
    ensures Lookup(r, r[k].key) == Some(r[k].value)
    decreases k
  {
    if k > 0 {
      assert Keys(r)[0] != Keys(r)[k];
      assert Distinct(Keys(r[1..])) by {
        forall i, j | 0 <= i < j < |r| - 1 ensures Keys(r[1..])[i] != Keys(r[1..])[j] {
          assert Keys(r)[i + 1] != Keys(r)[j + 1];
        }
      }
      LookupAt(r[1..], k - 1);
    }
  }

  /** The Part I keys are the Part I catalog ids. */
  lemma {:induction false} PartIKeys(doc: Document, lines: seq<Line>)
    ensures Keys(PartIEntries(doc, lines)) == Cross(lines, SubFields, PartIId)
    decreases |lines|
  {
    if lines != [] {
      PartIKeys(doc, lines[1..]);
      var row := MapRow(lines[0], SubFields, PartIFn(doc));
      var rest := PartIEntries(doc, lines[1..]);
      assert PartIEntries(doc, lines) == row + rest;
      assert Keys(row + rest) == Keys(row) + Keys(rest);
      assert Keys(row) == MapRow(lines[0], SubFields, PartIId);
    }
  }

  lemma KeysAppend(a: Record, b: Record)
    ensures Keys(a + b) == Keys(a) + Keys(b)
  {
  }

  /** The seven header keys are the catalog's header ids. */
  lemma HeaderKeys(doc: Document, h: HeaderValues)
    ensures Keys(HeaderEntries(doc, h)) == Ids(Header)
  {
  }

  /** The extra keys are the catalog's extra ids. */
  lemma ExtraKeys(doc: Document)
    ensures Keys(ExtraEntries(doc)) == Ids(ExtraSpecs())
  {
  }

  /** The keys of every record `extractFields` can build are the catalog's ids, in catalog order. */
  lemma RecordOfKeys(doc: Document, h: HeaderValues)
    ensures Keys(RecordOf(doc, h)) == Ids(GetFields())
  {
    var head := HeaderEntries(doc, h);
    var partI := PartIEntries(doc, Lines);
    KeysAppend(head + partI, ExtraEntries(doc));
    KeysAppend(head, partI);
    HeaderKeys(doc, h);
    PartIKeys(doc, Lines);
    ExtraKeys(doc);
    CatalogIds();
  }

  /** The record's keys are exactly the catalog's ids, in catalog order. */
  lemma RecordKeysAreCatalogIds(doc: Document)
    requires MandatoryPresent(doc)
    ensures Keys(ExtractFields(doc).value) == Ids(GetFields())
    ensures Distinct(Keys(ExtractFields(doc).value))
  {
    var h := HeaderOf(doc, BusinessName(doc));
    RecordOfKeys(doc, h);
    IdsDistinct();
  }

  /** In every record, each line group's sub-field holds the value `NumberAt` reads for it. */
  lemma RecordOfPartI(doc: Document, h: HeaderValues, i: int, j: int)
    requires 0 <= i < |Lines| && 0 <= j < |SubFields|
    ensures Lookup(RecordOf(doc, h), PartIId(Lines[i], SubFields[j]))
      == Some(NumberAt(doc, [ScheduleH, Lines[i].tag, SubFields[j].tag]))
  {
    RecordKeysDistinct(doc, h);
    LookupInCross(HeaderEntries(doc, h), Lines, SubFields, PartIFn(doc), ExtraEntries(doc), i, j);
  }

  /** With distinct keys, an entry of a cross-product block is found under its own key. */
  lemma LookupInCross(head: Record, lines: seq<Line>, subs: seq<SubField>, g: (Line, SubField) -> Entry, tail: Record, i: int, j: int)
    requires 0 <= i < |lines| && 0 <= j < |subs|
    requires Distinct(Keys(head + Cross(lines, subs, g) + tail))
    ensures Lookup(head + Cross(lines, subs, g) + tail, g(lines[i], subs[j]).key) == Some(g(lines[i], subs[j]).value)
  {
    var rec := head + Cross(lines, subs, g) + tail;
    CrossAt(head, lines, subs, g, |head|, |subs|, i, j);
    var k := |head| + i * |subs| + j;
    assert rec[k] == (head + Cross(lines, subs, g))[k];
    LookupAt(rec, k);
  }

  /** With distinct keys, an entry of the last block is found under its own key. */
  lemma LookupInTail(head: Record, tail: Record, k: int)
    requires 0 <= k < |tail|
    requires Distinct(Keys(head + tail))
    ensures Lookup(head + tail, tail[k].key) == Some(tail[k].value)
  {
    assert (head + tail)[|head| + k] == tail[k];
    LookupAt(head + tail, |head| + k);
  }

  /**
   Every line group's sub-field is present in the record and holds the number
   at `//IRS990ScheduleH/line/field`, or the blank marker when that element is
   missing or empty.
   */
  lemma PartIValue(doc: Document, i: int, j: int)
    requires MandatoryPresent(doc)
    requires 0 <= i < |Lines| && 0 <= j < |SubFields|
    ensures var v := Lookup(ExtractFields(doc).value, PartIId(Lines[i], SubFields[j]));
      var path := [ScheduleH, Lines[i].tag, SubFields[j].tag];
      && v.Some?
      && (v.value.Blank? <==> FirstText(doc, path) in {None, Some("")})
      && (v.value.Num? ==> FirstText(doc, path) == Some(v.value.text))
  {
    var h := HeaderOf(doc, BusinessName(doc));
    RecordOfPartI(doc, h, i, j);
  }

  /** Below a missing element every value reads as blank. */
  lemma NumberBelowMissing(doc: Document, path: seq<string>, t: string)
    requires path != [] && Select(doc, path) == []
    ensures NumberAt(doc, path + [t]) == Blank
  {
    if Select(doc, path + [t]) != [] {
      ParentSelected(doc, path, t);
    }
  }

  lemma MissingLineBlankIn(doc: Document, h: HeaderValues, i: int, j: int)
    requires 0 <= i < |Lines| && 0 <= j < |SubFields|
    requires Select(doc, [ScheduleH, Lines[i].tag]) == []
    ensures Lookup(RecordOf(doc, h), PartIId(Lines[i], SubFields[j])) == Some(Blank)
  {
    RecordOfPartI(doc, h, i, j);
    MissingLineNumber(doc, Lines[i].tag, SubFields[j].tag);
  }

  /** Every field of a line group missing from Schedule H reads as blank. */
  lemma MissingLineNumber(doc: Document, line: string, field: string)
    requires Select(doc, [ScheduleH, line]) == []
    ensures NumberAt(doc, [ScheduleH, line, field]) == Blank
  {
    NumberBelowMissing(doc, [ScheduleH, line], field);
    assert [ScheduleH, line] + [field] == [ScheduleH, line, field];
  }

  /** A line group missing from Schedule H leaves all four of its sub-fields blank, never an error. */
  lemma MissingLineIsBlank(doc: Document, i: int, j: int)
    requires MandatoryPresent(doc)
    requires 0 <= i < |Lines| && 0 <= j < |SubFields|
    requires Select(doc, [ScheduleH, Lines[i].tag]) == []
    ensures Lookup(ExtractFields(doc).value, PartIId(Lines[i], SubFields[j])) == Some(Blank)
  {
    MissingLineBlankIn(doc, HeaderOf(doc, BusinessName(doc)), i, j);
  }

  /** Every extra element is present in the record, blank when the element is missing or empty. */
  lemma ExtraValueAt(doc: Document, k: int)
    requires MandatoryPresent(doc)
    requires 0 <= k < |Extras|
    ensures var v := Lookup(ExtractFields(doc).value, Extras[k].id);
      && v.Some?
      && (v.value.Blank? <==> FirstText(doc, [ScheduleH, Extras[k].tag]) in {None, Some("")})
      && (v.value.Num? ==> FirstText(doc, [ScheduleH, Extras[k].tag]) == Some(v.value.text))
  {
    ExtraInRecord(doc, HeaderOf(doc, BusinessName(doc)), k);
  }

  /** In every record, each extra element's key holds the value read for that element. */
  lemma ExtraInRecord(doc: Document, h: HeaderValues, k: int)
    requires 0 <= k < |Extras|
    ensures Lookup(RecordOf(doc, h), Extras[k].id) == Some(NumberAt(doc, [ScheduleH, Extras[k].tag]))
  {
    RecordKeysDistinct(doc, h);
    LookupInTail(HeaderEntries(doc, h) + PartIEntries(doc, Lines), ExtraEntries(doc), k);
  }

  /** No two properties of a record share a key. */
  lemma RecordKeysDistinct(doc: Document, h: HeaderValues)
    ensures Distinct(Keys(RecordOf(doc, h)))
  {
    RecordOfKeys(doc, h);
    IdsDistinct();
  }

  /** Where both versions succeed they build the same record. */
  lemma AsWrittenAgreesWhenNamePresent(doc: Document)
    requires Select(doc, NamePath) != []
    ensures ExtractFieldsAsWritten(doc) == ExtractFields(doc)
  {
  }

  /** A filing of the older layout: the business name only under the legacy tag. */
  function LegacyNameFiling(): Document {
    Document(Element("Return", [
      Element("ReturnTs", [Text("2011-05-12T10:00:00-05:00")]),
      Element("TaxPeriodEndDt", [Text("2010-12-31")]),
      Element("TaxYr", [Text("2010")]),
      Element("Filer", [
        Element("EIN", [Text("231352685")]),
        Element("BusinessName", [Element("BusinessNameLine1", [Text("THE HOSPITAL")])])
      ])
    ]))
  }

  /** The filer block of the legacy filing in document order, with its tag chains. */
  function FilerOrder(): seq<Located> {
    [Located(["Return", "Filer"], LegacyNameFiling().root.kids[3]),
     Located(["Return", "Filer", "EIN"], Element("EIN", [Text("231352685")])),
     Located(["Return", "Filer", "BusinessName"], Element("BusinessName", [Element("BusinessNameLine1", [Text("THE HOSPITAL")])])),
     Located(["Return", "Filer", "BusinessName", "BusinessNameLine1"], Element("BusinessNameLine1", [Text("THE HOSPITAL")]))]
  }

  /** The elements below the legacy filing's root in document order, with their tag chains. */
  function KidsOrder(): seq<Located> {
    [Located(["Return", "ReturnTs"], Element("ReturnTs", [Text("2011-05-12T10:00:00-05:00")])),
     Located(["Return", "TaxPeriodEndDt"], Element("TaxPeriodEndDt", [Text("2010-12-31")])),
     Located(["Return", "TaxYr"], Element("TaxYr", [Text("2010")]))]
    + FilerOrder()
  }

  /** The legacy filing's elements in document order, with their tag chains. */
  function LegacyOrder(): seq<Located> {
    [Located(["Return"], LegacyNameFiling().root)] + KidsOrder()
  }

  lemma FilerPreorder()
    ensures Preorder(LegacyNameFiling().root.kids[3], ["Return"]) == FilerOrder()
  {
    var leaf := Element("BusinessNameLine1", [Text("THE HOSPITAL")]);
    var bn := Element("BusinessName", [leaf]);
    var ein := Element("EIN", [Text("231352685")]);
    PreorderLeaf("BusinessNameLine1", "THE HOSPITAL", ["Return", "Filer", "BusinessName"]);
    PreorderSingle(leaf, ["Return", "Filer", "BusinessName"]);
    PreorderLeaf("EIN", "231352685", ["Return", "Filer"]);
    PreorderPair(ein, bn, ["Return", "Filer"]);
    var filer := Element("Filer", [ein, bn]);
    assert filer == LegacyNameFiling().root.kids[3];
    assert ["Return"] + ["Filer"] == ["Return", "Filer"];
    assert ["Return", "Filer"] + ["BusinessName"] == ["Return", "Filer", "BusinessName"];
    assert ["Return", "Filer", "BusinessName"] + ["BusinessNameLine1"] == ["Return", "Filer", "BusinessName", "BusinessNameLine1"];
    assert ["Return", "Filer"] + ["EIN"] == ["Return", "Filer", "EIN"];
    assert Preorder(bn, ["Return", "Filer"]) == [Located(["Return", "Filer", "BusinessName"], bn)] + PreorderAll([leaf], ["Return", "Filer", "BusinessName"]);
    assert Preorder(filer, ["Return"]) == [Located(["Return", "Filer"], filer)] + PreorderAll([ein, bn], ["Return", "Filer"]);
  }

  lemma KidsPreorder()
    ensures PreorderAll(LegacyNameFiling().root.kids, ["Return"]) == KidsOrder()
  {
    FilerPreorder();
    PreorderLeavesThen("ReturnTs", "2011-05-12T10:00:00-05:00", "TaxPeriodEndDt", "2010-12-31", "TaxYr", "2010",
                       LegacyNameFiling().root.kids[3], ["Return"]);
    assert ["Return"] + ["ReturnTs"] == ["Return", "ReturnTs"];
    assert ["Return"] + ["TaxPeriodEndDt"] == ["Return", "TaxPeriodEndDt"];
    assert ["Return"] + ["TaxYr"] == ["Return", "TaxYr"];
  }

  lemma RootPreorder()
    ensures Preorder(LegacyNameFiling().root, []) == LegacyOrder()
  {
    KidsPreorder();
    assert [] + ["Return"] == ["Return"];
  }

  lemma LegacyFilingEin()
    ensures FirstText(LegacyNameFiling(), EinPath) == Some("231352685")
  {
    RootPreorder();
    var ls := LegacyOrder();
    forall m | 0 <= m < 5 ensures !HasSuffix(ls[m].chain, EinPath) {
      assert ls[m].chain[|ls[m].chain| - 1] != "EIN";
    }
    MatchingFirst(ls, EinPath, 5);
    LeafText("EIN", "231352685");
  }

  lemma LegacyFilingNames()
    ensures Select(LegacyNameFiling(), NamePath) == []
    ensures FirstText(LegacyNameFiling(), LegacyNamePath) == Some("THE HOSPITAL")
  {
    LegacyFilingNoCurrentName();
    LegacyFilingLegacyName();
  }

  lemma LegacyFilingNoCurrentName()
    ensures Select(LegacyNameFiling(), NamePath) == []
  {
    RootPreorder();
    var ls := LegacyOrder();
    forall m | 0 <= m < |ls| ensures !HasSuffix(ls[m].chain, NamePath) {
      if HasSuffix(ls[m].chain, NamePath) {
        SuffixLast(ls[m].chain, NamePath);
      }
    }
    MatchingNone(ls, NamePath);
  }

  lemma LegacyFilingLegacyName()
    ensures FirstText(LegacyNameFiling(), LegacyNamePath) == Some("THE HOSPITAL")
  {
    RootPreorder();
    var ls := LegacyOrder();
    forall m | 0 <= m < 7 ensures !HasSuffix(ls[m].chain, LegacyNamePath) {
      if HasSuffix(ls[m].chain, LegacyNamePath) {
        SuffixLast(ls[m].chain, LegacyNamePath);
      }
    }
    MatchingFirst(ls, LegacyNamePath, 7);
    LeafText("BusinessNameLine1", "THE HOSPITAL");
  }

  lemma LegacyFilingDates()
    ensures IsValidFormat(LegacyNameFiling())
    ensures Select(LegacyNameFiling(), TaxPeriodEndPath) != []
    ensures Select(LegacyNameFiling(), ReturnTsPath) != []
  {
    RootPreorder();
    var ls := LegacyOrder();
    assert HasSuffix(ls[3].chain, TaxYrPath);
    assert HasSuffix(ls[2].chain, TaxPeriodEndPath);
    assert HasSuffix(ls[1].chain, ReturnTsPath);
    MatchingSome(ls, TaxYrPath, 3);
    MatchingSome(ls, TaxPeriodEndPath, 2);
    MatchingSome(ls, ReturnTsPath, 1);
  }

  /** On a legacy-named filing the written code throws where the intended code finds the name. */
  lemma LegacyNameCounterexample()
    ensures ExtractFieldsAsWritten(LegacyNameFiling()) == Err(NoContextNode(LegacyNamePath))
    ensures BusinessName(LegacyNameFiling()) == Str("THE HOSPITAL")
    ensures ExtractFields(LegacyNameFiling()).Ok?
  {
    LegacyFilingEin();
    LegacyFilingNames();
    LegacyFilingDates();
  }

  /** A fragment of the 2018 test filing: its `TaxYr` element. */
  function Filing2018(): Document {
    Document(Element("Return", [Element("ReturnHeader", [Element("TaxYr", [Text("2018")])])]))
  }

  lemma Filing2018Text()
    ensures FirstText(Filing2018(), TaxYrPath) == Some("2018")
  {
    assert Select(Filing2018(), TaxYrPath) == [Element("TaxYr", [Text("2018")])];
    LeafText("TaxYr", "2018");
  }

  lemma ParseYear2018()
    ensures ParseInt("2018") == Int(2018)
  {
    ParseIntOfIntToString(2018);
    assert IntToString(2018) == "2018";
  }

  /** The 2018 filing passes the format gate and its tax year reads as 2018. */
  lemma Filing2018Year()
    ensures IsValidFormat(Filing2018())
    ensures GetTaxYear(Filing2018()) == Ok(Int(2018))
  {
    Filing2018Text();
    ParseYear2018();
  }
}
