/**
 The mega index builder: the filings of one year's directory whose file name
 starts with the year and ends in `.xml` are read in listing order; each valid
 filing is extracted, and its record is kept when Schedule H line 7k column
 (e), the net community benefit, is positive. A file that fails to load or
 extract is skipped and the rest are still processed.
 */
module MegaIndex {
  import opened Outcomes
  import opened JsText
  import opened JsValues
  import opened XmlTree
  import opened Extractor
  import FieldCatalog

  /** The net community benefit column the retention rule reads. */
  const NetBenefitKey: string := "SchH_I_7_k_e"

  /** `f.startsWith(year) && f.endsWith(".xml")` */
  predicate Considered(year: string, f: string) {
    StartsWith(f, year) && EndsWith(f, ".xml")
  }

  /** The file names the loop visits, in listing order. */
  function ConsideredFiles(year: string, listing: seq<string>): (r: seq<string>)
    ensures forall k :: 0 <= k < |r| ==> Considered(year, r[k]) && r[k] in listing
    ensures forall k :: 0 <= k < |listing| && Considered(year, listing[k]) ==> listing[k] in r
  {
    if listing == [] then []
    else (if Considered(year, listing[0]) then [listing[0]] else []) + ConsideredFiles(year, listing[1..])
  }

  /** A record value as the JavaScript value it is: blanks are `""`, numbers are `parseFloat` of their text. */
  function AsJs(v: Value): JsValue {
    match v
    case Str(s) => JStr(s)
    case Year(y) => JNum(match y case IntNaN => NaN case Int(i) => Fin(i as real))
    case Num(t) => JNum(ParseFloat(t))
    case Blank => JStr("")
    case Undefined => JUndefined
  }

  /** `data.SchH_I_7_k_e > 0`, with JavaScript's conversion of the left side to a number. */
  predicate Keep(rec: Record) {
    match Lookup(rec, NetBenefitKey)
    case None => false
    case Some(v) => NumberLess(Fin(0.0), ToNumeric(AsJs(v)))
  }

  /** A blank net benefit is never kept, because `"" > 0` is false. */
  lemma BlankNeverKept(rec: Record)
    requires Lookup(rec, NetBenefitKey) == Some(Blank)
    ensures !Keep(rec)
  {
    EmptyTextConversions();
  }

  /** A number is kept exactly when its text parses to a positive value. */
  lemma NumberKeptIffPositive(rec: Record, t: string)
    requires Lookup(rec, NetBenefitKey) == Some(Num(t))
    ensures Keep(rec) <==> ParseFloat(t).Fin? && ParseFloat(t).value > 0.0
  {
  }

  /** Where the retention rule's column comes from: Schedule H line 7k, net community benefit. */
  const NetBenefitPath: seq<string> := [ScheduleH, "TotalCommunityBenefitsGrp", "NetCommunityBenefitExpnsAmt"]

  /** The filing reports a net community benefit whose text reads as a positive number. */
  predicate ReportsPositiveBenefit(doc: Document) {
    match FirstText(doc, NetBenefitPath)
    case None => false
    case Some(t) => t != "" && ParseFloat(t).Fin? && ParseFloat(t).value > 0.0
  }

  /** A record holding the number read at line 7k column (e) is kept exactly when that number is positive. */
  lemma KeepOfNumberAt(doc: Document, rec: Record)
    requires Lookup(rec, NetBenefitKey) == Some(NumberAt(doc, NetBenefitPath))
    ensures Keep(rec) <==> ReportsPositiveBenefit(doc)
  {
    if NumberAt(doc, NetBenefitPath).Blank? {
      EmptyTextConversions();
    }
  }

  /** Every record the extractor builds is kept exactly when the filing reports a positive net benefit. */
  lemma KeepOfRecord(doc: Document, h: HeaderValues)
    ensures Keep(RecordOf(doc, h)) <==> ReportsPositiveBenefit(doc)
  {
    NetBenefitEntry(doc, h);
    KeepOfNumberAt(doc, RecordOf(doc, h));
  }

  /** The record's net benefit column holds the number read at line 7k column (e). */
  lemma NetBenefitEntry(doc: Document, h: HeaderValues)
    ensures Lookup(RecordOf(doc, h), NetBenefitKey) == Some(NumberAt(doc, NetBenefitPath))
  {
    RecordOfPartI(doc, h, 9, 2);
    NetBenefitIsLineK();
  }

  /** Line 7k column (e) of the catalog is the retention rule's column, read from the retention rule's path. */
  lemma NetBenefitIsLineK()
    ensures FieldCatalog.PartIId(FieldCatalog.Lines[9], FieldCatalog.SubFields[2]) == NetBenefitKey
    ensures [ScheduleH, FieldCatalog.Lines[9].tag, FieldCatalog.SubFields[2].tag] == NetBenefitPath
  {
    assert FieldCatalog.PartIId(FieldCatalog.Lines[9], FieldCatalog.SubFields[2]) == NetBenefitKey;
  }

  /** On an extracted filing, the retention rule keeps exactly the filings reporting a positive net benefit. */
  lemma KeepReadsNetBenefit(doc: Document)
    requires MandatoryPresent(doc)
    ensures Keep(ExtractFields(doc).value) <==> ReportsPositiveBenefit(doc)
  {
    KeepOfRecord(doc, HeaderOf(doc, BusinessName(doc)));
  }

  /**
   The extraction step. The script calls `extractFields` as written, which
   is `ExtractFieldsAsWritten`; `ExtractFields` is its corrected form.
   */
  type Extraction = Document -> Result<Record>

  /** What one file contributes: its record when it loads, passes the gate, extracts and is kept. */
  function FromFile(load: string -> Result<Document>, extract: Extraction, f: string): Option<Record> {
    match load(f)
    case Err(_) => None
    case Ok(doc) =>
      if !IsValidFormat(doc) then None
      else
        match extract(doc)
        case Err(_) => None
        case Ok(rec) => if Keep(rec) then Some(rec) else None
  }

  /** The records kept from a list of files, in file order. */
  function Kept(load: string -> Result<Document>, extract: Extraction, files: seq<string>): seq<Record>
    decreases |files|
  {
    if files == [] then []
    else
      var rest := Kept(load, extract, files[..|files| - 1]);
      match FromFile(load, extract, files[|files| - 1])
      case None => rest
      case Some(rec) => rest + [rec]
  }

  /** Every kept record comes from some file that loaded, passed the gate and extracted, and is kept. */
  lemma {:induction false} KeptComeFromFiles(load: string -> Result<Document>, extract: Extraction, files: seq<string>, k: int)
    requires 0 <= k < |Kept(load, extract, files)|
    ensures exists i :: 0 <= i < |files| && FromFile(load, extract, files[i]) == Some(Kept(load, extract, files)[k])
    ensures Keep(Kept(load, extract, files)[k])
    decreases |files|
  {
    var earlier := files[..|files| - 1];
    var rest := Kept(load, extract, earlier);
    if k < |rest| {
      KeptComeFromFiles(load, extract, earlier, k);
      var i :| 0 <= i < |earlier| && FromFile(load, extract, earlier[i]) == Some(rest[k]);
      assert files[i] == earlier[i];
      assert Kept(load, extract, files)[k] == rest[k];
    } else {
      assert FromFile(load, extract, files[|files| - 1]) == Some(Kept(load, extract, files)[k]);
    }
  }

  /** A file that contributes nothing (a load or extraction failure included) leaves the rest unchanged. */
  lemma SkippedFileChangesNothing(load: string -> Result<Document>, extract: Extraction, files: seq<string>, f: string)
    requires FromFile(load, extract, f).None?
    ensures Kept(load, extract, files + [f]) == Kept(load, extract, files)
  {
    assert (files + [f])[..|files|] == files;
  }

  /** Records keep file order: the records of a listing's prefix are a prefix of its records. */
  lemma {:induction false} KeptPrefix(load: string -> Result<Document>, extract: Extraction, files: seq<string>, i: int)
    requires 0 <= i <= |files|
    ensures Kept(load, extract, files[..i]) <= Kept(load, extract, files)
    decreases |files| - i
  {
    if i < |files| {
      KeptPrefix(load, extract, files, i + 1);
      var longer := files[..i + 1];
      assert longer[..|longer| - 1] == files[..i];
    } else {
      assert files[..i] == files;
    }
  }

  /**
   The whole script for one year: the kept records and their count. The
   extraction step is a parameter; the script passes `extractFields` as
   written (`ExtractFieldsAsWritten`).
   */
  method BuildMegaIndex(year: string, listing: seq<string>, load: string -> Result<Document>, extract: Extraction)
    returns (megaIndex: seq<Record>, count: nat)
    ensures megaIndex == Kept(load, extract, ConsideredFiles(year, listing))
    ensures count == |megaIndex|
  {
    var files := ConsideredFiles(year, listing);
    megaIndex := [];
    count := 0;
    var f := 0;
    while f < |files|
      invariant 0 <= f <= |files|
      invariant megaIndex == Kept(load, extract, files[..f])
      invariant count == |megaIndex|
    {
      var file := files[f];
      KeptNext(load, extract, files, f);
      var loaded := load(file);
      if loaded.Ok? {
        var doc := loaded.value;
        if IsValidFormat(doc) {
          var extracted := extract(doc);
          if extracted.Ok? {
            var data := extracted.value;
            if Keep(data) {
              megaIndex := megaIndex + [data];
              count := count + 1;
            }
          }
        }
      }
      f := f + 1;
    }
    assert files[..f] == files;
  }

  /** One more file adds what it contributes, if anything. */
  lemma KeptNext(load: string -> Result<Document>, extract: Extraction, files: seq<string>, f: int)
    requires 0 <= f < |files|
    ensures Kept(load, extract, files[..f + 1])
         == Kept(load, extract, files[..f]) + (match FromFile(load, extract, files[f]) case None => [] case Some(rec) => [rec])
  {
    assert files[..f + 1][..f] == files[..f];
  }

  /** The file loads, passes the gate, extracts to `rec` and reports a positive net benefit. */
  predicate IndexedFrom(load: string -> Result<Document>, f: string, rec: Record) {
    && load(f).Ok?
    && IsValidFormat(load(f).value)
    && ExtractFields(load(f).value) == Ok(rec)
    && ReportsPositiveBenefit(load(f).value)
  }

  /** With `ExtractFields`, every record in the index is a filing reporting a positive net benefit. */
  lemma IndexedFilingsReportPositiveBenefit(load: string -> Result<Document>, files: seq<string>, k: int)
    requires 0 <= k < |Kept(load, ExtractFields, files)|
    ensures exists i :: 0 <= i < |files| && IndexedFrom(load, files[i], Kept(load, ExtractFields, files)[k])
  {
    KeptComeFromFiles(load, ExtractFields, files, k);
    var i :| 0 <= i < |files| && FromFile(load, ExtractFields, files[i]) == Some(Kept(load, ExtractFields, files)[k]);
    KeepReadsNetBenefit(load(files[i]).value);
  }

  /** As `IndexedFrom`, for the extractor as written: the filing also carries the current name element. */
  predicate IndexedFromAsWritten(load: string -> Result<Document>, f: string, rec: Record) {
    && load(f).Ok?
    && IsValidFormat(load(f).value)
    && Select(load(f).value, NamePath) != []
    && ExtractFieldsAsWritten(load(f).value) == Ok(rec)
    && ReportsPositiveBenefit(load(f).value)
  }

  /**
   With `extractFields` as written, every record in the index is a filing
   that names its filer in the current element and reports a positive net benefit.
   */
  lemma IndexedFilingsReportPositiveBenefitAsWritten(load: string -> Result<Document>, files: seq<string>, k: int)
    requires 0 <= k < |Kept(load, ExtractFieldsAsWritten, files)|
    ensures exists i :: 0 <= i < |files| && IndexedFromAsWritten(load, files[i], Kept(load, ExtractFieldsAsWritten, files)[k])
  {
    KeptComeFromFiles(load, ExtractFieldsAsWritten, files, k);
    var i :| 0 <= i < |files| && FromFile(load, ExtractFieldsAsWritten, files[i]) == Some(Kept(load, ExtractFieldsAsWritten, files)[k]);
    var doc := load(files[i]).value;
    AsWrittenAgreesWhenNamePresent(doc);
    KeepReadsNetBenefit(doc);
  }
}
