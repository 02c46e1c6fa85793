/**
 `getXMLData`: for one EIN, the filings named by the EIN index are loaded in
 index order, and each valid filing whose tax year is requested is stored
 under that year, a later filing overwriting an earlier one of the same year.
 Loading (cache or download) is the parameter `load`.
 */
module XmlData {
  import opened Outcomes
  import opened JsValues
  import opened XmlTree
  import opened Extractor
  import EinIndex

  /** The filing is stored for some requested year: it passes the format gate and its year is requested. */
  predicate Wanted(doc: Document, years: seq<ParsedInt>) {
    IsValidFormat(doc) && GetTaxYear(doc).value in years
  }

  /** The tax year of a filing that passes the format gate. */
  function YearOf(doc: Document): ParsedInt
    requires IsValidFormat(doc)
  {
    GetTaxYear(doc).value
  }

  /**
   The year a loaded filing is stored under: its tax year when it passes the
   format gate and that year is requested, otherwise none.
   */
  function StoredYear(years: seq<ParsedInt>): Document -> Option<ParsedInt> {
    doc => if Wanted(doc, years) then Some(YearOf(doc)) else None
  }

  /** A filing is stored under `y` exactly when it is valid, its tax year is `y`, and `y` is requested. */
  lemma StoredYearMeaning(years: seq<ParsedInt>, doc: Document, y: ParsedInt)
    ensures StoredYear(years)(doc) == Some(y) <==> IsValidFormat(doc) && GetTaxYear(doc) == Ok(y) && y in years
  {
  }

  /**
   The loop over the file names, as a fold: the map after the last file, each
   file's filing stored under the year `pick` gives it, if any.
   */
  function Collect(files: seq<string>, load: string -> Document, pick: Document -> Option<ParsedInt>): (m: map<ParsedInt, Document>)
    ensures forall y :: y in m ==> pick(m[y]) == Some(y)
    decreases |files|
  {
    if files == [] then map[]
    else
      var m := Collect(files[..|files| - 1], load, pick);
      var doc := load(files[|files| - 1]);
      match pick(doc)
      case Some(y) => m[y := doc]
      case None => m
  }

  /** `getXMLData(ein, years)` */
  function GetXmlData(index: EinIndex.Index, load: string -> Document, ein: string, years: seq<ParsedInt>): (m: map<ParsedInt, Document>)
    ensures forall y :: y in m ==> y in years && IsValidFormat(m[y]) && GetTaxYear(m[y]) == Ok(y)
  {
    var m := Collect(EinIndex.FilesOf(index, ein), load, StoredYear(years));
    forall y | y in m ensures y in years && IsValidFormat(m[y]) && GetTaxYear(m[y]) == Ok(y) {
      StoredYearMeaning(years, m[y], y);
    }
    m
  }

  /** An EIN missing from the index yields no filings. */
  lemma UnknownEinIsEmpty(index: EinIndex.Index, load: string -> Document, ein: string, years: seq<ParsedInt>)
    requires ein !in index
    ensures GetXmlData(index, load, ein, years) == map[]
  {
  }

  /** The file at `i` holds a filing that `pick` stores under `y`. */
  predicate HoldsYear(files: seq<string>, load: string -> Document, pick: Document -> Option<ParsedInt>, i: int, y: ParsedInt)
    requires 0 <= i < |files|
  {
    pick(load(files[i])) == Some(y)
  }

  /** The last file's filing, when it has a year, overwrites that year in the map built from the files before it. */
  lemma CollectLast(files: seq<string>, load: string -> Document, pick: Document -> Option<ParsedInt>)
    requires files != []
    ensures var m := Collect(files[..|files| - 1], load, pick);
      var doc := load(files[|files| - 1]);
      Collect(files, load, pick) == if pick(doc).Some? then m[pick(doc).value := doc] else m
  {
  }

  /** Every stored year comes from some file holding a filing of that year. */
  lemma {:induction false} CollectKeysFrom(files: seq<string>, load: string -> Document, pick: Document -> Option<ParsedInt>, y: ParsedInt)
    requires y in Collect(files, load, pick)
    ensures exists i :: 0 <= i < |files| && HoldsYear(files, load, pick, i, y)
    decreases |files|
  {
    var earlier := files[..|files| - 1];
    var last := |files| - 1;
    CollectLast(files, load, pick);
    if !HoldsYear(files, load, pick, last, y) {
      assert y in Collect(earlier, load, pick);
      CollectKeysFrom(earlier, load, pick, y);
      var i :| 0 <= i < |earlier| && HoldsYear(earlier, load, pick, i, y);
      assert files[i] == earlier[i];
      assert HoldsYear(files, load, pick, i, y);
    }
  }

  /** Every file holding a filing with a year gets that year stored. */
  lemma {:induction false} CollectKeysTo(files: seq<string>, load: string -> Document, pick: Document -> Option<ParsedInt>, i: int, y: ParsedInt)
    requires 0 <= i < |files| && HoldsYear(files, load, pick, i, y)
    ensures y in Collect(files, load, pick)
    decreases |files|
  {
    CollectLast(files, load, pick);
    if i < |files| - 1 {
      var earlier := files[..|files| - 1];
      assert earlier[i] == files[i];
      CollectKeysTo(earlier, load, pick, i, y);
    }
  }

  /** A year is stored exactly when some file holds a filing of that year. */
  lemma CollectKeys(files: seq<string>, load: string -> Document, pick: Document -> Option<ParsedInt>, y: ParsedInt)
    ensures y in Collect(files, load, pick) <==>
      exists i :: 0 <= i < |files| && HoldsYear(files, load, pick, i, y)
  {
    if y in Collect(files, load, pick) {
      CollectKeysFrom(files, load, pick, y);
    }
    if exists i :: 0 <= i < |files| && HoldsYear(files, load, pick, i, y) {
      var i :| 0 <= i < |files| && HoldsYear(files, load, pick, i, y);
      CollectKeysTo(files, load, pick, i, y);
    }
  }

  /**
   The filing stored for a year is the one from the last file that holds a
   filing of that year.
   */
  lemma {:induction false} LastWins(files: seq<string>, load: string -> Document, pick: Document -> Option<ParsedInt>, i: int)
    requires 0 <= i < |files|
    requires pick(load(files[i])).Some?
    requires forall j :: i < j < |files| ==> pick(load(files[j])) != pick(load(files[i]))
    ensures var m := Collect(files, load, pick);
      pick(load(files[i])).value in m && m[pick(load(files[i])).value] == load(files[i])
    decreases |files|
  {
    CollectLast(files, load, pick);
    if i < |files| - 1 {
      var earlier := files[..|files| - 1];
      assert earlier[i] == files[i];
      LastWins(earlier, load, pick, i);
    }
  }

  /**
   `getXMLData` as written: a loop over the file names updating the
   year-to-filing map. It computes the fold.
   */
  method GetXmlDataLoop(index: EinIndex.Index, load: string -> Document, ein: string, years: seq<ParsedInt>)
    returns (reportsByYear: map<ParsedInt, Document>)
    ensures reportsByYear == GetXmlData(index, load, ein, years)
  {
    var files := EinIndex.FilesOf(index, ein);
    reportsByYear := map[];
    var i := 0;
    while i < |files|
      invariant 0 <= i <= |files|
      invariant reportsByYear == Collect(files[..i], load, StoredYear(years))
    {
      var doc := load(files[i]);
      assert files[..i + 1][..i] == files[..i] && files[..i + 1][i] == files[i];
      CollectLast(files[..i + 1], load, StoredYear(years));
      if IsValidFormat(doc) {
        var taxYear := GetTaxYear(doc).value;
        StoredYearMeaning(years, doc, taxYear);
        if taxYear in years {
          reportsByYear := reportsByYear[taxYear := doc];
        }
      } else {
        assert StoredYear(years)(doc) == None;
      }
      i := i + 1;
    }
    assert files[..i] == files;
  }
}
