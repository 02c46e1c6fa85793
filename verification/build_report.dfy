/**
 The pure parts of the spreadsheet report: spreadsheet cell addresses, the
 highlight class of an EIN, the distinct tax years of the input, and `twist`,
 which turns the report rows of one field into one ranked entry per EIN.
 */
module BuildReport {
  import opened Outcomes
  import opened JsText
  import opened JsValues
  import opened Sequences
  import opened Sorting

  /** `String.fromCharCode(n)`: the UTF-16 code unit `n mod 65536`; a lone surrogate reads as U+FFFD. */
  function FromCharCode(n: nat): char {
    var u := n % 0x1_0000;
    if 0xD800 <= u < 0xE000 then '\U{FFFD}' else u as char
  }

  predicate IsUpper(c: char) {
    'A' <= c <= 'Z'
  }

  /** The letter for `0 <= k < 26`: `String.fromCharCode(k + 65)`. */
  function Letter(k: nat): (c: char)
    requires k < 26
    ensures IsUpper(c)
  {
    FromCharCode(k + 65)
  }

  /**
   `cellAddress(col, row)`: one letter for the first 26 columns, two letters
   after that, then the one-based row number.
   */
  function CellAddress(col: nat, row: nat): string {
    var c1 := col / 26;
    var c2 := col % 26;
    if c1 < 1 then [Letter(c2)] + NatToString(row + 1)
    else [FromCharCode(c1 + 64), Letter(c2)] + NatToString(row + 1)
  }

  /** The value of a capital letter, `A` being 0. */
  function LetterValue(c: char): nat
    requires IsUpper(c)
  {
    c as int - 'A' as int
  }

  /** The longest prefix of capital letters. */
  function LetterRun(s: string): (r: string)
    ensures |r| <= |s| && r == s[..|r|]
    ensures forall i :: 0 <= i < |r| ==> IsUpper(r[i])
    ensures |r| == |s| || !IsUpper(s[|r|])
  {
    if |s| > 0 && IsUpper(s[0]) then [s[0]] + LetterRun(s[1..]) else []
  }

  /**
   Reads an address back the way a spreadsheet does: `A`..`Z` are columns 0
   to 25, `AA`..`ZZ` are 26 to 701, and the digits are the one-based row.
   */
  function ParseCell(addr: string): Option<(nat, nat)> {
    var letters := LetterRun(addr);
    var digits := addr[|letters|..];
    if digits == [] || !AllDigits(digits) || DigitsValue(digits) == 0 then None
    else if |letters| == 1 then Some((LetterValue(letters[0]), DigitsValue(digits) - 1))
    else if |letters| == 2 then Some(((LetterValue(letters[0]) + 1) * 26 + LetterValue(letters[1]), DigitsValue(digits) - 1))
    else None
  }

  /** A string of digits starts with no capital letter. */
  lemma LetterRunOfDigits(s: string)
    requires |s| > 0 && AllDigits(s)
    ensures LetterRun(s) == []
  {
  }

  /** Up to column 701 (`ZZ`) the address reads back as the column and row it was made from. */
  lemma CellAddressReadsBack(col: nat, row: nat)
    requires col < 702
    ensures ParseCell(CellAddress(col, row)) == Some((col, row))
  {
    if col < 26 {
      OneLetterReadsBack(col, row);
    } else {
      TwoLettersReadBack(col, row);
    }
  }

  lemma OneLetterReadsBack(col: nat, row: nat)
    requires col < 26
    ensures ParseCell(CellAddress(col, row)) == Some((col, row))
  {
    var digits := NatToString(row + 1);
    DigitsValueOfNatToString(row + 1);
    LetterRunOfDigits(digits);
    var addr := CellAddress(col, row);
    assert addr == [Letter(col)] + digits;
    assert addr[1..] == digits;
    assert LetterRun(addr) == [Letter(col)];
  }

  lemma TwoLettersReadBack(col: nat, row: nat)
    requires 26 <= col < 702
    ensures ParseCell(CellAddress(col, row)) == Some((col, row))
  {
    var digits := NatToString(row + 1);
    DigitsValueOfNatToString(row + 1);
    LetterRunOfDigits(digits);
    var addr := CellAddress(col, row);
    var first := FromCharCode(col / 26 + 64);
    assert IsUpper(first) && LetterValue(first) == col / 26 - 1;
    assert addr == [first, Letter(col % 26)] + digits;
    assert addr[1..] == [Letter(col % 26)] + digits;
    assert addr[2..] == digits;
    assert LetterRun(addr[1..]) == [Letter(col % 26)];
    assert LetterRun(addr) == [first, Letter(col % 26)];
  }

  /** Different cells get different addresses, as far as `ZZ`. */
  lemma CellAddressInjective(col: nat, row: nat, col': nat, row': nat)
    requires col < 702 && col' < 702
    requires CellAddress(col, row) == CellAddress(col', row')
    ensures col == col' && row == row'
  {
    CellAddressReadsBack(col, row);
    CellAddressReadsBack(col', row');
  }

  /**
   Past `ZZ` the first character is no longer a capital letter, until
   `fromCharCode` wraps its code around at 65536.
   */
  lemma PastZZNotALetter(col: nat, row: nat)
    requires 702 <= col < 26 * 65537
    ensures !IsUpper(CellAddress(col, row)[0])
  {
    var c1 := col / 26;
    assert 27 <= c1 < 65537;
    assert CellAddress(col, row)[0] == FromCharCode(c1 + 64);
  }

  /** The wrap-around: column `26 * 65537` starts with `A` again. */
  lemma CellAddressWrapsAround(row: nat)
    ensures CellAddress(26 * 65537, row)[0] == 'A'
  {
    assert (26 * 65537) / 26 + 64 == 0x1_0000 + 65;
  }

  /**
   `einType(ein)`: 1 for a highlighted EIN, else 2 for a peer, else 0; a
   missing list matches nothing. The lists come from YAML, so their entries
   may be numbers; `includes` compares without conversion, so only a string
   entry equal to the EIN's text matches.
   */
  function EinType(highlight: Option<seq<JsValue>>, peers: Option<seq<JsValue>>, ein: string): (t: nat)
    ensures t <= 2
    ensures t == 1 <==> highlight.Some? && JStr(ein) in highlight.value
    ensures t == 2 <==> !(highlight.Some? && JStr(ein) in highlight.value) && peers.Some? && JStr(ein) in peers.value
  {
    if highlight.Some? && JStr(ein) in highlight.value then 1
    else if peers.Some? && JStr(ein) in peers.value then 2
    else 0
  }

  /** A highlighted EIN is class 1 even when it is also a peer. */
  lemma HighlightBeatsPeer(highlight: seq<JsValue>, peers: seq<JsValue>, ein: string)
    requires JStr(ein) in highlight && JStr(ein) in peers
    ensures EinType(Some(highlight), Some(peers), ein) == 1
  {
  }

  /** An EIN written unquoted in the YAML is a number, and the EIN read from the spreadsheet never matches it. */
  lemma NumericEntriesNeverMatch(highlight: seq<JsValue>, peers: seq<JsValue>, ein: string)
    requires forall k :: 0 <= k < |highlight| ==> highlight[k].JNum?
    requires forall k :: 0 <= k < |peers| ==> peers[k].JNum?
    ensures EinType(Some(highlight), Some(peers), ein) == 0
  {
    assert JStr(ein) !in highlight by {
      forall k | 0 <= k < |highlight| ensures highlight[k] != JStr(ein) {
        assert highlight[k].JNum?;
      }
    }
    assert JStr(ein) !in peers by {
      forall k | 0 <= k < |peers| ensures peers[k] != JStr(ein) {
        assert peers[k].JNum?;
      }
    }
  }

  /** One row of the input spreadsheet: its EIN, name, tax year and the other columns by title. */
  datatype ReportRow = ReportRow(ein: string, businessName: string, taxYear: string, cells: map<string, string>)

  /** `row[field]`; a missing column reads as empty, which is as falsy as `undefined`. */
  function CellOf(row: ReportRow, field: string): string {
    if field in row.cells then row.cells[field] else ""
  }

  /** `parseInt(d["Tax Year"])` for every row, in order. */
  function TaxYears(rows: seq<ReportRow>): (ys: seq<ParsedInt>)
    ensures |ys| == |rows|
    ensures forall k :: 0 <= k < |rows| ==> ys[k] == ParseInt(rows[k].taxYear)
  {
    seq(|rows|, k requires 0 <= k < |rows| => ParseInt(rows[k].taxYear))
  }

  /** `parseInt` applied to a number: the number is printed and read back. */
  function Reparse(p: ParsedInt): ParsedInt {
    match p
    case IntNaN => ParseInt("NaN")
    case Int(i) => ParseInt(IntToString(i))
  }

  /** `Array.from(new Set(data.map(d => parseInt(d["Tax Year"])))).map(d => parseInt(d))` */
  function Years(rows: seq<ReportRow>): seq<ParsedInt> {
    var distinct := Dedup(TaxYears(rows));
    seq(|distinct|, k requires 0 <= k < |distinct| => Reparse(distinct[k]))
  }

  /** Reading a parsed year again changes nothing. */
  lemma ReparseIdentity(p: ParsedInt)
    ensures Reparse(p) == p
  {
    match p
    case IntNaN =>
      assert TrimStart("NaN") == "NaN";
      assert DigitRun("NaN") == [];
    case Int(i) => ParseIntOfIntToString(i);
  }

  /** The years are the distinct parsed tax years of the rows, in order of first appearance. */
  lemma YearsAreDistinctTaxYears(rows: seq<ReportRow>)
    ensures Years(rows) == Dedup(TaxYears(rows))
    ensures Distinct(Years(rows))
    ensures forall k :: 0 <= k < |rows| ==> ParseInt(rows[k].taxYear) in Years(rows)
  {
    var distinct := Dedup(TaxYears(rows));
    forall k | 0 <= k < |distinct| ensures Years(rows)[k] == distinct[k] {
      ReparseIdentity(distinct[k]);
    }
  }

  /** One entry of `twist`'s output: the EIN, its name, the value per year, and their average. */
  datatype Ranked = Ranked(ein: string, businessName: string, byYear: map<ParsedInt, Number>, average: Number)

  /** `+` on numbers. */
  function Add(a: Number, b: Number): Number {
    if a.Fin? && b.Fin? then Fin(a.value + b.value) else NaN
  }

  /** The running total and count of the loop over `years`: the values of the years present in `byYear`. */
  function Total(byYear: map<ParsedInt, Number>, years: seq<ParsedInt>): (r: (Number, nat))
    ensures r.1 <= |years|
  {
    if years == [] then (Fin(0.0), 0)
    else
      var (total, count) := Total(byYear, years[..|years| - 1]);
      var y := years[|years| - 1];
      if y in byYear then (Add(total, byYear[y]), count + 1) else (total, count)
  }

  /** `count > 0 ? total / count : 0` */
  function Mean(byYear: map<ParsedInt, Number>, years: seq<ParsedInt>): Number {
    var (total, count) := Total(byYear, years);
    if count == 0 then Fin(0.0)
    else if total.NaN? then NaN
    else Fin(total.value / count as real)
  }

  /** Without any value the mean is 0. */
  lemma {:induction false} MeanOfNothing(years: seq<ParsedInt>)
    ensures Total(map[], years) == (Fin(0.0), 0)
    ensures Mean(map[], years) == Fin(0.0)
    decreases |years|
  {
    if years != [] {
      MeanOfNothing(years[..|years| - 1]);
    }
  }

  /** The count is the number of listed years that have a value. */
  lemma {:induction false} TotalCounts(byYear: map<ParsedInt, Number>, years: seq<ParsedInt>)
    ensures Total(byYear, years).1 == |Where(years, y => y in byYear)|
    decreases |years|
  {
    if years != [] {
      var init := years[..|years| - 1];
      TotalCounts(byYear, init);
      var last := years[|years| - 1];
      WhereAppend(init, [last], y => y in byYear);
      assert [last][1..] == [];
      assert years == init + [last];
    }
  }

  /** The position of the entry of an EIN. */
  function EntryOf(entries: seq<Ranked>, ein: string): (r: Option<nat>)
    ensures r.Some? ==> r.value < |entries| && entries[r.value].ein == ein
    ensures r.None? ==> forall k :: 0 <= k < |entries| ==> entries[k].ein != ein
  {
    if entries == [] then None
    else if entries[0].ein == ein then Some(0)
    else match EntryOf(entries[1..], ein)
      case None => None
      case Some(k) => Some(k + 1)
  }

  /**
   One iteration of `twist`'s loop: the row's EIN gets an entry, named after
   this row, if it has none; a non-empty value is then stored under the row's
   year and the average recomputed over `years`.
   */
  function TwistStep(entries: seq<Ranked>, row: ReportRow, field: string, years: seq<ParsedInt>): (r: seq<Ranked>)
    ensures EntryOf(entries, row.ein).Some? ==> |r| == |entries|
    ensures EntryOf(entries, row.ein).None? ==> |r| == |entries| + 1
    ensures forall k :: 0 <= k < |entries| ==> r[k].ein == entries[k].ein && r[k].businessName == entries[k].businessName
    ensures EntryOf(entries, row.ein).None? ==> r[|entries|].ein == row.ein && r[|entries|].businessName == row.businessName
  {
    var withEntry := if EntryOf(entries, row.ein).Some? then entries
      else entries + [Ranked(row.ein, row.businessName, map[], Fin(0.0))];
    var i := if EntryOf(entries, row.ein).Some? then EntryOf(entries, row.ein).value else |entries|;
    var value := CellOf(row, field);
    if value != "" then
      var byYear := withEntry[i].byYear[ParseInt(row.taxYear) := ParseFloat(value)];
      withEntry[i := withEntry[i].(byYear := byYear, average := Mean(byYear, years))]
    else withEntry
  }

  /** The entries after the loop over `rows`, in the order their EINs first appear. */
  function TwistEntries(rows: seq<ReportRow>, field: string, years: seq<ParsedInt>): seq<Ranked>
    decreases |rows|
  {
    if rows == [] then []
    else TwistStep(TwistEntries(rows[..|rows| - 1], field, years), rows[|rows| - 1], field, years)
  }

  /** `a` sorts before `b` when its average is strictly larger: `(a, b) => b.average - a.average`. */
  predicate ByAverage(a: Ranked, b: Ranked) {
    NumberLess(b.average, a.average)
  }

  /** `twist(field)` */
  function Twist(rows: seq<ReportRow>, field: string): seq<Ranked> {
    InsertionSort(TwistEntries(rows, field, Years(rows)), ByAverage)
  }

  /** The EINs of the entries, in order. */
  function EinsOf(entries: seq<Ranked>): (r: seq<string>)
    ensures |r| == |entries|
    ensures forall k :: 0 <= k < |entries| ==> r[k] == entries[k].ein
  {
    seq(|entries|, k requires 0 <= k < |entries| => entries[k].ein)
  }

  /** Row `i` is the first row of its EIN. */
  predicate FirstRowOf(rows: seq<ReportRow>, i: int, ein: string) {
    0 <= i < |rows| && rows[i].ein == ein && forall j :: 0 <= j < i ==> rows[j].ein != ein
  }

  /** Every entry's average is the mean of its values over `years`. */
  predicate AveragesAreMeans(entries: seq<Ranked>, years: seq<ParsedInt>) {
    forall k :: 0 <= k < |entries| ==> entries[k].average == Mean(entries[k].byYear, years)
  }

  /** One step keeps EINs distinct and every average the mean of its entry's values. */
  lemma TwistStepKeeps(entries: seq<Ranked>, row: ReportRow, field: string, years: seq<ParsedInt>)
    requires Distinct(EinsOf(entries)) && AveragesAreMeans(entries, years)
    ensures Distinct(EinsOf(TwistStep(entries, row, field, years)))
    ensures AveragesAreMeans(TwistStep(entries, row, field, years), years)
  {
    StepKeepsDistinct(entries, row, field, years);
    StepKeepsMeans(entries, row, field, years);
  }

  lemma StepKeepsDistinct(entries: seq<Ranked>, row: ReportRow, field: string, years: seq<ParsedInt>)
    requires Distinct(EinsOf(entries))
    ensures Distinct(EinsOf(TwistStep(entries, row, field, years)))
  {
    var r := TwistStep(entries, row, field, years);
    var eins := EinsOf(r);
    forall a, b | 0 <= a < b < |eins| ensures eins[a] != eins[b] {
      if b < |entries| {
        assert EinsOf(entries)[a] != EinsOf(entries)[b];
      } else {
        assert eins[b] == row.ein && eins[a] == entries[a].ein;
      }
    }
  }

  lemma StepKeepsMeans(entries: seq<Ranked>, row: ReportRow, field: string, years: seq<ParsedInt>)
    requires AveragesAreMeans(entries, years)
    ensures AveragesAreMeans(TwistStep(entries, row, field, years), years)
  {
    if EntryOf(entries, row.ein).None? {
      MeanOfNothing(years);
    }
  }

  /** The loop keeps EINs distinct and every average the mean of its entry's values over `years`. */
  lemma {:induction false} TwistEntriesInvariant(rows: seq<ReportRow>, field: string, years: seq<ParsedInt>)
    ensures Distinct(EinsOf(TwistEntries(rows, field, years)))
    ensures AveragesAreMeans(TwistEntries(rows, field, years), years)
    decreases |rows|
  {
    if rows != [] {
      var init := rows[..|rows| - 1];
      TwistEntriesInvariant(init, field, years);
      TwistStepKeeps(TwistEntries(init, field, years), rows[|rows| - 1], field, years);
    }
  }

  /** Every EIN of the rows has an entry. */
  lemma {:induction false} TwistEntriesCover(rows: seq<ReportRow>, field: string, years: seq<ParsedInt>, k: int)
    requires 0 <= k < |rows|
    ensures EntryOf(TwistEntries(rows, field, years), rows[k].ein).Some?
    decreases |rows|
  {
    var init := rows[..|rows| - 1];
    var row := rows[|rows| - 1];
    var before := TwistEntries(init, field, years);
    if k < |init| {
      TwistEntriesCover(init, field, years, k);
      assert init[k] == rows[k];
    }
    StepKeepsEntries(before, row, field, years, rows[k].ein);
  }

  /** A step keeps every EIN that had an entry, and gives the row's EIN one. */
  lemma StepKeepsEntries(entries: seq<Ranked>, row: ReportRow, field: string, years: seq<ParsedInt>, ein: string)
    requires EntryOf(entries, ein).Some? || ein == row.ein
    ensures EntryOf(TwistStep(entries, row, field, years), ein).Some?
  {
    var after := TwistStep(entries, row, field, years);
    if EntryOf(entries, ein).Some? {
      assert after[EntryOf(entries, ein).value].ein == ein;
    } else {
      assert after[|entries|].ein == ein;
    }
  }

  /** Entry `k` is named after the first row of its EIN. */
  predicate NamedByFirstRow(rows: seq<ReportRow>, entries: seq<Ranked>, k: int)
    requires 0 <= k < |entries|
  {
    exists i :: 0 <= i < |rows| && FirstRowOf(rows, i, entries[k].ein) && entries[k].businessName == rows[i].businessName
  }

  /** Each entry carries the business name of the first row of its EIN. */
  lemma {:induction false} TwistEntriesNames(rows: seq<ReportRow>, field: string, years: seq<ParsedInt>, k: int)
    requires 0 <= k < |TwistEntries(rows, field, years)|
    ensures NamedByFirstRow(rows, TwistEntries(rows, field, years), k)
    decreases |rows|
  {
    var init := rows[..|rows| - 1];
    var row := rows[|rows| - 1];
    var before := TwistEntries(init, field, years);
    var after := TwistEntries(rows, field, years);
    assert after == TwistStep(before, row, field, years);
    if k < |before| {
      TwistEntriesNames(init, field, years, k);
      var i :| 0 <= i < |init| && FirstRowOf(init, i, before[k].ein) && before[k].businessName == init[i].businessName;
      assert init[i] == rows[i];
      assert forall j :: 0 <= j < i ==> init[j] == rows[j];
      assert FirstRowOf(rows, i, after[k].ein);
    } else {
      assert after[k].ein == row.ein && after[k].businessName == row.businessName;
      forall j | 0 <= j < |init| ensures rows[j].ein != row.ein {
        assert init[j] == rows[j];
        TwistEntriesCover(init, field, years, j);
      }
      assert FirstRowOf(rows, |rows| - 1, after[k].ein);
    }
  }

  /** The values of an EIN's entry, or none when it has no entry. */
  function ValuesOf(entries: seq<Ranked>, ein: string): map<ParsedInt, Number> {
    match EntryOf(entries, ein)
    case None => map[]
    case Some(k) => entries[k].byYear
  }

  /** A row with an empty value sets no year: every EIN's values stay as they were. */
  lemma EmptyValueSetsNothing(rows: seq<ReportRow>, row: ReportRow, field: string, years: seq<ParsedInt>, ein: string)
    requires CellOf(row, field) == ""
    ensures ValuesOf(TwistEntries(rows + [row], field, years), ein) == ValuesOf(TwistEntries(rows, field, years), ein)
  {
    var all := rows + [row];
    assert all[..|all| - 1] == rows && all[|all| - 1] == row;
    var before := TwistEntries(rows, field, years);
    var after := TwistEntries(all, field, years);
    assert after == TwistStep(before, row, field, years);
    TwistEntriesInvariant(rows, field, years);
    EntryOfDistinct(after, ein);
    EntryOfDistinct(before, ein);
    if EntryOf(before, ein).Some? {
      var p := EntryOf(before, ein).value;
      assert after[p] == before[p];
    } else if EntryOf(after, ein).Some? {
      var p := EntryOf(after, ein).value;
      assert p == |before| && after[p].byYear == map[];
    }
  }

  /** With distinct EINs, an entry with the EIN is the one `EntryOf` finds. */
  lemma EntryOfDistinct(entries: seq<Ranked>, ein: string)
    ensures forall k :: 0 <= k < |entries| && entries[k].ein == ein && Distinct(EinsOf(entries)) ==>
      EntryOf(entries, ein) == Some(k)
  {
    forall k | 0 <= k < |entries| && entries[k].ein == ein && Distinct(EinsOf(entries))
      ensures EntryOf(entries, ein) == Some(k)
    {
      var p := EntryOf(entries, ein).value;
      assert EinsOf(entries)[p] == EinsOf(entries)[k];
    }
  }

  /**
   A row with a value stores it under its year for its EIN, replacing any
   earlier value of that year; every other EIN keeps its values.
   */
  lemma ValueIsStored(rows: seq<ReportRow>, row: ReportRow, field: string, years: seq<ParsedInt>)
    requires CellOf(row, field) != ""
    ensures ValuesOf(TwistEntries(rows + [row], field, years), row.ein)
      == ValuesOf(TwistEntries(rows, field, years), row.ein)[ParseInt(row.taxYear) := ParseFloat(CellOf(row, field))]
    ensures forall e :: e != row.ein ==>
      ValuesOf(TwistEntries(rows + [row], field, years), e) == ValuesOf(TwistEntries(rows, field, years), e)
  {
    var all := rows + [row];
    assert all[..|all| - 1] == rows && all[|all| - 1] == row;
    var before := TwistEntries(rows, field, years);
    var after := TwistEntries(all, field, years);
    assert after == TwistStep(before, row, field, years);
    TwistEntriesInvariant(rows, field, years);
    TwistStepKeeps(before, row, field, years);
    EntryOfDistinct(after, row.ein);
    forall e | e != row.ein ensures ValuesOf(after, e) == ValuesOf(before, e) {
      OtherEinKeepsValues(before, row, field, years, e);
    }
  }

  /** One step leaves the values of every EIN other than the row's as they were. */
  lemma OtherEinKeepsValues(entries: seq<Ranked>, row: ReportRow, field: string, years: seq<ParsedInt>, e: string)
    requires Distinct(EinsOf(entries)) && e != row.ein
    ensures ValuesOf(TwistStep(entries, row, field, years), e) == ValuesOf(entries, e)
  {
    var after := TwistStep(entries, row, field, years);
    StepKeepsDistinct(entries, row, field, years);
    match EntryOf(entries, e)
    case None =>
    case Some(k) =>
      EntryOfDistinct(after, e);
      assert after[k].ein == e;
      assert EntryOf(after, e) == Some(k);
      if EntryOf(entries, row.ein).Some? {
        assert EntryOf(entries, row.ein).value != k;
      }
      assert after[k] == entries[k];
  }

  /** Sorting by decreasing average is a strict order, NaN averages comparing equal to everything. */
  lemma ByAverageIsStrictOrder()
    ensures StrictOrder(ByAverage)
  {
  }

  /**
   `twist`'s output: a rearrangement of the loop's entries, so one entry per
   EIN, in order of non-increasing average.
   */
  lemma TwistSorted(rows: seq<ReportRow>, field: string)
    ensures multiset(Twist(rows, field)) == multiset(TwistEntries(rows, field, Years(rows)))
    ensures SortedBy(Twist(rows, field), ByAverage)
  {
    ByAverageIsStrictOrder();
    InsertionSortSorted(TwistEntries(rows, field, Years(rows)), ByAverage);
  }

  /** Adjacent entries of `twist`'s output never rise in average (when both averages are numbers). */
  lemma TwistNonIncreasing(rows: seq<ReportRow>, field: string, i: int)
    requires 0 <= i < |Twist(rows, field)| - 1
    requires Twist(rows, field)[i].average.Fin? && Twist(rows, field)[i + 1].average.Fin?
    ensures Twist(rows, field)[i].average.value >= Twist(rows, field)[i + 1].average.value
  {
    TwistSorted(rows, field);
  }
}
