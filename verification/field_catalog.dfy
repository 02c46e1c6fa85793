/**
 The field catalog of the Schedule H extractor (`getFields`): seven header
 columns, then every Part I line 7 group crossed with its four sub-fields,
 then five one-off Part III elements. The catalog order is the column order
 of every report built from extracted records.
 */
module FieldCatalog {
  import opened Sequences

  /** A Schedule H Part I line 7 group: its element name and the prefix of its column ids. */
  datatype Line = Line(tag: string, prefix: string)

  /** A sub-field of each line group: its element name and the suffix of its column id. */
  datatype SubField = SubField(tag: string, suffix: string)

  /** A one-off Schedule H element and its column id. */
  datatype Extra = Extra(tag: string, id: string)

  /** One catalog entry: the record key and the column title. */
  datatype FieldSpec = FieldSpec(id: string, title: string)

  /** The `LINES` table, in its declared order. */
  const Lines: seq<Line> := [
    Line("FinancialAssistanceAtCostTyp", "SchH_I_7_a_"),
    Line("UnreimbursedMedicaidGrp", "SchH_I_7_b_"),
    Line("TotalFinancialAssistanceTyp", "SchH_I_7_d_"),
    Line("CommunityHealthServicesGrp", "SchH_I_7_e_"),
    Line("HealthProfessionsEducationGrp", "SchH_I_7_f_"),
    Line("SubsidizedHealthServicesGrp", "SchH_I_7_g_"),
    Line("ResearchGrp", "SchH_I_7_h_"),
    Line("CashAndInKindContributionsGrp", "SchH_I_7_i_"),
    Line("TotalOtherBenefitsGrp", "SchH_I_7_j_"),
    Line("TotalCommunityBenefitsGrp", "SchH_I_7_k_")
  ]

  /** The `FIELDS` table, in its declared order. */
  const SubFields: seq<SubField> := [
    SubField("TotalCommunityBenefitExpnsAmt", "c"),
    SubField("DirectOffsettingRevenueAmt", "d"),
    SubField("NetCommunityBenefitExpnsAmt", "e"),
    SubField("TotalExpensePct", "f")
  ]

  /** The `EXTRA_FIELDS` table, in its declared order. */
  const Extras: seq<Extra> := [
    Extra("BadDebtExpenseAmt", "SchH_III_2"),
    Extra("BadDebtExpenseAttributableAmt", "SchH_III_3"),
    Extra("ReimbursedByMedicareAmt", "SchH_III_5"),
    Extra("CostOfCareReimbursedByMedcrAmt", "SchH_III_6"),
    Extra("MedicareSurplusOrShortfallAmt", "SchH_III_7")
  ]

  /** The fixed header entries that open the catalog. */
  const Header: seq<FieldSpec> := [
    FieldSpec("ein", "EIN"),
    FieldSpec("businessName", "Business Name"),
    FieldSpec("taxYear", "Tax Year"),
    FieldSpec("taxEndDate", "Tax End Date"),
    FieldSpec("returnTimeStamp", "Return Timestamp"),
    FieldSpec("990_IX_25_A", "990_IX_25_A"),
    FieldSpec("990_IX_7_A", "990_IX_7_A")
  ]

  /** The column id of one line group's sub-field, e.g. `SchH_I_7_k_e`. */
  function PartIId(line: Line, field: SubField): string {
    line.prefix + field.suffix
  }

  /** An entry whose title is its id. */
  function SelfTitled(id: string): FieldSpec {
    FieldSpec(id, id)
  }

  function PartISpec(line: Line, field: SubField): FieldSpec {
    SelfTitled(PartIId(line, field))
  }

  function ExtraSpecs(): (r: seq<FieldSpec>)
    ensures |r| == |Extras|
    ensures forall k :: 0 <= k < |Extras| ==> r[k] == SelfTitled(Extras[k].id)
  {
    seq(|Extras|, k requires 0 <= k < |Extras| => SelfTitled(Extras[k].id))
  }

  /** `getFields()` */
  function GetFields(): seq<FieldSpec> {
    Header + Cross(Lines, SubFields, PartISpec) + ExtraSpecs()
  }

  /** The ids of a list of entries, in order. */
  function Ids(fs: seq<FieldSpec>): (ids: seq<string>)
    ensures |ids| == |fs|
    ensures forall k :: 0 <= k < |fs| ==> ids[k] == fs[k].id
  {
    seq(|fs|, k requires 0 <= k < |fs| => fs[k].id)
  }

  /** The sizes of the four tables. */
  lemma TableSizes()
    ensures |Header| == 7 && |Lines| == 10 && |SubFields| == 4 && |Extras| == 5
  {
  }

  lemma IdsAppend(a: seq<FieldSpec>, b: seq<FieldSpec>)
    ensures Ids(a + b) == Ids(a) + Ids(b)
  {
  }

  /** The catalog has 7 + 10 * 4 + 5 = 52 entries, the header first. */
  lemma CatalogSize()
    ensures |Lines| == 10 && |SubFields| == 4 && |Extras| == 5
    ensures |GetFields()| == |Header| + |Lines| * |SubFields| + |Extras| == 52
    ensures GetFields()[..7] == Header
  {
    TableSizes();
    PrefixOfAppend(Header, Cross(Lines, SubFields, PartISpec) + ExtraSpecs());
    assert GetFields() == Header + (Cross(Lines, SubFields, PartISpec) + ExtraSpecs());
  }

  /** Entry `7 + 4i + j` is line `i` with sub-field `j`: line-major, sub-field-minor, titled by its id. */
  lemma PartIEntry(i: int, j: int)
    requires 0 <= i < |Lines| && 0 <= j < |SubFields|
    ensures 7 + 4 * i + j < 47
    ensures GetFields()[7 + 4 * i + j] == SelfTitled(Lines[i].prefix + SubFields[j].suffix)
  {
    TableSizes();
    BlockAt(Header, Lines, SubFields, ExtraSpecs(), i, j);
  }

  /** Behind a seven-entry header, entry `7 + 4i + j` of a four-sub-field block is line `i` with sub-field `j`. */
  lemma BlockAt(head: seq<FieldSpec>, lines: seq<Line>, subs: seq<SubField>, tail: seq<FieldSpec>, i: int, j: int)
    requires |head| == 7 && |subs| == 4
    requires 0 <= i < |lines| && 0 <= j < |subs|
    ensures 7 + 4 * i + j < |head + Cross(lines, subs, PartISpec)|
    ensures (head + Cross(lines, subs, PartISpec) + tail)[7 + 4 * i + j] == SelfTitled(lines[i].prefix + subs[j].suffix)
  {
    CrossAt(head, lines, subs, PartISpec, 7, 4, i, j);
  }

  /** The last five entries are the extra elements in table order, titled by their ids. */
  lemma ExtraEntry(k: int)
    requires 0 <= k < |Extras|
    ensures GetFields()[47 + k] == SelfTitled(Extras[k].id)
  {
    TableSizes();
    assert |Header + Cross(Lines, SubFields, PartISpec)| == 47;
  }

  /** The catalog entry the retention rule reads: line k (`TotalCommunityBenefitsGrp`), sub-field e. */
  lemma NetCommunityBenefitColumn()
    ensures GetFields()[7 + 4 * 9 + 2].id == "SchH_I_7_k_e"
  {
    TableSizes();
    BlockAt(Header, Lines, SubFields, ExtraSpecs(), 9, 2);
    LineKPrefix();
    SubFieldESuffix();
    LineKSubFieldEId();
  }

  lemma LineKPrefix()
    ensures Lines[9].prefix == "SchH_I_7_k_"
  {
  }

  lemma SubFieldESuffix()
    ensures SubFields[2].suffix == "e"
  {
  }

  lemma LineKSubFieldEId()
    ensures "SchH_I_7_k_" + "e" == "SchH_I_7_k_e"
  {
  }

  /** What every derived column id looks like: `SchH_I_7_`, the line letter, `_`, the sub-field letter. */
  lemma PartIIdShape(i: int, j: int)
    requires 0 <= i < |Lines| && 0 <= j < |SubFields|
    ensures var id := PartIId(Lines[i], SubFields[j]);
      |id| == 12 && id[0] == 'S' && id[9] == Lines[i].prefix[9] && id[11] == SubFields[j].suffix[0]
  {
  }

  lemma LineLettersDistinct(a: int, b: int)
    requires 0 <= a < |Lines| && 0 <= b < |Lines| && a != b
    ensures Lines[a].prefix[9] != Lines[b].prefix[9]
  {
  }

  /** Different (line, sub-field) pairs get different ids. */
  lemma PartIIdsInjective()
    ensures InjectiveOn(Lines, SubFields, PartIId)
  {
    forall a, b, c, d |
      0 <= a < |Lines| && 0 <= b < |SubFields| && 0 <= c < |Lines| && 0 <= d < |SubFields|
      && PartIId(Lines[a], SubFields[b]) == PartIId(Lines[c], SubFields[d])
      ensures a == c && b == d
    {
      PartIIdShape(a, b);
      PartIIdShape(c, d);
      if a != c {
        LineLettersDistinct(a, c);
      }
    }
  }

  /** The ids of the Part I block are the cross product of prefixes and suffixes. */
  lemma {:induction false} PartIIdsOf(lines: seq<Line>)
    ensures Ids(Cross(lines, SubFields, PartISpec)) == Cross(lines, SubFields, PartIId)
    decreases |lines|
  {
    if lines != [] {
      PartIIdsOf(lines[1..]);
      var row := MapRow(lines[0], SubFields, PartISpec);
      var rest := Cross(lines[1..], SubFields, PartISpec);
      assert Ids(row + rest) == Ids(row) + Ids(rest);
    }
  }

  /** The line group and sub-field behind position `k` of the Part I block. */
  lemma {:induction false} PartIPosition(k: int) returns (i: int, j: int)
    requires 7 <= k < 47
    ensures 0 <= i < |Lines| && 0 <= j < |SubFields| && k == 7 + 4 * i + j
    decreases k
  {
    if k < 11 {
      i, j := 0, k - 7;
    } else {
      var i', j' := PartIPosition(k - 4);
      i, j := i' + 1, j';
    }
  }

  /** Every derived and extra entry is titled by its own id. */
  lemma DerivedEntriesSelfTitled(k: int)
    requires 7 <= k < |GetFields()|
    ensures GetFields()[k].title == GetFields()[k].id
  {
    if k < 47 {
      var i, j := PartIPosition(k);
      PartIEntry(i, j);
    } else {
      ExtraEntry(k - 47);
    }
  }

  lemma HeaderIdsDistinct()
    ensures Distinct(Ids(Header))
    ensures forall k :: 0 <= k < |Header| ==> Ids(Header)[k] == [] || Ids(Header)[k][0] != 'S'
  {
  }

  lemma ExtraIdsShape()
    ensures Distinct(Ids(ExtraSpecs()))
    ensures forall k :: 0 <= k < |Extras| ==> |Ids(ExtraSpecs())[k]| == 10 && Ids(ExtraSpecs())[k][0] == 'S'
  {
  }

  /**
   Three repetition-free blocks concatenate without repetition when the first
   block's ids never start with `S` and the other two differ in length.
   */
  lemma BlocksDistinct(head: seq<string>, mid: seq<string>, tail: seq<string>)
    requires Distinct(head) && Distinct(mid) && Distinct(tail)
    requires forall k :: 0 <= k < |head| ==> head[k] == [] || head[k][0] != 'S'
    requires forall z :: z in mid ==> |z| == 12 && z[0] == 'S'
    requires forall k :: 0 <= k < |tail| ==> |tail[k]| == 10 && tail[k][0] == 'S'
    ensures Distinct(head + mid + tail)
  {
    forall j | 0 <= j < |mid| ensures mid[j] !in head {
      assert mid[j] in mid;
    }
    DistinctConcat(head, mid);
    forall j | 0 <= j < |tail| ensures tail[j] !in head + mid {
    }
    DistinctConcat(head + mid, tail);
  }

  /** Every line prefix has the form `SchH_I_7_?_` and every sub-field suffix is one letter. */
  ghost predicate TablesShaped(lines: seq<Line>, subs: seq<SubField>) {
    && (forall a :: 0 <= a < |lines| ==> |lines[a].prefix| == 11 && lines[a].prefix[0] == 'S')
    && (forall b :: 0 <= b < |subs| ==> |subs[b].suffix| == 1)
  }

  lemma PartIIdsShapeOf(lines: seq<Line>, subs: seq<SubField>)
    requires TablesShaped(lines, subs)
    ensures forall z :: z in Cross(lines, subs, PartIId) ==> |z| == 12 && z[0] == 'S'
  {
    forall z | z in Cross(lines, subs, PartIId) ensures |z| == 12 && z[0] == 'S' {
      CrossMember(lines, subs, PartIId, z);
    }
  }

  lemma PartIIdsDistinct()
    ensures Distinct(Cross(Lines, SubFields, PartIId))
  {
    PartIIdsInjective();
    CrossDistinct(Lines, SubFields, PartIId);
  }

  lemma PartIIdsShape()
    ensures forall z :: z in Cross(Lines, SubFields, PartIId) ==> |z| == 12 && z[0] == 'S'
  {
    assert TablesShaped(Lines, SubFields);
    PartIIdsShapeOf(Lines, SubFields);
  }

  /** The catalog's ids: the header's, the Part I block's, then the extras'. */
  lemma CatalogIds()
    ensures Ids(GetFields()) == Ids(Header) + Cross(Lines, SubFields, PartIId) + Ids(ExtraSpecs())
  {
    var partI := Cross(Lines, SubFields, PartISpec);
    IdsAppend(Header + partI, ExtraSpecs());
    IdsAppend(Header, partI);
    PartIIdsOf(Lines);
  }

  /** No two catalog entries share an id. */
  lemma IdsDistinct()
    ensures Distinct(Ids(GetFields()))
  {
    CatalogIds();
    HeaderIdsDistinct();
    PartIIdsDistinct();
    PartIIdsShape();
    ExtraIdsShape();
    BlocksDistinct(Ids(Header), Cross(Lines, SubFields, PartIId), Ids(ExtraSpecs()));
  }
}
