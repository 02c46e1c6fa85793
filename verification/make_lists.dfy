/**
 The name lists: every row of every mega index, files in sorted name order,
 folded into one EIN-to-business-name map and one such map per state. A
 later row overwrites an earlier one for the same EIN; a row contributes to
 the per-state maps only when its state is a non-empty string. Writing the
 maps out as YAML is left out.
 */
module MakeLists {
  import opened Outcomes
  import opened Sorting
  import opened Extractor
  import FieldCatalog
  import opened XmlTree
  import opened Sequences

  /**
   One row of a mega index as `JSON.parse` returns it; `None` is a property the
   row does not have (a name that was `undefined` is not written by `JSON.stringify`).
   */
  datatype IndexRow = IndexRow(ein: string, businessName: Option<string>, state: Option<string>)

  /** EIN to business name. */
  type Names = map<string, Option<string>>

  /** `megaIndexes` and `byState`. */
  datatype Lists = Lists(all: Names, byState: map<string, Names>)

  const NoLists: Lists := Lists(map[], map[])

  /** `row.state && row.state.length` */
  predicate HasState(row: IndexRow) {
    row.state.Some? && |row.state.value| > 0
  }

  /** `byState[s] ?? {}` */
  function NamesIn(lists: Lists, s: string): Names {
    if s in lists.byState then lists.byState[s] else map[]
  }

  /** The body of the inner loop: one row recorded. */
  function AddRow(lists: Lists, row: IndexRow): Lists {
    var all := lists.all[row.ein := row.businessName];
    if HasState(row) then
      var s := row.state.value;
      Lists(all, lists.byState[s := NamesIn(lists, s)[row.ein := row.businessName]])
    else
      Lists(all, lists.byState)
  }

  /**
   Recording a row sets its EIN's name in the overall map and, when it has a
   state, in that state's map; every other entry stays, and consistency is kept.
   */
  lemma AddRowRecords(lists: Lists, row: IndexRow)
    ensures var r := AddRow(lists, row);
      && r.all.Keys == lists.all.Keys + {row.ein} && r.all[row.ein] == row.businessName
      && (forall e :: e in lists.all && e != row.ein ==> r.all[e] == lists.all[e])
      && (HasState(row) ==>
            row.state.value in r.byState && row.ein in r.byState[row.state.value] && r.byState[row.state.value][row.ein] == row.businessName)
      && (forall s :: s in lists.byState && !(HasState(row) && s == row.state.value) ==> s in r.byState && r.byState[s] == lists.byState[s])
      && (HasState(row) && row.state.value in lists.byState ==>
            forall e :: e in lists.byState[row.state.value] && e != row.ein ==>
              e in r.byState[row.state.value] && r.byState[row.state.value][e] == lists.byState[row.state.value][e])
      && (Consistent(lists) ==> Consistent(r))
  {
  }

  /** The lists after the rows are recorded one by one, starting from `lists`. */
  function AddRows(lists: Lists, rows: seq<IndexRow>): Lists {
    if rows == [] then lists else AddRow(AddRows(lists, rows[..|rows| - 1]), rows[|rows| - 1])
  }

  /** The rows of the files, file after file, in the order given. */
  function RowsOf(files: seq<string>, read: string -> seq<IndexRow>): seq<IndexRow> {
    if files == [] then [] else RowsOf(files[..|files| - 1], read) + read(files[|files| - 1])
  }

  /** The script: the `mega-indexes` listing sorted, every file's rows recorded. */
  function MakeLists(listing: seq<string>, read: string -> seq<IndexRow>): Lists {
    AddRows(NoLists, RowsOf(SortStrings(listing), read))
  }

  /** The files are read in sorted name order, each one exactly as often as it is listed. */
  lemma FilesReadSorted(listing: seq<string>)
    ensures SortedBy(SortStrings(listing), StringLess)
    ensures multiset(SortStrings(listing)) == multiset(listing)
  {
    SortStringsSorted(listing);
  }

  /** The EINs of some rows. */
  function EinsOf(rows: seq<IndexRow>): set<string> {
    set i | 0 <= i < |rows| :: rows[i].ein
  }

  /** The row at `i` has a state and it is `s`. */
  predicate InState(rows: seq<IndexRow>, i: int, s: string)
    requires 0 <= i < |rows|
  {
    HasState(rows[i]) && rows[i].state.value == s
  }

  /** No row after `i` has the EIN of row `i`. */
  predicate LastForEin(rows: seq<IndexRow>, i: int)
    requires 0 <= i < |rows|
  {
    forall j :: i < j < |rows| ==> rows[j].ein != rows[i].ein
  }

  /** No row after `i` has both the EIN and the state of row `i`. */
  predicate LastForEinInState(rows: seq<IndexRow>, i: int)
    requires 0 <= i < |rows|
  {
    forall j :: i < j < |rows| ==> !(rows[j].ein == rows[i].ein && HasState(rows[j]) && rows[j].state == rows[i].state)
  }

  /** The lists are consistent: no empty state, and every per-state EIN is also in the overall map. */
  predicate Consistent(lists: Lists) {
    && "" !in lists.byState
    && forall s :: s in lists.byState ==> lists.byState[s].Keys <= lists.all.Keys
  }

  /** Recording rows keeps the lists consistent. */
  lemma {:induction false} AddRowsConsistent(lists: Lists, rows: seq<IndexRow>)
    requires Consistent(lists)
    ensures Consistent(AddRows(lists, rows))
    decreases |rows|
  {
    if rows != [] {
      AddRowsConsistent(lists, rows[..|rows| - 1]);
    }
  }

  /** An EIN is in the overall map exactly when some row has it. */
  lemma {:induction false} AllKeys(rows: seq<IndexRow>)
    ensures AddRows(NoLists, rows).all.Keys == EinsOf(rows)
    decreases |rows|
  {
    if rows == [] {
      assert EinsOf(rows) == {};
    } else {
      var earlier := rows[..|rows| - 1];
      var row := rows[|rows| - 1];
      AllKeys(earlier);
      forall e | e in EinsOf(rows) ensures e in EinsOf(earlier) + {row.ein} {
        var i :| 0 <= i < |rows| && rows[i].ein == e;
        if i < |earlier| {
          assert earlier[i] == rows[i];
        }
      }
      forall e | e in EinsOf(earlier) ensures e in EinsOf(rows) {
        var i :| 0 <= i < |earlier| && earlier[i].ein == e;
        assert rows[i] == earlier[i];
      }
    }
  }

  /** The overall map holds, for each EIN, the name of the last row with that EIN. */
  lemma {:induction false} AllLastWins(rows: seq<IndexRow>, i: int)
    requires 0 <= i < |rows| && LastForEin(rows, i)
    ensures rows[i].ein in AddRows(NoLists, rows).all
    ensures AddRows(NoLists, rows).all[rows[i].ein] == rows[i].businessName
    decreases |rows|
  {
    if i < |rows| - 1 {
      var earlier := rows[..|rows| - 1];
      assert earlier[i] == rows[i];
      assert LastForEin(earlier, i) by {
        forall j | i < j < |earlier| ensures earlier[j].ein != earlier[i].ein {
          assert earlier[j] == rows[j];
        }
      }
      AllLastWins(earlier, i);
    }
  }

  /** Every state in `byState` is the non-empty state of some row. */
  lemma {:induction false} StateKeysFrom(rows: seq<IndexRow>, s: string)
    requires s in AddRows(NoLists, rows).byState
    ensures exists i :: 0 <= i < |rows| && InState(rows, i, s)
    decreases |rows|
  {
    var earlier := rows[..|rows| - 1];
    var last := |rows| - 1;
    if !InState(rows, last, s) {
      StateKeysFrom(earlier, s);
      var i :| 0 <= i < |earlier| && InState(earlier, i, s);
      assert rows[i] == earlier[i];
      assert InState(rows, i, s);
    }
  }

  /** Every row with a non-empty state puts its EIN into that state's map. */
  lemma {:induction false} StateEntriesTo(rows: seq<IndexRow>, i: int)
    requires 0 <= i < |rows| && HasState(rows[i])
    ensures rows[i].state.value in AddRows(NoLists, rows).byState
    ensures rows[i].ein in AddRows(NoLists, rows).byState[rows[i].state.value]
    decreases |rows|
  {
    if i < |rows| - 1 {
      var earlier := rows[..|rows| - 1];
      assert earlier[i] == rows[i];
      StateEntriesTo(earlier, i);
    }
  }

  /** Every EIN in a state's map comes from a row with that EIN and that state. */
  lemma {:induction false} StateEntriesFrom(rows: seq<IndexRow>, s: string, ein: string)
    requires s in AddRows(NoLists, rows).byState && ein in AddRows(NoLists, rows).byState[s]
    ensures exists i :: 0 <= i < |rows| && rows[i].ein == ein && InState(rows, i, s)
    decreases |rows|
  {
    var earlier := rows[..|rows| - 1];
    var last := |rows| - 1;
    if !(rows[last].ein == ein && InState(rows, last, s)) {
      StateEntriesFrom(earlier, s, ein);
      var i :| 0 <= i < |earlier| && earlier[i].ein == ein && InState(earlier, i, s);
      assert rows[i] == earlier[i];
      assert InState(rows, i, s);
    }
  }

  /** A state's map holds, for each EIN, the name of the last row with that EIN in that state. */
  lemma {:induction false} StateLastWins(rows: seq<IndexRow>, i: int)
    requires 0 <= i < |rows| && HasState(rows[i]) && LastForEinInState(rows, i)
    ensures var byState := AddRows(NoLists, rows).byState;
      rows[i].state.value in byState
      && rows[i].ein in byState[rows[i].state.value]
      && byState[rows[i].state.value][rows[i].ein] == rows[i].businessName
    decreases |rows|
  {
    if i < |rows| - 1 {
      var earlier := rows[..|rows| - 1];
      assert earlier[i] == rows[i];
      assert LastForEinInState(earlier, i) by {
        forall j | i < j < |earlier|
          ensures !(earlier[j].ein == earlier[i].ein && HasState(earlier[j]) && earlier[j].state == earlier[i].state)
        {
          assert earlier[j] == rows[j];
        }
      }
      StateLastWins(earlier, i);
    }
  }

  /** The lists the script builds have no empty state, and every per-state EIN is in the overall list. */
  lemma ListsConsistent(listing: seq<string>, read: string -> seq<IndexRow>)
    ensures Consistent(MakeLists(listing, read))
  {
    AddRowsConsistent(NoLists, RowsOf(SortStrings(listing), read));
  }

  /** Rows without a state build no per-state maps at all. */
  lemma {:induction false} StatelessRowsBuildNoStates(rows: seq<IndexRow>)
    requires forall i :: 0 <= i < |rows| ==> rows[i].state.None?
    ensures AddRows(NoLists, rows).byState == map[]
    decreases |rows|
  {
    if rows != [] {
      StatelessRowsBuildNoStates(rows[..|rows| - 1]);
    }
  }

  /** The mega-index row that `JSON.stringify` then `JSON.parse` make of an extracted record. */
  function RowOf(rec: Record): IndexRow {
    IndexRow(
      match Lookup(rec, "ein") case Some(Str(s)) => s case _ => "undefined",
      match Lookup(rec, "businessName") case Some(Str(s)) => Some(s) case _ => None,
      match Lookup(rec, "state") case Some(Str(s)) => Some(s) case _ => None)
  }

  /** A key that is not among a record's keys is not found. */
  lemma {:induction false} LookupMissing(r: Record, key: string)
    requires key !in Keys(r)
    ensures Lookup(r, key) == None
    decreases |r|
  {
    if r != [] {
      assert Keys(r)[0] == r[0].key;
      assert Keys(r[1..]) == Keys(r)[1..];
      LookupMissing(r[1..], key);
    }
  }

  /** No Part I id is `state`: they are all twelve characters long. */
  lemma StateIsNoPartIId()
    ensures "state" !in Cross(FieldCatalog.Lines, FieldCatalog.SubFields, FieldCatalog.PartIId)
  {
    FieldCatalog.PartIIdsShape();
  }

  /** No extra id is `state`: they are all ten characters long. */
  lemma StateIsNoExtraId()
    ensures "state" !in FieldCatalog.Ids(FieldCatalog.ExtraSpecs())
  {
    FieldCatalog.ExtraIdsShape();
    var tail := FieldCatalog.Ids(FieldCatalog.ExtraSpecs());
    forall k | 0 <= k < |tail| ensures tail[k] != "state" {
      assert |tail[k]| == 10;
    }
  }

  /** No catalog id is `state`. */
  lemma StateIsNoCatalogId()
    ensures "state" !in FieldCatalog.Ids(FieldCatalog.GetFields())
  {
    FieldCatalog.CatalogIds();
    StateIsNoHeaderId();
    StateIsNoPartIId();
    StateIsNoExtraId();
    var head := FieldCatalog.Ids(FieldCatalog.Header);
    var partI := Cross(FieldCatalog.Lines, FieldCatalog.SubFields, FieldCatalog.PartIId);
    NotInAppend("state", head, partI);
    NotInAppend("state", head + partI, FieldCatalog.Ids(FieldCatalog.ExtraSpecs()));
  }

  /** No fixed header id is `state`. */
  lemma StateIsNoHeaderId()
    ensures "state" !in FieldCatalog.Ids(FieldCatalog.Header)
  {
    var head := FieldCatalog.Ids(FieldCatalog.Header);
    forall k | 0 <= k < |head| ensures head[k] != "state" {
      assert head[k] == FieldCatalog.Header[k].id;
    }
  }

  /** The catalog has no `state` column, so no record the extractor builds carries a state. */
  lemma RecordHasNoState(doc: Document, h: HeaderValues)
    ensures RowOf(RecordOf(doc, h)).state == None
  {
    RecordOfKeys(doc, h);
    StateIsNoCatalogId();
    LookupMissing(RecordOf(doc, h), "state");
  }

  /** Mega-index rows that all come from extracted records build no per-state lists. */
  lemma ExtractedRowsBuildNoStates(docs: seq<Document>, headers: seq<HeaderValues>)
    requires |docs| == |headers|
    ensures AddRows(NoLists, seq(|docs|, i requires 0 <= i < |docs| => RowOf(RecordOf(docs[i], headers[i])))).byState == map[]
  {
    var rows := seq(|docs|, i requires 0 <= i < |docs| => RowOf(RecordOf(docs[i], headers[i])));
    forall i | 0 <= i < |rows| ensures rows[i].state.None? {
      RecordHasNoState(docs[i], headers[i]);
    }
    StatelessRowsBuildNoStates(rows);
  }

  /** The inner loop over one file's rows. */
  method AddFileRows(start: Lists, rows: seq<IndexRow>) returns (lists: Lists)
    ensures lists == AddRows(start, rows)
  {
    lists := start;
    var k := 0;
    while k < |rows|
      invariant 0 <= k <= |rows|
      invariant lists == AddRows(start, rows[..k])
    {
      assert rows[..k + 1][..k] == rows[..k];
      var row := rows[k];
      var megaIndexes := lists.all[row.ein := row.businessName];
      var byState := lists.byState;
      if row.state.Some? && |row.state.value| > 0 {
        var names := if row.state.value in byState then byState[row.state.value] else map[];
        byState := byState[row.state.value := names[row.ein := row.businessName]];
      }
      lists := Lists(megaIndexes, byState);
      k := k + 1;
    }
    assert rows[..k] == rows;
  }

  /** Recording a concatenation is recording the second part after the first. */
  lemma {:induction false} AddRowsAppend(lists: Lists, a: seq<IndexRow>, b: seq<IndexRow>)
    ensures AddRows(lists, a + b) == AddRows(AddRows(lists, a), b)
    decreases |b|
  {
    if b == [] {
      assert a + b == a;
    } else {
      var ab := a + b;
      assert ab[..|ab| - 1] == a + b[..|b| - 1];
      assert ab[|ab| - 1] == b[|b| - 1];
      AddRowsAppend(lists, a, b[..|b| - 1]);
    }
  }

  /** The script's loops over the sorted listing and each file's rows. */
  method MakeListsLoop(listing: seq<string>, read: string -> seq<IndexRow>) returns (lists: Lists)
    ensures lists == MakeLists(listing, read)
  {
    var files := SortStrings(listing);
    lists := NoLists;
    var f := 0;
    while f < |files|
      invariant 0 <= f <= |files|
      invariant lists == AddRows(NoLists, RowsOf(files[..f], read))
    {
      assert files[..f + 1][..f] == files[..f];
      AddRowsAppend(NoLists, RowsOf(files[..f], read), read(files[f]));
      lists := AddFileRows(lists, read(files[f]));
      f := f + 1;
    }
    assert files[..f] == files;
  }
}
