/**
 The EIN index: every filing listed in the yearly IRS index files, grouped by
 EIN. Each EIN maps to the object keys of its filings (the filing URL with the
 S3 bucket address removed), kept sorted after every insertion. Only directory
 entries whose name contains `.json` are read.
 */
module EinIndex {
  import opened JsText
  import opened Sorting

  /** One entry of an index file's filing list. */
  datatype Filing = Filing(ein: string, url: string)

  /**
   One entry of the `indexes` directory: its name and, for an index file, the
   filing lists under its top-level keys, in `Object.keys` order.
   */
  datatype Listed = Listed(name: string, groups: seq<seq<Filing>>)

  /** EIN to the object keys of its filings. */
  type Index = map<string, seq<string>>

  const BucketAddress: string := "https://s3.amazonaws.com/irs-form-990/"

  /** `index[ein] ?? []` */
  function FilesOf(index: Index, ein: string): seq<string> {
    if ein in index then index[ein] else []
  }

  /** `url.replace(BucketAddress, "")` */
  function ObjectKey(url: string): string {
    ReplaceFirst(url, BucketAddress, "")
  }

  /** A URL inside the bucket becomes the path below the bucket address. */
  lemma ObjectKeyOfBucketUrl(path: string)
    ensures ObjectKey(BucketAddress + path) == path
  {
    var url := BucketAddress + path;
    assert url[..|BucketAddress|] == BucketAddress;
    ReplaceLeadingPrefix(url, BucketAddress);
    assert url[|BucketAddress|..] == path;
  }

  /** A URL elsewhere is kept as it is. */
  lemma ObjectKeyOfOtherUrl(url: string)
    requires !Includes(url, BucketAddress)
    ensures ObjectKey(url) == url
  {
  }

  /** `file.includes(".json")` */
  predicate IsIndexFile(entry: Listed) {
    Includes(entry.name, ".json")
  }

  /** The filings of a list of groups, in order. */
  function Flatten(groups: seq<seq<Filing>>): seq<Filing> {
    if groups == [] then [] else Flatten(groups[..|groups| - 1]) + groups[|groups| - 1]
  }

  /** Every filing the loops visit, in visiting order: index files only. */
  function Visited(entries: seq<Listed>): seq<Filing> {
    if entries == [] then []
    else
      var last := entries[|entries| - 1];
      Visited(entries[..|entries| - 1]) + (if IsIndexFile(last) then Flatten(last.groups) else [])
  }

  /** One filing added: its key appended to its EIN's list, which is then sorted. */
  function AddFiling(index: Index, f: Filing): Index {
    index[f.ein := SortStrings(FilesOf(index, f.ein) + [ObjectKey(f.url)])]
  }

  /** The index after the filings `fs` are added one by one with `add`, starting from `index`. */
  function AddAll(add: (Index, Filing) -> Index, index: Index, fs: seq<Filing>): Index {
    if fs == [] then index else add(AddAll(add, index, fs[..|fs| - 1]), fs[|fs| - 1])
  }

  /** The index built from a directory listing. */
  function BuildIndex(entries: seq<Listed>): Index {
    AddAll(AddFiling, map[], Visited(entries))
  }

  /** What one step does to the EIN it adds: its list gains the filing's key and is sorted; other EINs are untouched. */
  lemma AddFilingEffect(index: Index, f: Filing)
    ensures AddFiling(index, f).Keys == index.Keys + {f.ein}
    ensures multiset(AddFiling(index, f)[f.ein]) == multiset(FilesOf(index, f.ein)) + multiset{ObjectKey(f.url)}
    ensures SortedBy(AddFiling(index, f)[f.ein], StringLess)
    ensures forall e :: e in index && e != f.ein ==> AddFiling(index, f)[e] == index[e]
  {
    SortStringsSorted(FilesOf(index, f.ein) + [ObjectKey(f.url)]);
  }

  /** The object keys of the filings of one EIN, in visiting order. */
  function KeysFor(fs: seq<Filing>, ein: string): seq<string> {
    if fs == [] then []
    else KeysFor(fs[..|fs| - 1], ein) + (if fs[|fs| - 1].ein == ein then [ObjectKey(fs[|fs| - 1].url)] else [])
  }

  /** The EINs of a list of filings. */
  function EinsOf(fs: seq<Filing>): set<string> {
    set i | 0 <= i < |fs| :: fs[i].ein
  }

  lemma EinsOfSnoc(fs: seq<Filing>, f: Filing)
    ensures EinsOf(fs + [f]) == EinsOf(fs) + {f.ein}
  {
    var both := fs + [f];
    forall e | e in EinsOf(both) ensures e in EinsOf(fs) + {f.ein} {
      var i :| 0 <= i < |both| && both[i].ein == e;
      if i < |fs| {
        assert fs[i] == both[i];
      }
    }
    forall e | e in EinsOf(fs) + {f.ein} ensures e in EinsOf(both) {
      if e in EinsOf(fs) {
        var i :| 0 <= i < |fs| && fs[i].ein == e;
        assert both[i] == fs[i];
      } else {
        assert both[|fs|] == f;
      }
    }
  }

  /** Starting from an empty index, the EINs present are exactly the EINs of the filings added. */
  lemma {:induction false} AddAllKeys(fs: seq<Filing>)
    ensures AddAll(AddFiling, map[], fs).Keys == EinsOf(fs)
    decreases |fs|
  {
    if fs == [] {
      assert EinsOf(fs) == {};
    } else {
      var earlier := fs[..|fs| - 1];
      var f := fs[|fs| - 1];
      AddAllKeys(earlier);
      assert fs == earlier + [f];
      EinsOfSnoc(earlier, f);
      AddFilingEffect(AddAll(AddFiling, map[], earlier), f);
    }
  }

  /** Every list in the index is sorted, because each insertion re-sorts the list it changes. */
  lemma {:induction false} AddAllSorted(fs: seq<Filing>, ein: string)
    requires ein in AddAll(AddFiling, map[], fs)
    ensures SortedBy(AddAll(AddFiling, map[], fs)[ein], StringLess)
    decreases |fs|
  {
    var earlier := fs[..|fs| - 1];
    var f := fs[|fs| - 1];
    var before := AddAll(AddFiling, map[], earlier);
    AddFilingEffect(before, f);
    if ein != f.ein {
      AddAllSorted(earlier, ein);
    }
  }

  /**
   Starting from an empty index, an EIN's list holds exactly the object keys of
   that EIN's filings, duplicates kept; an EIN with no filings has no list.
   */
  lemma {:induction false} AddAllContents(fs: seq<Filing>, ein: string)
    ensures multiset(FilesOf(AddAll(AddFiling, map[], fs), ein)) == multiset(KeysFor(fs, ein))
    decreases |fs|
  {
    if fs != [] {
      var earlier := fs[..|fs| - 1];
      var f := fs[|fs| - 1];
      AddAllContents(earlier, ein);
      var before := AddAll(AddFiling, map[], earlier);
      AddFilingEffect(before, f);
      if ein != f.ein {
        assert KeysFor(fs, ein) == KeysFor(earlier, ein) + [];
      } else {
        assert KeysFor(fs, ein) == KeysFor(earlier, ein) + [ObjectKey(f.url)];
      }
    }
  }

  /** An EIN no filing has gets no keys. */
  lemma {:induction false} KeysForAbsent(fs: seq<Filing>, ein: string)
    requires ein !in EinsOf(fs)
    ensures KeysFor(fs, ein) == []
    decreases |fs|
  {
    if fs != [] {
      var earlier := fs[..|fs| - 1];
      assert fs == earlier + [fs[|fs| - 1]];
      EinsOfSnoc(earlier, fs[|fs| - 1]);
      KeysForAbsent(earlier, ein);
    }
  }

  /** An EIN is in the index exactly when some visited filing has it. */
  lemma IndexKeys(entries: seq<Listed>)
    ensures BuildIndex(entries).Keys == EinsOf(Visited(entries))
  {
    AddAllKeys(Visited(entries));
  }

  /** Each EIN's list is sorted and holds the object keys of exactly that EIN's filings, duplicates included. */
  lemma IndexLists(entries: seq<Listed>, ein: string)
    requires ein in BuildIndex(entries)
    ensures SortedBy(BuildIndex(entries)[ein], StringLess)
    ensures multiset(BuildIndex(entries)[ein]) == multiset(KeysFor(Visited(entries), ein))
  {
    AddAllSorted(Visited(entries), ein);
    AddAllContents(Visited(entries), ein);
  }

  /** A directory entry whose name lacks `.json` contributes nothing. */
  lemma OtherEntriesIgnored(entries: seq<Listed>, other: Listed)
    requires !IsIndexFile(other)
    ensures BuildIndex(entries + [other]) == BuildIndex(entries)
  {
    var all := entries + [other];
    assert all[..|all| - 1] == entries;
    assert all[|all| - 1] == other;
    assert Visited(all) == Visited(entries) + [];
    assert Visited(entries) + [] == Visited(entries);
  }

  /** The fold over a concatenation is the fold over the second part from the first part's result. */
  lemma {:induction false} AddAllAppend(add: (Index, Filing) -> Index, index: Index, a: seq<Filing>, b: seq<Filing>)
    ensures AddAll(add, index, a + b) == AddAll(add, AddAll(add, index, a), b)
    decreases |b|
  {
    if b == [] {
      assert a + b == a;
    } else {
      var ab := a + b;
      assert ab[..|ab| - 1] == a + b[..|b| - 1];
      assert ab[|ab| - 1] == b[|b| - 1];
      AddAllAppend(add, index, a, b[..|b| - 1]);
    }
  }

  /** Adding the first `k + 1` filings is one step past adding the first `k`. */
  lemma AddAllNext(add: (Index, Filing) -> Index, start: Index, fs: seq<Filing>, k: int)
    requires 0 <= k < |fs|
    ensures AddAll(add, start, fs[..k + 1]) == add(AddAll(add, start, fs[..k]), fs[k])
  {
    assert fs[..k + 1][..k] == fs[..k] && fs[..k + 1][k] == fs[k];
  }

  /** The filings visited in the first `i + 1` entries: those of the first `i`, then the next entry's if it is an index file. */
  lemma VisitedNext(entries: seq<Listed>, i: int)
    requires 0 <= i < |entries|
    ensures Visited(entries[..i + 1]) == Visited(entries[..i]) + (if IsIndexFile(entries[i]) then Flatten(entries[i].groups) else [])
  {
    assert entries[..i + 1][..i] == entries[..i] && entries[..i + 1][i] == entries[i];
  }

  /**
   The innermost loop: the filings of one top-level key, each added by `add`
   (in the script, `AddFiling`: pushed and its list re-sorted).
   */
  method AddGroup(add: (Index, Filing) -> Index, start: Index, group: seq<Filing>) returns (index: Index)
    ensures index == AddAll(add, start, group)
  {
    index := start;
    var k := 0;
    while k < |group|
      invariant 0 <= k <= |group|
      invariant index == AddAll(add, start, group[..k])
    {
      AddAllNext(add, start, group, k);
      index := add(index, group[k]);
      k := k + 1;
    }
    assert group[..k] == group;
  }

  /** The loop over an index file's top-level keys, each filing added by `add`. */
  method AddIndexFile(add: (Index, Filing) -> Index, start: Index, groups: seq<seq<Filing>>) returns (index: Index)
    ensures index == AddAll(add, start, Flatten(groups))
  {
    index := start;
    var g := 0;
    while g < |groups|
      invariant 0 <= g <= |groups|
      invariant index == AddAll(add, start, Flatten(groups[..g]))
    {
      assert groups[..g + 1][..g] == groups[..g];
      assert Flatten(groups[..g + 1]) == Flatten(groups[..g]) + groups[g];
      AddAllAppend(add, start, Flatten(groups[..g]), groups[g]);
      index := AddGroup(add, index, groups[g]);
      g := g + 1;
    }
    assert groups[..g] == groups;
  }

  /**
   The script's loop over the `indexes` directory, each filing added by `add`;
   with the script's step, `AddFiling`, the result is `BuildIndex(entries)`.
   */
  method BuildIndexLoop(add: (Index, Filing) -> Index, entries: seq<Listed>) returns (index: Index)
    ensures index == AddAll(add, map[], Visited(entries))
    ensures add == AddFiling ==> index == BuildIndex(entries)
  {
    index := map[];
    var i := 0;
    while i < |entries|
      invariant 0 <= i <= |entries|
      invariant index == AddAll(add, map[], Visited(entries[..i]))
    {
      var entry := entries[i];
      VisitedNext(entries, i);
      if IsIndexFile(entry) {
        AddAllAppend(add, map[], Visited(entries[..i]), Flatten(entry.groups));
        index := AddIndexFile(add, index, entry.groups);
      } else {
        assert Visited(entries[..i]) + [] == Visited(entries[..i]);
      }
      i := i + 1;
    }
    assert entries[..i] == entries;
  }
}
