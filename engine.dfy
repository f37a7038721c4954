/** The `NCBIdata` engine: the genome table, the menus derived from it, the filter
    specifications the interface sets, and the filtered view they select. */
module Engine {
  import opened Common
  import opened Text
  import opened Genomes
  import opened Taxonomy
  import opened Stages
  import opened Cache

  /** The key of the taxonomic filter; every other key names a range filter. */
  const TaxonomicRanks: string := "Taxonomic Ranks"

  /** What reading the taxonomic filter raises when it has not been set. */
  const MissingRanksFilter: string := "KeyError: 'Taxonomic Ranks'"

  /** What `is_filter` raises when the taxonomic filter has no 'values' entry. */
  const MissingValues: string := "KeyError: 'values'"

  /** A filter specification, as the interface sets it.
      - `RankFilter`: the menu column and the selected values; `None` when the
        specification has no 'values' entry yet.
      - `RangeFilter`: a numeric column, its inclusive bounds and whether the
        box is checked. */
  datatype FilterSpec =
    | RankFilter(menu: RankColumn, values: Option<seq<string>>)
    | RangeFilter(col: FeatureColumn, lo: real, hi: real, checked: bool)

  // ---------------------------------------------------------------------
  // Which rows the filters admit
  // ---------------------------------------------------------------------

  /** The taxonomic filter: with a non-empty value list, the row's menu cell is one
      of the values; otherwise every row passes. */
  predicate RankAdmits(f: FilterSpec, g: Genome) {
    f.RankFilter? && f.values.Some? && f.values.value != [] ==> RankValue(g, f.menu) in f.values.value
  }

  /** A range filter: when checked, `lo <= cell <= hi` (`between`, both ends included). */
  predicate RangeAdmits(f: FilterSpec, g: Genome) {
    f.RangeFilter? && f.checked ==> f.lo <= FeatureValue(g, f.col) <= f.hi
  }

  /** Reference definition of the filtered view: the taxonomic filter and every
      checked range filter of the map admit the row. */
  predicate Admits(fs: map<string, FilterSpec>, g: Genome)
    requires TaxonomicRanks in fs
  {
    RankAdmits(fs[TaxonomicRanks], g) && forall k :: k in fs ==> RangeAdmits(fs[k], g)
  }

  function AdmitsP(fs: map<string, FilterSpec>): Genome -> bool
    requires TaxonomicRanks in fs
  {
    g => Admits(fs, g)
  }

  /** The rows of `base`, in order, the filters admit. */
  function Filtered(base: seq<Genome>, fs: map<string, FilterSpec>): (r: seq<Genome>)
    requires TaxonomicRanks in fs
    ensures |r| <= |base|
    ensures forall g :: g in r <==> g in base && Admits(fs, g)
  {
    Where(base, AdmitsP(fs))
  }

  /** The filters a step-by-step application has applied after `n` entries of the
      insertion order. */
  predicate AdmitsUpTo(fs: map<string, FilterSpec>, order: seq<string>, n: nat, g: Genome)
    requires TaxonomicRanks in fs && n <= |order|
    requires forall i :: 0 <= i < |order| ==> order[i] in fs
  {
    RankAdmits(fs[TaxonomicRanks], g) && forall j :: 0 <= j < n ==> RangeAdmits(fs[order[j]], g)
  }

  function AdmitsUpToP(fs: map<string, FilterSpec>, order: seq<string>, n: nat): Genome -> bool
    requires TaxonomicRanks in fs && n <= |order|
    requires forall i :: 0 <= i < |order| ==> order[i] in fs
  {
    g => AdmitsUpTo(fs, order, n, g)
  }

  function RankP(f: FilterSpec): Genome -> bool {
    g => RankAdmits(f, g)
  }

  function RangeP(f: FilterSpec): Genome -> bool {
    g => RangeAdmits(f, g)
  }

  /** `df.loc[df[menu].isin(values)]`. */
  function RankFiltered(rows: seq<Genome>, f: FilterSpec): (r: seq<Genome>)
    ensures forall g :: g in r <==> g in rows && RankAdmits(f, g)
  {
    Where(rows, RankP(f))
  }

  /** `df.loc[df[col].between(lo, hi, inclusive='both')]`. */
  function RangeFiltered(rows: seq<Genome>, f: FilterSpec): (r: seq<Genome>)
    ensures forall g :: g in r <==> g in rows && RangeAdmits(f, g)
  {
    Where(rows, RangeP(f))
  }

  /** Before any range filter, the view is the taxonomic selection, which is the
      whole table unless the filter has a non-empty value list. */
  lemma FilteredStart(base: seq<Genome>, fs: map<string, FilterSpec>, order: seq<string>)
    requires TaxonomicRanks in fs
    requires forall i :: 0 <= i < |order| ==> order[i] in fs
    ensures Where(base, AdmitsUpToP(fs, order, 0)) == RankFiltered(base, fs[TaxonomicRanks])
    ensures var f := fs[TaxonomicRanks];
      !(f.RankFilter? && f.values.Some? && f.values.value != []) ==> RankFiltered(base, f) == base
  {
    var f := fs[TaxonomicRanks];
    WhereCongruent(base, AdmitsUpToP(fs, order, 0), RankP(f));
    if !(f.RankFilter? && f.values.Some? && f.values.value != []) {
      WhereAll(base, RankP(f));
    }
  }

  /** One more entry of the insertion order narrows the view by that entry's range,
      and leaves it as it is when the entry is not a checked range filter. */
  lemma FilteredStep(base: seq<Genome>, fs: map<string, FilterSpec>, order: seq<string>, n: nat)
    requires TaxonomicRanks in fs && n < |order|
    requires forall i :: 0 <= i < |order| ==> order[i] in fs
    ensures Where(base, AdmitsUpToP(fs, order, n + 1)) == RangeFiltered(Where(base, AdmitsUpToP(fs, order, n)), fs[order[n]])
    ensures var f := fs[order[n]];
      !(f.RangeFilter? && f.checked) ==> Where(base, AdmitsUpToP(fs, order, n + 1)) == Where(base, AdmitsUpToP(fs, order, n))
  {
    var f := fs[order[n]];
    WhereWhere(base, AdmitsUpToP(fs, order, n), RangeP(f), AdmitsUpToP(fs, order, n + 1));
    if !(f.RangeFilter? && f.checked) {
      WhereCongruent(base, AdmitsUpToP(fs, order, n + 1), AdmitsUpToP(fs, order, n));
    }
  }

  /** Once the whole insertion order is applied, the view is the reference. */
  lemma FilteredEnd(base: seq<Genome>, fs: map<string, FilterSpec>, order: seq<string>)
    requires TaxonomicRanks in fs
    requires forall k :: k in fs <==> k in order
    ensures Where(base, AdmitsUpToP(fs, order, |order|)) == Filtered(base, fs)
  {
    forall g ensures AdmitsUpTo(fs, order, |order|, g) == Admits(fs, g) {
      if AdmitsUpTo(fs, order, |order|, g) {
        forall k | k in fs ensures RangeAdmits(fs[k], g) {
          var j :| 0 <= j < |order| && order[j] == k;
        }
      }
    }
    WhereCongruent(base, AdmitsUpToP(fs, order, |order|), AdmitsP(fs));
  }

  /** The outcome `apply_filter` leaves: nothing happens without a table; with one,
      the view restarts from the table and is then the reference selection, or the
      call raises when the taxonomic filter is missing. */
  predicate Applied(base: Option<seq<Genome>>, fs: map<string, FilterSpec>,
                    before: Option<seq<Genome>>, after: Option<seq<Genome>>, raised: Option<string>) {
    match base
    case None => after == before && raised.None?
    case Some(rows) =>
      if TaxonomicRanks in fs then raised.None? && after == Some(Filtered(rows, fs))
      else raised == Some(MissingRanksFilter) && after == base
  }

  // ---------------------------------------------------------------------
  // is_filter
  // ---------------------------------------------------------------------

  /** The entry under key `k` selects something: the taxonomic filter with a
      non-empty value list, or a checked range filter. */
  predicate ActiveAt(k: string, f: FilterSpec) {
    if k == TaxonomicRanks then f.RankFilter? && f.values.Some? && f.values.value != []
    else f.RangeFilter? && f.checked
  }

  /** Reading the entry under `k` raises: the taxonomic filter without 'values'. */
  predicate RaisesAt(k: string, f: FilterSpec) {
    k == TaxonomicRanks && f.RankFilter? && f.values.None?
  }

  /** `is_filter()` over the entries in insertion order: the first active entry
      answers true, a taxonomic filter without values raises first, and running
      off the end answers false (`None`). */
  function IsFilterIn(fs: map<string, FilterSpec>, order: seq<string>): Result<bool, string>
    requires forall i :: 0 <= i < |order| ==> order[i] in fs
  {
    if order == [] then Ok(false)
    else
      var k := order[0];
      if RaisesAt(k, fs[k]) then Err(MissingValues)
      else if ActiveAt(k, fs[k]) then Ok(true)
      else IsFilterIn(fs, order[1..])
  }

  /** `is_filter` answers false exactly when no entry is active or raises; true only
      when some entry is active; it raises only over a taxonomic filter without
      values; and when nothing can raise it answers true exactly when some entry is
      active. */
  lemma IsFilterInMeaning(fs: map<string, FilterSpec>, order: seq<string>)
    requires forall i :: 0 <= i < |order| ==> order[i] in fs
    ensures IsFilterIn(fs, order) == Ok(false) <==>
      forall i :: 0 <= i < |order| ==> !ActiveAt(order[i], fs[order[i]]) && !RaisesAt(order[i], fs[order[i]])
    ensures IsFilterIn(fs, order) == Ok(true) ==> exists i :: 0 <= i < |order| && ActiveAt(order[i], fs[order[i]])
    ensures IsFilterIn(fs, order).Err? ==> exists i :: 0 <= i < |order| && RaisesAt(order[i], fs[order[i]])
    ensures (forall i :: 0 <= i < |order| ==> !RaisesAt(order[i], fs[order[i]])) ==>
      (IsFilterIn(fs, order) == Ok(true) <==> exists i :: 0 <= i < |order| && ActiveAt(order[i], fs[order[i]]))
  {
    IsFilterInFalse(fs, order);
    IsFilterInTrue(fs, order);
    IsFilterInErr(fs, order);
  }

  lemma {:induction false} IsFilterInFalse(fs: map<string, FilterSpec>, order: seq<string>)
    requires forall i :: 0 <= i < |order| ==> order[i] in fs
    ensures IsFilterIn(fs, order) == Ok(false) <==>
      forall i :: 0 <= i < |order| ==> !ActiveAt(order[i], fs[order[i]]) && !RaisesAt(order[i], fs[order[i]])
  {
    if order != [] {
      var rest := order[1..];
      IsFilterInFalse(fs, rest);
      assert forall i :: 0 < i < |order| ==> order[i] == rest[i - 1];
    }
  }

  lemma {:induction false} IsFilterInTrue(fs: map<string, FilterSpec>, order: seq<string>)
    requires forall i :: 0 <= i < |order| ==> order[i] in fs
    ensures IsFilterIn(fs, order) == Ok(true) ==> exists i :: 0 <= i < |order| && ActiveAt(order[i], fs[order[i]])
  {
    if order != [] {
      var rest := order[1..];
      IsFilterInTrue(fs, rest);
      if IsFilterIn(fs, order) == Ok(true) && !ActiveAt(order[0], fs[order[0]]) {
        var i :| 0 <= i < |rest| && ActiveAt(rest[i], fs[rest[i]]);
        assert order[i + 1] == rest[i];
      }
    }
  }

  lemma {:induction false} IsFilterInErr(fs: map<string, FilterSpec>, order: seq<string>)
    requires forall i :: 0 <= i < |order| ==> order[i] in fs
    ensures IsFilterIn(fs, order).Err? ==> exists i :: 0 <= i < |order| && RaisesAt(order[i], fs[order[i]])
  {
    if order != [] {
      var rest := order[1..];
      IsFilterInErr(fs, rest);
      if IsFilterIn(fs, order).Err? && !RaisesAt(order[0], fs[order[0]]) {
        var i :| 0 <= i < |rest| && RaisesAt(rest[i], fs[rest[i]]);
        assert order[i + 1] == rest[i];
      }
    }
  }

  /** With no active filter (so `is_filter` answers false) the view is the whole table. */
  lemma NoActiveFilterIsIdentity(base: seq<Genome>, fs: map<string, FilterSpec>)
    requires TaxonomicRanks in fs && fs[TaxonomicRanks].RankFilter?
    requires forall k :: k in fs ==> !ActiveAt(k, fs[k])
    ensures Filtered(base, fs) == base
  {
    forall g ensures Admits(fs, g) {
      forall k | k in fs ensures RangeAdmits(fs[k], g) {
        assert !ActiveAt(k, fs[k]);
      }
    }
    WhereAll(base, AdmitsP(fs));
  }

  // ---------------------------------------------------------------------
  // Menus
  // ---------------------------------------------------------------------

  function Column(rows: seq<Genome>, c: RankColumn): (r: seq<string>)
    ensures |r| == |rows|
    ensures forall i :: 0 <= i < |rows| ==> r[i] == RankValue(rows[i], c)
  {
    if rows == [] then [] else [RankValue(rows[0], c)] + Column(rows[1..], c)
  }

  /** The items of a taxonomic menu (`calc_tax_items`): the distinct non-empty cells
      of the column, strictly ascending. */
  function TaxMenu(rows: seq<Genome>, c: RankColumn): (r: seq<string>)
    ensures StrictlyAscending(r)
    ensures forall y :: y in r <==> y != "" && exists i :: 0 <= i < |rows| && RankValue(rows[i], c) == y
  {
    var col := Column(rows, c);
    assert forall y :: y in col <==> exists i :: 0 <= i < |rows| && RankValue(rows[i], c) == y by {
      forall y | y in col ensures exists i :: 0 <= i < |rows| && RankValue(rows[i], c) == y {
        var i :| 0 <= i < |col| && col[i] == y;
      }
    }
    SortedDistinct(col)
  }

  /** `get_range(df, col)`: the minimum and maximum of the column, both attained;
      `None` (a pair of NaN) on an empty table. */
  function GetRange(rows: seq<Genome>, c: FeatureColumn): (r: Option<(real, real)>)
    ensures r.None? <==> rows == []
    ensures r.Some? ==> r.value.0 <= r.value.1
    ensures r.Some? ==> forall i :: 0 <= i < |rows| ==> r.value.0 <= FeatureValue(rows[i], c) <= r.value.1
    ensures r.Some? ==> exists i :: 0 <= i < |rows| && FeatureValue(rows[i], c) == r.value.0
    ensures r.Some? ==> exists i :: 0 <= i < |rows| && FeatureValue(rows[i], c) == r.value.1
  {
    if rows == [] then None
    else
      var v := FeatureValue(rows[0], c);
      match GetRange(rows[1..], c)
      case None => Some((v, v))
      case Some(range) =>
        assert forall i :: 1 <= i < |rows| ==> rows[i] == rows[1..][i - 1];
        assert forall i :: 0 <= i < |rows[1..]| ==> rows[1..][i] == rows[i + 1];
        Some((if v < range.0 then v else range.0, if v > range.1 then v else range.1))
  }

  // ---------------------------------------------------------------------
  // The engine
  // ---------------------------------------------------------------------

  class NCBIdata {
    var genomeDf: Option<seq<Genome>>
    var filteredDf: Option<seq<Genome>>
    /** The filter dictionary, and its keys in insertion order. */
    var filters: map<string, FilterSpec>
    var filterOrder: seq<string>
    var taxItems: map<RankColumn, seq<string>>
    /** The 'range' entry of each size menu. */
    var sizeRanges: map<FeatureColumn, Option<(real, real)>>

    /** The insertion order lists each key of the dictionary once, and the taxonomic
        key, only it, holds a taxonomic filter. */
    ghost predicate Valid()
      reads this`filters, this`filterOrder
    {
      NoDuplicates(filterOrder)
      && (forall k :: k in filters <==> k in filterOrder)
      && (forall k :: k in filters ==> (k == TaxonomicRanks <==> filters[k].RankFilter?))
    }

    constructor ()
      ensures Valid()
      ensures genomeDf.None? && filteredDf.None?
      ensures filters == map[] && filterOrder == [] && taxItems == map[] && sizeRanges == map[]
    {
      genomeDf := None;
      filteredDf := None;
      filters := map[];
      filterOrder := [];
      taxItems := map[];
      sizeRanges := map[];
    }

    /** `is_filter()`. */
    ghost function IsFilter(): (r: Result<bool, string>)
      reads this`filters, this`filterOrder
      requires Valid()
    {
      IsFilterIn(filters, filterOrder)
    }

    /** `apply_filter()`: restart the view from the table, apply the taxonomic
        selection, then narrow by each checked range filter in insertion order. Only
        the view changes. */
    method ApplyFilter() returns (raised: Option<string>)
      requires Valid()
      modifies this`filteredDf
      ensures Applied(genomeDf, filters, old(filteredDf), filteredDf, raised)
    {
      raised := None;
      if genomeDf.None? {
        return;
      }
      var base := genomeDf.value;
      filteredDf := genomeDf;
      if TaxonomicRanks !in filters {
        raised := Some(MissingRanksFilter);
        return;
      }
      var tax := filters[TaxonomicRanks];
      FilteredStart(base, filters, filterOrder);
      if tax.RankFilter? && tax.values.Some? {
        if tax.values.value != [] {
          filteredDf := Some(RankFiltered(base, tax));
        }
      }
      NarrowByRanges(base);
    }

    /** The loop of `apply_filter`: each checked range filter, in insertion order,
        narrows the view. */
    method NarrowByRanges(base: seq<Genome>)
      requires Valid() && TaxonomicRanks in filters
      requires filteredDf == Some(Where(base, AdmitsUpToP(filters, filterOrder, 0)))
      modifies this`filteredDf
      ensures filteredDf == Some(Filtered(base, filters))
    {
      for i := 0 to |filterOrder|
        invariant filteredDf == Some(Where(base, AdmitsUpToP(filters, filterOrder, i)))
      {
        var f := filters[filterOrder[i]];
        FilteredStep(base, filters, filterOrder, i);
        if f.RangeFilter? && f.checked {
          filteredDf := Some(RangeFiltered(filteredDf.value, f));
        }
      }
      FilteredEnd(base, filters, filterOrder);
    }

    /** `setFilter(key, value)`: replace the one entry, keeping its place in the
        insertion order (new keys go last), then re-apply the filters. */
    method SetFilter(key: string, spec: FilterSpec) returns (raised: Option<string>)
      requires Valid()
      requires key == TaxonomicRanks <==> spec.RankFilter?
      modifies this`filters, this`filterOrder, this`filteredDf
      ensures Valid()
      ensures filters == old(filters)[key := spec]
      ensures filterOrder == if key in old(filters) then old(filterOrder) else old(filterOrder) + [key]
      ensures Applied(genomeDf, filters, old(filteredDf), filteredDf, raised)
    {
      if key !in filters {
        filterOrder := filterOrder + [key];
      }
      filters := filters[key := spec];
      raised := ApplyFilter();
    }

    /** `calc_tax_items()`: one menu per rank column of the table. */
    method CalcTaxItems()
      requires genomeDf.Some?
      modifies this`taxItems
      ensures forall c: RankColumn :: c in taxItems && taxItems[c] == TaxMenu(genomeDf.value, c)
    {
      var rows := genomeDf.value;
      for i := 0 to |RankColumns|
        invariant forall c: RankColumn :: RankColumnIndex(c) < i ==> c in taxItems && taxItems[c] == TaxMenu(rows, c)
      {
        var c := RankColumns[i];
        taxItems := taxItems[c := TaxMenu(rows, c)];
      }
    }

    /** `calc_range_for_size_menus()`: the range of every numeric column. */
    method CalcRangeForSizeMenus()
      requires genomeDf.Some?
      modifies this`sizeRanges
      ensures forall c: FeatureColumn :: c in sizeRanges && sizeRanges[c] == GetRange(genomeDf.value, c)
    {
      var rows := genomeDf.value;
      for i := 0 to |FeatureColumns|
        invariant forall j :: 0 <= j < i ==> FeatureColumns[j] in sizeRanges && sizeRanges[FeatureColumns[j]] == GetRange(rows, FeatureColumns[j])
      {
        sizeRanges := sizeRanges[FeatureColumns[i] := GetRange(rows, FeatureColumns[i])];
      }
      forall c: FeatureColumn ensures c in sizeRanges && sizeRanges[c] == GetRange(rows, c) {
        assert c == FeatureColumns[FeatureColumnIndex(c)];
      }
    }

    /** `save_to_cache(overwrite)`: write the table to the day's file only when the
        file is absent or overwriting is asked for. */
    method SaveToCache(store: FileStore, today: Day, overwrite: bool)
      requires genomeDf.Some?
      modifies store
      ensures store.files == if CacheFilename(today) !in old(store.files) || overwrite
                             then old(store.files)[CacheFilename(today) := genomeDf.value]
                             else old(store.files)
    {
      var path := CacheFilename(today);
      if path !in store.files || (path in store.files && overwrite) {
        store.Write(path, genomeDf.value);
      }
    }

    /** `load_from_cache()`: the day's table when its file exists. */
    method LoadFromCache(store: FileStore, today: Day) returns (r: Option<seq<Genome>>)
      ensures r.Some? <==> CacheFilename(today) in store.files
      ensures r.Some? ==> r.value == store.files[CacheFilename(today)]
    {
      var path := CacheFilename(today);
      if path in store.files {
        r := Some(store.files[path]);
      } else {
        r := None;
      }
    }

    /** `load()`: the cached table, or on a miss the table built from the fetched
        report, which is then saved; then the menus and ranges are computed. It
        fetches exactly on a cache miss. The file name is computed from the clock
        twice: `lookupDay` is the date when the cache is read, `saveDay` the date
        when the fetched table is saved. */
    method Load(store: FileStore, lookupDay: Day, saveDay: Day, svc: Service, parse: Parse, report: seq<RawRow>)
      returns (table: seq<Genome>, fetched: bool)
      modifies this`genomeDf, this`taxItems, this`sizeRanges, store
      ensures fetched <==> CacheFilename(lookupDay) !in old(store.files)
      ensures table == LoadResult(old(store.files), lookupDay, Collect(svc, parse, report))
      ensures store.files == FilesAfterLoadAt(old(store.files), lookupDay, saveDay, Collect(svc, parse, report))
      ensures genomeDf == Some(table)
      ensures forall c: RankColumn :: c in taxItems && taxItems[c] == TaxMenu(table, c)
      ensures forall c: FeatureColumn :: c in sizeRanges && sizeRanges[c] == GetRange(table, c)
    {
      var cached := LoadFromCache(store, lookupDay);
      genomeDf := cached;
      if cached.None? {
        var built := LoadFromNcbi(svc, parse, report);
        genomeDf := Some(built);
        SaveToCache(store, saveDay, false);
        fetched := true;
      } else {
        fetched := false;
      }
      CalcTaxItems();
      CalcRangeForSizeMenus();
      table := genomeDf.value;
    }

    /** Two loads on the same day, the first of which also saves that day: the
        second finds the file the first left, does not fetch, and returns the same
        table. */
    method LoadTwice(store: FileStore, today: Day, later: Day, svc: Service, parse: Parse, report: seq<RawRow>)
      returns (first: seq<Genome>, second: seq<Genome>, fetchedAgain: bool)
      modifies this`genomeDf, this`taxItems, this`sizeRanges, store
      ensures !fetchedAgain && second == first
      ensures CacheFilename(today) in store.files && store.files[CacheFilename(today)] == first
    {
      var fetched;
      first, fetched := Load(store, today, today, svc, parse, report);
      SameDayLoad(old(store.files), today, Collect(svc, parse, report));
      second, fetchedAgain := Load(store, today, later, svc, parse, report);
    }
  }

  /** The position of a rank column in `tax_item_texts`. */
  function RankColumnIndex(c: RankColumn): (i: nat)
    ensures i < |RankColumns| && RankColumns[i] == c
  {
    match c
    case TaxIdColumn => 0
    case Superkingdom => 1
    case Phylum => 2
    case Class => 3
    case Order => 4
    case Family => 5
    case Genus => 6
    case Species => 7
  }

  /** The position of a numeric column among the size menus. */
  function FeatureColumnIndex(c: FeatureColumn): (i: nat)
    ensures i < |FeatureColumns| && FeatureColumns[i] == c
  {
    match c
    case GenomeSize => 0
    case GcPercent => 1
    case Chromosomes => 2
    case Plasmids => 3
    case GeneCount => 4
    case ProteinCount => 5
  }
}
