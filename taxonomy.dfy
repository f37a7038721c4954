/** Lineage assembly: `get_desired_ranks` builds one lineage list per TaxID from the
    taxonomy database, and `taxID_lineage_df` builds the lineage table and counts
    the ids whose lookup failed. The database is a set of partial functions. */
module Taxonomy {
  import opened Common

  /** The marker written for a rank the lineage does not have. */
  const NotPresent: string := "<not present>"

  /** The taxonomy database (ete3's `NCBITaxa`): each call either answers or
      raises (`None`).
      - `getLineage`: the ids on the path from the root to the TaxID.
      - `getRank`: the `{id: rank}` dictionary of those ids, as its items in
        dictionary order.
      - `translate`: the scientific name of one id. */
  datatype Service = Service(
    getLineage: string -> Option<seq<int>>,
    getRank: seq<int> -> Option<seq<(int, string)>>,
    translate: int -> Option<string>)

  /** `ranks2lineage.get(rank)`: the dictionary built from the items maps each rank
      to the LAST id that carries it. */
  function RankIndex(items: seq<(int, string)>, rank: string): Option<int>
    decreases |items|
  {
    if items == [] then None
    else
      var last := items[|items| - 1];
      if last.1 == rank then Some(last.0) else RankIndex(items[..|items| - 1], rank)
  }

  /** The rank dictionary misses exactly the ranks no lineage id carries, and
      otherwise maps the rank to an id carrying it with no later id carrying it. */
  lemma RankIndexIsLast(items: seq<(int, string)>, rank: string)
    ensures RankIndex(items, rank).None? <==> forall k :: 0 <= k < |items| ==> items[k].1 != rank
    ensures RankIndex(items, rank).Some? ==>
      exists k :: 0 <= k < |items| && items[k] == (RankIndex(items, rank).value, rank)
                  && forall j :: k < j < |items| ==> items[j].1 != rank
  {
    RankIndexMissing(items, rank);
    if RankIndex(items, rank).Some? {
      var k := RankIndexFound(items, rank);
    }
  }

  lemma {:induction false} RankIndexMissing(items: seq<(int, string)>, rank: string)
    ensures RankIndex(items, rank).None? <==> forall k :: 0 <= k < |items| ==> items[k].1 != rank
    decreases |items|
  {
    if items != [] {
      var n := |items| - 1;
      var p := items[..n];
      if items[n].1 != rank {
        RankIndexMissing(p, rank);
        assert forall k :: 0 <= k < n ==> items[k] == p[k];
      }
    }
  }

  /** The position of the id the rank dictionary keeps: the last carrying the rank. */
  lemma {:induction false} RankIndexFound(items: seq<(int, string)>, rank: string) returns (k: nat)
    requires RankIndex(items, rank).Some?
    ensures k < |items| && items[k] == (RankIndex(items, rank).value, rank)
    ensures forall j :: k < j < |items| ==> items[j].1 != rank
    decreases |items|
  {
    var n := |items| - 1;
    if items[n].1 == rank {
      k := n;
    } else {
      var p := items[..n];
      k := RankIndexFound(p, rank);
      assert items[k] == p[k];
      forall j | k < j < |items| ensures items[j].1 != rank {
        if j < n {
          assert items[j] == p[j];
        }
      }
    }
  }

  /** What one `rank_dict` entry adds to the lineage list: the marker when the rank
      is missing, the name when it translates, nothing when the translation raises. */
  function Entry(svc: Service, items: seq<(int, string)>, rank: string): seq<string> {
    match RankIndex(items, rank)
    case None => [NotPresent]
    case Some(id) => (match svc.translate(id) case None => [] case Some(n) => [n])
  }

  /** The entries for the keys of `rank_dict`, in order. */
  function Names(svc: Service, items: seq<(int, string)>, keys: seq<string>): seq<string>
    decreases |keys|
  {
    if keys == [] then []
    else Names(svc, items, keys[..|keys| - 1]) + Entry(svc, items, keys[|keys| - 1])
  }

  /** The lineage or rank lookup raises for this TaxID. */
  predicate LookupFails(svc: Service, taxid: string) {
    svc.getLineage(taxid).None? || svc.getRank(svc.getLineage(taxid).value).None?
  }

  /** The items of the rank dictionary of a TaxID whose lookup succeeds. */
  function RankItems(svc: Service, taxid: string): seq<(int, string)>
    requires !LookupFails(svc, taxid)
  {
    svc.getRank(svc.getLineage(taxid).value).value
  }

  /** `get_desired_ranks(taxid, ranks)`: the lineage list and the miss flag. The
      dictionary comprehension keeps one key per distinct rank, in first-occurrence order. */
  function DesiredRanksOf(svc: Service, taxid: string, ranks: seq<string>): (r: (seq<string>, nat))
    ensures |r.0| >= 1 && r.0[0] == taxid
    ensures r.1 == (if LookupFails(svc, taxid) then 1 else 0)
    ensures LookupFails(svc, taxid) ==> r.0 == [taxid]
  {
    if LookupFails(svc, taxid) then ([taxid], 1)
    else ([taxid] + Names(svc, RankItems(svc, taxid), Distinct(ranks)), 0)
  }

  /** Imperative `get_desired_ranks`: start from `[taxid]`, stop with the miss flag
      set if a lookup raises, else append one entry per key of `rank_dict`. */
  method GetDesiredRanks(svc: Service, taxid: string, ranks: seq<string>) returns (lineage: seq<string>, count: nat)
    ensures (lineage, count) == DesiredRanksOf(svc, taxid, ranks)
  {
    count := 0;
    lineage := [taxid];
    var path := svc.getLineage(taxid);
    if path.None? {
      count := 1;
      return;
    }
    var items := svc.getRank(path.value);
    if items.None? {
      count := 1;
      return;
    }
    lineage := AppendEntries(svc, items.value, Distinct(ranks), lineage);
  }

  /** The loop of `get_desired_ranks` over the keys of `rank_dict`: appends the
      entry of each key, in order, to the lineage list. */
  method AppendEntries(svc: Service, items: seq<(int, string)>, keys: seq<string>, start: seq<string>)
    returns (lineage: seq<string>)
    ensures lineage == start + Names(svc, items, keys)
  {
    lineage := start;
    var i := 0;
    while i < |keys|
      invariant 0 <= i <= |keys|
      invariant lineage == start + Names(svc, items, keys[..i])
    {
      NamesSnoc(svc, items, keys, i);
      ghost var prefix := Names(svc, items, keys[..i]);
      var v := RankIndex(items, keys[i]);
      if v.Some? {
        var name := svc.translate(v.value);
        if name.Some? {
          assert Entry(svc, items, keys[i]) == [name.value];
          assert (start + prefix) + [name.value] == start + (prefix + [name.value]);
          lineage := lineage + [name.value];
        } else {
          assert Entry(svc, items, keys[i]) == [];
          assert prefix + [] == prefix;
        }
      } else {
        assert Entry(svc, items, keys[i]) == [NotPresent];
        assert (start + prefix) + [NotPresent] == start + (prefix + [NotPresent]);
        lineage := lineage + [NotPresent];
      }
      i := i + 1;
    }
    assert keys[..i] == keys;
  }

  lemma NamesSnoc(svc: Service, items: seq<(int, string)>, keys: seq<string>, i: nat)
    requires i < |keys|
    ensures Names(svc, items, keys[..i + 1]) == Names(svc, items, keys[..i]) + Entry(svc, items, keys[i])
  {
    assert keys[..i + 1][..i] == keys[..i];
  }

  /** With every translation succeeding, there is exactly one entry per key: the
      marker where the rank is missing from the lineage, the translated name elsewhere. */
  lemma {:induction false} NamesWhenTranslated(svc: Service, items: seq<(int, string)>, keys: seq<string>)
    requires forall id :: svc.translate(id).Some?
    ensures |Names(svc, items, keys)| == |keys|
    ensures forall i :: 0 <= i < |keys| && RankIndex(items, keys[i]).None? ==> Names(svc, items, keys)[i] == NotPresent
    ensures forall i :: 0 <= i < |keys| && RankIndex(items, keys[i]).Some? ==>
      Some(Names(svc, items, keys)[i]) == svc.translate(RankIndex(items, keys[i]).value)
    decreases |keys|
  {
    if keys != [] {
      NamesWhenTranslated(svc, items, keys[..|keys| - 1]);
    }
  }

  /** A failed translation drops the entry: the list is shorter than the key list by
      exactly the number of keys whose translation raises. */
  lemma {:induction false} NamesLength(svc: Service, items: seq<(int, string)>, keys: seq<string>)
    ensures |Names(svc, items, keys)| ==
      |keys| - |Where(keys, k => RankIndex(items, k).Some? && svc.translate(RankIndex(items, k).value).None?)|
    decreases |keys|
  {
    var dropped := k => RankIndex(items, k).Some? && svc.translate(RankIndex(items, k).value).None?;
    if keys != [] {
      var init := keys[..|keys| - 1];
      var last := keys[|keys| - 1];
      NamesLength(svc, items, init);
      assert keys == init + [last];
      WhereAppend(init, [last], dropped);
    }
  }

  /** The lineage list of a TaxID whose lookup succeeds and whose names all translate,
      for distinct desired ranks: 1 + |ranks| entries in desired-rank order, the
      marker exactly where the rank is missing. */
  lemma DesiredRanksComplete(svc: Service, taxid: string, ranks: seq<string>)
    requires !LookupFails(svc, taxid) && NoDuplicates(ranks)
    requires forall id :: svc.translate(id).Some?
    ensures |DesiredRanksOf(svc, taxid, ranks).0| == 1 + |ranks|
    ensures forall i :: 0 <= i < |ranks| && RankIndex(RankItems(svc, taxid), ranks[i]).None? ==>
      DesiredRanksOf(svc, taxid, ranks).0[i + 1] == NotPresent
    ensures forall i :: 0 <= i < |ranks| && RankIndex(RankItems(svc, taxid), ranks[i]).Some? ==>
      Some(DesiredRanksOf(svc, taxid, ranks).0[i + 1]) == svc.translate(RankIndex(RankItems(svc, taxid), ranks[i]).value)
  {
    DistinctOfDistinct(ranks);
    NamesWhenTranslated(svc, RankItems(svc, taxid), ranks);
  }

  /** The desired ranks handed to `taxID_lineage_df`: a list the function changes in place. */
  class RankList {
    var items: seq<string>

    constructor (initial: seq<string>)
      ensures items == initial
    {
      items := initial;
    }

    /** `list.insert(0, x)`. */
    method InsertFront(x: string)
      modifies this
      ensures items == [x] + old(items)
    {
      items := [x] + items;
    }
  }

  /** The lineage lists of a sequence of TaxIDs, in order. */
  function LineageRows(svc: Service, taxids: seq<string>, ranks: seq<string>): (r: seq<seq<string>>)
    ensures |r| == |taxids|
    ensures forall i :: 0 <= i < |taxids| ==> r[i] == DesiredRanksOf(svc, taxids[i], ranks).0
    decreases |taxids|
  {
    if taxids == [] then []
    else LineageRows(svc, taxids[..|taxids| - 1], ranks) + [DesiredRanksOf(svc, taxids[|taxids| - 1], ranks).0]
  }

  /** `missed_taxID`: the miss flags, summed. */
  function MissCount(svc: Service, taxids: seq<string>, ranks: seq<string>): nat
    decreases |taxids|
  {
    if taxids == [] then 0
    else MissCount(svc, taxids[..|taxids| - 1], ranks) + DesiredRanksOf(svc, taxids[|taxids| - 1], ranks).1
  }

  /** The miss counter is the number of TaxIDs whose lookup raised, hence at most
      the number of TaxIDs. */
  lemma {:induction false} MissCountIsFailures(svc: Service, taxids: seq<string>, ranks: seq<string>)
    ensures MissCount(svc, taxids, ranks) == |Where(taxids, id => LookupFails(svc, id))|
    ensures MissCount(svc, taxids, ranks) <= |taxids|
    decreases |taxids|
  {
    if taxids != [] {
      var init := taxids[..|taxids| - 1];
      var last := taxids[|taxids| - 1];
      MissCountIsFailures(svc, init, ranks);
      assert taxids == init + [last];
      WhereAppend(init, [last], id => LookupFails(svc, id));
    }
  }

  /** `taxID_lineage_df`: one lineage list per TaxID (the rows of the lineage table,
      whose 'TaxID' column is each list's first entry) and the miss counter; the
      caller's rank list gets 'TaxID' inserted at its front. */
  method TaxIdLineageDf(svc: Service, taxids: seq<string>, ranks: RankList) returns (table: seq<seq<string>>, missed: nat)
    modifies ranks
    ensures ranks.items == ["TaxID"] + old(ranks.items)
    ensures table == LineageRows(svc, taxids, old(ranks.items))
    ensures missed == MissCount(svc, taxids, old(ranks.items))
  {
    missed := 0;
    table := [];
    var i := 0;
    while i < |taxids|
      invariant 0 <= i <= |taxids|
      invariant ranks.items == old(ranks.items)
      invariant table == LineageRows(svc, taxids[..i], ranks.items)
      invariant missed == MissCount(svc, taxids[..i], ranks.items)
    {
      assert taxids[..i + 1][..i] == taxids[..i];
      var lineage, count := GetDesiredRanks(svc, taxids[i], ranks.items);
      table := table + [lineage];
      if count == 1 {
        missed := missed + 1;
      }
      i := i + 1;
    }
    assert taxids[..i] == taxids;
    ranks.InsertFront("TaxID");
  }
}
