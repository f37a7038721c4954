/** `count_tableMaker_groupby`: the number of genomes in each taxonomic group at a
    chosen rank (the lineage prefix from superkingdom down to that rank), as a table
    sorted by count, largest first. */
module GroupCounts {
  import opened Common
  import opened Genomes

  /** One row of the count table: the group's rank names and its genome count. */
  datatype GroupCount = GroupCount(key: seq<string>, count: nat)

  /** The number of leading rank columns grouped on for each accepted rank name;
      any other name leaves the group-by list unbound (`None`). */
  function GroupDepth(rank: string): (r: Option<nat>)
    ensures r.Some? <==> rank in ["Phylum", "Class", "Order", "Family", "Genus", "Species"]
    ensures r.Some? ==> 2 <= r.value <= 7
  {
    if rank == "Phylum" then Some(2)
    else if rank == "Class" then Some(3)
    else if rank == "Order" then Some(4)
    else if rank == "Family" then Some(5)
    else if rank == "Genus" then Some(6)
    else if rank == "Species" then Some(7)
    else None
  }

  /** The group of a genome: its first `depth` rank names. */
  function Key(g: Genome, depth: nat): seq<string>
    requires depth <= 7
  {
    g.lineage[..depth]
  }

  function Keys(rows: seq<Genome>, depth: nat): (r: seq<seq<string>>)
    requires depth <= 7
    ensures |r| == |rows|
    ensures forall i :: 0 <= i < |rows| ==> r[i] == Key(rows[i], depth)
  {
    if rows == [] then [] else [Key(rows[0], depth)] + Keys(rows[1..], depth)
  }

  predicate DistinctKeys(t: seq<GroupCount>) {
    forall i, j :: 0 <= i < j < |t| ==> t[i].key != t[j].key
  }

  /** The sum of the Count column. */
  function Sum(t: seq<GroupCount>): nat {
    if t == [] then 0 else t[0].count + Sum(t[1..])
  }

  /** The position of the row for `k`, if the table has one. */
  function FindKey(t: seq<GroupCount>, k: seq<string>): (r: Option<nat>)
    ensures r.Some? ==> r.value < |t| && t[r.value].key == k
    ensures r.None? ==> forall i :: 0 <= i < |t| ==> t[i].key != k
  {
    if t == [] then None
    else if t[0].key == k then Some(0)
    else match FindKey(t[1..], k) case None => None case Some(i) => Some(i + 1)
  }

  /** One more genome in group `k`. */
  function Bump(t: seq<GroupCount>, k: seq<string>): seq<GroupCount> {
    match FindKey(t, k)
    case Some(i) => t[i := GroupCount(k, t[i].count + 1)]
    case None => t + [GroupCount(k, 1)]
  }

  /** `groupby(...).size()`: one row per distinct key, each with its multiplicity. */
  function Tally(keys: seq<seq<string>>): seq<GroupCount>
    decreases |keys|
  {
    if keys == [] then [] else Bump(Tally(keys[..|keys| - 1]), keys[|keys| - 1])
  }

  /** `t` is a count table of `keys`: one row per distinct key, with its multiplicity. */
  predicate CountsOf(t: seq<GroupCount>, keys: seq<seq<string>>) {
    DistinctKeys(t)
    && (forall i :: 0 <= i < |t| ==> t[i].key in multiset(keys) && t[i].count == multiset(keys)[t[i].key])
    && (forall k :: k in keys ==> FindKey(t, k).Some?)
  }

  lemma {:induction false} SumAppend(t: seq<GroupCount>, x: GroupCount)
    ensures Sum(t + [x]) == Sum(t) + x.count
  {
    if t != [] {
      assert (t + [x])[1..] == t[1..] + [x];
      SumAppend(t[1..], x);
    }
  }

  lemma {:induction false} SumUpdate(t: seq<GroupCount>, i: nat, x: GroupCount)
    requires i < |t|
    ensures Sum(t[i := x]) + t[i].count == Sum(t) + x.count
  {
    if i > 0 {
      assert t[i := x][1..] == t[1..][i - 1 := x];
      SumUpdate(t[1..], i - 1, x);
    }
  }

  /** A row with key `x` at `j` means the search finds one. */
  lemma FindKeyFinds(t: seq<GroupCount>, x: seq<string>, j: nat)
    requires j < |t| && t[j].key == x
    ensures FindKey(t, x).Some?
  {
  }

  /** Bumping a key that has a row adds one to that row's Count. */
  lemma BumpExisting(t: seq<GroupCount>, keys: seq<seq<string>>, k: seq<string>, i: nat)
    requires CountsOf(t, keys) && Sum(t) == |keys|
    requires i < |t| && t[i].key == k
    ensures CountsOf(t[i := GroupCount(k, t[i].count + 1)], keys + [k])
    ensures Sum(t[i := GroupCount(k, t[i].count + 1)]) == |keys| + 1
  {
    var t' := t[i := GroupCount(k, t[i].count + 1)];
    var keys' := keys + [k];
    assert multiset(keys') == multiset(keys) + multiset{k};
    SumUpdate(t, i, GroupCount(k, t[i].count + 1));
    forall j | 0 <= j < |t'| ensures t'[j].key in multiset(keys') && t'[j].count == multiset(keys')[t'[j].key] {
      if j != i {
        assert t[j].key != k;
      }
    }
    forall x | x in keys' ensures FindKey(t', x).Some? {
      if x == k {
        FindKeyFinds(t', x, i);
      } else {
        assert x in keys;
        FindKeyFinds(t', x, FindKey(t, x).value);
      }
    }
  }

  /** Bumping a key without a row appends a row with Count 1. */
  lemma BumpNew(t: seq<GroupCount>, keys: seq<seq<string>>, k: seq<string>)
    requires CountsOf(t, keys) && Sum(t) == |keys|
    requires forall j :: 0 <= j < |t| ==> t[j].key != k
    ensures CountsOf(t + [GroupCount(k, 1)], keys + [k])
    ensures Sum(t + [GroupCount(k, 1)]) == |keys| + 1
  {
    var t' := t + [GroupCount(k, 1)];
    var keys' := keys + [k];
    assert multiset(keys') == multiset(keys) + multiset{k};
    SumAppend(t, GroupCount(k, 1));
    assert k !in keys;
    forall j | 0 <= j < |t'| ensures t'[j].key in multiset(keys') && t'[j].count == multiset(keys')[t'[j].key] {
      if j < |t| {
        assert t'[j] == t[j];
      }
    }
    forall x | x in keys' ensures FindKey(t', x).Some? {
      if x == k {
        FindKeyFinds(t', x, |t|);
      } else {
        assert x in keys;
        FindKeyFinds(t', x, FindKey(t, x).value);
      }
    }
  }

  /** Bumping a key keeps the table a count table of the keys with one more key. */
  lemma BumpCounts(t: seq<GroupCount>, keys: seq<seq<string>>, k: seq<string>)
    requires CountsOf(t, keys) && Sum(t) == |keys|
    ensures CountsOf(Bump(t, k), keys + [k]) && Sum(Bump(t, k)) == |keys| + 1
  {
    match FindKey(t, k)
    case Some(i) => BumpExisting(t, keys, k, i);
    case None => BumpNew(t, keys, k);
  }

  /** The tally is a count table of the keys whose Counts sum to the number of keys. */
  lemma {:induction false} TallyCounts(keys: seq<seq<string>>)
    ensures CountsOf(Tally(keys), keys)
    ensures Sum(Tally(keys)) == |keys|
    decreases |keys|
  {
    if keys != [] {
      var init := keys[..|keys| - 1];
      TallyCounts(init);
      BumpCounts(Tally(init), init, keys[|keys| - 1]);
      assert init + [keys[|keys| - 1]] == keys;
    }
  }

  predicate NonIncreasing(t: seq<GroupCount>) {
    forall i, j :: 0 <= i < j < |t| ==> t[i].count >= t[j].count
  }

  /** Places a row before the first row with a smaller Count. */
  function InsertDesc(x: GroupCount, s: seq<GroupCount>): seq<GroupCount> {
    if s == [] || s[0].count <= x.count then [x] + s else [s[0]] + InsertDesc(x, s[1..])
  }

  /** `sort_values(by='Count', ascending=False)`. */
  function SortDesc(t: seq<GroupCount>): seq<GroupCount> {
    if t == [] then [] else InsertDesc(t[0], SortDesc(t[1..]))
  }

  lemma {:induction false} InsertDescPerm(x: GroupCount, s: seq<GroupCount>)
    ensures multiset(InsertDesc(x, s)) == multiset(s) + multiset{x}
  {
    if s != [] && s[0].count > x.count {
      InsertDescPerm(x, s[1..]);
      assert s == [s[0]] + s[1..];
    }
  }

  lemma {:induction false} InsertDescSum(x: GroupCount, s: seq<GroupCount>)
    ensures Sum(InsertDesc(x, s)) == Sum(s) + x.count
  {
    if s != [] && s[0].count > x.count {
      InsertDescSum(x, s[1..]);
      assert InsertDesc(x, s)[1..] == InsertDesc(x, s[1..]);
    }
  }

  /** A row no smaller than any row of a non-increasing table can head it. */
  lemma ConsNonIncreasing(a: GroupCount, r: seq<GroupCount>)
    requires NonIncreasing(r) && forall j :: 0 <= j < |r| ==> a.count >= r[j].count
    ensures NonIncreasing([a] + r)
  {
    var t := [a] + r;
    forall i, j | 0 <= i < j < |t| ensures t[i].count >= t[j].count {
      assert t[j] == r[j - 1];
      if i > 0 {
        assert t[i] == r[i - 1];
      }
    }
  }

  lemma {:induction false} InsertDescSorted(x: GroupCount, s: seq<GroupCount>)
    requires NonIncreasing(s)
    ensures NonIncreasing(InsertDesc(x, s))
  {
    if s == [] || s[0].count <= x.count {
      forall j | 0 <= j < |s| ensures x.count >= s[j].count {
        if j > 0 {
          assert s[0].count >= s[j].count;
        }
      }
      ConsNonIncreasing(x, s);
    } else {
      var r := InsertDesc(x, s[1..]);
      InsertDescSorted(x, s[1..]);
      InsertDescPerm(x, s[1..]);
      forall j | 0 <= j < |r| ensures s[0].count >= r[j].count {
        assert r[j] in multiset(s[1..]) + multiset{x};
      }
      ConsNonIncreasing(s[0], r);
    }
  }

  lemma InsertDescProps(x: GroupCount, s: seq<GroupCount>)
    requires NonIncreasing(s)
    ensures NonIncreasing(InsertDesc(x, s))
    ensures multiset(InsertDesc(x, s)) == multiset(s) + multiset{x}
    ensures Sum(InsertDesc(x, s)) == Sum(s) + x.count
  {
    InsertDescSorted(x, s);
    InsertDescPerm(x, s);
    InsertDescSum(x, s);
  }

  /** Sorting keeps the rows and their Count sum, and orders them by Count, largest first. */
  lemma SortDescProps(t: seq<GroupCount>)
    ensures NonIncreasing(SortDesc(t))
    ensures multiset(SortDesc(t)) == multiset(t)
    ensures Sum(SortDesc(t)) == Sum(t)
  {
    SortDescSorted(t);
    SortDescPerm(t);
    SortDescSum(t);
  }

  lemma {:induction false} SortDescSorted(t: seq<GroupCount>)
    ensures NonIncreasing(SortDesc(t))
  {
    if t != [] {
      SortDescSorted(t[1..]);
      InsertDescSorted(t[0], SortDesc(t[1..]));
    }
  }

  lemma {:induction false} SortDescPerm(t: seq<GroupCount>)
    ensures multiset(SortDesc(t)) == multiset(t)
  {
    if t != [] {
      SortDescPerm(t[1..]);
      InsertDescPerm(t[0], SortDesc(t[1..]));
      assert t == [t[0]] + t[1..];
    }
  }

  lemma {:induction false} SortDescSum(t: seq<GroupCount>)
    ensures Sum(SortDesc(t)) == Sum(t)
  {
    if t != [] {
      SortDescSum(t[1..]);
      InsertDescSum(t[0], SortDesc(t[1..]));
    }
  }

  /** Rows with distinct keys stay distinct when sorted. */
  lemma {:induction false} SortDescDistinct(t: seq<GroupCount>)
    requires DistinctKeys(t)
    ensures DistinctKeys(SortDesc(t))
  {
    if t != [] {
      SortDescDistinct(t[1..]);
      SortDescProps(t[1..]);
      var s := SortDesc(t[1..]);
      forall i | 0 <= i < |s| ensures s[i].key != t[0].key {
        assert s[i] in multiset(t[1..]);
        var j :| 0 <= j < |t[1..]| && t[1..][j] == s[i];
        assert t[j + 1] == s[i];
      }
      InsertDescDistinct(t[0], s);
    }
  }

  lemma {:induction false} InsertDescDistinct(x: GroupCount, s: seq<GroupCount>)
    requires DistinctKeys(s)
    requires forall i :: 0 <= i < |s| ==> s[i].key != x.key
    ensures DistinctKeys(InsertDesc(x, s))
    ensures forall y :: y in InsertDesc(x, s) <==> y == x || y in s
  {
    if s != [] && s[0].count > x.count {
      InsertDescDistinct(x, s[1..]);
      var r := InsertDesc(x, s[1..]);
      forall j | 0 <= j < |r| ensures r[j].key != s[0].key {
        assert r[j] in r;
      }
    }
  }

  /** `count_tableMaker_groupby(Taxlank, genome_df)`: the count table at the chosen
      rank, or the error of an unknown rank name. */
  function CountTableMakerGroupby(rank: string, rows: seq<Genome>): (r: Result<seq<GroupCount>, string>)
    ensures r.Err? <==> GroupDepth(rank).None?
  {
    match GroupDepth(rank)
    case None => Err("UnboundLocalError: groupby_list")
    case Some(depth) => Ok(CountTable(rows, depth))
  }

  /** The groups of the first `depth` rank columns with their sizes, largest first. */
  function CountTable(rows: seq<Genome>, depth: nat): seq<GroupCount>
    requires depth <= 7
  {
    SortDesc(Tally(Keys(rows, depth)))
  }

  /** The number of genomes in group `k`. */
  function Members(rows: seq<Genome>, depth: nat, k: seq<string>): (r: nat)
    requires depth <= 7
    ensures r == multiset(Keys(rows, depth))[k]
  {
    if rows == [] then 0
    else
      assert Keys(rows, depth) == [Key(rows[0], depth)] + Keys(rows[1..], depth);
      (if Key(rows[0], depth) == k then 1 else 0) + Members(rows[1..], depth, k)
  }

  /** Each row of the sorted tally is a key with its multiplicity. */
  lemma SortedTallyRows(keys: seq<seq<string>>)
    ensures forall i :: 0 <= i < |SortDesc(Tally(keys))| ==>
      SortDesc(Tally(keys))[i].key in keys && SortDesc(Tally(keys))[i].count == multiset(keys)[SortDesc(Tally(keys))[i].key]
  {
    var tally := Tally(keys);
    var t := SortDesc(tally);
    TallyCounts(keys);
    SortDescProps(tally);
    forall i | 0 <= i < |t| ensures t[i].key in keys && t[i].count == multiset(keys)[t[i].key] {
      assert t[i] in multiset(tally);
      var j :| 0 <= j < |tally| && tally[j] == t[i];
    }
  }

  /** Every key has a row in the sorted tally. */
  lemma SortedTallyCovers(keys: seq<seq<string>>)
    ensures forall k :: k in keys ==> exists i :: 0 <= i < |SortDesc(Tally(keys))| && SortDesc(Tally(keys))[i].key == k
  {
    var tally := Tally(keys);
    var t := SortDesc(tally);
    TallyCounts(keys);
    SortDescProps(tally);
    forall k | k in keys ensures exists i :: 0 <= i < |t| && t[i].key == k {
      var j := FindKey(tally, k).value;
      assert tally[j] in multiset(t);
      var i :| 0 <= i < |t| && t[i] == tally[j];
    }
  }

  /** Each row of the table at depth `depth` is a group of that depth with its genome count. */
  lemma TableRowsAreGroups(rows: seq<Genome>, depth: nat)
    requires depth <= 7
    ensures forall i :: 0 <= i < |CountTable(rows, depth)| ==>
      var row := CountTable(rows, depth)[i]; |row.key| == depth && row.count >= 1 && row.count == Members(rows, depth, row.key)
  {
    var keys := Keys(rows, depth);
    var t := SortDesc(Tally(keys));
    SortedTallyRows(keys);
    forall i | 0 <= i < |t| ensures |t[i].key| == depth && t[i].count >= 1 && t[i].count == Members(rows, depth, t[i].key) {
      var m :| 0 <= m < |keys| && keys[m] == t[i].key;
    }
  }

  /** Every genome's group has a row in the table at depth `depth`. */
  lemma TableListsEveryGenome(rows: seq<Genome>, depth: nat)
    requires depth <= 7
    ensures forall g :: g in rows ==> exists i :: 0 <= i < |CountTable(rows, depth)| && CountTable(rows, depth)[i].key == Key(g, depth)
  {
    var keys := Keys(rows, depth);
    var t := CountTable(rows, depth);
    SortedTallyCovers(keys);
    forall g | g in rows ensures exists i :: 0 <= i < |t| && t[i].key == Key(g, depth) {
      var m :| 0 <= m < |rows| && rows[m] == g;
      assert keys[m] == Key(g, depth);
      assert Key(g, depth) in keys;
      var i :| 0 <= i < |t| && t[i].key == Key(g, depth);
    }
  }

  /** The count table at an accepted rank: one row per group of the rank prefix, the
      groups are distinct, each Count is the group's genome count (at least one), the
      Counts sum to the number of genomes, every genome's group is listed, and the
      Counts never increase down the table. */
  lemma CountTableProps(rank: string, rows: seq<Genome>)
    requires GroupDepth(rank).Some?
    ensures var t := CountTableMakerGroupby(rank, rows).value;
      var depth := GroupDepth(rank).value;
      && NonIncreasing(t)
      && DistinctKeys(t)
      && Sum(t) == |rows|
      && (forall i :: 0 <= i < |t| ==> |t[i].key| == depth && t[i].count >= 1 && t[i].count == Members(rows, depth, t[i].key))
      && (forall g :: g in rows ==> exists i :: 0 <= i < |t| && t[i].key == Key(g, depth))
  {
    var depth := GroupDepth(rank).value;
    var tally := Tally(Keys(rows, depth));
    TallyCounts(Keys(rows, depth));
    SortDescProps(tally);
    SortDescDistinct(tally);
    TableRowsAreGroups(rows, depth);
    TableListsEveryGenome(rows, depth);
  }
}
