/** The stages `load_from_ncbi` runs on the fetched report: keep the complete
    genomes and drop Status, append the replicon counts (`count_chro_plas`), merge
    with the lineage table and coerce the numeric columns (`making_final_df`), and
    drop every row holding a null (`dropna`). */
module Stages {
  import opened Common
  import opened Text
  import opened Genomes
  import opened Taxonomy

  const CompleteGenome: string := "Complete Genome"

  /** `pd.to_numeric(..., errors='coerce')` on one cell: the float grammar is
      abstract; `None` is the NaN a cell that does not parse becomes. */
  type Parse = string -> Option<real>

  // ---------------------------------------------------------------------
  // Stage 1: complete genomes, Status dropped
  // ---------------------------------------------------------------------

  /** Drops the Status column of a row. */
  function Stage(d: RawRow): StagedRow {
    StagedRow(d.name, d.taxId, d.size, d.gc, d.replicons, d.genes, d.proteins, d.releaseDate, d.ftpPath)
  }

  function IsComplete(d: RawRow): bool {
    d.status == CompleteGenome
  }

  /** `data.loc[data['Status'] == "Complete Genome"]` without its Status column:
      the complete genomes, in report order. */
  function CompleteGenomes(data: seq<RawRow>): (r: seq<StagedRow>)
    ensures |r| <= |data|
  {
    MapSeq(Where(data, IsComplete), Stage)
  }

  /** A staged row is a complete genome of the report, and every complete genome is staged. */
  lemma CompleteGenomesMembers(data: seq<RawRow>)
    ensures forall s :: s in CompleteGenomes(data) <==> exists d :: d in data && IsComplete(d) && Stage(d) == s
  {
    forall s ensures s in CompleteGenomes(data) <==> exists d :: d in data && IsComplete(d) && Stage(d) == s {
      if s in CompleteGenomes(data) {
        StagedIsComplete(data, s);
      }
      if exists d :: d in data && IsComplete(d) && Stage(d) == s {
        var d :| d in data && IsComplete(d) && Stage(d) == s;
        CompleteIsStaged(data, d);
      }
    }
  }

  lemma StagedIsComplete(data: seq<RawRow>, s: StagedRow)
    requires s in CompleteGenomes(data)
    ensures exists d :: d in data && IsComplete(d) && Stage(d) == s
  {
    var kept := Where(data, IsComplete);
    var i :| 0 <= i < |kept| && CompleteGenomes(data)[i] == s;
    assert kept[i] in kept;
  }

  lemma CompleteIsStaged(data: seq<RawRow>, d: RawRow)
    requires d in data && IsComplete(d)
    ensures Stage(d) in CompleteGenomes(data)
  {
    var kept := Where(data, IsComplete);
    assert d in kept;
    var i :| 0 <= i < |kept| && kept[i] == d;
    assert CompleteGenomes(data)[i] == Stage(d);
  }

  // ---------------------------------------------------------------------
  // Stage 2: count_chro_plas
  // ---------------------------------------------------------------------

  /** The whole-word, case-insensitive matches of "chromosome" in a Replicons cell. */
  function Chromosomes(replicons: string): nat {
    CountWord(replicons, "chromosome")
  }

  /** The whole-word, case-insensitive matches of "plasmid" in a Replicons cell. */
  function Plasmids(replicons: string): nat {
    CountWord(replicons, "plasmid")
  }

  /** A staged row with its two counts. */
  function Counted(s: StagedRow): CountedRow {
    CountedRow(s, Chromosomes(s.replicons), Plasmids(s.replicons))
  }

  /** The two counts are the numbers of whole-word occurrences of the words. */
  lemma CountedIsOccurrences(s: StagedRow)
    ensures Counted(s).chromosome == Occurrences(s.replicons, "chromosome", 0)
    ensures Counted(s).plasmid == Occurrences(s.replicons, "plasmid", 0)
  {
    CountWordIsOccurrences(s.replicons, "chromosome");
    CountWordIsOccurrences(s.replicons, "plasmid");
  }

  /** `count_chro_plas`: one count pair per row, in row order, each the number of
      whole-word occurrences of the word; the two lists become two columns
      concatenated side by side on the same 0..n-1 index. */
  method CountChroPlas(rows: seq<StagedRow>) returns (out: seq<CountedRow>)
    ensures |out| == |rows|
    ensures forall i :: 0 <= i < |rows| ==> out[i] == Counted(rows[i])
  {
    var chromosomes, plasmids := CountLists(rows);
    out := seq(|rows|, i requires 0 <= i < |rows| => CountedRow(rows[i], chromosomes[i], plasmids[i]));
  }

  /** The Chromosome counts of the rows, in row order. */
  function ChromosomeCounts(rows: seq<StagedRow>): (r: seq<nat>)
    ensures |r| == |rows| && forall k :: 0 <= k < |rows| ==> r[k] == Chromosomes(rows[k].replicons)
  {
    if rows == [] then [] else ChromosomeCounts(rows[..|rows| - 1]) + [Chromosomes(rows[|rows| - 1].replicons)]
  }

  /** The Plasmid counts of the rows, in row order. */
  function PlasmidCounts(rows: seq<StagedRow>): (r: seq<nat>)
    ensures |r| == |rows| && forall k :: 0 <= k < |rows| ==> r[k] == Plasmids(rows[k].replicons)
  {
    if rows == [] then [] else PlasmidCounts(rows[..|rows| - 1]) + [Plasmids(rows[|rows| - 1].replicons)]
  }

  /** The loop of `count_chro_plas`: the two count lists, one entry per row. */
  method CountLists(rows: seq<StagedRow>) returns (chromosomes: seq<nat>, plasmids: seq<nat>)
    ensures chromosomes == ChromosomeCounts(rows) && plasmids == PlasmidCounts(rows)
  {
    chromosomes, plasmids := [], [];
    for i := 0 to |rows|
      invariant chromosomes == ChromosomeCounts(rows[..i]) && plasmids == PlasmidCounts(rows[..i])
    {
      assert rows[..i + 1][..i] == rows[..i];
      chromosomes := chromosomes + [Chromosomes(rows[i].replicons)];
      plasmids := plasmids + [Plasmids(rows[i].replicons)];
    }
    assert rows[..|rows|] == rows;
  }

  /** A table of counted rows, as `CountChroPlas` returns it, holds in each row the
      numbers of whole-word occurrences of the two words in the row's Replicons. */
  lemma AllCountedAreOccurrences(rows: seq<StagedRow>, out: seq<CountedRow>)
    requires |out| == |rows| && forall i :: 0 <= i < |rows| ==> out[i] == Counted(rows[i])
    ensures forall i :: 0 <= i < |rows| ==> out[i].chromosome == Occurrences(rows[i].replicons, "chromosome", 0)
    ensures forall i :: 0 <= i < |rows| ==> out[i].plasmid == Occurrences(rows[i].replicons, "plasmid", 0)
  {
    forall i | 0 <= i < |rows|
      ensures out[i].chromosome == Occurrences(rows[i].replicons, "chromosome", 0)
      ensures out[i].plasmid == Occurrences(rows[i].replicons, "plasmid", 0)
    {
      CountedIsOccurrences(rows[i]);
    }
  }

  // ---------------------------------------------------------------------
  // Stage 3: making_final_df
  // ---------------------------------------------------------------------

  /** A row of the lineage table: the 'TaxID' cell and the names after it. */
  datatype LineageRow = LineageRow(taxId: string, names: seq<string>)

  /** `DataFrame.from_dict(lineage_dict, orient='index', columns=['TaxID', ranks...])`:
      the first entry of each lineage list is its TaxID cell. */
  function LineageTable(lists: seq<seq<string>>): (r: seq<LineageRow>)
    requires forall k :: 0 <= k < |lists| ==> |lists[k]| >= 1
    ensures |r| == |lists|
    ensures forall k :: 0 <= k < |lists| ==> r[k] == LineageRow(lists[k][0], lists[k][1..])
  {
    if lists == [] then [] else [LineageRow(lists[0][0], lists[0][1..])] + LineageTable(lists[1..])
  }

  /** The seven rank cells a lineage list fills: the names it has, then nulls (the
      padding of a short row). */
  function RankCells(names: seq<string>): (r: seq<Option<string>>)
    ensures |r| == 7
    ensures forall i :: 0 <= i < 7 && i < |names| ==> r[i] == Some(names[i])
    ensures forall i :: |names| <= i < 7 ==> r[i] == None
  {
    seq(7, i requires 0 <= i < 7 => if i < |names| then Some(names[i]) else None)
  }

  /** One merged row: the left row's cells reordered and renamed, the download
      path rewritten by `change_ftp`, the numeric cells coerced, the rank cells
      taken from the lineage row. */
  function Combine(l: CountedRow, names: seq<string>, parse: Parse): MergedRow {
    var s := l.row;
    MergedRow(s.name, s.taxId, parse(s.size), parse(s.gc), s.replicons, l.chromosome, l.plasmid,
              parse(s.genes), parse(s.proteins), s.releaseDate, ChangeFtp(s.ftpPath), RankCells(names))
  }

  /** The lineage rows of one TaxID. */
  function TaxIdP(id: string): LineageRow -> bool {
    (t: LineageRow) => t.taxId == id
  }

  /** `pd.merge(genome_df, lineage_df, on='TaxID')`, an inner join: for each left row
      in order, one merged row per lineage row with the same TaxID, in table order. */
  function InnerJoin(left: seq<CountedRow>, table: seq<LineageRow>, parse: Parse): seq<MergedRow>
    decreases |left|
  {
    if left == [] then []
    else
      var l := left[0];
      JoinRow(l, Where(table, TaxIdP(l.row.taxId)), parse) + InnerJoin(left[1..], table, parse)
  }

  function JoinRow(l: CountedRow, matches: seq<LineageRow>, parse: Parse): seq<MergedRow>
    decreases |matches|
  {
    if matches == [] then [] else [Combine(l, matches[0].names, parse)] + JoinRow(l, matches[1..], parse)
  }

  /** Reference definition of a merged row: the row enriched with the lineage of
      its own TaxID. */
  function Enriched(svc: Service, parse: Parse, l: CountedRow): MergedRow {
    Combine(l, DesiredRanksOf(svc, l.row.taxId, DesiredRanks).0[1..], parse)
  }

  function EnrichAll(svc: Service, parse: Parse, rows: seq<CountedRow>): (r: seq<MergedRow>)
    ensures |r| == |rows|
    ensures forall i :: 0 <= i < |rows| ==> r[i] == Enriched(svc, parse, rows[i])
  {
    if rows == [] then [] else [Enriched(svc, parse, rows[0])] + EnrichAll(svc, parse, rows[1..])
  }

  function TaxIds(rows: seq<CountedRow>): (r: seq<string>)
    ensures |r| == |rows|
    ensures forall i :: 0 <= i < |rows| ==> r[i] == rows[i].row.taxId
  {
    if rows == [] then [] else [rows[0].row.taxId] + TaxIds(rows[1..])
  }

  /** In a table with distinct TaxIDs, selecting one TaxID that occurs finds exactly
      its row. */
  lemma {:induction false} SelectUniqueRow(table: seq<LineageRow>, k: nat)
    requires k < |table|
    requires forall i, j :: 0 <= i < j < |table| ==> table[i].taxId != table[j].taxId
    ensures Where(table, TaxIdP(table[k].taxId)) == [table[k]]
    decreases |table|
  {
    var id := table[k].taxId;
    var p := TaxIdP(id);
    if k == 0 {
      WhereNone(table[1..], p);
    } else {
      SelectUniqueRow(table[1..], k - 1);
      assert table[1..][k - 1] == table[k];
      assert !p(table[0]);
    }
  }

  /** An inner join keeps only matched rows: every merged row's TaxID has a row in
      the lineage table, and its rank cells come from such a row. */
  lemma {:induction false} JoinedRowsMatchTable(left: seq<CountedRow>, table: seq<LineageRow>, parse: Parse)
    ensures forall m :: m in InnerJoin(left, table, parse) ==>
      exists t :: t in table && t.taxId == m.taxId && m.ranks == RankCells(t.names)
    decreases |left|
  {
    if left != [] {
      JoinedRowsMatchTable(left[1..], table, parse);
      var l := left[0];
      JoinRowMatches(l, Where(table, TaxIdP(l.row.taxId)), parse);
    }
  }

  lemma {:induction false} JoinRowMatches(l: CountedRow, matches: seq<LineageRow>, parse: Parse)
    ensures forall m :: m in JoinRow(l, matches, parse) ==>
      exists t :: t in matches && m.taxId == l.row.taxId && m.ranks == RankCells(t.names)
    decreases |matches|
  {
    if matches != [] {
      JoinRowMatches(l, matches[1..], parse);
      assert matches[0] in matches;
    }
  }

  /** The inner join against the lineage table of any duplicate-free enumeration of
      the TaxIDs (the order `list(set(...))` happens to produce) is the per-row
      enrichment: every row matches exactly one lineage row, and the row order of
      the left table is kept. */
  lemma {:induction false} JoinIsEnrichment(svc: Service, parse: Parse, rows: seq<CountedRow>, ids: seq<string>)
    requires NoDuplicates(ids)
    requires forall i :: 0 <= i < |rows| ==> rows[i].row.taxId in ids
    ensures InnerJoin(rows, LineageTable(LineageRows(svc, ids, DesiredRanks)), parse) == EnrichAll(svc, parse, rows)
    decreases |rows|
  {
    if rows != [] {
      JoinFirstRow(svc, parse, rows[0], ids);
      TailTaxIdsIn(rows, ids);
      JoinIsEnrichment(svc, parse, rows[1..], ids);
    }
  }

  /** A row whose TaxID occurs among the duplicate-free TaxIDs joins to exactly its
      enrichment. */
  lemma JoinFirstRow(svc: Service, parse: Parse, l: CountedRow, ids: seq<string>)
    requires NoDuplicates(ids) && l.row.taxId in ids
    ensures JoinRow(l, Where(LineageTable(LineageRows(svc, ids, DesiredRanks)), TaxIdP(l.row.taxId)), parse)
         == [Enriched(svc, parse, l)]
  {
    var lists := LineageRows(svc, ids, DesiredRanks);
    var k :| 0 <= k < |ids| && ids[k] == l.row.taxId;
    JoinOneRow(l, lists, ids, k, parse);
  }

  /** Joining a row against the table of lineage lists headed by distinct TaxIDs
      finds exactly the list headed by its own TaxID. */
  lemma JoinOneRow(l: CountedRow, lists: seq<seq<string>>, ids: seq<string>, k: nat, parse: Parse)
    requires NoDuplicates(ids) && |lists| == |ids| && k < |ids| && ids[k] == l.row.taxId
    requires forall i :: 0 <= i < |lists| ==> |lists[i]| >= 1 && lists[i][0] == ids[i]
    ensures JoinRow(l, Where(LineageTable(lists), TaxIdP(l.row.taxId)), parse) == [Combine(l, lists[k][1..], parse)]
  {
    var table := LineageTable(lists);
    assert forall i, j :: 0 <= i < j < |table| ==> table[i].taxId != table[j].taxId by {
      forall i, j | 0 <= i < j < |table| ensures table[i].taxId != table[j].taxId {
        assert table[i].taxId == ids[i] && table[j].taxId == ids[j];
      }
    }
    SelectUniqueRow(table, k);
    assert JoinRow(l, [table[k]], parse) == [Combine(l, lists[k][1..], parse)];
  }

  lemma TailTaxIdsIn(rows: seq<CountedRow>, ids: seq<string>)
    requires rows != [] && forall i :: 0 <= i < |rows| ==> rows[i].row.taxId in ids
    ensures forall i :: 0 <= i < |rows[1..]| ==> rows[1..][i].row.taxId in ids
  {
    forall i | 0 <= i < |rows[1..]| ensures rows[1..][i].row.taxId in ids {
      assert rows[1..][i] == rows[i + 1];
    }
  }

  /** `making_final_df`: reorder and rename the columns, build the lineage table of
      the distinct TaxIDs, merge on TaxID, rewrite the download path and coerce the
      numeric columns. The result is the per-row enrichment, whatever the order of
      the distinct TaxIDs. */
  method MakingFinalDf(svc: Service, parse: Parse, rows: seq<CountedRow>) returns (r: seq<MergedRow>)
    ensures r == EnrichAll(svc, parse, rows)
  {
    var ids := Distinct(TaxIds(rows));
    var ranks := new RankList(DesiredRanks);
    var lists, missed := TaxIdLineageDf(svc, ids, ranks);
    assert forall k :: 0 <= k < |lists| ==> |lists[k]| >= 1;
    var table := LineageTable(lists);
    r := InnerJoin(rows, table, parse);
    assert forall i :: 0 <= i < |rows| ==> rows[i].row.taxId in ids by {
      forall i | 0 <= i < |rows| ensures rows[i].row.taxId in ids {
        assert TaxIds(rows)[i] in TaxIds(rows);
      }
    }
    JoinIsEnrichment(svc, parse, rows, ids);
  }

  // ---------------------------------------------------------------------
  // Stage 4: dropna
  // ---------------------------------------------------------------------

  /** No cell of the merged row is null. */
  predicate NoNulls(m: MergedRow) {
    m.size.Some? && m.gc.Some? && m.genes.Some? && m.proteins.Some?
    && |m.ranks| == 7 && forall i :: 0 <= i < 7 ==> m.ranks[i].Some?
  }

  function ToGenome(m: MergedRow): (g: Genome)
    requires NoNulls(m)
    ensures g.taxId == m.taxId && g.download == m.download
    ensures forall i :: 0 <= i < 7 ==> m.ranks[i] == Some(g.lineage[i])
  {
    Genome(m.name, m.taxId, m.size.value, m.gc.value, m.replicons, m.chromosome, m.plasmid,
           m.genes.value, m.proteins.value, m.releaseDate, m.download,
           seq(7, i requires 0 <= i < 7 => m.ranks[i].value))
  }

  /** `genome_df.dropna()`: the rows without nulls, in order. */
  function DropNa(rows: seq<MergedRow>): (r: seq<Genome>)
    ensures |r| <= |rows|
    ensures forall g :: g in r <==> exists m :: m in rows && NoNulls(m) && ToGenome(m) == g
  {
    if rows == [] then []
    else
      var rest := DropNa(rows[1..]);
      assert forall m :: m in rows <==> m == rows[0] || m in rows[1..];
      (if NoNulls(rows[0]) then [ToGenome(rows[0])] else []) + rest
  }

  // ---------------------------------------------------------------------
  // The pipeline of load_from_ncbi
  // ---------------------------------------------------------------------

  /** Reference definition of what a report row contributes to the genome table:
      the genome it becomes when it is a complete genome and its enriched row has
      no null, nothing otherwise. */
  function Reference(svc: Service, parse: Parse, d: RawRow): Option<Genome> {
    if !IsComplete(d) then None
    else
      var m := Enriched(svc, parse, Counted(Stage(d)));
      if NoNulls(m) then Some(ToGenome(m)) else None
  }

  /** The contributions of the report rows, in report order. */
  function Collect(svc: Service, parse: Parse, data: seq<RawRow>): seq<Genome>
    decreases |data|
  {
    if data == [] then []
    else
      (match Reference(svc, parse, data[0]) case None => [] case Some(g) => [g])
      + Collect(svc, parse, data[1..])
  }

  function CountAll(rows: seq<StagedRow>): (r: seq<CountedRow>)
    ensures |r| == |rows|
    ensures forall i :: 0 <= i < |rows| ==> r[i] == Counted(rows[i])
  {
    if rows == [] then [] else [Counted(rows[0])] + CountAll(rows[1..])
  }

  /** The staged pipeline and the per-row reference agree. */
  lemma {:induction false} PipelineIsReference(svc: Service, parse: Parse, data: seq<RawRow>)
    ensures DropNa(EnrichAll(svc, parse, CountAll(CompleteGenomes(data)))) == Collect(svc, parse, data)
    decreases |data|
  {
    if data != [] {
      PipelineIsReference(svc, parse, data[1..]);
      if IsComplete(data[0]) {
        PipelineKeeps(svc, parse, data);
      } else {
        PipelineSkips(svc, parse, data);
      }
    }
  }

  /** A report row that is not a complete genome adds nothing to the pipeline. */
  lemma PipelineSkips(svc: Service, parse: Parse, data: seq<RawRow>)
    requires data != [] && !IsComplete(data[0])
    ensures CompleteGenomes(data) == CompleteGenomes(data[1..])
  {
    assert Where(data, IsComplete) == Where(data[1..], IsComplete);
  }

  /** A complete genome first in the report contributes its merged row first,
      unless that row has a null cell. */
  lemma PipelineKeeps(svc: Service, parse: Parse, data: seq<RawRow>)
    requires data != [] && IsComplete(data[0])
    ensures var m := Enriched(svc, parse, Counted(Stage(data[0])));
      DropNa(EnrichAll(svc, parse, CountAll(CompleteGenomes(data))))
      == (if NoNulls(m) then [ToGenome(m)] else []) + DropNa(EnrichAll(svc, parse, CountAll(CompleteGenomes(data[1..]))))
  {
    var d := data[0];
    var restStaged := CompleteGenomes(data[1..]);
    assert Where(data, IsComplete) == [d] + Where(data[1..], IsComplete);
    assert CompleteGenomes(data) == [Stage(d)] + restStaged;
    assert CountAll(CompleteGenomes(data)) == [Counted(Stage(d))] + CountAll(restStaged);
    var all := EnrichAll(svc, parse, CountAll(CompleteGenomes(data)));
    assert all == [Enriched(svc, parse, Counted(Stage(d)))] + EnrichAll(svc, parse, CountAll(restStaged));
    assert all[1..] == EnrichAll(svc, parse, CountAll(restStaged));
  }

  /** `load_from_ncbi` after the fetch: the genome table is exactly the per-row
      reference, in report order. */
  method LoadFromNcbi(svc: Service, parse: Parse, data: seq<RawRow>) returns (table: seq<Genome>)
    ensures table == Collect(svc, parse, data)
  {
    var staged := CompleteGenomes(data);
    var counted := CountChroPlas(staged);
    assert counted == CountAll(staged);
    var merged := MakingFinalDf(svc, parse, counted);
    table := DropNa(merged);
    PipelineIsReference(svc, parse, data);
  }

  /** A genome of the table comes from a complete-genome report row: same name and
      TaxID, the download path rewritten, the numeric cells parsed, the counts of
      its Replicons cell, and the seven names of a lineage list that reached every
      rank; conversely every such report row is in the table. */
  lemma {:induction false} CollectMembers(svc: Service, parse: Parse, data: seq<RawRow>, g: Genome)
    ensures g in Collect(svc, parse, data) <==> exists d :: d in data && Reference(svc, parse, d) == Some(g)
    decreases |data|
  {
    if data != [] {
      CollectMembers(svc, parse, data[1..], g);
      assert forall d :: d in data <==> d == data[0] || d in data[1..];
    }
  }

  /** What a surviving row guarantees about the cells of the report row it came
      from. */
  lemma ReferenceCells(svc: Service, parse: Parse, d: RawRow, g: Genome)
    requires Reference(svc, parse, d) == Some(g)
    ensures d.status == CompleteGenome
    ensures g.name == d.name && g.taxId == d.taxId && g.replicons == d.replicons && g.releaseDate == d.releaseDate
    ensures g.download == ChangeFtp(d.ftpPath)
    ensures parse(d.size) == Some(g.size) && parse(d.gc) == Some(g.gc)
    ensures parse(d.genes) == Some(g.genes) && parse(d.proteins) == Some(g.proteins)
    ensures g.chromosome == Occurrences(d.replicons, "chromosome", 0)
    ensures g.plasmid == Occurrences(d.replicons, "plasmid", 0)
  {
    var c := Counted(Stage(d));
    var m := Enriched(svc, parse, c);
    assert NoNulls(m) && ToGenome(m) == g;
    CountedIsOccurrences(Stage(d));
  }

  /** Seven non-null rank cells come from a list of at least seven names. */
  lemma RankCellsFull(names: seq<string>)
    ensures (forall i :: 0 <= i < 7 ==> RankCells(names)[i].Some?) ==> |names| >= 7
  {
    if |names| < 7 {
      assert RankCells(names)[|names|].None?;
    }
  }

  /** A lineage list for the seven desired ranks has at most eight entries. */
  lemma DesiredRanksAtMostEight(svc: Service, taxid: string)
    ensures |DesiredRanksOf(svc, taxid, DesiredRanks).0| <= 8
  {
    if !LookupFails(svc, taxid) {
      DistinctOfDistinct(DesiredRanks);
      NamesLength(svc, RankItems(svc, taxid), DesiredRanks);
    }
  }

  /** A surviving row's TaxID was found in the taxonomy database, and its lineage
      is the lineage list of that TaxID after the TaxID itself: every rank got a
      name or the marker. */
  lemma ReferenceLineage(svc: Service, parse: Parse, d: RawRow, g: Genome)
    requires Reference(svc, parse, d) == Some(g)
    ensures !LookupFails(svc, d.taxId)
    ensures DesiredRanksOf(svc, d.taxId, DesiredRanks).0 == [d.taxId] + g.lineage
  {
    var lineage := DesiredRanksOf(svc, d.taxId, DesiredRanks).0;
    var m := Enriched(svc, parse, Counted(Stage(d)));
    assert m.ranks == RankCells(lineage[1..]);
    RankCellsFull(lineage[1..]);
    DesiredRanksAtMostEight(svc, d.taxId);
    assert lineage == [d.taxId] + lineage[1..];
    assert lineage[1..] == g.lineage;
  }

  /** A row whose lineage list is shorter than eight entries (the lookup raised, or
      a name did not translate) never reaches the genome table. */
  lemma IncompleteLineageDropped(svc: Service, parse: Parse, d: RawRow)
    requires |DesiredRanksOf(svc, d.taxId, DesiredRanks).0| < 8
    ensures Reference(svc, parse, d).None?
  {
    var lineage := DesiredRanksOf(svc, d.taxId, DesiredRanks).0;
    var m := Enriched(svc, parse, Counted(Stage(d)));
    assert m.ranks[|lineage| - 1] == None;
  }
}
