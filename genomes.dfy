/** The tables of the engine, as sequences of records: one record type per stage
    of the pipeline, ending in the genome table the filters and menus work on. */
module Genomes {
  import opened Common

  /** The seven ranks the lineage columns hold, in column order. */
  const DesiredRanks: seq<string> := ["superkingdom", "phylum", "class", "order", "family", "genus", "species"]

  /** A lineage of seven rank names, superkingdom first. */
  type Lineage = s: seq<string> | |s| == 7 witness ["", "", "", "", "", "", ""]

  /** A row of the NCBI prokaryote report with the ten columns read; every cell is text. */
  datatype RawRow = RawRow(
    name: string, taxId: string, size: string, gc: string, replicons: string,
    genes: string, proteins: string, releaseDate: string, status: string, ftpPath: string)

  /** A complete genome after the Status column is dropped ("#Organism/Name" renamed "Genome Name"). */
  datatype StagedRow = StagedRow(
    name: string, taxId: string, size: string, gc: string, replicons: string,
    genes: string, proteins: string, releaseDate: string, ftpPath: string)

  /** A staged row with the two replicon counts appended. */
  datatype CountedRow = CountedRow(row: StagedRow, chromosome: nat, plasmid: nat)

  /** A row after the merge with the lineage table and the numeric coercions: a
      numeric cell that did not parse is `None` (NaN), and a rank cell the lineage
      list did not reach is `None`. */
  datatype MergedRow = MergedRow(
    name: string, taxId: string, size: Option<real>, gc: Option<real>, replicons: string,
    chromosome: nat, plasmid: nat, genes: Option<real>, proteins: Option<real>,
    releaseDate: string, download: string, ranks: seq<Option<string>>)

  /** A row of the final genome table: no cell is null. */
  datatype Genome = Genome(
    name: string, taxId: string, size: real, gc: real, replicons: string,
    chromosome: nat, plasmid: nat, genes: real, proteins: real,
    releaseDate: string, download: string, lineage: Lineage)

  /** The columns a taxonomic menu can be built on: 'TaxID' and the seven ranks. */
  datatype RankColumn = TaxIdColumn | Superkingdom | Phylum | Class | Order | Family | Genus | Species

  /** The columns of the six numeric range menus. */
  datatype FeatureColumn = GenomeSize | GcPercent | Chromosomes | Plasmids | GeneCount | ProteinCount

  /** `tax_item_texts`, in its order. */
  const RankColumns: seq<RankColumn> := [TaxIdColumn, Superkingdom, Phylum, Class, Order, Family, Genus, Species]

  /** The keys of `size_menus`, in its order. */
  const FeatureColumns: seq<FeatureColumn> := [GenomeSize, GcPercent, Chromosomes, Plasmids, GeneCount, ProteinCount]

  /** The column name each rank column has in the table. */
  function RankColumnName(c: RankColumn): string {
    match c
    case TaxIdColumn => "TaxID"
    case Superkingdom => "superkingdom"
    case Phylum => "phylum"
    case Class => "class"
    case Order => "order"
    case Family => "family"
    case Genus => "genus"
    case Species => "species"
  }

  /** The `col_name` of each size menu. */
  function FeatureColumnName(c: FeatureColumn): string {
    match c
    case GenomeSize => "Genome size (Mb)"
    case GcPercent => "GC%"
    case Chromosomes => "Chromosome"
    case Plasmids => "Plasmid"
    case GeneCount => "Genes"
    case ProteinCount => "Proteins"
  }

  /** The cell of a genome in a rank column. */
  function RankValue(g: Genome, c: RankColumn): string {
    match c
    case TaxIdColumn => g.taxId
    case Superkingdom => g.lineage[0]
    case Phylum => g.lineage[1]
    case Class => g.lineage[2]
    case Order => g.lineage[3]
    case Family => g.lineage[4]
    case Genus => g.lineage[5]
    case Species => g.lineage[6]
  }

  /** The cell of a genome in a numeric column. */
  function FeatureValue(g: Genome, c: FeatureColumn): real {
    match c
    case GenomeSize => g.size
    case GcPercent => g.gc
    case Chromosomes => g.chromosome as real
    case Plasmids => g.plasmid as real
    case GeneCount => g.genes
    case ProteinCount => g.proteins
  }
}
