/** The selections of the single-file application: genomes by taxonomic values
    (`making_all_select_genome_df`) and by numeric ranges (`genome_selector_features`). */
module AppSelect {
  import opened Common
  import opened Genomes

  const PleaseSelect: string := "Please select item(s)"
  const TooMany: string := "Please select no more than 10 items"
  const SelectFeatures: string := "Select genomical feature(s)"

  /** What a selection returns: the selected rows with the table's row count and the
      selection's row count, or a message. */
  datatype Selection = Selected(rows: seq<Genome>, total: nat, count: nat) | Message(text: string)

  // ---------------------------------------------------------------------
  // Selection by taxonomic values
  // ---------------------------------------------------------------------

  function HasValueP(col: RankColumn, t: string): Genome -> bool {
    g => RankValue(g, col) == t
  }

  /** `df.loc[df[col] == t]`. */
  function SelectByValue(rows: seq<Genome>, col: RankColumn, t: string): (r: seq<Genome>)
    ensures forall g :: g in r <==> g in rows && RankValue(g, col) == t
  {
    Where(rows, HasValueP(col, t))
  }

  /** `pd.concat` of a list of frames. */
  function Flatten(parts: seq<seq<Genome>>): seq<Genome>
    decreases |parts|
  {
    if parts == [] then [] else Flatten(parts[..|parts| - 1]) + parts[|parts| - 1]
  }

  /** Reference definition: the rows holding each value, value by value in
      selection order. */
  function SelectAll(rows: seq<Genome>, col: RankColumn, values: seq<string>): seq<Genome>
    decreases |values|
  {
    if values == [] then []
    else SelectAll(rows, col, values[..|values| - 1]) + SelectByValue(rows, col, values[|values| - 1])
  }

  /** A row is selected exactly when its cell is one of the selected values. */
  lemma {:induction false} SelectAllMembers(rows: seq<Genome>, col: RankColumn, values: seq<string>)
    ensures forall g :: g in SelectAll(rows, col, values) <==> g in rows && RankValue(g, col) in values
    decreases |values|
  {
    if values != [] {
      var init := values[..|values| - 1];
      SelectAllMembers(rows, col, init);
      assert values == init + [values[|values| - 1]];
    }
  }

  /** Each value selects at most every row. */
  lemma {:induction false} SelectAllLength(rows: seq<Genome>, col: RankColumn, values: seq<string>)
    ensures |SelectAll(rows, col, values)| <= |rows| * |values|
    decreases |values|
  {
    if values != [] {
      var n := |values| - 1;
      SelectAllLength(rows, col, values[..n]);
      var last := SelectByValue(rows, col, values[n]);
      assert SelectAll(rows, col, values) == SelectAll(rows, col, values[..n]) + last;
      MulSucc(|rows|, n);
    }
  }

  lemma MulSucc(a: nat, n: nat)
    ensures a * (n + 1) == a * n + a
  {
  }

  lemma FlattenAppend(parts: seq<seq<Genome>>, part: seq<Genome>)
    ensures Flatten(parts + [part]) == Flatten(parts) + part
  {
    assert (parts + [part])[..|parts|] == parts;
  }

  /** The outcome the selection promises for `values`. */
  function SelectionOf(rows: seq<Genome>, col: RankColumn, values: seq<string>): Selection {
    if |values| == 0 then Message(PleaseSelect)
    else if |values| > 10 then Message(TooMany)
    else
      var s := SelectAll(rows, col, values);
      Selected(s, |rows|, |s|)
  }

  /** `making_all_select_genome_df` as its authors evidently meant it: the rows of
      each selected value in turn, the table's row count and the selection's row
      count, or the message for no value or for more than ten; the caller's table
      is left as it is. */
  method MakingAllSelectGenomeDf(rows: seq<Genome>, col: RankColumn, values: seq<string>) returns (r: Selection)
    ensures |values| == 0 ==> r == Message(PleaseSelect)
    ensures |values| > 10 ==> r == Message(TooMany)
    ensures 1 <= |values| <= 10 ==> r.Selected? && r.total == |rows| && r.count == |r.rows| <= |rows| * |values|
    ensures r.Selected? ==> forall g :: g in r.rows <==> g in rows && RankValue(g, col) in values
    ensures r == SelectionOf(rows, col, values)
  {
    if 1 <= |values| <= 10 {
      var parts: seq<seq<Genome>> := [];
      for i := 0 to |values|
        invariant Flatten(parts) == SelectAll(rows, col, values[..i])
      {
        assert values[..i + 1][..i] == values[..i];
        FlattenAppend(parts, SelectByValue(rows, col, values[i]));
        parts := parts + [SelectByValue(rows, col, values[i])];
      }
      assert values[..|values|] == values;
      var selected := Flatten(parts);
      SelectAllMembers(rows, col, values);
      SelectAllLength(rows, col, values);
      r := Selected(selected, |rows|, |selected|);
    } else if |values| > 10 {
      r := Message(TooMany);
    } else {
      r := Message(PleaseSelect);
    }
  }

  /** The caller's genome table as the application holds it: the rows, and the
      Chromosome and Plasmid columns, which an assignment can overwrite (`None` is NaN). */
  class GenomeFrame {
    var rows: seq<Genome>
    var chromosomeCol: seq<Option<real>>
    var plasmidCol: seq<Option<real>>

    /** The count columns hold the rows' counts. */
    predicate CountsIntact()
      reads this
    {
      |chromosomeCol| == |rows| && |plasmidCol| == |rows|
      && (forall i :: 0 <= i < |rows| ==> chromosomeCol[i] == Some(rows[i].chromosome as real))
      && (forall i :: 0 <= i < |rows| ==> plasmidCol[i] == Some(rows[i].plasmid as real))
    }

    constructor (initial: seq<Genome>)
      ensures rows == initial && CountsIntact()
    {
      rows := initial;
      chromosomeCol := seq(|initial|, i requires 0 <= i < |initial| => Some(initial[i].chromosome as real));
      plasmidCol := seq(|initial|, i requires 0 <= i < |initial| => Some(initial[i].plasmid as real));
    }
  }

  /** A column of NaN as long as the table: what assigning a column of an empty
      frame onto the table leaves after index alignment. */
  function Nulls(n: nat): (r: seq<Option<real>>)
    ensures |r| == n && forall i :: 0 <= i < n ==> r[i].None?
  {
    seq(n, i => None)
  }

  /** `making_all_select_genome_df` as written: the same outcome, but when the
      selection is non-empty the caller's Chromosome and Plasmid columns are
      assigned from the empty frame built before the loop, so both become NaN. */
  method MakingAllSelectGenomeDfAsWritten(frame: GenomeFrame, col: RankColumn, values: seq<string>) returns (r: Selection)
    modifies frame
    ensures frame.rows == old(frame.rows)
    ensures r == SelectionOf(frame.rows, col, values)
    ensures r.Selected? && r.count >= 1 ==>
      frame.chromosomeCol == Nulls(|frame.rows|) && frame.plasmidCol == Nulls(|frame.rows|)
    ensures !(r.Selected? && r.count >= 1) ==>
      frame.chromosomeCol == old(frame.chromosomeCol) && frame.plasmidCol == old(frame.plasmidCol)
  {
    r := MakingAllSelectGenomeDf(frame.rows, col, values);
    if r.Selected? && r.count >= 1 {
      frame.chromosomeCol := Nulls(|frame.rows|);
      frame.plasmidCol := Nulls(|frame.rows|);
    }
  }

  /** Selecting a genome's own value from a one-genome table finds the genome. */
  lemma SelectOwnValue(g: Genome, col: RankColumn)
    ensures SelectAll([g], col, [RankValue(g, col)]) == [g]
  {
    assert SelectByValue([g], col, RankValue(g, col)) == [g];
    assert [RankValue(g, col)][..0] == [];
  }

  /** A one-genome table, such as E. coli K-12 (superkingdom "Bacteria", one
      chromosome): selecting the genome's own superkingdom finds it, and the
      as-written selection then leaves the caller's table with a NaN where its
      Chromosome count was. */
  method NullingExample(g: Genome) returns (before: Option<real>, after: Option<real>, found: nat)
    ensures before == Some(g.chromosome as real) && after == None && found == 1
  {
    var frame := new GenomeFrame([g]);
    before := frame.chromosomeCol[0];
    SelectOwnValue(g, Superkingdom);
    var r := MakingAllSelectGenomeDfAsWritten(frame, Superkingdom, [RankValue(g, Superkingdom)]);
    found := r.count;
    after := frame.chromosomeCol[0];
  }

  // ---------------------------------------------------------------------
  // Selection by numeric ranges
  // ---------------------------------------------------------------------

  /** One selected feature: a numeric column and its inclusive bounds. */
  type Feature = (FeatureColumn, (real, real))

  predicate InRange(f: Feature, g: Genome) {
    f.1.0 <= FeatureValue(g, f.0) <= f.1.1
  }

  /** The row lies in the ranges of the first `n` features. */
  predicate InFirst(features: seq<Feature>, n: nat, g: Genome)
    requires n <= |features|
  {
    forall j :: 0 <= j < n ==> InRange(features[j], g)
  }

  function InRangeP(f: Feature): Genome -> bool {
    g => InRange(f, g)
  }

  function InFirstP(features: seq<Feature>, n: nat): Genome -> bool
    requires n <= |features|
  {
    g => InFirst(features, n, g)
  }

  /** Reference definition: the rows, in order, inside every selected range. */
  function InAllRanges(rows: seq<Genome>, features: seq<Feature>): (r: seq<Genome>)
    ensures |r| <= |rows|
    ensures forall g :: g in r <==> g in rows && forall j :: 0 <= j < |features| ==> InRange(features[j], g)
  {
    Where(rows, InFirstP(features, |features|))
  }

  lemma FirstFeature(rows: seq<Genome>, features: seq<Feature>)
    requires |features| >= 1
    ensures Where(rows, InFirstP(features, 1)) == Where(rows, InRangeP(features[0]))
  {
    WhereCongruent(rows, InFirstP(features, 1), InRangeP(features[0]));
  }

  lemma NextFeature(rows: seq<Genome>, features: seq<Feature>, n: nat)
    requires n < |features|
    ensures Where(rows, InFirstP(features, n + 1)) == Where(Where(rows, InFirstP(features, n)), InRangeP(features[n]))
  {
    WhereWhere(rows, InFirstP(features, n), InRangeP(features[n]), InFirstP(features, n + 1));
  }

  /** The selection does not depend on the order of the features (the order of the
      dictionary), only on which ranges are selected. */
  lemma FeatureOrderIrrelevant(rows: seq<Genome>, a: seq<Feature>, b: seq<Feature>)
    requires forall f :: f in a <==> f in b
    ensures InAllRanges(rows, a) == InAllRanges(rows, b)
  {
    forall g ensures InFirst(a, |a|, g) == InFirst(b, |b|, g) {
      if InFirst(a, |a|, g) {
        forall j | 0 <= j < |b| ensures InRange(b[j], g) {
          assert b[j] in b;
          var i :| 0 <= i < |a| && a[i] == b[j];
        }
      }
      if InFirst(b, |b|, g) {
        forall i | 0 <= i < |a| ensures InRange(a[i], g) {
          assert a[i] in a;
          var j :| 0 <= j < |b| && b[j] == a[i];
        }
      }
    }
    WhereCongruent(rows, InFirstP(a, |a|), InFirstP(b, |b|));
  }

  /** `genome_selector_features(final_genome_df, selected_features)` over the items of
      the feature dictionary: the message when none is selected; otherwise the rows
      inside every range (the first range selects from the table, each further one
      narrows the selection), the table's row count and the selection's row count. */
  method GenomeSelectorFeatures(rows: seq<Genome>, features: seq<Feature>) returns (r: Selection)
    ensures |features| == 0 <==> r == Message(SelectFeatures)
    ensures |features| > 0 ==> r == Selected(InAllRanges(rows, features), |rows|, |InAllRanges(rows, features)|)
    ensures r.Selected? ==> r.count <= r.total
  {
    if |features| == 0 {
      return Message(SelectFeatures);
    }
    var count := 1;
    var selected := rows;
    for i := 0 to |features|
      invariant count == i + 1
      invariant i >= 1 ==> selected == Where(rows, InFirstP(features, i))
    {
      if count == 1 {
        FirstFeature(rows, features);
        selected := Where(rows, InRangeP(features[i]));
        count := count + 1;
      } else {
        NextFeature(rows, features, i);
        selected := Where(selected, InRangeP(features[i]));
        count := count + 1;
      }
    }
    r := Selected(selected, |rows|, |selected|);
  }
}
