# Prokaryote genome metadata engine — a Dafny model

The system downloads NCBI's prokaryote genome report. It builds a table of complete genomes, each with its replicon counts and a seven-rank taxonomic lineage. It then serves menus, counts and filtered views of that table to a web interface. This project models the data engine behind that interface and proves what it promises:

- the report-to-table pipeline of `load_from_ncbi`: complete genomes only, the Status column dropped, whole-word counting of "chromosome" and "plasmid" in the Replicons text, the lineage lookup against the taxonomy database, the inner join on TaxID, the numeric coercions, and `dropna`;
- the lineage helpers `get_desired_ranks` and `taxID_lineage_df`, including the in-place insertion of `'TaxID'` into the caller's rank list;
- `change_ftp` and `download_link`, whose Base64 data link decodes back to the text (Base64 as in section 4 of RFC 4648, UTF-8 as in RFC 3629);
- `count_tableMaker_groupby`, the genome count per taxonomic group;
- the `NCBIdata` class:
  - the day-named disk cache and `load`;
  - the taxonomic menus and the numeric ranges;
  - the filter dictionary, `apply_filter` and `is_filter`;
- the selections of the single-file application (`making_all_select_genome_df`, `genome_selector_features`), and a defect in the first of them.

Modules, one per file:

| module | file | models |
|---|---|---|
| `Common` | common.dfy | Option/Result, order-preserving selection (`Where`), de-duplication |
| `Text` | text.dfy | the replicon word counter, `change_ftp`, string order and the sorted menus |
| `Base64Link` | base64link.dfy | UTF-8, Base64 and `download_link` |
| `Genomes` | genomes.dfy | the row types of each pipeline stage and the column names |
| `Taxonomy` | taxonomy.dfy | `get_desired_ranks`, `taxID_lineage_df` |
| `Stages` | stages.dfy | `count_chro_plas`, `making_final_df`, `dropna`, `load_from_ncbi` |
| `GroupCounts` | groupcounts.dfy | `count_tableMaker_groupby` |
| `Cache` | cache.dfy | `get_cache_filename`, the file store, what a load returns |
| `Engine` | engine.dfy | class `NCBIdata`: filters, menus, ranges, cache methods, `load` |
| `AppSelect` | appselect.dfy | the selections of app_v2_1_1_final.py |

The taxonomy database and the float parser are parameters: a `Service` of partial functions and a `Parse` from text to an optional real. The fetched report, the clock and the disk are parameters too.

## Model

| member | source | states |
|---|---|---|
| Text.CountWordIsOccurrences | ncbi.py:299-310 | the regex scan count equals the number of positions where the word stands as a whole word, in any letter case (reference definition `Occurrences`) |
| Text.InsideWordNoMatch | ncbi.py:304-307 | a run of word characters scanned right after a word character holds no match: `\b` needs a non-word character before the word |
| Text.MixedRepliconsChromosomes | ncbi.py:305-309 | "chromosome 1; plasmid pA, plasmid pB" holds one chromosome |
| Text.MixedRepliconsPlasmids | ncbi.py:306-311 | the same text holds two plasmids |
| Text.MixedCasePlasmid | ncbi.py:306 | "Plasmid" holds one plasmid (case is ignored) |
| Text.PluralIsNoMatch | ncbi.py:305 | "chromosomes" holds no chromosome |
| Text.EmbeddedWordIsNoMatch | ncbi.py:305 | "minichromosome" holds no chromosome |
| Text.UnderscoreIsNoBoundary | ncbi.py:306 | "plasmid_1" holds no plasmid (`_` is a word character) |
| Text.CountThreePieces | ncbi.py:307-311 | counts add up over pieces separated by non-word characters |
| Text.ChangeFtpRestores | ncbi.py:11-18 | for an `ftp...` path the result is two characters longer, starts with `https`, and putting `ftp` back gives the path (the copy at app_v2_1_1_final.py:39-46 is the same rewrite) |
| Text.ChangeFtpExample | ncbi.py:17 | `ftp://ncbi/a` becomes `https://ncbi/a` |
| Text.StrLessTotal | ncbi.py:280 | the string order of `list.sort()` is total |
| Text.StrLessTransitive | ncbi.py:280 | and transitive |
| Text.StrLessIrreflexive | ncbi.py:280 | and strict |
| Text.InsertSorted | ncbi.py:278-280 | inserting into a strictly ascending list keeps it strictly ascending, adding exactly the new element |
| Text.SortedDistinct | ncbi.py:278-280 | the menu is strictly ascending and holds exactly the non-empty values of the column |
| Text.AscendingIsUnique | ncbi.py:278-280 | two strictly ascending lists with the same elements are equal, so the menu does not depend on the set's iteration order |
| Base64Link.Utf8 | ncbi.py:39 | `str.encode()` gives 1 to 4 bytes per character |
| Base64Link.Utf8RoundTrip | ncbi.py:39 | decoding the UTF-8 bytes gives the text back |
| Base64Link.SextetOf | ncbi.py:39 | a Base64 character's value is below 64 and maps back to the character |
| Base64Link.SextetRoundTrip | ncbi.py:39 | every 6-bit value maps to a character and back |
| Base64Link.Encode | ncbi.py:39 | `b64encode` yields 4 characters per 3 bytes, the last group padded |
| Base64Link.Quad | ncbi.py:39 | one group of 3 bytes encodes to 4 characters |
| Base64Link.DecodeEncode | ncbi.py:39 | decoding the encoding of any bytes gives the bytes back |
| Base64Link.EncodeDecode | ncbi.py:39 | any text that decodes is the encoding of what it decodes to (strict decoding) |
| Base64Link.EncodeExample | ncbi.py:39 | "Man" encodes to "TWFu" |
| Base64Link.EncodePaddedExample | ncbi.py:39 | "Ma" encodes to "TWE=" |
| Base64Link.UpToQuote | ncbi.py:41 | the attribute value ends at the first `"` |
| Base64Link.EncodeHasNoQuote | ncbi.py:39-41 | the encoding never contains `"`, so it cannot end the attribute early |
| Base64Link.LinkRoundTrip | ncbi.py:22-41 | the link's data payload is the Base64 of the text's UTF-8 bytes, and decoding it gives the text back |
| Taxonomy.RankIndexIsLast | ncbi.py:86-88 | the rank dictionary maps a rank to the last lineage id carrying it, and misses exactly the absent ranks |
| Taxonomy.DesiredRanksOf | ncbi.py:74-102 | element 0 is the TaxID; the miss flag is 1 exactly when the lineage or rank lookup raises, and then the list is `[taxid]` |
| Taxonomy.GetDesiredRanks | ncbi.py:83-102 | the loop builds exactly `DesiredRanksOf` (the copy at app_v2_1_1_final.py:57-85 is the same loop) |
| Taxonomy.AppendEntries | ncbi.py:90-98 | appends to the list it is given each key's entry in key order (`Names`): the translated name, nothing when the translation raises, `<not present>` when the rank is missing |
| Taxonomy.NamesWhenTranslated | ncbi.py:90-98 | with every translation succeeding: one entry per rank, in desired-rank order; `<not present>` where the rank is missing, the translated name elsewhere |
| Taxonomy.NamesLength | ncbi.py:92-96 | a failed translation drops its entry: the list is shorter by exactly the number of ranks whose translation raised |
| Taxonomy.DesiredRanksComplete | ncbi.py:83-98 | for distinct ranks and succeeding lookups: 1 + \|ranks\| entries, marker or name per rank in order |
| Taxonomy.RankList.constructor | ncbi.py:115 | the caller's rank list |
| Taxonomy.RankList.InsertFront | ncbi.py:121 | `insert(0, x)` puts x in front of the old list |
| Taxonomy.LineageRows | ncbi.py:115-118 | one lineage list per TaxID, in order |
| Taxonomy.MissCountIsFailures | ncbi.py:113-120 | the miss counter is the number of TaxIDs whose lookup raised, hence at most the number of TaxIDs |
| Taxonomy.TaxIdLineageDf | ncbi.py:105-123 | one row per TaxID, the miss counter, and `'TaxID'` inserted in front of the caller's list (the copy at app_v2_1_1_final.py:88-106 does the same) |
| Stages.CompleteGenomes | ncbi.py:253-256 | the complete genomes, Status dropped, never more rows than the report |
| Stages.CompleteGenomesMembers | ncbi.py:253-256 | a staged row is exactly a complete-genome report row without its Status |
| Stages.CountChroPlas | ncbi.py:292-316 | one counted row per input row, in row order, carrying that row's Chromosome and Plasmid counts as `Counted` gives them; the nested copy at app_v2_1_1_final.py:316-340 is the same |
| Stages.CountLists | ncbi.py:299-310 | the loop appends, per row in row order, the Chromosome count and the Plasmid count of the row's Replicons cell |
| Stages.CountedIsOccurrences | ncbi.py:304-310 | a counted row holds the numbers of whole-word, case-insensitive occurrences of "chromosome" and "plasmid" in its Replicons cell |
| Stages.AllCountedAreOccurrences | ncbi.py:306-316 | every row of the counted table holds those two occurrence counts for its own Replicons cell |
| Stages.LineageTable | ncbi.py:122 | each lineage list becomes a row whose TaxID cell is its first entry |
| Stages.RankCells | ncbi.py:122 | a short lineage list gives null rank cells past its end |
| Stages.SelectUniqueRow | ncbi.py:335 | in a table with distinct TaxIDs, a TaxID matches exactly its own row |
| Stages.JoinedRowsMatchTable | ncbi.py:335 | every merged row's TaxID has a row in the lineage table, and its rank cells come from that row |
| Stages.JoinIsEnrichment | ncbi.py:331-335 | for any duplicate-free order of the TaxID set, the merge gives each row the lineage of its own TaxID, in the left table's row order (pandas 2.2 and later; see "## Left out") |
| Stages.EnrichAll | ncbi.py:325-349 | one enriched row per counted row, in order |
| Stages.MakingFinalDf | ncbi.py:318-351 | the merged, rewritten and coerced table is the per-row enrichment, in the left table's row order of pandas 2.2 and later (the nested copy at app_v2_1_1_final.py:347-379 is the same) |
| Stages.JoinOneRow | ncbi.py:335 | merging one row on TaxID against lineage lists headed by distinct TaxIDs yields exactly one merged row, built from the list of its own TaxID |
| Stages.ToGenome | ncbi.py:260 | a null-free row keeps its TaxID, download path and rank names |
| Stages.DropNa | ncbi.py:260 | exactly the null-free rows survive |
| Stages.PipelineIsReference | ncbi.py:253-262 | the staged pipeline equals the per-row reference (`Reference`/`Collect`) |
| Stages.LoadFromNcbi | ncbi.py:234-263 | the stages after the fetch produce exactly `Collect` of the report |
| Stages.CollectMembers | ncbi.py:253-262 | a genome is in the table exactly when some report row yields it |
| Stages.ReferenceCells | ncbi.py:253-262 | a surviving row had Status "Complete Genome"; its name, TaxID, Replicons and date are the report's; its path went through `change_ftp`; its numbers parsed; its counts are whole-word occurrences |
| Stages.ReferenceLineage | ncbi.py:331-335 | a surviving row's TaxID was found in the taxonomy database, and its seven rank names are that TaxID's lineage list |
| Stages.RankCellsFull | ncbi.py:122 | seven non-null rank cells come from a list of at least seven names |
| Stages.DesiredRanksAtMostEight | ncbi.py:87-98 | a lineage list for the seven ranks has at most eight entries |
| Stages.IncompleteLineageDropped | ncbi.py:122 | a row whose lineage list is short (lookup raised or a translation failed) never reaches the table |
| GroupCounts.GroupDepth | ncbi.py:52-63 | only Phylum…Species are accepted, with group-by prefixes of 2…7 rank columns |
| GroupCounts.CountTableMakerGroupby | ncbi.py:44-71 | an unknown rank name is an error (the group-by list is never bound) and only then |
| GroupCounts.CountTableProps | ncbi.py:65-71 | distinct groups of the rank prefix; each Count (≥ 1) is the group's genome count; the Counts sum to the genome count; every genome's group is listed; the Counts never increase |
| GroupCounts.TableRowsAreGroups | ncbi.py:65-71 | every row of the count table has a key of the rank prefix's length and a Count of at least one, equal to the number of genomes in that group |
| GroupCounts.TableListsEveryGenome | ncbi.py:65-71 | every genome's group has a row in the count table |
| GroupCounts.FindKey | ncbi.py:65 | the row of a group, if present |
| GroupCounts.TallyCounts | ncbi.py:65 | `groupby().size()` has one row per distinct key with its multiplicity, summing to the row count |
| GroupCounts.BumpCounts | ncbi.py:65 | counting one more genome keeps the table a count table |
| GroupCounts.SumAppend | ncbi.py:65 | the Count sum adds up over an appended row |
| GroupCounts.SumUpdate | ncbi.py:65 | the Count sum follows an updated row |
| GroupCounts.InsertDescProps | ncbi.py:69 | inserting a row keeps the table sorted by Count, descending, with the same rows and sum |
| GroupCounts.InsertDescDistinct | ncbi.py:69 | inserting a new group keeps the groups distinct |
| GroupCounts.SortDescProps | ncbi.py:69 | the descending sort is a permutation ordered by Count |
| GroupCounts.SortDescDistinct | ncbi.py:69 | sorting keeps the groups distinct |
| GroupCounts.Members | ncbi.py:65 | the size of a group is its multiplicity among the keys |
| GroupCounts.SortedTallyRows | ncbi.py:65-69 | each sorted row is a key with its multiplicity |
| GroupCounts.SortedTallyCovers | ncbi.py:65-69 | every key has a sorted row |
| Cache.Digits | ncbi.py:177 | `%Y`, `%m`, `%d` write fixed-width decimal digits |
| Cache.DigitsValue | ncbi.py:177 | digit strings read back to numbers below the width's bound |
| Cache.DigitsRoundTrip | ncbi.py:177 | reading a zero-padded number gives the number |
| Cache.ValueRoundTrip | ncbi.py:177 | writing a digit string's value at its width gives the string |
| Cache.CacheFilename | ncbi.py:174-178 | the name is `./cache/genome_df-YYYY-MM-DD.feather`, field by field |
| Cache.ParseCacheFilenameRoundTrip | ncbi.py:174-178 | the date can be read back from the name |
| Cache.ParseCacheFilenameOnlyNames | ncbi.py:174-178 | the only names that read as a date are the cache names |
| Cache.CacheFilenameInjective | ncbi.py:174-178 | distinct days have distinct cache files |
| Cache.FileStore.constructor | ncbi.py:185 | the files under the cache directory |
| Cache.FileStore.Write | ncbi.py:185 | `to_feather` writes or replaces one file and nothing else |
| Cache.LoadResult | ncbi.py:265-268 | a load returns the day's file when it exists, the fetched table otherwise |
| Cache.FilesAfterLoad | ncbi.py:265-269 | after a load the day's file holds the loaded table and no other file changes |
| Cache.SecondLoadHitsCache | ncbi.py:265-269 | a second load on the same day returns the first load's table and changes nothing |
| Cache.FilesAfterLoadAt | ncbi.py:265-269 | with the date (ncbi.py:175) read once for the lookup and again for the save: a hit changes nothing; a miss writes the fetched table under the save day's name unless that file exists; no other file changes |
| Cache.SameDayLoad | ncbi.py:265-269 | when both readings of the date agree, the store is the one `FilesAfterLoad` describes |
| Cache.MidnightLoadLeavesLookupMiss | ncbi.py:265-269 | a load that misses and saves on a later day leaves the lookup day's file absent, so another load that day fetches again |
| Engine.Filtered | ncbi.py:374-401 | the filtered view holds exactly the rows admitted by the taxonomic filter and every checked range, never more rows than the table |
| Engine.RankFiltered | ncbi.py:383-386 | `isin`: exactly the rows whose menu cell is a selected value |
| Engine.RangeFiltered | ncbi.py:391-398 | `between(..., inclusive='both')`: exactly the rows with lo ≤ cell ≤ hi |
| Engine.FilteredStart | ncbi.py:378-386 | before the loop the view is the taxonomic selection, the whole table when no value is selected |
| Engine.FilteredStep | ncbi.py:391-398 | each entry of the loop narrows by its range when checked and changes nothing otherwise |
| Engine.FilteredEnd | ncbi.py:391-398 | after the loop the view is the reference selection, whatever the insertion order |
| Engine.IsFilterInMeaning | ncbi.py:363-372 | `is_filter` is false exactly when no entry is active or raises; true only with an active entry; raises only over a taxonomic filter without values; without such a filter, true exactly when some filter is active |
| Engine.NoActiveFilterIsIdentity | ncbi.py:374-398 | with no active filter the view is the whole table |
| Engine.TaxMenu | ncbi.py:276-280 | a menu is strictly ascending and holds exactly the non-empty cells of its column |
| Engine.GetRange | ncbi.py:287-290 | (min, max) with min ≤ max, both attained, bounding every cell; none (NaN) on an empty table |
| Engine.RankColumnIndex | ncbi.py:127 | every rank column is one of `tax_item_texts` |
| Engine.FeatureColumnIndex | ncbi.py:140-171 | every numeric column is one of the size menus |
| Engine.NCBIdata.constructor | ncbi.py:128-138 | no table, no view, no filters, no menus |
| Engine.NCBIdata.ApplyFilter | ncbi.py:374-401 | only the view changes: without a table nothing happens; otherwise the view restarts from the table and becomes the reference selection, or the call raises KeyError when the taxonomic filter is missing |
| Engine.NCBIdata.NarrowByRanges | ncbi.py:391-398 | the loop narrows the view to the reference selection |
| Engine.NCBIdata.SetFilter | ncbi.py:353-356 | replaces only `filters[key]` (a new key goes last in the order), then re-applies the filters |
| Engine.NCBIdata.CalcTaxItems | ncbi.py:276-280 | every rank column gets its menu |
| Engine.NCBIdata.CalcRangeForSizeMenus | ncbi.py:282-285 | every numeric column gets its range |
| Engine.NCBIdata.SaveToCache | ncbi.py:180-185 | writes the day's file exactly when it is absent or overwriting is asked for; otherwise the store is unchanged |
| Engine.NCBIdata.LoadFromCache | ncbi.py:187-195 | the day's table when its file exists, none otherwise |
| Engine.NCBIdata.Load | ncbi.py:265-274 | fetches exactly on a cache miss for the lookup day, then saves under the date read at save time (`FilesAfterLoadAt`); returns the cached or built table; the menus and ranges are those of the table |
| Engine.NCBIdata.LoadTwice | ncbi.py:265-269 | after a load that looks up and saves on the same day, a second load that day does not fetch and returns the same table, whatever date its own save would read |
| AppSelect.SelectByValue | app_v2_1_1_final.py:153 | exactly the rows whose column equals the value |
| AppSelect.SelectAllMembers | app_v2_1_1_final.py:151-157 | a row is selected exactly when its cell is one of the selected values |
| AppSelect.MakingAllSelectGenomeDf | app_v2_1_1_final.py:133-178 | the selection value by value with the table's and the selection's row counts; the fixed messages for 0 and for more than 10 values; the caller's table unchanged |
| AppSelect.GenomeFrame.constructor | app_v2_1_1_final.py:133 | the caller's table with intact count columns |
| AppSelect.Nulls | app_v2_1_1_final.py:166-167 | assigning a column of an empty frame leaves NaN in every row |
| AppSelect.MakingAllSelectGenomeDfAsWritten | app_v2_1_1_final.py:144-170 | the same outcome, and a non-empty selection turns the caller's Chromosome and Plasmid columns into NaN |
| AppSelect.NullingExample | app_v2_1_1_final.py:161-167 | in any one-genome table (E. coli K-12 in Bacteria, say), selecting the genome's own superkingdom finds it and turns its Chromosome cell from its count into NaN |
| AppSelect.InAllRanges | app_v2_1_1_final.py:288-296 | exactly the rows inside every selected range, never more than the table |
| AppSelect.FirstFeature | app_v2_1_1_final.py:290-292 | the first range selects from the table |
| AppSelect.NextFeature | app_v2_1_1_final.py:293-296 | each further range narrows the selection |
| AppSelect.FeatureOrderIrrelevant | app_v2_1_1_final.py:289 | the selection depends only on which ranges are selected, not on their order |
| AppSelect.GenomeSelectorFeatures | app_v2_1_1_final.py:274-302 | the message exactly when no feature is selected; otherwise the rows inside every range, the table's and the selection's row counts, the count at most the total |

## Left out

- Fetching the report (`pd.read_table` on the NCBI URL) is not modelled: the report is a parameter, one text cell per column read. A missing cell, which pandas reads as NaN, is not modelled; it would make the regex counter raise.
- The taxonomy database (ete3's `NCBITaxa`) is a `Service` of partial functions; "raises" is `None`.
- `pd.to_numeric(errors='coerce')` is an abstract `Parse` from text to an optional real; the float grammar is not modelled.
- Feather files are a map from file name to table. `os.makedirs`, the feather format and `set_index('index')` are not modelled.
- Each reading of `date.today()` is a parameter: `Engine.NCBIdata.Load` takes the date of the cache lookup and the date of the save separately. Years before 1000 are excluded, because `strftime("%Y")` pads them differently across platforms.
- pandas index bookkeeping (`reset_index`, `reindex`, renaming) is not modelled: tables are ordered sequences of records, one record type per stage.
- `DataFrame.from_dict(orient='index', columns=...)` raises when no lineage list reaches all eight columns; the model takes it that some list does, and pads the short ones with nulls.
- Streamlit memoisation (`st.cache`, `st.cache_data`) is not modelled. On a cache hit it skips the function body, including the in-place `insert` into the caller's rank list.
- `print`/`pprint`, `__repr__`, `processing()`, `save_df` and `load_df` are debugging and snapshot code with no effect on the results.
- `download_link` of a DataFrame (`to_csv`) is not modelled; only the text input is.
- A text that holds a lone surrogate (which makes `str.encode()` raise) cannot occur in the model, because Dafny characters are Unicode scalar values.
- Text.CountWord: treats only ASCII letters, digits and `_` as word characters and folds only ASCII case. Python's `\b` and `re.IGNORECASE` on `str` are Unicode-aware.
- GroupCounts.CountTableMakerGroupby: the order among groups with equal Count is not stated. `groupby` sorts the keys but `sort_values` uses a sort that is not stable. The model tallies groups in order of first appearance, so only the descending order by Count is proved.
- Engine.NCBIdata.SetFilter: requires that only the `'Taxonomic Ranks'` key holds a taxonomic filter and every other key a range filter. That is the shape the interface sets; other dictionary shapes are not modelled.
- Engine.IsFilterIn: `is_filter` returns `None` when no filter is active; the model answers `Ok(false)`.
- Engine.GetRange: the NaN pair of an empty column is `None`.
- Stages.MakingFinalDf: the application's copy (app_v2_1_1_final.py:347-379) does not coerce the Size column. Its loader reads the report with pandas' default dtypes, so that column is already numeric. Both copies are modelled by the same `Parse`.
- The interface code (`main()` of app_v2_1_1_final.py, main.py), the plots of charts.py and the application's `load_data` and `dropna` calls in `main()` are not part of this model. The pipeline they run is the one in `Stages`.
- Concurrency and reruns of the web interface are not modelled.
- Stages.InnerJoin: follows the row order pandas 2.2 and later give an inner `merge`, the left table's order. Earlier pandas (the 1.x releases that Streamlit versions with `st.beta_expander` ran on) groups the merged rows by TaxID in order of first appearance, so left TaxIDs A, B, A come out as A, A, B. The set of merged rows is the same.
- Stages.JoinIsEnrichment: the row order it states is that of pandas 2.2 and later, as for `Stages.InnerJoin`; with earlier pandas the merged table is a permutation of the enriched rows.
- Stages.MakingFinalDf: inherits the row order of `Stages.InnerJoin`, that of pandas 2.2 and later.

## Findings

| source | as written | input that shows it | evidently intended | confidence | as-written member | corrected member |
|---|---|---|---|---|---|---|
| app_v2_1_1_final.py:161-167 | When the selection has rows, the caller's Chromosome and Plasmid columns are assigned from `final_all_selected_genome`, the empty frame built at line 145. Index alignment turns both columns of the caller's table into NaN. | A one-genome table (superkingdom "Bacteria", one chromosome) with values `["Bacteria"]` on the superkingdom column: the selection finds the genome, and the caller's Chromosome cell goes from 1 to NaN. | Coerce the count columns of the selected rows and leave the caller's table as it is. | not executed | AppSelect.MakingAllSelectGenomeDfAsWritten, AppSelect.NullingExample | AppSelect.MakingAllSelectGenomeDf |
