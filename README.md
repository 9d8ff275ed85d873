# Genie-analysis mutation-frequency comparison, modelled in Dafny

This project models the mutation-frequency comparison pipeline of Sage-Bionetworks
Genie-analysis. The pipeline compares the AACR Project GENIE consortium cohort with the TCGA
reference cohort, per cancer type and per gene. Each stage is a Dafny module:

- `ReleaseParsing` (release_parser.dfy) covers the `ReleaseParser` class. It holds the oncotree
  code → rollup code map, the samples with their rollup column, the panel → gene set map read from
  `key:value` panel files, and the sample → panel map. It is a class whose parse methods assign
  its fields.
- `GenieAnalysis` (genie_analysis.dfy) covers the consortium side. It resolves rollup codes and
  selects a cancer type's samples. It keeps SNP rows only and drops mutations off the sample's
  panel, raising KeyError for an unknown panel. It then computes, per gene, the mutated samples
  over all of the cancer type's samples, and counts samples per cancer code.
- `TcgaAnalysis` (tcga_analysis.dfy) covers the post-processing of the reference cohort's query
  result. This is the TERT substitution from the PCAWG-restricted query, plus the PCAWG whitelist.
- `Comparison` (comparison.dfy) covers the inner join on `Hugo_Symbol` and the output path. It
  also covers the two row filters that work on pandas index labels: the sample-count-by-gene
  filter and the 40-row cancer-type distribution.
- `Deviation` (deviation.dfy) covers the distance of each (reference, consortium) frequency point
  from the diagonal and its weighted variant. It also covers RMSD and weighted RMSD per cancer
  type, the per-gene aggregation over the written result files, and the ranked-table filters.
- `LabelSelection` (labels.dfy) covers which scatter points get a gene label. The same policy
  appears in `handle_deviations` and in `Plot.mutation_frequencies`. The module also covers the
  plot title rule and the sample-count annotation threshold.
- `ReleaseUtils` (release_utils.dfy) covers release-folder and release-file selection by name.
- `Common`, `Seqs` and `Text` hold the Result type and the Python idioms the models use:
  `unique().tolist()`, counting, `str.split`, `strip` and `upper` (for ASCII text), `in` and `startswith`.

Frequencies are `real`. A point's distance to the diagonal, |x − y|·sin 45°, is kept symbolic
as `Diagonal(|x − y|)`. Its square is exactly (x − y)²/2, so mean squares are exact. `sqrt`
followed by `round(·, 2)` is the uninterpreted wrapper `RoundedRoot(meanSquare)`. Where the
source divides by the length of an empty list, the model returns `Err(ZeroDivisionError)`. A
missing dictionary key gives `Err(KeyError(..))`, and a missing split piece gives
`Err(IndexError)`.

Where the code departs from its comments or from a naive reading, the model follows the code:

- The consortium denominator counts all of a cancer type's samples, panel coverage or not.
- The rollup column is `None` on a lookup miss, while the query-code resolution falls back to the
  code itself.
- The weighted error scales by max(x, y)/100 on both branches, so it is symmetric in x and y.
- `genie_oncotree_distribution` keeps the rows whose index label is below 40. These are the first
  40 codes in first-appearance order, not the 40 largest counts its comment mentions.

## Model

| member | source | states |
|---|---|---|
| ReleaseParsing.RollupMapDomain | supp_fig_s3_and_s4_tcga_comparison/python/release_parser.py:55-59 | a code is mapped iff it is listed in some group's rollup codes |
| ReleaseParsing.RollupMapLastGroupWins | supp_fig_s3_and_s4_tcga_comparison/python/release_parser.py:55-59 | a code maps to the consortium code of the last group listing it |
| ReleaseParsing.AddGroupCodesLookup | supp_fig_s3_and_s4_tcga_comparison/python/release_parser.py:58-59 | adding a group maps each of its codes to its code and leaves other keys as they were |
| ReleaseParsing.ReleaseParser.ParseOncotreeCodes | supp_fig_s3_and_s4_tcga_comparison/python/release_parser.py:50-60 | the loop leaves `oncotreeCodes` equal to the group map |
| ReleaseParsing.WithRollup | supp_fig_s3_and_s4_tcga_comparison/python/release_parser.py:73-80 | a sample keeps its fields; its rollup code is None iff its code is unmapped, else the mapped code |
| ReleaseParsing.ReleaseParser.ParseSamples | supp_fig_s3_and_s4_tcga_comparison/python/release_parser.py:69-82 | one sample per row, in row order, each with its rollup column |
| ReleaseParsing.ReleaseParser.ParseMutations | supp_fig_s3_and_s4_tcga_comparison/python/release_parser.py:63-66 | the mutation rows are stored as read |
| ReleaseParsing.ApplyPanelLineFails | supp_fig_s3_and_s4_tcga_comparison/python/release_parser.py:103-108 | a panel line raises IndexError iff it is a bare `stable_id` or `gene_list` with no ':' |
| ReleaseParsing.ParsePanelLinesFails | supp_fig_s3_and_s4_tcga_comparison/python/release_parser.py:99-108 | reading a panel file fails iff one of its lines is such a bare key |
| ReleaseParsing.ParsePanelLinesErrorIsIndex | supp_fig_s3_and_s4_tcga_comparison/python/release_parser.py:103-108 | the only error reading a panel file can raise is IndexError |
| ReleaseParsing.ReadPanelFile | supp_fig_s3_and_s4_tcga_comparison/python/release_parser.py:99-108 | the per-line loop over one panel file computes the parsed id and genes, or the IndexError |
| ReleaseParsing.LastKeyed | supp_fig_s3_and_s4_tcga_comparison/python/release_parser.py:101-108 | finds the last line with a given key, or reports that none has it |
| ReleaseParsing.ParsedPanelIdIsLast | supp_fig_s3_and_s4_tcga_comparison/python/release_parser.py:99-105 | the panel id is the stripped, upper-cased second ':' piece of the last `stable_id` line, or "" without one |
| ReleaseParsing.ParsedGenesAreLast | supp_fig_s3_and_s4_tcga_comparison/python/release_parser.py:100-108 | the genes are the tab-split, stripped, upper-cased value of the last `gene_list` line, or none without one |
| ReleaseParsing.GeneNamesNormalised | supp_fig_s3_and_s4_tcga_comparison/python/release_parser.py:108 | every parsed gene name is upper-case and holds no tab |
| ReleaseParsing.PanelGenesDomain | supp_fig_s3_and_s4_tcga_comparison/python/release_parser.py:97-110 | a panel id is a key iff some file's parsed id is that id |
| ReleaseParsing.PanelGenesLastFileWins | supp_fig_s3_and_s4_tcga_comparison/python/release_parser.py:110 | a panel's gene set comes from the last file with that id |
| ReleaseParsing.PanelGenesOkFiles | supp_fig_s3_and_s4_tcga_comparison/python/release_parser.py:97-110 | when the whole read succeeds, every file parsed |
| ReleaseParsing.ReleaseParser.ParsePanelGenes | supp_fig_s3_and_s4_tcga_comparison/python/release_parser.py:93-111 | succeeds iff every file parses, and then stores the panel map |
| ReleaseParsing.SamplePanelMapLastRowWins | supp_fig_s3_and_s4_tcga_comparison/python/release_parser.py:119-120 | a sample id is a key iff some row has it, and maps to the assay id of its last row, verbatim |
| ReleaseParsing.ReleaseParser.CreateSamplePanelDict | supp_fig_s3_and_s4_tcga_comparison/python/release_parser.py:116-121 | the loop leaves `samplePanels` equal to the sample → panel map |
| ReleaseParsing.ReleaseParser.ParseAll | supp_fig_s3_and_s4_tcga_comparison/python/release_parser.py:30-37 | the parse steps in order; when panel parsing raises, the sample → panel map is not built |
| GenieAnalysis.RollupResolutionVsColumn | supp_fig_s3_and_s4_tcga_comparison/python/genie_analysis.py:71-83 | resolution returns the mapped code on a hit and the code itself on a miss, where the column holds None |
| GenieAnalysis.SelectedIds | supp_fig_s3_and_s4_tcga_comparison/python/genie_analysis.py:86-91 | an id is selected iff some sample with it has the code (or rollup code) exactly |
| GenieAnalysis.UniqueSamplesByCancerCode | supp_fig_s3_and_s4_tcga_comparison/python/genie_analysis.py:86-91 | the selected ids without repeats |
| GenieAnalysis.SnpMutationsOfMeaning | supp_fig_s3_and_s4_tcga_comparison/python/genie_analysis.py:95-98 | keeps, in order and with multiplicity, exactly the SNP rows of selected samples |
| GenieAnalysis.SnpMutationsOfKeepsAll | supp_fig_s3_and_s4_tcga_comparison/python/genie_analysis.py:95-98 | a table of selected SNP rows is kept whole |
| GenieAnalysis.SnpOnly | supp_fig_s3_and_s4_tcga_comparison/python/genie_analysis.py:118 | keeps exactly the SNP rows, in order |
| GenieAnalysis.SnpOnlyKeepsSnps | supp_fig_s3_and_s4_tcga_comparison/python/genie_analysis.py:118 | the final SNP filter is idempotent |
| GenieAnalysis.KeepOnPanelMeaning | supp_fig_s3_and_s4_tcga_comparison/python/genie_analysis.py:107-115 | keeps, in order, the rows whose gene is on their sample's panel; an unknown sample or panel is a KeyError |
| GenieAnalysis.KeepOnPanelErrors | supp_fig_s3_and_s4_tcga_comparison/python/genie_analysis.py:107-115 | succeeds iff every row's sample and panel are known; on failure the error is the KeyError of the first row that is not |
| GenieAnalysis.KeepOnPanelOrder | supp_fig_s3_and_s4_tcga_comparison/python/genie_analysis.py:107-115 | the kept rows are an ordered subsequence of the rows |
| GenieAnalysis.KeepOnPanelCounts | supp_fig_s3_and_s4_tcga_comparison/python/genie_analysis.py:107-115 | each row is kept exactly as often as it occurs when its gene is on its panel, and never otherwise |
| GenieAnalysis.OffPanelRows | supp_fig_s3_and_s4_tcga_comparison/python/genie_analysis.py:107-113 | the first loop raises the filter's KeyError, or collects exactly the positions of the off-panel rows |
| GenieAnalysis.DropRows | supp_fig_s3_and_s4_tcga_comparison/python/genie_analysis.py:114-115 | dropping exactly the off-panel positions gives the in-panel filter |
| GenieAnalysis.KeepOnPanelKeepsAll | supp_fig_s3_and_s4_tcga_comparison/python/genie_analysis.py:107-115 | rows all on their panels are kept whole |
| GenieAnalysis.KeepOnPanelErrPersists | supp_fig_s3_and_s4_tcga_comparison/python/genie_analysis.py:110-111 | the first failed lookup decides the error |
| GenieAnalysis.MutationsInPanelMeaning | supp_fig_s3_and_s4_tcga_comparison/python/genie_analysis.py:102-118 | the result is an ordered subsequence of the mutations, of selected samples' SNPs on their panels |
| GenieAnalysis.MutationsInPanel | supp_fig_s3_and_s4_tcga_comparison/python/genie_analysis.py:102-118 | the drop-list loop computes the in-panel filter |
| GenieAnalysis.MutatedSamplesMeaning | supp_fig_s3_and_s4_tcga_comparison/python/genie_analysis.py:140-141 | the distinct barcodes of a gene's rows |
| GenieAnalysis.InPanelRowsAreSelected | supp_fig_s3_and_s4_tcga_comparison/python/genie_analysis.py:135-141 | every counted mutated sample is one of the cancer type's samples |
| GenieAnalysis.InPanelRowsHaveSamples | supp_fig_s3_and_s4_tcga_comparison/python/genie_analysis.py:142 | a non-empty mutation table implies a non-zero denominator |
| GenieAnalysis.FrequencyRows | supp_fig_s3_and_s4_tcga_comparison/python/genie_analysis.py:139-144 | one frequency row per gene, in gene order |
| GenieAnalysis.MutationFrequencyByCancerCode | supp_fig_s3_and_s4_tcga_comparison/python/genie_analysis.py:124-148 | the method computes the frequency table, including its error cases |
| GenieAnalysis.GeneFrequencies | supp_fig_s3_and_s4_tcga_comparison/python/genie_analysis.py:139-144 | the per-gene loop fills the rows of FrequencyRows |
| GenieAnalysis.FrequencyTableRows | supp_fig_s3_and_s4_tcga_comparison/python/genie_analysis.py:139-144 | gene count ≤ total, fraction in [0, 1], frequency = 100 × fraction, total = all samples of the code |
| GenieAnalysis.FrequencyTableGenes | supp_fig_s3_and_s4_tcga_comparison/python/genie_analysis.py:137-147 | exactly one row per distinct gene of the in-panel mutations, in first-appearance order |
| GenieAnalysis.FrequencyTableErrors | supp_fig_s3_and_s4_tcga_comparison/python/genie_analysis.py:110-147 | the table fails exactly when a panel lookup fails or no in-panel mutation remains (five column names for an empty frame) |
| GenieAnalysis.DenominatorIgnoresPanelCoverage | supp_fig_s3_and_s4_tcga_comparison/python/genie_analysis.py:135-142 | a sample off every panel still counts in the denominator |
| GenieAnalysis.CodeKey | supp_fig_s3_and_s4_tcga_comparison/python/genie_analysis.py:158 | the count key is upper-case |
| GenieAnalysis.SampleCountByCancerType | supp_fig_s3_and_s4_tcga_comparison/python/genie_analysis.py:150-164 | ValueError iff there are no samples (two column names for the one-column frame of an empty count); otherwise one positive count per distinct upper-cased key, each the key's number of rows, the counts summing to the number of samples |
| GenieAnalysis.CountKeys | supp_fig_s3_and_s4_tcga_comparison/python/genie_analysis.py:156-162 | the counting loop yields the distinct keys in first-appearance order, each mapped to its number of occurrences |
| TcgaAnalysis.FirstTert | supp_fig_s3_and_s4_tcga_comparison/python/tcga_analysis.py:59-61 | the first TERT row's position |
| TcgaAnalysis.MutationFrequencyByCancerCode | supp_fig_s3_and_s4_tcga_comparison/python/tcga_analysis.py:24-79 | substitutes only when TERT is present, both frequencies are non-zero and they differ; then the TERT rows get the restricted frequency in the fraction column and the restricted counts, and everything else is unchanged |
| TcgaAnalysis.TertOverrideBreaksConsistency | supp_fig_s3_and_s4_tcga_comparison/python/tcga_analysis.py:73-75 | consistent inputs whose substituted row has fraction 10.0 ≠ gene count / total |
| TcgaAnalysis.CorrectedTertOverrideConsistent | supp_fig_s3_and_s4_tcga_comparison/python/tcga_analysis.py:73-75 | writing the restricted fraction and frequency keeps every row consistent and other genes unchanged |
| TcgaAnalysis.PcawgWhitelist | supp_fig_s3_and_s4_tcga_comparison/python/tcga_analysis.py:113-117 | the union of specimen and donor ids |
| Comparison.MatchesOfMeaning | supp_fig_s3_and_s4_tcga_comparison/python/tcga_genie_comparison.py:213 | one reference row's matches are its combinations with the consortium rows of the same gene |
| Comparison.JoinMeaning | supp_fig_s3_and_s4_tcga_comparison/python/tcga_genie_comparison.py:213 | a joined row is exactly a combination of a reference row and a consortium row with the same gene |
| Comparison.JoinGenes | supp_fig_s3_and_s4_tcga_comparison/python/tcga_genie_comparison.py:213 | a gene appears in the join iff it is in both cohorts |
| Comparison.FindOutpathInjective | supp_fig_s3_and_s4_tcga_comparison/python/tcga_genie_comparison.py:289-293 | equal outpaths iff same version and same rollup flag |
| Comparison.DropTert | supp_fig_s3_and_s4_tcga_comparison/python/tcga_genie_comparison.py:225 | removes exactly the TERT rows and keeps the rest in order |
| Comparison.DropTertUniqueLabels | supp_fig_s3_and_s4_tcga_comparison/python/tcga_genie_comparison.py:225 | dropping rows keeps index labels unique |
| Comparison.LabelledUnique | supp_fig_s3_and_s4_tcga_comparison/python/tcga_genie_comparison.py:213 | a fresh merge result has unique labels below its length |
| Comparison.SampleCountsByGene | supp_fig_s3_and_s4_tcga_comparison/python/tcga_genie_comparison.py:237-251 | the drop-list loop keeps exactly the rows with a count above 5 and index label below 40 |
| Comparison.DropByLabelIsFilter | supp_fig_s3_and_s4_tcga_comparison/python/tcga_genie_comparison.py:251 | with unique labels, dropping the collected labels is that filter |
| Comparison.KeptForGeneCountsMeaning | supp_fig_s3_and_s4_tcga_comparison/python/tcga_genie_comparison.py:243-249 | the kept rows are an ordered subsequence, holding a row iff (tcga > 5 or genie > 5) and label < 40 |
| Comparison.GenieOncotreeDistribution | supp_fig_s3_and_s4_tcga_comparison/python/tcga_genie_comparison.py:272-281 | keeps the first 40 codes in insertion order (all of them when there are at most 40) |
| Deviation.PointError | supp_fig_s3_and_s4_tcga_comparison/python/tcga_genie_comparison.py:183-196 | the distance is non-negative, zero iff x = y, and its square is (x − y)²/2 |
| Deviation.WeightedError | supp_fig_s3_and_s4_tcga_comparison/python/tcga_genie_comparison.py:184-196 | the weighted distance is the distance scaled by max(x, y)/100, hence zero when x = y |
| Deviation.WeightedErrorBounded | supp_fig_s3_and_s4_tcga_comparison/python/tcga_genie_comparison.py:187-196 | for frequencies in [0, 100], 0 ≤ weighted distance ≤ distance |
| Deviation.ErrorsSymmetric | supp_fig_s3_and_s4_tcga_comparison/python/tcga_genie_comparison.py:187-196 | both distances are symmetric in x and y |
| Deviation.SquaredDifference | supp_fig_s3_and_s4_tcga_comparison/python/tcga_genie_comparison.py:199 | (x − y)² is non-negative and zero on the diagonal |
| Deviation.SumSquaresOfErrors | supp_fig_s3_and_s4_tcga_comparison/python/tcga_genie_comparison.py:199 | the sum of squared distances is half the sum of squared differences |
| Deviation.SumSquaredDifferencesZero | supp_fig_s3_and_s4_tcga_comparison/python/tcga_genie_comparison.py:199 | the sum is non-negative, and zero when every point is on the diagonal |
| Deviation.MeanSquareOfErrors | supp_fig_s3_and_s4_tcga_comparison/python/tcga_genie_comparison.py:199-200 | MSE = Σ(x − y)² / 2n, non-negative, zero when every point is on the diagonal |
| Deviation.WeightedNotAbove | supp_fig_s3_and_s4_tcga_comparison/python/tcga_genie_comparison.py:199-203 | for frequencies in [0, 100], the weighted MSE never exceeds the MSE |
| Deviation.RmsdByCancerType | supp_fig_s3_and_s4_tcga_comparison/python/tcga_genie_comparison.py:176-206 | ZeroDivisionError iff the result is empty; otherwise RMSD's mean square is Σ(x − y)² / 2n |
| Deviation.ScannedLinesSplit | supp_fig_s3_and_s4_tcga_comparison/python/tcga_genie_comparison.py:126-131 | scanning a file list reads the lines of any prefix, then those of the rest |
| Deviation.CollectLinesOk | supp_fig_s3_and_s4_tcga_comparison/python/tcga_genie_comparison.py:131-137 | collecting succeeds iff every scanned line has at least eight tab-separated fields |
| Deviation.CollectLinesErrorIsIndex | supp_fig_s3_and_s4_tcga_comparison/python/tcga_genie_comparison.py:131-134 | a short line is an IndexError |
| Deviation.CollectLinesErrPersists | supp_fig_s3_and_s4_tcga_comparison/python/tcga_genie_comparison.py:131-134 | the first short line ends the read |
| Deviation.CollectLinesOrder | supp_fig_s3_and_s4_tcga_comparison/python/tcga_genie_comparison.py:134-137 | the genes come in first-appearance order, without repeats |
| Deviation.CollectLinesPairs | supp_fig_s3_and_s4_tcga_comparison/python/tcga_genie_comparison.py:131-137 | each gene's list holds the (field 3, field 7) pairs of its lines, in order |
| Deviation.PairsForCount | supp_fig_s3_and_s4_tcga_comparison/python/tcga_genie_comparison.py:134-137 | a gene has as many pairs as lines |
| Deviation.PairsForAbsent | supp_fig_s3_and_s4_tcga_comparison/python/tcga_genie_comparison.py:134-137 | a gene missing from the dictionary has no lines |
| Deviation.ParsePairs | supp_fig_s3_and_s4_tcga_comparison/python/tcga_genie_comparison.py:145-147 | succeeds iff every field converts, pointwise; otherwise ValueError |
| Deviation.ParseFrequencies | supp_fig_s3_and_s4_tcga_comparison/python/tcga_genie_comparison.py:145-147 | the conversion loop computes ParsePairs |
| Deviation.DeviationsMeaning | supp_fig_s3_and_s4_tcga_comparison/python/tcga_genie_comparison.py:139-173 | succeeds iff every non-header gene's fields convert; then one row per non-header gene, in order, each the deviation (count, error sum, RMSD, weighted RMSD) of that gene's own pairs |
| Deviation.DeviationsOk | supp_fig_s3_and_s4_tcga_comparison/python/tcga_genie_comparison.py:139-147 | the deviation table succeeds iff the pairs of every non-header gene convert |
| Deviation.DeviationsRows | supp_fig_s3_and_s4_tcga_comparison/python/tcga_genie_comparison.py:139-173 | on success there is one row per non-header gene, in order, and each row is the deviation of that gene's own converted pairs: count, error sum, RMSD and weighted RMSD |
| Deviation.ParsePairsErrPersists | supp_fig_s3_and_s4_tcga_comparison/python/tcga_genie_comparison.py:145-147 | a failed conversion in a prefix of a gene's pairs fails the whole conversion |
| Deviation.DeviationsErrPersists | supp_fig_s3_and_s4_tcga_comparison/python/tcga_genie_comparison.py:145-147 | the first failed conversion decides the result |
| Deviation.RmsdByGeneMeaning | supp_fig_s3_and_s4_tcga_comparison/python/tcga_genie_comparison.py:124-174 | a short line is an IndexError; on success the genes are the distinct field-1 values other than the header, each counted once per line, and each row's error sum, RMSD and weighted RMSD are over the points of that gene's lines |
| Deviation.LineDeviations | supp_fig_s3_and_s4_tcga_comparison/python/tcga_genie_comparison.py:131-173 | for well-formed lines, each deviation row counts its gene's lines and is computed from the points of exactly those lines |
| Deviation.RmsdByGene | supp_fig_s3_and_s4_tcga_comparison/python/tcga_genie_comparison.py:124-174 | the nested loops compute RmsdByGeneOf |
| Deviation.ReadGeneTable | supp_fig_s3_and_s4_tcga_comparison/python/tcga_genie_comparison.py:126-137 | the file and line loops, skipping `rmsd`/`RMSD` paths, collect the scanned lines |
| Deviation.ReadStopsAt | supp_fig_s3_and_s4_tcga_comparison/python/tcga_genie_comparison.py:131-132 | reaching a short line makes the whole read an IndexError |
| Deviation.AtLeastThreeCancerTypes | supp_fig_s3_and_s4_tcga_comparison/python/tcga_genie_comparison.py:86-87 | removes exactly the genes seen in fewer than 3 cancer types, keeping order |
| Deviation.WithoutTertGene | supp_fig_s3_and_s4_tcga_comparison/python/tcga_genie_comparison.py:97 | removes exactly the TERT row, keeping order |
| LabelSelection.RowsWhere | supp_fig_s3_and_s4_tcga_comparison/python/tcga_genie_comparison.py:360-390 | the row positions meeting a condition, increasing |
| LabelSelection.SecondaryLeftoverPartition | supp_fig_s3_and_s4_tcga_comparison/python/plot.py:80-83 | every row is in exactly one of the secondary and leftover lists, which together have one entry per row |
| LabelSelection.ClassifyRows | supp_fig_s3_and_s4_tcga_comparison/python/plot.py:71-96 | the classification loop puts the primary rows in the labels and spent lists, and yields the secondary and leftover rows |
| LabelSelection.LabelRows | supp_fig_s3_and_s4_tcga_comparison/python/tcga_genie_comparison.py:360-428 | the classification loop and both top-ups compute the selection with the stale spent index |
| LabelSelection.TopUpLabels | supp_fig_s3_and_s4_tcga_comparison/python/plot.py:101-116 | the pop-front loop computes one top-up |
| LabelSelection.TopUpExtends | supp_fig_s3_and_s4_tcga_comparison/python/tcga_genie_comparison.py:395-428 | a top-up only appends unspent candidates, reaching at most limit + 1 labels |
| LabelSelection.TopUpDistinct | supp_fig_s3_and_s4_tcga_comparison/python/tcga_genie_comparison.py:395-428 | a top-up never labels a row twice |
| LabelSelection.SelectLabelsMeaning | supp_fig_s3_and_s4_tcga_comparison/python/plot.py:86-136 | primary rows come first in row order and are all labelled, no row twice, at most max(primaries, 9) labels |
| LabelSelection.SelectLabelsPrimaryFirst | supp_fig_s3_and_s4_tcga_comparison/python/plot.py:86-136 | the primary rows are the first labels, and each top-up only appends |
| LabelSelection.SelectLabelsAllPrimary | supp_fig_s3_and_s4_tcga_comparison/python/plot.py:86-96 | every primary row is labelled |
| LabelSelection.SelectLabelsDistinct | supp_fig_s3_and_s4_tcga_comparison/python/plot.py:86-136 | no row is labelled twice |
| LabelSelection.SelectLabelsAreRows | supp_fig_s3_and_s4_tcga_comparison/python/plot.py:86-136 | every label is a row position |
| LabelSelection.SelectLabelsBound | supp_fig_s3_and_s4_tcga_comparison/python/plot.py:86-136 | at most max(number of primaries, 9) rows are labelled |
| LabelSelection.StaleTopUpInOrder | supp_fig_s3_and_s4_tcga_comparison/python/plot.py:101-116 | as written, when the candidates it reaches are unspent and differ from the recorded row, a top-up appends them in order until limit + 1 labels |
| LabelSelection.StaleIndexSkipsLastRow | supp_fig_s3_and_s4_tcga_comparison/python/plot.py:112-113 | two secondary rows: as written only row 0 is labelled, corrected both |
| LabelSelection.CorrectedTopUp | supp_fig_s3_and_s4_tcga_comparison/python/plot.py:101-116 | recording the labelled row, a top-up adds the unlabelled candidates in order until limit + 1 labels |
| LabelSelection.CorrectedSecondaryStage | supp_fig_s3_and_s4_tcga_comparison/python/tcga_genie_comparison.py:395-410 | the corrected secondary top-up tops the primaries up to nine with unlabelled secondary rows in order |
| LabelSelection.FractionsMeetNoThreshold | supp_fig_s3_and_s4_tcga_comparison/python/plot.py:76-96 | values in [0, 1] are never primary or secondary |
| LabelSelection.FractionThresholdsMissOutlier | supp_fig_s3_and_s4_tcga_comparison/python/plot.py:76-96 | a 100% vs 0% gene at row 4 of five is not labelled when compared as fractions |
| LabelSelection.PlotLabelsAsWrittenOnFractions | supp_fig_s3_and_s4_tcga_comparison/python/plot.py:76-136 | with all fractions in [0, 1], the plot labels at most four rows and none of them is an outlier by the thresholds |
| LabelSelection.PlotLabelsOutliers | supp_fig_s3_and_s4_tcga_comparison/python/plot.py:86-96 | on percentages, every outlier row is labelled, outliers first and in row order, no row twice |
| LabelSelection.PercentThresholdsLabelOutlier | supp_fig_s3_and_s4_tcga_comparison/python/tcga_genie_comparison.py:374-384 | the same gene compared as percentages is labelled first |
| LabelSelection.MutationFrequencyTitle | supp_fig_s3_and_s4_tcga_comparison/python/plot.py:40-43 | LGG names "LGGNOS,DIFG"; other codes name the consortium code; both end with the reference code |
| LabelSelection.TitlesAgree | supp_fig_s3_and_s4_tcga_comparison/python/tcga_genie_comparison.py:340 | the two plots' titles agree iff the reference code is not LGG or the consortium code is "LGGNOS,DIFG" |
| LabelSelection.AnnotatedCancerTypes | supp_fig_s3_and_s4_tcga_comparison/python/plot.py:199-202 | a cancer type is annotated iff its totals differ by more than 500, in row order |
| ReleaseUtils.ReleaseToken | Python/utils.py:24-29 | the token holds no space, and is the whole name when the name has none |
| ReleaseUtils.ReleaseTokenIsSecondWord | Python/utils.py:24-29 | the token of a name with a space is the word after the first space |
| ReleaseUtils.GetAvailableReleases | Python/utils.py:21-35 | the loop builds the release map |
| ReleaseUtils.ReleaseMapKeys | Python/utils.py:30-31 | a token is a key iff it holds '.' or '-' and some row has it |
| ReleaseUtils.ReleaseMapLastWins | Python/utils.py:31 | a key maps to the id of the last row with that token |
| ReleaseUtils.GetGenieFile | Python/utils.py:93-106 | ValueError iff the file type is not one of the four allowed; otherwise the filtered name → path map |
| ReleaseUtils.GenieFileMapKeys | Python/utils.py:100-104 | a name is a key iff it contains the file type, does not start with "meta", and some child has it |
| ReleaseUtils.GenieFileMapLastWins | Python/utils.py:104 | a name maps to the path of its last child |
| ReleaseUtils.MetaFilesExcluded | Python/utils.py:102 | metadata files are never returned |

## Left out

- File, JSON, CSV and TSV reading and writing, `glob`, `load_dotenv`, directory creation, timing
  and `print`: lines, rows and file lists are inputs.
- The BigQuery and Synapse calls and the SQL text: their results are input sequences. This
  includes the `name <> 'case_lists'` condition in the release query and `syn.get`, whose path is
  part of each child record.
- All matplotlib and `adjust_text` calls. The model stops at which rows are labelled, the title
  text and which cancer types are annotated.
- `sort_values`: it only reorders rows for display. The row filters drop by index label, and the
  labels are the merge positions, so the model keeps rows in merge order.
- `process_data` and `execute` orchestration. This includes the loop over cancer codes, the
  sample-count list and its bare `except`, and the `UNK` axis fallback.
- IEEE floating point: sin 45° and cos 45° are the same symbolic factor, and `sqrt` and
  `round(·, 2)` are the uninterpreted `RoundedRoot`. NaN rows (mut_freq_x and mut_freq_y
  unordered) are not modelled; the source appends nothing for them.
- Deviation.RmsdByGene: Python's `float()` is the parameter `toFloat`.
- Deviation.MeanSquareOfErrors: states only "every point on the diagonal ⟹ zero", not the
  converse, because the solver's nonlinear arithmetic does not reach it.
- Deviation.SumSquaredDifferencesZero: states only the same one-way implication, for the same
  reason.
- `get_genie_fileview_synid`, `get_all_genie_files`, `get_genie_bpc_tables`,
  `save_parsed_dataframes`, `parse_cancer_codes` and `parse_patients`: I/O wrappers.
- Text.Strip and Text.Upper: only ASCII whitespace is stripped and only ASCII letters are
  upper-cased. Python's `str.strip()` also removes Unicode whitespace such as U+00A0, and
  `str.upper()` maps non-ASCII letters and can lengthen a string ("ß" becomes "SS"). The
  properties built on them (ParsedPanelIdIsLast, ParsedGenesAreLast, GeneNamesNormalised,
  CodeKey) hold for ASCII text.
- Printing the release list: dict key order only affects printing.

## Findings

| source | as written | input that shows it | evidently intended | confidence | as-written member | corrected member |
|---|---|---|---|---|---|---|
| supp_fig_s3_and_s4_tcga_comparison/python/plot.py:113, 133 (and tcga_genie_comparison.py:407, 425) | after a top-up label, `spent_index` records the loop variable `i` (the last row) instead of `target_i` | two secondary rows (10, 10) and (10, 10), no primary: only row 0 is labelled, because row 1 is recorded as spent | record the labelled row, so every secondary row is labelled until there are nine | not executed | LabelSelection.StaleIndexSkipsLastRow | LabelSelection.CorrectedTopUp |
| supp_fig_s3_and_s4_tcga_comparison/python/plot.py:76-78 | the percentage thresholds (5, 10, 20, 25, 30) are compared with the fraction columns, so no row whose fractions lie in [0, 1] is ever primary or secondary | five rows, the last at fraction 1.0 vs 0.0: labels are rows 0-3 and the 100%-vs-0% outlier is not labelled | compare the frequency columns, as `handle_deviations` does | not executed | LabelSelection.FractionThresholdsMissOutlier | LabelSelection.PlotLabelsOutliers |
| supp_fig_s3_and_s4_tcga_comparison/python/tcga_analysis.py:73 | the TERT override writes the restricted percentage into `tcga_mut_fraq` and leaves `tcga_mut_freq` unrestricted | TERT at 0.5 / 50% (10 of 20), restricted 10% (1 of 10): the row becomes fraction 10.0, frequency 50.0, count 1 of 10 | write the restricted fraction and the restricted frequency | not executed | TcgaAnalysis.TertOverrideBreaksConsistency | TcgaAnalysis.CorrectedTertOverrideConsistent |
