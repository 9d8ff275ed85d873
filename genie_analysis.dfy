/** The consortium side of the comparison: per-gene mutation frequencies for one cancer code,
    computed from the tables of a parsed release. */
module GenieAnalysis {
  import opened Common
  import opened Seqs
  import opened Text
  import opened ReleaseParsing

  /** The parsed tables of one release, as the analysis object copies them from its parser. */
  datatype Release = Release(
    mutations: seq<Mutation>,
    samples: seq<Sample>,
    oncotreeCodes: map<string, string>,
    panelGenes: map<string, set<string>>,
    samplePanels: map<string, string>)

  /** A row of the consortium frequency table. */
  datatype GenieRow = GenieRow(
    hugoSymbol: string,
    mutFraq: real,          // mutated samples / all samples of the code
    mutFreq: real,          // the same as a percentage
    geneSampleCount: nat,
    totalSampleCount: nat)

  // ---------------------------------------------------------------------------------------------
  // rollup codes

  /** `oncotree_rollup_code`: the mapped code on a hit, the code itself otherwise. */
  function OncotreeRollupCode(codes: map<string, string>, code: string): string
  {
    if code in codes then codes[code] else code
  }

  /** Resolving a code always yields a code, and agrees with the samples' rollup column on a hit;
      on a miss the column holds None while the resolution falls back to the code itself. */
  lemma RollupResolutionVsColumn(codes: map<string, string>, row: SampleRow)
    ensures WithRollup(row, codes).rollupCode.Some? ==>
              WithRollup(row, codes).rollupCode.value == OncotreeRollupCode(codes, row.oncotreeCode)
    ensures WithRollup(row, codes).rollupCode.None? <==>
              row.oncotreeCode !in codes && OncotreeRollupCode(codes, row.oncotreeCode) == row.oncotreeCode
  {
  }

  /** The code a query uses: resolved through the rollup map in rollup mode. */
  function QueryCode(rel: Release, code: string, rollup: bool): string
  {
    if rollup then OncotreeRollupCode(rel.oncotreeCodes, code) else code
  }

  // ---------------------------------------------------------------------------------------------
  // sample selection

  /** A sample belongs to the code: by ONCOTREE_CODE, or by ROLLUP_ONCOTREE_CODE in rollup mode. */
  predicate Selects(s: Sample, code: string, rollup: bool)
  {
    if rollup then s.rollupCode == Some(code) else s.oncotreeCode == code
  }

  /** The SAMPLE_IDs of the selected rows, in row order. */
  function SelectedIds(samples: seq<Sample>, code: string, rollup: bool): (r: seq<string>)
    ensures forall id :: id in r <==>
              exists i :: 0 <= i < |samples| && Selects(samples[i], code, rollup) && samples[i].sampleId == id
  {
    if |samples| == 0 then []
    else
      var init := samples[..|samples| - 1];
      var last := samples[|samples| - 1];
      var r := SelectedIds(init, code, rollup);
      assert forall i :: 0 <= i < |init| ==> init[i] == samples[i];
      if Selects(last, code, rollup) then r + [last.sampleId] else r
  }

  /** `unique_samples_by_cancer_code`: the distinct ids of the selected samples, in first-appearance order. */
  function UniqueSamplesByCancerCode(samples: seq<Sample>, code: string, rollup: bool): (r: seq<string>)
    ensures NoDuplicates(r)
    ensures forall id :: id in r <==>
              exists i :: 0 <= i < |samples| && Selects(samples[i], code, rollup) && samples[i].sampleId == id
  {
    Distinct(SelectedIds(samples, code, rollup))
  }

  // ---------------------------------------------------------------------------------------------
  // mutation selection

  predicate IsSnp(m: Mutation) { m.variantType == "SNP" }

  /** The rows whose sample is one of `ids` and whose Variant_Type is SNP, in row order. */
  function SnpMutationsOf(muts: seq<Mutation>, ids: seq<string>): seq<Mutation>
  {
    if |muts| == 0 then []
    else
      var r := SnpMutationsOf(muts[..|muts| - 1], ids);
      var last := muts[|muts| - 1];
      if last.tumorSampleBarcode in ids && IsSnp(last) then r + [last] else r
  }

  /** The selection keeps exactly the SNP rows of the given samples, each as often as it occurs,
      in their original order. */
  lemma {:induction false} SnpMutationsOfMeaning(muts: seq<Mutation>, ids: seq<string>)
    ensures IsSubsequence(SnpMutationsOf(muts, ids), muts)
    ensures forall m :: Count(SnpMutationsOf(muts, ids), m) ==
              if m.tumorSampleBarcode in ids && IsSnp(m) then Count(muts, m) else 0
  {
    if |muts| > 0 {
      var init := muts[..|muts| - 1];
      var last := muts[|muts| - 1];
      var r := SnpMutationsOf(init, ids);
      SnpMutationsOfMeaning(init, ids);
      assert muts == init + [last];
      forall m ensures Count(muts, m) == Count(init, m) + (if last == m then 1 else 0) {
        CountSnoc(init, last, m);
      }
      if last.tumorSampleBarcode in ids && IsSnp(last) {
        assert (r + [last])[..|r|] == r;
        forall m ensures Count(r + [last], m) == Count(r, m) + (if last == m then 1 else 0) {
          CountSnoc(r, last, m);
        }
      }
    }
  }

  /** When every row is a SNP of one of the samples, the selection keeps them all. */
  lemma {:induction false} SnpMutationsOfKeepsAll(muts: seq<Mutation>, ids: seq<string>)
    requires forall i :: 0 <= i < |muts| ==> muts[i].tumorSampleBarcode in ids && IsSnp(muts[i])
    ensures SnpMutationsOf(muts, ids) == muts
  {
    if |muts| > 0 {
      var init := muts[..|muts| - 1];
      assert forall i :: 0 <= i < |init| ==> init[i] == muts[i];
      SnpMutationsOfKeepsAll(init, ids);
      assert muts == init + [muts[|muts| - 1]];
    }
  }

  /** `mutations_by_cancer_code`: the SNP rows of the code's samples. */
  function MutationsByCancerCode(rel: Release, code: string, rollup: bool): seq<Mutation>
  {
    SnpMutationsOf(rel.mutations, UniqueSamplesByCancerCode(rel.samples, code, rollup))
  }

  /** The rows the `Variant_Type == 'SNP'` selection keeps, in order. */
  function SnpOnly(muts: seq<Mutation>): (r: seq<Mutation>)
    ensures IsSubsequence(r, muts)
    ensures forall m :: m in r <==> m in muts && IsSnp(m)
  {
    if |muts| == 0 then []
    else
      var init := muts[..|muts| - 1];
      var last := muts[|muts| - 1];
      var r := SnpOnly(init);
      assert forall m :: m in muts <==> m in init || m == last;
      if IsSnp(last) then assert (r + [last])[..|r|] == r; r + [last] else r
  }

  /** Selecting SNP rows from rows that are all SNPs keeps them all. */
  lemma {:induction false} SnpOnlyKeepsSnps(muts: seq<Mutation>)
    requires forall m :: m in muts ==> IsSnp(m)
    ensures SnpOnly(muts) == muts
  {
    if |muts| > 0 {
      var init := muts[..|muts| - 1];
      assert forall m :: m in init ==> m in muts;
      SnpOnlyKeepsSnps(init);
      assert muts == init + [muts[|muts| - 1]];
    }
  }

  // ---------------------------------------------------------------------------------------------
  // panel filter

  /** The row's sample has a panel and that panel has a gene list. */
  predicate PanelKnown(m: Mutation, samplePanels: map<string, string>, panelGenes: map<string, set<string>>)
  {
    m.tumorSampleBarcode in samplePanels && samplePanels[m.tumorSampleBarcode] in panelGenes
  }

  /** The row's gene is in the gene set of its sample's panel. */
  predicate OnPanel(m: Mutation, samplePanels: map<string, string>, panelGenes: map<string, set<string>>)
  {
    PanelKnown(m, samplePanels, panelGenes) && m.hugoSymbol in panelGenes[samplePanels[m.tumorSampleBarcode]]
  }

  /** The KeyError the two dictionary lookups raise for a row whose panel is unknown. */
  function PanelLookupError(m: Mutation, samplePanels: map<string, string>): Error
  {
    if m.tumorSampleBarcode !in samplePanels then KeyError(m.tumorSampleBarcode)
    else KeyError(samplePanels[m.tumorSampleBarcode])
  }

  /** The rows whose gene is on their sample's panel, or the KeyError of the first row whose
      sample or panel is not a key. */
  function KeepOnPanel(muts: seq<Mutation>, samplePanels: map<string, string>,
                       panelGenes: map<string, set<string>>): Result<seq<Mutation>>
  {
    if |muts| == 0 then Ok([])
    else
      match KeepOnPanel(muts[..|muts| - 1], samplePanels, panelGenes)
      case Err(e) => Err(e)
      case Ok(r) =>
        var last := muts[|muts| - 1];
        if !PanelKnown(last, samplePanels, panelGenes) then Err(PanelLookupError(last, samplePanels))
        else if OnPanel(last, samplePanels, panelGenes) then Ok(r + [last])
        else Ok(r)
  }

  /** The panel filter fails exactly when some row's sample or panel is not a key, with the
      KeyError of the first such row. */
  lemma {:induction false} KeepOnPanelErrors(muts: seq<Mutation>, samplePanels: map<string, string>,
                                             panelGenes: map<string, set<string>>)
    ensures var r := KeepOnPanel(muts, samplePanels, panelGenes);
            && (r.Ok? <==> forall i :: 0 <= i < |muts| ==> PanelKnown(muts[i], samplePanels, panelGenes))
            && (r.Err? ==> exists i :: 0 <= i < |muts| && !PanelKnown(muts[i], samplePanels, panelGenes)
                            && r.error == PanelLookupError(muts[i], samplePanels)
                            && forall j :: 0 <= j < i ==> PanelKnown(muts[j], samplePanels, panelGenes))
  {
    if |muts| > 0 {
      var init := muts[..|muts| - 1];
      KeepOnPanelErrors(init, samplePanels, panelGenes);
      assert forall i :: 0 <= i < |init| ==> init[i] == muts[i];
    }
  }

  /** Without error, the panel filter keeps rows of the input, in their original order. */
  lemma {:induction false} KeepOnPanelOrder(muts: seq<Mutation>, samplePanels: map<string, string>,
                                            panelGenes: map<string, set<string>>)
    ensures var r := KeepOnPanel(muts, samplePanels, panelGenes);
            r.Ok? ==> IsSubsequence(r.value, muts)
  {
    if |muts| > 0 {
      var init := muts[..|muts| - 1];
      KeepOnPanelOrder(init, samplePanels, panelGenes);
      var r := KeepOnPanel(init, samplePanels, panelGenes);
      if r.Ok? {
        var last := muts[|muts| - 1];
        assert (r.value + [last])[..|r.value|] == r.value;
      }
    }
  }

  /** Without error, the panel filter keeps each row whose gene is on its sample's panel as often
      as it occurs, and no other row. */
  lemma {:induction false} KeepOnPanelCounts(muts: seq<Mutation>, samplePanels: map<string, string>,
                                             panelGenes: map<string, set<string>>)
    ensures var r := KeepOnPanel(muts, samplePanels, panelGenes);
            r.Ok? ==> forall m :: Count(r.value, m) == if OnPanel(m, samplePanels, panelGenes) then Count(muts, m) else 0
  {
    if |muts| > 0 {
      var init := muts[..|muts| - 1];
      var last := muts[|muts| - 1];
      KeepOnPanelCounts(init, samplePanels, panelGenes);
      var r := KeepOnPanel(init, samplePanels, panelGenes);
      if r.Ok? && PanelKnown(last, samplePanels, panelGenes) {
        assert muts == init + [last];
        var kept := KeepOnPanel(muts, samplePanels, panelGenes).value;
        forall m ensures Count(kept, m) == if OnPanel(m, samplePanels, panelGenes) then Count(muts, m) else 0 {
          CountSnoc(init, last, m);
          if OnPanel(last, samplePanels, panelGenes) {
            CountSnoc(r.value, last, m);
          }
        }
      }
    }
  }

  /** The panel filter fails exactly when some row's sample or panel is not a key, with the
      KeyError of the first such row; otherwise it keeps exactly the rows whose gene is on their
      sample's panel, each as often as it occurs, in their original order. */
  lemma KeepOnPanelMeaning(muts: seq<Mutation>, samplePanels: map<string, string>,
                           panelGenes: map<string, set<string>>)
    ensures var r := KeepOnPanel(muts, samplePanels, panelGenes);
            && (r.Ok? <==> forall i :: 0 <= i < |muts| ==> PanelKnown(muts[i], samplePanels, panelGenes))
            && (r.Err? ==> exists i :: 0 <= i < |muts| && !PanelKnown(muts[i], samplePanels, panelGenes)
                            && r.error == PanelLookupError(muts[i], samplePanels)
                            && forall j :: 0 <= j < i ==> PanelKnown(muts[j], samplePanels, panelGenes))
            && (r.Ok? ==> IsSubsequence(r.value, muts))
            && (r.Ok? ==> forall m :: Count(r.value, m) ==
                            if OnPanel(m, samplePanels, panelGenes) then Count(muts, m) else 0)
  {
    KeepOnPanelErrors(muts, samplePanels, panelGenes);
    KeepOnPanelOrder(muts, samplePanels, panelGenes);
    KeepOnPanelCounts(muts, samplePanels, panelGenes);
  }

  /** When every row is on its panel, the filter keeps them all. */
  lemma {:induction false} KeepOnPanelKeepsAll(muts: seq<Mutation>, samplePanels: map<string, string>,
                                               panelGenes: map<string, set<string>>)
    requires forall i :: 0 <= i < |muts| ==> OnPanel(muts[i], samplePanels, panelGenes)
    ensures KeepOnPanel(muts, samplePanels, panelGenes) == Ok(muts)
  {
    if |muts| > 0 {
      var init := muts[..|muts| - 1];
      var last := muts[|muts| - 1];
      assert muts == init + [last];
      KeepOnPanelKeepsAll(init, samplePanels, panelGenes);
      assert OnPanel(last, samplePanels, panelGenes);
    }
  }

  lemma {:induction false} KeepOnPanelErrPersists(muts: seq<Mutation>, samplePanels: map<string, string>,
                                                  panelGenes: map<string, set<string>>, j: nat, e: Error)
    requires j <= |muts| && KeepOnPanel(muts[..j], samplePanels, panelGenes) == Err(e)
    ensures KeepOnPanel(muts, samplePanels, panelGenes) == Err(e)
    decreases |muts| - j
  {
    if j < |muts| {
      assert muts[..j + 1][..j] == muts[..j];
      KeepOnPanelErrPersists(muts, samplePanels, panelGenes, j + 1, e);
    } else {
      assert muts[..j] == muts;
    }
  }

  /** `mutations_in_panel` as the source composes it: the code's SNP rows, those off their
      sample's panel dropped, and the SNP selection applied once more. */
  function MutationsInPanelOf(rel: Release, code: string, rollup: bool): Result<seq<Mutation>>
  {
    match KeepOnPanel(MutationsByCancerCode(rel, code, rollup), rel.samplePanels, rel.panelGenes)
    case Err(e) => Err(e)
    case Ok(kept) => Ok(SnpOnly(kept))
  }

  /** The rows `mutations_in_panel` returns are exactly the code's SNP rows whose gene is on their
      sample's panel, in their original order; the final SNP selection changes nothing. */
  lemma MutationsInPanelMeaning(rel: Release, code: string, rollup: bool)
    requires MutationsInPanelOf(rel, code, rollup).Ok?
    ensures var ids := UniqueSamplesByCancerCode(rel.samples, code, rollup);
            var r := MutationsInPanelOf(rel, code, rollup).value;
            && IsSubsequence(r, rel.mutations)
            && r == KeepOnPanel(MutationsByCancerCode(rel, code, rollup), rel.samplePanels, rel.panelGenes).value
            && forall m :: Count(r, m) ==
                 if m.tumorSampleBarcode in ids && IsSnp(m) && OnPanel(m, rel.samplePanels, rel.panelGenes)
                 then Count(rel.mutations, m) else 0
  {
    var ids := UniqueSamplesByCancerCode(rel.samples, code, rollup);
    var snps := MutationsByCancerCode(rel, code, rollup);
    var kept := KeepOnPanel(snps, rel.samplePanels, rel.panelGenes).value;
    SnpMutationsOfMeaning(rel.mutations, ids);
    KeepOnPanelMeaning(snps, rel.samplePanels, rel.panelGenes);
    forall m | m in kept ensures IsSnp(m) {
      assert Count(kept, m) > 0;
    }
    SnpOnlyKeepsSnps(kept);
    SubsequenceTransitive(kept, snps, rel.mutations);
  }

  lemma {:induction false} SubsequenceTransitive<T(!new)>(a: seq<T>, b: seq<T>, c: seq<T>)
    requires IsSubsequence(a, b) && IsSubsequence(b, c)
    ensures IsSubsequence(a, c)
    decreases |c|
  {
    if |a| > 0 && |c| > 0 {
      if |b| > 0 && b[|b| - 1] == c[|c| - 1] && IsSubsequence(b[..|b| - 1], c[..|c| - 1]) {
        if a[|a| - 1] == b[|b| - 1] && IsSubsequence(a[..|a| - 1], b[..|b| - 1]) {
          SubsequenceTransitive(a[..|a| - 1], b[..|b| - 1], c[..|c| - 1]);
        } else {
          SubsequenceTransitive(a, b[..|b| - 1], c[..|c| - 1]);
        }
      } else {
        SubsequenceTransitive(a, b, c[..|c| - 1]);
      }
    }
  }

  /** The first loop of `mutations_in_panel`: the positions of the rows off their sample's panel,
      or the KeyError of the first row whose sample or panel is not a key. */
  method OffPanelRows(rows: seq<Mutation>, samplePanels: map<string, string>, panelGenes: map<string, set<string>>)
    returns (r: Result<seq<nat>>)
    ensures r.Err? ==> KeepOnPanel(rows, samplePanels, panelGenes) == Err(r.error)
    ensures r.Ok? ==> forall j :: 0 <= j < |rows| ==> PanelKnown(rows[j], samplePanels, panelGenes)
    ensures r.Ok? ==> forall j: int :: j in r.value <==> 0 <= j < |rows| && !OnPanel(rows[j], samplePanels, panelGenes)
  {
    var toDrop: seq<nat> := [];
    for i := 0 to |rows|
      invariant KeepOnPanel(rows[..i], samplePanels, panelGenes).Ok?
      invariant forall j :: 0 <= j < i ==> PanelKnown(rows[j], samplePanels, panelGenes)
      invariant forall j: int :: j in toDrop <==> 0 <= j < i && !OnPanel(rows[j], samplePanels, panelGenes)
    {
      assert rows[..i + 1][..i] == rows[..i];
      var sample := rows[i].tumorSampleBarcode;
      if sample !in samplePanels {
        KeepOnPanelErrPersists(rows, samplePanels, panelGenes, i + 1, KeyError(sample));
        return Err(KeyError(sample));
      }
      var panel := samplePanels[sample];
      if panel !in panelGenes {
        KeepOnPanelErrPersists(rows, samplePanels, panelGenes, i + 1, KeyError(panel));
        return Err(KeyError(panel));
      }
      if rows[i].hugoSymbol !in panelGenes[panel] {
        toDrop := toDrop + [i];
      }
    }
    return Ok(toDrop);
  }

  /** The drop of `mutations_in_panel`: the rows whose position is not listed, in order. */
  method DropRows(rows: seq<Mutation>, samplePanels: map<string, string>, panelGenes: map<string, set<string>>,
                  toDrop: seq<nat>) returns (kept: seq<Mutation>)
    requires forall j :: 0 <= j < |rows| ==> PanelKnown(rows[j], samplePanels, panelGenes)
    requires forall j: int :: j in toDrop <==> 0 <= j < |rows| && !OnPanel(rows[j], samplePanels, panelGenes)
    ensures KeepOnPanel(rows, samplePanels, panelGenes) == Ok(kept)
  {
    kept := [];
    for i := 0 to |rows|
      invariant KeepOnPanel(rows[..i], samplePanels, panelGenes) == Ok(kept)
    {
      assert rows[..i + 1][..i] == rows[..i];
      if i !in toDrop {
        kept := kept + [rows[i]];
      }
    }
    assert rows[..|rows|] == rows;
  }

  /** `mutations_in_panel`: collects the positions of rows off their panel, drops them, and
      selects SNP rows; a row whose sample or panel is not a key raises KeyError. */
  method MutationsInPanel(rel: Release, code: string, rollup: bool) returns (r: Result<seq<Mutation>>)
    ensures r == MutationsInPanelOf(rel, code, rollup)
  {
    var rows := MutationsByCancerCode(rel, code, rollup);
    var toDrop := OffPanelRows(rows, rel.samplePanels, rel.panelGenes);
    if toDrop.Err? {
      return Err(toDrop.error);
    }
    var kept := DropRows(rows, rel.samplePanels, rel.panelGenes, toDrop.value);
    r := Ok(SnpOnly(kept));
  }

  // ---------------------------------------------------------------------------------------------
  // frequencies

  /** The Hugo_Symbol column. */
  function GenesOf(muts: seq<Mutation>): (r: seq<string>)
    ensures |r| == |muts| && forall i :: 0 <= i < |muts| ==> r[i] == muts[i].hugoSymbol
  {
    seq(|muts|, i requires 0 <= i < |muts| => muts[i].hugoSymbol)
  }

  /** The Tumor_Sample_Barcode column of the rows for `gene`, in row order. */
  function BarcodesOfGene(muts: seq<Mutation>, gene: string): seq<string>
  {
    if |muts| == 0 then []
    else
      var r := BarcodesOfGene(muts[..|muts| - 1], gene);
      if muts[|muts| - 1].hugoSymbol == gene then r + [muts[|muts| - 1].tumorSampleBarcode] else r
  }

  /** The distinct samples with a row for `gene`, in first-appearance order. */
  function MutatedSamples(muts: seq<Mutation>, gene: string): seq<string>
  {
    Distinct(BarcodesOfGene(muts, gene))
  }

  /** The mutated samples of a gene are, without repeats, the samples of the rows for that gene. */
  lemma {:induction false} MutatedSamplesMeaning(muts: seq<Mutation>, gene: string)
    ensures NoDuplicates(MutatedSamples(muts, gene))
    ensures forall b :: b in MutatedSamples(muts, gene) <==>
              exists m :: m in muts && m.hugoSymbol == gene && m.tumorSampleBarcode == b
  {
    BarcodesOfGeneMeaning(muts, gene);
  }

  lemma {:induction false} BarcodesOfGeneMeaning(muts: seq<Mutation>, gene: string)
    ensures forall b :: b in BarcodesOfGene(muts, gene) <==>
              exists m :: m in muts && m.hugoSymbol == gene && m.tumorSampleBarcode == b
  {
    if |muts| > 0 {
      var init := muts[..|muts| - 1];
      var last := muts[|muts| - 1];
      assert forall m :: m in muts <==> m in init || m == last;
      BarcodesOfGeneMeaning(init, gene);
    }
  }

  /** The row for one gene: its distinct mutated samples over all samples of the code. */
  function FrequencyRow(gene: string, muts: seq<Mutation>, total: nat): GenieRow
    requires total > 0
  {
    var count := |MutatedSamples(muts, gene)|;
    var fraq := count as real / total as real;
    GenieRow(gene, fraq, fraq * 100.0, count, total)
  }

  /** Every in-panel row belongs to one of the code's samples. */
  lemma InPanelRowsAreSelected(rel: Release, code: string, rollup: bool)
    requires MutationsInPanelOf(rel, code, rollup).Ok?
    ensures forall m :: m in MutationsInPanelOf(rel, code, rollup).value ==>
              m.tumorSampleBarcode in UniqueSamplesByCancerCode(rel.samples, code, rollup)
              && IsSnp(m) && OnPanel(m, rel.samplePanels, rel.panelGenes)
  {
    MutationsInPanelMeaning(rel, code, rollup);
    var r := MutationsInPanelOf(rel, code, rollup).value;
    forall m | m in r
      ensures m.tumorSampleBarcode in UniqueSamplesByCancerCode(rel.samples, code, rollup)
      ensures IsSnp(m) && OnPanel(m, rel.samplePanels, rel.panelGenes)
    {
      assert Count(r, m) > 0;
    }
  }

  /** When some in-panel row remains, the code has at least one sample. */
  lemma InPanelRowsHaveSamples(rel: Release, code: string, rollup: bool)
    requires MutationsInPanelOf(rel, code, rollup).Ok? && |MutationsInPanelOf(rel, code, rollup).value| > 0
    ensures |UniqueSamplesByCancerCode(rel.samples, code, rollup)| > 0
  {
    InPanelRowsAreSelected(rel, code, rollup);
    assert MutationsInPanelOf(rel, code, rollup).value[0] in MutationsInPanelOf(rel, code, rollup).value;
  }

  /** The rows for `genes`, in order. */
  function FrequencyRows(genes: seq<string>, muts: seq<Mutation>, total: nat): (r: seq<GenieRow>)
    requires total > 0
    ensures |r| == |genes| && forall k :: 0 <= k < |genes| ==> r[k] == FrequencyRow(genes[k], muts, total)
  {
    seq(|genes|, k requires 0 <= k < |genes| => FrequencyRow(genes[k], muts, total))
  }

  /** `mutation_frequency_by_cancer_code`: one row per distinct gene of the in-panel rows, in
      first-appearance order; the denominator is every sample of the (resolved) code. A table with
      no gene cannot take the five column names and raises ValueError. */
  function FrequencyTable(rel: Release, code: string, rollup: bool): Result<seq<GenieRow>>
  {
    var c := QueryCode(rel, code, rollup);
    match MutationsInPanelOf(rel, c, rollup)
    case Err(e) => Err(e)
    case Ok(muts) =>
      if |muts| == 0 then Err(ValueError)
      else
        InPanelRowsHaveSamples(rel, c, rollup);
        Ok(FrequencyRows(Distinct(GenesOf(muts)), muts, |UniqueSamplesByCancerCode(rel.samples, c, rollup)|))
  }

  /** The loop of `mutation_frequency_by_cancer_code` over the distinct genes. */
  method MutationFrequencyByCancerCode(rel: Release, code: string, rollup: bool) returns (r: Result<seq<GenieRow>>)
    ensures r == FrequencyTable(rel, code, rollup)
  {
    var c := code;
    if rollup {
      c := OncotreeRollupCode(rel.oncotreeCodes, code);
    }
    assert c == QueryCode(rel, code, rollup);
    var allSamples := UniqueSamplesByCancerCode(rel.samples, c, rollup);
    var inPanel := MutationsInPanel(rel, c, rollup);
    if inPanel.Err? {
      return Err(inPanel.error);
    }
    var muts := inPanel.value;
    var genes := Distinct(GenesOf(muts));
    if |muts| == 0 {
      assert genes == [];
      return Err(ValueError);
    }
    InPanelRowsHaveSamples(rel, c, rollup);
    var rows := GeneFrequencies(genes, muts, |allSamples|);
    r := Ok(rows);
  }

  /** The per-gene loop of `mutation_frequency_by_cancer_code`: for each gene, its distinct
      mutated samples over all samples of the code. */
  method GeneFrequencies(genes: seq<string>, muts: seq<Mutation>, total: nat) returns (rows: seq<GenieRow>)
    requires total > 0
    ensures rows == FrequencyRows(genes, muts, total)
  {
    rows := [];
    for k := 0 to |genes|
      invariant |rows| == k
      invariant forall j :: 0 <= j < k ==> rows[j] == FrequencyRow(genes[j], muts, total)
    {
      var selected := MutatedSamples(muts, genes[k]);
      var fraq := |selected| as real / total as real;
      rows := rows + [GenieRow(genes[k], fraq, fraq * 100.0, |selected|, total)];
    }
  }

  /** Each row counts the distinct samples with an in-panel SNP in its gene over every sample of the
      code, panel coverage not considered; the counts are bounded by the total, so the fraction is
      in [0, 1] and the frequency is the fraction as a percentage. */
  lemma FrequencyTableRows(rel: Release, code: string, rollup: bool)
    requires FrequencyTable(rel, code, rollup).Ok?
    ensures var c := QueryCode(rel, code, rollup);
            var muts := MutationsInPanelOf(rel, c, rollup).value;
            var rows := FrequencyTable(rel, code, rollup).value;
            forall k :: 0 <= k < |rows| ==>
              && rows[k].totalSampleCount == |UniqueSamplesByCancerCode(rel.samples, c, rollup)|
              && rows[k].geneSampleCount == |MutatedSamples(muts, rows[k].hugoSymbol)|
              && 0 < rows[k].totalSampleCount
              && rows[k].geneSampleCount <= rows[k].totalSampleCount
              && 0.0 <= rows[k].mutFraq <= 1.0
              && rows[k].mutFreq == rows[k].mutFraq * 100.0
  {
    var c := QueryCode(rel, code, rollup);
    var muts := MutationsInPanelOf(rel, c, rollup).value;
    var rows := FrequencyTable(rel, code, rollup).value;
    var all := UniqueSamplesByCancerCode(rel.samples, c, rollup);
    InPanelRowsAreSelected(rel, c, rollup);
    forall k | 0 <= k < |rows|
      ensures rows[k].geneSampleCount <= rows[k].totalSampleCount
      ensures 0.0 <= rows[k].mutFraq <= 1.0
    {
      var mutated := MutatedSamples(muts, rows[k].hugoSymbol);
      MutatedSamplesMeaning(muts, rows[k].hugoSymbol);
      NoDuplicatesSubsetLength(mutated, all);
      FractionBounds(|mutated|, |all|);
    }
  }

  lemma FractionBounds(count: nat, total: nat)
    requires 0 < total && count <= total
    ensures 0.0 <= count as real / total as real <= 1.0
  {
  }

  /** The table has exactly one row per distinct gene among the in-panel rows, in first-appearance order. */
  lemma FrequencyTableGenes(rel: Release, code: string, rollup: bool)
    requires FrequencyTable(rel, code, rollup).Ok?
    ensures var c := QueryCode(rel, code, rollup);
            var muts := MutationsInPanelOf(rel, c, rollup).value;
            var rows := FrequencyTable(rel, code, rollup).value;
            && GenesOfRows(rows) == Distinct(GenesOf(muts))
            && NoDuplicates(GenesOfRows(rows))
            && forall g :: g in GenesOfRows(rows) <==> exists m :: m in muts && m.hugoSymbol == g
  {
    var c := QueryCode(rel, code, rollup);
    var muts := MutationsInPanelOf(rel, c, rollup).value;
    forall g | g in GenesOf(muts) ensures exists m :: m in muts && m.hugoSymbol == g {
      var i :| 0 <= i < |muts| && GenesOf(muts)[i] == g;
      assert muts[i] in muts;
    }
    forall g | (exists m :: m in muts && m.hugoSymbol == g) ensures g in GenesOf(muts) {
      var m :| m in muts && m.hugoSymbol == g;
      var i :| 0 <= i < |muts| && muts[i] == m;
      assert GenesOf(muts)[i] == g;
    }
  }

  function GenesOfRows(rows: seq<GenieRow>): seq<string>
  {
    seq(|rows|, k requires 0 <= k < |rows| => rows[k].hugoSymbol)
  }

  /** The table fails exactly when a panel lookup fails or no in-panel row remains. */
  lemma FrequencyTableErrors(rel: Release, code: string, rollup: bool)
    ensures var c := QueryCode(rel, code, rollup);
            FrequencyTable(rel, code, rollup).Err? <==>
              MutationsInPanelOf(rel, c, rollup).Err? || |MutationsInPanelOf(rel, c, rollup).value| == 0
  {
    var c := QueryCode(rel, code, rollup);
    if MutationsInPanelOf(rel, c, rollup).Ok? {
      var muts := MutationsInPanelOf(rel, c, rollup).value;
      if |muts| > 0 {
        assert muts[0].hugoSymbol in GenesOf(muts);
      }
    }
  }

  /** A cancer type with three samples, two on a panel listing KRAS and both mutated in KRAS,
      the third on a panel without KRAS. */
  function ExampleRelease(): Release
  {
    Release(
      [Mutation("KRAS", "s1", "SNP"), Mutation("KRAS", "s2", "SNP")],
      [Sample("s1", "LUAD", None, "P1"), Sample("s2", "LUAD", None, "P1"), Sample("s3", "LUAD", None, "P2")],
      map[],
      map["P1" := {"KRAS"}, "P2" := {"EGFR"}],
      map["s1" := "P1", "s2" := "P1", "s3" := "P2"])
  }

  /** In that example all three samples are of the code. */
  lemma ExampleSamples(rel: Release)
    requires rel == ExampleRelease()
    ensures UniqueSamplesByCancerCode(rel.samples, "LUAD", false) == ["s1", "s2", "s3"]
  {
    var samples := rel.samples;
    assert samples[..2][..1] == samples[..1] && samples[..1][..0] == [];
    assert SelectedIds(samples[..1], "LUAD", false) == ["s1"];
    assert SelectedIds(samples[..2], "LUAD", false) == ["s1", "s2"];
    var ids := SelectedIds(samples, "LUAD", false);
    assert ids == ["s1", "s2", "s3"];
    assert ids[..2][..1] == ids[..1] && ids[..1][..0] == [];
    assert Distinct(ids[..1]) == ["s1"];
    assert Distinct(ids[..2]) == ["s1", "s2"];
  }

  /** In that example both mutation rows are SNPs of the code's samples. */
  lemma ExampleSnpRows(rel: Release)
    requires rel == ExampleRelease()
    ensures MutationsByCancerCode(rel, "LUAD", false) == rel.mutations
  {
    ExampleSamples(rel);
    SnpMutationsOfKeepsAll(rel.mutations, ["s1", "s2", "s3"]);
  }

  /** In that example both mutation rows are on their sample's panel. */
  lemma ExampleInPanel(rel: Release)
    requires rel == ExampleRelease()
    ensures MutationsInPanelOf(rel, "LUAD", false) == Ok(rel.mutations)
  {
    var muts := rel.mutations;
    ExampleSnpRows(rel);
    assert OnPanel(muts[0], rel.samplePanels, rel.panelGenes) by {
      assert rel.samplePanels["s1"] == "P1" && "KRAS" in rel.panelGenes["P1"];
    }
    assert OnPanel(muts[1], rel.samplePanels, rel.panelGenes) by {
      assert rel.samplePanels["s2"] == "P1" && "KRAS" in rel.panelGenes["P1"];
    }
    KeepOnPanelKeepsAll(muts, rel.samplePanels, rel.panelGenes);
    SnpOnlyKeepsSnps(muts);
  }

  /** In that example the only gene is KRAS. */
  lemma ExampleGenes(rel: Release)
    requires rel == ExampleRelease()
    ensures Distinct(GenesOf(rel.mutations)) == ["KRAS"]
  {
    var genes := GenesOf(rel.mutations);
    assert genes == ["KRAS", "KRAS"];
    assert genes[..1][..0] == [];
    assert Distinct(genes[..1]) == ["KRAS"];
  }

  /** In that example KRAS is mutated in samples s1 and s2. */
  lemma ExampleMutatedSamples(rel: Release)
    requires rel == ExampleRelease()
    ensures MutatedSamples(rel.mutations, "KRAS") == ["s1", "s2"]
  {
    var muts := rel.mutations;
    assert muts[..1][..0] == [];
    assert BarcodesOfGene(muts[..1], "KRAS") == ["s1"];
    var ids := BarcodesOfGene(muts, "KRAS");
    assert ids == ["s1", "s2"];
    assert ids[..1][..0] == [];
    assert Distinct(ids[..1]) == ["s1"];
  }

  /** In that example the table has one row, for KRAS, over all three samples of the code. */
  lemma ExampleTableRows(rel: Release)
    requires rel == ExampleRelease()
    ensures FrequencyTable(rel, "LUAD", false) == Ok(FrequencyRows(["KRAS"], rel.mutations, 3))
  {
    ExampleSamples(rel);
    ExampleInPanel(rel);
    ExampleGenes(rel);
  }

  /** In that example the frequency is 2/3, not 2/2: the sample whose panel cannot report KRAS
      still counts in the denominator. */
  lemma DenominatorIgnoresPanelCoverage(rel: Release)
    requires rel == ExampleRelease()
    ensures FrequencyTable(rel, "LUAD", false) == Ok([GenieRow("KRAS", 2.0 / 3.0, 200.0 / 3.0, 2, 3)])
  {
    var muts := rel.mutations;
    ExampleTableRows(rel);
    ExampleMutatedSamples(rel);
    assert FrequencyRows(["KRAS"], muts, 3) == [FrequencyRow("KRAS", muts, 3)];
  }

  // ---------------------------------------------------------------------------------------------
  // sample counts

  /** A row of the per-code sample-count table. */
  datatype SampleCount = SampleCount(oncotreeCode: string, sampleCount: nat)

  /** `str(code).upper()`: the key a sample is counted under (`None` prints as "None"). */
  function CodeKey(s: Sample, rollup: bool): (r: string)
    ensures IsUpper(r)
  {
    if rollup then
      match s.rollupCode
      case None => "NONE"
      case Some(c) => Upper(c)
    else Upper(s.oncotreeCode)
  }

  function CodeKeys(samples: seq<Sample>, rollup: bool): (r: seq<string>)
    ensures |r| == |samples| && forall i :: 0 <= i < |samples| ==> r[i] == CodeKey(samples[i], rollup)
  {
    seq(|samples|, i requires 0 <= i < |samples| => CodeKey(samples[i], rollup))
  }

  function TotalSamples(rows: seq<SampleCount>): nat
  {
    if |rows| == 0 then 0 else rows[0].sampleCount + TotalSamples(rows[1..])
  }

  lemma {:induction false} TotalSamplesIsSumCounts(rows: seq<SampleCount>, keys: seq<string>, s: seq<string>)
    requires |rows| == |keys|
    requires forall k :: 0 <= k < |rows| ==> rows[k].sampleCount == Count(s, keys[k])
    ensures TotalSamples(rows) == SumCounts(keys, s)
  {
    if |rows| > 0 {
      TotalSamplesIsSumCounts(rows[1..], keys[1..], s);
    }
  }

  /** The counting loop: the distinct keys in first-appearance order, and how often each occurs. */
  method CountKeys(all: seq<string>) returns (keys: seq<string>, counts: map<string, nat>)
    ensures keys == Distinct(all)
    ensures forall x :: x in counts <==> x in all
    ensures forall x :: x in counts ==> counts[x] == Count(all, x)
  {
    counts, keys := map[], [];
    for i := 0 to |all|
      invariant keys == Distinct(all[..i])
      invariant forall x :: x in counts <==> x in all[..i]
      invariant forall x :: x in counts ==> counts[x] == Count(all[..i], x)
    {
      var key := all[i];
      assert all[..i + 1] == all[..i] + [key];
      DistinctSnoc(all[..i], key);
      forall x ensures Count(all[..i + 1], x) == Count(all[..i], x) + (if key == x then 1 else 0) {
        CountSnoc(all[..i], key, x);
      }
      if key in counts {
        counts := counts[key := counts[key] + 1];
      } else {
        keys := keys + [key];
        counts := counts[key := 1];
      }
    }
    assert all[..|all|] == all;
  }

  /** `sample_count_by_cancer_type`: one row per distinct upper-cased code, in first-appearance
      order, counting the samples under it; the counts add up to the number of sample rows. With no
      samples the count dictionary is empty, the frame built from it has the single column that
      `reset_index` adds, and naming two columns raises ValueError. */
  method SampleCountByCancerType(samples: seq<Sample>, rollup: bool) returns (r: Result<seq<SampleCount>>)
    ensures r.Err? <==> |samples| == 0
    ensures r.Err? ==> r.error == ValueError
    ensures r.Ok? ==>
              var keys := Distinct(CodeKeys(samples, rollup));
              && |r.value| == |keys|
              && forall k :: 0 <= k < |r.value| ==>
                   r.value[k].oncotreeCode == keys[k] && r.value[k].sampleCount == Count(CodeKeys(samples, rollup), keys[k])
    ensures r.Ok? ==> forall k :: 0 <= k < |r.value| ==> IsUpper(r.value[k].oncotreeCode) && r.value[k].sampleCount > 0
    ensures r.Ok? ==> TotalSamples(r.value) == |samples|
  {
    var all := CodeKeys(samples, rollup);
    var keys, counts := CountKeys(all);
    if |keys| == 0 {
      return Err(ValueError);
    }
    var rows := seq(|keys|, k requires 0 <= k < |keys| => SampleCount(keys[k], counts[keys[k]]));
    forall k | 0 <= k < |rows| ensures IsUpper(rows[k].oncotreeCode) {
      assert keys[k] in all;
      var i :| 0 <= i < |all| && all[i] == keys[k];
    }
    TotalSamplesIsSumCounts(rows, keys, all);
    SumCountsOfDistinct(all);
    return Ok(rows);
  }
}
