/** Joining the two cohorts' frequency tables, the output-path rule, and the two row filters that
    work on index labels. */
module Comparison {
  import opened Common
  import opened Seqs
  import opened TcgaAnalysis
  import opened GenieAnalysis

  /** A row of the merged table: the reference-cohort columns, then the consortium columns. */
  datatype ComparisonRow = ComparisonRow(
    hugoSymbol: string,
    tcgaMutFraq: real,
    tcgaMutFreq: real,
    tcgaGeneSampleCount: nat,
    tcgaTotalSampleCount: nat,
    genieMutFraq: real,
    genieMutFreq: real,
    genieGeneSampleCount: nat,
    genieTotalSampleCount: nat)

  function Combine(t: TcgaRow, g: GenieRow): ComparisonRow
  {
    ComparisonRow(t.hugoSymbol, t.mutFraq, t.mutFreq, t.geneSampleCount, t.totalSampleCount,
                  g.mutFraq, g.mutFreq, g.geneSampleCount, g.totalSampleCount)
  }

  // ---------------------------------------------------------------------------------------------
  // inner merge on Hugo_Symbol

  /** The consortium rows with the same gene as `t`, each combined with `t`, in their order. */
  function MatchesOf(t: TcgaRow, genie: seq<GenieRow>): seq<ComparisonRow>
  {
    if |genie| == 0 then []
    else
      var r := MatchesOf(t, genie[..|genie| - 1]);
      var g := genie[|genie| - 1];
      if g.hugoSymbol == t.hugoSymbol then r + [Combine(t, g)] else r
  }

  /** `pd.merge(tcga, genie, on='Hugo_Symbol')`: an inner merge keeping the order of the left keys. */
  function Join(tcga: seq<TcgaRow>, genie: seq<GenieRow>): seq<ComparisonRow>
  {
    if |tcga| == 0 then []
    else Join(tcga[..|tcga| - 1], genie) + MatchesOf(tcga[|tcga| - 1], genie)
  }

  lemma {:induction false} MatchesOfMeaning(t: TcgaRow, genie: seq<GenieRow>)
    ensures forall c :: c in MatchesOf(t, genie) <==>
              exists j :: 0 <= j < |genie| && genie[j].hugoSymbol == t.hugoSymbol && c == Combine(t, genie[j])
  {
    if |genie| > 0 {
      var init := genie[..|genie| - 1];
      MatchesOfMeaning(t, init);
      assert forall j :: 0 <= j < |init| ==> init[j] == genie[j];
    }
  }

  /** Every merged row combines a reference row and a consortium row for the same gene, and every
      such pair gives a merged row: only genes present in both cohorts appear. */
  lemma {:induction false} JoinMeaning(tcga: seq<TcgaRow>, genie: seq<GenieRow>)
    ensures forall c :: c in Join(tcga, genie) <==>
              exists i, j :: 0 <= i < |tcga| && 0 <= j < |genie| &&
                             tcga[i].hugoSymbol == genie[j].hugoSymbol && c == Combine(tcga[i], genie[j])
  {
    if |tcga| > 0 {
      var init := tcga[..|tcga| - 1];
      var last := tcga[|tcga| - 1];
      JoinMeaning(init, genie);
      MatchesOfMeaning(last, genie);
      assert forall i :: 0 <= i < |init| ==> init[i] == tcga[i];
      forall c | c in Join(tcga, genie)
        ensures exists i, j :: 0 <= i < |tcga| && 0 <= j < |genie| &&
                               tcga[i].hugoSymbol == genie[j].hugoSymbol && c == Combine(tcga[i], genie[j])
      {
        if c in MatchesOf(last, genie) {
          var j :| 0 <= j < |genie| && genie[j].hugoSymbol == last.hugoSymbol && c == Combine(last, genie[j]);
          assert tcga[|tcga| - 1] == last;
        } else {
          assert Join(tcga, genie) == Join(init, genie) + MatchesOf(last, genie);
          assert c in Join(init, genie);
          var i, j :| 0 <= i < |init| && 0 <= j < |genie| &&
                      init[i].hugoSymbol == genie[j].hugoSymbol && c == Combine(init[i], genie[j]);
          assert tcga[i] == init[i];
        }
      }
      forall c | exists i, j :: 0 <= i < |tcga| && 0 <= j < |genie| &&
                               tcga[i].hugoSymbol == genie[j].hugoSymbol && c == Combine(tcga[i], genie[j])
        ensures c in Join(tcga, genie)
      {
        var i, j :| 0 <= i < |tcga| && 0 <= j < |genie| &&
                    tcga[i].hugoSymbol == genie[j].hugoSymbol && c == Combine(tcga[i], genie[j]);
        if i == |tcga| - 1 {
          assert c in MatchesOf(last, genie);
        } else {
          assert c in Join(init, genie);
        }
      }
    }
  }

  function GenesOfJoin(rows: seq<ComparisonRow>): seq<string>
  {
    seq(|rows|, k requires 0 <= k < |rows| => rows[k].hugoSymbol)
  }

  /** A gene is in the merged table iff both cohorts report it. */
  lemma JoinGenes(tcga: seq<TcgaRow>, genie: seq<GenieRow>, gene: string)
    ensures gene in GenesOfJoin(Join(tcga, genie)) <==>
              (exists i :: 0 <= i < |tcga| && tcga[i].hugoSymbol == gene) &&
              (exists j :: 0 <= j < |genie| && genie[j].hugoSymbol == gene)
  {
    JoinMeaning(tcga, genie);
    var rows := Join(tcga, genie);
    if gene in GenesOfJoin(rows) {
      var k :| 0 <= k < |rows| && rows[k].hugoSymbol == gene;
      assert rows[k] in rows;
    }
    if (exists i :: 0 <= i < |tcga| && tcga[i].hugoSymbol == gene) &&
       (exists j :: 0 <= j < |genie| && genie[j].hugoSymbol == gene) {
      var i :| 0 <= i < |tcga| && tcga[i].hugoSymbol == gene;
      var j :| 0 <= j < |genie| && genie[j].hugoSymbol == gene;
      var c := Combine(tcga[i], genie[j]);
      assert c in rows;
      var k :| 0 <= k < |rows| && rows[k] == c;
      assert GenesOfJoin(rows)[k] == gene;
    }
  }

  // ---------------------------------------------------------------------------------------------
  // output path

  /** `find_outpath`: the output root of a release version, by comparison mode. */
  function FindOutpath(version: string, rollup: bool): string
  {
    "/app/outputs/" + version + (if rollup then "/rollup" else "/direct_comparison")
  }

  /** Distinct versions or modes never share an output root, and the version can be read back. */
  lemma FindOutpathInjective(v1: string, r1: bool, v2: string, r2: bool)
    ensures FindOutpath(v1, r1) == FindOutpath(v2, r2) <==> v1 == v2 && r1 == r2
  {
    var p1, p2 := FindOutpath(v1, r1), FindOutpath(v2, r2);
    if r1 != r2 {
      assert p1[|p1| - 1] != p2[|p2| - 1];
    } else if p1 == p2 {
      var suffix := if r1 then "/rollup" else "/direct_comparison";
      assert p1 == ("/app/outputs/" + v1) + suffix;
      assert p2 == ("/app/outputs/" + v2) + suffix;
      assert |v1| == |v2|;
      assert v1 == p1[13..13 + |v1|];
      assert v2 == p2[13..13 + |v2|];
    }
  }

  // ---------------------------------------------------------------------------------------------
  // row filters by index label

  /** A merged row with the index label pandas gave it. */
  datatype LabelledRow = LabelledRow(indexLabel: nat, row: ComparisonRow)

  predicate UniqueLabels(rows: seq<LabelledRow>)
  {
    forall i, j :: 0 <= i < j < |rows| ==> rows[i].indexLabel != rows[j].indexLabel
  }

  /** The merged table with its default index: row `i` carries label `i`. */
  function Labelled(rows: seq<ComparisonRow>): seq<LabelledRow>
  {
    seq(|rows|, i requires 0 <= i < |rows| => LabelledRow(i, rows[i]))
  }

  /** Dropping the TERT rows by their labels: the other rows stay, in order, with their labels. */
  function DropTert(rows: seq<LabelledRow>): (r: seq<LabelledRow>)
    ensures IsSubsequence(r, rows)
    ensures forall x :: x in r <==> x in rows && x.row.hugoSymbol != Tert
  {
    if |rows| == 0 then []
    else
      var init := DropTert(rows[..|rows| - 1]);
      var last := rows[|rows| - 1];
      assert forall x :: x in rows <==> x in rows[..|rows| - 1] || x == last;
      if last.row.hugoSymbol == Tert then init
      else
        assert (init + [last])[..|init|] == init;
        init + [last]
  }

  /** Labels stay unique under the TERT drop, so later drops by label still act row by row. */
  lemma {:induction false} DropTertUniqueLabels(rows: seq<LabelledRow>)
    requires UniqueLabels(rows)
    ensures UniqueLabels(DropTert(rows))
  {
    if |rows| > 0 {
      var init := rows[..|rows| - 1];
      var last := rows[|rows| - 1];
      assert UniqueLabels(init);
      DropTertUniqueLabels(init);
      var d := DropTert(init);
      if last.row.hugoSymbol != Tert {
        forall x | x in d ensures x.indexLabel != last.indexLabel {
          assert x in init;
          var k :| 0 <= k < |init| && init[k] == x;
          assert rows[k] == x;
        }
        var r := d + [last];
        forall i, j | 0 <= i < j < |r| ensures r[i].indexLabel != r[j].indexLabel {
          if j == |r| - 1 {
            assert r[i] in d;
          } else {
            assert r[i] == d[i] && r[j] == d[j];
          }
        }
      }
    }
  }

  /** The labels of the default index are unique. */
  lemma LabelledUnique(rows: seq<ComparisonRow>)
    ensures UniqueLabels(Labelled(rows))
    ensures forall x :: x in Labelled(rows) ==> x.indexLabel < |rows|
  {
  }

  /** `df.drop(labels)`: every row whose label is listed goes, the rest keep their order. */
  function DropLabels(rows: seq<LabelledRow>, labels: seq<nat>): seq<LabelledRow>
  {
    if |rows| == 0 then []
    else
      var r := DropLabels(rows[..|rows| - 1], labels);
      if rows[|rows| - 1].indexLabel in labels then r else r + [rows[|rows| - 1]]
  }

  /** The rows a gene-count plot keeps: reported by more than five samples in either cohort,
      and index label below 40. */
  predicate KeepForGeneCounts(r: LabelledRow)
  {
    (r.row.tcgaGeneSampleCount > 5 || r.row.genieGeneSampleCount > 5) && r.indexLabel < 40
  }

  function KeptForGeneCounts(rows: seq<LabelledRow>): seq<LabelledRow>
  {
    if |rows| == 0 then []
    else
      var r := KeptForGeneCounts(rows[..|rows| - 1]);
      if KeepForGeneCounts(rows[|rows| - 1]) then r + [rows[|rows| - 1]] else r
  }

  /** `sample_counts_by_gene`: collects the labels of rows with at most five samples in both
      cohorts or a label of 40 or more, then drops them. */
  method SampleCountsByGene(rows: seq<LabelledRow>) returns (kept: seq<LabelledRow>)
    requires UniqueLabels(rows)
    ensures kept == KeptForGeneCounts(rows)
  {
    var toDrop: seq<nat> := [];
    for i := 0 to |rows|
      invariant forall l :: l in toDrop <==> exists j :: 0 <= j < i && rows[j].indexLabel == l && !KeepForGeneCounts(rows[j])
    {
      var tcgaCount := rows[i].row.tcgaGeneSampleCount;
      var genieCount := rows[i].row.genieGeneSampleCount;
      if tcgaCount <= 5 && genieCount <= 5 {
        toDrop := toDrop + [rows[i].indexLabel];
        continue;
      }
      if rows[i].indexLabel >= 40 {
        toDrop := toDrop + [rows[i].indexLabel];
        continue;
      }
    }
    kept := DropLabels(rows, toDrop);
    DropByLabelIsFilter(rows, toDrop);
  }

  /** With unique labels, dropping the collected labels is the same as keeping the rows that pass. */
  lemma {:induction false} DropByLabelIsFilter(rows: seq<LabelledRow>, toDrop: seq<nat>)
    requires UniqueLabels(rows)
    requires forall l :: l in toDrop <==>
               exists j :: 0 <= j < |rows| && rows[j].indexLabel == l && !KeepForGeneCounts(rows[j])
    ensures DropLabels(rows, toDrop) == KeptForGeneCounts(rows)
  {
    if |rows| > 0 {
      var init := rows[..|rows| - 1];
      var last := rows[|rows| - 1];
      assert forall j :: 0 <= j < |init| ==> init[j] == rows[j];
      DropPrefixAgrees(rows, toDrop, |rows| - 1);
      assert last.indexLabel in toDrop <==> !KeepForGeneCounts(last) by {
        if last.indexLabel in toDrop {
          var j :| 0 <= j < |rows| && rows[j].indexLabel == last.indexLabel && !KeepForGeneCounts(rows[j]);
          assert j == |rows| - 1;
        }
      }
    }
  }

  /** On a prefix of rows with unique labels, dropping agrees with filtering. */
  lemma {:induction false} DropPrefixAgrees(rows: seq<LabelledRow>, toDrop: seq<nat>, n: nat)
    requires n <= |rows| && UniqueLabels(rows)
    requires forall l :: l in toDrop <==>
               exists j :: 0 <= j < |rows| && rows[j].indexLabel == l && !KeepForGeneCounts(rows[j])
    ensures DropLabels(rows[..n], toDrop) == KeptForGeneCounts(rows[..n])
  {
    if n > 0 {
      DropPrefixAgrees(rows, toDrop, n - 1);
      var r := rows[n - 1];
      assert rows[..n][..n - 1] == rows[..n - 1];
      if r.indexLabel in toDrop {
        var j :| 0 <= j < |rows| && rows[j].indexLabel == r.indexLabel && !KeepForGeneCounts(rows[j]);
        assert j == n - 1;
      }
    }
  }

  /** A row is kept for the gene-count plot iff it passes, whatever its rank after sorting. */
  lemma {:induction false} KeptForGeneCountsMeaning(rows: seq<LabelledRow>)
    ensures IsSubsequence(KeptForGeneCounts(rows), rows)
    ensures forall r :: r in KeptForGeneCounts(rows) <==> r in rows && KeepForGeneCounts(r)
  {
    if |rows| > 0 {
      var init := rows[..|rows| - 1];
      var last := rows[|rows| - 1];
      KeptForGeneCountsMeaning(init);
      assert forall r :: r in rows <==> r in init || r == last;
      var k := KeptForGeneCounts(init);
      if KeepForGeneCounts(last) {
        assert (k + [last])[..|k|] == k;
      }
    }
  }

  /** `genie_oncotree_distribution`: the count table sorted by count keeps the labels it had in
      first-appearance order, so dropping labels of 40 or more keeps the first 40 codes seen. */
  method GenieOncotreeDistribution(counts: seq<SampleCount>) returns (kept: seq<SampleCount>)
    ensures |counts| <= 40 ==> kept == counts
    ensures |counts| > 40 ==> kept == counts[..40]
  {
    var toDrop: seq<nat> := [];
    for i := 0 to |counts|
      invariant forall l: int :: l in toDrop <==> 40 <= l < i
    {
      if i >= 40 {
        toDrop := toDrop + [i];
        continue;
      }
    }
    kept := [];
    for i := 0 to |counts|
      invariant kept == counts[..if i <= 40 then i else 40]
    {
      if i !in toDrop {
        kept := kept + [counts[i]];
      }
    }
  }
}
