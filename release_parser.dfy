/** The release parser: builds, from one consortium release, the oncotree-code → rollup-code map,
    the samples table with its rollup column, the panel → gene-set map and the sample → panel map.
    File reading is left out: each table arrives as the sequence of its parsed rows, each panel
    file as the sequence of its lines (line terminators included). */
module ReleaseParsing {
  import opened Common
  import opened Text

  /** One entry of the `oncotree_rollup` list of the cancer-code resource. */
  datatype RollupGroup = RollupGroup(genieCancerCode: string, rollupCodes: seq<string>)

  /** A row of the mutation table (the columns the pipeline reads). */
  datatype Mutation = Mutation(hugoSymbol: string, tumorSampleBarcode: string, variantType: string)

  /** A row of the clinical sample table as read from the file. */
  datatype SampleRow = SampleRow(sampleId: string, oncotreeCode: string, seqAssayId: string)

  /** A row of the samples table once `ROLLUP_ONCOTREE_CODE` has been added (None where pandas holds None). */
  datatype Sample = Sample(sampleId: string, oncotreeCode: string, rollupCode: Option<string>, seqAssayId: string)

  // ---------------------------------------------------------------------------------------------
  // oncotree code -> rollup code

  /** The map after assigning `m[code] = genieCode` for each of `codes` in turn. */
  function AddGroupCodes(m: map<string, string>, codes: seq<string>, genieCode: string): map<string, string>
  {
    if |codes| == 0 then m
    else AddGroupCodes(m, codes[..|codes| - 1], genieCode)[codes[|codes| - 1] := genieCode]
  }

  /** The map the nested loop of `parse_oncotree_codes` builds from the groups in order. */
  function RollupMap(groups: seq<RollupGroup>): map<string, string>
  {
    if |groups| == 0 then map[]
    else
      var g := groups[|groups| - 1];
      AddGroupCodes(RollupMap(groups[..|groups| - 1]), g.rollupCodes, g.genieCancerCode)
  }

  lemma {:induction false} AddGroupCodesLookup(m: map<string, string>, codes: seq<string>, v: string, c: string)
    ensures c in AddGroupCodes(m, codes, v) <==> c in m || c in codes
    ensures c in codes ==> AddGroupCodes(m, codes, v)[c] == v
    ensures c !in codes && c in m ==> AddGroupCodes(m, codes, v)[c] == m[c]
  {
    if |codes| > 0 {
      var init := codes[..|codes| - 1];
      assert codes == init + [codes[|codes| - 1]];
      AddGroupCodesLookup(m, init, v, c);
    }
  }

  /** A code is mapped iff some group lists it. */
  lemma {:induction false} RollupMapDomain(groups: seq<RollupGroup>, code: string)
    ensures code in RollupMap(groups) <==> exists g :: 0 <= g < |groups| && code in groups[g].rollupCodes
  {
    if |groups| > 0 {
      var init := groups[..|groups| - 1];
      var last := groups[|groups| - 1];
      RollupMapDomain(init, code);
      AddGroupCodesLookup(RollupMap(init), last.rollupCodes, last.genieCancerCode, code);
      if exists g :: 0 <= g < |groups| && code in groups[g].rollupCodes {
        var g :| 0 <= g < |groups| && code in groups[g].rollupCodes;
        if g < |groups| - 1 {
          assert code in init[g].rollupCodes;
        }
      }
    }
  }

  /** Every code of a group maps to that group's code unless a later group lists it again:
      when a code appears in several groups the last one wins. */
  lemma {:induction false} RollupMapLastGroupWins(groups: seq<RollupGroup>, code: string, g: nat)
    requires g < |groups| && code in groups[g].rollupCodes
    requires forall h :: g < h < |groups| ==> code !in groups[h].rollupCodes
    ensures code in RollupMap(groups) && RollupMap(groups)[code] == groups[g].genieCancerCode
  {
    var init := groups[..|groups| - 1];
    var last := groups[|groups| - 1];
    AddGroupCodesLookup(RollupMap(init), last.rollupCodes, last.genieCancerCode, code);
    if g < |groups| - 1 {
      RollupMapLastGroupWins(init, code, g);
    }
  }

  // ---------------------------------------------------------------------------------------------
  // the rollup column of the samples table

  /** A sample row with its rollup code: the mapped value, or None when the code is not a key
      (no identity fallback at this stage). */
  function WithRollup(row: SampleRow, codes: map<string, string>): (s: Sample)
    ensures s.sampleId == row.sampleId && s.oncotreeCode == row.oncotreeCode && s.seqAssayId == row.seqAssayId
    ensures s.rollupCode.None? <==> row.oncotreeCode !in codes
    ensures s.rollupCode.Some? ==> s.rollupCode.value == codes[row.oncotreeCode]
  {
    Sample(row.sampleId, row.oncotreeCode,
           if row.oncotreeCode in codes then Some(codes[row.oncotreeCode]) else None,
           row.seqAssayId)
  }

  // ---------------------------------------------------------------------------------------------
  // gene panel files

  /** What the per-file loop of `parse_panel_genes` carries: the panel id and the gene list so far. */
  datatype PanelState = PanelState(panel: string, genes: seq<string>)

  const InitialPanel := PanelState("", [])

  /** The text before the first ':' of a line. */
  function KeyOf(line: string): string { Split(line, ':')[0] }

  /** The text between the first and second ':' of a line ("" when there is no ':'). */
  function ValueOf(line: string): string {
    var spl := Split(line, ':');
    if |spl| >= 2 then spl[1] else ""
  }

  /** One line of a panel file: `stable_id` sets the panel id, `gene_list` the genes, other keys
      are ignored; indexing `spl[1]` on a key line without ':' raises IndexError. */
  function ApplyPanelLine(st: PanelState, line: string): Result<PanelState>
  {
    var spl := Split(line, ':');
    if spl[0] == "stable_id" then
      if |spl| < 2 then Err(IndexError) else Ok(st.(panel := Upper(Strip(spl[1]))))
    else if spl[0] == "gene_list" then
      if |spl| < 2 then Err(IndexError) else Ok(st.(genes := Split(Upper(Strip(spl[1])), '\t')))
    else Ok(st)
  }

  /** The state after reading `lines` in order, stopping at the first error. */
  function ParsePanelLines(lines: seq<string>): Result<PanelState>
  {
    if |lines| == 0 then Ok(InitialPanel)
    else
      match ParsePanelLines(lines[..|lines| - 1])
      case Err(e) => Err(e)
      case Ok(st) => ApplyPanelLine(st, lines[|lines| - 1])
  }

  /** The map `parse_panel_genes` builds: each file's panel id to the set of its genes, in file order. */
  function PanelGenesOf(files: seq<seq<string>>): Result<map<string, set<string>>>
  {
    if |files| == 0 then Ok(map[])
    else
      match PanelGenesOf(files[..|files| - 1])
      case Err(e) => Err(e)
      case Ok(m) =>
        match ParsePanelLines(files[|files| - 1])
        case Err(e) => Err(e)
        case Ok(st) => Ok(m[st.panel := set g | g in st.genes])
  }

  /** A line makes the parser fail exactly when it is the bare word `stable_id` or `gene_list`
      (a key with no ':' after it, as on a last line without a newline). */
  lemma ApplyPanelLineFails(st: PanelState, line: string)
    ensures ApplyPanelLine(st, line).Err? <==> line == "stable_id" || line == "gene_list"
  {
    SplitSingle(line, ':');
    assert ':' !in "stable_id" && ':' !in "gene_list";
  }

  lemma {:induction false} ParsePanelLinesErrPersists(lines: seq<string>, j: nat)
    requires j <= |lines| && ParsePanelLines(lines[..j]).Err?
    ensures ParsePanelLines(lines).Err?
    decreases |lines| - j
  {
    if j < |lines| {
      assert lines[..j + 1][..j] == lines[..j];
      ParsePanelLinesErrPersists(lines, j + 1);
    } else {
      assert lines[..j] == lines;
    }
  }

  /** Reading a panel file fails iff one of its lines is a bare `stable_id` or `gene_list`. */
  lemma {:induction false} ParsePanelLinesFails(lines: seq<string>)
    ensures ParsePanelLines(lines).Err? <==>
            exists k :: 0 <= k < |lines| && (lines[k] == "stable_id" || lines[k] == "gene_list")
  {
    if |lines| > 0 {
      var init := lines[..|lines| - 1];
      ParsePanelLinesFails(init);
      if ParsePanelLines(init).Ok? {
        ApplyPanelLineFails(ParsePanelLines(init).value, lines[|lines| - 1]);
      }
      if exists k :: 0 <= k < |lines| && (lines[k] == "stable_id" || lines[k] == "gene_list") {
        var k :| 0 <= k < |lines| && (lines[k] == "stable_id" || lines[k] == "gene_list");
        if k < |lines| - 1 {
          assert init[k] == lines[k];
        }
      }
    }
  }

  /** The index of the last line whose key is `key`. */
  function LastKeyed(lines: seq<string>, key: string): (r: Option<nat>)
    ensures r.Some? ==> r.value < |lines| && KeyOf(lines[r.value]) == key
    ensures r.Some? ==> forall j :: r.value < j < |lines| ==> KeyOf(lines[j]) != key
    ensures r.None? ==> forall j :: 0 <= j < |lines| ==> KeyOf(lines[j]) != key
  {
    if |lines| == 0 then None
    else if KeyOf(lines[|lines| - 1]) == key then Some(|lines| - 1)
    else LastKeyed(lines[..|lines| - 1], key)
  }

  /** The panel id of a file is taken from its last `stable_id` line (stripped, upper-cased),
      and is "" when there is none. */
  lemma {:induction false} ParsedPanelIdIsLast(lines: seq<string>)
    requires ParsePanelLines(lines).Ok?
    ensures ParsePanelLines(lines).value.panel ==
            match LastKeyed(lines, "stable_id")
            case None => ""
            case Some(k) => Upper(Strip(ValueOf(lines[k])))
  {
    if |lines| > 0 {
      var init := lines[..|lines| - 1];
      var line := lines[|lines| - 1];
      assert ParsePanelLines(init).Ok?;
      ParsedPanelIdIsLast(init);
      var spl := Split(line, ':');
      if spl[0] == "stable_id" {
        assert |spl| >= 2;
        assert LastKeyed(lines, "stable_id") == Some(|lines| - 1);
      } else {
        assert ParsePanelLines(lines).value.panel == ParsePanelLines(init).value.panel;
        assert LastKeyed(lines, "stable_id") == LastKeyed(init, "stable_id");
        match LastKeyed(init, "stable_id")
        case None =>
        case Some(k) => assert lines[k] == init[k];
      }
    }
  }

  /** The genes of a file come from its last `gene_list` line (stripped, upper-cased, split on
      tab), and are empty when there is none. */
  lemma {:induction false} ParsedGenesAreLast(lines: seq<string>)
    requires ParsePanelLines(lines).Ok?
    ensures ParsePanelLines(lines).value.genes ==
            match LastKeyed(lines, "gene_list")
            case None => []
            case Some(k) => Split(Upper(Strip(ValueOf(lines[k]))), '\t')
  {
    if |lines| > 0 {
      var init := lines[..|lines| - 1];
      var line := lines[|lines| - 1];
      assert ParsePanelLines(init).Ok?;
      ParsedGenesAreLast(init);
      var spl := Split(line, ':');
      if spl[0] == "gene_list" {
        assert |spl| >= 2;
        assert LastKeyed(lines, "gene_list") == Some(|lines| - 1);
      } else {
        assert ParsePanelLines(lines).value.genes == ParsePanelLines(init).value.genes;
        assert LastKeyed(lines, "gene_list") == LastKeyed(init, "gene_list");
        match LastKeyed(init, "gene_list")
        case None =>
        case Some(k) => assert lines[k] == init[k];
      }
    }
  }

  /** Every gene read from a `gene_list` line is upper-case and holds no tab. */
  lemma GeneNamesNormalised(lines: seq<string>, g: string)
    requires ParsePanelLines(lines).Ok? && g in ParsePanelLines(lines).value.genes
    ensures IsUpper(g) && '\t' !in g
  {
    ParsedGenesAreLast(lines);
    var k := LastKeyed(lines, "gene_list").value;
    var text := Upper(Strip(ValueOf(lines[k])));
    SplitPiecesFree(text, '\t');
    SplitPiecesChars(text, '\t');
  }

  /** Every character of a piece of a split is a character of the text. */
  lemma {:induction false} SplitPiecesChars(s: string, sep: char)
    ensures forall k, i :: 0 <= k < |Split(s, sep)| && 0 <= i < |Split(s, sep)[k]| ==>
              Split(s, sep)[k][i] in s
    decreases |s|
  {
    if |s| > 0 {
      SplitPiecesChars(s[1..], sep);
      var rest := Split(s[1..], sep);
      var r := Split(s, sep);
      forall k, i | 0 <= k < |r| && 0 <= i < |r[k]| ensures r[k][i] in s {
        if s[0] == sep {
          if k > 0 {
            assert r[k] == rest[k - 1];
            assert r[k][i] in s[1..];
          }
        } else if k == 0 {
          if i > 0 {
            assert r[0][i] == rest[0][i - 1];
            assert r[0][i] in s[1..];
          }
        } else {
          assert r[k] == rest[k];
          assert r[k][i] in s[1..];
        }
      }
    }
  }

  lemma {:induction false} PanelGenesErrPersists(files: seq<seq<string>>, j: nat)
    requires j <= |files| && PanelGenesOf(files[..j]).Err?
    ensures PanelGenesOf(files).Err?
    decreases |files| - j
  {
    if j < |files| {
      assert files[..j + 1][..j] == files[..j];
      PanelGenesErrPersists(files, j + 1);
    } else {
      assert files[..j] == files;
    }
  }

  /** A panel map that could be built means every file could be read. */
  lemma {:induction false} PanelGenesOkFiles(files: seq<seq<string>>)
    requires PanelGenesOf(files).Ok?
    ensures forall f :: 0 <= f < |files| ==> ParsePanelLines(files[f]).Ok?
  {
    if |files| > 0 {
      var init := files[..|files| - 1];
      PanelGenesOkFiles(init);
      assert forall f :: 0 <= f < |files| - 1 ==> files[f] == init[f];
    }
  }

  /** A panel id is a key of the panel map iff some file carries it. */
  lemma {:induction false} PanelGenesDomain(files: seq<seq<string>>, p: string)
    requires PanelGenesOf(files).Ok?
    ensures p in PanelGenesOf(files).value <==>
            exists f :: 0 <= f < |files| && ParsePanelLines(files[f]).Ok? && ParsePanelLines(files[f]).value.panel == p
  {
    if |files| > 0 {
      var init := files[..|files| - 1];
      PanelGenesDomain(init, p);
      if exists f :: 0 <= f < |files| && ParsePanelLines(files[f]).Ok? && ParsePanelLines(files[f]).value.panel == p {
        var f :| 0 <= f < |files| && ParsePanelLines(files[f]).Ok? && ParsePanelLines(files[f]).value.panel == p;
        if f < |files| - 1 {
          assert files[f] == init[f];
        }
      }
    }
  }

  /** A file stores the set of its genes under its panel id, and a later file with the same id
      overwrites the earlier one. */
  lemma {:induction false} PanelGenesLastFileWins(files: seq<seq<string>>, p: string, f: nat)
    requires PanelGenesOf(files).Ok?
    requires f < |files| && ParsePanelLines(files[f]).Ok? && ParsePanelLines(files[f]).value.panel == p
    requires forall h :: f < h < |files| && ParsePanelLines(files[h]).Ok? ==> ParsePanelLines(files[h]).value.panel != p
    ensures p in PanelGenesOf(files).value
    ensures PanelGenesOf(files).value[p] == set g | g in ParsePanelLines(files[f]).value.genes
  {
    var init := files[..|files| - 1];
    if f < |files| - 1 {
      assert files[f] == init[f];
      PanelGenesLastFileWins(init, p, f);
    }
  }

  // ---------------------------------------------------------------------------------------------
  // sample -> panel

  /** The map `create_sample_panel_dict` builds: each sample id to its SEQ_ASSAY_ID, later rows overwriting. */
  function SamplePanelMap(samples: seq<Sample>): map<string, string>
  {
    if |samples| == 0 then map[]
    else SamplePanelMap(samples[..|samples| - 1])[samples[|samples| - 1].sampleId := samples[|samples| - 1].seqAssayId]
  }

  /** Every sample id is a key; its value is the SEQ_ASSAY_ID of the last row with that id, verbatim. */
  lemma {:induction false} SamplePanelMapLastRowWins(samples: seq<Sample>, id: string)
    ensures id in SamplePanelMap(samples) <==> exists i :: 0 <= i < |samples| && samples[i].sampleId == id
    ensures forall i :: 0 <= i < |samples| && samples[i].sampleId == id &&
                        (forall j :: i < j < |samples| ==> samples[j].sampleId != id) ==>
              SamplePanelMap(samples)[id] == samples[i].seqAssayId
  {
    if |samples| > 0 {
      var init := samples[..|samples| - 1];
      SamplePanelMapLastRowWins(init, id);
      assert forall i :: 0 <= i < |samples| - 1 ==> samples[i] == init[i];
    }
  }

  // ---------------------------------------------------------------------------------------------
  // the parser object

  /** The line loop of `parse_panel_genes` over one panel file. */
  method ReadPanelFile(lines: seq<string>) returns (r: Result<PanelState>)
    ensures r == ParsePanelLines(lines)
  {
    var panel := "";
    var genes: seq<string> := [];
    for j := 0 to |lines|
      invariant ParsePanelLines(lines[..j]) == Ok(PanelState(panel, genes))
    {
      assert lines[..j + 1][..j] == lines[..j];
      var spl := Split(lines[j], ':');
      if spl[0] == "stable_id" {
        if |spl| < 2 {
          ParsePanelLinesErrPersists(lines, j + 1);
          assert ParsePanelLines(lines) == Err(IndexError) by {
            ParsePanelLinesErrorIsIndex(lines);
          }
          return Err(IndexError);
        }
        panel := Upper(Strip(spl[1]));
      }
      if spl[0] == "gene_list" {
        if |spl| < 2 {
          ParsePanelLinesErrPersists(lines, j + 1);
          assert ParsePanelLines(lines) == Err(IndexError) by {
            ParsePanelLinesErrorIsIndex(lines);
          }
          return Err(IndexError);
        }
        genes := Split(Upper(Strip(spl[1])), '\t');
      }
    }
    assert lines[..|lines|] == lines;
    return Ok(PanelState(panel, genes));
  }

  /** The only error reading a panel file raises is IndexError. */
  lemma {:induction false} ParsePanelLinesErrorIsIndex(lines: seq<string>)
    ensures ParsePanelLines(lines).Err? ==> ParsePanelLines(lines).error == IndexError
  {
    if |lines| > 0 {
      ParsePanelLinesErrorIsIndex(lines[..|lines| - 1]);
    }
  }

  /** The parsed tables of one release, filled in by `ParseAll` in the source's order. */
  class ReleaseParser {
    var oncotreeCodes: map<string, string>
    var mutations: seq<Mutation>
    var samples: seq<Sample>
    var panelGenes: map<string, set<string>>
    var samplePanels: map<string, string>

    /** A parser before any table is read. */
    constructor ()
      ensures oncotreeCodes == map[] && mutations == [] && samples == []
      ensures panelGenes == map[] && samplePanels == map[]
    {
      oncotreeCodes, mutations, samples := map[], [], [];
      panelGenes, samplePanels := map[], map[];
    }

    /** `parse_oncotree_codes`: every code of every group maps to the group's GENIE code. */
    method ParseOncotreeCodes(groups: seq<RollupGroup>)
      modifies this`oncotreeCodes
      ensures oncotreeCodes == RollupMap(groups)
    {
      oncotreeCodes := map[];
      for i := 0 to |groups|
        invariant oncotreeCodes == RollupMap(groups[..i])
      {
        var g := groups[i];
        ghost var before := oncotreeCodes;
        for j := 0 to |g.rollupCodes|
          invariant oncotreeCodes == AddGroupCodes(before, g.rollupCodes[..j], g.genieCancerCode)
        {
          assert g.rollupCodes[..j + 1][..j] == g.rollupCodes[..j];
          oncotreeCodes := oncotreeCodes[g.rollupCodes[j] := g.genieCancerCode];
        }
        assert g.rollupCodes[..|g.rollupCodes|] == g.rollupCodes;
        assert groups[..i + 1][..i] == groups[..i];
      }
      assert groups[..|groups|] == groups;
    }

    /** `parse_mutations`: the mutation table as read. */
    method ParseMutations(rows: seq<Mutation>)
      modifies this`mutations
      ensures mutations == rows
    {
      mutations := rows;
    }

    /** `parse_samples`: one rollup entry per sample row, in row order, looked up in the
        oncotree map, None on a miss. */
    method ParseSamples(rows: seq<SampleRow>)
      modifies this`samples
      ensures |samples| == |rows|
      ensures forall i :: 0 <= i < |rows| ==> samples[i] == WithRollup(rows[i], oncotreeCodes)
    {
      var rollupCodes: seq<Option<string>> := [];
      for i := 0 to |rows|
        invariant |rollupCodes| == i
        invariant forall k :: 0 <= k < i ==> rollupCodes[k] == WithRollup(rows[k], oncotreeCodes).rollupCode
      {
        var code := rows[i].oncotreeCode;
        var rollup := if code in oncotreeCodes then Some(oncotreeCodes[code]) else None;
        rollupCodes := rollupCodes + [rollup];
      }
      samples := seq(|rows|, k requires 0 <= k < |rows| =>
                       Sample(rows[k].sampleId, rows[k].oncotreeCode, rollupCodes[k], rows[k].seqAssayId));
    }

    /** `parse_panel_genes`: reads every panel file; false when a line raises IndexError. */
    method ParsePanelGenes(files: seq<seq<string>>) returns (ok: bool)
      modifies this`panelGenes
      ensures ok <==> PanelGenesOf(files).Ok?
      ensures ok ==> panelGenes == PanelGenesOf(files).value
    {
      panelGenes := map[];
      for i := 0 to |files|
        invariant PanelGenesOf(files[..i]) == Ok(panelGenes)
      {
        assert files[..i + 1][..i] == files[..i];
        assert files[..i + 1][i] == files[i];
        var st := ReadPanelFile(files[i]);
        if st.Err? {
          PanelGenesErrPersists(files, i + 1);
          return false;
        }
        panelGenes := panelGenes[st.value.panel := set g | g in st.value.genes];
      }
      assert files[..|files|] == files;
      ok := true;
    }

    /** `create_sample_panel_dict`: SAMPLE_ID to SEQ_ASSAY_ID over the samples table. */
    method CreateSamplePanelDict()
      modifies this`samplePanels
      ensures samplePanels == SamplePanelMap(samples)
    {
      samplePanels := map[];
      for i := 0 to |samples|
        invariant samplePanels == SamplePanelMap(samples[..i])
      {
        assert samples[..i + 1][..i] == samples[..i];
        samplePanels := samplePanels[samples[i].sampleId := samples[i].seqAssayId];
      }
      assert samples[..|samples|] == samples;
    }

    /** `parse_all`: the parse steps in the source's order; false when panel parsing raised,
        in which case the sample → panel map is not built. */
    method ParseAll(groups: seq<RollupGroup>, mutationRows: seq<Mutation>, sampleRows: seq<SampleRow>,
                    panelFiles: seq<seq<string>>) returns (ok: bool)
      modifies this
      ensures oncotreeCodes == RollupMap(groups)
      ensures mutations == mutationRows
      ensures |samples| == |sampleRows|
      ensures forall i :: 0 <= i < |sampleRows| ==> samples[i] == WithRollup(sampleRows[i], RollupMap(groups))
      ensures ok <==> PanelGenesOf(panelFiles).Ok?
      ensures ok ==> panelGenes == PanelGenesOf(panelFiles).value && samplePanels == SamplePanelMap(samples)
    {
      ParseOncotreeCodes(groups);
      ParseMutations(mutationRows);
      ParseSamples(sampleRows);
      ok := ParsePanelGenes(panelFiles);
      if ok {
        CreateSamplePanelDict();
      }
    }
  }
}
