/** The reference-cohort side: post-processing of the two frequency query results for one cancer
    code. The queries themselves run remotely; their result rows are inputs here. */
module TcgaAnalysis {
  import opened Common

  /** A row of a reference-cohort frequency query result. */
  datatype TcgaRow = TcgaRow(
    hugoSymbol: string,
    mutFraq: real,
    mutFreq: real,
    geneSampleCount: nat,
    totalSampleCount: nat)

  const Tert := "TERT"

  /** The restricted TERT query's frame: its rows, or an empty frame when the query raised (None). */
  function RestrictedFrame(query: Option<seq<TcgaRow>>): seq<TcgaRow>
  {
    match query
    case None => []
    case Some(rows) => rows
  }

  /** Some cell of the result holds "TERT" (the only text column is Hugo_Symbol). */
  predicate HasTert(target: seq<TcgaRow>)
  {
    exists i :: 0 <= i < |target| && target[i].hugoSymbol == Tert
  }

  /** The index of the first TERT row. */
  function FirstTert(target: seq<TcgaRow>): (i: nat)
    requires HasTert(target)
    ensures i < |target| && target[i].hugoSymbol == Tert
    ensures forall j :: 0 <= j < i ==> target[j].hugoSymbol != Tert
  {
    if target[0].hugoSymbol == Tert then 0
    else
      assert HasTert(target[1..]) by {
        var i :| 0 <= i < |target| && target[i].hugoSymbol == Tert;
        assert target[1..][i - 1] == target[i];
      }
      1 + FirstTert(target[1..])
  }

  /** The override applies: TERT is in the result, its first frequency is non-zero, the restricted
      frame has a first row with a non-zero frequency, and the two frequencies differ. */
  predicate Substitutes(target: seq<TcgaRow>, restricted: seq<TcgaRow>)
  {
    && HasTert(target)
    && |restricted| > 0
    && target[FirstTert(target)].mutFreq != 0.0
    && restricted[0].mutFreq != 0.0
    && restricted[0].mutFreq != target[FirstTert(target)].mutFreq
  }

  /** `mutation_frequency_by_cancer_code` after the main query: when the override applies, every
      TERT row takes the restricted frequency into its fraction column and the restricted counts;
      its frequency column and every other row are left as they are. */
  method MutationFrequencyByCancerCode(target: seq<TcgaRow>, restrictedQuery: Option<seq<TcgaRow>>)
    returns (r: seq<TcgaRow>)
    ensures |r| == |target|
    ensures forall i :: 0 <= i < |r| ==>
              r[i].hugoSymbol == target[i].hugoSymbol && r[i].mutFreq == target[i].mutFreq
    ensures forall i :: 0 <= i < |r| && target[i].hugoSymbol != Tert ==> r[i] == target[i]
    ensures !Substitutes(target, RestrictedFrame(restrictedQuery)) ==> r == target
    ensures Substitutes(target, RestrictedFrame(restrictedQuery)) ==>
              var adjusted := RestrictedFrame(restrictedQuery)[0];
              forall i :: 0 <= i < |r| && target[i].hugoSymbol == Tert ==>
                r[i] == target[i].(mutFraq := adjusted.mutFreq,
                                   geneSampleCount := adjusted.geneSampleCount,
                                   totalSampleCount := adjusted.totalSampleCount)
  {
    var tertFrame := RestrictedFrame(restrictedQuery);
    // a missing row 0 leaves the flag False
    var adjustedMf := 0.0;
    var tertSampleCount, pcawgSampleCount := 0, 0;
    if |tertFrame| > 0 {
      adjustedMf := tertFrame[0].mutFreq;
      tertSampleCount := tertFrame[0].geneSampleCount;
      pcawgSampleCount := tertFrame[0].totalSampleCount;
    }
    r := target;
    if HasTert(target) {
      var originalMf := target[FirstTert(target)].mutFreq;
      if originalMf != 0.0 && adjustedMf != 0.0 && adjustedMf != originalMf {
        assert Substitutes(target, tertFrame);
        for i := 0 to |r|
          invariant |r| == |target|
          invariant forall j :: i <= j < |r| ==> r[j] == target[j]
          invariant forall j :: 0 <= j < i && target[j].hugoSymbol != Tert ==> r[j] == target[j]
          invariant forall j :: 0 <= j < i && target[j].hugoSymbol == Tert ==>
                      r[j] == target[j].(mutFraq := adjustedMf, geneSampleCount := tertSampleCount,
                                         totalSampleCount := pcawgSampleCount)
        {
          if r[i].hugoSymbol == Tert {
            r := r[i := r[i].(mutFraq := adjustedMf, geneSampleCount := tertSampleCount,
                             totalSampleCount := pcawgSampleCount)];
          }
        }
      }
    }
  }

  /** Result rows whose frequency is their fraction as a percentage. */
  predicate Consistent(rows: seq<TcgaRow>)
  {
    forall i :: 0 <= i < |rows| ==> 0.0 <= rows[i].mutFraq <= 1.0 && rows[i].mutFreq == rows[i].mutFraq * 100.0
  }

  /** A result where TERT is found in 10 of 20 samples and in 1 of 10 restricted samples: the
      override leaves the TERT row with fraction 10.0 and frequency 50.0. */
  method TertOverrideBreaksConsistency() returns (r: seq<TcgaRow>)
    ensures Consistent([TcgaRow(Tert, 0.5, 50.0, 10, 20)]) && Consistent([TcgaRow(Tert, 0.1, 10.0, 1, 10)])
    ensures r == [TcgaRow(Tert, 10.0, 50.0, 1, 10)]
    ensures !Consistent(r)
  {
    var target := [TcgaRow(Tert, 0.5, 50.0, 10, 20)];
    assert HasTert(target) by { assert target[0].hugoSymbol == Tert; }
    assert FirstTert(target) == 0;
    r := MutationFrequencyByCancerCode(target, Some([TcgaRow(Tert, 0.1, 10.0, 1, 10)]));
    assert r[0] == TcgaRow(Tert, 10.0, 50.0, 1, 10);
    assert !(r[0].mutFraq <= 1.0);
  }

  /** The override as evidently intended: the TERT rows take the restricted fraction and frequency
      together, with the restricted counts. */
  function CorrectedTertOverride(target: seq<TcgaRow>, restrictedQuery: Option<seq<TcgaRow>>): (r: seq<TcgaRow>)
    ensures |r| == |target|
  {
    var restricted := RestrictedFrame(restrictedQuery);
    if !Substitutes(target, restricted) then target
    else
      var adjusted := restricted[0];
      seq(|target|, i requires 0 <= i < |target| =>
        if target[i].hugoSymbol == Tert
        then target[i].(mutFraq := adjusted.mutFraq, mutFreq := adjusted.mutFreq,
                        geneSampleCount := adjusted.geneSampleCount,
                        totalSampleCount := adjusted.totalSampleCount)
        else target[i])
  }

  /** The corrected override keeps every row's frequency the percentage of its fraction, and
      changes only TERT rows. */
  lemma CorrectedTertOverrideConsistent(target: seq<TcgaRow>, restrictedQuery: Option<seq<TcgaRow>>)
    requires Consistent(target) && Consistent(RestrictedFrame(restrictedQuery))
    ensures Consistent(CorrectedTertOverride(target, restrictedQuery))
    ensures forall i :: 0 <= i < |target| && target[i].hugoSymbol != Tert ==>
              CorrectedTertOverride(target, restrictedQuery)[i] == target[i]
  {
  }

  /** `parse_pcawg_samples`: the whitelist is the union of the specimen and donor id columns. */
  function PcawgWhitelist(specimenIds: seq<string>, donorIds: seq<string>): (r: set<string>)
    ensures forall x :: x in r <==> x in specimenIds || x in donorIds
  {
    (set x | x in specimenIds) + (set x | x in donorIds)
  }
}
