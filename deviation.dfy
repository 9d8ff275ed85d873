/** Deviation between the two cohorts' mutation frequencies: every (reference, consortium)
    frequency pair is a point, its error is the point's distance to the diagonal y = x, and the
    root-mean-square of those errors is reported per cancer type and per gene, plain and weighted
    by the larger of the two frequencies. */
module Deviation {
  import opened Common
  import opened Seqs
  import opened Text
  import opened TcgaAnalysis
  import opened Comparison

  /** The length `coeff * sin 45°` (equal to `coeff * cos 45°`). Naming the coefficient keeps the
      square exact: it is `coeff * coeff / 2`. */
  datatype Diagonal = Diagonal(coeff: real)

  function Squared(d: Diagonal): real
  {
    d.coeff * d.coeff / 2.0
  }

  /** A frequency pair: `x` from the reference cohort, `y` from the consortium. */
  datatype Point = Point(x: real, y: real)

  /** The distance from the point to the diagonal: the difference of the two frequencies times
      sin 45° (or cos 45°, on the other side of the diagonal). */
  function PointError(p: Point): (d: Diagonal)
    ensures d.coeff >= 0.0
    ensures d.coeff == 0.0 <==> p.x == p.y
    ensures Squared(d) == SquaredDifference(p) / 2.0
  {
    if p.y == p.x then Diagonal(0.0)
    else if p.x > p.y then Diagonal(p.x - p.y)
    else Diagonal(p.y - p.x)
  }

  /** The distance scaled by the larger frequency, read as a percentage. */
  function WeightedError(p: Point): (d: Diagonal)
    ensures d.coeff == PointError(p).coeff * Max(p.x, p.y) / 100.0
    ensures p.x == p.y ==> d.coeff == 0.0
  {
    if p.y == p.x then Diagonal(0.0)
    else if p.x > p.y then Diagonal((p.x - p.y) * p.x / 100.0)
    else Diagonal((p.y - p.x) * p.y / 100.0)
  }

  /** For frequencies between 0 and 100 the weighted distance lies between zero and the plain one. */
  lemma WeightedErrorBounded(p: Point)
    requires 0.0 <= p.x <= 100.0 && 0.0 <= p.y <= 100.0
    ensures 0.0 <= WeightedError(p).coeff <= PointError(p).coeff
  {
    if p.x > p.y {
      ScaledDistanceBelow(WeightedError(p), PointError(p), p.x - p.y, p.x);
    } else if p.y > p.x {
      ScaledDistanceBelow(WeightedError(p), PointError(p), p.y - p.x, p.y);
    }
  }

  lemma ScaledDistanceBelow(w: Diagonal, e: Diagonal, h: real, v: real)
    requires h >= 0.0 && 0.0 <= v <= 100.0
    requires w == Diagonal(h * v / 100.0) && e == Diagonal(h)
    ensures 0.0 <= w.coeff <= e.coeff
  {
    ScaledBelow(h, v);
  }

  /** The distance of a point to the diagonal does not depend on which cohort is on which axis. */
  lemma ErrorsSymmetric(x: real, y: real)
    ensures PointError(Point(x, y)) == PointError(Point(y, x))
    ensures WeightedError(Point(x, y)) == WeightedError(Point(y, x))
  {
  }

  function Errors(ps: seq<Point>): seq<Diagonal>
  {
    seq(|ps|, i requires 0 <= i < |ps| => PointError(ps[i]))
  }

  function WeightedErrors(ps: seq<Point>): seq<Diagonal>
  {
    seq(|ps|, i requires 0 <= i < |ps| => WeightedError(ps[i]))
  }

  /** `sum([x**2 for x in err])` */
  function SumSquares(ds: seq<Diagonal>): real
  {
    if |ds| == 0 then 0.0 else SumSquares(ds[..|ds| - 1]) + Squared(ds[|ds| - 1])
  }

  /** `sum(absolute_sum)`, as a multiple of sin 45°. */
  function ErrorSum(ds: seq<Diagonal>): real
  {
    if |ds| == 0 then 0.0 else ErrorSum(ds[..|ds| - 1]) + ds[|ds| - 1].coeff
  }

  function MeanSquare(ds: seq<Diagonal>): real
    requires |ds| > 0
  {
    SumSquares(ds) / |ds| as real
  }

  /** `round(mean_square ** 0.5, 2)`: the rounded square root is left symbolic. */
  datatype Rounded = RoundedRoot(meanSquare: real)

  /** The squared difference of the two frequencies of a point. */
  function SquaredDifference(p: Point): (r: real)
    ensures r >= 0.0
    ensures p.x == p.y ==> r == 0.0
  {
    (p.x - p.y) * (p.x - p.y)
  }

  /** The sum of squared differences of the two frequencies. */
  function SumSquaredDifferences(ps: seq<Point>): real
  {
    if |ps| == 0 then 0.0
    else SumSquaredDifferences(ps[..|ps| - 1]) + SquaredDifference(ps[|ps| - 1])
  }

  lemma ErrorsPrefix(ps: seq<Point>, n: nat)
    requires n <= |ps|
    ensures Errors(ps)[..n] == Errors(ps[..n])
    ensures WeightedErrors(ps)[..n] == WeightedErrors(ps[..n])
  {
  }

  /** The squared distances to the diagonal sum to half the squared differences. */
  lemma {:induction false} SumSquaresOfErrors(ps: seq<Point>)
    ensures SumSquares(Errors(ps)) == SumSquaredDifferences(ps) / 2.0
  {
    if |ps| > 0 {
      var n := |ps| - 1;
      ErrorsPrefix(ps, n);
      SumSquaresOfErrors(ps[..n]);
      assert Errors(ps)[n] == PointError(ps[n]);
    }
  }

  /** The squared differences sum to a non-negative amount, zero when every pair agrees. */
  lemma {:induction false} SumSquaredDifferencesZero(ps: seq<Point>)
    ensures SumSquaredDifferences(ps) >= 0.0
    ensures (forall i :: 0 <= i < |ps| ==> ps[i].x == ps[i].y) ==> SumSquaredDifferences(ps) == 0.0
  {
    if |ps| > 0 {
      var n := |ps| - 1;
      var init := ps[..n];
      SumSquaredDifferencesZero(init);
      assert forall i :: 0 <= i < n ==> init[i] == ps[i];
    }
  }

  lemma MulPositive(a: real, b: real)
    requires a > 0.0 && b > 0.0
    ensures a * b > 0.0
  {
  }

  lemma MulNonNegative(a: real, b: real)
    requires a >= 0.0 && b >= 0.0
    ensures a * b >= 0.0
  {
    if a > 0.0 && b > 0.0 {
      MulPositive(a, b);
    }
  }

  /** A non-negative amount scaled by a percentage stays between zero and itself. */
  lemma ScaledBelow(h: real, v: real)
    requires h >= 0.0 && 0.0 <= v <= 100.0
    ensures 0.0 <= h * v / 100.0 <= h
  {
    MulNonNegative(h, v);
    MulNonNegative(h, 100.0 - v);
    assert h * (100.0 - v) == h * 100.0 - h * v;
  }

  lemma HalfMean(a: real, n: real)
    requires n > 0.0
    ensures (a / 2.0) / n == a / (2.0 * n)
    ensures a >= 0.0 ==> a / (2.0 * n) >= 0.0
    ensures a == 0.0 ==> a / (2.0 * n) == 0.0
  {
  }

  /** The mean squared error is half the mean squared difference of the frequencies; it is never
      negative, and zero when the two cohorts agree on every point. */
  lemma MeanSquareOfErrors(ps: seq<Point>)
    requires |ps| > 0
    ensures MeanSquare(Errors(ps)) == SumSquaredDifferences(ps) / (2.0 * |ps| as real)
    ensures MeanSquare(Errors(ps)) >= 0.0
    ensures (forall i :: 0 <= i < |ps| ==> ps[i].x == ps[i].y) ==> MeanSquare(Errors(ps)) == 0.0
  {
    SumSquaresOfErrors(ps);
    SumSquaredDifferencesZero(ps);
    HalfMean(SumSquaredDifferences(ps), |ps| as real);
  }

  /** With frequencies between 0 and 100, weighting never increases the mean squared error. */
  lemma WeightedNotAbove(ps: seq<Point>)
    requires |ps| > 0
    requires forall i :: 0 <= i < |ps| ==> 0.0 <= ps[i].x <= 100.0 && 0.0 <= ps[i].y <= 100.0
    ensures MeanSquare(WeightedErrors(ps)) <= MeanSquare(Errors(ps))
  {
    WeightedSumNotAbove(ps);
    DivideMonotone(SumSquares(WeightedErrors(ps)), SumSquares(Errors(ps)), |ps| as real);
  }

  lemma DivideMonotone(a: real, b: real, n: real)
    requires a <= b && n > 0.0
    ensures a / n <= b / n
  {
  }

  lemma {:induction false} WeightedSumNotAbove(ps: seq<Point>)
    requires forall i :: 0 <= i < |ps| ==> 0.0 <= ps[i].x <= 100.0 && 0.0 <= ps[i].y <= 100.0
    ensures SumSquares(WeightedErrors(ps)) <= SumSquares(Errors(ps))
  {
    if |ps| > 0 {
      var n := |ps| - 1;
      var ws, es := WeightedErrors(ps), Errors(ps);
      ErrorsPrefix(ps, n);
      WeightedSumNotAbove(ps[..n]);
      WeightedErrorBounded(ps[n]);
      SquareMonotone(ws[n], es[n]);
      SumSquaresSnocNotAbove(ws, es);
    }
  }

  /** Sums of squares compare like their prefixes and last elements. */
  lemma SumSquaresSnocNotAbove(ws: seq<Diagonal>, es: seq<Diagonal>)
    requires |ws| == |es| > 0
    requires SumSquares(ws[..|ws| - 1]) <= SumSquares(es[..|es| - 1])
    requires Squared(ws[|ws| - 1]) <= Squared(es[|es| - 1])
    ensures SumSquares(ws) <= SumSquares(es)
  {
  }

  lemma SquareMonotone(w: Diagonal, e: Diagonal)
    requires 0.0 <= w.coeff <= e.coeff
    ensures Squared(w) <= Squared(e)
  {
    var a, b := w.coeff, e.coeff;
    MulNonNegative(a, b - a);
    MulNonNegative(b, b - a);
    assert a * (b - a) == a * b - a * a;
    assert b * (b - a) == b * b - b * a;
  }

  // ---------------------------------------------------------------------------------------------
  // by cancer type

  /** The points of a merged table: reference frequency against consortium frequency. */
  function PointsOf(rows: seq<ComparisonRow>): seq<Point>
  {
    seq(|rows|, i requires 0 <= i < |rows| => Point(rows[i].tcgaMutFreq, rows[i].genieMutFreq))
  }

  /** RMSD and weighted RMSD of a set of points; dividing by the empty count fails. */
  function RmsdOf(ps: seq<Point>): Result<(Rounded, Rounded)>
  {
    if |ps| == 0 then Err(ZeroDivisionError)
    else Ok((RoundedRoot(MeanSquare(Errors(ps))), RoundedRoot(MeanSquare(WeightedErrors(ps)))))
  }

  /** `rmsd_by_cancer_type`: one error per merged row, then the two root-mean-squares. */
  method RmsdByCancerType(rows: seq<ComparisonRow>) returns (r: Result<(Rounded, Rounded)>)
    ensures r.Err? <==> |rows| == 0
    ensures r.Err? ==> r.error == ZeroDivisionError
    ensures r.Ok? ==> r.value.0.meanSquare == SumSquaredDifferences(PointsOf(rows)) / (2.0 * |rows| as real)
    ensures r == RmsdOf(PointsOf(rows))
  {
    var err: seq<Diagonal> := [];
    var weightedErr: seq<Diagonal> := [];
    for i := 0 to |rows|
      invariant err == Errors(PointsOf(rows)[..i])
      invariant weightedErr == WeightedErrors(PointsOf(rows)[..i])
    {
      var p := Point(rows[i].tcgaMutFreq, rows[i].genieMutFreq);
      assert PointsOf(rows)[..i + 1] == PointsOf(rows)[..i] + [p];
      err := err + [PointError(p)];
      weightedErr := weightedErr + [WeightedError(p)];
    }
    assert PointsOf(rows)[..|rows|] == PointsOf(rows);
    if |err| == 0 {
      return Err(ZeroDivisionError);
    }
    MeanSquareOfErrors(PointsOf(rows));
    var mse := SumSquares(err) / |err| as real;
    var weightedMse := SumSquares(weightedErr) / |weightedErr| as real;
    r := Ok((RoundedRoot(mse), RoundedRoot(weightedMse)));
  }

  // ---------------------------------------------------------------------------------------------
  // by gene, over the saved per-cancer-type result files

  /** A saved result table: its path and its lines. */
  datatype ResultFile = ResultFile(path: string, lines: seq<string>)

  /** The two frequency fields of a line, still as text. */
  datatype FreqPair = FreqPair(tcgaField: string, genieField: string)

  /** The gene dictionary: keys in insertion order, and each key's pairs in reading order. */
  datatype GeneTable = GeneTable(order: seq<string>, pairs: map<string, seq<FreqPair>>)

  const EmptyTable := GeneTable([], map[])

  /** The header line's gene field. */
  const HeaderGene := "Hugo_Symbol"

  /** Aggregate tables (paths mentioning rmsd or RMSD) are not per-cancer-type results. */
  predicate SkippedPath(path: string)
  {
    Contains(path, "rmsd") || Contains(path, "RMSD")
  }

  /** The lines read, file after file, from the files that are not skipped. */
  function ScannedLines(files: seq<ResultFile>): seq<string>
  {
    if |files| == 0 then []
    else
      var f := files[|files| - 1];
      ScannedLines(files[..|files| - 1]) + (if SkippedPath(f.path) then [] else f.lines)
  }

  /** Splitting the files at any point splits the lines read at the same point. */
  lemma {:induction false} ScannedLinesSplit(files: seq<ResultFile>, k: nat)
    requires k <= |files|
    ensures ScannedLines(files) == ScannedLines(files[..k]) + ScannedLines(files[k..])
    decreases |files|
  {
    if k < |files| {
      var n := |files| - 1;
      ScannedLinesSplit(files[..n], k);
      assert files[..n][..k] == files[..k];
      var tail := files[k..];
      assert tail[..|tail| - 1] == files[..n][k..];
      assert tail[|tail| - 1] == files[n];
    } else {
      assert files[..k] == files;
      assert files[k..] == [];
    }
  }

  /** A line with the index column and the eight data columns up to the consortium frequency. */
  predicate WellFormedLine(line: string)
  {
    |Split(line, '\t')| >= 8
  }

  predicate AllWellFormed(lines: seq<string>)
  {
    forall i :: 0 <= i < |lines| ==> WellFormedLine(lines[i])
  }

  function GeneField(line: string): string
    requires WellFormedLine(line)
  {
    Split(line, '\t')[1]
  }

  function PairOf(line: string): FreqPair
    requires WellFormedLine(line)
  {
    var spl := Split(line, '\t');
    FreqPair(spl[3], spl[7])
  }

  ghost predicate WellFormedTable(t: GeneTable)
  {
    && NoDuplicates(t.order)
    && (forall g :: g in t.pairs <==> g in t.order)
    && (forall g :: g in t.pairs ==> |t.pairs[g]| > 0)
  }

  /** Appends to the gene's list, or starts a new one at the end of the key order. */
  function Insert(t: GeneTable, gene: string, p: FreqPair): (r: GeneTable)
    requires WellFormedTable(t)
    ensures WellFormedTable(r)
  {
    if gene in t.pairs then GeneTable(t.order, t.pairs[gene := t.pairs[gene] + [p]])
    else GeneTable(t.order + [gene], t.pairs[gene := [p]])
  }

  /** Reading the lines into the gene dictionary; a line with too few fields raises IndexError. */
  function CollectLines(lines: seq<string>): (r: Result<GeneTable>)
    ensures r.Ok? ==> WellFormedTable(r.value)
  {
    if |lines| == 0 then Ok(EmptyTable)
    else
      var r := CollectLines(lines[..|lines| - 1]);
      var line := lines[|lines| - 1];
      if r.Err? then r
      else if !WellFormedLine(line) then Err(IndexError)
      else Ok(Insert(r.value, GeneField(line), PairOf(line)))
  }

  lemma {:induction false} CollectLinesErrPersists(lines: seq<string>, n: nat)
    requires n <= |lines| && CollectLines(lines[..n]).Err?
    ensures CollectLines(lines) == CollectLines(lines[..n])
    decreases |lines| - n
  {
    if n < |lines| {
      assert lines[..n + 1][..n] == lines[..n];
      CollectLinesErrPersists(lines, n + 1);
    } else {
      assert lines[..n] == lines;
    }
  }

  /** The gene field of every line. */
  function GeneFields(lines: seq<string>): seq<string>
    requires AllWellFormed(lines)
  {
    seq(|lines|, i requires 0 <= i < |lines| => GeneField(lines[i]))
  }

  /** The frequency pairs of the lines whose gene field is `g`, in reading order. */
  function PairsFor(lines: seq<string>, g: string): seq<FreqPair>
    requires AllWellFormed(lines)
  {
    if |lines| == 0 then []
    else
      var line := lines[|lines| - 1];
      PairsFor(lines[..|lines| - 1], g) + (if GeneField(line) == g then [PairOf(line)] else [])
  }

  /** Every gene read gets one list holding the pairs of exactly its lines, one per line. */
  lemma {:induction false} PairsForCount(lines: seq<string>, g: string)
    requires AllWellFormed(lines)
    ensures |PairsFor(lines, g)| == Count(GeneFields(lines), g)
  {
    if |lines| > 0 {
      var n := |lines| - 1;
      var init, line := lines[..n], lines[n];
      assert AllWellFormed(init);
      PairsForCount(init, g);
      assert GeneFields(lines) == GeneFields(init) + [GeneField(line)];
      CountSnoc(GeneFields(init), GeneField(line), g);
      assert |PairsFor(lines, g)| == |PairsFor(init, g)| + (if GeneField(line) == g then 1 else 0);
    }
  }

  lemma GeneFieldsSnoc(lines: seq<string>)
    requires |lines| > 0 && AllWellFormed(lines)
    ensures AllWellFormed(lines[..|lines| - 1])
    ensures GeneFields(lines) == GeneFields(lines[..|lines| - 1]) + [GeneField(lines[|lines| - 1])]
  {
  }

  /** The dictionary is read without error iff every line has enough fields. */
  lemma {:induction false} CollectLinesOk(lines: seq<string>)
    ensures CollectLines(lines).Ok? <==> AllWellFormed(lines)
  {
    if |lines| > 0 {
      CollectLinesOk(lines[..|lines| - 1]);
      AllWellFormedSnoc(lines);
    }
  }

  lemma AllWellFormedSnoc(lines: seq<string>)
    requires |lines| > 0
    ensures AllWellFormed(lines) <==>
              AllWellFormed(lines[..|lines| - 1]) && WellFormedLine(lines[|lines| - 1])
  {
    var n := |lines| - 1;
    assert forall i :: 0 <= i < n ==> lines[..n][i] == lines[i];
  }

  /** The dictionary's keys are the gene fields in first-appearance order. */
  lemma {:induction false} CollectLinesOrder(lines: seq<string>)
    requires AllWellFormed(lines)
    ensures CollectLines(lines).Ok?
    ensures CollectLines(lines).value.order == Distinct(GeneFields(lines))
  {
    CollectLinesOk(lines);
    if |lines| > 0 {
      var n := |lines| - 1;
      var init := lines[..n];
      GeneFieldsSnoc(lines);
      CollectLinesOrder(init);
      var t := CollectLines(init).value;
      var g := GeneField(lines[n]);
      DistinctSnoc(GeneFields(init), g);
      assert g in t.pairs <==> g in GeneFields(init);
    }
  }

  /** Each key of the dictionary holds the pairs of exactly its own lines, in reading order. */
  lemma {:induction false} CollectLinesPairs(lines: seq<string>)
    requires AllWellFormed(lines)
    ensures CollectLines(lines).Ok?
    ensures forall g :: g in CollectLines(lines).value.pairs ==>
              CollectLines(lines).value.pairs[g] == PairsFor(lines, g)
  {
    CollectLinesOk(lines);
    if |lines| > 0 {
      var n := |lines| - 1;
      var init := lines[..n];
      GeneFieldsSnoc(lines);
      CollectLinesPairs(init);
      var t := CollectLines(init).value;
      var g := GeneField(lines[n]);
      forall h | h in CollectLines(lines).value.pairs
        ensures CollectLines(lines).value.pairs[h] == PairsFor(lines, h)
      {
        if h != g {
          assert h in t.pairs;
        } else if g !in t.pairs {
          PairsForAbsent(init, g);
        }
      }
    }
  }

  /** A gene no line names has no pairs. */
  lemma {:induction false} PairsForAbsent(lines: seq<string>, g: string)
    requires AllWellFormed(lines)
    requires CollectLines(lines).Ok? && g !in CollectLines(lines).value.pairs
    ensures PairsFor(lines, g) == []
  {
    if |lines| > 0 {
      var n := |lines| - 1;
      GeneFieldsSnoc(lines);
      CollectLinesOk(lines[..n]);
      var t := CollectLines(lines[..n]).value;
      assert GeneField(lines[n]) != g;
      assert g !in t.pairs;
      PairsForAbsent(lines[..n], g);
    }
  }

  /** Text-to-number conversion of a pair's fields; the first field that does not convert raises
      ValueError. */
  function ParsePairs(ps: seq<FreqPair>, toFloat: string -> Option<real>): (r: Result<seq<Point>>)
    ensures r.Ok? <==> forall i :: 0 <= i < |ps| ==> toFloat(ps[i].tcgaField).Some? && toFloat(ps[i].genieField).Some?
    ensures r.Err? ==> r.error == ValueError
    ensures r.Ok? ==> |r.value| == |ps|
    ensures r.Ok? ==> forall i :: 0 <= i < |ps| ==>
              r.value[i] == Point(toFloat(ps[i].tcgaField).value, toFloat(ps[i].genieField).value)
  {
    if |ps| == 0 then Ok([])
    else
      var init := ps[..|ps| - 1];
      var p := ps[|ps| - 1];
      assert forall i :: 0 <= i < |init| ==> init[i] == ps[i];
      var r := ParsePairs(init, toFloat);
      if r.Err? then r
      else
        match (toFloat(p.tcgaField), toFloat(p.genieField))
        case (Some(x), Some(y)) => Ok(r.value + [Point(x, y)])
        case _ => Err(ValueError)
  }

  /** A row of the per-gene deviation table. */
  datatype GeneDeviation = GeneDeviation(
    gene: string,
    rmsd: Rounded,
    wrmsd: Rounded,
    errorSum: Diagonal,
    cancerTypeCount: nat)

  /** The deviation of one gene over the cancer types it was reported in; every point counts,
      zero-error points included. */
  function DeviationOf(gene: string, ps: seq<Point>): GeneDeviation
    requires |ps| > 0
  {
    GeneDeviation(gene, RoundedRoot(MeanSquare(Errors(ps))), RoundedRoot(MeanSquare(WeightedErrors(ps))),
                  Diagonal(ErrorSum(Errors(ps))), |ps|)
  }

  /** The deviation rows of the dictionary's keys, in key order, the header key skipped. */
  function Deviations(order: seq<string>, pairs: map<string, seq<FreqPair>>, toFloat: string -> Option<real>)
    : Result<seq<GeneDeviation>>
    requires forall g :: g in order ==> g in pairs && |pairs[g]| > 0
  {
    if |order| == 0 then Ok([])
    else
      var g := order[|order| - 1];
      var r := Deviations(order[..|order| - 1], pairs, toFloat);
      if r.Err? then r
      else if g == HeaderGene then r
      else
        var ps := ParsePairs(pairs[g], toFloat);
        if ps.Err? then Err(ps.error) else Ok(r.value + [DeviationOf(g, ps.value)])
  }

  lemma DeviationsStep(order: seq<string>, pairs: map<string, seq<FreqPair>>,
                       toFloat: string -> Option<real>, k: nat)
    requires forall g :: g in order ==> g in pairs && |pairs[g]| > 0
    requires k < |order|
    ensures forall g :: g in order[..k] ==> g in pairs && |pairs[g]| > 0
    ensures Deviations(order[..k + 1], pairs, toFloat) ==
              var r := Deviations(order[..k], pairs, toFloat);
              if r.Err? || order[k] == HeaderGene then r
              else
                var ps := ParsePairs(pairs[order[k]], toFloat);
                if ps.Err? then Err(ps.error) else Ok(r.value + [DeviationOf(order[k], ps.value)])
  {
    assert order[..k + 1][..k] == order[..k];
  }

  lemma {:induction false} DeviationsErrPersists(order: seq<string>, pairs: map<string, seq<FreqPair>>,
                                                 toFloat: string -> Option<real>, n: nat)
    requires forall g :: g in order ==> g in pairs && |pairs[g]| > 0
    requires n <= |order| && Deviations(order[..n], pairs, toFloat).Err?
    ensures Deviations(order, pairs, toFloat) == Deviations(order[..n], pairs, toFloat)
    decreases |order| - n
  {
    if n < |order| {
      DeviationsStep(order, pairs, toFloat, n);
      DeviationsErrPersists(order, pairs, toFloat, n + 1);
    } else {
      assert order[..n] == order;
    }
  }

  function GenesOf(devs: seq<GeneDeviation>): seq<string>
  {
    seq(|devs|, k requires 0 <= k < |devs| => devs[k].gene)
  }

  /** The deviations fail iff some key other than the header holds a field that does not convert. */
  lemma {:induction false} DeviationsOk(order: seq<string>, pairs: map<string, seq<FreqPair>>,
                                        toFloat: string -> Option<real>)
    requires forall g :: g in order ==> g in pairs && |pairs[g]| > 0
    ensures Deviations(order, pairs, toFloat).Ok? <==>
              forall g :: g in order && g != HeaderGene ==> ParsePairs(pairs[g], toFloat).Ok?
  {
    if |order| > 0 {
      var n := |order| - 1;
      DeviationsOk(order[..n], pairs, toFloat);
      assert forall h :: h in order <==> h in order[..n] || h == order[n];
    }
  }

  /** Computed without error, the deviation rows follow the keys but the header, in key order,
      and each is the deviation of its own key's converted pairs: its count is their number, its
      error sum, RMSD and weighted RMSD are taken over exactly those points. */
  lemma {:induction false} DeviationsRows(order: seq<string>, pairs: map<string, seq<FreqPair>>,
                                          toFloat: string -> Option<real>)
    requires forall g :: g in order ==> g in pairs && |pairs[g]| > 0
    ensures Deviations(order, pairs, toFloat).Ok? ==>
              var devs := Deviations(order, pairs, toFloat).value;
              && GenesOf(devs) == RemoveAll(order, HeaderGene)
              && forall k :: 0 <= k < |devs| ==>
                   var g := devs[k].gene;
                   && g in pairs && |pairs[g]| > 0 && devs[k].cancerTypeCount == |pairs[g]|
                   && ParsePairs(pairs[g], toFloat).Ok?
                   && devs[k] == DeviationOf(g, ParsePairs(pairs[g], toFloat).value)
  {
    if |order| > 0 {
      var n := |order| - 1;
      var g := order[n];
      DeviationsRows(order[..n], pairs, toFloat);
      var r := Deviations(order[..n], pairs, toFloat);
      if r.Ok? && g != HeaderGene && ParsePairs(pairs[g], toFloat).Ok? {
        var devs := r.value + [DeviationOf(g, ParsePairs(pairs[g], toFloat).value)];
        assert GenesOf(devs) == GenesOf(r.value) + [g];
      }
    }
  }

  /** Deviation rows exist for every key but the header, in key order, and each is the deviation
      of the pairs its key holds; the computation fails iff some such key holds a field that does
      not convert. */
  lemma DeviationsMeaning(order: seq<string>, pairs: map<string, seq<FreqPair>>, toFloat: string -> Option<real>)
    requires forall g :: g in order ==> g in pairs && |pairs[g]| > 0
    ensures Deviations(order, pairs, toFloat).Ok? <==>
              forall g :: g in order && g != HeaderGene ==> ParsePairs(pairs[g], toFloat).Ok?
    ensures Deviations(order, pairs, toFloat).Ok? ==>
              var devs := Deviations(order, pairs, toFloat).value;
              && GenesOf(devs) == RemoveAll(order, HeaderGene)
              && forall k :: 0 <= k < |devs| ==>
                   var g := devs[k].gene;
                   && g in pairs && |pairs[g]| > 0 && devs[k].cancerTypeCount == |pairs[g]|
                   && ParsePairs(pairs[g], toFloat).Ok?
                   && devs[k] == DeviationOf(g, ParsePairs(pairs[g], toFloat).value)
  {
    DeviationsOk(order, pairs, toFloat);
    DeviationsRows(order, pairs, toFloat);
  }

  /** `rmsd_by_gene`: reads every result file that is not skipped into the gene dictionary, then
      computes each gene's deviation. */
  function RmsdByGeneOf(files: seq<ResultFile>, toFloat: string -> Option<real>): Result<seq<GeneDeviation>>
  {
    var t := CollectLines(ScannedLines(files));
    if t.Err? then Err(t.error) else Deviations(t.value.order, t.value.pairs, toFloat)
  }

  /** When the files are read without error, there is one deviation row per gene named in them
      (the header excluded), in first-appearance order; its cancer-type count is the number of
      lines naming that gene, and its error sum, RMSD and weighted RMSD are taken over the points
      of exactly those lines. A line with too few fields makes the whole computation fail. */
  lemma RmsdByGeneMeaning(files: seq<ResultFile>, toFloat: string -> Option<real>)
    ensures !AllWellFormed(ScannedLines(files)) ==> RmsdByGeneOf(files, toFloat) == Err(IndexError)
    ensures RmsdByGeneOf(files, toFloat).Ok? ==>
              var lines := ScannedLines(files);
              var devs := RmsdByGeneOf(files, toFloat).value;
              && AllWellFormed(lines)
              && GenesOf(devs) == RemoveAll(Distinct(GeneFields(lines)), HeaderGene)
              && forall k :: 0 <= k < |devs| ==>
                   var ps := PairsFor(lines, devs[k].gene);
                   && devs[k].cancerTypeCount == Count(GeneFields(lines), devs[k].gene)
                   && |ps| > 0 && ParsePairs(ps, toFloat).Ok?
                   && devs[k] == DeviationOf(devs[k].gene, ParsePairs(ps, toFloat).value)
  {
    var lines := ScannedLines(files);
    CollectLinesOk(lines);
    var t := CollectLines(lines);
    if !AllWellFormed(lines) {
      assert t.Err?;
      assert t.error == IndexError by { CollectLinesErrorIsIndex(lines); }
    } else {
      LineDeviations(lines, toFloat);
    }
  }

  /** The deviation rows of well-formed lines, stated over the lines themselves. */
  lemma LineDeviations(lines: seq<string>, toFloat: string -> Option<real>)
    requires AllWellFormed(lines)
    ensures CollectLines(lines).Ok?
    ensures var t := CollectLines(lines).value;
            Deviations(t.order, t.pairs, toFloat).Ok? ==>
              var devs := Deviations(t.order, t.pairs, toFloat).value;
              && GenesOf(devs) == RemoveAll(Distinct(GeneFields(lines)), HeaderGene)
              && forall k :: 0 <= k < |devs| ==>
                   var ps := PairsFor(lines, devs[k].gene);
                   && devs[k].cancerTypeCount == Count(GeneFields(lines), devs[k].gene)
                   && |ps| > 0 && ParsePairs(ps, toFloat).Ok?
                   && devs[k] == DeviationOf(devs[k].gene, ParsePairs(ps, toFloat).value)
  {
    CollectLinesOk(lines);
    var t := CollectLines(lines).value;
    CollectLinesOrder(lines);
    CollectLinesPairs(lines);
    DeviationsRows(t.order, t.pairs, toFloat);
    if Deviations(t.order, t.pairs, toFloat).Ok? {
      var devs := Deviations(t.order, t.pairs, toFloat).value;
      forall k | 0 <= k < |devs| ensures devs[k].cancerTypeCount == Count(GeneFields(lines), devs[k].gene) {
        PairsForCount(lines, devs[k].gene);
      }
    }
  }

  lemma {:induction false} CollectLinesErrorIsIndex(lines: seq<string>)
    ensures CollectLines(lines).Err? ==> CollectLines(lines).error == IndexError
  {
    if |lines| > 0 {
      CollectLinesErrorIsIndex(lines[..|lines| - 1]);
    }
  }

  /** The method form of `rmsd_by_gene`: the file and line loops fill the dictionary, the key loop
      computes the rows. */
  method RmsdByGene(files: seq<ResultFile>, toFloat: string -> Option<real>) returns (r: Result<seq<GeneDeviation>>)
    ensures r == RmsdByGeneOf(files, toFloat)
  {
    var t := ReadGeneTable(files);
    if t.Err? {
      return Err(t.error);
    }
    var order, geneDict := t.value.order, t.value.pairs;
    var devs: seq<GeneDeviation> := [];
    for k := 0 to |order|
      invariant Deviations(order[..k], geneDict, toFloat) == Ok(devs)
    {
      DeviationsStep(order, geneDict, toFloat, k);
      var gene := order[k];
      if gene == HeaderGene {
        continue;
      }
      var points := ParseFrequencies(geneDict[gene], toFloat);
      if points.Err? {
        DeviationsErrPersists(order, geneDict, toFloat, k + 1);
        return Err(points.error);
      }
      devs := devs + [DeviationOf(gene, points.value)];
    }
    assert order[..|order|] == order;
    r := Ok(devs);
  }

  /** The conversion loop over one gene's pairs. */
  method ParseFrequencies(mutFreqs: seq<FreqPair>, toFloat: string -> Option<real>) returns (r: Result<seq<Point>>)
    ensures r == ParsePairs(mutFreqs, toFloat)
  {
    var points: seq<Point> := [];
    for m := 0 to |mutFreqs|
      invariant ParsePairs(mutFreqs[..m], toFloat) == Ok(points)
    {
      assert mutFreqs[..m + 1][..m] == mutFreqs[..m];
      var x := toFloat(mutFreqs[m].tcgaField);
      var y := toFloat(mutFreqs[m].genieField);
      if x.None? || y.None? {
        ParsePairsErrPersists(mutFreqs, toFloat, m + 1);
        return Err(ValueError);
      }
      points := points + [Point(x.value, y.value)];
    }
    assert mutFreqs[..|mutFreqs|] == mutFreqs;
    r := Ok(points);
  }

  lemma {:induction false} ParsePairsErrPersists(ps: seq<FreqPair>, toFloat: string -> Option<real>, n: nat)
    requires n <= |ps| && ParsePairs(ps[..n], toFloat).Err?
    ensures ParsePairs(ps, toFloat).Err?
  {
    forall i | 0 <= i < n ensures ps[..n][i] == ps[i] { }
  }

  /** The file and line loops of `rmsd_by_gene`. */
  method ReadGeneTable(files: seq<ResultFile>) returns (r: Result<GeneTable>)
    ensures r == CollectLines(ScannedLines(files))
  {
    var order: seq<string> := [];
    var geneDict: map<string, seq<FreqPair>> := map[];
    for i := 0 to |files|
      invariant CollectLines(ScannedLines(files[..i])) == Ok(GeneTable(order, geneDict))
    {
      ScannedLinesSnoc(files, i);
      if SkippedPath(files[i].path) {
        assert ScannedLines(files[..i]) + [] == ScannedLines(files[..i]);
        continue;
      }
      var lines := files[i].lines;
      ghost var before := ScannedLines(files[..i]);
      assert before + lines[..0] == before;
      for j := 0 to |lines|
        invariant CollectLines(before + lines[..j]) == Ok(GeneTable(order, geneDict))
      {
        var spl := Split(lines[j], '\t');
        ExtendRead(before, lines, j);
        if |spl| < 8 {
          ReadStopsAt(files, i, j);
          return Err(IndexError);
        }
        var gene, tcgaMutFreq, genieMutFreq := spl[1], spl[3], spl[7];
        if gene in geneDict {
          geneDict := geneDict[gene := geneDict[gene] + [FreqPair(tcgaMutFreq, genieMutFreq)]];
        } else {
          order := order + [gene];
          geneDict := geneDict[gene := [FreqPair(tcgaMutFreq, genieMutFreq)]];
        }
      }
      FullRead(before, lines);
    }
    assert files[..|files|] == files;
    r := Ok(GeneTable(order, geneDict));
  }

  lemma ScannedLinesSnoc(files: seq<ResultFile>, i: nat)
    requires i < |files|
    ensures ScannedLines(files[..i + 1]) ==
              ScannedLines(files[..i]) + (if SkippedPath(files[i].path) then [] else files[i].lines)
  {
    assert files[..i + 1][..i] == files[..i];
  }

  /** Reading one more line of the current file. */
  lemma ExtendRead(before: seq<string>, lines: seq<string>, j: nat)
    requires j < |lines|
    ensures CollectLines(before + lines[..j + 1]) ==
              if CollectLines(before + lines[..j]).Err? then CollectLines(before + lines[..j])
              else if !WellFormedLine(lines[j]) then Err(IndexError)
              else Ok(Insert(CollectLines(before + lines[..j]).value, GeneField(lines[j]), PairOf(lines[j])))
  {
    assert before + lines[..j + 1] == (before + lines[..j]) + [lines[j]];
    CollectLinesSnoc(before + lines[..j], lines[j]);
  }

  lemma FullRead(before: seq<string>, lines: seq<string>)
    ensures before + lines[..|lines|] == before + lines
  {
    assert lines[..|lines|] == lines;
  }

  lemma CollectLinesSnoc(lines: seq<string>, line: string)
    ensures CollectLines(lines + [line]) ==
              if CollectLines(lines).Err? then CollectLines(lines)
              else if !WellFormedLine(line) then Err(IndexError)
              else Ok(Insert(CollectLines(lines).value, GeneField(line), PairOf(line)))
  {
    assert (lines + [line])[..|lines|] == lines;
  }

  /** The lines of a file that is not skipped sit between those of the files before and after it. */
  lemma ScannedLinesAround(files: seq<ResultFile>, i: nat)
    requires i < |files| && !SkippedPath(files[i].path)
    ensures ScannedLines(files) == ScannedLines(files[..i]) + files[i].lines + ScannedLines(files[i + 1..])
  {
    ScannedLinesSplit(files, i + 1);
    ScannedLinesSnoc(files, i);
  }

  lemma RegroupAt(before: seq<string>, lines: seq<string>, after: seq<string>, k: nat)
    requires k <= |lines|
    ensures before + lines + after == (before + lines[..k]) + (lines[k..] + after)
  {
    assert lines == lines[..k] + lines[k..];
  }

  /** A short line in file `i` at line `j` makes the whole reading fail with IndexError. */
  lemma ReadStopsAt(files: seq<ResultFile>, i: nat, j: nat)
    requires i < |files| && !SkippedPath(files[i].path) && j < |files[i].lines|
    requires !WellFormedLine(files[i].lines[j])
    requires CollectLines(ScannedLines(files[..i]) + files[i].lines[..j]).Ok?
    ensures CollectLines(ScannedLines(files)) == Err(IndexError)
  {
    var lines := files[i].lines;
    var before, after := ScannedLines(files[..i]), ScannedLines(files[i + 1..]);
    var head, rest := before + lines[..j + 1], lines[j + 1..] + after;
    ExtendRead(before, lines, j);
    ScannedLinesAround(files, i);
    RegroupAt(before, lines, after, j + 1);
    var all := ScannedLines(files);
    assert all == head + rest;
    assert all[..|head|] == head;
    CollectLinesErrPersists(all, |head|);
  }

  // ---------------------------------------------------------------------------------------------
  // the gene ranking's filters

  /** Genes reported in at least three cancer types (the drop by label acts row by row, as the
      table's labels are its default index). */
  function AtLeastThreeCancerTypes(devs: seq<GeneDeviation>): (r: seq<GeneDeviation>)
    ensures IsSubsequence(r, devs)
    ensures forall d :: d in r <==> d in devs && d.cancerTypeCount >= 3
  {
    if |devs| == 0 then []
    else
      var init := AtLeastThreeCancerTypes(devs[..|devs| - 1]);
      var d := devs[|devs| - 1];
      assert forall x :: x in devs <==> x in devs[..|devs| - 1] || x == d;
      if d.cancerTypeCount < 3 then init
      else
        assert (init + [d])[..|init|] == init;
        init + [d]
  }

  /** The ranking without the TERT row. */
  function WithoutTertGene(devs: seq<GeneDeviation>): (r: seq<GeneDeviation>)
    ensures IsSubsequence(r, devs)
    ensures forall d :: d in r <==> d in devs && d.gene != Tert
  {
    if |devs| == 0 then []
    else
      var init := WithoutTertGene(devs[..|devs| - 1]);
      var d := devs[|devs| - 1];
      assert forall x :: x in devs <==> x in devs[..|devs| - 1] || x == d;
      if d.gene == Tert then init
      else
        assert (init + [d])[..|init|] == init;
        init + [d]
  }
}
