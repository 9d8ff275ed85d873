/** Choosing which points of a frequency scatter plot get a gene label, the plot title rule, and
    which cancer types get their sample counts annotated.

    Rows are identified by position. A row is primary (an outlier, always labelled), secondary
    (labelled to top the count up to nine) or a leftover (labelled only while there are at most
    three labels). The thresholds are compared with the values the caller passes: percentages
    for the deviation plots, fractions for the per-cancer-type plots. */
module LabelSelection {
  import opened Common
  import opened Seqs
  import opened Comparison

  /** Both values clear 5, or one clears 1 and they differ by more than 10. */
  predicate IsSecondary(x: real, y: real)
  {
    var delta := Abs(y - x);
    (y >= 5.0 && x >= 5.0) || (y >= 1.0 && delta > 10.0) || (x >= 1.0 && delta > 10.0)
  }

  /** An outlier: one value above 30, one above 20 with the other above 10, or a gap above 25. */
  predicate IsPrimary(x: real, y: real)
  {
    var delta := Abs(y - x);
    x > 30.0 || y > 30.0 || (y > 20.0 && x > 10.0) || (x > 20.0 && y > 10.0) || delta > 25.0
  }

  const LabelMin: nat := 8
  const AxisMin: nat := 3

  predicate Increasing(s: seq<nat>)
  {
    forall i, j :: 0 <= i < j < |s| ==> s[i] < s[j]
  }

  /** The positions of the rows whose pair of values satisfies `p`, in row order. */
  function RowsWhere(xs: seq<real>, ys: seq<real>, p: (real, real) -> bool): (r: seq<nat>)
    requires |xs| == |ys|
    ensures forall i :: i in r <==> 0 <= i < |xs| && p(xs[i], ys[i])
    ensures Increasing(r)
  {
    if |xs| == 0 then []
    else
      var n := |xs| - 1;
      var r := RowsWhere(xs[..n], ys[..n], p);
      if p(xs[n], ys[n]) then IncreasingSnoc(r, n); r + [n] else r
  }

  lemma IncreasingSnoc(s: seq<nat>, n: nat)
    requires Increasing(s) && forall x :: x in s ==> x < n
    ensures Increasing(s + [n])
  {
    forall i, j | 0 <= i < j < |s| + 1 ensures (s + [n])[i] < (s + [n])[j] {
      if j == |s| {
        assert s[i] in s;
      }
    }
  }

  /** When exactly the rows `lo` to `hi - 1` satisfy `p`, those are the rows found, in order. */
  lemma RowsWhereRange(xs: seq<real>, ys: seq<real>, p: (real, real) -> bool, lo: nat, hi: nat)
    requires |xs| == |ys|
    requires forall i :: 0 <= i < |xs| ==> (p(xs[i], ys[i]) <==> lo <= i < hi)
    requires hi <= |xs|
    ensures RowsWhere(xs, ys, p) == Range(lo, hi)
  {
    IncreasingIsRange(RowsWhere(xs, ys, p), lo, hi);
  }

  /** The secondary rows (the keys of the delta dictionary). */
  function SecondaryRows(xs: seq<real>, ys: seq<real>): seq<nat>
    requires |xs| == |ys|
  {
    RowsWhere(xs, ys, IsSecondary)
  }

  /** The other rows (the keys of the leftovers dictionary). */
  function LeftoverRows(xs: seq<real>, ys: seq<real>): seq<nat>
    requires |xs| == |ys|
  {
    RowsWhere(xs, ys, (x, y) => !IsSecondary(x, y))
  }

  /** Every row is secondary or a leftover and never both, so the two lists together have one
      entry per row. */
  lemma {:induction false} SecondaryLeftoverPartition(xs: seq<real>, ys: seq<real>)
    requires |xs| == |ys|
    ensures forall i :: 0 <= i < |xs| ==> (i in SecondaryRows(xs, ys) <==> i !in LeftoverRows(xs, ys))
    ensures |SecondaryRows(xs, ys)| + |LeftoverRows(xs, ys)| == |xs|
  {
    if |xs| > 0 {
      var n := |xs| - 1;
      SecondaryLeftoverPartition(xs[..n], ys[..n]);
    }
  }

  /** The primary rows. */
  function PrimaryRows(xs: seq<real>, ys: seq<real>): seq<nat>
    requires |xs| == |ys|
  {
    RowsWhere(xs, ys, IsPrimary)
  }

  /** The labelled rows in labelling order, and the spent-index list that guards against
      labelling a row twice. */
  datatype LabelState = LabelState(labels: seq<nat>, spent: seq<nat>)

  /** What a top-up records as spent when it labels a row: a fixed position (the loop variable
      left over from the classification loop), or the labelled row itself. */
  datatype Recording = StaleIndex(row: nat) | TargetIndex

  function Recorded(rec: Recording, target: nat): nat
  {
    match rec
    case StaleIndex(row) => row
    case TargetIndex => target
  }

  /** The top-up loop: while there are at most `limit` labels, take the next candidate and label it
      unless it is spent; stop when the candidates run out. */
  function TopUp(st: LabelState, candidates: seq<nat>, limit: nat, rec: Recording): LabelState
    decreases |candidates|
  {
    if |st.labels| > limit || |candidates| == 0 then st
    else
      var t := candidates[0];
      var next := if t in st.spent then st else LabelState(st.labels + [t], st.spent + [Recorded(rec, t)]);
      TopUp(next, candidates[1..], limit, rec)
  }

  /** The whole selection: the primary rows, then the secondary top-up to nine labels, then the
      leftover top-up to four. */
  function SelectLabels(xs: seq<real>, ys: seq<real>, rec: Recording): LabelState
    requires |xs| == |ys|
  {
    var primary := PrimaryRows(xs, ys);
    var afterSecondary := TopUp(LabelState(primary, primary), SecondaryRows(xs, ys), LabelMin, rec);
    TopUp(afterSecondary, LeftoverRows(xs, ys), AxisMin, rec)
  }

  /** As written, the top-ups record the classification loop's last position. */
  function AsWritten(n: nat): Recording
  {
    StaleIndex(if n == 0 then 0 else n - 1)
  }

  // ---------------------------------------------------------------------------------------------
  // the imperative form

  /** The classification loop of `handle_deviations` and `Plot.mutation_frequencies`: each row
      goes to the secondary or the leftover candidates, and a primary row is labelled and spent
      at once. */
  method ClassifyRows(xs: seq<real>, ys: seq<real>) returns (labels: seq<nat>, spent: seq<nat>, secondary: seq<nat>, leftovers: seq<nat>)
    requires |xs| == |ys|
    ensures labels == PrimaryRows(xs, ys) && spent == labels
    ensures secondary == SecondaryRows(xs, ys) && leftovers == LeftoverRows(xs, ys)
  {
    labels, spent, secondary, leftovers := [], [], [], [];
    for i := 0 to |xs|
      invariant secondary == SecondaryRows(xs[..i], ys[..i])
      invariant leftovers == LeftoverRows(xs[..i], ys[..i])
      invariant labels == PrimaryRows(xs[..i], ys[..i]) && spent == labels
    {
      assert xs[..i + 1][..i] == xs[..i] && ys[..i + 1][..i] == ys[..i];
      var tcgaMutFreq, genieMutFreq := xs[i], ys[i];
      if IsSecondary(tcgaMutFreq, genieMutFreq) {
        secondary := secondary + [i];
      } else {
        leftovers := leftovers + [i];
      }
      if IsPrimary(tcgaMutFreq, genieMutFreq) {
        spent := spent + [i];
        labels := labels + [i];
      }
    }
    assert xs[..|xs|] == xs && ys[..|ys|] == ys;
  }

  /** The label loops of `handle_deviations` and `Plot.mutation_frequencies`, on the values the
      thresholds are compared with (`xs` from the reference cohort, `ys` from the consortium). */
  method LabelRows(xs: seq<real>, ys: seq<real>) returns (labels: seq<nat>, spent: seq<nat>)
    requires |xs| == |ys|
    ensures LabelState(labels, spent) == SelectLabels(xs, ys, AsWritten(|xs|))
  {
    var secondary, leftovers;
    labels, spent, secondary, leftovers := ClassifyRows(xs, ys);
    // the classification loop's variable keeps its last value
    var lastRow: nat := if |xs| == 0 then 0 else |xs| - 1;
    if |labels| <= LabelMin && |secondary| > 0 {
      labels, spent := TopUpLabels(labels, spent, secondary, LabelMin, lastRow);
    }
    if |labels| <= AxisMin && |leftovers| > 0 {
      labels, spent := TopUpLabels(labels, spent, leftovers, AxisMin, lastRow);
    }
  }

  /** One top-up loop: pops candidates from the front, labels each one not spent and records
      `lastRow` as spent, until more than `limit` labels exist or the list is empty. */
  method TopUpLabels(labels0: seq<nat>, spent0: seq<nat>, candidates: seq<nat>, limit: nat, lastRow: nat)
    returns (labels: seq<nat>, spent: seq<nat>)
    requires |labels0| <= limit && |candidates| > 0
    ensures LabelState(labels, spent) == TopUp(LabelState(labels0, spent0), candidates, limit, StaleIndex(lastRow))
  {
    ghost var target := TopUp(LabelState(labels0, spent0), candidates, limit, StaleIndex(lastRow));
    labels, spent := labels0, spent0;
    var indexList := candidates;
    while |labels| <= limit
      invariant |indexList| > 0
      invariant TopUp(LabelState(labels, spent), indexList, limit, StaleIndex(lastRow)) == target
      decreases |indexList|
    {
      var targetI := indexList[0];
      indexList := indexList[1..];
      if targetI !in spent {
        spent := spent + [lastRow];
        labels := labels + [targetI];
      }
      if |indexList| == 0 {
        break;
      }
    }
  }

  // ---------------------------------------------------------------------------------------------
  // what the selection guarantees

  /** A top-up only appends, to both lists alike; it never takes the count past `limit + 1`
      (and adds nothing when the count already exceeds `limit`); each label it adds is a
      candidate that was not spent. */
  lemma {:induction false} TopUpExtends(st: LabelState, c: seq<nat>, limit: nat, rec: Recording)
    ensures var r := TopUp(st, c, limit, rec);
              && |st.labels| <= |r.labels| && r.labels[..|st.labels|] == st.labels
              && |st.spent| <= |r.spent| && r.spent[..|st.spent|] == st.spent
              && |r.labels| - |st.labels| == |r.spent| - |st.spent|
              && (if |st.labels| > limit then |r.labels| == |st.labels| else |r.labels| <= limit + 1)
              && (forall k :: |st.labels| <= k < |r.labels| ==> r.labels[k] in c && r.labels[k] !in st.spent)
    decreases |c|
  {
    if |st.labels| <= limit && |c| > 0 {
      var t := c[0];
      var next := if t in st.spent then st else LabelState(st.labels + [t], st.spent + [Recorded(rec, t)]);
      TopUpExtends(next, c[1..], limit, rec);
      var r := TopUp(next, c[1..], limit, rec);
      assert r == TopUp(st, c, limit, rec);
      assert r.labels[..|st.labels|] == st.labels by {
        assert r.labels[..|next.labels|][..|st.labels|] == next.labels[..|st.labels|];
      }
      assert r.spent[..|st.spent|] == st.spent by {
        assert r.spent[..|next.spent|][..|st.spent|] == next.spent[..|st.spent|];
      }
      forall k | |st.labels| <= k < |r.labels| ensures r.labels[k] in c && r.labels[k] !in st.spent {
        if k >= |next.labels| {
          assert r.labels[k] in c[1..];
          assert r.labels[k] !in next.spent;
        } else {
          assert next.labels[k] == t;
        }
      }
    }
  }

  /** A top-up never labels a row twice, provided every candidate already labelled is spent. */
  lemma {:induction false} TopUpDistinct(st: LabelState, c: seq<nat>, limit: nat, rec: Recording)
    requires NoDuplicates(st.labels) && Increasing(c)
    requires forall x :: x in c && x in st.labels ==> x in st.spent
    ensures NoDuplicates(TopUp(st, c, limit, rec).labels)
    decreases |c|
  {
    if |st.labels| <= limit && |c| > 0 {
      var t := c[0];
      var next := if t in st.spent then st else LabelState(st.labels + [t], st.spent + [Recorded(rec, t)]);
      assert Increasing(c[1..]);
      forall x | x in c[1..] && x in next.labels ensures x in next.spent {
        var j :| 0 <= j < |c[1..]| && c[1..][j] == x;
        assert c[j + 1] == x && t < x;
      }
      TopUpDistinct(next, c[1..], limit, rec);
    }
  }

  /** The state after the secondary top-up. */
  function AfterSecondary(xs: seq<real>, ys: seq<real>, rec: Recording): LabelState
    requires |xs| == |ys|
  {
    var primary := PrimaryRows(xs, ys);
    TopUp(LabelState(primary, primary), SecondaryRows(xs, ys), LabelMin, rec)
  }

  /** The primary rows open the labels, in row order, and both top-ups only append to them. */
  lemma SelectLabelsPrimaryFirst(xs: seq<real>, ys: seq<real>, rec: Recording)
    requires |xs| == |ys|
    ensures var st1, st2 := AfterSecondary(xs, ys, rec), SelectLabels(xs, ys, rec);
            var primary := PrimaryRows(xs, ys);
            && |primary| <= |st1.labels| <= |st2.labels|
            && st1.labels[..|primary|] == primary && st2.labels[..|st1.labels|] == st1.labels
            && st2.labels[..|primary|] == primary
  {
    var primary := PrimaryRows(xs, ys);
    var st1, st2 := AfterSecondary(xs, ys, rec), SelectLabels(xs, ys, rec);
    TopUpExtends(LabelState(primary, primary), SecondaryRows(xs, ys), LabelMin, rec);
    TopUpExtends(st1, LeftoverRows(xs, ys), AxisMin, rec);
    assert st2.labels[..|st1.labels|][..|primary|] == st1.labels[..|primary|];
  }

  /** Every primary row is labelled. */
  lemma SelectLabelsAllPrimary(xs: seq<real>, ys: seq<real>, rec: Recording)
    requires |xs| == |ys|
    ensures forall i :: 0 <= i < |xs| && IsPrimary(xs[i], ys[i]) ==> i in SelectLabels(xs, ys, rec).labels
  {
    SelectLabelsPrimaryFirst(xs, ys, rec);
    var primary, labels := PrimaryRows(xs, ys), SelectLabels(xs, ys, rec).labels;
    forall i | 0 <= i < |xs| && IsPrimary(xs[i], ys[i]) ensures i in labels {
      var k :| 0 <= k < |primary| && primary[k] == i;
      assert labels[..|primary|][k] == i;
    }
  }

  /** After the secondary top-up every labelled leftover row is spent: the only leftovers among
      the labels are primary rows, and those were spent when labelled. */
  lemma LabelledLeftoversSpent(xs: seq<real>, ys: seq<real>, rec: Recording)
    requires |xs| == |ys|
    ensures var st1 := AfterSecondary(xs, ys, rec);
            forall x :: x in LeftoverRows(xs, ys) && x in st1.labels ==> x in st1.spent
  {
    var primary, secondary, leftovers := PrimaryRows(xs, ys), SecondaryRows(xs, ys), LeftoverRows(xs, ys);
    var st1 := AfterSecondary(xs, ys, rec);
    TopUpExtends(LabelState(primary, primary), secondary, LabelMin, rec);
    forall x | x in leftovers && x in st1.labels ensures x in st1.spent {
      var k :| 0 <= k < |st1.labels| && st1.labels[k] == x;
      if k >= |primary| {
        assert false;
      } else {
        assert st1.labels[..|primary|][k] == x;
        assert st1.spent[..|primary|][k] == x;
      }
    }
  }

  /** No row is labelled twice. */
  lemma SelectLabelsDistinct(xs: seq<real>, ys: seq<real>, rec: Recording)
    requires |xs| == |ys|
    ensures NoDuplicates(SelectLabels(xs, ys, rec).labels)
  {
    var primary := PrimaryRows(xs, ys);
    assert NoDuplicates(primary);
    TopUpDistinct(LabelState(primary, primary), SecondaryRows(xs, ys), LabelMin, rec);
    LabelledLeftoversSpent(xs, ys, rec);
    TopUpDistinct(AfterSecondary(xs, ys, rec), LeftoverRows(xs, ys), AxisMin, rec);
  }

  /** A top-up keeps every label below `n` when every candidate is. */
  lemma {:induction false} TopUpBelow(st: LabelState, c: seq<nat>, limit: nat, rec: Recording, n: nat)
    requires forall l :: l in st.labels ==> l < n
    requires forall x :: x in c ==> x < n
    ensures forall l :: l in TopUp(st, c, limit, rec).labels ==> l < n
    decreases |c|
  {
    if |st.labels| <= limit && |c| > 0 {
      var t := c[0];
      var next := if t in st.spent then st else LabelState(st.labels + [t], st.spent + [Recorded(rec, t)]);
      assert t in c && forall x :: x in c[1..] ==> x in c;
      TopUpBelow(next, c[1..], limit, rec, n);
    }
  }

  /** Every label is a row. */
  lemma SelectLabelsAreRows(xs: seq<real>, ys: seq<real>, rec: Recording)
    requires |xs| == |ys|
    ensures forall l :: l in SelectLabels(xs, ys, rec).labels ==> l < |xs|
  {
    var primary := PrimaryRows(xs, ys);
    TopUpBelow(LabelState(primary, primary), SecondaryRows(xs, ys), LabelMin, rec, |xs|);
    TopUpBelow(AfterSecondary(xs, ys, rec), LeftoverRows(xs, ys), AxisMin, rec, |xs|);
  }

  /** At most nine labels, unless the primary rows alone are more. */
  lemma SelectLabelsBound(xs: seq<real>, ys: seq<real>, rec: Recording)
    requires |xs| == |ys|
    ensures var primary := PrimaryRows(xs, ys);
            |SelectLabels(xs, ys, rec).labels| <= (if |primary| > LabelMin + 1 then |primary| else LabelMin + 1)
  {
    var primary := PrimaryRows(xs, ys);
    TopUpExtends(LabelState(primary, primary), SecondaryRows(xs, ys), LabelMin, rec);
    TopUpExtends(AfterSecondary(xs, ys, rec), LeftoverRows(xs, ys), AxisMin, rec);
  }

  /** Whatever is recorded as spent, the primary rows are labelled first and in row order, every
      primary row is labelled, no row is labelled twice, every label is a row, and there are at most
      nine labels unless the primary rows alone are more. */
  lemma SelectLabelsMeaning(xs: seq<real>, ys: seq<real>, rec: Recording)
    requires |xs| == |ys|
    ensures var st := SelectLabels(xs, ys, rec);
              var primary := PrimaryRows(xs, ys);
              && |primary| <= |st.labels| && st.labels[..|primary|] == primary
              && (forall i :: 0 <= i < |xs| && IsPrimary(xs[i], ys[i]) ==> i in st.labels)
              && NoDuplicates(st.labels)
              && (forall l :: l in st.labels ==> l < |xs|)
              && |st.labels| <= (if |primary| > LabelMin + 1 then |primary| else LabelMin + 1)
  {
    SelectLabelsPrimaryFirst(xs, ys, rec);
    SelectLabelsAllPrimary(xs, ys, rec);
    SelectLabelsDistinct(xs, ys, rec);
    SelectLabelsAreRows(xs, ys, rec);
    SelectLabelsBound(xs, ys, rec);
  }

  // ---------------------------------------------------------------------------------------------
  // the stale spent index

  /** Two rows at ten percent in both cohorts: neither is primary, both are secondary. */
  lemma TwoSecondaryRows(xs: seq<real>)
    requires xs == [10.0, 10.0]
    ensures PrimaryRows(xs, xs) == [] && SecondaryRows(xs, xs) == [0, 1] && LeftoverRows(xs, xs) == []
  {
    forall x | 0 <= x < 2 ensures !IsPrimary(xs[x], xs[x]) && IsSecondary(xs[x], xs[x]) {
      assert xs[x] == 10.0;
    }
    RowsWhereRange(xs, xs, IsPrimary, 0, 0);
    RowsWhereRange(xs, xs, IsSecondary, 0, 2);
    RowsWhereRange(xs, xs, (x, y) => !IsSecondary(x, y), 0, 0);
  }

  /** Two secondary rows and no primary row: as written only the first is labelled, because the
      first top-up records the last position as spent and the second candidate is that position. */
  lemma StaleIndexSkipsLastRow()
    ensures SelectLabels([10.0, 10.0], [10.0, 10.0], AsWritten(2)).labels == [0]
    ensures SelectLabels([10.0, 10.0], [10.0, 10.0], TargetIndex).labels == [0, 1]
  {
    TwoSecondaryRows([10.0, 10.0]);
    var st := LabelState([], []);
    var stale := LabelState([0], [1]);
    assert TopUp(st, [0, 1], LabelMin, StaleIndex(1)) == TopUp(stale, [1], LabelMin, StaleIndex(1));
    assert TopUp(stale, [1], LabelMin, StaleIndex(1)) == TopUp(stale, [], LabelMin, StaleIndex(1)) == stale;
    assert TopUp(stale, [], AxisMin, StaleIndex(1)) == stale;
    var fixed := LabelState([0], [0]);
    var both := LabelState([0, 1], [0, 1]);
    assert TopUp(st, [0, 1], LabelMin, TargetIndex) == TopUp(fixed, [1], LabelMin, TargetIndex);
    assert TopUp(fixed, [1], LabelMin, TargetIndex) == TopUp(both, [], LabelMin, TargetIndex) == both;
    assert TopUp(both, [], AxisMin, TargetIndex) == both;
  }

  /** The candidates not yet labelled, in order. */
  function Unlabelled(c: seq<nat>, labels: seq<nat>): (r: seq<nat>)
    ensures forall x :: x in r <==> x in c && x !in labels
  {
    if |c| == 0 then [] else (if c[0] in labels then [] else [c[0]]) + Unlabelled(c[1..], labels)
  }

  lemma {:induction false} UnlabelledSkips(c: seq<nat>, labels: seq<nat>, t: nat)
    requires t !in c
    ensures Unlabelled(c, labels + [t]) == Unlabelled(c, labels)
  {
    if |c| > 0 {
      UnlabelledSkips(c[1..], labels, t);
    }
  }

  /** The labels a corrected top-up ends with: the candidates not yet labelled, in order, until
      there are `limit + 1` labels or none is left. */
  function TopUpTarget(labels: seq<nat>, c: seq<nat>, limit: nat): seq<nat>
  {
    var add := Unlabelled(c, labels);
    var room := if |labels| > limit then 0 else limit + 1 - |labels|;
    labels + add[..if room < |add| then room else |add|]
  }

  /** Labelling a fresh first candidate moves it from the candidates to the labels. */
  lemma TopUpTargetTakes(labels: seq<nat>, c: seq<nat>, limit: nat)
    requires |labels| <= limit && |c| > 0 && c[0] !in labels && c[0] !in c[1..]
    ensures TopUpTarget(labels, c, limit) == TopUpTarget(labels + [c[0]], c[1..], limit)
  {
    var t := c[0];
    var add, rest := Unlabelled(c, labels), Unlabelled(c[1..], labels);
    UnlabelledSkips(c[1..], labels, t);
    assert add == [t] + rest;
    var room := limit + 1 - |labels|;
    var k := if room < |add| then room else |add|;
    assert (if room - 1 < |rest| then room - 1 else |rest|) == k - 1;
    assert labels + add[..k] == labels + [t] + rest[..k - 1];
  }

  /** Recording the labelled row itself, a top-up from a state where the spent rows are the
      labelled rows labels the candidates not yet labelled, in order, until there are `limit + 1`
      labels or none is left; the spent list stays equal to the labels. */
  lemma {:induction false} CorrectedTopUp(labels: seq<nat>, c: seq<nat>, limit: nat)
    requires Increasing(c)
    ensures var r := TopUpTarget(labels, c, limit);
            TopUp(LabelState(labels, labels), c, limit, TargetIndex) == LabelState(r, r)
    decreases |c|
  {
    if |labels| > limit || |c| == 0 {
      assert TopUpTarget(labels, c, limit) == labels + Unlabelled(c, labels)[..0];
    } else {
      var t := c[0];
      assert Increasing(c[1..]);
      if t in labels {
        CorrectedTopUp(labels, c[1..], limit);
        assert Unlabelled(c, labels) == Unlabelled(c[1..], labels);
      } else {
        assert t !in c[1..] by {
          forall j | 0 <= j < |c[1..]| ensures c[1..][j] != t {
            assert c[0] < c[j + 1];
          }
        }
        CorrectedTopUp(labels + [t], c[1..], limit);
        TopUpTargetTakes(labels, c, limit);
      }
    }
  }

  /** The selection as evidently intended: every top-up records the row it labels. */
  function CorrectedLabels(xs: seq<real>, ys: seq<real>): LabelState
    requires |xs| == |ys|
  {
    SelectLabels(xs, ys, TargetIndex)
  }

  /** Corrected, the secondary top-up labels the unlabelled secondary rows in row order until
      there are nine labels or none is left. */
  lemma CorrectedSecondaryStage(xs: seq<real>, ys: seq<real>)
    requires |xs| == |ys|
    ensures var primary := PrimaryRows(xs, ys);
            var add := Unlabelled(SecondaryRows(xs, ys), primary);
            var room := if |primary| > LabelMin then 0 else LabelMin + 1 - |primary|;
            var k := if room < |add| then room else |add|;
            TopUp(LabelState(primary, primary), SecondaryRows(xs, ys), LabelMin, TargetIndex).labels == primary + add[..k]
  {
    CorrectedTopUp(PrimaryRows(xs, ys), SecondaryRows(xs, ys), LabelMin);
  }

  // ---------------------------------------------------------------------------------------------
  // fractions against percentage thresholds

  /** On fractions (values between 0 and 1) no threshold meant for percentages is met: no row is
      primary or secondary. */
  lemma FractionsMeetNoThreshold(x: real, y: real)
    requires 0.0 <= x <= 1.0 && 0.0 <= y <= 1.0
    ensures !IsPrimary(x, y) && !IsSecondary(x, y)
  {
  }

  /** As written, a top-up labels its candidates in order, up to the limit, as long as none of
      those it reaches is spent or is the stale row itself. */
  lemma {:induction false} StaleTopUpInOrder(st: LabelState, c: seq<nat>, limit: nat, row: nat)
    requires var room := if |st.labels| > limit then 0 else limit + 1 - |st.labels|;
             forall i :: 0 <= i < room && i < |c| ==> c[i] !in st.spent && c[i] != row
    ensures var room := if |st.labels| > limit then 0 else limit + 1 - |st.labels|;
            TopUp(st, c, limit, StaleIndex(row)).labels == st.labels + c[..if room < |c| then room else |c|]
    decreases |c|
  {
    var room := if |st.labels| > limit then 0 else limit + 1 - |st.labels|;
    if room > 0 && |c| > 0 {
      var next := LabelState(st.labels + [c[0]], st.spent + [row]);
      forall i | 0 <= i < room - 1 && i < |c| - 1 ensures c[1..][i] !in next.spent && c[1..][i] != row {
        assert c[1..][i] == c[i + 1];
      }
      StaleTopUpInOrder(next, c[1..], limit, row);
      var k := if room < |c| then room else |c|;
      assert st.labels + c[..k] == next.labels + c[1..][..k - 1];
    }
  }

  /** A gene found in every reference sample and no consortium sample, at row 4 of five: compared
      as fractions, as the per-cancer-type plot does, it is not labelled (the four leftover labels
      go to rows 0 to 3). */
  lemma FractionThresholdsMissOutlier(fr: seq<real>, ys: seq<real>)
    requires fr == [0.0, 0.0, 0.0, 0.0, 1.0] && ys == [0.0, 0.0, 0.0, 0.0, 0.0]
    ensures SelectLabels(fr, ys, AsWritten(|fr|)).labels == [0, 1, 2, 3]
  {
    FractionRows(fr, ys);
    var c := LeftoverRows(fr, ys);
    StaleTopUpInOrder(LabelState([], []), c, AxisMin, 4);
    assert c[..4] == [0, 1, 2, 3];
  }

  /** The same gene compared as a percentage, as the deviation plot does, is labelled first. */
  lemma PercentThresholdsLabelOutlier(pc: seq<real>, ys: seq<real>)
    requires pc == [0.0, 0.0, 0.0, 0.0, 100.0] && ys == [0.0, 0.0, 0.0, 0.0, 0.0]
    ensures SelectLabels(pc, ys, AsWritten(|pc|)).labels == [4, 0, 1, 2]
  {
    PercentRows(pc, ys);
    var p := LabelState([4], [4]);
    assert TopUp(p, [4], LabelMin, StaleIndex(4)) == p;
    var c := LeftoverRows(pc, ys);
    StaleTopUpInOrder(p, c, AxisMin, 4);
    assert c[..3] == [0, 1, 2];
  }

  /** How the rows of the outlier example classify as fractions: every row is a leftover. */
  lemma FractionRows(fr: seq<real>, ys: seq<real>)
    requires fr == [0.0, 0.0, 0.0, 0.0, 1.0] && ys == [0.0, 0.0, 0.0, 0.0, 0.0]
    ensures PrimaryRows(fr, ys) == [] && SecondaryRows(fr, ys) == [] && LeftoverRows(fr, ys) == [0, 1, 2, 3, 4]
  {
    forall x | 0 <= x < 5 ensures !IsPrimary(fr[x], ys[x]) && !IsSecondary(fr[x], ys[x]) {
      if x < 4 { assert fr[x] == 0.0; }
    }
    RowsWhereRange(fr, ys, IsPrimary, 0, 0);
    RowsWhereRange(fr, ys, IsSecondary, 0, 0);
    RowsWhereRange(fr, ys, (x, y) => !IsSecondary(x, y), 0, 5);
  }

  /** How the rows of the outlier example classify as percentages: the last row is primary and
      secondary, the others are leftovers. */
  lemma PercentRows(pc: seq<real>, ys: seq<real>)
    requires pc == [0.0, 0.0, 0.0, 0.0, 100.0] && ys == [0.0, 0.0, 0.0, 0.0, 0.0]
    ensures PrimaryRows(pc, ys) == [4] && SecondaryRows(pc, ys) == [4] && LeftoverRows(pc, ys) == [0, 1, 2, 3]
  {
    forall x | 0 <= x < 5
      ensures IsPrimary(pc[x], ys[x]) <==> x == 4
      ensures IsSecondary(pc[x], ys[x]) <==> x == 4
    {
      if x < 4 { assert pc[x] == 0.0; }
    }
    RowsWhereRange(pc, ys, IsPrimary, 4, 5);
    RowsWhereRange(pc, ys, IsSecondary, 4, 5);
    RowsWhereRange(pc, ys, (x, y) => !IsSecondary(x, y), 0, 4);
  }

  /** Without its first element `lo`, such a list holds exactly `lo + 1` to `hi - 1`. */
  lemma RangeTail(s: seq<nat>, lo: nat, hi: nat)
    requires Increasing(s) && |s| > 0 && s[0] == lo
    requires forall x :: x in s <==> lo <= x < hi
    ensures Increasing(s[1..])
    ensures forall x :: x in s[1..] <==> lo + 1 <= x < hi
  {
    forall x ensures x in s[1..] <==> lo + 1 <= x < hi {
      if x in s[1..] {
        var j :| 0 <= j < |s[1..]| && s[1..][j] == x;
        assert s[0] < s[j + 1] && s[j + 1] in s;
      }
      if lo + 1 <= x < hi {
        assert x in s;
        var j :| 0 <= j < |s| && s[j] == x;
        assert j != 0;
        assert s[1..][j - 1] == x;
      }
    }
  }

  /** An increasing list that holds exactly the positions `lo` to `hi - 1` is that range. */
  lemma {:induction false} IncreasingIsRange(s: seq<nat>, lo: nat, hi: nat)
    requires Increasing(s)
    requires forall x :: x in s <==> lo <= x < hi
    ensures s == Range(lo, hi)
    decreases hi - lo
  {
    if lo < hi {
      assert lo in s;
      var k :| 0 <= k < |s| && s[k] == lo;
      assert s[0] == lo by {
        assert s[0] in s;
      }
      RangeTail(s, lo, hi);
      IncreasingIsRange(s[1..], lo + 1, hi);
      assert s == [s[0]] + s[1..];
    }
  }

  /** The reference and consortium columns of the joined rows the thresholds look at: the
      percentages (`*_mut_freq`) or the fractions (`*_mut_fraq`). */
  function TcgaValues(rows: seq<ComparisonRow>, percent: bool): (r: seq<real>)
    ensures |r| == |rows|
    ensures forall i :: 0 <= i < |rows| ==> r[i] == if percent then rows[i].tcgaMutFreq else rows[i].tcgaMutFraq
  {
    if |rows| == 0 then []
    else TcgaValues(rows[..|rows| - 1], percent) + [if percent then rows[|rows| - 1].tcgaMutFreq else rows[|rows| - 1].tcgaMutFraq]
  }

  function GenieValues(rows: seq<ComparisonRow>, percent: bool): (r: seq<real>)
    ensures |r| == |rows|
    ensures forall i :: 0 <= i < |rows| ==> r[i] == if percent then rows[i].genieMutFreq else rows[i].genieMutFraq
  {
    if |rows| == 0 then []
    else GenieValues(rows[..|rows| - 1], percent) + [if percent then rows[|rows| - 1].genieMutFreq else rows[|rows| - 1].genieMutFraq]
  }

  /** The per-cancer-type plot's labels as written: thresholds on the fraction columns. */
  function PlotLabelsAsWritten(rows: seq<ComparisonRow>): seq<nat>
  {
    SelectLabels(TcgaValues(rows, false), GenieValues(rows, false), AsWritten(|rows|)).labels
  }

  /** The per-cancer-type plot's labels as evidently intended: thresholds on the percentage
      columns, and each top-up recording the row it labels. */
  function PlotLabels(rows: seq<ComparisonRow>): seq<nat>
  {
    CorrectedLabels(TcgaValues(rows, true), GenieValues(rows, true)).labels
  }

  /** As written, when every fraction lies in [0, 1] no row is primary or secondary, so every label
      comes from the last top-up and there are at most four, however far apart the cohorts are. */
  lemma PlotLabelsAsWrittenOnFractions(rows: seq<ComparisonRow>)
    requires forall i :: 0 <= i < |rows| ==> 0.0 <= rows[i].tcgaMutFraq <= 1.0 && 0.0 <= rows[i].genieMutFraq <= 1.0
    ensures |PlotLabelsAsWritten(rows)| <= AxisMin + 1
    ensures forall l :: l in PlotLabelsAsWritten(rows) ==> l < |rows| && !IsPrimary(rows[l].tcgaMutFraq, rows[l].genieMutFraq)
  {
    var xs, ys := TcgaValues(rows, false), GenieValues(rows, false);
    forall i | 0 <= i < |rows| ensures !IsPrimary(xs[i], ys[i]) && !IsSecondary(xs[i], ys[i]) {
      FractionsMeetNoThreshold(xs[i], ys[i]);
    }
    IncreasingIsRange(PrimaryRows(xs, ys), 0, 0);
    IncreasingIsRange(SecondaryRows(xs, ys), 0, 0);
    var st := LabelState([], []);
    assert TopUp(st, [], LabelMin, AsWritten(|rows|)) == st;
    TopUpExtends(st, LeftoverRows(xs, ys), AxisMin, AsWritten(|rows|));
    SelectLabelsMeaning(xs, ys, AsWritten(|rows|));
  }

  /** Corrected, every row whose percentages make it an outlier is labelled, the outliers first
      and in row order, no row twice. */
  lemma PlotLabelsOutliers(rows: seq<ComparisonRow>)
    ensures forall i :: 0 <= i < |rows| && IsPrimary(rows[i].tcgaMutFreq, rows[i].genieMutFreq) ==> i in PlotLabels(rows)
    ensures var primary := PrimaryRows(TcgaValues(rows, true), GenieValues(rows, true));
            |primary| <= |PlotLabels(rows)| && PlotLabels(rows)[..|primary|] == primary
    ensures NoDuplicates(PlotLabels(rows))
  {
    SelectLabelsMeaning(TcgaValues(rows, true), GenieValues(rows, true), TargetIndex);
  }

  // ---------------------------------------------------------------------------------------------
  // titles and count annotations

  /** The per-cancer-type plot title: the low-grade glioma code names the two consortium codes it
      covers. */
  function MutationFrequencyTitle(genieCode: string, tcgaCode: string): (t: string)
    ensures tcgaCode == "LGG" ==> t == "Oncotree: LGGNOS,DIFG TCGA: LGG"
    ensures tcgaCode != "LGG" ==> t == "Oncotree: " + genieCode + " TCGA: " + tcgaCode
  {
    if tcgaCode == "LGG" then "Oncotree: LGGNOS,DIFG TCGA: " + tcgaCode
    else "Oncotree: " + genieCode + " TCGA: " + tcgaCode
  }

  /** The deviation plot title names both codes as given. */
  function DeviationTitle(genieCode: string, tcgaCode: string): string
  {
    "Oncotree: " + genieCode + " TCGA: " + tcgaCode
  }

  /** The title always ends with the reference code, and differs from the deviation plot's title
      exactly when the reference code is LGG and the consortium code is not the pair it stands for. */
  lemma TitlesAgree(genieCode: string, tcgaCode: string)
    ensures MutationFrequencyTitle(genieCode, tcgaCode) == DeviationTitle(genieCode, tcgaCode) <==>
              tcgaCode != "LGG" || genieCode == "LGGNOS,DIFG"
  {
    if tcgaCode == "LGG" && MutationFrequencyTitle(genieCode, tcgaCode) == DeviationTitle(genieCode, tcgaCode) {
      var t := DeviationTitle(genieCode, tcgaCode);
      assert t == ("Oncotree: " + genieCode) + " TCGA: LGG";
      assert t == "Oncotree: LGGNOS,DIFG" + " TCGA: LGG";
      assert |genieCode| == 11;
      assert genieCode == t[10..21];
    }
  }

  /** One cancer type's totals: consortium code, reference total, consortium total. */
  datatype CountPoint = CountPoint(genieCode: string, tcgaTotal: int, genieTotal: int)

  /** `sample_counts_by_cancer_type`: the cancer types whose two totals differ by more than 500
      get both totals written next to their points. */
  method AnnotatedCancerTypes(data: seq<CountPoint>) returns (annotated: seq<nat>)
    ensures forall i :: i in annotated <==> 0 <= i < |data| && Abs((data[i].genieTotal - data[i].tcgaTotal) as real) > 500.0
    ensures Increasing(annotated)
  {
    annotated := [];
    for i := 0 to |data|
      invariant forall j :: j in annotated <==> 0 <= j < i && Abs((data[j].genieTotal - data[j].tcgaTotal) as real) > 500.0
      invariant Increasing(annotated)
      invariant forall j :: j in annotated ==> j < i
    {
      if Abs(data[i].genieTotal as real - data[i].tcgaTotal as real) > 500.0 {
        IncreasingSnoc(annotated, i);
        annotated := annotated + [i];
      }
    }
  }
}
