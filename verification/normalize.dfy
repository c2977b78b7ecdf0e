/** Channel topology and mean normalisation: every column of the event table
    is rescaled so that its mean becomes a fixed target, 500 on the side of a
    strip the beam deposits in (and for `s0`, `s17`) and 50 on the other. */
module Normalize {
  import opened Seqs
  import opened EventTable

  const BeamTarget: real := 500.0
  const NoBeamTarget: real := 50.0

  /** The beam-side columns, as listed in `music_evt_strip0cut_to_norm.py`. */
  const Beam: seq<ColumnIndex> := [1, 4, 5, 8, 9, 12, 13, 16, 17, 20, 21, 24, 25, 28, 29, 32]

  /** The other side of every strip. */
  const NoBeam: seq<ColumnIndex> := [2, 3, 6, 7, 10, 11, 14, 15, 18, 19, 22, 23, 26, 27, 30, 31]

  // ---------------------------------------------------------------------
  // Topology

  /** The channel of strip `k` on the beam side: L for odd strips, R for even ones. */
  function BeamColumn(k: nat): ColumnIndex
    requires 1 <= k <= NumStrips
  {
    if k % 2 == 1 then Left(k) else Right(k)
  }

  /** The channel of strip `k` off the beam side. */
  function OffBeamColumn(k: nat): ColumnIndex
    requires 1 <= k <= NumStrips
  {
    if k % 2 == 1 then Right(k) else Left(k)
  }

  /** Entry `i` of each list is the beam-side / off-side channel of strip `i + 1`. */
  lemma ListsFollowStrips()
    ensures |Beam| == NumStrips && |NoBeam| == NumStrips
    ensures forall i | 0 <= i < NumStrips :: Beam[i] == BeamColumn(i + 1) && NoBeam[i] == OffBeamColumn(i + 1)
  {
    forall i | 0 <= i < NumStrips
      ensures Beam[i] == BeamColumn(i + 1) && NoBeam[i] == OffBeamColumn(i + 1)
    {
      StripCases(i + 1);
    }
  }

  /** The two channels of strip `k` are different, both name strip `k`, and
      sit at residues 0, 1 (beam side) and 2, 3 (other side) modulo 4. */
  lemma StripChannels(k: nat)
    requires 1 <= k <= NumStrips
    ensures BeamColumn(k) != OffBeamColumn(k)
    ensures (BeamColumn(k) + 1) / 2 == k && (OffBeamColumn(k) + 1) / 2 == k
    ensures BeamColumn(k) % 4 == 0 || BeamColumn(k) % 4 == 1
    ensures OffBeamColumn(k) % 4 == 2 || OffBeamColumn(k) % 4 == 3
  {
    var m := k / 2;
    if k % 2 == 1 {
      assert k == 2 * m + 1;
      assert BeamColumn(k) == 4 * m + 1 && OffBeamColumn(k) == 4 * m + 2;
    } else {
      assert k == 2 * m;
      assert BeamColumn(k) == 4 * m && OffBeamColumn(k) == 4 * m - 1;
    }
  }

  /** Beam columns are the columns 1..32 congruent to 0 or 1 modulo 4. */
  lemma BeamByResidue(c: int)
    ensures c in Beam <==> 1 <= c <= 32 && (c % 4 == 0 || c % 4 == 1)
  {
    ListsFollowStrips();
    if c in Beam {
      var i :| 0 <= i < |Beam| && Beam[i] == c;
      StripChannels(i + 1);
    }
    if 1 <= c <= 32 && (c % 4 == 0 || c % 4 == 1) {
      var k := (c + 1) / 2;
      StripChannels(k);
      assert c == Left(k) || c == Right(k);
      assert c == BeamColumn(k);
      assert Beam[k - 1] == c;
    }
  }

  /** No-beam columns are the columns 1..32 congruent to 2 or 3 modulo 4. */
  lemma NoBeamByResidue(c: int)
    ensures c in NoBeam <==> 1 <= c <= 32 && (c % 4 == 2 || c % 4 == 3)
  {
    ListsFollowStrips();
    if c in NoBeam {
      var i :| 0 <= i < |NoBeam| && NoBeam[i] == c;
      StripChannels(i + 1);
    }
    if 1 <= c <= 32 && (c % 4 == 2 || c % 4 == 3) {
      var k := (c + 1) / 2;
      StripChannels(k);
      assert c == Left(k) || c == Right(k);
      assert c == OffBeamColumn(k);
      assert NoBeam[k - 1] == c;
    }
  }

  /** `beam` and `no_beam` split the channels 1..32 between them: sixteen
      each, none in both, none missing. */
  lemma BeamPartition()
    ensures |Beam| == NumStrips && |NoBeam| == NumStrips
    ensures forall c | c in Beam :: c !in NoBeam
    ensures forall c: int :: (c in Beam || c in NoBeam) <==> 1 <= c <= 32
  {
    ListsFollowStrips();
    forall c: int ensures (c in Beam <==> 1 <= c <= 32 && (c % 4 == 0 || c % 4 == 1))
      && (c in NoBeam <==> 1 <= c <= 32 && (c % 4 == 2 || c % 4 == 3))
    {
      BeamByResidue(c);
      NoBeamByResidue(c);
    }
  }

  /** The mean the rescale aims at for column `c`. */
  function Target(c: ColumnIndex): real
  {
    if c == Strip0Column || c == Strip17Column then BeamTarget
    else if c == BeamColumn((c + 1) / 2) then BeamTarget
    else NoBeamTarget
  }

  lemma TargetOfLists(i: nat)
    requires i < NumStrips
    ensures Target(Beam[i]) == BeamTarget && Target(NoBeam[i]) == NoBeamTarget
  {
    ListsFollowStrips();
  }

  // ---------------------------------------------------------------------
  // Rescaling

  /** Every value of column `c` multiplied by `f`, the other columns untouched. */
  function ScaleColumn(t: Table, c: ColumnIndex, f: real): (r: Table)
    ensures |r| == |t|
    ensures forall i, d | 0 <= i < |t| && 0 <= d < NumColumns && d != c :: r[i][d] == t[i][d]
    ensures forall i | 0 <= i < |t| :: r[i][c] == t[i][c] * f
  {
    seq(|t|, i requires 0 <= i < |t| => t[i][c := t[i][c] * f])
  }

  /** Column `c` is scaled by `f`; every other column is unchanged. */
  lemma ScaleColumnColumns(t: Table, c: ColumnIndex, f: real)
    ensures Column(ScaleColumn(t, c, f), c) == Scale(Column(t, c), f)
    ensures forall d: ColumnIndex | d != c :: Column(ScaleColumn(t, c, f), d) == Column(t, d)
  {
    var r := ScaleColumn(t, c, f);
    forall i | 0 <= i < |t| ensures Column(r, c)[i] == Scale(Column(t, c), f)[i] {
      assert Column(r, c)[i] == r[i][c] == t[i][c] * f;
    }
    forall d: ColumnIndex | d != c ensures Column(ScaleColumn(t, c, f), d) == Column(t, d) {
      ScaleColumnOther(t, c, f, d);
    }
  }

  lemma ScaleColumnOther(t: Table, c: ColumnIndex, f: real, d: ColumnIndex)
    requires d != c
    ensures Column(ScaleColumn(t, c, f), d) == Column(t, d)
  {
    var r := ScaleColumn(t, c, f);
    forall i | 0 <= i < |t| ensures Column(r, d)[i] == Column(t, d)[i] {
      assert Column(r, d)[i] == r[i][d] == t[i][d];
    }
  }

  /** `df.iloc[:, c] = df.iloc[:, c] * (target / np.mean(df.iloc[:, c]))`.
      An empty table is left as it is; a zero mean on a non-empty column
      would fill the column with non-finite values and is reported instead. */
  function RescaleColumn(t: Table, c: ColumnIndex, target: real): (r: Result<Table>)
    ensures r.Ok? <==> |t| == 0 || Mean(Column(t, c)) != 0.0
    ensures r.Err? ==> r.failure == NonFiniteScale(c)
    ensures r.Ok? ==> |r.value| == |t|
    ensures r.Ok? ==> forall d: ColumnIndex | d != c :: Column(r.value, d) == Column(t, d)
    ensures r.Ok? && |t| > 0 ==> Column(r.value, c) == Scale(Column(t, c), target / Mean(Column(t, c)))
    ensures r.Ok? && |t| > 0 ==> Mean(Column(r.value, c)) == target
  {
    if |t| == 0 then Ok(t)
    else
      var m := Mean(Column(t, c));
      if m == 0.0 then Err(NonFiniteScale(c))
      else
        ScaleColumnColumns(t, c, target / m);
        MeanAfterRescale(Column(t, c), target);
        Ok(ScaleColumn(t, c, target / m))
  }

  /** Rescaling a column whose mean is already its (nonzero) target changes nothing. */
  lemma RescaleAtTarget(t: Table, c: ColumnIndex, target: real)
    requires |t| > 0 && target != 0.0 && Mean(Column(t, c)) == target
    ensures RescaleColumn(t, c, target) == Ok(t)
  {
    var r := ScaleColumn(t, c, target / Mean(Column(t, c)));
    assert target / Mean(Column(t, c)) == 1.0;
    assert RescaleColumn(t, c, target) == Ok(r);
    forall i | 0 <= i < |t| ensures r[i] == t[i] {
      forall d | 0 <= d < NumColumns ensures r[i][d] == t[i][d] {
        if d == c {
          assert r[i][d] == t[i][d] * 1.0;
        }
      }
    }
    assert r == t;
  }

  /** With a positive mean and a positive target, rescaling keeps the order of
      the values within the column. */
  lemma RescaleKeepsOrder(t: Table, c: ColumnIndex, target: real, i: nat, j: nat)
    requires i < |t| && j < |t|
    requires Mean(Column(t, c)) > 0.0 && target > 0.0
    requires t[i][c] <= t[j][c]
    ensures RescaleColumn(t, c, target).Ok?
    ensures RescaleColumn(t, c, target).value[i][c] <= RescaleColumn(t, c, target).value[j][c]
  {
    var f := target / Mean(Column(t, c));
    var r := RescaleColumn(t, c, target).value;
    assert r[i][c] == Column(r, c)[i] == t[i][c] * f;
    assert r[j][c] == Column(r, c)[j] == t[j][c] * f;
  }

  // ---------------------------------------------------------------------
  // A sequence of rescales

  /** One `df.iloc[:, column] = ... * (target / mean)` statement. */
  datatype Step = Step(column: ColumnIndex, target: real)

  /** One loop over an index list: every listed column towards the same target. */
  function LoopSteps(columns: seq<ColumnIndex>, target: real): (steps: seq<Step>)
    ensures |steps| == |columns|
    ensures forall i | 0 <= i < |columns| :: steps[i] == Step(columns[i], target)
  {
    seq(|columns|, i requires 0 <= i < |columns| => Step(columns[i], target))
  }

  /** The statements in script order: `s0`, the beam loop, the no-beam loop, `s17`. */
  const CodeSteps: seq<Step> :=
    [Step(Strip0Column, BeamTarget)] + LoopSteps(Beam, BeamTarget) + LoopSteps(NoBeam, NoBeamTarget)
    + [Step(Strip17Column, BeamTarget)]

  /** The statements run one after the other, each on the table the previous one left. */
  function NormalizeSteps(t: Table, steps: seq<Step>): (r: Result<Table>)
    ensures r.Ok? ==> |r.value| == |t|
    decreases |steps|
  {
    if steps == [] then Ok(t)
    else
      match RescaleColumn(t, steps[0].column, steps[0].target)
      case Err(e) => Err(e)
      case Ok(next) => NormalizeSteps(next, steps[1..])
  }

  predicate DistinctColumns(steps: seq<Step>)
  {
    forall i, j | 0 <= i < j < |steps| :: steps[i].column != steps[j].column
  }

  predicate StepMeansNonZero(t: Table, steps: seq<Step>)
  {
    forall i | 0 <= i < |steps| :: Mean(Column(t, steps[i].column)) != 0.0
  }

  /** `target / mean`, taken only where the mean is nonzero (1 elsewhere,
      a value no successful run uses). */
  function Ratio(target: real, mean: real): real
  {
    if mean == 0.0 then 1.0 else target / mean
  }

  /** The factor the steps apply to column `c`: the first step naming it
      decides, and a column no step names keeps factor 1. */
  function FactorOf(t: Table, steps: seq<Step>, c: ColumnIndex): real
  {
    if steps == [] then 1.0
    else if steps[0].column == c then Ratio(steps[0].target, Mean(Column(t, c)))
    else FactorOf(t, steps[1..], c)
  }

  /** Every cell multiplied by the factor of its column: the reference the
      step-by-step run is compared with. */
  function ScaleBy(t: Table, fs: seq<real>): (r: Table)
    requires |fs| == NumColumns
    ensures |r| == |t|
    ensures forall i, c | 0 <= i < |t| && 0 <= c < NumColumns :: r[i][c] == t[i][c] * fs[c]
  {
    seq(|t|, i requires 0 <= i < |t| =>
      seq(NumColumns, c requires 0 <= c < NumColumns => t[i][c] * fs[c]))
  }

  function Factors(t: Table, steps: seq<Step>): (fs: seq<real>)
    ensures |fs| == NumColumns
  {
    seq(NumColumns, c requires 0 <= c < NumColumns => FactorOf(t, steps, c))
  }

  lemma {:induction false} FactorOfAbsent(t: Table, steps: seq<Step>, c: ColumnIndex)
    requires forall i | 0 <= i < |steps| :: steps[i].column != c
    ensures FactorOf(t, steps, c) == 1.0
    decreases |steps|
  {
    if steps != [] {
      FactorOfAbsent(t, steps[1..], c);
    }
  }

  lemma {:induction false} FactorOfPresent(t: Table, steps: seq<Step>, k: nat)
    requires DistinctColumns(steps) && k < |steps|
    ensures FactorOf(t, steps, steps[k].column) == Ratio(steps[k].target, Mean(Column(t, steps[k].column)))
    decreases |steps|
  {
    if k > 0 {
      assert steps[0].column != steps[k].column;
      assert steps[1..][k - 1] == steps[k];
      FactorOfPresent(t, steps[1..], k - 1);
    }
  }

  lemma {:induction false} FactorOfSameColumn(t: Table, u: Table, steps: seq<Step>, c: ColumnIndex)
    requires Column(t, c) == Column(u, c)
    ensures FactorOf(t, steps, c) == FactorOf(u, steps, c)
    decreases |steps|
  {
    if steps != [] {
      assert Mean(Column(t, c)) == Mean(Column(u, c));
      FactorOfSameColumn(t, u, steps[1..], c);
    }
  }

  /** Factor `f` on column `c`, 1 elsewhere. */
  function UnitFactors(c: ColumnIndex, f: real): (us: seq<real>)
    ensures |us| == NumColumns
  {
    seq(NumColumns, d requires 0 <= d < NumColumns => if d == c then f else 1.0)
  }

  /** Column-wise products of two factor lists. */
  function Times(g: seq<real>, h: seq<real>): (gh: seq<real>)
    requires |g| == NumColumns && |h| == NumColumns
    ensures |gh| == NumColumns
  {
    seq(NumColumns, c requires 0 <= c < NumColumns => g[c] * h[c])
  }

  /** Scaling twice is scaling once by the products of the factors. */
  lemma ScaleByScaleBy(t: Table, g: seq<real>, h: seq<real>)
    requires |g| == NumColumns && |h| == NumColumns
    ensures ScaleBy(ScaleBy(t, g), h) == ScaleBy(t, Times(g, h))
  {
    var a, b := ScaleBy(ScaleBy(t, g), h), ScaleBy(t, Times(g, h));
    forall i | 0 <= i < |t| ensures a[i] == b[i] {
      forall c | 0 <= c < NumColumns ensures a[i][c] == b[i][c] {
        assert a[i][c] == (t[i][c] * g[c]) * h[c];
      }
    }
  }

  /** Scaling a single column is scaling the table by factor 1 elsewhere. */
  lemma ScaleColumnIsScaleBy(t: Table, c: ColumnIndex, f: real)
    ensures ScaleColumn(t, c, f) == ScaleBy(t, UnitFactors(c, f))
  {
    var a, b := ScaleColumn(t, c, f), ScaleBy(t, UnitFactors(c, f));
    forall i | 0 <= i < |t| ensures a[i] == b[i] {
      forall d | 0 <= d < NumColumns ensures a[i][d] == b[i][d] {
      }
    }
  }

  /** Factor 1 everywhere is the identity. */
  lemma ScaleByOnes(t: Table, fs: seq<real>)
    requires |fs| == NumColumns && forall c | 0 <= c < NumColumns :: fs[c] == 1.0
    ensures ScaleBy(t, fs) == t
  {
    var a := ScaleBy(t, fs);
    forall i | 0 <= i < |t| ensures a[i] == t[i] {
      forall c | 0 <= c < NumColumns ensures a[i][c] == t[i][c] {
      }
    }
  }

  /** Column `c` of a scaled table is column `c` scaled by its factor. */
  lemma ColumnOfScaleBy(t: Table, fs: seq<real>, c: ColumnIndex)
    requires |fs| == NumColumns
    ensures Column(ScaleBy(t, fs), c) == Scale(Column(t, c), fs[c])
  {
    var a, b := Column(ScaleBy(t, fs), c), Scale(Column(t, c), fs[c]);
    forall i | 0 <= i < |t| ensures a[i] == b[i] {
    }
  }

  /** One step in front of steps that do not name its column: the combined
      factors are the step's factor on its column and the later factors elsewhere. */
  lemma FactorsStep(t: Table, steps: seq<Step>)
    requires |t| > 0 && steps != [] && DistinctColumns(steps)
    requires Mean(Column(t, steps[0].column)) != 0.0
    ensures Times(UnitFactors(steps[0].column, steps[0].target / Mean(Column(t, steps[0].column))),
      Factors(ScaleColumn(t, steps[0].column, steps[0].target / Mean(Column(t, steps[0].column))), steps[1..]))
      == Factors(t, steps)
  {
    var c0, m0 := steps[0].column, Mean(Column(t, steps[0].column));
    var f0 := steps[0].target / m0;
    var next := ScaleColumn(t, c0, f0);
    var rest := steps[1..];
    forall c: ColumnIndex ensures (if c == c0 then f0 else 1.0) * FactorOf(next, rest, c) == FactorOf(t, steps, c) {
      if c == c0 {
        forall i | 0 <= i < |rest| ensures rest[i].column != c0 {
          assert rest[i] == steps[i + 1];
        }
        FactorOfAbsent(next, rest, c0);
      } else {
        assert Column(next, c) == Column(t, c);
        FactorOfSameColumn(next, t, rest, c);
      }
    }
    var lhs := Times(UnitFactors(c0, f0), Factors(next, rest));
    forall c | 0 <= c < NumColumns ensures lhs[c] == Factors(t, steps)[c] {
      assert lhs[c] == UnitFactors(c0, f0)[c] * Factors(next, rest)[c];
    }
  }

  /** Steps naming distinct columns succeed exactly when no named column of
      a non-empty table has mean zero, and then equal one scaling of the
      table by the per-column factors: no step sees another step's output. */
  lemma {:induction false} NormalizeStepsScales(t: Table, steps: seq<Step>)
    requires DistinctColumns(steps)
    ensures NormalizeSteps(t, steps).Ok? <==> |t| == 0 || StepMeansNonZero(t, steps)
    ensures NormalizeSteps(t, steps).Ok? ==> NormalizeSteps(t, steps).value == ScaleBy(t, Factors(t, steps))
    decreases |steps|
  {
    if steps == [] {
      ScaleByOnes(t, Factors(t, steps));
    } else if |t| == 0 {
      var rest := steps[1..];
      NormalizeStepsScales(t, rest);
    } else {
      var c0, m0 := steps[0].column, Mean(Column(t, steps[0].column));
      var rest := steps[1..];
      if m0 != 0.0 {
        var f0 := steps[0].target / m0;
        var next := ScaleColumn(t, c0, f0);
        assert RescaleColumn(t, c0, steps[0].target) == Ok(next);
        NormalizeStepsScales(next, rest);
        forall i | 0 <= i < |rest|
          ensures Mean(Column(next, rest[i].column)) == Mean(Column(t, rest[i].column))
        {
          assert rest[i] == steps[i + 1];
        }
        assert StepMeansNonZero(t, steps) <==> StepMeansNonZero(next, rest) by {
          if StepMeansNonZero(next, rest) {
            forall i | 0 <= i < |steps| ensures Mean(Column(t, steps[i].column)) != 0.0 {
              if i > 0 {
                assert steps[i] == rest[i - 1];
              }
            }
          }
        }
        ScaleColumnIsScaleBy(t, c0, f0);
        ScaleByScaleBy(t, UnitFactors(c0, f0), Factors(next, rest));
        FactorsStep(t, steps);
      }
    }
  }

  /** Two runs of the same distinct steps in any order give the same outcome. */
  lemma StepOrderIrrelevant(t: Table, steps: seq<Step>, reordered: seq<Step>)
    requires DistinctColumns(steps) && DistinctColumns(reordered)
    requires forall s | s in steps :: s in reordered
    requires forall s | s in reordered :: s in steps
    ensures NormalizeSteps(t, steps).Ok? == NormalizeSteps(t, reordered).Ok?
    ensures NormalizeSteps(t, steps).Ok? ==> NormalizeSteps(t, steps) == NormalizeSteps(t, reordered)
  {
    NormalizeStepsScales(t, steps);
    NormalizeStepsScales(t, reordered);
    forall c: ColumnIndex ensures FactorOf(t, steps, c) == FactorOf(t, reordered, c) {
      if i :| 0 <= i < |steps| && steps[i].column == c {
        assert steps[i] in reordered;
        var j :| 0 <= j < |reordered| && reordered[j] == steps[i];
        FactorOfPresent(t, steps, i);
        FactorOfPresent(t, reordered, j);
      } else {
        FactorOfAbsent(t, steps, c);
        forall j | 0 <= j < |reordered| ensures reordered[j].column != c {
          assert reordered[j] in steps;
        }
        FactorOfAbsent(t, reordered, c);
      }
    }
    assert Factors(t, steps) == Factors(t, reordered);
    if StepMeansNonZero(t, steps) {
      forall j | 0 <= j < |reordered| ensures Mean(Column(t, reordered[j].column)) != 0.0 {
        assert reordered[j] in steps;
      }
    }
    if StepMeansNonZero(t, reordered) {
      forall i | 0 <= i < |steps| ensures Mean(Column(t, steps[i].column)) != 0.0 {
        assert steps[i] in reordered;
      }
    }
  }

  // ---------------------------------------------------------------------
  // The script's steps

  /** Where column `c` is rescaled in the script. */
  function StepIndex(c: ColumnIndex): nat
  {
    if c == Strip0Column then 0
    else if c == Strip17Column then 33
    else if c == BeamColumn((c + 1) / 2) then (c + 1) / 2
    else NumStrips + (c + 1) / 2
  }

  lemma CodeStepsShape()
    ensures |CodeSteps| == NumColumns
    ensures CodeSteps[0] == Step(Strip0Column, BeamTarget)
    ensures CodeSteps[33] == Step(Strip17Column, BeamTarget)
    ensures forall k | 1 <= k <= NumStrips :: CodeSteps[k] == Step(BeamColumn(k), BeamTarget)
    ensures forall k | 1 <= k <= NumStrips :: CodeSteps[NumStrips + k] == Step(OffBeamColumn(k), NoBeamTarget)
  {
    ListsFollowStrips();
    var head, beam, noBeam, tail := [Step(Strip0Column, BeamTarget)], LoopSteps(Beam, BeamTarget),
      LoopSteps(NoBeam, NoBeamTarget), [Step(Strip17Column, BeamTarget)];
    var front := head + beam;
    assert CodeSteps == front + noBeam + tail;
    forall k | 1 <= k <= NumStrips ensures CodeSteps[k] == Step(BeamColumn(k), BeamTarget) {
      assert CodeSteps[k] == front[k] == beam[k - 1];
    }
    forall k | 1 <= k <= NumStrips ensures CodeSteps[NumStrips + k] == Step(OffBeamColumn(k), NoBeamTarget) {
      assert CodeSteps[NumStrips + k] == noBeam[k - 1];
    }
  }

  /** Every column is rescaled exactly once, towards its target. */
  lemma CodeStepAt(c: ColumnIndex)
    ensures StepIndex(c) < |CodeSteps|
    ensures CodeSteps[StepIndex(c)] == Step(c, Target(c))
  {
    CodeStepsShape();
    if c != Strip0Column && c != Strip17Column {
      var k := (c + 1) / 2;
      StripChannels(k);
      assert c == Left(k) || c == Right(k);
    }
  }

  lemma CodeStepIndex(j: nat)
    requires j < |CodeSteps|
    ensures StepIndex(CodeSteps[j].column) == j
  {
    CodeStepsShape();
    if 1 <= j <= NumStrips {
      BeamStepIndex(j);
    } else if NumStrips < j < 33 {
      OffBeamStepIndex(j - NumStrips);
    }
  }

  lemma BeamStepIndex(k: nat)
    requires 1 <= k <= NumStrips
    ensures StepIndex(BeamColumn(k)) == k
  {
    StripChannels(k);
  }

  lemma OffBeamStepIndex(k: nat)
    requires 1 <= k <= NumStrips
    ensures StepIndex(OffBeamColumn(k)) == NumStrips + k
  {
    StripChannels(k);
  }

  lemma CodeStepsDistinct()
    ensures DistinctColumns(CodeSteps)
  {
    forall i, j | 0 <= i < j < |CodeSteps| ensures CodeSteps[i].column != CodeSteps[j].column {
      CodeStepIndex(i);
      CodeStepIndex(j);
    }
  }

  /** The script's run scales every column by its own target over its own mean. */
  lemma CodeFactors(t: Table)
    requires |t| > 0 && forall c: ColumnIndex :: Mean(Column(t, c)) != 0.0
    ensures forall c: ColumnIndex :: Factors(t, CodeSteps)[c] == Target(c) / Mean(Column(t, c))
  {
    CodeStepsDistinct();
    forall c: ColumnIndex ensures FactorOf(t, CodeSteps, c) == Target(c) / Mean(Column(t, c)) {
      CodeStepAt(c);
      FactorOfPresent(t, CodeSteps, StepIndex(c));
    }
  }

  /** The script's steps name every column, so their means are all nonzero
      exactly when every column mean is. */
  lemma CodeStepMeans(t: Table)
    ensures StepMeansNonZero(t, CodeSteps) <==> forall c: ColumnIndex :: Mean(Column(t, c)) != 0.0
  {
    if StepMeansNonZero(t, CodeSteps) {
      forall c: ColumnIndex ensures Mean(Column(t, c)) != 0.0 {
        CodeStepAt(c);
      }
    }
  }

  /** Scaling by the script's factors gives every column its target mean. */
  lemma CodeScaledColumns(t: Table)
    requires |t| > 0 && forall c: ColumnIndex :: Mean(Column(t, c)) != 0.0
    ensures forall c: ColumnIndex ::
      Column(ScaleBy(t, Factors(t, CodeSteps)), c) == Scale(Column(t, c), Target(c) / Mean(Column(t, c)))
    ensures forall c: ColumnIndex :: Mean(Column(ScaleBy(t, Factors(t, CodeSteps)), c)) == Target(c)
  {
    CodeFactors(t);
    forall c: ColumnIndex
      ensures Column(ScaleBy(t, Factors(t, CodeSteps)), c) == Scale(Column(t, c), Target(c) / Mean(Column(t, c)))
      ensures Mean(Column(ScaleBy(t, Factors(t, CodeSteps)), c)) == Target(c)
    {
      ColumnOfScaleBy(t, Factors(t, CodeSteps), c);
      MeanAfterRescale(Column(t, c), Target(c));
    }
  }

  /** `music_evt_strip0cut_to_norm.py`: the 34 rescale statements. It fails
      only when a non-empty table has a zero-mean column; otherwise every
      column becomes its own values times its target over its own mean, so
      its mean is exactly its target and the row count is unchanged. */
  function NormalizeTable(t: Table): (r: Result<Table>)
    ensures r.Ok? <==> |t| == 0 || forall c: ColumnIndex :: Mean(Column(t, c)) != 0.0
    ensures r.Ok? ==> |r.value| == |t|
    ensures r.Ok? && |t| > 0 ==>
      forall c: ColumnIndex :: Column(r.value, c) == Scale(Column(t, c), Target(c) / Mean(Column(t, c)))
    ensures r.Ok? && |t| > 0 ==> forall c: ColumnIndex :: Mean(Column(r.value, c)) == Target(c)
  {
    CodeStepsDistinct();
    NormalizeStepsScales(t, CodeSteps);
    CodeStepMeans(t);
    if |t| > 0 && StepMeansNonZero(t, CodeSteps) then
      CodeScaledColumns(t);
      NormalizeSteps(t, CodeSteps)
    else NormalizeSteps(t, CodeSteps)
  }

  /** Normalising a normalised table changes nothing: every mean already is its target. */
  lemma NormalizeTwice(t: Table)
    requires NormalizeTable(t).Ok?
    ensures NormalizeTable(NormalizeTable(t).value) == NormalizeTable(t)
  {
    var n := NormalizeTable(t).value;
    if |t| > 0 {
      CodeStepsDistinct();
      NormalizeStepsScales(n, CodeSteps);
      CodeFactors(n);
      ScaleByOnes(n, Factors(n, CodeSteps));
    }
  }

  lemma NormalizedColumn(t: Table, c: ColumnIndex)
    requires NormalizeTable(t).Ok? && |t| > 0
    ensures Mean(Column(t, c)) != 0.0
    ensures Column(NormalizeTable(t).value, c) == Scale(Column(t, c), Target(c) / Mean(Column(t, c)))
  {
  }

  /** Scaling by a positive factor keeps the order of any two values. */
  lemma ScaleKeepsOrder(xs: seq<real>, f: real, i: nat, j: nat)
    requires i < |xs| && j < |xs| && f > 0.0 && xs[i] <= xs[j]
    ensures Scale(xs, f)[i] <= Scale(xs, f)[j]
  {
  }

  lemma TargetPositive(c: ColumnIndex)
    ensures Target(c) > 0.0
  {
  }

  lemma RatioPositive(a: real, b: real)
    requires a > 0.0 && b > 0.0
    ensures a / b > 0.0
  {
  }

  /** With a positive column mean the normalised column keeps the order of its values. */
  lemma NormalizeKeepsOrder(t: Table, c: ColumnIndex, i: nat, j: nat)
    requires NormalizeTable(t).Ok? && i < |t| && j < |t|
    requires Mean(Column(t, c)) > 0.0 && t[i][c] <= t[j][c]
    ensures NormalizeTable(t).value[i][c] <= NormalizeTable(t).value[j][c]
  {
    var n := NormalizeTable(t).value;
    var xs := Column(t, c);
    NormalizedColumn(t, c);
    TargetPositive(c);
    RatioPositive(Target(c), Mean(xs));
    ScaleKeepsOrder(xs, Target(c) / Mean(xs), i, j);
    assert n[i][c] == Column(n, c)[i];
    assert n[j][c] == Column(n, c)[j];
  }
}
