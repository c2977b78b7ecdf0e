/** Selection of candidate events in strip 3: a run of `df.drop` calls,
    each removing the rows one threshold test flags. */
module Strip3 {
  import opened Seqs
  import opened EventTable

  const Threshold: real := 600.0

  /** The condition of one drop: a column strictly below or strictly above a limit. */
  datatype Test =
    | Below(column: ColumnIndex, limit: real)
    | Above(column: ColumnIndex, limit: real)

  /** The drop removes `row` (`df.loc[cond].index` contains it). */
  predicate Flags(test: Test, row: Row)
  {
    match test
    case Below(c, limit) => row[c] < limit
    case Above(c, limit) => row[c] > limit
  }

  /** `df.drop(df.loc[cond].index, inplace=True)`: labels are unique, so the
      rows flagged go and every other row stays, in order, unchanged. */
  function Drop(t: Table, test: Test): (kept: Table)
    ensures forall row | row in kept :: row in t && !Flags(test, row)
    ensures forall row | row in t && !Flags(test, row) :: row in kept
  {
    Filter(t, (row: Row) => !Flags(test, row))
  }

  /** Several drops, one after the other. */
  function DropAll(t: Table, tests: seq<Test>): (kept: Table)
    ensures |kept| <= |t|
    ensures forall row | row in kept :: row in t
    decreases |tests|
  {
    if tests == [] then t else DropAll(Drop(t, tests[0]), tests[1..])
  }

  /** `row` survives every test of the list. */
  predicate PassesAll(tests: seq<Test>, row: Row)
  {
    forall i | 0 <= i < |tests| :: !Flags(tests[i], row)
  }

  /** A run of drops is one order-preserving filter by the conjunction of the
      negated tests. */
  lemma {:induction false} DropAllIsFilter(t: Table, tests: seq<Test>)
    ensures DropAll(t, tests) == Filter(t, (row: Row) => PassesAll(tests, row))
    decreases |tests|
  {
    if tests == [] {
      FilterAll(t, (row: Row) => PassesAll(tests, row));
    } else {
      var first, rest := tests[0], tests[1..];
      DropAllIsFilter(Drop(t, first), rest);
      forall row | row in t
        ensures PassesAll(tests, row) == (!Flags(first, row) && PassesAll(rest, row))
      {
        if !Flags(first, row) && PassesAll(rest, row) {
          forall i | 0 <= i < |tests| ensures !Flags(tests[i], row) {
            if i > 0 {
              assert tests[i] == rest[i - 1];
            }
          }
        }
      }
      FilterFilter(t, (row: Row) => !Flags(first, row), (row: Row) => PassesAll(rest, row),
        (row: Row) => PassesAll(tests, row));
    }
  }

  /** The order of the drops does not matter: any list holding the same tests
      removes the same rows. */
  lemma DropOrderIrrelevant(t: Table, tests: seq<Test>, reordered: seq<Test>)
    requires forall test | test in tests :: test in reordered
    requires forall test | test in reordered :: test in tests
    ensures DropAll(t, tests) == DropAll(t, reordered)
  {
    DropAllIsFilter(t, tests);
    DropAllIsFilter(t, reordered);
    forall row | row in t
      ensures PassesAll(tests, row) == PassesAll(reordered, row)
    {
      if PassesAll(tests, row) {
        forall i | 0 <= i < |reordered| ensures !Flags(reordered[i], row) {
          assert reordered[i] in reordered;
          var j :| 0 <= j < |tests| && tests[j] == reordered[i];
        }
      }
      if PassesAll(reordered, row) {
        forall i | 0 <= i < |tests| ensures !Flags(tests[i], row) {
          assert tests[i] in tests;
          var j :| 0 <= j < |reordered| && reordered[j] == tests[i];
        }
      }
    }
    FilterSameVerdict(t, (row: Row) => PassesAll(tests, row), (row: Row) => PassesAll(reordered, row));
  }

  /** The five drops, in script order: `s3L < 600`, `s2R > 600`, `s1L > 600`,
      `s4R < 600`, `s16R > 0.5 * 600`. */
  const Strip3Tests: seq<Test> := [
    Below(Left(3), Threshold),
    Above(Right(2), Threshold),
    Above(Left(1), Threshold),
    Below(Right(4), Threshold),
    Above(Right(16), 0.5 * Threshold)
  ]

  /** A strip-3 candidate: above threshold in strips 3 (left) and 4 (right),
      beam-like at most threshold in strips 2 (right) and 1 (left), and at
      most half the threshold in strip 16 (right). */
  predicate InStrip3(row: Row)
  {
    && row[Left(3)] >= 600.0
    && row[Right(2)] <= 600.0
    && row[Left(1)] <= 600.0
    && row[Right(4)] >= 600.0
    && row[Right(16)] <= 300.0
  }

  lemma PassesStrip3Tests(row: Row)
    ensures PassesAll(Strip3Tests, row) == InStrip3(row)
  {
    if InStrip3(row) {
      forall i | 0 <= i < |Strip3Tests| ensures !Flags(Strip3Tests[i], row) {
      }
    } else {
      assert exists i | 0 <= i < |Strip3Tests| :: Flags(Strip3Tests[i], row) by {
        if row[Left(3)] < 600.0 { assert Flags(Strip3Tests[0], row); }
        else if row[Right(2)] > 600.0 { assert Flags(Strip3Tests[1], row); }
        else if row[Left(1)] > 600.0 { assert Flags(Strip3Tests[2], row); }
        else if row[Right(4)] < 600.0 { assert Flags(Strip3Tests[3], row); }
        else { assert Flags(Strip3Tests[4], row); }
      }
    }
  }

  /** The five drops together are one filter by `InStrip3`. */
  lemma Strip3IsFilter(t: Table)
    ensures DropAll(t, Strip3Tests) == Filter(t, InStrip3)
  {
    DropAllIsFilter(t, Strip3Tests);
    forall row | row in t
      ensures PassesAll(Strip3Tests, row) == InStrip3(row)
    {
      PassesStrip3Tests(row);
    }
    FilterSameVerdict(t, (row: Row) => PassesAll(Strip3Tests, row), InStrip3);
  }

  /** `music_evt_in_strip3.py`: the rows kept are exactly the rows that pass
      all five tests, boundary values included, unchanged. */
  function SelectStrip3(t: Table): (kept: Table)
    ensures forall row | row in kept :: row in t
    ensures forall row | row in kept :: row[Left(3)] >= 600.0 && row[Right(4)] >= 600.0
    ensures forall row | row in kept :: row[Right(2)] <= 600.0 && row[Left(1)] <= 600.0 && row[Right(16)] <= 300.0
    ensures forall row | row in t && InStrip3(row) :: row in kept
  {
    Strip3IsFilter(t);
    DropAll(t, Strip3Tests)
  }

  /** Surviving rows keep their order: selecting from a concatenation selects
      from each part. */
  lemma Strip3Append(a: Table, b: Table)
    ensures SelectStrip3(a + b) == SelectStrip3(a) + SelectStrip3(b)
  {
    Strip3IsFilter(a + b);
    Strip3IsFilter(a);
    Strip3IsFilter(b);
    FilterAppend(a, b, InStrip3);
  }

  /** Selecting a second time removes nothing more. */
  lemma Strip3Idempotent(t: Table)
    ensures SelectStrip3(SelectStrip3(t)) == SelectStrip3(t)
  {
    Strip3IsFilter(t);
    Strip3IsFilter(SelectStrip3(t));
    FilterIdempotent(t, InStrip3);
  }

  /** The drops may run in any order. */
  lemma Strip3AnyOrder(t: Table, tests: seq<Test>)
    requires forall test | test in tests :: test in Strip3Tests
    requires forall test | test in Strip3Tests :: test in tests
    ensures DropAll(t, tests) == SelectStrip3(t)
  {
    DropOrderIrrelevant(t, Strip3Tests, tests);
  }
}
