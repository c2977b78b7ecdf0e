/** The event table: one row per physical event, 34 named columns
    `s0, s1L, s1R, ..., s16L, s16R, s17`, and its construction from an
    ordered column dictionary (the DataFrame constructor). */
module EventTable {

  const NumColumns: nat := 34
  const NumStrips: nat := 16

  /** Position of a column in the table (pandas `iloc` index). */
  type ColumnIndex = c: nat | c < 34

  /** One event: a value for every column, in column order. */
  type Row = r: seq<real> | |r| == 34 witness seq(34, _ => 0.0)

  /** Events in file order. */
  type Table = seq<Row>

  /** Why a stage stops without producing a table. */
  datatype Failure =
    | UnexpectedColumns       // a dictionary that is not the 34-column event layout
    | LengthMismatch          // DataFrame built from columns of unequal length
    | EmptyCounts             // arg-max of an empty count sequence
    | NonFiniteScale(column: nat)  // rescale by target / 0.0
    | UnformattableLimit      // a text cut limit formatted with `:.2f`

  datatype Result<T> = Ok(value: T) | Err(failure: Failure)

  // ---------------------------------------------------------------------
  // Column positions

  const Strip0Column: ColumnIndex := 0
  const Strip17Column: ColumnIndex := 33

  /** Position of `s{k}L`. */
  function Left(k: nat): (c: ColumnIndex)
    requires 1 <= k <= NumStrips
    ensures c % 2 == 1 && (c + 1) / 2 == k
  {
    2 * k - 1
  }

  /** Position of `s{k}R`. */
  function Right(k: nat): (c: ColumnIndex)
    requires 1 <= k <= NumStrips
    ensures c % 2 == 0 && 1 <= c && c / 2 == k
  {
    2 * k
  }

  /** The strip numbers, one by one: lets a proof about every strip split
      into one case per strip. */
  lemma StripCases(k: nat)
    requires 1 <= k <= NumStrips
    ensures k == 1 || k == 2 || k == 3 || k == 4 || k == 5 || k == 6 || k == 7 || k == 8
         || k == 9 || k == 10 || k == 11 || k == 12 || k == 13 || k == 14 || k == 15 || k == 16
  {
  }

  // ---------------------------------------------------------------------
  // Column names

  function Digit(d: nat): char
    requires d < 10
  {
    "0123456789"[d]
  }

  /** Decimal text of a natural number, as Python's `str` writes it. */
  function Decimal(n: nat): (s: string)
    ensures |s| >= 1
    ensures s[|s| - 1] == Digit(n % 10)
  {
    if n < 10 then [Digit(n)] else Decimal(n / 10) + [Digit(n % 10)]
  }

  lemma {:induction false} DecimalInjective(a: nat, b: nat)
    requires Decimal(a) == Decimal(b)
    ensures a == b
  {
    var da, db := Decimal(a), Decimal(b);
    assert Digit(a % 10) == Digit(b % 10);
    if a >= 10 && b >= 10 {
      assert da[..|da| - 1] == Decimal(a / 10);
      assert db[..|db| - 1] == Decimal(b / 10);
      DecimalInjective(a / 10, b / 10);
    }
  }

  /** The dictionary key of column `c`: `s0`, `s{k}L`, `s{k}R`, `s17`. */
  function ColumnKey(c: ColumnIndex): string
  {
    if c == 0 then "s0"
    else if c == 33 then "s17"
    else if c % 2 == 1 then "s" + Decimal((c + 1) / 2) + "L"
    else "s" + Decimal(c / 2) + "R"
  }

  /** The 34 column keys are pairwise different. */
  lemma ColumnKeyInjective(c: ColumnIndex, d: ColumnIndex)
    requires ColumnKey(c) == ColumnKey(d)
    ensures c == d
  {
    var kc, kd := ColumnKey(c), ColumnKey(d);
    if c != 0 && c != 33 && d != 0 && d != 33 && c % 2 == d % 2 {
      var nc := if c % 2 == 1 then (c + 1) / 2 else c / 2;
      var nd := if d % 2 == 1 then (d + 1) / 2 else d / 2;
      assert kc[1..|kc| - 1] == Decimal(nc);
      assert kd[1..|kd| - 1] == Decimal(nd);
      DecimalInjective(nc, nd);
    } else if c == 33 || d == 33 {
      assert kc[|kc| - 1] == kd[|kd| - 1];
      assert |kc| == |kd|;
    } else {
      assert kc[|kc| - 1] == kd[|kd| - 1];
    }
  }

  // ---------------------------------------------------------------------
  // Columns and the column dictionary

  /** Column `c` of the table, top to bottom. */
  function Column(t: Table, c: ColumnIndex): (col: seq<real>)
    ensures |col| == |t|
    ensures forall i :: 0 <= i < |t| ==> col[i] == t[i][c]
  {
    seq(|t|, i requires 0 <= i < |t| => t[i][c])
  }

  /** One `key: array` pair of an insertion-ordered Python dict. */
  datatype Entry = Entry(key: string, values: seq<real>)

  predicate HasKey(d: seq<Entry>, key: string)
  {
    exists i :: 0 <= i < |d| && d[i].key == key
  }

  /** `dict.update({key: values})`: an existing key keeps its position and
      takes the new values (`UpdateReplaces`); a new key goes to the end. */
  function Update(d: seq<Entry>, e: Entry): (r: seq<Entry>)
    ensures HasKey(d, e.key) ==> |r| == |d|
    ensures !HasKey(d, e.key) ==> r == d + [e]
  {
    if d == [] then [e]
    else if d[0].key == e.key then [e] + d[1..]
    else
      var rest := Update(d[1..], e);
      assert HasKey(d, e.key) ==> HasKey(d[1..], e.key);
      assert !HasKey(d, e.key) ==> d == [d[0]] + d[1..];
      [d[0]] + rest
  }

  /** Updating an existing key replaces its first entry in place and leaves
      every other entry where it was. */
  lemma {:induction false} UpdateReplaces(d: seq<Entry>, e: Entry, i: nat)
    requires i < |d| && d[i].key == e.key
    requires forall j | 0 <= j < i :: d[j].key != e.key
    ensures Update(d, e) == d[..i] + [e] + d[i + 1..]
  {
    if i == 0 {
      assert d[..0] + [e] + d[1..] == [e] + d[1..];
    } else {
      assert d[0].key != e.key;
      UpdateReplaces(d[1..], e, i - 1);
      assert [d[0]] + (d[1..][..i - 1] + [e] + d[1..][i..]) == d[..i] + [e] + d[i + 1..];
    }
  }

  /** The dictionary keys are exactly the event-table layout, in order. */
  predicate EventLayout(d: seq<Entry>)
  {
    |d| == NumColumns && forall c: ColumnIndex :: c < |d| ==> d[c].key == ColumnKey(c)
  }

  /** `pd.DataFrame(dict)`: every column becomes one table column, row `i`
      holding element `i` of every array; arrays of unequal length are
      refused (pandas raises ValueError). */
  function FromDict(d: seq<Entry>): (r: Result<Table>)
    ensures r.Ok? <==> EventLayout(d) && forall c: ColumnIndex :: |d[c].values| == |d[0].values|
    ensures r.Ok? ==> |r.value| == |d[0].values|
    ensures r.Ok? ==> forall c: ColumnIndex :: Column(r.value, c) == d[c].values
  {
    if !EventLayout(d) then Err(UnexpectedColumns)
    else if exists c: ColumnIndex :: |d[c].values| != |d[0].values| then Err(LengthMismatch)
    else
      var n := |d[0].values|;
      var t: Table := seq(n, i requires 0 <= i < n =>
        seq(NumColumns, c requires 0 <= c < NumColumns => d[c].values[i]));
      assert forall c: ColumnIndex :: Column(t, c) == d[c].values;
      Ok(t)
  }

  /** The column dictionary of a table (what `DataFrame.to_dict` would give). */
  function ToDict(t: Table): (d: seq<Entry>)
    ensures EventLayout(d)
  {
    seq(NumColumns, c requires 0 <= c < NumColumns => Entry(ColumnKey(c), Column(t, c)))
  }

  /** Building a table from its own columns gives the table back. */
  lemma FromDictToDict(t: Table)
    ensures FromDict(ToDict(t)) == Ok(t)
  {
    var d := ToDict(t);
    assert forall c: ColumnIndex :: |d[c].values| == |t|;
    var r := FromDict(d);
    assert r.Ok?;
    assert |r.value| == |t|;
    forall i | 0 <= i < |t|
      ensures r.value[i] == t[i]
    {
      forall c | 0 <= c < NumColumns
        ensures r.value[i][c] == t[i][c]
      {
        assert Column(r.value, c)[i] == Column(t, c)[i];
      }
    }
    assert r.value == t;
  }

  /** Any accepted dictionary is the column dictionary of the table it builds. */
  lemma ToDictFromDict(d: seq<Entry>)
    requires FromDict(d).Ok?
    ensures ToDict(FromDict(d).value) == d
  {
  }
}
