/** Event reshaping: the flat record stream of the detector tree (one record
    per anode segment `seg` = 1..16 per event) becomes the 34-column event
    table, either through the loop-built column dictionary of the two
    analysis scripts or through the hard-coded dictionary of the top-level
    script. */
module Reshape {
  import opened Seqs
  import opened EventTable

  /** One record of the flat tree: segment number and the values read for it. */
  datatype Record = Record(seg: int, edepl: real, edepr: real, strip0: real, strip17: real)

  /** The record branches that feed table columns. */
  datatype Field = Strip0 | EdepL | EdepR | Strip17

  function Get(r: Record, f: Field): real
  {
    match f
    case Strip0 => r.strip0
    case EdepL => r.edepl
    case EdepR => r.edepr
    case Strip17 => r.strip17
  }

  /** `branches[f][branches['seg'] == s]`: field `f` of the records whose
      segment is `s`, in record order. */
  function Select(rs: seq<Record>, s: int, f: Field): seq<real>
  {
    if rs == [] then []
    else (if rs[0].seg == s then [Get(rs[0], f)] else []) + Select(rs[1..], s, f)
  }

  lemma {:induction false} SelectAppend(a: seq<Record>, b: seq<Record>, s: int, f: Field)
    ensures Select(a + b, s, f) == Select(a, s, f) + Select(b, s, f)
  {
    if a == [] {
      assert a + b == b;
    } else {
      assert (a + b)[0] == a[0];
      assert (a + b)[1..] == a[1..] + b;
      SelectAppend(a[1..], b, s, f);
    }
  }

  lemma {:induction false} SelectNone(rs: seq<Record>, s: int, f: Field)
    requires forall i | 0 <= i < |rs| :: rs[i].seg != s
    ensures Select(rs, s, f) == []
  {
    if rs != [] {
      SelectNone(rs[1..], s, f);
    }
  }

  /** Only the record at position `j` has segment `s`: the selection is its value alone. */
  lemma SelectUnique(rs: seq<Record>, s: int, f: Field, j: nat)
    requires j < |rs| && rs[j].seg == s
    requires forall i | 0 <= i < |rs| && i != j :: rs[i].seg != s
    ensures Select(rs, s, f) == [Get(rs[j], f)]
  {
    assert rs == rs[..j] + ([rs[j]] + rs[j + 1..]);
    SelectAppend(rs[..j], [rs[j]] + rs[j + 1..], s, f);
    SelectAppend([rs[j]], rs[j + 1..], s, f);
    SelectNone(rs[..j], s, f);
    SelectNone(rs[j + 1..], s, f);
  }

  // ---------------------------------------------------------------------
  // Which record branch feeds which column

  datatype Source = Source(seg: nat, field: Field)

  /** `s0` and `s17` come from the segment-1 records; `s{k}L` / `s{k}R`
      from `edepl` / `edepr` of the segment-`k` records. */
  function SourceOf(c: ColumnIndex): (src: Source)
    ensures 1 <= src.seg <= NumStrips
    ensures c != 0 && c != 33 && c % 2 == 1 ==> src == Source((c + 1) / 2, EdepL) && c == Left(src.seg)
    ensures c != 0 && c != 33 && c % 2 == 0 ==> src == Source(c / 2, EdepR) && c == Right(src.seg)
  {
    if c == 0 then Source(1, Strip0)
    else if c == 33 then Source(1, Strip17)
    else if c % 2 == 1 then Source((c + 1) / 2, EdepL)
    else Source(c / 2, EdepR)
  }

  /** The values of column `c` drawn from the record stream. */
  function ColumnOf(rs: seq<Record>, c: ColumnIndex): seq<real>
  {
    Select(rs, SourceOf(c).seg, SourceOf(c).field)
  }

  /** The dictionary both construction styles are meant to produce: every
      column key in table order, each with its selected values. */
  function LayoutDict(rs: seq<Record>): (d: seq<Entry>)
    ensures EventLayout(d)
  {
    seq(NumColumns, c requires 0 <= c < NumColumns => Entry(ColumnKey(c), ColumnOf(rs, c)))
  }

  // ---------------------------------------------------------------------
  // The loop-built dictionary (analysis scripts)

  /** Iterations `i .. 16` of `for i in range(1, 17)`: add `s{i}L`, then `s{i}R`. */
  function SegmentLoop(rs: seq<Record>, d: seq<Entry>, i: nat): seq<Entry>
    requires 1 <= i <= NumStrips + 1
    decreases NumStrips + 1 - i
  {
    if i == NumStrips + 1 then d
    else
      var withLeft := Update(d, Entry("s" + Decimal(i) + "L", Select(rs, i, EdepL)));
      var withRight := Update(withLeft, Entry("s" + Decimal(i) + "R", Select(rs, i, EdepR)));
      SegmentLoop(rs, withRight, i + 1)
  }

  /** The dictionary of `root_to_dataframe`: `s0` first, the segment loop,
      `s17` last. */
  function LoopDict(rs: seq<Record>): seq<Entry>
  {
    var first := Update([], Entry("s0", Select(rs, 1, Strip0)));
    Update(SegmentLoop(rs, first, 1), Entry("s17", Select(rs, 1, Strip17)))
  }

  /** No earlier column of the layout carries the key of column `m`. */
  lemma FreshKey(rs: seq<Record>, m: ColumnIndex)
    ensures !HasKey(LayoutDict(rs)[..m], ColumnKey(m))
  {
    var d := LayoutDict(rs)[..m];
    if HasKey(d, ColumnKey(m)) {
      var i :| 0 <= i < |d| && d[i].key == ColumnKey(m);
      ColumnKeyInjective(i, m);
      assert false;
    }
  }

  lemma PrefixSnoc<T>(s: seq<T>, m: nat)
    requires m < |s|
    ensures s[..m + 1] == s[..m] + [s[m]]
  {
  }

  /** Appending the layout entry for column `m` to the first `m` entries. */
  lemma UpdateLayout(rs: seq<Record>, m: ColumnIndex, e: Entry)
    requires e == LayoutDict(rs)[m]
    ensures Update(LayoutDict(rs)[..m], e) == LayoutDict(rs)[..m + 1]
  {
    var lay := LayoutDict(rs);
    FreshKey(rs, m);
    PrefixSnoc(lay, m);
  }

  lemma {:induction false} SegmentLoopFromPrefix(rs: seq<Record>, i: nat)
    requires 1 <= i <= NumStrips + 1
    ensures SegmentLoop(rs, LayoutDict(rs)[..2 * i - 1], i) == LayoutDict(rs)[..33]
    decreases NumStrips + 1 - i
  {
    if i <= NumStrips {
      var lay := LayoutDict(rs);
      var withLeft := Update(lay[..2 * i - 1], Entry("s" + Decimal(i) + "L", Select(rs, i, EdepL)));
      var withRight := Update(withLeft, Entry("s" + Decimal(i) + "R", Select(rs, i, EdepR)));
      assert SegmentLoop(rs, lay[..2 * i - 1], i) == SegmentLoop(rs, withRight, i + 1);
      SegmentStep(rs, i);
      assert withRight == lay[..2 * (i + 1) - 1];
      SegmentLoopFromPrefix(rs, i + 1);
    }
  }

  /** Iteration `i` of the segment loop extends the layout prefix by `s{i}L`, `s{i}R`. */
  lemma SegmentStep(rs: seq<Record>, i: nat)
    requires 1 <= i <= NumStrips
    ensures
      Update(Update(LayoutDict(rs)[..2 * i - 1], Entry("s" + Decimal(i) + "L", Select(rs, i, EdepL))),
        Entry("s" + Decimal(i) + "R", Select(rs, i, EdepR)))
      == LayoutDict(rs)[..2 * i + 1]
  {
    KeyOfLeft(i);
    KeyOfRight(i);
    UpdateLayout(rs, Left(i), Entry("s" + Decimal(i) + "L", Select(rs, i, EdepL)));
    UpdateLayout(rs, Right(i), Entry("s" + Decimal(i) + "R", Select(rs, i, EdepR)));
  }

  /** The loop builds exactly the layout: 34 keys `s0, s1L, s1R, ..., s16L,
      s16R, s17`, column `s{i}L` / `s{i}R` holding `edepl` / `edepr` of the
      segment-`i` records, and `s0` / `s17` the segment-1 `strip0` /
      `strip17` values. */
  lemma LoopDictIsLayout(rs: seq<Record>)
    ensures LoopDict(rs) == LayoutDict(rs)
  {
    FirstEntry(rs);
    SegmentLoopFromPrefix(rs, 1);
    LastEntry(rs);
  }

  lemma FirstEntry(rs: seq<Record>)
    ensures Update([], Entry("s0", Select(rs, 1, Strip0))) == LayoutDict(rs)[..1]
  {
    assert ColumnKey(0) == "s0";
  }

  lemma LastEntry(rs: seq<Record>)
    ensures Update(LayoutDict(rs)[..33], Entry("s17", Select(rs, 1, Strip17))) == LayoutDict(rs)
  {
    assert ColumnKey(33) == "s17";
    UpdateLayout(rs, 33, Entry("s17", Select(rs, 1, Strip17)));
    assert LayoutDict(rs)[..34] == LayoutDict(rs);
  }

  // ---------------------------------------------------------------------
  // The hard-coded dictionary (top-level script)

  /** The keys of the hard-coded dict literal, as written. */
  const HardCodedKeys: seq<string> :=
    ["s0", "s1L", "s1R", "s2L", "s2R", "s3L", "s3R", "s4L", "s4R"] +
    ["s5L", "s5R", "s6L", "s6R", "s7L", "s7R", "s8L", "s8R"] +
    ["s9L", "s9R", "s10L", "s10R", "s11L", "s11R", "s12L", "s12R"] +
    ["s13L", "s13R", "s14L", "s14R", "s15L", "s15R", "s16L", "s16R", "s17"]

  /** The 34 hard-coded arrays `strip_0, strip_1L, ..., strip_16R, strip_17`,
      each selected by its own literal segment number and branch. */
  function HardCodedArrays(rs: seq<Record>): seq<seq<real>>
  {
    [Select(rs, 1, Strip0),
     Select(rs, 1, EdepL), Select(rs, 1, EdepR),
     Select(rs, 2, EdepL), Select(rs, 2, EdepR),
     Select(rs, 3, EdepL), Select(rs, 3, EdepR),
     Select(rs, 4, EdepL), Select(rs, 4, EdepR)] +
    [Select(rs, 5, EdepL), Select(rs, 5, EdepR),
     Select(rs, 6, EdepL), Select(rs, 6, EdepR),
     Select(rs, 7, EdepL), Select(rs, 7, EdepR),
     Select(rs, 8, EdepL), Select(rs, 8, EdepR)] +
    [Select(rs, 9, EdepL), Select(rs, 9, EdepR),
     Select(rs, 10, EdepL), Select(rs, 10, EdepR),
     Select(rs, 11, EdepL), Select(rs, 11, EdepR),
     Select(rs, 12, EdepL), Select(rs, 12, EdepR)] +
    [Select(rs, 13, EdepL), Select(rs, 13, EdepR),
     Select(rs, 14, EdepL), Select(rs, 14, EdepR),
     Select(rs, 15, EdepL), Select(rs, 15, EdepR),
     Select(rs, 16, EdepL), Select(rs, 16, EdepR),
     Select(rs, 1, Strip17)]
  }

  /** The dict literal pairing each hard-coded key with its array. */
  function HardCodedDict(rs: seq<Record>): (d: seq<Entry>)
    ensures |d| == |HardCodedKeys|
  {
    var arrays := HardCodedArrays(rs);
    seq(|HardCodedKeys|, i requires 0 <= i < |HardCodedKeys| => Entry(HardCodedKeys[i], arrays[i]))
  }

  /** The hard-coded dictionary has the same 34 keys, in the same order and
      with the same arrays, as the loop-built one. */
  lemma HardCodedIsLayout(rs: seq<Record>)
    ensures HardCodedDict(rs) == LayoutDict(rs)
    ensures HardCodedDict(rs) == LoopDict(rs)
  {
    LoopDictIsLayout(rs);
    HardCodedKeysAreLayout();
    HardCodedArraysAreLayout(rs);
  }

  lemma KeyOfLeft(k: nat)
    requires 1 <= k <= NumStrips
    ensures ColumnKey(Left(k)) == "s" + Decimal(k) + "L"
  {
  }

  lemma KeyOfRight(k: nat)
    requires 1 <= k <= NumStrips
    ensures ColumnKey(Right(k)) == "s" + Decimal(k) + "R"
  {
  }

  /** Every literal key is the layout key of its position. */
  lemma HardCodedKeysAreLayout()
    ensures forall c: ColumnIndex :: HardCodedKeys[c] == ColumnKey(c)
  {
    HardCodedKeys1And2();
    HardCodedKeys3And4();
    HardCodedKeys5And6();
    HardCodedKeys7And8();
    HardCodedKeys9And10();
    HardCodedKeys11And12();
    HardCodedKeys13And14();
    HardCodedKeys15And16();
    forall c: ColumnIndex
      ensures HardCodedKeys[c] == ColumnKey(c)
    {
      if c != 0 && c != 33 {
        var k := (c + 1) / 2;
        assert c == Left(k) || c == Right(k);
        StripCases(k);
      }
    }
  }

  /** Every hard-coded array is the selection of its position's layout column. */
  lemma HardCodedArraysAreLayout(rs: seq<Record>)
    ensures forall c: ColumnIndex :: HardCodedArrays(rs)[c] == ColumnOf(rs, c)
  {
    HardCodedArrays1And2(rs);
    HardCodedArrays3And4(rs);
    HardCodedArrays5And6(rs);
    HardCodedArrays7And8(rs);
    HardCodedArrays9And10(rs);
    HardCodedArrays11And12(rs);
    HardCodedArrays13And14(rs);
    HardCodedArrays15And16(rs);
    forall c: ColumnIndex
      ensures HardCodedArrays(rs)[c] == ColumnOf(rs, c)
    {
      if c != 0 && c != 33 {
        var k := (c + 1) / 2;
        assert c == Left(k) || c == Right(k);
        StripCases(k);
      }
    }
  }

  lemma HardCodedKeys1And2()
    ensures HardCodedKeys[0] == ColumnKey(0)
    ensures HardCodedKeys[Left(1)] == ColumnKey(Left(1))
    ensures HardCodedKeys[Right(1)] == ColumnKey(Right(1))
    ensures HardCodedKeys[Left(2)] == ColumnKey(Left(2))
    ensures HardCodedKeys[Right(2)] == ColumnKey(Right(2))
  {
    assert ColumnKey(0) == "s0";
    KeyOfLeft(1); KeyOfRight(1); assert Decimal(1) == "1";
    KeyOfLeft(2); KeyOfRight(2); assert Decimal(2) == "2";
  }

  lemma HardCodedKeys3And4()
    ensures HardCodedKeys[Left(3)] == ColumnKey(Left(3))
    ensures HardCodedKeys[Right(3)] == ColumnKey(Right(3))
    ensures HardCodedKeys[Left(4)] == ColumnKey(Left(4))
    ensures HardCodedKeys[Right(4)] == ColumnKey(Right(4))
  {
    KeyOfLeft(3); KeyOfRight(3); assert Decimal(3) == "3";
    KeyOfLeft(4); KeyOfRight(4); assert Decimal(4) == "4";
  }

  lemma HardCodedKeys5And6()
    ensures HardCodedKeys[Left(5)] == ColumnKey(Left(5))
    ensures HardCodedKeys[Right(5)] == ColumnKey(Right(5))
    ensures HardCodedKeys[Left(6)] == ColumnKey(Left(6))
    ensures HardCodedKeys[Right(6)] == ColumnKey(Right(6))
  {
    KeyOfLeft(5); KeyOfRight(5); assert Decimal(5) == "5";
    KeyOfLeft(6); KeyOfRight(6); assert Decimal(6) == "6";
  }

  lemma HardCodedKeys7And8()
    ensures HardCodedKeys[Left(7)] == ColumnKey(Left(7))
    ensures HardCodedKeys[Right(7)] == ColumnKey(Right(7))
    ensures HardCodedKeys[Left(8)] == ColumnKey(Left(8))
    ensures HardCodedKeys[Right(8)] == ColumnKey(Right(8))
  {
    KeyOfLeft(7); KeyOfRight(7); assert Decimal(7) == "7";
    KeyOfLeft(8); KeyOfRight(8); assert Decimal(8) == "8";
  }

  lemma HardCodedKeys9And10()
    ensures HardCodedKeys[Left(9)] == ColumnKey(Left(9))
    ensures HardCodedKeys[Right(9)] == ColumnKey(Right(9))
    ensures HardCodedKeys[Left(10)] == ColumnKey(Left(10))
    ensures HardCodedKeys[Right(10)] == ColumnKey(Right(10))
  {
    KeyOfLeft(9); KeyOfRight(9); assert Decimal(9) == "9";
    KeyOfLeft(10); KeyOfRight(10); assert Decimal(10) == "10";
  }

  lemma HardCodedKeys11And12()
    ensures HardCodedKeys[Left(11)] == ColumnKey(Left(11))
    ensures HardCodedKeys[Right(11)] == ColumnKey(Right(11))
    ensures HardCodedKeys[Left(12)] == ColumnKey(Left(12))
    ensures HardCodedKeys[Right(12)] == ColumnKey(Right(12))
  {
    KeyOfLeft(11); KeyOfRight(11); assert Decimal(11) == "11";
    KeyOfLeft(12); KeyOfRight(12); assert Decimal(12) == "12";
  }

  lemma HardCodedKeys13And14()
    ensures HardCodedKeys[Left(13)] == ColumnKey(Left(13))
    ensures HardCodedKeys[Right(13)] == ColumnKey(Right(13))
    ensures HardCodedKeys[Left(14)] == ColumnKey(Left(14))
    ensures HardCodedKeys[Right(14)] == ColumnKey(Right(14))
  {
    KeyOfLeft(13); KeyOfRight(13); assert Decimal(13) == "13";
    KeyOfLeft(14); KeyOfRight(14); assert Decimal(14) == "14";
  }

  lemma HardCodedKeys15And16()
    ensures HardCodedKeys[Left(15)] == ColumnKey(Left(15))
    ensures HardCodedKeys[Right(15)] == ColumnKey(Right(15))
    ensures HardCodedKeys[Left(16)] == ColumnKey(Left(16))
    ensures HardCodedKeys[Right(16)] == ColumnKey(Right(16))
    ensures HardCodedKeys[33] == ColumnKey(33)
  {
    KeyOfLeft(15); KeyOfRight(15); assert Decimal(15) == "15";
    KeyOfLeft(16); KeyOfRight(16); assert Decimal(16) == "16";
    assert ColumnKey(33) == "s17";
  }

  lemma HardCodedArrays1And2(rs: seq<Record>)
    ensures HardCodedArrays(rs)[0] == ColumnOf(rs, 0)
    ensures HardCodedArrays(rs)[Left(1)] == ColumnOf(rs, Left(1))
    ensures HardCodedArrays(rs)[Right(1)] == ColumnOf(rs, Right(1))
    ensures HardCodedArrays(rs)[Left(2)] == ColumnOf(rs, Left(2))
    ensures HardCodedArrays(rs)[Right(2)] == ColumnOf(rs, Right(2))
  {
  }

  lemma HardCodedArrays3And4(rs: seq<Record>)
    ensures HardCodedArrays(rs)[Left(3)] == ColumnOf(rs, Left(3))
    ensures HardCodedArrays(rs)[Right(3)] == ColumnOf(rs, Right(3))
    ensures HardCodedArrays(rs)[Left(4)] == ColumnOf(rs, Left(4))
    ensures HardCodedArrays(rs)[Right(4)] == ColumnOf(rs, Right(4))
  {
  }

  lemma HardCodedArrays5And6(rs: seq<Record>)
    ensures HardCodedArrays(rs)[Left(5)] == ColumnOf(rs, Left(5))
    ensures HardCodedArrays(rs)[Right(5)] == ColumnOf(rs, Right(5))
    ensures HardCodedArrays(rs)[Left(6)] == ColumnOf(rs, Left(6))
    ensures HardCodedArrays(rs)[Right(6)] == ColumnOf(rs, Right(6))
  {
  }

  lemma HardCodedArrays7And8(rs: seq<Record>)
    ensures HardCodedArrays(rs)[Left(7)] == ColumnOf(rs, Left(7))
    ensures HardCodedArrays(rs)[Right(7)] == ColumnOf(rs, Right(7))
    ensures HardCodedArrays(rs)[Left(8)] == ColumnOf(rs, Left(8))
    ensures HardCodedArrays(rs)[Right(8)] == ColumnOf(rs, Right(8))
  {
  }

  lemma HardCodedArrays9And10(rs: seq<Record>)
    ensures HardCodedArrays(rs)[Left(9)] == ColumnOf(rs, Left(9))
    ensures HardCodedArrays(rs)[Right(9)] == ColumnOf(rs, Right(9))
    ensures HardCodedArrays(rs)[Left(10)] == ColumnOf(rs, Left(10))
    ensures HardCodedArrays(rs)[Right(10)] == ColumnOf(rs, Right(10))
  {
  }

  lemma HardCodedArrays11And12(rs: seq<Record>)
    ensures HardCodedArrays(rs)[Left(11)] == ColumnOf(rs, Left(11))
    ensures HardCodedArrays(rs)[Right(11)] == ColumnOf(rs, Right(11))
    ensures HardCodedArrays(rs)[Left(12)] == ColumnOf(rs, Left(12))
    ensures HardCodedArrays(rs)[Right(12)] == ColumnOf(rs, Right(12))
  {
  }

  lemma HardCodedArrays13And14(rs: seq<Record>)
    ensures HardCodedArrays(rs)[Left(13)] == ColumnOf(rs, Left(13))
    ensures HardCodedArrays(rs)[Right(13)] == ColumnOf(rs, Right(13))
    ensures HardCodedArrays(rs)[Left(14)] == ColumnOf(rs, Left(14))
    ensures HardCodedArrays(rs)[Right(14)] == ColumnOf(rs, Right(14))
  {
  }

  lemma HardCodedArrays15And16(rs: seq<Record>)
    ensures HardCodedArrays(rs)[Left(15)] == ColumnOf(rs, Left(15))
    ensures HardCodedArrays(rs)[Right(15)] == ColumnOf(rs, Right(15))
    ensures HardCodedArrays(rs)[Left(16)] == ColumnOf(rs, Left(16))
    ensures HardCodedArrays(rs)[Right(16)] == ColumnOf(rs, Right(16))
    ensures HardCodedArrays(rs)[33] == ColumnOf(rs, 33)
  {
  }

  // ---------------------------------------------------------------------
  // Well-formed record streams

  /** The 16 records of one event: segments 1..16 in order, all carrying the
      event's `strip0` value. */
  predicate EventBlock(b: seq<Record>)
  {
    && |b| == NumStrips
    && (forall j | 0 <= j < |b| :: b[j].seg == j + 1)
    && (forall j | 0 <= j < |b| :: b[j].strip0 == b[0].strip0)
  }

  /** A stream made of whole events, one block of 16 records after another. */
  predicate EventStream(rs: seq<Record>)
    decreases |rs|
  {
    rs == [] || (|rs| >= NumStrips && EventBlock(rs[..NumStrips]) && EventStream(rs[NumStrips..]))
  }

  /** The table row of one event. */
  function EventRow(b: seq<Record>): (row: Row)
    requires |b| == NumStrips
    ensures row[Strip0Column] == b[0].strip0 && row[Strip17Column] == b[0].strip17
    ensures forall k | 1 <= k <= NumStrips :: row[Left(k)] == b[k - 1].edepl && row[Right(k)] == b[k - 1].edepr
  {
    seq(NumColumns, c requires 0 <= c < NumColumns => Get(b[SourceOf(c).seg - 1], SourceOf(c).field))
  }

  /** The rows of a well-formed stream, one per event, in event order. */
  function EventRows(rs: seq<Record>): (t: Table)
    requires EventStream(rs)
    ensures |t| * NumStrips == |rs|
    decreases |rs|
  {
    if rs == [] then [] else [EventRow(rs[..NumStrips])] + EventRows(rs[NumStrips..])
  }

  lemma ColumnCons(row: Row, t: Table, c: ColumnIndex)
    ensures Column([row] + t, c) == [row[c]] + Column(t, c)
  {
  }

  /** Column `c` drawn from a well-formed stream is column `c` of its event rows. */
  lemma {:induction false} ColumnOfStream(rs: seq<Record>, c: ColumnIndex)
    requires EventStream(rs)
    ensures ColumnOf(rs, c) == Column(EventRows(rs), c)
    decreases |rs|
  {
    if rs != [] {
      var b, rest := rs[..NumStrips], rs[NumStrips..];
      var src := SourceOf(c);
      assert rs == b + rest;
      SelectAppend(b, rest, src.seg, src.field);
      SelectUnique(b, src.seg, src.field, src.seg - 1);
      ColumnOfStream(rest, c);
      ColumnCons(EventRow(b), EventRows(rest), c);
    }
  }

  /** On a well-formed stream the DataFrame is built (all 34 arrays have one
      value per event) and row `k` is event `k`. */
  lemma BuildEventStream(rs: seq<Record>)
    requires EventStream(rs)
    ensures FromDict(LoopDict(rs)) == Ok(EventRows(rs))
    ensures FromDict(HardCodedDict(rs)) == Ok(EventRows(rs))
  {
    HardCodedIsLayout(rs);
    LayoutOfStream(rs);
    FromDictToDict(EventRows(rs));
  }

  /** On a well-formed stream the layout dictionary is the column dictionary of the event rows. */
  lemma LayoutOfStream(rs: seq<Record>)
    requires EventStream(rs)
    ensures LayoutDict(rs) == ToDict(EventRows(rs))
  {
    var t := EventRows(rs);
    forall c | 0 <= c < NumColumns
      ensures LayoutDict(rs)[c] == ToDict(t)[c]
    {
      ColumnOfStream(rs, c);
    }
  }
}
