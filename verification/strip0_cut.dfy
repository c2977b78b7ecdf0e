/** The strip-0 pile-up cut, in both places the pipeline applies it: on the
    flat record stream before reshaping (the two `music_root_to_evt_strip0cut`
    scripts, with integer limits typed by the user) and on the event table
    after reshaping (`strip0_cut`, with limits `mu -/+ 2 sigma` from a
    Gaussian fit of the strip-0 histogram, or typed by the user). */
module Strip0Cut {
  import opened Seqs
  import opened EventTable
  import opened Reshape

  // ---------------------------------------------------------------------
  // Record-level mask

  /** `(int(LOW_CUT) <= strip0) & (strip0 <= int(HIGH_CUT))`. */
  predicate InMask(r: Record, low: int, high: int)
  {
    low as real <= r.strip0 <= high as real
  }

  /** `branches[strip0_mask]`: the records inside the window, in order, unchanged. */
  function MaskRecords(rs: seq<Record>, low: int, high: int): (kept: seq<Record>)
    ensures forall r | r in kept :: r in rs && low as real <= r.strip0 <= high as real
    ensures forall r | r in rs && low as real <= r.strip0 <= high as real :: r in kept
  {
    Filter(rs, r => InMask(r, low, high))
  }

  /** The mask keeps records in stream order: masking a concatenation masks each part. */
  lemma MaskAppend(a: seq<Record>, b: seq<Record>, low: int, high: int)
    ensures MaskRecords(a + b, low, high) == MaskRecords(a, low, high) + MaskRecords(b, low, high)
  {
    FilterAppend(a, b, r => InMask(r, low, high));
  }

  /** Masking twice with the same limits is masking once. */
  lemma MaskIdempotent(rs: seq<Record>, low: int, high: int)
    ensures MaskRecords(MaskRecords(rs, low, high), low, high) == MaskRecords(rs, low, high)
  {
    FilterIdempotent(rs, r => InMask(r, low, high));
  }

  /** `len(branches['strip0'])/16`: the event count the scripts report
      (true division, so a stream of partial events reports a fraction). */
  function ReportedEvents(rs: seq<Record>): real
  {
    (|rs| as real) / (NumStrips as real)
  }

  /** The values drawn from a stream all come from its records of the selected segment. */
  lemma {:induction false} SelectFrom(rs: seq<Record>, s: int, f: Field, v: real)
    requires v in Select(rs, s, f)
    ensures exists r | r in rs :: r.seg == s && Get(r, f) == v
  {
    if rs[0].seg == s && v == Get(rs[0], f) {
      assert rs[0] in rs;
    } else {
      SelectFrom(rs[1..], s, f, v);
      var r :| r in rs[1..] && r.seg == s && Get(r, f) == v;
      assert r in rs;
    }
  }

  /** The table built from the loop dictionary holds column `c` of the records. */
  lemma LoopTableColumns(rs: seq<Record>)
    ensures FromDict(LoopDict(rs)).Ok? ==>
      forall c: ColumnIndex :: Column(FromDict(LoopDict(rs)).value, c) == ColumnOf(rs, c)
  {
    LoopDictIsLayout(rs);
  }

  /** A table whose `s0` column comes from masked records has every `s0` in the window. */
  lemma Strip0ColumnInMask(kept: seq<Record>, t: Table, low: int, high: int)
    requires forall r | r in kept :: InMask(r, low, high)
    requires Column(t, Strip0Column) == ColumnOf(kept, Strip0Column)
    ensures forall i | 0 <= i < |t| :: low as real <= t[i][Strip0Column] <= high as real
  {
    forall i | 0 <= i < |t|
      ensures low as real <= t[i][Strip0Column] <= high as real
    {
      assert t[i][Strip0Column] == Column(t, Strip0Column)[i];
      assert t[i][Strip0Column] in Select(kept, 1, Strip0);
      SelectFrom(kept, 1, Strip0, t[i][Strip0Column]);
    }
  }

  /** `analysis/music_root_to_evt_strip0cut.py`: mask the records, then build
      the table from the loop-built dictionary. Every column is drawn from
      the same masked stream, so every surviving `s0` lies in the window. */
  function MaskThenLoopTable(rs: seq<Record>, low: int, high: int): (r: Result<Table>)
    ensures r.Ok? ==> forall c: ColumnIndex :: Column(r.value, c) == ColumnOf(MaskRecords(rs, low, high), c)
    ensures r.Ok? ==> forall i | 0 <= i < |r.value| :: low as real <= r.value[i][Strip0Column] <= high as real
  {
    var kept := MaskRecords(rs, low, high);
    var r := FromDict(LoopDict(kept));
    LoopTableColumns(kept);
    if r.Ok? then
      Strip0ColumnInMask(kept, r.value, low, high);
      r
    else r
  }

  /** `music_root_to_evt_strip0cut.py`: mask the records, then build the
      table from the hard-coded arrays and dict literal. */
  function MaskThenHardCodedTable(rs: seq<Record>, low: int, high: int): Result<Table>
  {
    FromDict(HardCodedDict(MaskRecords(rs, low, high)))
  }

  /** Both record-masking scripts produce the same table (or both refuse). */
  lemma MaskScriptsAgree(rs: seq<Record>, low: int, high: int)
    ensures MaskThenHardCodedTable(rs, low, high) == MaskThenLoopTable(rs, low, high)
  {
    HardCodedIsLayout(MaskRecords(rs, low, high));
  }

  // ---------------------------------------------------------------------
  // Row-level cut

  /** `low_cut <= s0 <= high_cut`. */
  predicate InWindow(row: Row, low: real, high: real)
  {
    low <= row[Strip0Column] <= high
  }

  /** `df.drop(df[low_cut > df.s0].index)` then `df.drop(df[df.s0 > high_cut].index)`:
      rows strictly outside are dropped, rows on a limit stay. */
  function CutRows(t: Table, low: real, high: real): (kept: Table)
    ensures forall row | row in kept :: row in t && low <= row[Strip0Column] <= high
    ensures forall row | row in t && low <= row[Strip0Column] <= high :: row in kept
  {
    var afterLow := Filter(t, (row: Row) => !(low > row[Strip0Column]));
    Filter(afterLow, (row: Row) => !(row[Strip0Column] > high))
  }

  /** The two drops are one order-preserving filter by the window. */
  lemma CutIsWindowFilter(t: Table, low: real, high: real)
    ensures CutRows(t, low, high) == Filter(t, (row: Row) => InWindow(row, low, high))
  {
    FilterFilter(t, (row: Row) => !(low > row[Strip0Column]), (row: Row) => !(row[Strip0Column] > high),
      (row: Row) => InWindow(row, low, high));
  }

  /** Cutting twice with the same limits is cutting once. */
  lemma CutIdempotent(t: Table, low: real, high: real)
    ensures CutRows(CutRows(t, low, high), low, high) == CutRows(t, low, high)
  {
    CutIsWindowFilter(t, low, high);
    CutIsWindowFilter(CutRows(t, low, high), low, high);
    FilterIdempotent(t, (row: Row) => InWindow(row, low, high));
  }

  /** The cut keeps surviving rows in order: cutting a concatenation cuts each part. */
  lemma CutAppend(a: Table, b: Table, low: real, high: real)
    ensures CutRows(a + b, low, high) == CutRows(a, low, high) + CutRows(b, low, high)
  {
    CutIsWindowFilter(a + b, low, high);
    CutIsWindowFilter(a, low, high);
    CutIsWindowFilter(b, low, high);
    FilterAppend(a, b, (row: Row) => InWindow(row, low, high));
  }

  // ---------------------------------------------------------------------
  // Automatic limits

  /** The fitted `(a, mu, sigma)` of `curve_fit`, taken as given. */
  datatype GaussFit = GaussFit(a: real, mu: real, sigma: real)

  datatype Window = Window(low: real, high: real)

  /** `low_cut = mu - 2 sigma`, `high_cut = mu + 2 sigma`. */
  function AutoWindow(fit: GaussFit): (w: Window)
    ensures (w.low + w.high) / 2.0 == fit.mu
    ensures w.high - w.low == 4.0 * fit.sigma
    ensures fit.sigma >= 0.0 ==> w.low <= fit.mu <= w.high
  {
    Window(fit.mu - 2.0 * fit.sigma, fit.mu + 2.0 * fit.sigma)
  }

  /** The Gaussian model is even in `sigma`, so a fit may report a negative
      width; the window is then inverted and the cut keeps no row. */
  lemma NegativeSigmaDropsAll(t: Table, fit: GaussFit)
    requires fit.sigma < 0.0
    ensures CutRows(t, AutoWindow(fit).low, AutoWindow(fit).high) == []
  {
    var w := AutoWindow(fit);
    CutIsWindowFilter(t, w.low, w.high);
    FilterNone(t, (row: Row) => InWindow(row, w.low, w.high));
  }

  /** `np.histogram(df['s0'], bins=150)`: per-bin counts and the bin edges. */
  datatype Histogram = Histogram(counts: seq<nat>, edges: seq<real>)

  const SeedWidth: real := 25.0

  /** `bins[:-1] + np.diff(bins) / 2`. */
  function BinCentres(edges: seq<real>): (centres: seq<real>)
    ensures |edges| > 0 ==> |centres| == |edges| - 1
    ensures |edges| == 0 ==> centres == []
    ensures forall k :: 0 <= k < |centres| ==> centres[k] == (edges[k] + edges[k + 1]) / 2.0
  {
    if |edges| == 0 then []
    else seq(|edges| - 1, k requires 0 <= k < |edges| - 1 => edges[k] + (edges[k + 1] - edges[k]) / 2.0)
  }

  /** Each centre lies strictly inside its bin when the edges increase. */
  lemma CentreInsideBin(edges: seq<real>, k: nat)
    requires k + 1 < |edges| && edges[k] < edges[k + 1]
    ensures edges[k] < BinCentres(edges)[k] < edges[k + 1]
  {
  }

  /** `k` is the index `np.argmax` returns: a maximum, and the first one. */
  predicate IsFirstArgMax(counts: seq<nat>, k: nat)
  {
    && k < |counts|
    && (forall j | 0 <= j < |counts| :: counts[j] <= counts[k])
    && (forall j | 0 <= j < k :: counts[j] < counts[k])
  }

  /** There is only one first maximum. */
  lemma FirstArgMaxUnique(counts: seq<nat>, k1: nat, k2: nat)
    requires IsFirstArgMax(counts, k1) && IsFirstArgMax(counts, k2)
    ensures k1 == k2
  {
    assert counts[k1] == counts[k2];
  }

  /** `np.argmax(counts)`, which raises on an empty sequence. */
  method FirstArgMax(counts: seq<nat>) returns (r: Result<nat>)
    ensures r.Ok? <==> |counts| > 0
    ensures r.Ok? ==> IsFirstArgMax(counts, r.value)
    ensures r.Err? ==> r.failure == EmptyCounts
  {
    if |counts| == 0 {
      return Err(EmptyCounts);
    }
    var best := 0;
    var i := 1;
    while i < |counts|
      invariant 1 <= i <= |counts|
      invariant best < i
      invariant forall j | 0 <= j < i :: counts[j] <= counts[best]
      invariant forall j | 0 <= j < best :: counts[j] < counts[best]
    {
      if counts[i] > counts[best] {
        best := i;
      }
      i := i + 1;
    }
    return Ok(best);
  }

  /** The starting point handed to `curve_fit`: `p0=(max_counts, bins[max_indx], 25)`. */
  datatype Seed = Seed(amplitude: nat, centre: real, width: real)

  /** The fit seed: the highest count, the LEFT edge of the first bin
      holding it (not that bin's centre), and the fixed width 25. */
  method FitSeed(h: Histogram) returns (r: Result<Seed>)
    requires |h.edges| == |h.counts| + 1
    ensures r.Ok? <==> |h.counts| > 0
    ensures forall k: nat | IsFirstArgMax(h.counts, k) :: r == Ok(Seed(h.counts[k], h.edges[k], SeedWidth))
  {
    var peak := FirstArgMax(h.counts);
    if peak.Err? {
      return Err(peak.failure);
    }
    var k := peak.value;
    forall k': nat | IsFirstArgMax(h.counts, k') ensures k' == k {
      FirstArgMaxUnique(h.counts, k, k');
    }
    return Ok(Seed(h.counts[k], h.edges[k], SeedWidth));
  }

  /** The seed centre sits half a bin below the centre of the peak bin. */
  lemma SeedCentreIsLeftEdge(h: Histogram, k: nat)
    requires |h.edges| == |h.counts| + 1 && IsFirstArgMax(h.counts, k)
    requires h.edges[k] < h.edges[k + 1]
    ensures h.edges[k] == BinCentres(h.edges)[k] - (h.edges[k + 1] - h.edges[k]) / 2.0
    ensures h.edges[k] < BinCentres(h.edges)[k]
  {
  }

  // ---------------------------------------------------------------------
  // strip0_cut

  /** Where the limits come from. */
  datatype Limits =
    | Auto(fit: GaussFit)               // auto_lims=True: mu -/+ 2 sigma of the fit
    | Typed(lowText: string, highText: string)  // auto_lims=False: two `input()` strings

  /** `strip0_cut` as written. With typed limits the strings reach the
      `:.2f` format of the report line unconverted, which raises, so that
      path never returns a table. */
  function Strip0CutAsWritten(t: Table, limits: Limits): (r: Result<Table>)
    ensures limits.Typed? ==> r == Err(UnformattableLimit)
    ensures limits.Auto? ==> r.Ok?
    ensures limits.Auto? ==> forall row | row in r.value :: AutoWindow(limits.fit).low <= row[Strip0Column] <= AutoWindow(limits.fit).high
  {
    match limits
    case Auto(fit) => Ok(CutRows(t, AutoWindow(fit).low, AutoWindow(fit).high))
    case Typed(_, _) => Err(UnformattableLimit)
  }

  /** The limits as the cut evidently intends them: numbers. */
  datatype CutMode = AutoMode(fit: GaussFit) | ManualMode(low: real, high: real)

  function ModeWindow(mode: CutMode): Window
  {
    match mode
    case AutoMode(fit) => AutoWindow(fit)
    case ManualMode(low, high) => Window(low, high)
  }

  /** `strip0_cut` with numeric limits in both modes: keeps exactly the rows
      whose `s0` lies in the window, limits included, in order, unchanged. */
  function Strip0CutRows(t: Table, mode: CutMode): (kept: Table)
    ensures forall row | row in kept :: row in t && ModeWindow(mode).low <= row[Strip0Column] <= ModeWindow(mode).high
    ensures forall row | row in t && ModeWindow(mode).low <= row[Strip0Column] <= ModeWindow(mode).high :: row in kept
  {
    CutRows(t, ModeWindow(mode).low, ModeWindow(mode).high)
  }

  /** On the automatic path the corrected cut is the cut as written. */
  lemma AutoModeUnchanged(t: Table, fit: GaussFit)
    ensures Strip0CutAsWritten(t, Auto(fit)) == Ok(Strip0CutRows(t, AutoMode(fit)))
  {
  }

  /** `main` of `analysis/music_root_to_evt_with_strip0cut.py`: build the
      table, then cut it with automatic limits (`reset_index` renumbers
      rows, which a sequence does already). */
  function RootToEvtWithStrip0Cut(rs: seq<Record>, fit: GaussFit): (r: Result<Table>)
    ensures FromDict(LoopDict(rs)).Err? ==> r == Err(FromDict(LoopDict(rs)).failure)
    ensures FromDict(LoopDict(rs)).Ok? ==>
      r == Ok(CutRows(FromDict(LoopDict(rs)).value, AutoWindow(fit).low, AutoWindow(fit).high))
    ensures r.Ok? ==> forall row | row in r.value :: AutoWindow(fit).low <= row[Strip0Column] <= AutoWindow(fit).high
  {
    match FromDict(LoopDict(rs))
    case Err(e) => Err(e)
    case Ok(t) => Ok(Strip0CutRows(t, AutoMode(fit)))
  }

  // ---------------------------------------------------------------------
  // The two placements of the cut agree on whole-event streams

  /** A block whose records all share one `strip0` is kept or dropped whole. */
  lemma MaskBlock(b: seq<Record>, low: int, high: int)
    requires EventBlock(b)
    ensures InMask(b[0], low, high) ==> MaskRecords(b, low, high) == b
    ensures !InMask(b[0], low, high) ==> MaskRecords(b, low, high) == []
  {
    if InMask(b[0], low, high) {
      FilterAll(b, r => InMask(r, low, high));
    } else {
      FilterNone(b, r => InMask(r, low, high));
    }
  }

  /** A block put in front of a whole-event stream adds one row in front. */
  lemma ConsBlock(b: seq<Record>, rest: seq<Record>)
    requires EventBlock(b) && EventStream(rest)
    ensures EventStream(b + rest)
    ensures EventRows(b + rest) == [EventRow(b)] + EventRows(rest)
  {
    var s := b + rest;
    assert s[..NumStrips] == b;
    assert s[NumStrips..] == rest;
  }

  /** The cut of a single row keeps it exactly when it lies in the window. */
  lemma CutOneRow(row: Row, low: real, high: real)
    ensures InWindow(row, low, high) ==> CutRows([row], low, high) == [row]
    ensures !InWindow(row, low, high) ==> CutRows([row], low, high) == []
  {
    CutIsWindowFilter([row], low, high);
    assert [row][1..] == [];
  }

  /** One block in front of a whole-event stream: the block is kept or
      dropped as its row is. */
  lemma {:induction false} MaskStep(b: seq<Record>, rest: seq<Record>, low: int, high: int)
    requires EventBlock(b) && EventStream(rest)
    ensures EventStream(b + rest)
    ensures EventStream(MaskRecords(b + rest, low, high))
    ensures EventRows(MaskRecords(b + rest, low, high)) == CutRows(EventRows(b + rest), low as real, high as real)
    decreases |b| + |rest|, 0
  {
    MaskIsRowCut(rest, low, high);
    var row, m := EventRow(b), MaskRecords(rest, low, high);
    var cutRest := CutRows(EventRows(rest), low as real, high as real);
    ConsBlock(b, rest);
    MaskAppend(b, rest, low, high);
    MaskBlock(b, low, high);
    CutAppend([row], EventRows(rest), low as real, high as real);
    CutOneRow(row, low as real, high as real);
    assert InMask(b[0], low, high) == InWindow(row, low as real, high as real);
    if InMask(b[0], low, high) {
      assert MaskRecords(b + rest, low, high) == b + m;
      ConsBlock(b, m);
      assert CutRows(EventRows(b + rest), low as real, high as real) == [row] + cutRest;
    } else {
      assert MaskRecords(b + rest, low, high) == [] + m == m;
      assert CutRows(EventRows(b + rest), low as real, high as real) == [] + cutRest == cutRest;
    }
  }

  /** Masking records keeps or drops whole events, so the masked stream is
      still made of whole events, and its table is the row-cut of the full
      stream's table with the same limits. */
  lemma {:induction false} MaskIsRowCut(rs: seq<Record>, low: int, high: int)
    requires EventStream(rs)
    ensures EventStream(MaskRecords(rs, low, high))
    ensures EventRows(MaskRecords(rs, low, high)) == CutRows(EventRows(rs), low as real, high as real)
    decreases |rs|, 1
  {
    if rs != [] {
      var b, rest := rs[..NumStrips], rs[NumStrips..];
      assert rs == b + rest;
      MaskStep(b, rest, low, high);
    }
  }

  /** On a whole-event stream the reported event count is the number of table rows. */
  lemma ReportedEventsOfStream(rs: seq<Record>)
    requires EventStream(rs)
    ensures ReportedEvents(rs) == |EventRows(rs)| as real
  {
    var n := |EventRows(rs)|;
    assert |rs| == n * NumStrips;
    assert (|rs| as real) == (n as real) * (NumStrips as real);
  }

  /** On a whole-event stream the loop-dictionary masking script builds the
      row-cut of the unmasked table. */
  lemma MaskedLoopTable(rs: seq<Record>, low: int, high: int)
    requires EventStream(rs)
    ensures MaskThenLoopTable(rs, low, high) == Ok(CutRows(EventRows(rs), low as real, high as real))
  {
    MaskIsRowCut(rs, low, high);
    BuildEventStream(MaskRecords(rs, low, high));
  }

  /** On a whole-event stream the with-strip0cut script succeeds and keeps
      exactly the event rows whose `s0` lies in the automatic window, in order. */
  lemma WholeEventsWithStrip0Cut(rs: seq<Record>, fit: GaussFit)
    requires EventStream(rs)
    ensures RootToEvtWithStrip0Cut(rs, fit) == Ok(CutRows(EventRows(rs), AutoWindow(fit).low, AutoWindow(fit).high))
  {
    BuildEventStream(rs);
  }

  /** On a whole-event stream, the record-masking scripts succeed, and their
      table equals the table of the unmasked stream with the row cut applied;
      the event counts they report are the table sizes before and after. */
  lemma MaskScriptsMatchRowCut(rs: seq<Record>, low: int, high: int)
    requires EventStream(rs)
    ensures FromDict(LoopDict(rs)) == Ok(EventRows(rs))
    ensures MaskThenLoopTable(rs, low, high) == Ok(CutRows(EventRows(rs), low as real, high as real))
    ensures MaskThenHardCodedTable(rs, low, high) == MaskThenLoopTable(rs, low, high)
    ensures ReportedEvents(rs) == |EventRows(rs)| as real
    ensures ReportedEvents(MaskRecords(rs, low, high)) == |CutRows(EventRows(rs), low as real, high as real)| as real
  {
    BuildEventStream(rs);
    MaskedLoopTable(rs, low, high);
    MaskScriptsAgree(rs, low, high);
    ReportedEventsOfStream(rs);
    MaskIsRowCut(rs, low, high);
    ReportedEventsOfStream(MaskRecords(rs, low, high));
  }
}
