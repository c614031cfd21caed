/** prepare_data: drop the readings in ppm, bring the other units to
    micrograms per cubic metre, drop the days before 2010, melt the 24 hour
    columns chunk by chunk, and derive the hour and the timestamp of each
    reading. The table is an array that each step filters into a new array or
    rewrites in place. */
module Prepare {
  import opened Wrappers
  import opened Calendar
  import opened Rows
  import opened Reshape
  import opened Sequences

  const Ppm: string := "ppm"
  const MilligramsPerM3: string := "mg/m3"
  const NanogramsPerM3: string := "ng/m3"
  const MicrogramsPerM3: string := "\U{00B5}g/m3"

  /** The first day kept: DATA >= '2010-01-01 00:00:00'. */
  const FirstDay := Date(2010, 1, 1)

  /** The table is melted in chunks of len(df) // 50 rows. */
  const ChunkDivisor := 50

  /** `range(0, len(df), chunk_size)` raises when the step is zero. */
  datatype PrepareError = ZeroChunkSize

  /** Rows in ppm cannot be converted and are dropped. */
  predicate NotPpm(r: WideRow)
  {
    r.unit != Some(Ppm)
  }

  /** Rows dated on or after 2010-01-01; a missing date compares false. */
  predicate OnOrAfterFirstDay(r: WideRow)
  {
    r.date.Some? && !Before(r.date.value, FirstDay)
  }

  /** Every present hour value multiplied by `factor`; missing ones stay missing. */
  function ScaleHours(hours: seq<Option<real>>, factor: real): seq<Option<real>>
  {
    seq(|hours|, h requires 0 <= h < |hours| =>
      if hours[h].Some? then Some(hours[h].value * factor) else None)
  }

  /** `df.loc[df['UNITATS'] == unit, cols_hours] *= factor`, for one row. */
  function ScaleRow(r: WideRow, unit: string, factor: real): WideRow
  {
    if r.unit == Some(unit) then r.(hours := ScaleHours(r.hours, factor)) else r
  }

  function ScaleRows(rows: seq<WideRow>, unit: string, factor: real): seq<WideRow>
  {
    MapSeq(rows, (r: WideRow) => ScaleRow(r, unit, factor))
  }

  /** `df.loc[:, 'UNITATS'] = 'µg/m3'`. */
  function Relabel(rows: seq<WideRow>): seq<WideRow>
  {
    MapSeq(rows, (r: WideRow) => r.(unit := Some(MicrogramsPerM3)))
  }

  /** The three unit steps in the order the source runs them. */
  function Normalize(rows: seq<WideRow>): seq<WideRow>
  {
    Relabel(ScaleRows(ScaleRows(rows, MilligramsPerM3, 1000.0), NanogramsPerM3, 1.0 / 1000.0))
  }

  /** The table just before the melt. */
  function Dated(table: seq<WideRow>): seq<WideRow>
  {
    Filter(Normalize(Filter(table, NotPpm)), OnOrAfterFirstDay)
  }

  /** A melted row whose column and date the time derivation can use. */
  predicate CellWellFormed(c: LongCell)
  {
    0 <= c.column < HourCount && ValidDate(c.date)
  }

  /** `hour = int(label[:-1])` and `datetime = DATA + hour hours` for one row. */
  function Derive(c: LongCell): (r: LongRow)
    requires CellWellFormed(c)
    ensures 1 <= r.hour <= HourCount
    ensures r == LongRow(c.station, c.date, c.pollutant, c.stationType, c.area, c.altitude,
                         c.column + 1, c.value, AddHours(c.date, c.column + 1))
  {
    ParseHourLabel(c.column + 1);
    var hour := ParseHour(HourLabel(c.column + 1));
    LongRow(c.station, c.date, c.pollutant, c.stationType, c.area, c.altitude,
            hour, c.value, AddHours(c.date, hour))
  }

  function DeriveAll(cells: seq<LongCell>): seq<LongRow>
    requires forall c :: c in cells ==> CellWellFormed(c)
  {
    MapSeq(cells, Derive)
  }

  /** The whole of prepare_data on a table given as a sequence of rows. */
  function Prepared(table: seq<WideRow>): (r: Result<seq<LongRow>, PrepareError>)
    requires AllWellFormed(table)
    ensures r.Err? <==> |Dated(table)| < ChunkDivisor
  {
    var rows := Dated(table);
    var size := |rows| / ChunkDivisor;
    if size == 0 then Err(ZeroChunkSize)
    else
      DatedWellFormed(table);
      ChunkedCellsWellFormed(rows, size);
      Ok(DeriveAll(ChunkedMelt(rows, size)))
  }

  // ---------------------------------------------------------------------
  // Reference definitions: what prepare_data does to one row.

  /** The three unit steps applied to one row. */
  function NormalRow(r: WideRow): WideRow
  {
    ScaleRow(ScaleRow(r, MilligramsPerM3, 1000.0), NanogramsPerM3, 1.0 / 1000.0)
      .(unit := Some(MicrogramsPerM3))
  }

  /** A reading in µg/m3, given its original unit. */
  function ConvertedValue(unit: Option<string>, v: real): real
  {
    if unit == Some(MilligramsPerM3) then v * 1000.0
    else if unit == Some(NanogramsPerM3) then v / 1000.0
    else v
  }

  /** The prepared row that hour column h (0-based) of input row r becomes. */
  function ExpectedRow(r: WideRow, h: int): LongRow
    requires WellFormed(r) && Kept(r, h)
  {
    LongRow(r.station.value, r.date.value, r.pollutant.value, r.stationType.value,
            r.area.value, r.altitude.value, h + 1,
            ConvertedValue(r.unit, r.hours[h].value), AddHours(r.date.value, h + 1))
  }

  /** Reference definition: the output prepare_data would give if it melted
      the whole table at once. */
  function Unchunked(table: seq<WideRow>): seq<LongRow>
    requires AllWellFormed(table)
  {
    DatedWellFormed(table);
    MeltCellsWellFormed(Dated(table));
    DeriveAll(Melt(Dated(table)))
  }

  // ---------------------------------------------------------------------
  // The steps of prepare_data on an array.

  /** `df = df[keep(df)]`: a new table with the rows that satisfy `keep`. */
  method FilterRows(a: array<WideRow>, keep: WideRow -> bool) returns (b: array<WideRow>)
    ensures fresh(b) && b[..] == Filter(a[..], keep)
  {
    var kept: seq<WideRow> := [];
    var i := 0;
    while i < a.Length
      invariant 0 <= i <= a.Length
      invariant kept == Filter(a[..i], keep)
    {
      assert a[..i + 1][..i] == a[..i];
      if keep(a[i]) {
        kept := kept + [a[i]];
      }
      i := i + 1;
    }
    assert a[..a.Length] == a[..];
    b := new WideRow[|kept|](k requires 0 <= k < |kept| => kept[k]);
  }

  /** `df.loc[df['UNITATS'] == unit, cols_hours] *= factor`, in place. */
  method ScaleUnit(a: array<WideRow>, unit: string, factor: real)
    modifies a
    ensures a[..] == ScaleRows(old(a[..]), unit, factor)
  {
    var i := 0;
    while i < a.Length
      invariant 0 <= i <= a.Length
      invariant forall k :: 0 <= k < i ==> a[k] == ScaleRow(old(a[k]), unit, factor)
      invariant forall k :: i <= k < a.Length ==> a[k] == old(a[k])
    {
      if a[i].unit == Some(unit) {
        a[i] := a[i].(hours := ScaleHours(a[i].hours, factor));
      }
      i := i + 1;
    }
  }

  /** `df.loc[:, 'UNITATS'] = 'µg/m3'`, in place. */
  method RelabelUnits(a: array<WideRow>)
    modifies a
    ensures a[..] == Relabel(old(a[..]))
  {
    var i := 0;
    while i < a.Length
      invariant 0 <= i <= a.Length
      invariant forall k :: 0 <= k < i ==> a[k] == old(a[k]).(unit := Some(MicrogramsPerM3))
      invariant forall k :: i <= k < a.Length ==> a[k] == old(a[k])
    {
      a[i] := a[i].(unit := Some(MicrogramsPerM3));
      i := i + 1;
    }
  }

  /** The chunk loop: melt `df.iloc[i:i+size]` for i in range(0, n, size)
      and concatenate the results. */
  method MeltInChunks(a: array<WideRow>, size: int) returns (cells: seq<LongCell>)
    requires size > 0
    ensures cells == ChunkedMelt(a[..], size)
  {
    var rows := a[..];
    cells := [];
    var i := 0;
    while i < |rows|
      invariant 0 <= i <= |rows|
      invariant cells + ChunkedMelt(rows[i..], size) == ChunkedMelt(rows, size)
    {
      var j := if i + size < |rows| then i + size else |rows|;
      var chunk := Melt(rows[i..j]);
      ChunkedMeltStep(rows, i, size);
      ConcatAssoc(cells, chunk, ChunkedMelt(rows[j..], size));
      cells := cells + chunk;
      i := j;
    }
    assert rows[|rows|..] == [];
    ChunkedMeltEmpty(size);
  }

  /** `df['hour'] = ...` and `df['datetime'] = df['DATA'] + hours`, row by row. */
  method DeriveTimes(cells: seq<LongCell>) returns (rows: seq<LongRow>)
    requires forall c :: c in cells ==> CellWellFormed(c)
    ensures rows == DeriveAll(cells)
  {
    rows := [];
    var k := 0;
    while k < |cells|
      invariant 0 <= k <= |cells|
      invariant rows == DeriveAll(cells[..k])
    {
      rows := rows + [Derive(cells[k])];
      k := k + 1;
    }
    assert cells[..|cells|] == cells;
  }

  /** prepare_data. Fails, as `range` with a zero step does, when fewer than
      50 rows are left before the melt. */
  method PrepareData(table: array<WideRow>) returns (r: Result<seq<LongRow>, PrepareError>)
    requires AllWellFormed(table[..])
    ensures r == Prepared(table[..])
  {
    var df := FilterRows(table, NotPpm);
    ScaleUnit(df, MilligramsPerM3, 1000.0);
    ScaleUnit(df, NanogramsPerM3, 1.0 / 1000.0);
    RelabelUnits(df);
    df := FilterRows(df, OnOrAfterFirstDay);
    assert df[..] == Dated(table[..]);
    var size := df.Length / ChunkDivisor;
    if size == 0 {
      return Err(ZeroChunkSize);
    }
    DatedWellFormed(table[..]);
    var cells := MeltInChunks(df, size);
    ChunkedCellsWellFormed(df[..], size);
    var rows := DeriveTimes(cells);
    return Ok(rows);
  }

  // ---------------------------------------------------------------------
  // Lemmas the definitions above rely on.

  lemma ConcatAssoc<T>(a: seq<T>, b: seq<T>, c: seq<T>)
    ensures a + (b + c) == (a + b) + c
  {
  }

  lemma DatedWellFormed(table: seq<WideRow>)
    requires AllWellFormed(table)
    ensures AllWellFormed(Dated(table))
  {
    var kept := Filter(table, NotPpm);
    FilterKeepsAll(table, NotPpm);
    var n := Normalize(kept);
    assert AllWellFormed(n);
    FilterKeepsAll(n, OnOrAfterFirstDay);
  }

  lemma FilterKeepsAll(rows: seq<WideRow>, keep: WideRow -> bool)
    requires AllWellFormed(rows)
    ensures AllWellFormed(Filter(rows, keep))
  {
    FilterLength(rows, keep);
    forall j | 0 <= j < |Filter(rows, keep)|
      ensures WellFormed(Filter(rows, keep)[j])
    {
      FilterAt(rows, keep, j);
    }
  }

  lemma MeltCellsWellFormed(rows: seq<WideRow>)
    requires AllWellFormed(rows)
    ensures forall c :: c in Melt(rows) ==> CellWellFormed(c)
  {
    forall c | c in Melt(rows)
      ensures CellWellFormed(c)
    {
      var i, h := MeltSource(rows, c);
    }
  }

  lemma ChunkedCellsWellFormed(rows: seq<WideRow>, size: int)
    requires AllWellFormed(rows) && size > 0
    ensures forall c :: c in ChunkedMelt(rows, size) ==> CellWellFormed(c)
  {
    ChunkedMeltEquivalent(rows, size);
    MeltCellsWellFormed(rows);
    forall c | c in ChunkedMelt(rows, size)
      ensures CellWellFormed(c)
    {
      assert c in multiset(ChunkedMelt(rows, size));
    }
  }

  // ---------------------------------------------------------------------
  // What prepare_data promises.

  /** The unit steps leave the row as it was except for its unit, now µg/m3,
      and its hour values: those in mg/m3 are multiplied by 1000, those in
      ng/m3 divided by 1000, the others kept, and no value is scaled twice. */
  lemma NormalizedRow(r: WideRow)
    ensures var n := NormalRow(r);
      n.unit == Some(MicrogramsPerM3) && n.(unit := r.unit, hours := r.hours) == r
      && |n.hours| == |r.hours|
      && (forall h :: 0 <= h < |r.hours| ==> (n.hours[h].Some? <==> r.hours[h].Some?))
      && (forall h :: 0 <= h < |r.hours| && r.hours[h].Some? ==>
            n.hours[h].value == ConvertedValue(r.unit, r.hours[h].value))
    ensures var n := NormalRow(r);
      r.unit == Some(MilligramsPerM3) ==>
        forall h :: 0 <= h < |r.hours| && r.hours[h].Some? ==> n.hours[h].value == r.hours[h].value * 1000.0
    ensures var n := NormalRow(r);
      r.unit == Some(NanogramsPerM3) ==>
        forall h :: 0 <= h < |r.hours| && r.hours[h].Some? ==> n.hours[h].value == r.hours[h].value / 1000.0
    ensures r.unit != Some(MilligramsPerM3) && r.unit != Some(NanogramsPerM3) ==>
      NormalRow(r).hours == r.hours
  {
  }

  /** The unit steps on a table act row by row. */
  lemma NormalizeRowwise(rows: seq<WideRow>)
    ensures |Normalize(rows)| == |rows|
    ensures forall i :: 0 <= i < |rows| ==> Normalize(rows)[i] == NormalRow(rows[i])
  {
  }

  /** The positions in the input of the rows left before the melt. */
  function DatedPositions(table: seq<WideRow>): seq<int>
  {
    var p1 := KeptPositions(table, NotPpm);
    var q := KeptPositions(Normalize(Filter(table, NotPpm)), OnOrAfterFirstDay);
    seq(|q|, j requires 0 <= j < |q| => if 0 <= q[j] < |p1| then p1[q[j]] else -1)
  }

  lemma DatedPositionsIncreasing(table: seq<WideRow>)
    ensures |DatedPositions(table)| == |Dated(table)|
    ensures StrictlyIncreasing(DatedPositions(table))
  {
    var kept := Filter(table, NotPpm);
    var n := Normalize(kept);
    var p1 := KeptPositions(table, NotPpm);
    var q := KeptPositions(n, OnOrAfterFirstDay);
    FilterLength(table, NotPpm);
    FilterLength(n, OnOrAfterFirstDay);
    PositionsIncreasing(table, NotPpm);
    PositionsIncreasing(n, OnOrAfterFirstDay);
    NormalizeRowwise(kept);
    assert forall j :: 0 <= j < |q| ==> DatedPositions(table)[j] == p1[q[j]];
  }

  lemma DatedPositionsAt(table: seq<WideRow>, j: int)
    requires 0 <= j < |DatedPositions(table)|
    ensures var p := DatedPositions(table);
      |p| == |Dated(table)|
      && 0 <= p[j] < |table| && NotPpm(table[p[j]]) && OnOrAfterFirstDay(table[p[j]])
      && Dated(table)[j] == NormalRow(table[p[j]])
  {
    var kept := Filter(table, NotPpm);
    var n := Normalize(kept);
    var q := KeptPositions(n, OnOrAfterFirstDay);
    DatedPositionsIncreasing(table);
    NormalizeRowwise(kept);
    FilterAt(n, OnOrAfterFirstDay, j);
    FilterLength(table, NotPpm);
    FilterAt(table, NotPpm, q[j]);
  }

  lemma DatedPositionsComplete(table: seq<WideRow>, i: int)
    requires 0 <= i < |table| && NotPpm(table[i]) && OnOrAfterFirstDay(table[i])
    ensures i in DatedPositions(table)
  {
    var kept := Filter(table, NotPpm);
    var n := Normalize(kept);
    var p1 := KeptPositions(table, NotPpm);
    var q := KeptPositions(n, OnOrAfterFirstDay);
    FilterLength(table, NotPpm);
    NormalizeRowwise(kept);
    PositionsComplete(table, NotPpm, i);
    var a :| 0 <= a < |p1| && p1[a] == i;
    FilterAt(table, NotPpm, a);
    PositionsComplete(n, OnOrAfterFirstDay, a);
    var b :| 0 <= b < |q| && q[b] == a;
    assert DatedPositions(table)[b] == i;
  }

  /** The rows left before the melt are, in their original order, exactly the
      normalized rows of the input rows not in ppm and dated 2010-01-01 or
      later; `p` gives their positions in the input. */
  lemma DatedSource(table: seq<WideRow>) returns (p: seq<int>)
    ensures |p| == |Dated(table)| && StrictlyIncreasing(p)
    ensures forall j :: 0 <= j < |p| ==>
      0 <= p[j] < |table| && NotPpm(table[p[j]]) && OnOrAfterFirstDay(table[p[j]])
      && Dated(table)[j] == NormalRow(table[p[j]])
    ensures forall i :: 0 <= i < |table| && NotPpm(table[i]) && OnOrAfterFirstDay(table[i]) ==> i in p
  {
    p := DatedPositions(table);
    DatedPositionsIncreasing(table);
    forall j | 0 <= j < |p|
      ensures 0 <= p[j] < |table| && NotPpm(table[p[j]]) && OnOrAfterFirstDay(table[p[j]])
        && Dated(table)[j] == NormalRow(table[p[j]])
    {
      DatedPositionsAt(table, j);
    }
    forall i | 0 <= i < |table| && NotPpm(table[i]) && OnOrAfterFirstDay(table[i])
      ensures i in p
    {
      DatedPositionsComplete(table, i);
    }
  }

  /** A cell of a normalized row becomes, once its time is derived, the
      prepared row expected from the input row. */
  lemma ExpectedCell(r: WideRow, h: int)
    requires WellFormed(r) && Kept(r, h)
    ensures WellFormed(NormalRow(r)) && Kept(NormalRow(r), h)
    ensures CellWellFormed(CellOf(NormalRow(r), h))
    ensures Derive(CellOf(NormalRow(r), h)) == ExpectedRow(r, h)
  {
    NormalizedRow(r);
  }

  /** Every prepared row comes from a present hour value of an input row that
      has all six identifiers, is not in ppm and is dated 2010-01-01 or later. */
  lemma PreparedSource(table: seq<WideRow>, k: int) returns (i: int, h: int)
    requires AllWellFormed(table) && Prepared(table).Ok?
    requires 0 <= k < |Prepared(table).value|
    ensures 0 <= i < |table| && NotPpm(table[i]) && OnOrAfterFirstDay(table[i])
    ensures Kept(table[i], h) && Prepared(table).value[k] == ExpectedRow(table[i], h)
  {
    var rows := Dated(table);
    var size := |rows| / ChunkDivisor;
    DatedWellFormed(table);
    ChunkedCellsWellFormed(rows, size);
    var cells := ChunkedMelt(rows, size);
    var c := cells[k];
    ChunkedMeltEquivalent(rows, size);
    assert c in multiset(cells);
    assert c in Melt(rows);
    var j;
    j, h := MeltSource(rows, c);
    var p := DatedSource(table);
    i := p[j];
    NormalizedRow(table[i]);
    ExpectedCell(table[i], h);
  }

  /** Every present hour value of an input row that has all six identifiers,
      is not in ppm and is dated 2010-01-01 or later reaches the output. */
  lemma PreparedHas(table: seq<WideRow>, i: int, h: int)
    requires AllWellFormed(table) && Prepared(table).Ok?
    requires 0 <= i < |table| && NotPpm(table[i]) && OnOrAfterFirstDay(table[i]) && Kept(table[i], h)
    ensures ExpectedRow(table[i], h) in Prepared(table).value
  {
    var rows := Dated(table);
    var size := |rows| / ChunkDivisor;
    DatedWellFormed(table);
    ChunkedCellsWellFormed(rows, size);
    var cells := ChunkedMelt(rows, size);
    var p := DatedSource(table);
    var j :| 0 <= j < |p| && p[j] == i;
    ExpectedCell(table[i], h);
    MeltHas(rows, j, h);
    ChunkedMeltEquivalent(rows, size);
    assert CellOf(rows[j], h) in multiset(Melt(rows));
    MapHas(cells, Derive, CellOf(rows[j], h));
  }

  /** Melting in chunks gives the same rows, with the same multiplicities, as
      melting the whole table at once; there is one per surviving cell. */
  lemma PreparedMatchesUnchunked(table: seq<WideRow>)
    requires AllWellFormed(table) && Prepared(table).Ok?
    ensures multiset(Prepared(table).value) == multiset(Unchunked(table))
    ensures |Prepared(table).value| == KeptCount(Dated(table))
  {
    var rows := Dated(table);
    var size := |rows| / ChunkDivisor;
    DatedWellFormed(table);
    MeltCellsWellFormed(rows);
    ChunkedCellsWellFormed(rows, size);
    ChunkedMeltEquivalent(rows, size);
    MapPermutation(ChunkedMelt(rows, size), Melt(rows), Derive);
    assert |ChunkedMelt(rows, size)| == |multiset(Melt(rows))|;
    MeltLength(rows);
  }
}
