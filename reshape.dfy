/** The wide-to-long reshape of prepare_data: `pd.melt` of the hour columns
    followed by `dropna`, done on the whole table or chunk by chunk. */
module Reshape {
  import opened Wrappers
  import opened Calendar
  import opened Rows

  /** The six identifier columns kept by the melt are all present. */
  predicate HasIds(r: WideRow)
  {
    r.station.Some? && r.date.Some? && r.pollutant.Some?
    && r.stationType.Some? && r.area.Some? && r.altitude.Some?
  }

  /** Cell (r, h) survives `dropna`: identifiers present and hour value present. */
  predicate Kept(r: WideRow, h: int)
  {
    HasIds(r) && 0 <= h < HourCount && h < |r.hours| && r.hours[h].Some?
  }

  /** The melted row for hour column h (0-based) of r. */
  function CellOf(r: WideRow, h: int): LongCell
    requires Kept(r, h)
  {
    LongCell(r.station.value, r.date.value, r.pollutant.value, r.stationType.value,
             r.area.value, r.altitude.value, h, r.hours[h].value)
  }

  /** Column h of the melted table after dropna, rows in table order. */
  function MeltColumn(rows: seq<WideRow>, h: int): seq<LongCell>
  {
    if rows == [] then []
    else (if Kept(rows[0], h) then [CellOf(rows[0], h)] else []) + MeltColumn(rows[1..], h)
  }

  /** Columns h..23 of the melted table, column after column. */
  function MeltFrom(rows: seq<WideRow>, h: int): seq<LongCell>
    decreases HourCount - h
  {
    if h >= HourCount then [] else MeltColumn(rows, h) + MeltFrom(rows, h + 1)
  }

  /** `pd.melt(df, id_vars=..., value_vars=cols_hours).dropna()`: the melt
      lists all rows of '01h', then all rows of '02h', and so on. */
  function Melt(rows: seq<WideRow>): seq<LongCell>
  {
    MeltFrom(rows, 0)
  }

  /** The list comprehension over `range(0, len(df), size)` concatenated:
      each chunk `df.iloc[i:i+size]` is melted and cleaned on its own. */
  function ChunkedMelt(rows: seq<WideRow>, size: int): seq<LongCell>
    requires size > 0
    decreases |rows|
  {
    if |rows| <= size then Melt(rows)
    else Melt(rows[..size]) + ChunkedMelt(rows[size..], size)
  }

  /** The surviving cells of one row, hour by hour from column h on. */
  function RowCellsFrom(r: WideRow, h: int): seq<LongCell>
    decreases HourCount - h
  {
    if h >= HourCount then []
    else (if Kept(r, h) then [CellOf(r, h)] else []) + RowCellsFrom(r, h + 1)
  }

  /** Reference definition: every surviving cell, row after row. */
  function RowMajorCells(rows: seq<WideRow>): seq<LongCell>
  {
    if rows == [] then [] else RowCellsFrom(rows[0], 0) + RowMajorCells(rows[1..])
  }

  /** Number of non-missing hour values in rows that have all identifiers. */
  function KeptCount(rows: seq<WideRow>): nat
  {
    if rows == [] then 0
    else |set h | 0 <= h < HourCount && Kept(rows[0], h)| + KeptCount(rows[1..])
  }

  lemma {:induction false} MeltColumnAppend(a: seq<WideRow>, b: seq<WideRow>, h: int)
    requires 0 <= h < HourCount
    ensures MeltColumn(a + b, h) == MeltColumn(a, h) + MeltColumn(b, h)
  {
    if a != [] {
      assert (a + b)[1..] == a[1..] + b;
      MeltColumnAppend(a[1..], b, h);
    } else {
      assert a + b == b;
    }
  }

  lemma MeltFromStep(rows: seq<WideRow>, h: int)
    requires 0 <= h < HourCount
    ensures MeltFrom(rows, h) == MeltColumn(rows, h) + MeltFrom(rows, h + 1)
  {
  }

  lemma {:induction false} MeltFromAppend(a: seq<WideRow>, b: seq<WideRow>, h: int)
    requires 0 <= h <= HourCount
    ensures multiset(MeltFrom(a + b, h)) == multiset(MeltFrom(a, h)) + multiset(MeltFrom(b, h))
    decreases HourCount - h
  {
    if h < HourCount {
      MeltFromAppend(a, b, h + 1);
      AppendStep(a, b, h);
    } else {
      MeltFromEnd(a + b, h);
      MeltFromEnd(a, h);
      MeltFromEnd(b, h);
    }
  }

  lemma MeltFromEnd(rows: seq<WideRow>, h: int)
    requires h >= HourCount
    ensures MeltFrom(rows, h) == []
  {
  }

  /** One hour column of the induction in MeltFromAppend. */
  lemma AppendStep(a: seq<WideRow>, b: seq<WideRow>, h: int)
    requires 0 <= h < HourCount
    requires multiset(MeltFrom(a + b, h + 1)) == multiset(MeltFrom(a, h + 1)) + multiset(MeltFrom(b, h + 1))
    ensures multiset(MeltFrom(a + b, h)) == multiset(MeltFrom(a, h)) + multiset(MeltFrom(b, h))
  {
    MeltFromStep(a + b, h);
    MeltFromStep(a, h);
    MeltFromStep(b, h);
    MeltColumnAppend(a, b, h);
    Interleave(MeltFrom(a + b, h), MeltColumn(a + b, h), MeltFrom(a + b, h + 1),
               MeltFrom(a, h), MeltColumn(a, h), MeltFrom(a, h + 1),
               MeltFrom(b, h), MeltColumn(b, h), MeltFrom(b, h + 1));
  }

  lemma Interleave<T>(w: seq<T>, c: seq<T>, f: seq<T>, wa: seq<T>, ca: seq<T>, fa: seq<T>, wb: seq<T>, cb: seq<T>, fb: seq<T>)
    requires w == c + f && wa == ca + fa && wb == cb + fb
    requires c == ca + cb && multiset(f) == multiset(fa) + multiset(fb)
    ensures multiset(w) == multiset(wa) + multiset(wb)
  {
  }

  /** Melting a concatenation gives the cells of both parts (in another order). */
  lemma MeltAppend(a: seq<WideRow>, b: seq<WideRow>)
    ensures multiset(Melt(a + b)) == multiset(Melt(a)) + multiset(Melt(b))
  {
    MeltFromAppend(a, b, 0);
  }

  lemma MeltColumnSingle(r: WideRow, h: int)
    requires 0 <= h < HourCount
    ensures MeltColumn([r], h) == if Kept(r, h) then [CellOf(r, h)] else []
  {
    assert [r][1..] == [];
  }

  lemma {:induction false} MeltSingleFrom(r: WideRow, h: int)
    requires 0 <= h <= HourCount
    ensures MeltFrom([r], h) == RowCellsFrom(r, h)
    decreases HourCount - h
  {
    if h < HourCount {
      MeltColumnSingle(r, h);
      MeltSingleFrom(r, h + 1);
    }
  }

  /** The melt is a permutation of the row-major list of surviving cells. */
  lemma {:induction false} MeltFromEmpty(h: int)
    requires 0 <= h <= HourCount
    ensures MeltFrom([], h) == []
    decreases HourCount - h
  {
    if h < HourCount {
      MeltFromEmpty(h + 1);
    }
  }

  lemma {:induction false} MeltIsRowMajor(rows: seq<WideRow>)
    ensures multiset(Melt(rows)) == multiset(RowMajorCells(rows))
  {
    if rows == [] {
      MeltFromEmpty(0);
    } else {
      var first, rest := [rows[0]], rows[1..];
      assert first + rest == rows;
      MeltAppend(first, rest);
      MeltSingleFrom(rows[0], 0);
      MeltIsRowMajor(rest);
      Substitute(Melt(rows), Melt(first), Melt(rest), RowCellsFrom(rows[0], 0), RowMajorCells(rest));
    }
  }

  lemma Substitute<T>(whole: seq<T>, a: seq<T>, b: seq<T>, a': seq<T>, b': seq<T>)
    requires multiset(whole) == multiset(a) + multiset(b)
    requires a == a' && multiset(b) == multiset(b')
    ensures multiset(whole) == multiset(a' + b')
  {
  }

  /** Chunking does not change which rows the reshape produces: for every
      positive chunk size the concatenated chunk results hold the same
      multiset of rows as one melt of the whole table. */
  lemma {:induction false} ChunkedMeltEquivalent(rows: seq<WideRow>, size: int)
    requires size > 0
    ensures multiset(ChunkedMelt(rows, size)) == multiset(Melt(rows))
    decreases |rows|
  {
    if |rows| > size {
      assert rows == rows[..size] + rows[size..];
      MeltAppend(rows[..size], rows[size..]);
      ChunkedMeltEquivalent(rows[size..], size);
    }
  }

  lemma {:induction false} RowCellsFromLength(r: WideRow, h: int)
    requires 0 <= h <= HourCount
    ensures |RowCellsFrom(r, h)| == |set k | h <= k < HourCount && Kept(r, k)|
    decreases HourCount - h
  {
    if h < HourCount {
      RowCellsFromLength(r, h + 1);
      var rest := set k | h + 1 <= k < HourCount && Kept(r, k);
      if Kept(r, h) {
        assert (set k | h <= k < HourCount && Kept(r, k)) == {h} + rest;
      } else {
        assert (set k | h <= k < HourCount && Kept(r, k)) == rest;
      }
    }
  }

  /** One round of the chunk loop at offset i: the next chunk is rows
      i..i+size, or the rest of the table when fewer rows are left. */
  lemma ChunkedMeltStep(rows: seq<WideRow>, i: int, size: int)
    requires size > 0 && 0 <= i < |rows|
    ensures var j := if i + size < |rows| then i + size else |rows|;
      ChunkedMelt(rows[i..], size) == Melt(rows[i..j]) + ChunkedMelt(rows[j..], size)
  {
    var j := if i + size < |rows| then i + size else |rows|;
    SliceOfSlice(rows, i, j);
    if i + size >= |rows| {
      assert rows[i..j] == rows[i..] && rows[j..] == [];
      MeltFromEmpty(0);
    } else {
      assert j - i == size;
    }
  }

  lemma SliceOfSlice<T>(s: seq<T>, i: int, j: int)
    requires 0 <= i <= j <= |s|
    ensures s[i..][..j - i] == s[i..j] && s[i..][j - i..] == s[j..]
  {
  }

  lemma ChunkedMeltEmpty(size: int)
    requires size > 0
    ensures ChunkedMelt([], size) == []
  {
    MeltFromEmpty(0);
  }

  lemma {:induction false} ColumnSource(rows: seq<WideRow>, h: int, c: LongCell) returns (i: int)
    requires c in MeltColumn(rows, h)
    ensures 0 <= i < |rows| && Kept(rows[i], h) && c == CellOf(rows[i], h)
  {
    var rest := rows[1..];
    if Kept(rows[0], h) && c == CellOf(rows[0], h) {
      i := 0;
    } else {
      assert c in MeltColumn(rest, h);
      var j := ColumnSource(rest, h, c);
      i := j + 1;
      assert rest[j] == rows[i];
    }
  }

  lemma {:induction false} ColumnHas(rows: seq<WideRow>, i: int, h: int)
    requires 0 <= i < |rows| && Kept(rows[i], h)
    ensures CellOf(rows[i], h) in MeltColumn(rows, h)
  {
    if i > 0 {
      var rest := rows[1..];
      assert rest[i - 1] == rows[i];
      ColumnHas(rest, i - 1, h);
    }
  }

  lemma {:induction false} MeltFromSource(rows: seq<WideRow>, h: int, c: LongCell) returns (i: int, k: int)
    requires c in MeltFrom(rows, h)
    ensures 0 <= i < |rows| && h <= k && Kept(rows[i], k) && c == CellOf(rows[i], k)
    decreases HourCount - h
  {
    if c in MeltColumn(rows, h) {
      i := ColumnSource(rows, h, c);
      k := h;
    } else {
      i, k := MeltFromSource(rows, h + 1, c);
    }
  }

  lemma {:induction false} MeltFromHas(rows: seq<WideRow>, h: int, i: int, k: int)
    requires 0 <= i < |rows| && 0 <= h <= k && Kept(rows[i], k)
    ensures CellOf(rows[i], k) in MeltFrom(rows, h)
    decreases HourCount - h
  {
    MeltFromStep(rows, h);
    if k == h {
      ColumnHas(rows, i, h);
    } else {
      MeltFromHas(rows, h + 1, i, k);
    }
  }

  /** Each melted row comes from a non-missing hour cell of a row whose six
      identifiers are present (its position in the table and its column). */
  lemma MeltSource(rows: seq<WideRow>, c: LongCell) returns (i: int, h: int)
    requires c in Melt(rows)
    ensures 0 <= i < |rows| && Kept(rows[i], h) && c == CellOf(rows[i], h)
    ensures h == c.column && 0 <= h < HourCount
  {
    i, h := MeltFromSource(rows, 0, c);
  }

  /** Every non-missing hour cell of a row with all six identifiers present
      appears in the melted table. */
  lemma MeltHas(rows: seq<WideRow>, i: int, h: int)
    requires 0 <= i < |rows| && Kept(rows[i], h)
    ensures CellOf(rows[i], h) in Melt(rows)
  {
    MeltFromHas(rows, 0, i, h);
  }

  /** The melt yields exactly one row per surviving cell. */
  lemma {:induction false} MeltLength(rows: seq<WideRow>)
    ensures |Melt(rows)| == KeptCount(rows)
  {
    MeltIsRowMajor(rows);
    assert |multiset(Melt(rows))| == |multiset(RowMajorCells(rows))|;
    RowMajorLength(rows);
  }

  lemma {:induction false} RowMajorLength(rows: seq<WideRow>)
    ensures |RowMajorCells(rows)| == KeptCount(rows)
  {
    if rows != [] {
      RowCellsFromLength(rows[0], 0);
      RowMajorLength(rows[1..]);
    }
  }
}
