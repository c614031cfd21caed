/** A worked example of the area pivot: `pivot_table` averages the readings
    that share a timestamp before the monthly mean, so the area columns weigh
    every hour once however many stations report at it. */
module PivotExample {
  import opened Calendar
  import opened Rows
  import opened Sequences
  import opened Grouping
  import opened Features

  const Day := Date(2020, 1, 1)
  const Jan := (2020, 1)
  const T1 := Timestamp(Day, 1)
  const T2 := Timestamp(Day, 2)

  /** Two stations read 0 at 01:00, one reads 3 at 02:00, all in one urban area. */
  function ExampleRows(): seq<LongRow>
  {
    [LongRow("A", Day, NO, "traffic", Urban, 10.0, 1, 0.0, T1),
     LongRow("B", Day, NO, "traffic", Urban, 10.0, 1, 0.0, T1),
     LongRow("A", Day, NO, "traffic", Urban, 10.0, 2, 3.0, T2)]
  }

  lemma Unfold<T>(s: seq<T>, n: int)
    requires 0 < n <= |s|
    ensures s[..n] == s[..n - 1] + [s[n - 1]]
  {
  }

  lemma ExampleRawMean()
    ensures Jan in MonthlyMean(ExampleRows(), Value)
    ensures MonthlyMean(ExampleRows(), Value)[Jan] == 1.0
  {
    var rows := ExampleRows();
    assert rows[..3] == rows;
    assert rows[..0] == [];
    Unfold(rows, 3);
    Unfold(rows, 2);
    Unfold(rows, 1);
    assert Count(rows[..1], RowMonth, Jan) == 1;
    assert Count(rows[..2], RowMonth, Jan) == 2;
    assert Count(rows, RowMonth, Jan) == 3;
    assert Sum(rows[..1], RowMonth, Value, Jan) == 0.0;
    assert Sum(rows[..2], RowMonth, Value, Jan) == 0.0;
    assert Sum(rows, RowMonth, Value, Jan) == 3.0;
    assert RowMonth(rows[0]) == Jan;
  }

  /** The counts and sums of the example's timestamp groups, prefix by prefix. */
  lemma ExampleStampTallies()
    ensures Count(ExampleRows(), Stamp, T1) == 2 && Sum(ExampleRows(), Stamp, Value, T1) == 0.0
    ensures Count(ExampleRows(), Stamp, T2) == 1 && Sum(ExampleRows(), Stamp, Value, T2) == 3.0
  {
    var rows := ExampleRows();
    assert rows[..3] == rows;
    assert rows[..0] == [];
    Unfold(rows, 3);
    Unfold(rows, 2);
    Unfold(rows, 1);
    assert Count(rows[..1], Stamp, T1) == 1 && Count(rows[..2], Stamp, T1) == 2;
    assert Sum(rows[..1], Stamp, Value, T1) == 0.0 && Sum(rows[..2], Stamp, Value, T1) == 0.0;
    assert Count(rows[..1], Stamp, T2) == 0 && Count(rows[..2], Stamp, T2) == 0;
    assert Sum(rows[..1], Stamp, Value, T2) == 0.0 && Sum(rows[..2], Stamp, Value, T2) == 0.0;
  }

  lemma ExampleStampMeans()
    ensures T1 in StampMeans(ExampleRows()) && StampMeans(ExampleRows())[T1] == 0.0
    ensures T2 in StampMeans(ExampleRows()) && StampMeans(ExampleRows())[T2] == 3.0
  {
    var rows := ExampleRows();
    assert Stamp(rows[0]) == T1 && Stamp(rows[2]) == T2;
    ExampleStampTallies();
  }

  lemma ExamplePivotColumn()
    ensures PivotColumn(ExampleRows()) == [(T1, 0.0), (T2, 3.0)]
  {
    var rows := ExampleRows();
    var times := MapSeq(rows, Stamp);
    assert rows[0].datetime == T1 && rows[1].datetime == T1 && rows[2].datetime == T2;
    assert times[0] == Stamp(rows[0]) && times[1] == Stamp(rows[1]) && times[2] == Stamp(rows[2]);
    assert times == [T1, T1, T2];
    assert times[..2] == [T1, T1] && [T1, T1][..1] == [T1] && [T1][..0] == [];
    assert Distinct([T1]) == [T1];
    assert Distinct([T1, T1]) == [T1];
    assert Distinct(times) == [T1, T2];
    ExampleStampMeans();
  }

  lemma ExampleAreaRows()
    ensures AreaRows(ExampleRows(), Urban) == ExampleRows()
  {
    var rows := ExampleRows();
    assert rows[..3] == rows;
    assert rows[..0] == [];
    Unfold(rows, 3);
    Unfold(rows, 2);
    Unfold(rows, 1);
    assert Filter(rows[..1], InArea(Urban)) == rows[..1];
    assert Filter(rows[..2], InArea(Urban)) == rows[..2];
  }

  /** The urban column of the pivot is 1.5, the mean of the two hourly means
      0 and 3, while the plain monthly mean of the same readings is 1. */
  lemma PivotAveragesTimestamps()
    ensures Jan in AreaMonthly(ExampleRows(), Urban) && AreaMonthly(ExampleRows(), Urban)[Jan] == 1.5
    ensures Jan in MonthlyMean(ExampleRows(), Value) && MonthlyMean(ExampleRows(), Value)[Jan] == 1.0
  {
    ExampleRawMean();
    ExampleAreaRows();
    ExamplePivotColumn();
    var col := [(T1, 0.0), (T2, 3.0)];
    assert col[..1] == [(T1, 0.0)] && [(T1, 0.0)][..0] == [];
    assert Count(col[..1], EntryMonth, Jan) == 1 && Sum(col[..1], EntryMonth, EntryValue, Jan) == 0.0;
    assert Count(col, EntryMonth, Jan) == 2 && Sum(col, EntryMonth, EntryValue, Jan) == 3.0;
    assert EntryMonth(col[0]) == Jan;
  }
}
