/** get_features: monthly means of the prepared long table over several
    cross-sections (all rows, the NO rows, the altitude of each, and one
    column per urban area, for all rows and for the NO rows), joined on the
    month, rows with any missing column dropped, and split into the twelve
    exogenous columns X and the target y (the monthly mean of NO). */
module Features {
  import opened Wrappers
  import opened Calendar
  import opened Rows
  import opened Sequences
  import opened Grouping

  const NO: string := "NO"
  const Rural: string := "rural"
  const Suburban: string := "suburban"
  const Urban: string := "urban"

  // ---------------------------------------------------------------------
  // Columns of the long table.

  function Stamp(r: LongRow): Timestamp { r.datetime }
  function RowMonth(r: LongRow): Month { MonthOf(r.datetime) }
  function Value(r: LongRow): real { r.value }
  function Altitude(r: LongRow): real { r.altitude }
  predicate IsNO(r: LongRow) { r.pollutant == NO }

  /** `df_NO = df[df['CONTAMINANT'] == 'NO']`. */
  function NoRows(rows: seq<LongRow>): seq<LongRow>
  {
    Filter(rows, IsNO)
  }

  /** `df[['datetime', col]].groupby(pd.Grouper(key='datetime', freq='M')).mean()`. */
  function MonthlyMean(rows: seq<LongRow>, val: LongRow -> real): map<Month, real>
  {
    GroupMean(rows, RowMonth, val)
  }

  // ---------------------------------------------------------------------
  // The area pivot.

  /** The columns of the pivot table: the areas that occur. */
  function Areas(rows: seq<LongRow>): set<string>
  {
    set i | 0 <= i < |rows| :: rows[i].area
  }

  function InArea(a: string): LongRow -> bool
  {
    (r: LongRow) => r.area == a
  }

  /** The rows that fill the pivot column of area a. */
  function AreaRows(rows: seq<LongRow>, a: string): seq<LongRow>
  {
    Filter(rows, InArea(a))
  }

  /** `pivot_table` averages the values that share a timestamp. */
  function StampMeans(rows: seq<LongRow>): map<Timestamp, real>
  {
    GroupMean(rows, Stamp, Value)
  }

  function StampEntry(means: map<Timestamp, real>): Timestamp --> (Timestamp, real)
  {
    t requires t in means => (t, means[t])
  }

  /** One pivot column: a (timestamp, mean) entry per distinct timestamp. */
  function PivotColumn(rows: seq<LongRow>): seq<(Timestamp, real)>
  {
    var stamps := Distinct(MapSeq(rows, Stamp));
    StampsHaveMeans(rows);
    MapSeq(stamps, StampEntry(StampMeans(rows)))
  }

  function EntryMonth(e: (Timestamp, real)): Month { MonthOf(e.0) }
  function EntryValue(e: (Timestamp, real)): real { e.1 }

  /** `pivot.groupby(pd.Grouper(freq='M')).mean()`, column a: the monthly
      mean of the per-timestamp means of area a. */
  function AreaMonthly(rows: seq<LongRow>, a: string): map<Month, real>
  {
    GroupMean(PivotColumn(AreaRows(rows, a)), EntryMonth, EntryValue)
  }

  function AreaTable(rows: seq<LongRow>): map<string, map<Month, real>>
  {
    map a | a in Areas(rows) :: AreaMonthly(rows, a)
  }

  // ---------------------------------------------------------------------
  // The join.

  /** The columns that `pd.concat(..., axis=1)` puts side by side. */
  datatype CrossSections = CrossSections(
    value: map<Month, real>,
    valueNO: map<Month, real>,
    altitude: map<Month, real>,
    altitudeNO: map<Month, real>,
    area: map<string, map<Month, real>>,
    areaNO: map<string, map<Month, real>>)

  function Sections(rows: seq<LongRow>): CrossSections
  {
    var no := NoRows(rows);
    CrossSections(
      MonthlyMean(rows, Value), MonthlyMean(no, Value),
      MonthlyMean(rows, Altitude), MonthlyMean(no, Altitude),
      AreaTable(rows), AreaTable(no))
  }

  /** A month survives `dropna` when every column has a value for it,
      including area columns that X does not select. */
  predicate Complete(c: CrossSections, m: Month)
  {
    m in c.value && m in c.valueNO && m in c.altitude && m in c.altitudeNO
    && (forall a :: a in c.area ==> m in c.area[a])
    && (forall a :: a in c.areaNO ==> m in c.areaNO[a])
  }

  function CompleteIn(c: CrossSections): Month -> bool
  {
    (m: Month) => Complete(c, m)
  }

  predicate Increasing(s: seq<Month>)
  {
    forall i, j :: 0 <= i < j < |s| ==> MonthBefore(s[i], s[j])
  }

  /** m placed into the increasing sequence s, unless it is already there. */
  function Insert(s: seq<Month>, m: Month): seq<Month>
  {
    if s == [] then [m]
    else if s[0] == m then s
    else if MonthBefore(m, s[0]) then [m] + s
    else [s[0]] + Insert(s[1..], m)
  }

  /** The months that occur, each once, in chronological order: the index
      the monthly groupings share. */
  function SortedMonths(ms: seq<Month>): seq<Month>
  {
    if ms == [] then [] else Insert(SortedMonths(ms[..|ms| - 1]), ms[|ms| - 1])
  }

  /** The index of `df_features` after `dropna`. */
  function JoinedMonths(rows: seq<LongRow>, c: CrossSections): seq<Month>
  {
    Filter(SortedMonths(MapSeq(rows, RowMonth)), CompleteIn(c))
  }

  // ---------------------------------------------------------------------
  // X and y.

  /** One row of X: value, year, month (standing for month_sin and
      month_cos), ALTITUD_NO, ALTITUD, rural_NO, suburban_NO, urban_NO,
      rural, suburban, urban. */
  datatype FeatureVector = FeatureVector(
    value: real, year: int, month: int,
    altitudeNO: real, altitude: real,
    ruralNO: real, suburbanNO: real, urbanNO: real,
    rural: real, suburban: real, urban: real)

  /** X and y with their shared month index. */
  datatype Features = Features(index: seq<Month>, x: seq<FeatureVector>, y: seq<real>)

  /** Selecting X raises KeyError, naming the columns it lacks. */
  datatype FeatureError = MissingColumns(names: seq<string>)

  /** The area columns X needs, in the order X lists them. */
  predicate HasAreaColumns(c: CrossSections)
  {
    Rural in c.areaNO && Suburban in c.areaNO && Urban in c.areaNO
    && Rural in c.area && Suburban in c.area && Urban in c.area
  }

  function MissingAreaColumns(c: CrossSections): (names: seq<string>)
  {
    (if Rural in c.areaNO then [] else ["rural_NO"])
    + (if Suburban in c.areaNO then [] else ["suburban_NO"])
    + (if Urban in c.areaNO then [] else ["urban_NO"])
    + (if Rural in c.area then [] else [Rural])
    + (if Suburban in c.area then [] else [Suburban])
    + (if Urban in c.area then [] else [Urban])
  }

  function Vector(c: CrossSections, m: Month): FeatureVector
    requires Complete(c, m) && HasAreaColumns(c)
  {
    FeatureVector(
      c.value[m], m.0, m.1, c.altitudeNO[m], c.altitude[m],
      c.areaNO[Rural][m], c.areaNO[Suburban][m], c.areaNO[Urban][m],
      c.area[Rural][m], c.area[Suburban][m], c.area[Urban][m])
  }

  /** `X = df_features[[...]]` and `y = df_features['value_NO']`. */
  function Assemble(c: CrossSections, index: seq<Month>): Features
    requires HasAreaColumns(c)
    requires forall j :: 0 <= j < |index| ==> Complete(c, index[j])
  {
    Features(
      index,
      seq(|index|, j requires 0 <= j < |index| => Vector(c, index[j])),
      seq(|index|, j requires 0 <= j < |index| => assert Complete(c, index[j]); c.valueNO[index[j]]))
  }

  /** get_features. */
  function GetFeatures(rows: seq<LongRow>): Result<Features, FeatureError>
  {
    var c := Sections(rows);
    if !HasAreaColumns(c) then Err(MissingColumns(MissingAreaColumns(c)))
    else
      JoinedComplete(rows, c);
      Ok(Assemble(c, JoinedMonths(rows, c)))
  }

  // ---------------------------------------------------------------------
  // Lemmas.

  lemma StampsHaveMeans(rows: seq<LongRow>)
    ensures forall t :: t in Distinct(MapSeq(rows, Stamp)) ==> t in StampMeans(rows)
  {
    DistinctElements(MapSeq(rows, Stamp));
    forall t | t in Distinct(MapSeq(rows, Stamp))
      ensures t in StampMeans(rows)
    {
      var i := MapSource(rows, Stamp, t);
      GroupHas(rows, Stamp, Value, i);
    }
  }

  lemma JoinedComplete(rows: seq<LongRow>, c: CrossSections)
    ensures forall j :: 0 <= j < |JoinedMonths(rows, c)| ==> Complete(c, JoinedMonths(rows, c)[j])
  {
    FilterAll(SortedMonths(MapSeq(rows, RowMonth)), CompleteIn(c));
    var index := JoinedMonths(rows, c);
    assert forall j :: 0 <= j < |index| ==> index[j] in index;
  }

  // The month index.

  lemma {:induction false} InsertElements(s: seq<Month>, m: Month)
    requires Increasing(s)
    ensures Increasing(Insert(s, m))
    ensures forall x :: x in Insert(s, m) <==> x in s || x == m
  {
    if s != [] && s[0] != m && !MonthBefore(m, s[0]) {
      InsertElements(s[1..], m);
      var t := Insert(s[1..], m);
      assert Insert(s, m) == [s[0]] + t;
      forall j | 0 <= j < |t|
        ensures MonthBefore(s[0], t[j])
      {
        assert t[j] in t;
      }
    }
  }

  lemma {:induction false} SortedElements(ms: seq<Month>)
    ensures Increasing(SortedMonths(ms))
    ensures forall x :: x in SortedMonths(ms) <==> x in ms
  {
    if ms != [] {
      var init := ms[..|ms| - 1];
      SortedElements(init);
      InsertElements(SortedMonths(init), ms[|ms| - 1]);
      assert ms == init + [ms[|ms| - 1]];
    }
  }

  /** An increasing sequence is determined by its elements. */
  lemma {:induction false} IncreasingUnique(a: seq<Month>, b: seq<Month>)
    requires Increasing(a) && Increasing(b)
    requires forall x :: x in a <==> x in b
    ensures a == b
  {
    if a == [] {
      forall x
        ensures multiset(b)[x] == 0
      {
        assert x !in b;
      }
      MultisetExtensionality(multiset(b), multiset{});
    } else {
      assert a[0] in b;
      assert b != [];
      assert b[0] in a;
      var i :| 0 <= i < |a| && a[i] == b[0];
      var j :| 0 <= j < |b| && b[j] == a[0];
      assert a[0] == b[0];
      forall x
        ensures x in a[1..] <==> x in b[1..]
      {
        if x in a[1..] {
          var k :| 1 <= k < |a| && a[k] == x;
          assert x in b;
        }
        if x in b[1..] {
          var k :| 1 <= k < |b| && b[k] == x;
          assert x in a;
        }
      }
      IncreasingUnique(a[1..], b[1..]);
      assert a == [a[0]] + a[1..] && b == [b[0]] + b[1..];
    }
  }

  lemma {:induction false} FilterIncreasing(s: seq<Month>, keep: Month -> bool)
    requires Increasing(s)
    ensures Increasing(Filter(s, keep))
  {
    if s != [] {
      var n := |s| - 1;
      var init := s[..n];
      FilterIncreasing(init, keep);
      FilterAll(init, keep);
      var f := Filter(init, keep);
      forall i | 0 <= i < |f|
        ensures MonthBefore(f[i], s[n])
      {
        assert f[i] in init;
      }
    }
  }

  /** The index of the joined table is increasing and holds exactly the
      months for which every column has a value. */
  lemma JoinedMonthsExact(rows: seq<LongRow>)
    ensures var c := Sections(rows);
      Increasing(JoinedMonths(rows, c))
      && forall m :: m in JoinedMonths(rows, c) <==> Complete(c, m)
  {
    JoinedExact(rows, Sections(rows));
  }

  lemma JoinedExact(rows: seq<LongRow>, c: CrossSections)
    requires c.value == GroupMean(rows, RowMonth, Value)
    ensures Increasing(JoinedMonths(rows, c))
    ensures forall m :: m in JoinedMonths(rows, c) <==> Complete(c, m)
  {
    var months := MapSeq(rows, RowMonth);
    var sorted := SortedMonths(months);
    SortedElements(months);
    FilterIncreasing(sorted, CompleteIn(c));
    FilterMembership(sorted, CompleteIn(c));
    FilterAll(sorted, CompleteIn(c));
    assert forall x :: x in Filter(sorted, CompleteIn(c)) ==> CompleteIn(c)(x);
    assert JoinedMonths(rows, c) == Filter(sorted, CompleteIn(c));
    forall m | Complete(c, m)
      ensures m in JoinedMonths(rows, c)
    {
      var i := GroupSource(rows, RowMonth, Value, m);
      assert months[i] == m;
      assert CompleteIn(c)(m);
    }
    forall m | m in JoinedMonths(rows, c)
      ensures Complete(c, m)
    {
      assert m in Filter(sorted, CompleteIn(c));
      assert CompleteIn(c)(m);
    }
  }

  // X and y.

  lemma GetFeaturesOk(rows: seq<LongRow>)
    requires HasAreaColumns(Sections(rows))
    ensures forall j :: 0 <= j < |JoinedMonths(rows, Sections(rows))| ==>
      Complete(Sections(rows), JoinedMonths(rows, Sections(rows))[j])
    ensures GetFeatures(rows) == Ok(Assemble(Sections(rows), JoinedMonths(rows, Sections(rows))))
  {
    JoinedComplete(rows, Sections(rows));
  }

  /** Row j of X holds the columns of month index[j] in the order X lists
      them, and y[j] the NO mean of that month. */
  lemma AssembleColumns(c: CrossSections, index: seq<Month>)
    requires HasAreaColumns(c)
    requires forall j :: 0 <= j < |index| ==> Complete(c, index[j])
    ensures var f := Assemble(c, index);
      f.index == index && |f.x| == |index| && |f.y| == |index|
      && forall j :: 0 <= j < |index| ==>
           var m := index[j];
           Complete(c, m) && f.y[j] == c.valueNO[m]
           && f.x[j].value == c.value[m] && (f.x[j].year, f.x[j].month) == m
           && f.x[j].altitudeNO == c.altitudeNO[m] && f.x[j].altitude == c.altitude[m]
           && f.x[j].ruralNO == c.areaNO[Rural][m] && f.x[j].suburbanNO == c.areaNO[Suburban][m]
           && f.x[j].urbanNO == c.areaNO[Urban][m] && f.x[j].rural == c.area[Rural][m]
           && f.x[j].suburban == c.area[Suburban][m] && f.x[j].urban == c.area[Urban][m]
  {
  }

  /** X and y share the increasing month index of the joined table, which
      holds exactly the months for which every column has a value. */
  lemma FeaturesAligned(rows: seq<LongRow>)
    requires HasAreaColumns(Sections(rows))
    ensures GetFeatures(rows).Ok?
    ensures var f, c := GetFeatures(rows).value, Sections(rows);
      |f.x| == |f.index| && |f.y| == |f.index| && Increasing(f.index)
      && (forall m :: m in f.index <==> Complete(c, m))
      && forall j :: 0 <= j < |f.index| ==>
           var m := f.index[j];
           Complete(c, m) && f.y[j] == c.valueNO[m]
           && f.x[j].value == c.value[m] && (f.x[j].year, f.x[j].month) == m
           && f.x[j].altitudeNO == c.altitudeNO[m] && f.x[j].altitude == c.altitude[m]
           && f.x[j].ruralNO == c.areaNO[Rural][m] && f.x[j].suburbanNO == c.areaNO[Suburban][m]
           && f.x[j].urbanNO == c.areaNO[Urban][m] && f.x[j].rural == c.area[Rural][m]
           && f.x[j].suburban == c.area[Suburban][m] && f.x[j].urban == c.area[Urban][m]
  {
    var c := Sections(rows);
    JoinedMonthsExact(rows);
    GetFeaturesOk(rows);
    AssembleColumns(c, JoinedMonths(rows, c));
  }

  /** X's month column lies in 1..12 when the timestamps are real dates. */
  lemma FeaturesMonthRange(rows: seq<LongRow>)
    requires HasAreaColumns(Sections(rows))
    requires forall i :: 0 <= i < |rows| ==> ValidDate(rows[i].datetime.date)
    ensures var f := GetFeatures(rows).value;
      forall j :: 0 <= j < |f.x| ==> 1 <= f.x[j].month <= 12
  {
    var f, c := GetFeatures(rows).value, Sections(rows);
    FeaturesAligned(rows);
    forall j | 0 <= j < |f.x|
      ensures 1 <= f.x[j].month <= 12
    {
      assert f.index[j] in f.index;
      var i := GroupSource(rows, RowMonth, Value, f.index[j]);
    }
  }

  /** Selecting X fails exactly when rural, suburban or urban never occurs
      among all rows or among the NO rows; the error names what is missing. */
  lemma FeaturesError(rows: seq<LongRow>)
    ensures var no := NoRows(rows);
      GetFeatures(rows).Err? <==>
        !(Rural in Areas(no) && Suburban in Areas(no) && Urban in Areas(no)
          && Rural in Areas(rows) && Suburban in Areas(rows) && Urban in Areas(rows))
    ensures GetFeatures(rows).Err? ==> GetFeatures(rows).error.names != []
  {
  }

  /** `df_NO` holds exactly the NO rows, each as often as in `df`, in their
      original order: row j of `df_NO` is row p[j] of `df` for increasing p. */
  lemma NoRowsExact(rows: seq<LongRow>)
    ensures forall r :: multiset(NoRows(rows))[r] == if r.pollutant == NO then multiset(rows)[r] else 0
    ensures var p := KeptPositions(rows, IsNO);
      |NoRows(rows)| == |p| && StrictlyIncreasing(p)
      && forall j :: 0 <= j < |p| ==> 0 <= p[j] < |rows| && NoRows(rows)[j] == rows[p[j]]
  {
    var p := KeptPositions(rows, IsNO);
    FilterLength(rows, IsNO);
    PositionsIncreasing(rows, IsNO);
    forall j | 0 <= j < |p|
      ensures 0 <= p[j] < |rows| && NoRows(rows)[j] == rows[p[j]]
    {
      FilterAt(rows, IsNO, j);
    }
    forall r
      ensures multiset(NoRows(rows))[r] == if r.pollutant == NO then multiset(rows)[r] else 0
    {
      FilterMultiset(rows, IsNO, r);
    }
  }

  // The area pivot.

  /** Area a has a value for month m when some row of area a falls in m... */
  lemma AreaHas(rows: seq<LongRow>, a: string, i: int)
    requires 0 <= i < |rows| && rows[i].area == a
    ensures RowMonth(rows[i]) in AreaMonthly(rows, a)
  {
    var arows := AreaRows(rows, a);
    FilterMembership(rows, InArea(a));
    assert rows[i] in arows;
    var k :| 0 <= k < |arows| && arows[k] == rows[i];
    var times := MapSeq(arows, Stamp);
    assert times[k] == rows[i].datetime && times[k] in times;
    DistinctElements(times);
    var stamps := Distinct(times);
    var p :| 0 <= p < |stamps| && stamps[p] == rows[i].datetime;
    StampsHaveMeans(arows);
    var col := PivotColumn(arows);
    assert EntryMonth(col[p]) == RowMonth(rows[i]);
    GroupHas(col, EntryMonth, EntryValue, p);
  }

  /** ... and only then. */
  lemma AreaSource(rows: seq<LongRow>, a: string, m: Month) returns (i: int)
    requires m in AreaMonthly(rows, a)
    ensures 0 <= i < |rows| && rows[i].area == a && RowMonth(rows[i]) == m
  {
    var arows := AreaRows(rows, a);
    var col := PivotColumn(arows);
    var p := GroupSource(col, EntryMonth, EntryValue, m);
    var times := MapSeq(arows, Stamp);
    DistinctElements(times);
    StampsHaveMeans(arows);
    var t := Distinct(times)[p];
    assert t in times;
    var k := MapSource(arows, Stamp, t);
    FilterAll(rows, InArea(a));
    assert arows[k] in rows;
    i :| 0 <= i < |rows| && rows[i] == arows[k];
  }

  /** The area column is an average of per-timestamp averages, so it lies
      between any bounds on the values of its rows for that month. */
  lemma AreaBounds(rows: seq<LongRow>, a: string, m: Month, lo: real, hi: real)
    requires m in AreaMonthly(rows, a)
    requires forall i :: 0 <= i < |rows| && rows[i].area == a && RowMonth(rows[i]) == m ==>
      lo <= rows[i].value <= hi
    ensures lo <= AreaMonthly(rows, a)[m] <= hi
  {
    var arows := AreaRows(rows, a);
    var col := PivotColumn(arows);
    var means := StampMeans(arows);
    var times := MapSeq(arows, Stamp);
    DistinctElements(times);
    StampsHaveMeans(arows);
    FilterAll(rows, InArea(a));
    forall p | 0 <= p < |col| && EntryMonth(col[p]) == m
      ensures lo <= EntryValue(col[p]) <= hi
    {
      var t := Distinct(times)[p];
      assert t in times;
      forall k | 0 <= k < |arows| && Stamp(arows[k]) == t
        ensures lo <= Value(arows[k]) <= hi
      {
        assert arows[k] in rows;
        var i :| 0 <= i < |rows| && rows[i] == arows[k];
      }
      MeanBounds(arows, Stamp, Value, t, lo, hi);
    }
    MeanBounds(col, EntryMonth, EntryValue, m, lo, hi);
  }

  // Order of the rows.

  lemma PivotPermutation(a: seq<LongRow>, b: seq<LongRow>)
    requires multiset(a) == multiset(b)
    ensures multiset(PivotColumn(a)) == multiset(PivotColumn(b))
  {
    GroupPermutation(a, b, Stamp, Value);
    var ta, tb := MapSeq(a, Stamp), MapSeq(b, Stamp);
    MapPermutation(a, b, Stamp);
    DistinctElements(ta);
    DistinctElements(tb);
    assert forall t :: t in ta <==> t in multiset(tb);
    SameElements(Distinct(ta), Distinct(tb));
    StampsHaveMeans(a);
    StampsHaveMeans(b);
    MapPermutation(Distinct(ta), Distinct(tb), StampEntry(StampMeans(a)));
  }

  lemma AreaPermutation(a: seq<LongRow>, b: seq<LongRow>, area: string)
    requires multiset(a) == multiset(b)
    ensures AreaMonthly(a, area) == AreaMonthly(b, area)
  {
    FilterPermutation(a, b, InArea(area));
    PivotPermutation(AreaRows(a, area), AreaRows(b, area));
    GroupPermutation(PivotColumn(AreaRows(a, area)), PivotColumn(AreaRows(b, area)), EntryMonth, EntryValue);
  }

  lemma AreaTablePermutation(a: seq<LongRow>, b: seq<LongRow>)
    requires multiset(a) == multiset(b)
    ensures AreaTable(a) == AreaTable(b)
  {
    forall x | x in Areas(a)
      ensures x in Areas(b)
    {
      var i :| 0 <= i < |a| && a[i].area == x;
      assert a[i] in multiset(b);
    }
    forall x | x in Areas(b)
      ensures x in Areas(a)
    {
      var i :| 0 <= i < |b| && b[i].area == x;
      assert b[i] in multiset(a);
    }
    forall x | x in Areas(a)
      ensures AreaMonthly(a, x) == AreaMonthly(b, x)
    {
      AreaPermutation(a, b, x);
    }
  }

  lemma SectionsPermutation(a: seq<LongRow>, b: seq<LongRow>)
    requires multiset(a) == multiset(b)
    ensures Sections(a) == Sections(b)
  {
    FilterPermutation(a, b, IsNO);
    GroupPermutation(a, b, RowMonth, Value);
    GroupPermutation(a, b, RowMonth, Altitude);
    GroupPermutation(NoRows(a), NoRows(b), RowMonth, Value);
    GroupPermutation(NoRows(a), NoRows(b), RowMonth, Altitude);
    AreaTablePermutation(a, b);
    AreaTablePermutation(NoRows(a), NoRows(b));
  }

  lemma SortedMonthsPermutation(a: seq<LongRow>, b: seq<LongRow>)
    requires multiset(a) == multiset(b)
    ensures SortedMonths(MapSeq(a, RowMonth)) == SortedMonths(MapSeq(b, RowMonth))
  {
    var ma, mb := MapSeq(a, RowMonth), MapSeq(b, RowMonth);
    MapPermutation(a, b, RowMonth);
    assert forall m :: m in ma <==> m in multiset(mb);
    SortedElements(ma);
    SortedElements(mb);
    IncreasingUnique(SortedMonths(ma), SortedMonths(mb));
  }

  /** get_features does not depend on the order of the rows of its input. */
  lemma FeaturesPermutation(a: seq<LongRow>, b: seq<LongRow>)
    requires multiset(a) == multiset(b)
    ensures GetFeatures(a) == GetFeatures(b)
  {
    SectionsPermutation(a, b);
    SortedMonthsPermutation(a, b);
    assert JoinedMonths(a, Sections(a)) == JoinedMonths(b, Sections(b));
  }
}
