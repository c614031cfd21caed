/** The rows of the air-quality table: the wide input rows (one column per hour
    of the day), the cells of the long table produced by melting them, and the
    long rows with their derived hour and timestamp. */
module Rows {
  import opened Wrappers
  import opened Calendar

  /** One row of the input table. The six identifier columns (CODI EOI, DATA,
      CONTAMINANT, TIPUS ESTACIO, AREA URBANA, ALTITUD) may be missing; UNITATS
      is the unit label; `hours` holds the 24 columns '01h'..'24h' in order. */
  datatype WideRow = WideRow(
    station: Option<string>,
    date: Option<Date>,
    pollutant: Option<string>,
    stationType: Option<string>,
    area: Option<string>,
    altitude: Option<real>,
    unit: Option<string>,
    hours: seq<Option<real>>)

  /** One row of the melted table: the six identifier columns, the hour column
      the value came from (its position in `HourColumns`, which stands for the
      column name that `pd.melt` writes into 'hour'), and the value. */
  datatype LongCell = LongCell(
    station: string,
    date: Date,
    pollutant: string,
    stationType: string,
    area: string,
    altitude: real,
    column: int,
    value: real)

  /** One row of the prepared long table: `hour` is parsed from the column
      name and `datetime` is DATA plus that many hours. */
  datatype LongRow = LongRow(
    station: string,
    date: Date,
    pollutant: string,
    stationType: string,
    area: string,
    altitude: real,
    hour: int,
    value: real,
    datetime: Timestamp)

  /** Number of hour columns of the input table. */
  const HourCount := 24

  /** A row of the input table as the CSV reader delivers it: 24 hour columns
      and, when DATA is present, a real calendar date. */
  predicate WellFormed(r: WideRow)
  {
    |r.hours| == HourCount && (r.date.Some? ==> ValidDate(r.date.value))
  }

  predicate AllWellFormed(rows: seq<WideRow>)
  {
    forall i :: 0 <= i < |rows| ==> WellFormed(rows[i])
  }

  /** `cols_hours`: the names of the 24 hour columns, in table order. */
  const HourColumns: seq<string> := [
    "01h", "02h", "03h", "04h", "05h", "06h", "07h", "08h", "09h", "10h",
    "11h", "12h", "13h", "14h", "15h", "16h", "17h", "18h", "19h", "20h",
    "21h", "22h", "23h", "24h"]

  /** The name of hour column `h` (1-based). */
  function HourLabel(h: int): string
    requires 1 <= h <= HourCount
  {
    HourColumns[h - 1]
  }

  /** Two decimal digits followed by 'h'. */
  predicate IsHourLabel(s: string)
  {
    |s| == 3 && '0' <= s[0] <= '9' && '0' <= s[1] <= '9' && s[2] == 'h'
  }

  function DigitValue(c: char): int
    requires '0' <= c <= '9'
  {
    c as int - '0' as int
  }

  /** `hour.str[:-1].astype(int)`: drop the trailing 'h' and read the digits. */
  function ParseHour(s: string): (h: int)
    requires IsHourLabel(s)
    ensures 0 <= h <= 99
  {
    10 * DigitValue(s[0]) + DigitValue(s[1])
  }

  /** Parsing a column name gives back the hour it names, so every melted
      hour lies in 1..24. */
  lemma ParseHourLabel(h: int)
    requires 1 <= h <= HourCount
    ensures IsHourLabel(HourLabel(h)) && ParseHour(HourLabel(h)) == h
  {
    if h <= 9 {
      assert HourLabel(h) == ['0', (h + '0' as int) as char, 'h'];
    } else if h <= 19 {
      assert HourLabel(h) == ['1', (h - 10 + '0' as int) as char, 'h'];
    } else {
      assert HourLabel(h) == ['2', (h - 20 + '0' as int) as char, 'h'];
    }
  }
}
