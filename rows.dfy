/**
 * The row formatter of `solicitudes/get`: every fetched cell that is not a
 * string becomes one, the price column with two decimals and thousands
 * separators, every other one through `str`.  Float columns are held in
 * hundredths.
 */
module Rows {
  import opened Common
  import opened Text

  /** A value the cursor returns: text, an integer, or a float worth `cents / 100`. */
  datatype SqlValue = SqlText(s: string) | SqlInt(i: int) | SqlReal(cents: int)

  /** The amount a numeric value stands for, in hundredths. */
  function Hundredths(v: SqlValue): int
    requires !v.SqlText?
  {
    if v.SqlInt? then v.i * 100 else v.cents
  }

  /** `str(val)` of a number. */
  function PyStr(v: SqlValue): string
    requires !v.SqlText?
  {
    if v.SqlInt? then IntToString(v.i) else FloatText(v.cents)
  }

  /** The column of the unit price in the six-column rows. */
  const PRICE_COLUMN := 5

  /** The text that stands for the cell at position `pos` of its row. */
  function FormatCell(v: SqlValue, pos: nat): (r: string)
    // strings pass through unchanged
    ensures v.SqlText? ==> r == v.s
    // the price column: exactly two decimals, and the digits denote the amount
    ensures !v.SqlText? && pos % 6 == PRICE_COLUMN ==>
      && |r| >= 4 && r[|r| - 3] == '.' && IsDigit(r[|r| - 2]) && IsDigit(r[|r| - 1])
      && ParseInt(Without(Without(r, ','), '.')) == Some(Hundredths(v))
    // integers elsewhere read back as themselves
    ensures v.SqlInt? && pos % 6 != PRICE_COLUMN ==> ParseInt(r) == Some(v.i)
  {
    if v.SqlText? then v.s
    else if pos % 6 == PRICE_COLUMN then
      MoneyTextDenotesAmount(Hundredths(v));
      MoneyText(Hundredths(v))
    else
      (if v.SqlInt? then ParseIntRoundTrip(v.i); PyStr(v) else PyStr(v))
  }

  function FormatRow(row: seq<SqlValue>): (r: seq<string>)
    ensures |r| == |row|
    ensures forall j :: 0 <= j < |row| ==> r[j] == FormatCell(row[j], j)
  {
    seq(|row|, j requires 0 <= j < |row| => FormatCell(row[j], j))
  }

  /**
   * The nested loop of `solicitudes/get`: `cont` counts the cells of the
   * row, and decides which formatter a number gets.
   */
  method FormatRows(rows: seq<seq<SqlValue>>) returns (data: seq<seq<string>>)
    ensures |data| == |rows|
    ensures forall i :: 0 <= i < |rows| ==> data[i] == FormatRow(rows[i])
  {
    data := [];
    for n := 0 to |rows|
      invariant |data| == n
      invariant forall i :: 0 <= i < n ==> data[i] == FormatRow(rows[i])
    {
      var row := rows[n];
      var tempRow: seq<string> := [];
      var cont := 0;
      for k := 0 to |row|
        invariant cont == k
        invariant |tempRow| == k
        invariant forall j :: 0 <= j < k ==> tempRow[j] == FormatCell(row[j], j)
      {
        var val := row[k];
        if !val.SqlText? {
          if cont % 6 == 5 {
            tempRow := tempRow + [MoneyText(Hundredths(val))];
          } else {
            tempRow := tempRow + [PyStr(val)];
          }
        } else {
          tempRow := tempRow + [val.s];
        }
        cont := cont + 1;
      }
      data := data + [tempRow];
    }
  }

  /** A whole-number float prints with one decimal: a quantity 5 reads "5.0". */
  lemma WholeQuantityText(q: int, pos: nat)
    requires pos % 6 != PRICE_COLUMN
    ensures FormatCell(SqlReal(q * 100), pos) == IntToString(q) + ".0"
  {
    FloatTextWhole(q);
  }
}
