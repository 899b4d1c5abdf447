/** The ledger gateway `guardar_gasto_en_sheets`: it builds one six-cell row
    and appends it to the spreadsheet. The spreadsheet and the clock are
    outside the model: the sheet is an oracle saying whether a sheet could be
    opened and whether it accepted the append, and the clock is the pair of
    already formatted strings taken from the same `datetime.now()`. */
module Ledger {
  import opened Wrappers
  import PyCase
  import Numerals
  import Catalog

  /** `now.strftime('%Y-%m-%d %H:%M:%S')` and `now.strftime('%Y-%m-%d')`. */
  datatype Clock = Clock(timestamp: string, date: string)

  /** What `conectar_a_sheets` and `append_row` will do on this call: no sheet
      (missing or unusable credentials), or a sheet whose append succeeds or raises. */
  datatype Sheet = Unavailable | Available(acceptsAppend: bool)

  /** One cell of an appended row: text, or a number (`float(monto)`). */
  datatype Cell = Text(text: string) | Number(value: real)

  /** The cell values of `fila`: user id, timestamp, date, amount, category, description. */
  function BuildRow(userId: int, category: string, amount: real, description: string, clock: Clock): (row: seq<Cell>)
    ensures |row| == 6
    ensures row[0] == Text(Numerals.IntToDecimal(userId))
    ensures row[0].Text? && Numerals.ParseFloat(row[0].text) == Some(userId as real)
    ensures row[1] == Text(clock.timestamp) && row[2] == Text(clock.date)
    ensures row[3] == Number(amount)
    ensures row[4].Text? && PyCase.LowerAll(row[4].text) == PyCase.LowerAll(category)
    ensures row[4].Text? && PyCase.Capitalize(row[4].text) == row[4].text
    ensures row[5] == Text(description)
  {
    Numerals.IntToDecimalRoundTrip(userId);
    PyCase.CapitalizeKeepsLetters(category);
    [ Text(Numerals.IntToDecimal(userId)),
      Text(clock.timestamp),
      Text(clock.date),
      Number(amount),
      Text(PyCase.Capitalize(category)),
      Text(description) ]
  }

  /** `guardar_gasto_en_sheets`: the row that ends up appended, if any. The
      result is `True` in the source exactly when a row was appended: without
      a sheet nothing is built or appended, and a raising append is caught. */
  function Save(userId: int, category: string, amount: real, description: string,
                clock: Clock, sheet: Sheet): (appended: Option<seq<Cell>>)
    ensures appended.Some? <==> sheet == Available(true)
    ensures appended.Some? ==> appended.value == BuildRow(userId, category, amount, description, clock)
  {
    match sheet
    case Unavailable => None
    case Available(accepts) =>
      if accepts then Some(BuildRow(userId, category, amount, description, clock)) else None
  }

  /** The stored category is the capitalised key, never the catalog label. */
  lemma CategoryCellIsCapitalisedKey(category: string, userId: int, amount: real, description: string, clock: Clock)
    requires |category| > 0 && 'a' <= category[0] <= 'z'
    ensures BuildRow(userId, category, amount, description, clock)[4].text[0] == PyCase.Upper(category[0])
    ensures BuildRow(userId, category, amount, description, clock)[4].text != category
  {
  }

  /** For every catalog entry the category cell holds the capitalised key,
      which is never the emoji label the user was shown. */
  lemma CategoryCellIsNotLabel(i: nat, userId: int, amount: real, description: string, clock: Clock)
    requires i < |Catalog.Entries|
    ensures BuildRow(userId, Catalog.Entries[i].0, amount, description, clock)[4]
      == Text(PyCase.Capitalize(Catalog.Entries[i].0))
    ensures BuildRow(userId, Catalog.Entries[i].0, amount, description, clock)[4]
      != Text(Catalog.Entries[i].1)
  {
    var key := Catalog.Entries[i].0;
    assert 'a' <= key[0] <= 'z';
    assert !('A' <= Catalog.Entries[i].1[0] <= 'Z');
  }
}
