/** The part of json2csv's `parse` the scrapers use: an explicit ordered
    field list, comma delimiter, no header row (`header: false`) and no
    quoting (`quote: ''`). A record is a map from property name to its text;
    an absent property (`undefined`) is written as the empty string. Several
    records are written one row per record, separated by a newline. */
module Csv {
  import opened Text

  function Lookup(fields: map<string, string>, key: string): Option<string> {
    if key in fields then Some(fields[key]) else None
  }

  /** How one value is written: as it is, or empty when undefined. */
  function Render(value: Option<string>): string {
    if value.Some? then value.value else ""
  }

  function Cell(fields: map<string, string>, key: string): string {
    Render(Lookup(fields, key))
  }

  function Cells(fields: map<string, string>, columns: seq<string>): (cells: seq<string>)
    ensures |cells| == |columns|
  {
    seq(|columns|, i requires 0 <= i < |columns| => Cell(fields, columns[i]))
  }

  /** One record as one CSV line (without its line end): a comma between
      each two cells, and no other comma unless a value holds one. */
  function Row(fields: map<string, string>, columns: seq<string>): (r: string)
    ensures |columns| > 0 ==> multiset(r)[','] >= |columns| - 1
    ensures |columns| > 0 && DelimiterFree(fields, columns) ==> multiset(r)[','] == |columns| - 1
  {
    if |columns| > 0 then JoinSeparatorCount(Cells(fields, columns), ','); Join(Cells(fields, columns), ',')
    else Join(Cells(fields, columns), ',')
  }

  function RowsOf(records: seq<map<string, string>>, columns: seq<string>): (rows: seq<string>)
    ensures |rows| == |records|
  {
    seq(|records|, i requires 0 <= i < |records| => Row(records[i], columns))
  }

  /** `parse(records, { fields: columns, header: false, quote: '' })`: a
      newline between each two rows, and no other unless a value holds one. */
  function Rows(records: seq<map<string, string>>, columns: seq<string>): (r: string)
    ensures |records| > 0 ==> multiset(r)['\n'] >= |records| - 1
    ensures |records| > 0 && (forall i :: 0 <= i < |records| ==> '\n' !in Row(records[i], columns)) ==>
              multiset(r)['\n'] == |records| - 1
  {
    if |records| > 0 then JoinSeparatorCount(RowsOf(records, columns), '\n'); Join(RowsOf(records, columns), '\n')
    else Join(RowsOf(records, columns), '\n')
  }

  /** No value of the listed columns contains the delimiter. */
  predicate DelimiterFree(fields: map<string, string>, columns: seq<string>) {
    forall i :: 0 <= i < |columns| ==> ',' !in Cell(fields, columns[i])
  }

  /** A row has exactly one column per listed field, in the listed order,
      each holding that field's value: splitting it at commas gives back the
      cells, provided no value contains a comma (json2csv does not escape). */
  lemma RowColumns(fields: map<string, string>, columns: seq<string>)
    requires |columns| >= 1
    requires DelimiterFree(fields, columns)
    ensures Split(Row(fields, columns), ',') == Cells(fields, columns)
    ensures forall i :: 0 <= i < |columns| ==> Split(Row(fields, columns), ',')[i] == Cell(fields, columns[i])
  {
    SplitJoin(Cells(fields, columns), ',');
  }

  /** With `quote: ''` the serialiser adds no quote character of its own: a
      quote in a row comes from a value. */
  lemma RowAddsNoQuotes(fields: map<string, string>, columns: seq<string>)
    requires forall i :: 0 <= i < |columns| ==> '"' !in Cell(fields, columns[i])
    ensures '"' !in Row(fields, columns)
  {
    if '"' in Row(fields, columns) {
      JoinChars(Cells(fields, columns), ',', '"');
    }
  }

  /** Properties outside the field list never reach the output: two records
      that agree on the listed fields give the same row. */
  lemma RowReadsOnlyColumns(f: map<string, string>, g: map<string, string>, columns: seq<string>)
    requires forall i :: 0 <= i < |columns| ==> Lookup(f, columns[i]) == Lookup(g, columns[i])
    ensures Row(f, columns) == Row(g, columns)
  {
    assert Cells(f, columns) == Cells(g, columns);
  }

  /** Several records give one line per record in order and no header line,
      provided no value contains a newline. */
  lemma RowsLines(records: seq<map<string, string>>, columns: seq<string>)
    requires |records| >= 1
    requires forall i, k :: 0 <= i < |records| && 0 <= k < |columns| ==> '\n' !in Cell(records[i], columns[k])
    ensures Split(Rows(records, columns), '\n') == RowsOf(records, columns)
    ensures Split(Rows(records, columns), '\n')[0] == Row(records[0], columns)
  {
    var rows := RowsOf(records, columns);
    forall i | 0 <= i < |rows|
      ensures '\n' !in rows[i]
    {
      if '\n' in rows[i] {
        JoinChars(Cells(records[i], columns), ',', '\n');
      }
    }
    SplitJoin(rows, '\n');
  }
}
