/** scrapers/kathmandu-post/overview-csv.js: date stamping the nationwide
    totals scraped from the Kathmandu Post page and appending them as one
    line of data/kathmandu-post/overview.csv. */
module OverviewCsv {
  import opened Text
  import opened Utils
  import opened Csv

  /** `overviewCsvFields`: `deaths` is not among them, although the scraped
      object carries it and the file's doc comment lists it. */
  const OverviewCsvFields := ["date", "confirmed", "active", "recovered", "readmitted"]

  const OverviewPath := "data/kathmandu-post/overview.csv"

  /** `normalizeJson(rawJson)`: `[rawJson].map(addDate)`, a one-element list
      holding the very object passed in, now with `date` set. */
  method NormalizeJson(rawJson: JsObject, now: string) returns (mapped: seq<JsObject>)
    modifies rawJson
    ensures mapped == [rawJson]
    ensures rawJson.fields == old(rawJson.fields)[DateKey := CurrDate(now)]
  {
    var stamped := AddDate(rawJson, now);
    mapped := [stamped];
  }

  function OverviewRow(fields: map<string, string>): string {
    Row(fields, OverviewCsvFields)
  }

  function OverviewAppend(normalized: seq<map<string, string>>): Append {
    Append(OverviewPath, Rows(normalized, OverviewCsvFields))
  }

  /** `appendOverviewCsv(normalizedJson)` */
  method AppendOverviewCsv(store: FileStore, normalized: seq<map<string, string>>)
    modifies store
    ensures store.files == Applied(old(store.files), store.unwritable, OverviewAppend(normalized))
    ensures store.log == old(store.log) + [LogOf(store.unwritable, OverviewAppend(normalized))]
  {
    var overviewCsv := Rows(normalized, OverviewCsvFields);
    var _ := store.AppendToCsv(overviewCsv, OverviewPath);
  }

  /** `appendDataToCsv(json)`: the object is stamped in place and written as
      one line. */
  method AppendDataToCsv(store: FileStore, json: JsObject, now: string)
    modifies store, json
    ensures json.fields == old(json.fields)[DateKey := CurrDate(now)]
    ensures store.files == Applied(old(store.files), store.unwritable, OverviewAppend([json.fields]))
    ensures store.log == old(store.log) + [LogOf(store.unwritable, OverviewAppend([json.fields]))]
  {
    var normalizedJson := NormalizeJson(json, now);
    AppendOverviewCsv(store, FieldsOf(normalizedJson));
  }

  /** A single record is written as its own row and nothing else. */
  lemma OneRecordOneRow(fields: map<string, string>)
    ensures Rows([fields], OverviewCsvFields) == OverviewRow(fields)
  {
    assert RowsOf([fields], OverviewCsvFields) == [OverviewRow(fields)];
  }

  /** The row has exactly five columns: date, confirmed, active, recovered and
      readmitted, in that order. */
  lemma OverviewRowColumns(fields: map<string, string>)
    requires DelimiterFree(fields, OverviewCsvFields)
    ensures Split(OverviewRow(fields), ',') ==
              [Cell(fields, "date"), Cell(fields, "confirmed"), Cell(fields, "active"),
               Cell(fields, "recovered"), Cell(fields, "readmitted")]
  {
    RowColumns(fields, OverviewCsvFields);
  }

  /** `deaths`, and every other property outside the field list, never
      reaches the file. */
  lemma OverviewIgnoresOtherKeys(fields: map<string, string>, key: string, value: string)
    requires key !in OverviewCsvFields
    ensures OverviewRow(fields[key := value]) == OverviewRow(fields)
  {
    RowReadsOnlyColumns(fields[key := value], fields, OverviewCsvFields);
  }

  lemma OverviewDropsDeaths(fields: map<string, string>, deaths: string)
    ensures OverviewRow(fields["deaths" := deaths]) == OverviewRow(fields)
  {
    OverviewIgnoresOtherKeys(fields, "deaths", deaths);
  }

  /** The totals shown in the file's doc comment, scraped on 7 July 2020,
      give the line below: four figures, `deaths` (35) left out. */
  lemma OverviewExample(json: map<string, string>, now: string)
    requires IsIsoTimestamp(now) && now[..10] == "2020-07-07"
    requires Lookup(json, "confirmed") == Some("16531") && Lookup(json, "active") == Some("12844")
    requires Lookup(json, "deaths") == Some("35")
    requires Lookup(json, "recovered") == Some("3652") && Lookup(json, "readmitted") == Some("4")
    ensures OverviewRow(json[DateKey := CurrDate(now)]) == "2020-07-07,16531,12844,3652,4"
  {
    CurrDateOfIsoTimestamp(now);
    var f := json[DateKey := CurrDate(now)];
    assert Cells(f, OverviewCsvFields) == ["2020-07-07", "16531", "12844", "3652", "4"];
    ExampleJoin();
  }

  lemma ExampleJoin()
    ensures Join(["2020-07-07", "16531", "12844", "3652", "4"], ',') == "2020-07-07,16531,12844,3652,4"
  {
    JoinFive("2020-07-07", "16531", "12844", "3652", "4", ',');
  }

  /** Five cells are written with a separator between each two. */
  lemma JoinFive(a: string, b: string, c: string, d: string, e: string, sep: char)
    ensures Join([a, b, c, d, e], sep) == a + [sep] + b + [sep] + c + [sep] + d + [sep] + e
  {
    JoinCons(d, [e], sep);
    assert [d] + [e] == [d, e];
    JoinCons(c, [d, e], sep);
    assert [c] + [d, e] == [c, d, e];
    JoinCons(b, [c, d, e], sep);
    assert [b] + [c, d, e] == [b, c, d, e];
    JoinCons(a, [b, c, d, e], sep);
    assert [a] + [b, c, d, e] == [a, b, c, d, e];
  }
}
