/** scrapers/mohp/index.js: projecting the `nepal` object of the Ministry of
    Health and Population's `confirmedcases` answer onto the overview and the
    testing rows, and appending each to its own CSV file.

    The answer is an input: `Some(fields)` for the `nepal` object, `None` when
    the answer has none (reading a property of `undefined` then throws). The
    projections are written as object literals without a `fields` option, so
    json2csv takes the literal's key order as the column order. A property
    the answer lacks stays absent here and is written as an empty cell. */
module Mohp {
  import opened Text
  import opened Utils
  import opened Csv

  /** The keys of `normalizeOverviewData`'s literal, in order. */
  const OverviewColumns := ["date", "confirmed", "recovered", "deaths", "quarantine", "isolation",
                            "today_confirmed", "today_recovered", "today_deaths", "created_at", "updated_at"]
  /** For each column after `date`, the property of `nepal` it is read from. */
  const OverviewSources := ["positive", "extra1", "deaths", "extra8", "extra2",
                            "today_newcase", "today_recovered", "today_death", "created_at", "updated_at"]

  /** The keys of `normalizeTestingData`'s literal, in order. */
  const TestingColumns := ["date", "pcr", "pcr_positive", "pcr_negative", "pcr_today", "rdt", "rdt_today",
                           "created_at", "updated_at"]
  const TestingSources := ["samples_tested", "positive", "negative", "today_pcr", "extra7", "today_rdt",
                           "created_at", "updated_at"]

  const OverviewPath := "data/mohp/overview.csv"
  const TestingPath := "data/mohp/testing.csv"
  const MohpFailedMessage := "Error: Requesting MOHP Data failed!"

  /** An object built by a literal: its properties in the literal's order,
      each `undefined` (`None`) or a value. */
  type Literal = seq<(string, Option<string>)>

  function Keys(obj: Literal): (ks: seq<string>)
    ensures |ks| == |obj|
    ensures forall i :: 0 <= i < |obj| ==> ks[i] == obj[i].0
  {
    seq(|obj|, i requires 0 <= i < |obj| => obj[i].0)
  }

  /** The cells json2csv writes for such an object without a `fields` option:
      one per property, in key order, `undefined` as the empty string. */
  function LiteralCells(obj: Literal): (cells: seq<string>)
    ensures |cells| == |obj|
    ensures forall i :: 0 <= i < |obj| ==> cells[i] == Render(obj[i].1)
  {
    seq(|obj|, i requires 0 <= i < |obj| => Render(obj[i].1))
  }

  /** The literal as one line: a comma between each two cells, and no other
      comma unless a value holds one. */
  function LiteralRow(obj: Literal): (r: string)
    ensures |obj| > 0 ==> multiset(r)[','] >= |obj| - 1
    ensures |obj| > 0 && (forall i :: 0 <= i < |obj| ==> ',' !in Render(obj[i].1)) ==> multiset(r)[','] == |obj| - 1
  {
    if |obj| > 0 then JoinSeparatorCount(LiteralCells(obj), ','); Join(LiteralCells(obj), ',')
    else Join(LiteralCells(obj), ',')
  }

  /** `normalizeOverviewData(data)`: a fresh object; `data` is only read. */
  function NormalizeOverviewData(data: map<string, string>, now: string): (r: Literal)
    ensures Keys(r) == OverviewColumns
    ensures r[0].1 == Some(CurrDate(now))
    ensures forall k :: 0 <= k < |OverviewSources| ==> r[k + 1].1 == Lookup(data, OverviewSources[k])
  {
    [("date", Some(CurrDate(now))),
     ("confirmed", Lookup(data, "positive")),
     ("recovered", Lookup(data, "extra1")),
     ("deaths", Lookup(data, "deaths")),
     ("quarantine", Lookup(data, "extra8")),
     ("isolation", Lookup(data, "extra2")),
     ("today_confirmed", Lookup(data, "today_newcase")),
     ("today_recovered", Lookup(data, "today_recovered")),
     ("today_deaths", Lookup(data, "today_death")),
     ("created_at", Lookup(data, "created_at")),
     ("updated_at", Lookup(data, "updated_at"))]
  }

  /** `normalizeTestingData(data)`: a fresh object; `data` is only read. */
  function NormalizeTestingData(data: map<string, string>, now: string): (r: Literal)
    ensures Keys(r) == TestingColumns
    ensures r[0].1 == Some(CurrDate(now))
    ensures forall k :: 0 <= k < |TestingSources| ==> r[k + 1].1 == Lookup(data, TestingSources[k])
  {
    [("date", Some(CurrDate(now))),
     ("pcr", Lookup(data, "samples_tested")),
     ("pcr_positive", Lookup(data, "positive")),
     ("pcr_negative", Lookup(data, "negative")),
     ("pcr_today", Lookup(data, "today_pcr")),
     ("rdt", Lookup(data, "extra7")),
     ("rdt_today", Lookup(data, "today_rdt")),
     ("created_at", Lookup(data, "created_at")),
     ("updated_at", Lookup(data, "updated_at"))]
  }

  /** The overview's `confirmed` and the testing view's `pcr_positive` both
      carry `positive`. */
  lemma ConfirmedIsPcrPositive(data: map<string, string>, now: string)
    ensures NormalizeOverviewData(data, now)[1] == ("confirmed", Lookup(data, "positive"))
    ensures NormalizeTestingData(data, now)[2] == ("pcr_positive", Lookup(data, "positive"))
    ensures NormalizeOverviewData(data, now)[1].1 == NormalizeTestingData(data, now)[2].1
  {
    assert Keys(NormalizeOverviewData(data, now))[1] == "confirmed";
    assert Keys(NormalizeTestingData(data, now))[2] == "pcr_positive";
  }

  /** Both views copy the timestamps verbatim, as their last two properties,
      and carry the same date. */
  lemma TimestampsCopied(data: map<string, string>, now: string)
    ensures NormalizeOverviewData(data, now)[9..] == [("created_at", Lookup(data, "created_at")), ("updated_at", Lookup(data, "updated_at"))]
    ensures NormalizeTestingData(data, now)[7..] == NormalizeOverviewData(data, now)[9..]
    ensures NormalizeTestingData(data, now)[0] == NormalizeOverviewData(data, now)[0]
  {
  }

  /** Properties of `nepal` that neither literal names do not affect either
      view. */
  lemma ProjectionsReadOnlySources(data: map<string, string>, key: string, value: string, now: string)
    requires key !in OverviewSources && key !in TestingSources
    ensures NormalizeOverviewData(data[key := value], now) == NormalizeOverviewData(data, now)
    ensures NormalizeTestingData(data[key := value], now) == NormalizeTestingData(data, now)
  {
    var d := data[key := value];
    assert forall k :: 0 <= k < |OverviewSources| ==> Lookup(d, OverviewSources[k]) == Lookup(data, OverviewSources[k]);
    assert forall k :: 0 <= k < |TestingSources| ==> Lookup(d, TestingSources[k]) == Lookup(data, TestingSources[k]);
  }

  /** The overview line; its columns follow the literal's key order. */
  function OverviewRow(data: map<string, string>, now: string): string {
    LiteralRow(NormalizeOverviewData(data, now))
  }

  function TestingRow(data: map<string, string>, now: string): string {
    LiteralRow(NormalizeTestingData(data, now))
  }

  /** The overview line has eleven columns: the date, then the ten source
      properties in the literal's order. */
  lemma OverviewRowColumns(data: map<string, string>, now: string)
    requires ',' !in CurrDate(now)
    requires forall k :: 0 <= k < |OverviewSources| ==> ',' !in Cell(data, OverviewSources[k])
    ensures |Split(OverviewRow(data, now), ',')| == |OverviewColumns| == 11
    ensures Split(OverviewRow(data, now), ',')[0] == CurrDate(now)
    ensures forall k :: 0 <= k < |OverviewSources| ==> Split(OverviewRow(data, now), ',')[k + 1] == Cell(data, OverviewSources[k])
  {
    var cells := LiteralCells(NormalizeOverviewData(data, now));
    assert forall k :: 0 <= k < |OverviewSources| ==> cells[k + 1] == Cell(data, OverviewSources[k]);
    assert forall i :: 0 <= i < |cells| ==> ',' !in cells[i] by {
      forall i | 0 <= i < |cells|
        ensures ',' !in cells[i]
      {
        if i > 0 {
          assert cells[i] == Cell(data, OverviewSources[i - 1]);
        }
      }
    }
    SplitJoin(cells, ',');
  }

  /** The testing line has nine columns: the date, then the eight source
      properties in the literal's order. */
  lemma TestingRowColumns(data: map<string, string>, now: string)
    requires ',' !in CurrDate(now)
    requires forall k :: 0 <= k < |TestingSources| ==> ',' !in Cell(data, TestingSources[k])
    ensures |Split(TestingRow(data, now), ',')| == |TestingColumns| == 9
    ensures Split(TestingRow(data, now), ',')[0] == CurrDate(now)
    ensures forall k :: 0 <= k < |TestingSources| ==> Split(TestingRow(data, now), ',')[k + 1] == Cell(data, TestingSources[k])
  {
    var cells := LiteralCells(NormalizeTestingData(data, now));
    assert forall k :: 0 <= k < |TestingSources| ==> cells[k + 1] == Cell(data, TestingSources[k]);
    assert forall i :: 0 <= i < |cells| ==> ',' !in cells[i] by {
      forall i | 0 <= i < |cells|
        ensures ',' !in cells[i]
      {
        if i > 0 {
          assert cells[i] == Cell(data, TestingSources[i - 1]);
        }
      }
    }
    SplitJoin(cells, ',');
  }

  /** The two appends `mohpData` makes, in order: overview, then testing,
      each a single line. */
  function MohpAppends(data: map<string, string>, now: string): (r: seq<Append>)
    ensures |r| == 2 && r[0].path == OverviewPath && r[1].path == TestingPath
  {
    [Append(OverviewPath, Join([OverviewRow(data, now)], '\n')),
     Append(TestingPath, Join([TestingRow(data, now)], '\n'))]
  }

  /** `appendOverviewCsv(normalizedJson)` */
  method AppendOverviewCsv(store: FileStore, normalizedJson: Literal)
    modifies store
    ensures store.files == Applied(old(store.files), store.unwritable, Append(OverviewPath, Join([LiteralRow(normalizedJson)], '\n')))
    ensures store.log == old(store.log) + [LogOf(store.unwritable, Append(OverviewPath, Join([LiteralRow(normalizedJson)], '\n')))]
  {
    var overviewCsv := Join([LiteralRow(normalizedJson)], '\n');
    var _ := store.AppendToCsv(overviewCsv, OverviewPath);
  }

  /** `appendTestingCsv(normalizedJson)` */
  method AppendTestingCsv(store: FileStore, normalizedJson: Literal)
    modifies store
    ensures store.files == Applied(old(store.files), store.unwritable, Append(TestingPath, Join([LiteralRow(normalizedJson)], '\n')))
    ensures store.log == old(store.log) + [LogOf(store.unwritable, Append(TestingPath, Join([LiteralRow(normalizedJson)], '\n')))]
  {
    var testingCsv := Join([LiteralRow(normalizedJson)], '\n');
    var _ := store.AppendToCsv(testingCsv, TestingPath);
  }

  /** `mohpData()` after the request: both views come from the same `nepal`
      object; the overview line is appended before the testing line. Without
      a `nepal` object the error is logged and no file is touched. */
  method MohpData(store: FileStore, nepal: Option<map<string, string>>, now: string)
    modifies store
    ensures nepal.None? ==> store.files == old(store.files) && store.log == old(store.log) + [Error(MohpFailedMessage)]
    ensures nepal.Some? ==> store.files == AppliedAll(old(store.files), store.unwritable, MohpAppends(nepal.value, now))
    ensures nepal.Some? ==> store.log == old(store.log) + LogsOf(store.unwritable, MohpAppends(nepal.value, now))
  {
    if nepal.None? {
      store.log := store.log + [Error(MohpFailedMessage)];
      return;
    }
    var nepalData := nepal.value;
    var overviewData := NormalizeOverviewData(nepalData, now);
    var testingData := NormalizeTestingData(nepalData, now);
    ghost var files0, log0 := store.files, store.log;
    AppendOverviewCsv(store, overviewData);
    AppendTestingCsv(store, testingData);
    ghost var appends := MohpAppends(nepalData, now);
    assert appends == [appends[0], appends[1]];
    AppliedAllPair(files0, store.unwritable, appends[0], appends[1]);
    LogExtended(log0, [LogOf(store.unwritable, appends[0])], [LogOf(store.unwritable, appends[1])]);
  }
}
