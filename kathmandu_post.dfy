/** scrapers/kathmandu-post/index.js: reading the nationwide totals and the
    district data out of the Kathmandu Post COVID-19 page and handing them to
    the district and overview writers.

    The page is given as what the selectors return: `spans`, the texts of
    `span.nepal-total > div > span` in document order, and `scripts`, the
    texts of the inline scripts in document order. `decode` stands for
    `JSON.parse` followed by `Object.values`: the district records of a blob,
    or `None` when the blob is not valid JSON. */
module KathmanduPost {
  import opened Text
  import opened Utils
  import opened Csv
  import opened DistrictPattern
  import DistrictCsv
  import OverviewCsv

  /** `labels` in `parseOverviewData` */
  const Labels := ["confirmed", "active", "deaths", "recovered", "readmitted"]
  /** `labels[index]` past the end is `undefined`, which as a property name is this. */
  const UndefinedKey := "undefined"
  const KathmanduPostFailedMessage := "Error: Requesting Kathmandu Post Data failed!"

  // ---------------------------------------------------------------------
  // parseOverviewData
  // ---------------------------------------------------------------------

  /** The property the span at `index` is stored under. */
  function KeyAt(index: nat): string {
    if index < |Labels| then Labels[index] else UndefinedKey
  }

  /** The overview object after the first `|spans|` steps of the loop: it has
      a property for every span's label and no other, each holding the text
      of a span stored under it. */
  function OverviewOf(spans: seq<string>): (r: map<string, string>)
    ensures forall i :: 0 <= i < |spans| ==> KeyAt(i) in r
    ensures forall k :: k in r ==> exists i :: 0 <= i < |spans| && KeyAt(i) == k && r[k] == spans[i]
    decreases |spans|
  {
    if |spans| == 0 then map[]
    else
      var prev := OverviewOf(spans[..|spans| - 1]);
      StoreSpan(spans, prev);
      prev[KeyAt(|spans| - 1) := spans[|spans| - 1]]
  }

  /** One step of the loop keeps the description of the overview object. */
  lemma StoreSpan(spans: seq<string>, prev: map<string, string>)
    requires |spans| > 0
    requires forall i :: 0 <= i < |spans| - 1 ==> KeyAt(i) in prev
    requires forall k :: k in prev ==> exists i :: 0 <= i < |spans| - 1 && KeyAt(i) == k && prev[k] == spans[..|spans| - 1][i]
    ensures var r := prev[KeyAt(|spans| - 1) := spans[|spans| - 1]];
            && (forall i :: 0 <= i < |spans| ==> KeyAt(i) in r)
            && (forall k :: k in r ==> exists i :: 0 <= i < |spans| && KeyAt(i) == k && r[k] == spans[i])
  {
    var n := |spans| - 1;
    var r := prev[KeyAt(n) := spans[n]];
    forall k | k in r
      ensures exists i :: 0 <= i < |spans| && KeyAt(i) == k && r[k] == spans[i]
    {
      if k != KeyAt(n) {
        var i :| 0 <= i < n && KeyAt(i) == k && prev[k] == spans[..n][i];
        assert r[k] == spans[i];
      } else {
        assert r[k] == spans[n];
      }
    }
  }

  /** `parseOverviewData($)`: span `index` goes under `labels[index]`. */
  method ParseOverviewData(spans: seq<string>) returns (overview: map<string, string>)
    ensures overview == OverviewOf(spans)
  {
    overview := map[];
    var index := 0;
    while index < |spans|
      invariant 0 <= index <= |spans|
      invariant overview == OverviewOf(spans[..index])
    {
      assert spans[..index + 1][..index] == spans[..index];
      overview := overview[KeyAt(index) := spans[index]];
      index := index + 1;
    }
    assert spans[..index] == spans;
  }

  /** The five labels and `undefined` are six different property names. */
  lemma KeysDistinct(i: nat, j: nat)
    requires i < |Labels| && i != j
    ensures KeyAt(i) != KeyAt(j)
  {
    assert Labels[0][0] == 'c' && Labels[1][0] == 'a' && Labels[2][0] == 'd';
    assert Labels[3][2] == 'c' && Labels[4][2] == 'a' && Labels[3][0] == Labels[4][0] == 'r';
    assert UndefinedKey[0] == 'u';
  }

  /** The text stored under a key is that of the last span with that key. */
  lemma {:induction false} OverviewOfLast(spans: seq<string>, j: nat)
    requires j < |spans|
    requires forall l :: j < l < |spans| ==> KeyAt(l) != KeyAt(j)
    ensures KeyAt(j) in OverviewOf(spans) && OverviewOf(spans)[KeyAt(j)] == spans[j]
    decreases |spans|
  {
    var init := spans[..|spans| - 1];
    if j < |spans| - 1 {
      assert forall l :: j < l < |init| ==> init[l] == spans[l];
      OverviewOfLast(init, j);
      assert init[j] == spans[j];
    }
  }

  /** A key no span is stored under is absent. */
  lemma {:induction false} OverviewOfAbsent(spans: seq<string>, key: string)
    requires forall l :: 0 <= l < |spans| ==> KeyAt(l) != key
    ensures key !in OverviewOf(spans)
    decreases |spans|
  {
    if |spans| > 0 {
      OverviewOfAbsent(spans[..|spans| - 1], key);
    }
  }

  /** The i-th span's text is stored under the i-th label; with fewer than
      five spans the later labels are absent. */
  lemma OverviewLabels(spans: seq<string>)
    ensures forall i :: 0 <= i < |Labels| && i < |spans| ==> Labels[i] in OverviewOf(spans) && OverviewOf(spans)[Labels[i]] == spans[i]
    ensures forall i :: |spans| <= i < |Labels| ==> Labels[i] !in OverviewOf(spans)
  {
    forall i | 0 <= i < |Labels| && i < |spans|
      ensures Labels[i] in OverviewOf(spans) && OverviewOf(spans)[Labels[i]] == spans[i]
    {
      forall l | i < l < |spans|
        ensures KeyAt(l) != KeyAt(i)
      {
        KeysDistinct(i, l);
      }
      OverviewOfLast(spans, i);
    }
    forall i | |spans| <= i < |Labels|
      ensures Labels[i] !in OverviewOf(spans)
    {
      forall l | 0 <= l < |spans|
        ensures KeyAt(l) != Labels[i]
      {
        KeysDistinct(i, l);
      }
      OverviewOfAbsent(spans, Labels[i]);
    }
  }

  /** Spans past the fifth all land on `undefined`, so the last one wins;
      with five spans or fewer there is no `undefined` property. */
  lemma OverviewUndefinedKey(spans: seq<string>)
    ensures |spans| > |Labels| ==> UndefinedKey in OverviewOf(spans) && OverviewOf(spans)[UndefinedKey] == spans[|spans| - 1]
    ensures |spans| <= |Labels| ==> UndefinedKey !in OverviewOf(spans)
  {
    if |spans| > |Labels| {
      OverviewOfLast(spans, |spans| - 1);
    } else {
      forall l | 0 <= l < |spans|
        ensures KeyAt(l) != UndefinedKey
      {
        KeysDistinct(l, |Labels|);
      }
      OverviewOfAbsent(spans, UndefinedKey);
    }
  }

  // ---------------------------------------------------------------------
  // parseDistrictData
  // ---------------------------------------------------------------------

  /** How `parseDistrictData` ends: no script holds the marker (the result is
      `undefined`, on which `Object.values` later throws), the first marked
      script does not match the expression (`matches[1]` throws), the blob is
      not JSON (`JSON.parse` throws), or the district records. */
  datatype DistrictExtraction = NoScript | NoMatch | BadJson | Parsed(records: seq<map<string, string>>)

  /** The first script, in document order, that contains the marker. */
  function FirstMarked(scripts: seq<string>): (r: Option<nat>)
    ensures r.Some? ==> r.value < |scripts| && Contains(scripts[r.value], Marker)
    ensures r.Some? ==> forall j :: 0 <= j < r.value ==> !Contains(scripts[j], Marker)
    ensures r.None? ==> forall j :: 0 <= j < |scripts| ==> !Contains(scripts[j], Marker)
    decreases |scripts|
  {
    if |scripts| == 0 then None
    else if Contains(scripts[0], Marker) then Some(0)
    else
      var rest := FirstMarked(scripts[1..]);
      if rest.None? then None else Some(rest.value + 1)
  }

  /** The outcome of `parseDistrictData`: no script at all only when no script
      holds the marker, and records only from the blob of a marked script. */
  function Extract(scripts: seq<string>, decode: string -> Option<seq<map<string, string>>>): (r: DistrictExtraction)
    ensures r.NoScript? <==> forall j :: 0 <= j < |scripts| ==> !Contains(scripts[j], Marker)
    ensures r.Parsed? ==> exists k :: 0 <= k < |scripts| && Contains(scripts[k], Marker)
                                       && Exec(scripts[k]).Some? && decode(Exec(scripts[k]).value) == Some(r.records)
  {
    match FirstMarked(scripts)
    case None => NoScript
    case Some(k) =>
      match Exec(scripts[k])
      case None => NoMatch
      case Some(blob) =>
        match decode(blob)
        case None => BadJson
        case Some(records) => Parsed(records)
  }

  /** `parseDistrictData($)`: the scan stops at the first script holding the
      marker, whatever happens to it. */
  method ParseDistrictData(scripts: seq<string>, decode: string -> Option<seq<map<string, string>>>)
    returns (districtData: DistrictExtraction)
    ensures districtData == Extract(scripts, decode)
  {
    var idx := 0;
    while idx < |scripts|
      invariant 0 <= idx <= |scripts|
      invariant forall j :: 0 <= j < idx ==> !Contains(scripts[j], Marker)
    {
      var inlineContent := scripts[idx];
      if Contains(inlineContent, Marker) {
        var matches := Exec(inlineContent);
        if matches.None? {
          return NoMatch;
        }
        var parsed := decode(matches.value);
        if parsed.None? {
          return BadJson;
        }
        return Parsed(parsed.value);
      }
      idx := idx + 1;
    }
    return NoScript;
  }

  /** Scripts after the first marked one are never looked at: two pages that
      agree up to and including a marked script give the same outcome. */
  lemma ExtractOnlyFirstMarked(a: seq<string>, b: seq<string>, decode: string -> Option<seq<map<string, string>>>, k: nat)
    requires k < |a| && k < |b| && a[..k + 1] == b[..k + 1]
    requires Contains(a[k], Marker)
    ensures FirstMarked(a) == FirstMarked(b)
    ensures Extract(a, decode) == Extract(b, decode)
  {
    assert a[k] == a[..k + 1][k] == b[k];
    var fa, fb := FirstMarked(a), FirstMarked(b);
    assert fa.Some? && fa.value <= k;
    assert fb.Some? && fb.value <= k;
    assert a[fa.value] == a[..k + 1][fa.value] == b[fa.value];
    assert a[fb.value] == a[..k + 1][fb.value] == b[fb.value];
    assert fb.value <= fa.value && fa.value <= fb.value;
  }

  /** Once a marked script is found the outcome is fixed by that script alone. */
  lemma ExtractFromFirstMarked(scripts: seq<string>, decode: string -> Option<seq<map<string, string>>>, k: nat)
    requires FirstMarked(scripts) == Some(k)
    ensures Exec(scripts[k]).None? ==> Extract(scripts, decode) == NoMatch
    ensures Exec(scripts[k]).Some? && decode(Exec(scripts[k]).value).Some? ==>
              Extract(scripts, decode) == Parsed(decode(Exec(scripts[k]).value).value)
  {
  }

  // ---------------------------------------------------------------------
  // kathmanduPostData
  // ---------------------------------------------------------------------

  /** Everything a successful run appends, in call order: the district files
      (the aggregate first), then the overview line. */
  function PageAppends(raws: seq<map<string, string>>, spans: seq<string>, ds: seq<DistrictCsv.District>, ps: seq<DistrictCsv.Province>, now: string): (r: seq<Append>)
    requires !DistrictCsv.AnyThrown(raws, ds, ps)
    ensures |r| == |raws| + 2
    ensures r[0].path == DistrictCsv.AggregatePath && r[|r| - 1].path == OverviewCsv.OverviewPath
  {
    DistrictCsv.OutputAppends(DistrictCsv.NormalizeAll(raws, ds, ps, now).value)
      + [OverviewCsv.OverviewAppend([OverviewOf(spans)[DateKey := CurrDate(now)]])]
  }

  /** The page appends are the district appends followed by the overview append. */
  lemma PageAppendsInOrder(raws: seq<map<string, string>>, spans: seq<string>, ds: seq<DistrictCsv.District>, ps: seq<DistrictCsv.Province>, now: string,
                           files: map<string, string>, unwritable: set<string>)
    requires !DistrictCsv.AnyThrown(raws, ds, ps)
    ensures var districts := DistrictCsv.OutputAppends(DistrictCsv.NormalizeAll(raws, ds, ps, now).value);
            var overview := OverviewCsv.OverviewAppend([OverviewOf(spans)[DateKey := CurrDate(now)]]);
            && AppliedAll(files, unwritable, PageAppends(raws, spans, ds, ps, now)) == Applied(AppliedAll(files, unwritable, districts), unwritable, overview)
            && LogsOf(unwritable, PageAppends(raws, spans, ds, ps, now)) == LogsOf(unwritable, districts) + [LogOf(unwritable, overview)]
  {
    var districts := DistrictCsv.OutputAppends(DistrictCsv.NormalizeAll(raws, ds, ps, now).value);
    var overview := OverviewCsv.OverviewAppend([OverviewOf(spans)[DateKey := CurrDate(now)]]);
    var all := PageAppends(raws, spans, ds, ps, now);
    assert all == districts + [overview];
    AppliedAllSnoc(files, unwritable, districts, overview);
  }

  /** `JSON.parse` builds fresh objects and `Object.values` lists them. */
  method NewObjects(raws: seq<map<string, string>>) returns (records: seq<JsObject>)
    ensures |records| == |raws|
    ensures forall j :: 0 <= j < |records| ==> fresh(records[j])
    ensures forall i, j :: 0 <= i < j < |records| ==> records[i] != records[j]
    ensures FieldsOf(records) == raws
  {
    records := [];
    while |records| < |raws|
      invariant |records| <= |raws|
      invariant forall j :: 0 <= j < |records| ==> fresh(records[j]) && records[j].fields == raws[j]
      invariant forall i, j :: 0 <= i < j < |records| ==> records[i] != records[j]
    {
      var o := new JsObject(raws[|records|]);
      records := records + [o];
    }
  }

  /** `districtCsv.appendDataToCsv(districtData)` on the objects `JSON.parse`
      built: nothing is written when a record's province is missing. */
  method AppendDistricts(store: FileStore, raws: seq<map<string, string>>,
                         ds: seq<DistrictCsv.District>, ps: seq<DistrictCsv.Province>, now: string)
    returns (ok: bool)
    modifies store
    ensures ok <==> !DistrictCsv.AnyThrown(raws, ds, ps)
    ensures !ok ==> store.files == old(store.files) && store.log == old(store.log)
    ensures ok ==> store.files == AppliedAll(old(store.files), store.unwritable, DistrictCsv.OutputAppends(DistrictCsv.NormalizeAll(raws, ds, ps, now).value))
    ensures ok ==> store.log == old(store.log) + LogsOf(store.unwritable, DistrictCsv.OutputAppends(DistrictCsv.NormalizeAll(raws, ds, ps, now).value))
  {
    var records := NewObjects(raws);
    ok := DistrictCsv.AppendDataToCsv(store, records, ds, ps, now);
  }

  /** `kathmanduPostData()` after the page is loaded: any exception from the
      extraction or from normalising the districts is caught and logged, and
      nothing is appended; otherwise the district files are written before
      the overview file. */
  method KathmanduPostData(store: FileStore, spans: seq<string>, scripts: seq<string>,
                           decode: string -> Option<seq<map<string, string>>>,
                           ds: seq<DistrictCsv.District>, ps: seq<DistrictCsv.Province>, now: string)
    returns (ok: bool)
    modifies store
    ensures ok <==> Extract(scripts, decode).Parsed? && !DistrictCsv.AnyThrown(Extract(scripts, decode).records, ds, ps)
    ensures !ok ==> store.files == old(store.files) && store.log == old(store.log) + [Error(KathmanduPostFailedMessage)]
    ensures ok ==> store.files == AppliedAll(old(store.files), store.unwritable, PageAppends(Extract(scripts, decode).records, spans, ds, ps, now))
    ensures ok ==> store.log == old(store.log) + LogsOf(store.unwritable, PageAppends(Extract(scripts, decode).records, spans, ds, ps, now))
  {
    var overviewData := ParseOverviewData(spans);
    var districtData := ParseDistrictData(scripts, decode);
    if !districtData.Parsed? {
      store.log := store.log + [Error(KathmanduPostFailedMessage)];
      return false;
    }
    ghost var files0, log0 := store.files, store.log;
    ok := AppendPage(store, overviewData, districtData.records, ds, ps, now);
    if !ok {
      store.log := store.log + [Error(KathmanduPostFailedMessage)];
    } else {
      var raws := districtData.records;
      PageAppendsInOrder(raws, spans, ds, ps, now, files0, store.unwritable);
      LogExtended(log0, LogsOf(store.unwritable, DistrictCsv.OutputAppends(DistrictCsv.NormalizeAll(raws, ds, ps, now).value)),
                  [LogOf(store.unwritable, OverviewCsv.OverviewAppend([overviewData[DateKey := CurrDate(now)]]))]);
    }
  }

  /** The body of `kathmanduPostData`'s `try` once both parts are parsed:
      districts first, then the overview. */
  method AppendPage(store: FileStore, overviewData: map<string, string>, raws: seq<map<string, string>>,
                    ds: seq<DistrictCsv.District>, ps: seq<DistrictCsv.Province>, now: string)
    returns (ok: bool)
    modifies store
    ensures ok <==> !DistrictCsv.AnyThrown(raws, ds, ps)
    ensures !ok ==> store.files == old(store.files) && store.log == old(store.log)
    ensures ok ==> store.files == Applied(AppliedAll(old(store.files), store.unwritable, DistrictCsv.OutputAppends(DistrictCsv.NormalizeAll(raws, ds, ps, now).value)),
                                          store.unwritable, OverviewCsv.OverviewAppend([overviewData[DateKey := CurrDate(now)]]))
    ensures ok ==> store.log == old(store.log) + LogsOf(store.unwritable, DistrictCsv.OutputAppends(DistrictCsv.NormalizeAll(raws, ds, ps, now).value))
                                 + [LogOf(store.unwritable, OverviewCsv.OverviewAppend([overviewData[DateKey := CurrDate(now)]]))]
  {
    ok := AppendDistricts(store, raws, ds, ps, now);
    if !ok {
      return;
    }
    var overviewObject := new JsObject(overviewData);
    OverviewCsv.AppendDataToCsv(store, overviewObject, now);
  }
}
