/** scrapers/kathmandu-post/district-csv.js: reconciling each scraped district
    record with the reference list of districts and provinces, stamping the
    date, ordering the records, and writing them to the aggregate CSV file and
    to one CSV file per district.

    The reference lists (metadata/districts.json and metadata/provinces.json)
    are parameters. The raw district map arrives as the sequence
    `Object.values(rawJson)` yields: one object per district. */
module DistrictCsv {
  import opened Text
  import opened Utils
  import opened Csv
  import opened SortBy

  datatype Province = Province(number: int, name: string)
  datatype District = District(name: string, alternateNames: seq<string>, provinceNumber: int)

  const NameKey := "name"
  const ProvinceKey := "province"
  const ProvinceNumberKey := "province_number"

  /** `districtCsvFields` */
  const DistrictCsvFields := ["date", "province", "name", "total", "deaths", "recovered", "readmitted"]

  const AggregatePath := "data/kathmandu-post/districts-aggregated.csv"
  const DistinctDirectory := "data/kathmandu-post/districts/"

  // ---------------------------------------------------------------------
  // Reconciliation (addDistrictProvince)
  // ---------------------------------------------------------------------

  /** `item.name` as `_.toLower` sees it: `undefined` reads as the empty string. */
  function Label(fields: map<string, string>): string {
    Cell(fields, NameKey)
  }

  function LowerAll(names: seq<string>): (r: seq<string>)
    ensures |r| == |names|
  {
    seq(|names|, j requires 0 <= j < |names| => Lower(names[j]))
  }

  /** The test at district-csv.js:73-76: the canonical name or one of the
      alternate names equals the given name, ignoring case. */
  predicate Matches(d: District, given: string) {
    Lower(d.name) == Lower(given) || Lower(given) in LowerAll(d.alternateNames)
  }

  /** The position of the first district, in reference order, that matches. */
  function FirstMatch(ds: seq<District>, given: string): (r: Option<nat>)
    ensures r.Some? ==> r.value < |ds| && Matches(ds[r.value], given)
    ensures r.Some? ==> forall j :: 0 <= j < r.value ==> !Matches(ds[j], given)
    ensures r.None? ==> forall j :: 0 <= j < |ds| ==> !Matches(ds[j], given)
  {
    FirstMatchFrom(ds, given, 0)
  }

  function FirstMatchFrom(ds: seq<District>, given: string, from: nat): (r: Option<nat>)
    requires from <= |ds|
    ensures r.Some? ==> from <= r.value < |ds| && Matches(ds[r.value], given)
    ensures r.Some? ==> forall j :: from <= j < r.value ==> !Matches(ds[j], given)
    ensures r.None? ==> forall j :: from <= j < |ds| ==> !Matches(ds[j], given)
    decreases |ds| - from
  {
    if from == |ds| then None
    else if Matches(ds[from], given) then Some(from)
    else FirstMatchFrom(ds, given, from + 1)
  }

  /** `_.find(provinces, { number })`: the first province with that number. */
  function FindProvince(ps: seq<Province>, number: int): (r: Option<Province>)
    ensures r.Some? ==> r.value.number == number
    ensures r.Some? ==> exists k :: 0 <= k < |ps| && ps[k] == r.value && forall j :: 0 <= j < k ==> ps[j].number != number
    ensures r.None? <==> forall k :: 0 <= k < |ps| ==> ps[k].number != number
  {
    if |ps| == 0 then None
    else if ps[0].number == number then Some(ps[0])
    else
      var r := FindProvince(ps[1..], number);
      assert forall k :: 0 < k < |ps| ==> ps[k] == ps[1..][k - 1];
      r
  }

  /** The outcome of reconciling one record: the record's properties when the
      call returns, or when `province.name` throws because the matched
      district's province is missing (by then `name` has been overwritten). */
  datatype Reconciliation = Resolved(fields: map<string, string>) | Thrown(fields: map<string, string>)

  function Reconcile(fields: map<string, string>, ds: seq<District>, ps: seq<Province>): (r: Reconciliation)
    ensures forall k :: k != NameKey && k != ProvinceKey ==> Lookup(r.fields, k) == Lookup(fields, k)
    ensures (forall i :: 0 <= i < |ds| ==> !Matches(ds[i], Label(fields))) ==> r == Resolved(fields)
    ensures r.Thrown? ==> exists i :: 0 <= i < |ds| && Matches(ds[i], Label(fields))
                                       && Lookup(r.fields, NameKey) == Some(ds[i].name)
                                       && forall k :: 0 <= k < |ps| ==> ps[k].number != ds[i].provinceNumber
  {
    match FirstMatch(ds, Label(fields))
    case None => Resolved(fields)
    case Some(i) =>
      var renamed := fields[NameKey := ds[i].name];
      match FindProvince(ps, ds[i].provinceNumber)
      case None => Thrown(renamed)
      case Some(p) => Resolved(renamed[ProvinceKey := p.name])
  }

  /** `addDistrictProvince(item)`: scans the districts in order, stops at the
      first match, overwrites `name` with the canonical name and sets
      `province`. `ok` is false when the source throws. */
  method AddDistrictProvince(item: JsObject, ds: seq<District>, ps: seq<Province>) returns (ok: bool)
    modifies item
    ensures Reconcile(old(item.fields), ds, ps) == if ok then Resolved(item.fields) else Thrown(item.fields)
  {
    var i := 0;
    while i < |ds|
      invariant 0 <= i <= |ds|
      invariant item.fields == old(item.fields)
      invariant forall j :: 0 <= j < i ==> !Matches(ds[j], Label(item.fields))
    {
      var d := ds[i];
      var given := Lower(Label(item.fields));
      if Lower(d.name) == given || given in LowerAll(d.alternateNames) {
        var province := FindProvince(ps, d.provinceNumber);
        item.fields := item.fields[NameKey := d.name];
        if province.None? {
          return false;
        }
        item.fields := item.fields[ProvinceKey := province.value.name];
        return true;
      }
      i := i + 1;
    }
    return true;
  }

  /** A given that matches a district, with no earlier district matching it,
      takes that district's canonical name and its province's name, whatever
      the letter case of the given or which of its names was used. */
  lemma ReconcileKnownLabel(fields: map<string, string>, ds: seq<District>, ps: seq<Province>, i: nat, p: Province)
    requires i < |ds| && Matches(ds[i], Label(fields))
    requires forall j :: 0 <= j < i ==> !Matches(ds[j], Label(fields))
    requires FindProvince(ps, ds[i].provinceNumber) == Some(p)
    ensures Reconcile(fields, ds, ps).Resolved?
    ensures Reconcile(fields, ds, ps).fields == fields[NameKey := ds[i].name][ProvinceKey := p.name]
  {
  }

  /** Any spelling of a district's canonical or alternate name, in any letter
      case, resolves to that district when no earlier district claims it. */
  lemma ReconcileAnySpelling(fields: map<string, string>, ds: seq<District>, ps: seq<Province>, i: nat, p: Province, spelling: string)
    requires i < |ds|
    requires spelling == ds[i].name || spelling in ds[i].alternateNames
    requires NameKey in fields && EqualIgnoringCase(fields[NameKey], spelling)
    requires forall j :: 0 <= j < i ==> !Matches(ds[j], Label(fields))
    requires FindProvince(ps, ds[i].provinceNumber) == Some(p)
    ensures Reconcile(fields, ds, ps) == Resolved(fields[NameKey := ds[i].name][ProvinceKey := p.name])
  {
    LowerEqualIff(fields[NameKey], spelling);
    if spelling != ds[i].name {
      var j :| 0 <= j < |ds[i].alternateNames| && ds[i].alternateNames[j] == spelling;
      assert LowerAll(ds[i].alternateNames)[j] == Lower(Label(fields));
    }
    ReconcileKnownLabel(fields, ds, ps, i, p);
  }

  /** An unknown given is a silent no-op: the record comes back unchanged and
      without a `province` unless it already had one. */
  lemma ReconcileUnknownLabel(fields: map<string, string>, ds: seq<District>, ps: seq<Province>)
    requires forall j :: 0 <= j < |ds| ==> !Matches(ds[j], Label(fields))
    ensures Reconcile(fields, ds, ps) == Resolved(fields)
  {
  }

  /** Matching ignores letter case: labels equal up to case are reconciled to
      the same canonical name and province. */
  lemma ReconcileIgnoresCase(f: map<string, string>, g: map<string, string>, ds: seq<District>, ps: seq<Province>)
    requires EqualIgnoringCase(Label(f), Label(g))
    ensures FirstMatch(ds, Label(f)) == FirstMatch(ds, Label(g))
    ensures FirstMatch(ds, Label(f)).Some? ==>
              && Reconcile(f, ds, ps).Resolved? == Reconcile(g, ds, ps).Resolved?
              && Lookup(Reconcile(f, ds, ps).fields, NameKey) == Lookup(Reconcile(g, ds, ps).fields, NameKey)
              && (Reconcile(f, ds, ps).Resolved? ==>
                    Lookup(Reconcile(f, ds, ps).fields, ProvinceKey) == Lookup(Reconcile(g, ds, ps).fields, ProvinceKey))
  {
    LowerEqualIff(Label(f), Label(g));
    assert forall d :: Matches(d, Label(f)) == Matches(d, Label(g));
    FirstMatchSameTests(ds, Label(f), Label(g), 0);
  }

  lemma {:induction false} FirstMatchSameTests(ds: seq<District>, a: string, b: string, from: nat)
    requires from <= |ds|
    requires forall d :: Matches(d, a) == Matches(d, b)
    ensures FirstMatchFrom(ds, a, from) == FirstMatchFrom(ds, b, from)
    decreases |ds| - from
  {
    if from < |ds| {
      FirstMatchSameTests(ds, a, b, from + 1);
    }
  }

  /** Reconciliation writes `name` and `province` only. */
  lemma ReconcileWritesOnlyNameAndProvince(fields: map<string, string>, ds: seq<District>, ps: seq<Province>, key: string)
    requires key != NameKey && key != ProvinceKey
    ensures Lookup(Reconcile(fields, ds, ps).fields, key) == Lookup(fields, key)
  {
  }

  /** Every district's province exists. */
  predicate ReferenceDataValid(ds: seq<District>, ps: seq<Province>) {
    forall i :: 0 <= i < |ds| ==> exists k :: 0 <= k < |ps| && ps[k].number == ds[i].provinceNumber
  }

  /** With consistent reference data reconciliation never throws. */
  lemma ReconcileNeverThrows(fields: map<string, string>, ds: seq<District>, ps: seq<Province>)
    requires ReferenceDataValid(ds, ps)
    ensures Reconcile(fields, ds, ps).Resolved?
  {
    var m := FirstMatch(ds, Label(fields));
    if m.Some? {
      var k :| 0 <= k < |ps| && ps[k].number == ds[m.value].provinceNumber;
      assert FindProvince(ps, ds[m.value].provinceNumber).Some?;
    }
  }

  // ---------------------------------------------------------------------
  // Normalisation (normalizeJson)
  // ---------------------------------------------------------------------

  /** One record after `addDistrictProvince` and `addDate`. */
  function Normalized(fields: map<string, string>, ds: seq<District>, ps: seq<Province>, now: string): map<string, string> {
    Reconcile(fields, ds, ps).fields[DateKey := CurrDate(now)]
  }

  predicate AnyThrown(raws: seq<map<string, string>>, ds: seq<District>, ps: seq<Province>) {
    exists i :: 0 <= i < |raws| && Reconcile(raws[i], ds, ps).Thrown?
  }

  /** The first record, in `Object.values` order, whose reconciliation throws. */
  function FirstThrown(raws: seq<map<string, string>>, ds: seq<District>, ps: seq<Province>): (r: Option<nat>)
    ensures r.Some? ==> r.value < |raws| && Reconcile(raws[r.value], ds, ps).Thrown?
    ensures r.Some? ==> forall j :: 0 <= j < r.value ==> Reconcile(raws[j], ds, ps).Resolved?
    ensures r.None? <==> !AnyThrown(raws, ds, ps)
  {
    FirstThrownFrom(raws, ds, ps, 0)
  }

  /** The first record from position `i` on whose reconciliation throws. */
  function FirstThrownFrom(raws: seq<map<string, string>>, ds: seq<District>, ps: seq<Province>, i: nat): (r: Option<nat>)
    requires i <= |raws|
    ensures r.Some? ==> i <= r.value < |raws| && Reconcile(raws[r.value], ds, ps).Thrown?
    ensures r.Some? ==> forall j :: i <= j < r.value ==> Reconcile(raws[j], ds, ps).Resolved?
    ensures r.None? ==> forall j :: i <= j < |raws| ==> Reconcile(raws[j], ds, ps).Resolved?
    decreases |raws| - i
  {
    if i == |raws| then None
    else if Reconcile(raws[i], ds, ps).Thrown? then Some(i)
    else FirstThrownFrom(raws, ds, ps, i + 1)
  }


  /** The criteria `_.sortBy(mapped, ['province_number', 'name'])` reads:
      `province_number` first, `name` second, each `undefined` when absent,
      and the record's position. */
  function CriteriaOf(fields: map<string, string>, index: nat): (c: Criteria)
    ensures c.first.Some? <==> ProvinceNumberKey in fields
    ensures c.second.Some? <==> NameKey in fields
    ensures c.first.Some? ==> c.first.value == fields[ProvinceNumberKey]
    ensures c.second.Some? ==> c.second.value == fields[NameKey]
    ensures c.index == index
  {
    Criteria(Lookup(fields, ProvinceNumberKey), Lookup(fields, NameKey), index)
  }

  function CriteriaSeq(fs: seq<map<string, string>>): (cs: seq<Criteria>)
    ensures |cs| == |fs|
    ensures Distinct(cs)
  {
    seq(|fs|, i requires 0 <= i < |fs| => CriteriaOf(fs[i], i))
  }

  /** Where each output position takes its record from: a permutation of the
      input positions, in sort order. */
  function SortOrder(fs: seq<map<string, string>>): (order: seq<nat>)
    ensures |order| == |fs|
    ensures forall k :: 0 <= k < |order| ==> order[k] < |fs|
    ensures forall k, l :: 0 <= k < l < |order| ==> order[k] != order[l]
    ensures forall k, l :: 0 <= k < l < |order| ==> Before(CriteriaOf(fs[order[k]], order[k]), CriteriaOf(fs[order[l]], order[l]))
  {
    var cs := CriteriaSeq(fs);
    var sorted := SortCriteria(cs);
    SortedComesFrom(fs, sorted);
    seq(|sorted|, k requires 0 <= k < |sorted| => sorted[k].index)
  }

  /** Each sorted criterion is the one recorded for the position it names, and
      no two name the same position. */
  lemma SortedComesFrom(fs: seq<map<string, string>>, sorted: seq<Criteria>)
    requires multiset(sorted) == multiset(CriteriaSeq(fs)) && Sorted(sorted)
    ensures |sorted| == |fs|
    ensures forall k :: 0 <= k < |sorted| ==> sorted[k].index < |fs| && sorted[k] == CriteriaOf(fs[sorted[k].index], sorted[k].index)
    ensures forall k, l :: 0 <= k < l < |sorted| ==> sorted[k].index != sorted[l].index
  {
    var cs := CriteriaSeq(fs);
    assert |sorted| == |multiset(sorted)| == |multiset(cs)| == |cs|;
    forall k | 0 <= k < |sorted|
      ensures sorted[k].index < |fs| && sorted[k] == CriteriaOf(fs[sorted[k].index], sorted[k].index)
    {
      assert sorted[k] in multiset(cs);
    }
    forall k, l | 0 <= k < l < |sorted|
      ensures sorted[k].index != sorted[l].index
    {
      assert sorted[k] != sorted[l];
    }
  }

  /** The whole of `normalizeJson` on property maps: `None` when reconciling
      some record throws, otherwise the stamped records in sorted order. */
  function NormalizeAll(raws: seq<map<string, string>>, ds: seq<District>, ps: seq<Province>, now: string): (r: Option<seq<map<string, string>>>)
    ensures r.None? <==> AnyThrown(raws, ds, ps)
    ensures r.Some? ==> |r.value| == |raws|
    ensures r.Some? ==> forall k :: 0 <= k < |r.value| ==> Lookup(r.value[k], DateKey) == Some(CurrDate(now))
  {
    if AnyThrown(raws, ds, ps) then None
    else
      var fs := seq(|raws|, i requires 0 <= i < |raws| => Normalized(raws[i], ds, ps, now));
      var order := SortOrder(fs);
      Some(seq(|fs|, k requires 0 <= k < |fs| => fs[order[k]]))
  }

  /** One output record per input record, each the normalised form of a
      distinct input record, all stamped with the same date. */
  lemma NormalizeAllIsPermutation(raws: seq<map<string, string>>, ds: seq<District>, ps: seq<Province>, now: string)
    requires !AnyThrown(raws, ds, ps)
    ensures NormalizeAll(raws, ds, ps, now).Some?
    ensures |NormalizeAll(raws, ds, ps, now).value| == |raws|
    ensures exists order: seq<nat> ::
              && |order| == |raws|
              && (forall k :: 0 <= k < |order| ==> order[k] < |raws|)
              && (forall k, l :: 0 <= k < l < |order| ==> order[k] != order[l])
              && (forall k :: 0 <= k < |order| ==> NormalizeAll(raws, ds, ps, now).value[k] == Normalized(raws[order[k]], ds, ps, now))
    ensures forall k :: 0 <= k < |raws| ==> NormalizeAll(raws, ds, ps, now).value[k][DateKey] == CurrDate(now)
  {
    var fs := seq(|raws|, i requires 0 <= i < |raws| => Normalized(raws[i], ds, ps, now));
    var order := SortOrder(fs);
    var out := NormalizeAll(raws, ds, ps, now).value;
    assert out == seq(|fs|, k requires 0 <= k < |fs| => fs[order[k]]);
    assert forall k :: 0 <= k < |order| ==> out[k] == Normalized(raws[order[k]], ds, ps, now);
    assert forall k :: 0 <= k < |raws| ==> out[k][DateKey] == CurrDate(now);
  }

  /** `NormalizeAll` fails exactly when some record's reconciliation throws. */
  lemma NormalizeAllFailsIff(raws: seq<map<string, string>>, ds: seq<District>, ps: seq<Province>, now: string)
    ensures NormalizeAll(raws, ds, ps, now).None? <==> exists i :: 0 <= i < |raws| && Reconcile(raws[i], ds, ps).Thrown?
  {
  }

  /** Neither reconciliation nor date stamping ever writes `province_number`. */
  lemma NormalizedKeepsProvinceNumber(fields: map<string, string>, ds: seq<District>, ps: seq<Province>, now: string)
    ensures Lookup(Normalized(fields, ds, ps, now), ProvinceNumberKey) == Lookup(fields, ProvinceNumberKey)
  {
  }

  /** Records that both lack `province_number` compare by name alone, with
      the original position breaking ties. */
  lemma BeforeWithoutProvinceNumber(f: map<string, string>, i: nat, g: map<string, string>, j: nat)
    requires ProvinceNumberKey !in f && ProvinceNumberKey !in g
    ensures Before(CriteriaOf(f, i), CriteriaOf(g, j)) <==>
              || ValueBefore(Lookup(f, NameKey), Lookup(g, NameKey))
              || (Lookup(f, NameKey) == Lookup(g, NameKey) && i < j)
  {
  }

  /** The ordering the code actually produces: since no record ever gets a
      `province_number`, the output is ascending by name (records without a
      name last) and stable among equal names. */
  lemma NormalizeAllSortedByName(raws: seq<map<string, string>>, ds: seq<District>, ps: seq<Province>, now: string)
    requires !AnyThrown(raws, ds, ps)
    requires forall i :: 0 <= i < |raws| ==> ProvinceNumberKey !in raws[i]
    ensures NormalizeAll(raws, ds, ps, now).Some?
    ensures var out := NormalizeAll(raws, ds, ps, now).value;
            forall k, l :: 0 <= k < l < |out| ==>
              || ValueBefore(Lookup(out[k], NameKey), Lookup(out[l], NameKey))
              || Lookup(out[k], NameKey) == Lookup(out[l], NameKey)
  {
    var fs := seq(|raws|, i requires 0 <= i < |raws| => Normalized(raws[i], ds, ps, now));
    var order := SortOrder(fs);
    var out := NormalizeAll(raws, ds, ps, now).value;
    forall k, l | 0 <= k < l < |out|
      ensures || ValueBefore(Lookup(out[k], NameKey), Lookup(out[l], NameKey))
              || Lookup(out[k], NameKey) == Lookup(out[l], NameKey)
    {
      NormalizedKeepsProvinceNumber(raws[order[k]], ds, ps, now);
      NormalizedKeepsProvinceNumber(raws[order[l]], ds, ps, now);
      BeforeWithoutProvinceNumber(fs[order[k]], order[k], fs[order[l]], order[l]);
    }
  }

  /** Stability: two output records with the same name keep their input order. */
  lemma NormalizeAllStable(raws: seq<map<string, string>>, ds: seq<District>, ps: seq<Province>, now: string, k: nat, l: nat)
    requires !AnyThrown(raws, ds, ps)
    requires forall i :: 0 <= i < |raws| ==> ProvinceNumberKey !in raws[i]
    requires k < l < |raws|
    ensures NormalizeAll(raws, ds, ps, now).Some?
    ensures var fs := seq(|raws|, i requires 0 <= i < |raws| => Normalized(raws[i], ds, ps, now));
            var order := SortOrder(fs);
            Lookup(fs[order[k]], NameKey) == Lookup(fs[order[l]], NameKey) ==> order[k] < order[l]
  {
    var fs := seq(|raws|, i requires 0 <= i < |raws| => Normalized(raws[i], ds, ps, now));
    var order := SortOrder(fs);
    NormalizedKeepsProvinceNumber(raws[order[k]], ds, ps, now);
    NormalizedKeepsProvinceNumber(raws[order[l]], ds, ps, now);
    BeforeWithoutProvinceNumber(fs[order[k]], order[k], fs[order[l]], order[l]);
    if Lookup(fs[order[k]], NameKey) == Lookup(fs[order[l]], NameKey) {
      assert !ValueBefore(Lookup(fs[order[k]], NameKey), Lookup(fs[order[l]], NameKey));
    }
  }

  /** Of two records, the one whose name sorts first is written first. */
  lemma TwoRecordsByName(raws: seq<map<string, string>>, ds: seq<District>, ps: seq<Province>, now: string)
    requires |raws| == 2 && !AnyThrown(raws, ds, ps)
    requires ProvinceNumberKey !in raws[0] && ProvinceNumberKey !in raws[1]
    requires ValueBefore(Lookup(Normalized(raws[1], ds, ps, now), NameKey), Lookup(Normalized(raws[0], ds, ps, now), NameKey))
    ensures NormalizeAll(raws, ds, ps, now).Some?
    ensures NormalizeAll(raws, ds, ps, now).value == [Normalized(raws[1], ds, ps, now), Normalized(raws[0], ds, ps, now)]
  {
    var fs := seq(|raws|, i requires 0 <= i < |raws| => Normalized(raws[i], ds, ps, now));
    var order := SortOrder(fs);
    var n0, n1 := Lookup(fs[0], NameKey), Lookup(fs[1], NameKey);
    NormalizedKeepsProvinceNumber(raws[0], ds, ps, now);
    NormalizedKeepsProvinceNumber(raws[1], ds, ps, now);
    assert !ValueBefore(n1, n1);
    if order[0] == 0 {
      assert order[1] == 1;
      assert Before(CriteriaOf(fs[0], 0), CriteriaOf(fs[1], 1));
      assert ValueBefore(n0, n1) || n0 == n1;
      if ValueBefore(n0, n1) {
        ValueBeforeTransitive(n1, n0, n1);
      }
      assert false;
    }
    assert order[0] == 1 && order[1] == 0;
    assert order == [1, 0];
  }

  /** Two districts of different provinces come out in name order, not
      province order: Bara (province 2) is written before Bhojpur
      (province 1), although the page lists Bhojpur first. */
  lemma ProvinceNumberIgnoredExample(ds: seq<District>, ps: seq<Province>, raws: seq<map<string, string>>, now: string)
    requires ds == [District("Bhojpur", [], 1), District("Bara", [], 2)]
    requires ps == [Province(1, "Province 1"), Province(2, "Province 2")]
    requires raws == [map[NameKey := "bhojpur"], map[NameKey := "BARA"]]
    ensures !AnyThrown(raws, ds, ps)
    ensures NormalizeAll(raws, ds, ps, now).Some?
    ensures NormalizeAll(raws, ds, ps, now).value == [Normalized(raws[1], ds, ps, now), Normalized(raws[0], ds, ps, now)]
  {
    ExampleReconciles(ds, ps, raws);
    assert !AnyThrown(raws, ds, ps);
    var n0, n1 := Normalized(raws[0], ds, ps, now), Normalized(raws[1], ds, ps, now);
    assert Lookup(n0, NameKey) == Some("Bhojpur") by {
      assert n0 == raws[0][NameKey := "Bhojpur"][ProvinceKey := "Province 1"][DateKey := CurrDate(now)];
    }
    assert Lookup(n1, NameKey) == Some("Bara") by {
      assert n1 == raws[1][NameKey := "Bara"][ProvinceKey := "Province 2"][DateKey := CurrDate(now)];
    }
    BaraBeforeBhojpur();
    TwoRecordsByName(raws, ds, ps, now);
  }

  /** "Bara" sorts before "Bhojpur": they differ first at 'a' < 'h'. */
  lemma BaraBeforeBhojpur()
    ensures ValueBefore(Some("Bara"), Some("Bhojpur"))
  {
    assert "Bara"[1..] == "ara" && "Bhojpur"[1..] == "hojpur";
  }

  lemma ExampleReconciles(ds: seq<District>, ps: seq<Province>, raws: seq<map<string, string>>)
    requires ds == [District("Bhojpur", [], 1), District("Bara", [], 2)]
    requires ps == [Province(1, "Province 1"), Province(2, "Province 2")]
    requires raws == [map[NameKey := "bhojpur"], map[NameKey := "BARA"]]
    ensures Reconcile(raws[0], ds, ps) == Resolved(raws[0][NameKey := "Bhojpur"][ProvinceKey := "Province 1"])
    ensures Reconcile(raws[1], ds, ps) == Resolved(raws[1][NameKey := "Bara"][ProvinceKey := "Province 2"])
  {
    assert Label(raws[0]) == "bhojpur" && Label(raws[1]) == "BARA";
    assert Lower("Bhojpur") == "bhojpur" == Lower("bhojpur");
    assert Lower("Bara") == "bara" == Lower("BARA");
    assert FindProvince(ps, 1) == Some(ps[0]);
    assert FindProvince(ps, 2) == Some(ps[1]);
    ReconcileKnownLabel(raws[0], ds, ps, 0, ps[0]);
    assert !Matches(ds[0], Label(raws[1]));
    ReconcileKnownLabel(raws[1], ds, ps, 1, ps[1]);
  }

  /** `normalizeJson(rawJson)`: reconciles every record, then stamps every
      record, then sorts; the records are the caller's objects, updated in
      place, and the result lists those same objects. `None` stands for the
      exception a missing province raises (records reconciled before it stay
      updated). */
  method NormalizeJson(records: seq<JsObject>, ds: seq<District>, ps: seq<Province>, now: string)
    returns (sorted: Option<seq<JsObject>>)
    requires forall i, j :: 0 <= i < j < |records| ==> records[i] != records[j]
    modifies set r | r in records
    ensures sorted.None? <==> AnyThrown(old(FieldsOf(records)), ds, ps)
    ensures sorted.None? ==>
              var k := FirstThrown(old(FieldsOf(records)), ds, ps).value;
              forall j :: 0 <= j < |records| ==>
                records[j].fields == if j <= k then Reconcile(old(records[j].fields), ds, ps).fields else old(records[j].fields)
    ensures sorted.Some? ==> forall i :: 0 <= i < |records| ==> records[i].fields == Normalized(old(records[i].fields), ds, ps, now)
    ensures sorted.Some? ==> |sorted.value| == |records|
    ensures sorted.Some? ==> forall k :: 0 <= k < |records| ==> sorted.value[k] == records[SortOrder(FieldsOf(records))[k]]
    ensures sorted.Some? ==> Some(FieldsOf(sorted.value)) == NormalizeAll(old(FieldsOf(records)), ds, ps, now)
  {
    ghost var raws := FieldsOf(records);
    var ok := AddDistrictProvinces(records, ds, ps);
    if !ok {
      return None;
    }
    AddDates(records, now);
    // _.sortBy(mapped, ['province_number', 'name'])
    var fields := FieldsOf(records);
    var order := SortOrder(fields);
    var result := seq(|order|, k requires 0 <= k < |order| => records[order[k]]);
    assert fields == seq(|raws|, j requires 0 <= j < |raws| => Normalized(raws[j], ds, ps, now));
    assert FieldsOf(result) == seq(|fields|, k requires 0 <= k < |fields| => fields[order[k]]);
    sorted := Some(result);
  }

  /** `.map(addDistrictProvince)`: reconciles the records in order, in place,
      and stops at the first that throws. */
  method AddDistrictProvinces(records: seq<JsObject>, ds: seq<District>, ps: seq<Province>) returns (ok: bool)
    requires forall i, j :: 0 <= i < j < |records| ==> records[i] != records[j]
    modifies set r | r in records
    ensures ok <==> !AnyThrown(old(FieldsOf(records)), ds, ps)
    ensures !ok ==>
              var k := FirstThrown(old(FieldsOf(records)), ds, ps).value;
              forall j :: 0 <= j < |records| ==>
                records[j].fields == if j <= k then Reconcile(old(records[j].fields), ds, ps).fields else old(records[j].fields)
    ensures ok ==> forall j :: 0 <= j < |records| ==> Reconcile(old(records[j].fields), ds, ps) == Resolved(records[j].fields)
  {
    ghost var raws := FieldsOf(records);
    var i := 0;
    while i < |records|
      invariant 0 <= i <= |records|
      invariant forall j :: 0 <= j < i ==> Reconcile(raws[j], ds, ps) == Resolved(records[j].fields)
      invariant forall j :: i <= j < |records| ==> records[j].fields == raws[j]
    {
      ok := AddDistrictProvince(records[i], ds, ps);
      if !ok {
        assert Reconcile(raws[i], ds, ps) == Thrown(records[i].fields);
        assert FirstThrown(raws, ds, ps) == Some(i) by {
          var f := FirstThrown(raws, ds, ps);
          assert f.Some? && f.value <= i;
        }
        return;
      }
      i := i + 1;
    }
    assert !AnyThrown(raws, ds, ps);
    ok := true;
  }

  /** `.map(addDate)`: stamps every record in place with the same date. */
  method AddDates(records: seq<JsObject>, now: string)
    requires forall i, j :: 0 <= i < j < |records| ==> records[i] != records[j]
    modifies set r | r in records
    ensures forall j :: 0 <= j < |records| ==> records[j].fields == old(records[j].fields)[DateKey := CurrDate(now)]
  {
    var i := 0;
    while i < |records|
      invariant 0 <= i <= |records|
      invariant forall j :: 0 <= j < i ==> records[j].fields == old(records[j].fields)[DateKey := CurrDate(now)]
      invariant forall j :: i <= j < |records| ==> records[j].fields == old(records[j].fields)
    {
      var _ := AddDate(records[i], now);
      i := i + 1;
    }
  }

  // ---------------------------------------------------------------------
  // Output (appendDistrictAggregateCsv, appendDistinctDistrictCsv)
  // ---------------------------------------------------------------------

  /** One record as a CSV line with the district columns. */
  function DistrictRow(fields: map<string, string>): string {
    Row(fields, DistrictCsvFields)
  }

  /** A district row has at least as many comma-separated pieces as columns. */
  lemma DistrictRowPieces(fields: map<string, string>)
    ensures |Split(DistrictRow(fields), ',')| >= |DistrictCsvFields|
  {
    SplitJoinPrefix(Cells(fields, DistrictCsvFields), ',', 0);
  }

  /** `name.toLocaleLowerCase().replace(/ /g, '-')`, letters taken as ASCII:
      a space becomes `-`, an upper-case letter its lower-case letter, and
      every other character is kept. */
  function Slug(name: string): (r: string)
    ensures |r| == |name|
    ensures forall i :: 0 <= i < |name| && name[i] == ' ' ==> r[i] == '-'
    ensures forall i :: 0 <= i < |name| && IsUpper(name[i]) ==> r[i] as int == name[i] as int + 32
    ensures forall i :: 0 <= i < |name| && name[i] != ' ' && !IsUpper(name[i]) ==> r[i] == name[i]
  {
    ReplaceAll(Lower(name), ' ', '-')
  }

  /** district-csv.js:115-118: field 2 of the comma-split row, quotes removed,
      lower-cased, spaces turned into hyphens, plus `.csv`. */
  function DistinctFileName(row: string): (r: string)
    requires |Split(row, ',')| > 2
    ensures |r| >= 4 && r[|r| - 4..] == ".csv"
    ensures ' ' !in r && '"' !in r && ',' !in r
  {
    SplitPieces(row, ',');
    var piece := Split(row, ',')[2];
    var name := Remove(piece, '"');
    assert multiset(name)[','] == multiset(piece)[','] == 0;
    SlugAddsNoSpaceQuoteOrComma(name);
    Slug(name) + ".csv"
  }

  /** A slug holds no space, and a quote or comma only where the name had one. */
  lemma SlugAddsNoSpaceQuoteOrComma(name: string)
    ensures ' ' !in Slug(name)
    ensures '"' in Slug(name) ==> '"' in name
    ensures ',' in Slug(name) ==> ',' in name
  {
    var slug := Slug(name);
    forall i | 0 <= i < |slug|
      ensures slug[i] != ' '
      ensures slug[i] == '"' ==> name[i] == '"'
      ensures slug[i] == ',' ==> name[i] == ','
    {
    }
  }

  function DistinctPath(fields: map<string, string>): string {
    DistrictRowPieces(fields);
    DistinctDirectory + DistinctFileName(DistrictRow(fields))
  }

  /** When the date, province and name hold no comma and the name no quote,
      the per-district file is named after the record's (canonical) name. */
  lemma DistinctFileNameIsNameSlug(fields: map<string, string>)
    requires forall k :: 0 <= k < 3 ==> ',' !in Cell(fields, DistrictCsvFields[k])
    requires '"' !in Cell(fields, NameKey)
    ensures |Split(DistrictRow(fields), ',')| > 2
    ensures DistinctFileName(DistrictRow(fields)) == Slug(Cell(fields, NameKey)) + ".csv"
  {
    SplitJoinPrefix(Cells(fields, DistrictCsvFields), ',', 3);
    RemoveAbsent(Cell(fields, NameKey), '"');
  }

  /** Records whose names differ only in letter case or in spaces versus
      hyphens share one per-district file. */
  lemma SameSlugSameFile(f: map<string, string>, g: map<string, string>)
    requires forall k :: 0 <= k < 3 ==> ',' !in Cell(f, DistrictCsvFields[k]) && ',' !in Cell(g, DistrictCsvFields[k])
    requires '"' !in Cell(f, NameKey) && '"' !in Cell(g, NameKey)
    requires Slug(Cell(f, NameKey)) == Slug(Cell(g, NameKey))
    ensures DistinctPath(f) == DistinctPath(g)
  {
    DistinctFileNameIsNameSlug(f);
    DistinctFileNameIsNameSlug(g);
  }

  /** The success line logged for a per-district append names the district's
      file, e.g. `kathmandu.csv`, without its directory. */
  lemma DistinctAppendLogsFileName(fields: map<string, string>, unwritable: set<string>)
    requires forall k :: 0 <= k < 3 ==> ',' !in Cell(fields, DistrictCsvFields[k])
    requires '"' !in Cell(fields, NameKey) && '/' !in Cell(fields, NameKey)
    requires DistinctPath(fields) !in unwritable
    ensures LogOf(unwritable, Append(DistinctPath(fields), DistrictRow(fields))) == Info(AppendedPrefix + (Slug(Cell(fields, NameKey)) + ".csv"))
  {
    var file := Slug(Cell(fields, NameKey)) + ".csv";
    DistinctPathOfName(fields);
    LastSegmentOfJoinedPath(DistinctDirectory, file);
  }

  /** The per-district path is the directory and the slug file name, which
      holds no `/` when the name holds none. */
  lemma DistinctPathOfName(fields: map<string, string>)
    requires forall k :: 0 <= k < 3 ==> ',' !in Cell(fields, DistrictCsvFields[k])
    requires '"' !in Cell(fields, NameKey) && '/' !in Cell(fields, NameKey)
    ensures DistinctPath(fields) == DistinctDirectory + (Slug(Cell(fields, NameKey)) + ".csv")
    ensures '/' !in Slug(Cell(fields, NameKey)) + ".csv"
  {
    DistinctFileNameIsNameSlug(fields);
    SlugKeepsSlashOut(Cell(fields, NameKey));
  }

  lemma SlugKeepsSlashOut(name: string)
    requires '/' !in name
    ensures '/' !in Slug(name) + ".csv"
  {
    var slug := Slug(name);
    forall i | 0 <= i < |slug|
      ensures slug[i] != '/'
    {
      assert Lower(name)[i] == LowerChar(name[i]);
    }
  }

  function AggregateAppend(fs: seq<map<string, string>>): Append {
    Append(AggregatePath, Rows(fs, DistrictCsvFields))
  }

  /** The append for one district: its row, to its own file. */
  function DistinctAppend(fields: map<string, string>): Append {
    Append(DistinctPath(fields), DistrictRow(fields))
  }

  function DistinctAppends(fs: seq<map<string, string>>): (r: seq<Append>)
    ensures |r| == |fs|
  {
    seq(|fs|, i requires 0 <= i < |fs| => DistinctAppend(fs[i]))
  }

  /** Everything `appendDataToCsv` writes, in call order: the aggregate file
      first, then one line per district file. */
  function OutputAppends(fs: seq<map<string, string>>): (r: seq<Append>)
    ensures |r| == |fs| + 1
  {
    [AggregateAppend(fs)] + DistinctAppends(fs)
  }

  /** `appendDistrictAggregateCsv`: all rows in one append. */
  method AppendDistrictAggregateCsv(store: FileStore, normalized: seq<map<string, string>>)
    modifies store
    ensures store.files == Applied(old(store.files), store.unwritable, AggregateAppend(normalized))
    ensures store.log == old(store.log) + [LogOf(store.unwritable, AggregateAppend(normalized))]
  {
    var aggregateCsv := Rows(normalized, DistrictCsvFields);
    var _ := store.AppendToCsv(aggregateCsv, AggregatePath);
  }

  /** `appendDistinctDistrictCsv`: one append per record, to the file named
      after field 2 of its row. */
  method AppendDistinctDistrictCsv(store: FileStore, normalized: seq<map<string, string>>)
    modifies store
    ensures store.files == AppliedAll(old(store.files), store.unwritable, DistinctAppends(normalized))
    ensures store.log == old(store.log) + LogsOf(store.unwritable, DistinctAppends(normalized))
  {
    ghost var appends := DistinctAppends(normalized);
    var i := 0;
    while i < |normalized|
      invariant 0 <= i <= |normalized|
      invariant store.files == AppliedAll(old(store.files), store.unwritable, appends[..i])
      invariant store.log == old(store.log) + LogsOf(store.unwritable, appends[..i])
    {
      AppendDistinct(store, normalized[i]);
      TakeOneMore(appends, i);
      AppliedAllSnoc(old(store.files), store.unwritable, appends[..i], appends[i]);
      LogExtended(old(store.log), LogsOf(store.unwritable, appends[..i]), [LogOf(store.unwritable, appends[i])]);
      i := i + 1;
    }
    assert appends[..i] == appends;
  }

  /** One pass of `appendDistinctDistrictCsv`'s loop: the row goes to the file
      named after field 2 of the row. */
  method AppendDistinct(store: FileStore, fields: map<string, string>)
    modifies store
    ensures store.files == Applied(old(store.files), store.unwritable, DistinctAppend(fields))
    ensures store.log == old(store.log) + [LogOf(store.unwritable, DistinctAppend(fields))]
  {
    var distinctCsv := DistrictRow(fields);
    DistrictRowPieces(fields);
    var normalizedDistrictName := Remove(Split(distinctCsv, ',')[2], '"');
    var filename := Slug(normalizedDistrictName) + ".csv";
    var filepath := DistinctDirectory + filename;
    var _ := store.AppendToCsv(distinctCsv, filepath);
  }

  /** `appendDataToCsv(json)`: normalise, then the aggregate file, then one
      append per district. `false` when normalisation throws, in which case
      nothing is written. */
  method AppendDataToCsv(store: FileStore, records: seq<JsObject>, ds: seq<District>, ps: seq<Province>, now: string)
    returns (ok: bool)
    requires forall i, j :: 0 <= i < j < |records| ==> records[i] != records[j]
    modifies store, set r | r in records
    ensures ok <==> !AnyThrown(old(FieldsOf(records)), ds, ps)
    ensures !ok ==>
              var k := FirstThrown(old(FieldsOf(records)), ds, ps).value;
              forall j :: 0 <= j < |records| ==>
                records[j].fields == if j <= k then Reconcile(old(records[j].fields), ds, ps).fields else old(records[j].fields)
    ensures ok ==> forall i :: 0 <= i < |records| ==> records[i].fields == Normalized(old(records[i].fields), ds, ps, now)
    ensures !ok ==> store.files == old(store.files) && store.log == old(store.log)
    ensures ok ==> NormalizeAll(old(FieldsOf(records)), ds, ps, now).Some?
    ensures ok ==> store.files == AppliedAll(old(store.files), store.unwritable, OutputAppends(NormalizeAll(old(FieldsOf(records)), ds, ps, now).value))
    ensures ok ==> store.log == old(store.log) + LogsOf(store.unwritable, OutputAppends(NormalizeAll(old(FieldsOf(records)), ds, ps, now).value))
  {
    ghost var raws := FieldsOf(records);
    var normalizedJson := NormalizeJson(records, ds, ps, now);
    if normalizedJson.None? {
      return false;
    }
    var out := FieldsOf(normalizedJson.value);
    assert NormalizeAll(raws, ds, ps, now) == Some(out);
    AppendNormalized(store, out);
    ok := true;
  }

  /** The two appends of `appendDataToCsv`, aggregate file first. */
  method AppendNormalized(store: FileStore, normalized: seq<map<string, string>>)
    modifies store
    ensures store.files == AppliedAll(old(store.files), store.unwritable, OutputAppends(normalized))
    ensures store.log == old(store.log) + LogsOf(store.unwritable, OutputAppends(normalized))
  {
    ghost var files0, log0 := store.files, store.log;
    ghost var aggregate, distinct := AggregateAppend(normalized), DistinctAppends(normalized);
    AppendDistrictAggregateCsv(store, normalized);
    ghost var log1 := store.log;
    AppendDistinctDistrictCsv(store, normalized);
    AppliedAllCons(files0, store.unwritable, aggregate, distinct);
    assert OutputAppends(normalized) == [aggregate] + distinct;
    LogExtended(log0, [LogOf(store.unwritable, aggregate)], LogsOf(store.unwritable, distinct));
  }
}
