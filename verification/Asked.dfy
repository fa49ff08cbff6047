/** What an accepted request holds, told from the keys and values of the query string. */
module Asked {
  import opened Text
  import opened Values
  import opened Params
  import opened QueryFile
  import opened FilterScan
  import opened Filters
  import opened Wrapper
  import opened Body
  import opened Input

  // ----- filters -----

  /** A key that is neither a parameter nor one of the four options; each of its values is a filter. */
  predicate IsFilterKey(q: Query, key: string) {
    key !in q.byName && key != "select" && key != "order" && key != "limit" && key != "offset"
  }

  /** The filters that the values of one key stand for, one each, as far as they parse. */
  function SpecBag(key: string, specs: seq<string>, columns: set<string>): multiset<Filter> {
    if specs == [] then multiset{}
    else
      match FilterOf(key, specs[0], columns)
      case Success(f) => multiset{f} + SpecBag(key, specs[1..], columns)
      case Failure(_) => SpecBag(key, specs[1..], columns)
  }

  /** Those of all keys. */
  function AskedBag(q: Query, entries: seq<Entry>): multiset<Filter> {
    if entries == [] then multiset{}
    else
      (if IsFilterKey(q, entries[0].key) then SpecBag(entries[0].key, entries[0].values, q.columns) else multiset{})
      + AskedBag(q, entries[1..])
  }

  /** The filters of one key: each spec's, in order, or the failure of one. */
  lemma {:induction false} FiltersOfIs(key: string, specs: seq<string>, columns: set<string>)
    ensures FiltersOf(key, specs, columns).Success? <==>
            forall k :: 0 <= k < |specs| ==> FilterOf(key, specs[k], columns).Success?
    ensures FiltersOf(key, specs, columns).Success? ==>
              var fs := FiltersOf(key, specs, columns).value;
              && |fs| == |specs| && multiset(fs) == SpecBag(key, specs, columns)
              && forall k :: 0 <= k < |specs| ==> FilterOf(key, specs[k], columns) == Success(fs[k])
  {
    if specs != [] {
      FiltersOfIs(key, specs[1..], columns);
      if FiltersOf(key, specs, columns).Success? {
        var f, rest := FilterOf(key, specs[0], columns).value, FiltersOf(key, specs[1..], columns).value;
        assert FiltersOf(key, specs, columns).value == [f] + rest;
        assert multiset([f] + rest) == multiset{f} + multiset(rest);
      }
      assert forall k :: 1 <= k < |specs| ==> specs[k] == specs[1..][k - 1];
    }
  }

  lemma RoleIs(key: string)
    ensures RoleOf(key) == FilterRole <==> key != "select" && key != "order" && key != "limit" && key != "offset"
    ensures RoleOf("select") == SelectRole && RoleOf("order") == OrderRole
    ensures RoleOf("limit") == LimitRole && RoleOf("offset") == OffsetRole
  {
  }

  lemma FilterEffect(q: Query, body: map<string, Val>, conv: Strconv, e: Entry)
    requires IsFilterKey(q, e.key) && e.values != []
    ensures EffectOf(q, body, conv, e) == match FiltersOf(e.key, e.values, q.columns)
                                          case Failure(bad) => Reject(bad)
                                          case Success(fs) => AddFilters(fs)
  {
    RoleIs(e.key);
  }

  lemma OtherEffect(q: Query, body: map<string, Val>, conv: Strconv, e: Entry)
    requires !IsFilterKey(q, e.key) || e.values == []
    ensures !EffectOf(q, body, conv, e).AddFilters?
  {
    RoleIs(e.key);
  }

  lemma {:induction false} BagOfEffects(q: Query, body: map<string, Val>, conv: Strconv, entries: seq<Entry>)
    requires forall x :: x in Effects(q, body, conv, entries) ==> !x.Reject?
    ensures FilterBag(Effects(q, body, conv, entries)) == AskedBag(q, entries)
  {
    if entries != [] {
      var e, effects := entries[0], Effects(q, body, conv, entries);
      assert effects[1..] == Effects(q, body, conv, entries[1..]) && effects[0] in effects;
      BagOfEffects(q, body, conv, entries[1..]);
      if IsFilterKey(q, e.key) && e.values != [] {
        FilterEffect(q, body, conv, e);
        FiltersOfIs(e.key, e.values, q.columns);
      } else {
        OtherEffect(q, body, conv, e);
      }
    }
  }

  lemma AcceptedEffects(q: Query, body: map<string, Val>, conv: Strconv, entries: seq<Entry>)
    requires DistinctKeys(entries) && RequestOf(q, body, conv, entries).Success?
    ensures forall e :: e in entries ==> !EffectOf(q, body, conv, e).Reject?
    ensures forall x :: x in Effects(q, body, conv, entries) ==> !x.Reject?
  {
    EffectsDistinct(q, body, conv, entries);
    GatherIs(Input.Start(body), Effects(q, body, conv, entries));
    forall e | e in entries
      ensures !EffectOf(q, body, conv, e).Reject?
    {
      var k :| 0 <= k < |entries| && entries[k] == e;
      assert Effects(q, body, conv, entries)[k] in Effects(q, body, conv, entries);
    }
  }

  /** The filters of an accepted request are exactly those of all values of all filter keys, each of
      which parses. */
  lemma FiltersAsked(q: Query, body: map<string, Val>, conv: Strconv, entries: seq<Entry>)
    requires DistinctKeys(entries) && RequestOf(q, body, conv, entries).Success?
    ensures multiset(RequestOf(q, body, conv, entries).value.opts.filters) == AskedBag(q, entries)
    ensures forall e, k :: e in entries && IsFilterKey(q, e.key) && 0 <= k < |e.values| ==>
                             FilterOf(e.key, e.values[k], q.columns).Success?
  {
    AcceptedEffects(q, body, conv, entries);
    EffectsDistinct(q, body, conv, entries);
    GatherIs(Input.Start(body), Effects(q, body, conv, entries));
    BagOfEffects(q, body, conv, entries);
    forall e, k | e in entries && IsFilterKey(q, e.key) && 0 <= k < |e.values|
      ensures FilterOf(e.key, e.values[k], q.columns).Success?
    {
      FilterEffect(q, body, conv, e);
      FiltersOfIs(e.key, e.values, q.columns);
    }
  }

  function Specs(fs: seq<Filter>): (r: seq<string>)
    requires forall k :: 0 <= k < |fs| ==> Filters.WellFormed(fs[k])
    ensures |r| == |fs| && forall k :: 0 <= k < |r| ==> r[k] == PrintFilter(fs[k])
  {
    seq(|fs|, k requires 0 <= k < |fs| => PrintFilter(fs[k]))
  }

  /** A client that writes filters on one column gets exactly those, in order. */
  lemma FiltersWritten(q: Query, body: map<string, Val>, conv: Strconv, column: string, fs: seq<Filter>)
    requires IsFilterKey(q, column) && ColumnKnown(column, q.columns) && fs != []
    requires forall k :: 0 <= k < |fs| ==> Filters.WellFormed(fs[k]) && fs[k].column == column
    ensures RequestOf(q, body, conv, [Entry(column, Specs(fs))]) == Success(Request(body, Options([], fs, [], 0, 0, false)))
  {
    var e := Entry(column, Specs(fs));
    forall k | 0 <= k < |fs|
      ensures FilterOf(column, e.values[k], q.columns) == Success(fs[k])
    {
      FilterRoundTrip(fs[k], q.columns);
    }
    FiltersOfIs(column, e.values, q.columns);
    assert FiltersOf(column, e.values, q.columns).value == fs;
    FilterEffect(q, body, conv, e);
    assert Effects(q, body, conv, [e]) == [AddFilters(fs)];
    OneFilterEffect(Input.Start(body), fs);
  }

  lemma OneFilterEffect(r: Request, fs: seq<Filter>)
    requires r.opts.filters == []
    ensures Gather(r, [AddFilters(fs)]) == Success(r.(opts := r.opts.(filters := fs)))
  {
    assert [AddFilters(fs)][1..] == [] && [] + fs == fs;
  }

  // ----- the four options -----

  /** The query string has that option, and no parameter takes its key. */
  predicate Has(q: Query, e: Entry, key: string) {
    e.key == key && e.values != [] && key !in q.byName
  }

  predicate HasNone(q: Query, entries: seq<Entry>, key: string) {
    forall e :: e in entries ==> !Has(q, e, key)
  }

  /** A slot that no key settles keeps what it started with; one that a key settles holds that. */
  lemma SettledIs(q: Query, body: map<string, Val>, conv: Strconv, entries: seq<Entry>, e: Entry)
    requires DistinctKeys(entries) && RequestOf(q, body, conv, entries).Success? && e in entries
    ensures var x := EffectOf(q, body, conv, e);
            x.Settle? ==> InForce(RequestOf(q, body, conv, entries).value, SlotOf(x.setting)) == Some(x.setting)
  {
    EffectsDistinct(q, body, conv, entries);
    GatherIs(Input.Start(body), Effects(q, body, conv, entries));
    var k :| 0 <= k < |entries| && entries[k] == e;
    assert Effects(q, body, conv, entries)[k] in Effects(q, body, conv, entries);
  }

  lemma UnsettledIs(q: Query, body: map<string, Val>, conv: Strconv, entries: seq<Entry>, slot: Slot)
    requires DistinctKeys(entries) && RequestOf(q, body, conv, entries).Success?
    requires !slot.ParamSlot? && HasNone(q, entries, SlotKey(slot))
    ensures InForce(RequestOf(q, body, conv, entries).value, slot) == InForce(Input.Start(body), slot)
    ensures CleanLimit(RequestOf(q, body, conv, entries).value)
  {
    var effects := Effects(q, body, conv, entries);
    EffectsDistinct(q, body, conv, entries);
    GatherIs(Input.Start(body), effects);
    forall x | x in effects && x.Settle?
      ensures SlotOf(x.setting) != slot
    {
      var k :| 0 <= k < |effects| && effects[k] == x;
      EffectKey(q, body, conv, entries[k]);
      BindsWhatItSupplies(q, body, conv, entries[k]);
      assert entries[k] in entries;
      assert !Has(q, entries[k], SlotKey(slot));
    }
  }

  lemma CountEffect(q: Query, body: map<string, Val>, conv: Strconv, e: Entry)
    requires (Has(q, e, "limit") || Has(q, e, "offset")) && !EffectOf(q, body, conv, e).Reject?
    ensures var n := ParseInt(e.values[0]);
            && n.Some? && n.value >= 0
            && EffectOf(q, body, conv, e) == Settle(if e.key == "limit" then LimitTo(n.value) else OffsetTo(n.value))
  {
    RoleIs(e.key);
  }

  /** `limit` is the number its first value is written as. */
  lemma LimitAsked(q: Query, body: map<string, Val>, conv: Strconv, entries: seq<Entry>)
    requires DistinctKeys(entries) && RequestOf(q, body, conv, entries).Success?
    ensures var o := RequestOf(q, body, conv, entries).value.opts;
            && (forall e :: e in entries && Has(q, e, "limit") ==>
                  o.hasLim && ParseInt(e.values[0]) == Some(o.limit) && o.limit >= 0)
            && (HasNone(q, entries, "limit") ==> !o.hasLim && o.limit == 0)
  {
    AcceptedEffects(q, body, conv, entries);
    forall e | e in entries && Has(q, e, "limit")
      ensures var o := RequestOf(q, body, conv, entries).value.opts;
              o.hasLim && ParseInt(e.values[0]) == Some(o.limit) && o.limit >= 0
    {
      CountEffect(q, body, conv, e);
      SettledIs(q, body, conv, entries, e);
    }
    if HasNone(q, entries, "limit") {
      UnsettledIs(q, body, conv, entries, LimitSlot);
    }
  }

  /** And so is `offset`. */
  lemma OffsetAsked(q: Query, body: map<string, Val>, conv: Strconv, entries: seq<Entry>)
    requires DistinctKeys(entries) && RequestOf(q, body, conv, entries).Success?
    ensures var o := RequestOf(q, body, conv, entries).value.opts;
            && (forall e :: e in entries && Has(q, e, "offset") ==> ParseInt(e.values[0]) == Some(o.offset) && o.offset >= 0)
            && (HasNone(q, entries, "offset") ==> o.offset == 0)
  {
    AcceptedEffects(q, body, conv, entries);
    forall e | e in entries && Has(q, e, "offset")
      ensures var o := RequestOf(q, body, conv, entries).value.opts;
              ParseInt(e.values[0]) == Some(o.offset) && o.offset >= 0
    {
      CountEffect(q, body, conv, e);
      SettledIs(q, body, conv, entries, e);
    }
    if HasNone(q, entries, "offset") {
      UnsettledIs(q, body, conv, entries, OffsetSlot);
    }
  }

  /** `select` and `order` are what their first values parse to; without them every column is kept
      and no order is asked for. */
  lemma ShapeAsked(q: Query, body: map<string, Val>, conv: Strconv, entries: seq<Entry>)
    requires DistinctKeys(entries) && RequestOf(q, body, conv, entries).Success?
    ensures var o := RequestOf(q, body, conv, entries).value.opts;
            && (forall e :: e in entries && Has(q, e, "select") ==> SelectOf(e.values[0], q.columns) == Success(o.select))
            && (forall e :: e in entries && Has(q, e, "order") ==> OrderOf(Split(e.values[0], ','), q.columns) == Success(o.order))
            && (HasNone(q, entries, "select") ==> o.select == [])
            && (HasNone(q, entries, "order") ==> o.order == [])
  {
    AcceptedEffects(q, body, conv, entries);
    RoleIs("select");
    forall e | e in entries && (Has(q, e, "select") || Has(q, e, "order"))
      ensures EffectOf(q, body, conv, e).Settle?
      ensures InForce(RequestOf(q, body, conv, entries).value, SlotOf(EffectOf(q, body, conv, e).setting)) ==
              Some(EffectOf(q, body, conv, e).setting)
    {
      SettledIs(q, body, conv, entries, e);
    }
    if HasNone(q, entries, "select") {
      UnsettledIs(q, body, conv, entries, SelectSlot);
    }
    if HasNone(q, entries, "order") {
      UnsettledIs(q, body, conv, entries, OrderSlot);
    }
  }

  // ----- what is refused -----

  /** Everything a key can be refused for. */
  predicate Acceptable(q: Query, body: map<string, Val>, conv: Strconv, e: Entry) {
    e.values == [] ||
    if e.key in q.byName then e.key in body || ParamValue(q.byName[e.key], e.values, conv).Success?
    else if e.key == "select" then SelectOf(e.values[0], q.columns).Success?
    else if e.key == "order" then OrderOf(Split(e.values[0], ','), q.columns).Success?
    else if e.key == "limit" || e.key == "offset" then
      ParseInt(e.values[0]).Some? && ParseInt(e.values[0]).value >= 0
    else forall k :: 0 <= k < |e.values| ==> FilterOf(e.key, e.values[k], q.columns).Success?
  }

  /** A request is accepted exactly when each of its keys is. */
  lemma AcceptedIff(q: Query, body: map<string, Val>, conv: Strconv, entries: seq<Entry>)
    requires DistinctKeys(entries)
    ensures RequestOf(q, body, conv, entries).Success? <==> forall e :: e in entries ==> Acceptable(q, body, conv, e)
  {
    var effects := Effects(q, body, conv, entries);
    EffectsDistinct(q, body, conv, entries);
    GatherIs(Input.Start(body), effects);
    forall e | e in entries
      ensures Acceptable(q, body, conv, e) <==> !EffectOf(q, body, conv, e).Reject?
    {
      AcceptableIs(q, body, conv, e);
    }
    forall k | 0 <= k < |entries|
      ensures effects[k] in effects && entries[k] in entries && effects[k] == EffectOf(q, body, conv, entries[k])
    {
    }
  }

  lemma AcceptableIs(q: Query, body: map<string, Val>, conv: Strconv, e: Entry)
    ensures Acceptable(q, body, conv, e) <==> !EffectOf(q, body, conv, e).Reject?
  {
    RoleIs(e.key);
    if IsFilterKey(q, e.key) && e.values != [] {
      FilterEffect(q, body, conv, e);
      FiltersOfIs(e.key, e.values, q.columns);
    }
  }

  // ----- the values of parameters -----

  lemma {:induction false} CoerceListIs(raws: seq<string>, t: ParamType, conv: Strconv)
    ensures CoerceList(raws, t, conv).Success? <==>
            forall k :: 0 <= k < |raws| ==> Coerce(raws[k], t.Elem(), conv).Success?
    ensures CoerceList(raws, t, conv).Success? ==>
              var vals := CoerceList(raws, t, conv).value;
              |vals| == |raws| && forall k :: 0 <= k < |raws| ==> Coerce(raws[k], t.Elem(), conv) == Success(vals[k])
  {
    if raws != [] {
      CoerceListIs(raws[1..], t, conv);
      assert forall k :: 1 <= k < |raws| ==> raws[k] == raws[1..][k - 1];
      if CoerceList(raws, t, conv).Success? {
        assert CoerceList(raws, t, conv).value == [Coerce(raws[0], t.Elem(), conv).value] + CoerceList(raws[1..], t, conv).value;
      }
    }
  }

  /** Where a parameter's value comes from: for a scalar the first occurrence, for a list every
      occurrence, or the parts between the commas of a lone one. */
  lemma ParamValueIs(p: Param, values: seq<string>, conv: Strconv)
    requires values != []
    ensures !p.ptype.IsList() ==>
              match Coerce(values[0], p.ptype, conv)
              case Success(v) => ParamValue(p, values, conv) == Success(v)
              case Failure(_) => ParamValue(p, values, conv) == Failure(InvalidType)
    ensures p.ptype.IsList() ==>
              var raws := if |values| == 1 then Split(values[0], ',') else values;
              if forall k :: 0 <= k < |raws| ==> Coerce(raws[k], p.ptype.Elem(), conv).Success? then
                && ParamValue(p, values, conv).Success? && ParamValue(p, values, conv).value.VList?
                && |ParamValue(p, values, conv).value.items| == |raws|
                && forall k :: 0 <= k < |raws| ==>
                     Coerce(raws[k], p.ptype.Elem(), conv) == Success(ParamValue(p, values, conv).value.items[k])
              else ParamValue(p, values, conv) == Failure(InvalidType)
  {
    if p.ptype.IsList() {
      CoerceListIs(if |values| == 1 then Split(values[0], ',') else values, p.ptype, conv);
    }
  }

  function AsJson(vals: seq<Val>, conv: Strconv): (r: seq<Json>)
    ensures |r| == |vals|
  {
    seq(|vals|, k requires 0 <= k < |vals| => Written(vals[k], conv))
  }

  lemma RawsAt(vals: seq<Val>, conv: Strconv, k: nat)
    requires k < |vals|
    ensures Raws(vals, conv)[k] == Raw(vals[k], conv)
  {
    if k > 0 {
      RawsAt(vals[1..], conv, k - 1);
    }
  }

  /** A list can be given by repetition, with commas or as a JSON array; all three are the same. */
  lemma ThreeForms(p: Param, vals: seq<Val>, conv: Strconv)
    requires p.ptype.IsList() && Faithful(conv) && |vals| >= 2
    requires forall k :: 0 <= k < |vals| ==> HasScalarType(vals[k], p.ptype.Elem()) && ',' !in Raw(vals[k], conv)
    ensures ParamValue(p, Raws(vals, conv), conv) == Success(VList(vals))
    ensures ParamValue(p, [Join(Raws(vals, conv), ",")], conv) == Success(VList(vals))
    ensures CoerceJson(JArray(AsJson(vals, conv)), p.ptype, conv) == Success(VList(vals))
  {
    var raws := Raws(vals, conv);
    forall k | 0 <= k < |vals|
      ensures Coerce(raws[k], p.ptype.Elem(), conv) == Success(vals[k]) && ',' !in raws[k]
    {
      RawsAt(vals, conv, k);
      CoerceRaw(vals[k], p.ptype.Elem(), conv);
    }
    SplitJoin(raws, ',');
    ParamValueIs(p, raws, conv);
    ParamValueIs(p, [Join(raws, ",")], conv);
    assert ParamValue(p, raws, conv).value.items == vals;
    assert ParamValue(p, [Join(raws, ",")], conv).value.items == vals;
    JsonRead(VList(vals), p.ptype, conv);
    assert Written(VList(vals), conv).items == AsJson(vals, conv);
  }
}
