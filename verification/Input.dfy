/** Gathering a request (handler.go): bind values, shaping options and filters from the query
    string, whose keys come in no particular order. */
module Input {
  import opened Text
  import opened Values
  import opened Params
  import opened QueryFile
  import opened Filters
  import opened Wrapper
  import opened Syntax
  import opened Reader
  import opened Shaping

  /** One key of the query string with its values; keys are distinct. */
  datatype Entry = Entry(key: string, values: seq<string>)

  predicate DistinctKeys(entries: seq<Entry>) {
    forall i, j :: 0 <= i < j < |entries| ==> entries[i].key != entries[j].key
  }

  // ----- what one key asks for -----

  /** What one key settles. */
  datatype Setting = BindTo(name: string, v: Val) | SelectTo(cols: seq<string>) | OrderTo(terms: seq<OrderTerm>)
                   | LimitTo(n: int) | OffsetTo(n: int)

  /** Where a setting goes; no two keys settle the same place. */
  datatype Slot = ParamSlot(name: string) | SelectSlot | OrderSlot | LimitSlot | OffsetSlot

  function SlotOf(s: Setting): Slot {
    match s
    case BindTo(name, _) => ParamSlot(name)
    case SelectTo(_) => SelectSlot
    case OrderTo(_) => OrderSlot
    case LimitTo(_) => LimitSlot
    case OffsetTo(_) => OffsetSlot
  }

  datatype Effect = Skip | Settle(setting: Setting) | AddFilters(filters: seq<Filter>) | Reject(error: Error)

  function CoerceList(raws: seq<string>, t: ParamType, conv: Strconv): Result<seq<Val>> {
    if raws == [] then Success([])
    else Filters.Cons(Coerce(raws[0], t.Elem(), conv), CoerceList(raws[1..], t, conv))
  }

  /** A list takes every value of its key, or the parts of a lone one. */
  function ParamValue(p: Param, values: seq<string>, conv: Strconv): Result<Val>
    requires values != []
  {
    if p.ptype.IsList() then
      match CoerceList(if |values| == 1 then Split(values[0], ',') else values, p.ptype, conv)
      case Failure(_) => Failure(InvalidType)
      case Success(vals) => Success(VList(vals))
    else
      match Coerce(values[0], p.ptype, conv)
      case Failure(_) => Failure(InvalidType)
      case Success(v) => Success(v)
  }

  /** A non-negative integer. */
  function ReadCount(raw: string): Result<int> {
    match ParseInt(raw)
    case None => Failure(BadRange)
    case Some(n) => if n < 0 then Failure(BadRange) else Success(n)
  }

  function FiltersOf(key: string, specs: seq<string>, columns: set<string>): Result<seq<Filter>> {
    if specs == [] then Success([])
    else Filters.Cons(FilterOf(key, specs[0], columns), FiltersOf(key, specs[1..], columns))
  }

  datatype Role = SelectRole | OrderRole | LimitRole | OffsetRole | FilterRole

  function RoleOf(key: string): Role {
    if key == "select" then SelectRole
    else if key == "order" then OrderRole
    else if key == "limit" then LimitRole
    else if key == "offset" then OffsetRole
    else FilterRole
  }

  function OptionEffect(role: Role, key: string, values: seq<string>, columns: set<string>): Effect
    requires values != []
  {
    match role
    case SelectRole =>
      (match SelectOf(values[0], columns) case Failure(e) => Reject(e) case Success(cols) => Settle(SelectTo(cols)))
    case OrderRole =>
      (match OrderOf(Split(values[0], ','), columns) case Failure(e) => Reject(e) case Success(terms) => Settle(OrderTo(terms)))
    case LimitRole =>
      (match ReadCount(values[0]) case Failure(e) => Reject(e) case Success(n) => Settle(LimitTo(n)))
    case OffsetRole =>
      (match ReadCount(values[0]) case Failure(e) => Reject(e) case Success(n) => Settle(OffsetTo(n)))
    case FilterRole =>
      (match FiltersOf(key, values, columns) case Failure(e) => Reject(e) case Success(fs) => AddFilters(fs))
  }

  function ParamEffect(p: Param, key: string, values: seq<string>, conv: Strconv): Effect
    requires values != []
  {
    match ParamValue(p, values, conv)
    case Failure(e) => Reject(e)
    case Success(v) => Settle(BindTo(key, v))
  }

  /** A declared parameter wins over any other reading of its key, and a value from the body wins
      over one from the query string. */
  function EffectOf(q: Query, body: map<string, Val>, conv: Strconv, e: Entry): Effect {
    if e.values == [] then Skip
    else if e.key in q.byName then
      if e.key in body then Skip else ParamEffect(q.byName[e.key], e.key, e.values, conv)
    else OptionEffect(RoleOf(e.key), e.key, e.values, q.columns)
  }

  function Effects(q: Query, body: map<string, Val>, conv: Strconv, entries: seq<Entry>): (r: seq<Effect>)
    ensures |r| == |entries| && forall k :: 0 <= k < |r| ==> r[k] == EffectOf(q, body, conv, entries[k])
  {
    seq(|entries|, k requires 0 <= k < |entries| => EffectOf(q, body, conv, entries[k]))
  }

  // ----- what all keys ask for, in some order -----

  datatype Request = Request(vals: map<string, Val>, opts: Options)

  function Put(r: Request, s: Setting): Request {
    match s
    case BindTo(name, v) => r.(vals := r.vals[name := v])
    case SelectTo(cols) => r.(opts := r.opts.(select := cols))
    case OrderTo(terms) => r.(opts := r.opts.(order := terms))
    case LimitTo(n) => r.(opts := r.opts.(limit := n, hasLim := true))
    case OffsetTo(n) => r.(opts := r.opts.(offset := n))
  }

  function Take(r: Request, x: Effect): Request {
    match x
    case Settle(s) => Put(r, s)
    case AddFilters(fs) => r.(opts := r.opts.(filters := r.opts.filters + fs))
    case _ => r
  }

  function Gather(r: Request, effects: seq<Effect>): Result<Request>
    decreases |effects|
  {
    if effects == [] then Success(r)
    else if effects[0].Reject? then Failure(effects[0].error)
    else Gather(Take(r, effects[0]), effects[1..])
  }

  function Start(body: map<string, Val>): Request {
    Request(body, Options([], [], [], 0, 0, false))
  }

  /** The request, gathered in the given order of keys. */
  function RequestOf(q: Query, body: map<string, Val>, conv: Strconv, entries: seq<Entry>): Result<Request> {
    Gather(Start(body), Effects(q, body, conv, entries))
  }

  // ----- the loop -----

  method CollectInput(q: Query, body: map<string, Val>, conv: Strconv, entries: seq<Entry>) returns (r: Result<Request>)
    requires DistinctKeys(entries)
    ensures r == RequestOf(q, body, conv, entries)
  {
    var vals, opts := body, Options([], [], [], 0, 0, false);
    ghost var effects := Effects(q, body, conv, entries);
    var i := 0;
    assert effects[0..] == effects;
    while i < |entries|
      invariant 0 <= i <= |entries|
      invariant Gather(Start(body), effects) == Gather(Request(vals, opts), effects[i..])
      invariant forall k :: i <= k < |entries| ==> (entries[k].key in vals <==> entries[k].key in body)
    {
      assert effects[i..][1..] == effects[i + 1..];
      var e := entries[i];
      i := i + 1;
      if |e.values| == 0 {
        continue;
      }
      if e.key in q.byName {
        if e.key in vals {
          continue;
        }
        var v := CollectParam(q.byName[e.key], e.values, conv);
        if v.Failure? {
          return Failure(v.error);
        }
        vals := vals[e.key := v.value];
        continue;
      }
      var outcome := CollectOption(opts, e.key, e.values, q.columns);
      if outcome.Failure? {
        return Failure(outcome.error);
      }
      opts := outcome.value;
    }
    return Success(Request(vals, opts));
  }

  method CollectParam(p: Param, values: seq<string>, conv: Strconv) returns (r: Result<Val>)
    requires values != []
    ensures r == ParamValue(p, values, conv)
  {
    if !p.ptype.IsList() {
      var v := Coerce(values[0], p.ptype, conv);
      return if v.Failure? then Failure(InvalidType) else v;
    }
    var items := values;
    if |items| == 1 {
      items := Split(items[0], ',');
    }
    var out: seq<Val> := [];
    AppendAppend([], [], CoerceList(items, p.ptype, conv));
    assert items[0..] == items;
    for i := 0 to |items|
      invariant CoerceList(items, p.ptype, conv) == Append(out, CoerceList(items[i..], p.ptype, conv))
    {
      assert items[i..][1..] == items[i + 1..];
      var v := Coerce(items[i], p.ptype.Elem(), conv);
      if v.Failure? {
        return Failure(InvalidType);
      }
      AppendAppend(out, [v.value], CoerceList(items[i + 1..], p.ptype, conv));
      out := out + [v.value];
    }
    assert out + [] == out;
    return Success(VList(out));
  }

  /** The switch on the keys that are not parameters. */
  method CollectOption(start: Options, key: string, values: seq<string>, columns: set<string>) returns (r: Result<Options>)
    requires values != []
    ensures var x := OptionEffect(RoleOf(key), key, values, columns);
            if x.Reject? then r == Failure(x.error)
            else r.Success? && forall vals :: Take(Request(vals, start), x) == Request(vals, r.value)
  {
    var opts := start;
    match RoleOf(key) {
      case SelectRole =>
        var cols := ParseSelect(values[0], columns);
        if cols.Failure? {
          return Failure(cols.error);
        }
        opts := opts.(select := cols.value);
      case OrderRole =>
        var terms := ParseOrder(values[0], columns);
        if terms.Failure? {
          return Failure(terms.error);
        }
        opts := opts.(order := terms.value);
      case LimitRole =>
        var n := ReadCount(values[0]);
        if n.Failure? {
          return Failure(n.error);
        }
        opts := opts.(limit := n.value, hasLim := true);
      case OffsetRole =>
        var n := ReadCount(values[0]);
        if n.Failure? {
          return Failure(n.error);
        }
        opts := opts.(offset := n.value);
      case FilterRole =>
        var fs := CollectFilters(key, values, columns);
        if fs.Failure? {
          return Failure(fs.error);
        }
        opts := opts.(filters := opts.filters + fs.value);
    }
    return Success(opts);
  }

  /** Repeated keys stack as further filters. */
  method CollectFilters(key: string, specs: seq<string>, columns: set<string>) returns (r: Result<seq<Filter>>)
    ensures r == FiltersOf(key, specs, columns)
  {
    var fs: seq<Filter> := [];
    AppendAppend([], [], FiltersOf(key, specs, columns));
    assert specs[0..] == specs;
    for i := 0 to |specs|
      invariant FiltersOf(key, specs, columns) == Append(fs, FiltersOf(key, specs[i..], columns))
    {
      assert specs[i..][1..] == specs[i + 1..];
      var f := ParseFilter(key, specs[i], columns);
      if f.Failure? {
        return Failure(f.error);
      }
      AppendAppend(fs, [f.value], FiltersOf(key, specs[i + 1..], columns));
      fs := fs + [f.value];
    }
    assert fs + [] == fs;
    return Success(fs);
  }

  // ----- the order of keys does not matter -----

  /** The setting in force for a slot. */
  function InForce(r: Request, slot: Slot): Option<Setting> {
    match slot
    case ParamSlot(name) => if name in r.vals then Some(BindTo(name, r.vals[name])) else None
    case SelectSlot => Some(SelectTo(r.opts.select))
    case OrderSlot => Some(OrderTo(r.opts.order))
    case LimitSlot => if r.opts.hasLim then Some(LimitTo(r.opts.limit)) else None
    case OffsetSlot => Some(OffsetTo(r.opts.offset))
  }

  lemma PutInForce(r: Request, s: Setting, slot: Slot)
    ensures InForce(Put(r, s), slot) == if slot == SlotOf(s) then Some(s) else InForce(r, slot)
    ensures Put(r, s).opts.filters == r.opts.filters
  {
  }

  /** Two requests agree but for the order of filters. */
  ghost predicate SameButFilterOrder(a: Request, b: Request) {
    && a.vals == b.vals && a.opts.(filters := []) == b.opts.(filters := [])
    && multiset(a.opts.filters) == multiset(b.opts.filters)
  }

  predicate CleanLimit(r: Request) {
    !r.opts.hasLim ==> r.opts.limit == 0
  }

  lemma SameInForce(a: Request, b: Request)
    requires forall slot :: InForce(a, slot) == InForce(b, slot)
    requires multiset(a.opts.filters) == multiset(b.opts.filters)
    requires CleanLimit(a) && CleanLimit(b)
    ensures SameButFilterOrder(a, b)
  {
    assert InForce(a, SelectSlot) == InForce(b, SelectSlot);
    assert InForce(a, OrderSlot) == InForce(b, OrderSlot);
    assert InForce(a, LimitSlot) == InForce(b, LimitSlot);
    assert InForce(a, OffsetSlot) == InForce(b, OffsetSlot);
    forall name: string
      ensures name in a.vals <==> name in b.vals
      ensures name in a.vals ==> a.vals[name] == b.vals[name]
    {
      assert InForce(a, ParamSlot(name)) == InForce(b, ParamSlot(name));
    }
  }

  /** No two effects settle the same slot. */
  ghost predicate DistinctSlots(effects: seq<Effect>) {
    forall i, j :: 0 <= i < j < |effects| && effects[i].Settle? && effects[j].Settle? ==>
      SlotOf(effects[i].setting) != SlotOf(effects[j].setting)
  }

  function FilterBag(effects: seq<Effect>): multiset<Filter> {
    if effects == [] then multiset{}
    else (if effects[0].AddFilters? then multiset(effects[0].filters) else multiset{}) + FilterBag(effects[1..])
  }

  /** Gathering succeeds when nothing is rejected; each slot then holds what settles it, wherever
      that stands, and the filters are all those added. */
  lemma {:induction false} GatherIs(r: Request, effects: seq<Effect>)
    requires DistinctSlots(effects) && CleanLimit(r)
    ensures Gather(r, effects).Success? <==> forall x :: x in effects ==> !x.Reject?
    ensures Gather(r, effects).Success? ==>
              var g := Gather(r, effects).value;
              && CleanLimit(g)
              && multiset(g.opts.filters) == multiset(r.opts.filters) + FilterBag(effects)
              && (forall x :: x in effects && x.Settle? ==> InForce(g, SlotOf(x.setting)) == Some(x.setting))
              && forall slot :: (forall x :: x in effects && x.Settle? ==> SlotOf(x.setting) != slot) ==>
                                  InForce(g, slot) == InForce(r, slot)
    decreases |effects|
  {
    if effects != [] {
      var x, rest := effects[0], effects[1..];
      assert effects == [x] + rest;
      if !x.Reject? {
        GatherIs(Take(r, x), rest);
        GatherStep(r, x, rest);
      }
    }
  }

  lemma GatherStep(r: Request, x: Effect, rest: seq<Effect>)
    requires DistinctSlots([x] + rest) && !x.Reject?
    ensures forall y :: y in rest && x.Settle? && y.Settle? ==> SlotOf(y.setting) != SlotOf(x.setting)
    ensures forall slot :: InForce(Take(r, x), slot) ==
                           if x.Settle? && slot == SlotOf(x.setting) then Some(x.setting) else InForce(r, slot)
  {
    var all := [x] + rest;
    forall y | y in rest && x.Settle? && y.Settle?
      ensures SlotOf(y.setting) != SlotOf(x.setting)
    {
      var k :| 0 <= k < |rest| && rest[k] == y;
      assert all[0] == x && all[k + 1] == y;
    }
    forall slot
      ensures InForce(Take(r, x), slot) ==
              if x.Settle? && slot == SlotOf(x.setting) then Some(x.setting) else InForce(r, slot)
    {
      if x.Settle? {
        PutInForce(r, x.setting, slot);
      }
    }
  }

  lemma {:induction false} BagRemove(effects: seq<Effect>, k: nat)
    requires k < |effects|
    ensures FilterBag(effects) == FilterBag([effects[k]]) + FilterBag(effects[..k] + effects[k + 1..])
  {
    var less := effects[..k] + effects[k + 1..];
    assert [effects[k]][1..] == [];
    if k == 0 {
      assert less == effects[1..];
    } else {
      assert less[0] == effects[0] && less[1..] == effects[1..][..k - 1] + effects[1..][k..];
      BagRemove(effects[1..], k - 1);
    }
  }

  lemma TakeOut<T>(s: seq<T>, k: nat)
    requires k < |s|
    ensures multiset(s) == multiset{s[k]} + multiset(s[..k] + s[k + 1..])
  {
    assert s == s[..k] + [s[k]] + s[k + 1..];
  }

  /** Where the head of one order stands in the other, and that the rests are orders of each other. */
  lemma HeadIn<T>(a: seq<T>, b: seq<T>) returns (k: nat)
    requires multiset(a) == multiset(b) && a != []
    ensures k < |b| && b[k] == a[0] && multiset(a[1..]) == multiset(b[..k] + b[k + 1..])
  {
    assert a[0] in multiset(b);
    k :| 0 <= k < |b| && b[k] == a[0];
    TakeOut(a, 0);
    TakeOut(b, k);
    assert a[..0] + a[1..] == a[1..];
    assert multiset(a[1..]) == multiset(a) - multiset{a[0]};
  }

  lemma EmptyOrder<T>(b: seq<T>)
    requires multiset(b) == multiset{}
    ensures b == []
  {
    assert |multiset(b)| == |b|;
  }

  lemma {:induction false} BagPermuted(a: seq<Effect>, b: seq<Effect>)
    requires multiset(a) == multiset(b)
    ensures FilterBag(a) == FilterBag(b)
    decreases |a|
  {
    if a == [] {
      EmptyOrder(b);
    } else {
      var k := HeadIn(a, b);
      BagRemove(a, 0);
      BagRemove(b, k);
      assert a[..0] + a[1..] == a[1..];
      BagPermuted(a[1..], b[..k] + b[k + 1..]);
    }
  }

  /** Any two orders of the same effects gather the same request, but for the order of filters, or
      are both rejected. */
  lemma GatherPermuted(r: Request, a: seq<Effect>, b: seq<Effect>)
    requires multiset(a) == multiset(b) && DistinctSlots(a) && DistinctSlots(b) && CleanLimit(r)
    ensures Gather(r, a).Success? <==> Gather(r, b).Success?
    ensures Gather(r, a).Success? ==> SameButFilterOrder(Gather(r, a).value, Gather(r, b).value)
  {
    GatherIs(r, a);
    GatherIs(r, b);
    assert forall x :: x in a <==> x in multiset(a);
    assert forall x :: x in b <==> x in multiset(b);
    BagPermuted(a, b);
    if Gather(r, a).Success? {
      var g, h := Gather(r, a).value, Gather(r, b).value;
      forall slot
        ensures InForce(g, slot) == InForce(h, slot)
      {
        if x :| x in a && x.Settle? && SlotOf(x.setting) == slot {
          assert x in b;
        }
      }
      SameInForce(g, h);
    }
  }

  /** The key that can settle a slot. */
  function SlotKey(slot: Slot): string {
    match slot
    case ParamSlot(name) => name
    case SelectSlot => "select"
    case OrderSlot => "order"
    case LimitSlot => "limit"
    case OffsetSlot => "offset"
  }

  lemma RoleKey(key: string)
    ensures match RoleOf(key)
            case SelectRole => key == "select"
            case OrderRole => key == "order"
            case LimitRole => key == "limit"
            case OffsetRole => key == "offset"
            case FilterRole => true
  {
  }

  lemma OptionKey(role: Role, key: string, values: seq<string>, columns: set<string>)
    requires values != []
    ensures var x := OptionEffect(role, key, values, columns);
            x.Settle? ==>
              match role
              case SelectRole => SlotOf(x.setting) == SelectSlot
              case OrderRole => SlotOf(x.setting) == OrderSlot
              case LimitRole => SlotOf(x.setting) == LimitSlot
              case OffsetRole => SlotOf(x.setting) == OffsetSlot
              case FilterRole => false
  {
  }

  lemma EffectKey(q: Query, body: map<string, Val>, conv: Strconv, e: Entry)
    ensures var x := EffectOf(q, body, conv, e);
            x.Settle? ==> SlotKey(SlotOf(x.setting)) == e.key
  {
    if e.values != [] && e.key !in q.byName {
      RoleKey(e.key);
      OptionKey(RoleOf(e.key), e.key, e.values, q.columns);
    }
  }

  lemma EffectsDistinct(q: Query, body: map<string, Val>, conv: Strconv, entries: seq<Entry>)
    requires DistinctKeys(entries)
    ensures DistinctSlots(Effects(q, body, conv, entries))
  {
    forall k | 0 <= k < |entries|
      ensures var x := Effects(q, body, conv, entries)[k];
              x.Settle? ==> SlotKey(SlotOf(x.setting)) == entries[k].key
    {
      EffectKey(q, body, conv, entries[k]);
    }
  }

  function Map<T, U>(f: T -> U, s: seq<T>): (r: seq<U>)
    ensures |r| == |s| && forall k :: 0 <= k < |s| ==> r[k] == f(s[k])
  {
    seq(|s|, k requires 0 <= k < |s| => f(s[k]))
  }

  lemma {:induction false} MapPermuted<T, U>(f: T -> U, a: seq<T>, b: seq<T>)
    requires multiset(a) == multiset(b)
    ensures multiset(Map(f, a)) == multiset(Map(f, b))
    decreases |a|
  {
    if a == [] {
      EmptyOrder(b);
    } else {
      var k := HeadIn(a, b);
      var less := b[..k] + b[k + 1..];
      MapPermuted(f, a[1..], less);
      TakeOut(Map(f, a), 0);
      TakeOut(Map(f, b), k);
      assert Map(f, a)[..0] + Map(f, a)[1..] == Map(f, a[1..]);
      assert Map(f, b)[..k] + Map(f, b)[k + 1..] == Map(f, less);
    }
  }

  lemma EffectsPermuted(q: Query, body: map<string, Val>, conv: Strconv, a: seq<Entry>, b: seq<Entry>)
    requires multiset(a) == multiset(b)
    ensures multiset(Effects(q, body, conv, a)) == multiset(Effects(q, body, conv, b))
  {
    var f := (e: Entry) => EffectOf(q, body, conv, e);
    MapPermuted(f, a, b);
    assert Map(f, a) == Effects(q, body, conv, a);
    assert Map(f, b) == Effects(q, body, conv, b);
  }

  /** For any two orders in which the keys of a query string may come, the request is rejected in
      both or the same in both but for the order of its filters. */
  lemma InputOrderIrrelevant(q: Query, body: map<string, Val>, conv: Strconv, a: seq<Entry>, b: seq<Entry>)
    requires multiset(a) == multiset(b) && DistinctKeys(a) && DistinctKeys(b)
    ensures RequestOf(q, body, conv, a).Success? <==> RequestOf(q, body, conv, b).Success?
    ensures RequestOf(q, body, conv, a).Success? ==>
              SameButFilterOrder(RequestOf(q, body, conv, a).value, RequestOf(q, body, conv, b).value)
  {
    EffectsDistinct(q, body, conv, a);
    EffectsDistinct(q, body, conv, b);
    EffectsPermuted(q, body, conv, a, b);
    GatherPermuted(Start(body), Effects(q, body, conv, a), Effects(q, body, conv, b));
  }

  /** And so is what the wrapped query returns, however its rows are ordered. */
  lemma SameRowsKept(a: Request, b: Request, inner: string, terms: seq<SelectTerm>, rows: seq<Row>, I: Interp,
                     arrange: (seq<OrderTerm>, seq<Row>) -> seq<Row>)
    requires SameButFilterOrder(a, b)
    ensures a.opts.(filters := []) == b.opts.(filters := [])
    ensures Shaped(rows, StatementOf(a.opts, inner, terms), I, arrange) ==
            Shaped(rows, StatementOf(b.opts, inner, terms), I, arrange)
  {
    FilteredPermuted(rows, a.opts.filters, b.opts.filters, I);
    var x, y := a.opts.(filters := []), b.opts.(filters := []);
    assert x.order == y.order && WindowOf(x) == WindowOf(y);
    assert WindowOf(a.opts) == WindowOf(x) && WindowOf(b.opts) == WindowOf(y);
  }

  // ----- which value a parameter gets -----

  /** Every value of an accepted request is the body's, or what the query string says of a
      declared parameter that the body leaves out. */
  lemma InputValues(q: Query, body: map<string, Val>, conv: Strconv, entries: seq<Entry>)
    requires DistinctKeys(entries) && RequestOf(q, body, conv, entries).Success?
    ensures var vals := RequestOf(q, body, conv, entries).value.vals;
            && (forall name :: name in body ==> name in vals && vals[name] == body[name])
            && (forall e :: e in entries && Supplies(q, body, e) ==>
                  e.key in vals && Success(vals[e.key]) == ParamValue(q.byName[e.key], e.values, conv))
            && forall name :: name in vals && name !in body ==>
                 exists e :: e in entries && e.key == name && Supplies(q, body, e)
  {
    var effects := Effects(q, body, conv, entries);
    var g := RequestOf(q, body, conv, entries).value;
    EffectsDistinct(q, body, conv, entries);
    GatherIs(Start(body), effects);
    forall e | e in entries && Supplies(q, body, e)
      ensures e.key in g.vals && Success(g.vals[e.key]) == ParamValue(q.byName[e.key], e.values, conv)
    {
      var k :| 0 <= k < |entries| && entries[k] == e;
      assert effects[k] == EffectOf(q, body, conv, e) && effects[k] in effects;
      assert InForce(g, ParamSlot(e.key)) == Some(effects[k].setting);
    }
    forall name | name in body || name in g.vals
      ensures name in body ==> name in g.vals && g.vals[name] == body[name]
      ensures name in body || exists e :: e in entries && e.key == name && Supplies(q, body, e)
    {
      NameInForce(q, body, conv, entries, name);
    }
  }

  /** The key is a parameter to be taken from the query string. */
  predicate Supplies(q: Query, body: map<string, Val>, e: Entry) {
    e.values != [] && e.key in q.byName && e.key !in body
  }

  /** A slot that no key supplies stays as the body left it. */
  lemma NameInForce(q: Query, body: map<string, Val>, conv: Strconv, entries: seq<Entry>, name: string)
    requires DistinctKeys(entries) && RequestOf(q, body, conv, entries).Success?
    ensures (exists e :: e in entries && e.key == name && Supplies(q, body, e)) ||
            InForce(RequestOf(q, body, conv, entries).value, ParamSlot(name)) == InForce(Start(body), ParamSlot(name))
    ensures name in body ==>
              InForce(RequestOf(q, body, conv, entries).value, ParamSlot(name)) == InForce(Start(body), ParamSlot(name))
  {
    var effects := Effects(q, body, conv, entries);
    EffectsDistinct(q, body, conv, entries);
    GatherIs(Start(body), effects);
    if x :| x in effects && x.Settle? && SlotOf(x.setting) == ParamSlot(name) {
      var k :| 0 <= k < |effects| && effects[k] == x;
      BindsWhatItSupplies(q, body, conv, entries[k]);
      assert entries[k] in entries && entries[k].key == name && Supplies(q, body, entries[k]);
    }
  }

  lemma BindsWhatItSupplies(q: Query, body: map<string, Val>, conv: Strconv, e: Entry)
    ensures var x := EffectOf(q, body, conv, e);
            x.Settle? && SlotOf(x.setting).ParamSlot? ==> Supplies(q, body, e) && SlotOf(x.setting) == ParamSlot(e.key)
  {
    if e.values != [] && e.key !in q.byName {
      OptionKey(RoleOf(e.key), e.key, e.values, q.columns);
    }
  }
}
