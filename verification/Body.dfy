/** The JSON request body (values.go, handler.go): one field per declared parameter. */
module Body {
  import opened Text
  import opened Values
  import opened Params
  import opened QueryFile
  import opened Binding

  /** A decoded JSON value; a number keeps its text. */
  datatype Json =
    | JNull
    | JBool(b: bool)
    | JNumber(text: string)
    | JString(s: string)
    | JArray(items: seq<Json>)
    | JObject

  function CoerceScalar(v: Json, t: ParamType, conv: Strconv): Result<Val>
    requires !t.IsList()
  {
    match (t, v)
    case (_, JNull) => Success(VNull)
    case (Int, JNumber(text)) => Coerce(text, t, conv)
    case (Int, JString(s)) => Coerce(s, t, conv)
    case (Float, JNumber(text)) => Coerce(text, t, conv)
    case (Float, JString(s)) => Coerce(s, t, conv)
    case (Bool, JBool(b)) => Success(VBool(b))
    case (Bool, JString(s)) => Coerce(s, t, conv)
    case (Text, JString(s)) => Success(VText(s))
    case (Text, JNumber(text)) => Success(VText(text))
    case (Text, JBool(b)) => Success(VText(if b then "true" else "false"))
    case _ => Failure(InvalidType)
  }

  function CoerceItems(items: seq<Json>, elem: ParamType, conv: Strconv): (r: Result<seq<Val>>)
    requires !elem.IsList()
    ensures r.Success? ==> |r.value| == |items|
  {
    if items == [] then Success([])
    else
      var head := CoerceScalar(items[0], elem, conv);
      if head.Failure? then Failure(head.error)
      else
        var tail := CoerceItems(items[1..], elem, conv);
        if tail.Failure? then tail else Success([head.value] + tail.value)
  }

  function CoerceJson(v: Json, t: ParamType, conv: Strconv): Result<Val> {
    if v.JNull? then Success(VNull)
    else if !t.IsList() then CoerceScalar(v, t, conv)
    else if !v.JArray? then Failure(InvalidType)
    else
      var items := CoerceItems(v.items, t.Elem(), conv);
      if items.Failure? then Failure(items.error) else Success(VList(items.value))
  }

  // ----- shapes -----

  predicate ScalarOrNull(v: Val, t: ParamType) {
    v == VNull || HasScalarType(v, t)
  }

  lemma ScalarShape(v: Json, t: ParamType, conv: Strconv)
    requires !t.IsList() && CoerceScalar(v, t, conv).Success?
    ensures ScalarOrNull(CoerceScalar(v, t, conv).value, t)
    ensures CoerceScalar(v, t, conv).value == VNull <==> v == JNull
  {
  }

  lemma {:induction false} ItemsShape(items: seq<Json>, elem: ParamType, conv: Strconv)
    requires !elem.IsList() && CoerceItems(items, elem, conv).Success?
    ensures var vals := CoerceItems(items, elem, conv).value;
            forall k :: 0 <= k < |items| ==> ScalarOrNull(vals[k], elem) && (vals[k] == VNull <==> items[k] == JNull)
  {
    if items != [] {
      ScalarShape(items[0], elem, conv);
      ItemsShape(items[1..], elem, conv);
    }
  }

  /** What a body value becomes: NULL exactly for a JSON null, else a value of the declared type,
      a list having one element, of the element type or NULL, for each array item. */
  lemma JsonShape(v: Json, t: ParamType, conv: Strconv)
    requires CoerceJson(v, t, conv).Success?
    ensures var r := CoerceJson(v, t, conv).value;
            && (r == VNull <==> v == JNull)
            && (v != JNull ==>
                  if t.IsList() then
                    v.JArray? && r.VList? && |r.items| == |v.items| &&
                    forall k :: 0 <= k < |r.items| ==> ScalarOrNull(r.items[k], t.Elem())
                  else HasScalarType(r, t))
  {
    if v != JNull {
      if t.IsList() {
        ItemsShape(v.items, t.Elem(), conv);
      } else {
        ScalarShape(v, t, conv);
      }
    }
  }

  /** Of the values a body can supply, binding refuses only a null for a list parameter. */
  lemma BodyValueBinds(p: Param, v: Json, vals: map<string, Val>, conv: Strconv)
    requires p.name in vals && CoerceJson(v, p.ptype, conv) == Success(vals[p.name])
    ensures ResolveOne(p, vals).Failure? <==> p.ptype.IsList() && v == JNull
  {
    JsonShape(v, p.ptype, conv);
  }

  // ----- values -----

  /** A value as a client writes it in JSON. */
  function Written(v: Val, conv: Strconv): Json {
    match v
    case VNull => JNull
    case VInt(i) => JNumber(FormatInt(i))
    case VFloat(bits) => JNumber(conv.formatFloat(bits))
    case VBool(b) => JBool(b)
    case VText(s) => JString(s)
    case VList(items) => JArray(seq(|items|, k requires 0 <= k < |items| => Written(items[k], conv)))
  }

  lemma ScalarRead(v: Val, t: ParamType, conv: Strconv)
    requires !t.IsList() && (v == VNull || HasScalarType(v, t)) && Faithful(conv)
    ensures CoerceScalar(Written(v, conv), t, conv) == Success(v)
  {
    if v.VInt? {
      ParseFormatInt(v.i);
    }
  }

  /** Items are converted one by one, in order; one that fails refuses the list. */
  lemma {:induction false} ItemsAre(items: seq<Json>, elem: ParamType, conv: Strconv)
    requires !elem.IsList()
    ensures CoerceItems(items, elem, conv).Success? <==>
            forall k :: 0 <= k < |items| ==> CoerceScalar(items[k], elem, conv).Success?
    ensures CoerceItems(items, elem, conv).Success? ==>
              forall k :: 0 <= k < |items| ==>
                CoerceScalar(items[k], elem, conv) == Success(CoerceItems(items, elem, conv).value[k])
  {
    if items != [] {
      ItemsAre(items[1..], elem, conv);
      assert forall k :: 1 <= k < |items| ==> items[k] == items[1..][k - 1];
    }
  }

  /** A value of the declared type, written in JSON, is that value; a list may hold nulls. */
  lemma JsonRead(v: Val, t: ParamType, conv: Strconv)
    requires Faithful(conv)
    requires v == VNull || (if t.IsList() then v.VList? && forall k :: 0 <= k < |v.items| ==> ScalarOrNull(v.items[k], t.Elem())
                            else HasScalarType(v, t))
    ensures CoerceJson(Written(v, conv), t, conv) == Success(v)
  {
    if v != VNull {
      if t.IsList() {
        var items := Written(v, conv).items;
        forall k | 0 <= k < |items|
          ensures CoerceScalar(items[k], t.Elem(), conv) == Success(v.items[k])
        {
          ScalarRead(v.items[k], t.Elem(), conv);
        }
        ItemsAre(items, t.Elem(), conv);
        assert CoerceItems(items, t.Elem(), conv).value == v.items;
      } else {
        ScalarRead(v, t, conv);
      }
    }
  }

  /** Other spellings: a string means what it means in a query string, a number or boolean is text
      for a text parameter. */
  lemma JsonSpellings(t: ParamType, s: string, b: bool, conv: Strconv)
    requires !t.IsList()
    ensures CoerceJson(JString(s), t, conv) == Coerce(s, t, conv)
    ensures t.Int? || t.Float? || t.Text? ==> CoerceJson(JNumber(s), t, conv) == Coerce(s, t, conv)
    ensures t.Text? ==> CoerceJson(JBool(b), t, conv) == Success(VText(if b then "true" else "false"))
  {
  }

  /** What does not fit: a boolean as a number, a number as a boolean, an array as a scalar, a
      scalar as a list, an object as anything. */
  lemma JsonMisfits(v: Json, t: ParamType, conv: Strconv)
    requires v.JObject? || (v.JArray? && !t.IsList()) || (t.IsList() && !v.JArray? && !v.JNull?)
             || (v.JBool? && (t.Int? || t.Float?)) || (v.JNumber? && t.Bool?)
    ensures CoerceJson(v, t, conv) == Failure(InvalidType)
  {
  }

  // ----- the body -----

  datatype Field = Field(name: string, value: Json)

  predicate DistinctFields(fields: seq<Field>) {
    forall i, j :: 0 <= i < j < |fields| ==> fields[i].name != fields[j].name
  }

  predicate FieldOk(q: Query, f: Field, conv: Strconv) {
    f.name in q.byName && CoerceJson(f.value, q.byName[f.name].ptype, conv).Success?
  }

  /** The values of a body: exactly its fields', each as its parameter's type. */
  ghost predicate Decoded(q: Query, fields: seq<Field>, vals: map<string, Val>, conv: Strconv) {
    && (forall f :: f in fields ==>
          FieldOk(q, f, conv) && f.name in vals && Success(vals[f.name]) == CoerceJson(f.value, q.byName[f.name].ptype, conv))
    && forall name :: name in vals ==> exists f :: f in fields && f.name == name
  }

  /** Fields come in no particular order: the body is accepted when every field is declared and
      fits its type, and then supplies exactly the fields' values. */
  method DecodeBody(q: Query, fields: seq<Field>, conv: Strconv) returns (r: Result<map<string, Val>>)
    requires DistinctFields(fields)
    ensures r.Success? <==> forall f :: f in fields ==> FieldOk(q, f, conv)
    ensures r.Success? ==> Decoded(q, fields, r.value, conv)
    ensures r.Failure? ==> r.error == InvalidType || (r.error.UnknownParam? && r.error.name !in q.byName)
  {
    var vals: map<string, Val> := map[];
    var i := 0;
    while i < |fields|
      invariant 0 <= i <= |fields|
      invariant forall k :: 0 <= k < i ==>
                  && FieldOk(q, fields[k], conv) && fields[k].name in vals
                  && Success(vals[fields[k].name]) == CoerceJson(fields[k].value, q.byName[fields[k].name].ptype, conv)
      invariant forall name :: name in vals ==> exists k :: 0 <= k < i && fields[k].name == name
    {
      var f := fields[i];
      assert f in fields;
      if f.name !in q.byName {
        return Failure(UnknownParam(f.name));
      }
      var v := CoerceJson(f.value, q.byName[f.name].ptype, conv);
      if v.Failure? {
        assert !FieldOk(q, f, conv);
        return Failure(InvalidType);
      }
      vals := vals[f.name := v.value];
      i := i + 1;
    }
    return Success(vals);
  }
}
