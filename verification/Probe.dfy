/** The startup probe (store.go): the values a query is bound to when its columns are read. */
module Probe {
  import opened Text
  import opened Values
  import opened Params
  import opened QueryFile
  import opened Syntax
  import opened Binding

  function ZeroFor(t: ParamType): Val {
    match t
    case Int => VInt(0)
    case Float => VFloat(0)
    case Bool => VBool(false)
    case _ => VText("")
  }

  function ProbeValue(p: Param): Val {
    if p.ptype.IsList() then VList([ZeroFor(p.ptype.Elem())]) else ZeroFor(p.ptype)
  }

  /** A value for every required parameter and for no other. */
  ghost predicate IsProbe(vals: map<string, Val>, params: seq<Param>) {
    && (forall p :: p in params && p.required ==> p.name in vals && vals[p.name] == ProbeValue(p))
    && forall name :: name in vals ==> exists p :: p in params && p.required && p.name == name
  }

  method ProbeValues(params: seq<Param>) returns (vals: map<string, Val>)
    requires UniqueNames(params)
    ensures IsProbe(vals, params)
  {
    vals := map[];
    for i := 0 to |params|
      invariant IsProbe(vals, params[..i])
    {
      var p := params[i];
      assert params[..i + 1] == params[..i] + [p];
      if p.required {
        if p.ptype.IsList() {
          vals := vals[p.name := VList([ZeroFor(p.ptype.Elem())])];
        } else {
          vals := vals[p.name := ZeroFor(p.ptype)];
        }
      }
    }
    assert params[..|params|] == params;
  }

  /** It is a value of the parameter's type: an empty text, zero or false, alone in a list. */
  lemma ProbeTyped(p: Param)
    ensures HasType(ProbeValue(p), p.ptype)
    ensures ProbeValue(p) in
            [VText(""), VInt(0), VFloat(0), VBool(false), VList([VText("")]), VList([VInt(0)]), VList([VFloat(0)])]
  {
    var all := [VText(""), VInt(0), VFloat(0), VBool(false), VList([VText("")]), VList([VInt(0)]), VList([VFloat(0)])];
    assert all[0] == VText("") && all[1] == VInt(0) && all[2] == VFloat(0) && all[3] == VBool(false);
    assert all[4] == VList([VText("")]) && all[5] == VList([VInt(0)]) && all[6] == VList([VFloat(0)]);
  }

  lemma ProbeResolves(p: Param, params: seq<Param>, vals: map<string, Val>)
    requires p in params && Params.WellFormed(p) && UniqueNames(params) && IsProbe(vals, params)
    ensures ResolveOne(p, vals).Success?
  {
    if p.name in vals {
      var u :| u in params && u.required && u.name == p.name;
      assert u == p;
    }
  }

  /** The probe of every query that parses binds: no unknown, missing or misshapen value, as long
      as a statement that has to be rewritten parses and names only declared parameters. */
  lemma ProbeBinds(name: string, src: string, conv: Strconv, q: Query, vals: map<string, Val>, parse: string -> Option<Expr>)
    requires DeclaredBy(name, src, conv) == Success(q.decl) && IndexAgrees(q.decl.params, q.byName)
    requires IsProbe(vals, q.decl.params)
    requires HasList(q.decl.params) ==> parse(q.decl.sql).Some? && OnlyDeclared(parse(q.decl.sql).value, q.byName)
    ensures AllKnown(q, vals) && BindOf(q, vals, parse).Success?
  {
    var params := q.decl.params;
    ParsedParams(name, src, conv);
    forall n | n in vals
      ensures n in q.byName
    {
      var p :| p in params && p.required && p.name == n;
      FindMember(params, n);
      assert Find(params, n).Some?;
    }
    forall p | p in params
      ensures ResolveOne(p, vals).Success?
    {
      ProbeResolves(p, params, vals);
    }
    BindSucceedsIff(q, vals, parse);
  }
}
