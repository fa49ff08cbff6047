/** What a bound query is meant to compute, told from the declared parameters and the supplied
    values alone. */
module Intended {
  import opened Text
  import opened Values
  import opened Params
  import opened QueryFile
  import opened Syntax
  import opened Binding
  import opened Expansion

  // ----- values -----

  /** The value supplied, else the default, else NULL or the empty list. */
  function Supplied(p: Param, vals: map<string, Val>): Val {
    if p.name in vals then vals[p.name]
    else if p.hasDefault then p.default
    else if p.ptype.IsList() then VList([])
    else VNull
  }

  lemma ResolvesToSupplied(p: Param, vals: map<string, Val>)
    ensures ResolveOne(p, vals).Success? ==> ResolveOne(p, vals).value == Supplied(p, vals)
    ensures ResolveOne(p, vals).Failure? <==>
            (p.required && p.name !in vals && !p.hasDefault) || (p.ptype.IsList() && !Supplied(p, vals).VList?)
    ensures ResolveOne(p, vals).Failure? ==>
              ResolveOne(p, vals).error ==
              if p.required && p.name !in vals && !p.hasDefault then MissingParam(p.name) else InvalidType
  {
  }

  /** Resolution maps the name of every declared parameter to its value. */
  lemma ResolvedIsSupplied(q: Query, vals: map<string, Val>)
    requires UniqueNames(q.decl.params) && ResolveAll(q.decl.params, vals, map[]).Success?
    ensures var resolved := ResolveAll(q.decl.params, vals, map[]).value;
            forall p :: p in q.decl.params ==> p.name in resolved && resolved[p.name] == Supplied(p, vals)
  {
    ResolveAllSucceeds(q.decl.params, vals, map[]);
    forall p | p in q.decl.params
      ensures ResolveOne(p, vals) == Success(Supplied(p, vals))
    {
      ResolvesToSupplied(p, vals);
    }
  }

  /** The first parameter that does not resolve is the one reported. */
  lemma {:induction false} FirstUnresolved(before: seq<Param>, p: Param, more: seq<Param>, vals: map<string, Val>,
                                           acc: map<string, Val>)
    requires ResolveOne(p, vals).Failure? && forall u :: u in before ==> ResolveOne(u, vals).Success?
    ensures ResolveAll(before + ([p] + more), vals, acc) == Failure(ResolveOne(p, vals).error)
    decreases |before|
  {
    var all := before + ([p] + more);
    if before != [] {
      assert all[0] == before[0] && before[0] in before && all[1..] == before[1..] + ([p] + more);
      FirstUnresolved(before[1..], p, more, vals, acc[before[0].name := ResolveOne(before[0], vals).value]);
    }
  }

  /** A statement that has to be rewritten and does not parse is refused. */
  lemma UnparsedRefused(q: Query, vals: map<string, Val>, parse: string -> Option<Expr>)
    requires HasList(q.decl.params) && ResolveAll(q.decl.params, vals, map[]).Success? && parse(q.decl.sql) == None
    ensures BindOf(q, vals, parse) == Failure(BadSQL)
  {
  }

  /** Without list parameters the statement goes out as it is, with each declared parameter's name
      and value, in order. */
  lemma BoundByName(q: Query, vals: map<string, Val>, parse: string -> Option<Expr>)
    requires UniqueNames(q.decl.params) && BindOf(q, vals, parse).Success?
    requires forall p :: p in q.decl.params ==> !p.ptype.IsList()
    ensures var bound := BindOf(q, vals, parse).value;
            && bound.ByName? && bound.sql == q.decl.sql && |bound.named| == |q.decl.params|
            && forall k :: 0 <= k < |bound.named| ==>
                 bound.named[k] == (q.decl.params[k].name, Supplied(q.decl.params[k], vals))
  {
    ResolvedIsSupplied(q, vals);
    var params := q.decl.params;
    assert !HasList(params);
    forall k | 0 <= k < |params|
      ensures NamedArgs(params, ResolveAll(params, vals, map[]).value)[k] == (params[k].name, Supplied(params[k], vals))
    {
      assert params[k] in params;
    }
  }

  // ----- statements -----

  /** The parameter a bind stands for: its marker is the name behind a colon. */
  function Named(marker: string, params: seq<Param>): Option<Param> {
    Find(params, if marker != "" && marker[0] == ':' then marker[1..] else marker)
  }

  function ValueOf(marker: string, params: seq<Param>, vals: map<string, Val>): Val {
    match Named(marker, params)
    case None => VNull
    case Some(p) => Supplied(p, vals)
  }

  predicate IsListMarker(e: Expr, params: seq<Param>) {
    e.Bind? && Named(e.marker, params).Some? && Named(e.marker, params).value.ptype.IsList()
  }

  function ElementsOf(v: Val): seq<Val> {
    if v.VList? then v.items else []
  }

  /** The authored statement evaluated with every bind as its parameter's value. A list parameter
      gives its elements to the list it stands in, and NULL if there are none. */
  function Means(e: Expr, params: seq<Param>, vals: map<string, Val>, I: Interp, row: Row): Val
    decreases e, 2
  {
    match e
    case NullLit => VNull
    case Lit(v) => v
    case Col(name) => Cell(row, name)
    case Bind(marker) =>
      if IsListMarker(e, params) && ElementsOf(ValueOf(marker, params, vals)) == [] then VNull
      else ValueOf(marker, params, vals)
    case Compare(op, l, r) => FromTri(CompareVals(I, op, Means(l, params, vals, I, row), Means(r, params, vals, I, row)))
    case And(l, r) => FromTri(TriAnd(Truth(I, Means(l, params, vals, I, row)), Truth(I, Means(r, params, vals, I, row))))
    case Or(l, r) => FromTri(TriOr(Truth(I, Means(l, params, vals, I, row)), Truth(I, Means(r, params, vals, I, row))))
    case Not(x) => FromTri(TriNot(Truth(I, Means(x, params, vals, I, row))))
    case IsNull(x) => VBool(Means(x, params, vals, I, row) == VNull)
    case In(x, negated, list) =>
      var elems := if list.List? then MeansAll(list.items, params, vals, I, row) else Gives(list, params, vals, I, row);
      var m := Member(I, Means(x, params, vals, I, row), elems);
      FromTri(if negated then TriNot(m) else m)
    case List(items) => VList(MeansAll(items, params, vals, I, row))
  }

  function Gives(e: Expr, params: seq<Param>, vals: map<string, Val>, I: Interp, row: Row): seq<Val>
    decreases e, 3
  {
    if !IsListMarker(e, params) then [Means(e, params, vals, I, row)]
    else
      var elems := ElementsOf(ValueOf(e.marker, params, vals));
      if elems == [] then [VNull] else elems
  }

  function MeansAll(es: seq<Expr>, params: seq<Param>, vals: map<string, Val>, I: Interp, row: Row): seq<Val>
    decreases es, 0
  {
    if es == [] then [] else Gives(es[0], params, vals, I, row) + MeansAll(es[1..], params, vals, I, row)
  }

  /** The binder's tables say of every bind what the declared parameters and values say. */
  ghost predicate TablesAgree(env: Env, params: seq<Param>, vals: map<string, Val>) {
    && (forall name: string :: Find(params, name) == if name in env.byName then Some(env.byName[name]) else None)
    && forall name :: name in env.byName ==>
         && name in env.resolved && env.resolved[name] == Supplied(env.byName[name], vals)
         && (env.byName[name].ptype.IsList() ==> env.resolved[name].VList?)
  }

  lemma BindAgrees(e: Expr, env: Env, params: seq<Param>, vals: map<string, Val>)
    requires TablesAgree(env, params, vals) && e.Bind? && FirstBad(e, env).None?
    ensures IsListBind(e, env) <==> IsListMarker(e, params)
    ensures env.Value(BindName(e.marker)) == ValueOf(e.marker, params, vals)
    ensures IsListBind(e, env) ==> ListItems(e, env) == ElementsOf(ValueOf(e.marker, params, vals))
    ensures IsListBind(e, env) ==> ValueOf(e.marker, params, vals) == VList(ListItems(e, env))
  {
    var name := if e.marker != "" && e.marker[0] == ':' then e.marker[1..] else e.marker;
    assert name == BindName(e.marker);
    assert Find(params, name).Some?;
    FindMember(params, name);
  }

  lemma {:induction false} MeaningAgrees(e: Expr, env: Env, params: seq<Param>, vals: map<string, Val>, I: Interp, row: Row)
    requires TablesAgree(env, params, vals) && FirstBad(e, env).None?
    ensures Meaning(e, env, [VNull], I, row) == Means(e, params, vals, I, row)
    decreases e, 1
  {
    match e
    case Bind(_) => BindAgrees(e, env, params, vals);
    case Compare(_, l, r) => MeaningAgrees(l, env, params, vals, I, row); MeaningAgrees(r, env, params, vals, I, row);
    case And(l, r) => MeaningAgrees(l, env, params, vals, I, row); MeaningAgrees(r, env, params, vals, I, row);
    case Or(l, r) => MeaningAgrees(l, env, params, vals, I, row); MeaningAgrees(r, env, params, vals, I, row);
    case Not(x) => MeaningAgrees(x, env, params, vals, I, row);
    case IsNull(x) => MeaningAgrees(x, env, params, vals, I, row);
    case In(x, _, list) =>
      MeaningAgrees(x, env, params, vals, I, row);
      MeaningAgrees(list, env, params, vals, I, row);
      if list.List? {
        MeaningAllAgrees(list.items, env, params, vals, I, row);
      } else if list.Bind? {
        BindAgrees(list, env, params, vals);
      }
    case List(items) => MeaningAllAgrees(items, env, params, vals, I, row);
    case _ =>
  }

  lemma {:induction false} MeaningAllAgrees(es: seq<Expr>, env: Env, params: seq<Param>, vals: map<string, Val>, I: Interp,
                                            row: Row)
    requires TablesAgree(env, params, vals) && FirstBadAll(es, env).None?
    ensures MeaningAll(es, env, [VNull], I, row) == MeansAll(es, params, vals, I, row)
    decreases es, 0
  {
    if es != [] {
      MeaningAgrees(es[0], env, params, vals, I, row);
      MeaningAllAgrees(es[1..], env, params, vals, I, row);
      if es[0].Bind? {
        BindAgrees(es[0], env, params, vals);
      }
    }
  }

  lemma TablesBuilt(q: Query, vals: map<string, Val>)
    requires IndexAgrees(q.decl.params, q.byName) && UniqueNames(q.decl.params)
    requires ResolveAll(q.decl.params, vals, map[]).Success?
    ensures TablesAgree(Env(q.byName, ResolveAll(q.decl.params, vals, map[]).value), q.decl.params, vals)
  {
    var params := q.decl.params;
    ResolvedIsSupplied(q, vals);
    ResolveAllSucceeds(params, vals, map[]);
    forall name | name in q.byName
      ensures q.byName[name] in params && q.byName[name].name == name
      ensures q.byName[name].ptype.IsList() ==> Supplied(q.byName[name], vals).VList?
    {
      FindMember(params, name);
      assert Find(params, name) == Some(q.byName[name]);
      ResolvesToSupplied(q.byName[name], vals);
    }
  }

  /** With a list parameter the statement goes out rewritten: filled with its arguments from left to
      right it has, on every row, the three-valued result of the authored statement in which each
      `:name` is the value supplied for the parameter of that name, else its default, else NULL or
      the empty list. */
  lemma BoundMeans(q: Query, vals: map<string, Val>, parse: string -> Option<Expr>, I: Interp, row: Row)
    requires IndexAgrees(q.decl.params, q.byName) && UniqueNames(q.decl.params)
    requires BindOf(q, vals, parse).Success? && exists p :: p in q.decl.params && p.ptype.IsList()
    ensures var bound := BindOf(q, vals, parse).value;
            && parse(q.decl.sql).Some? && bound.ByPosition? && Holes(bound.stmt) == |bound.args|
            && (NoNested(parse(q.decl.sql).value) ==>
                  Eval(Fill(bound.stmt, bound.args), I, row) == Means(parse(q.decl.sql).value, q.decl.params, vals, I, row))
  {
    var p :| p in q.decl.params && p.ptype.IsList();
    var k :| 0 <= k < |q.decl.params| && q.decl.params[k] == p;
    assert HasList(q.decl.params);
    var env := Env(q.byName, ResolveAll(q.decl.params, vals, map[]).value);
    var stmt := parse(q.decl.sql).value;
    TablesBuilt(q, vals);
    HolesMatchArgs(stmt, env);
    if NoNested(stmt) {
      ExpansionPreservesMeaning(stmt, env, I, row);
      MeaningAgrees(stmt, env, q.decl.params, vals, I, row);
    }
  }

  /** The argument of a scalar bind is the resolved value of the parameter its marker names. */
  lemma ScalarArgument(name: string, env: Env)
    requires name in env.byName && !env.byName[name].ptype.IsList() && name in env.resolved
    ensures Args(Bind(":" + name), env) == [env.resolved[name]] && FirstBad(Bind(":" + name), env) == None
    ensures Rewritten(Bind(":" + name), env) == HOLE
  {
    assert (":" + name)[..1] == ":" && (":" + name)[1..] == name;
  }

  /** The arguments of a list bind are the elements of the resolved value, in order. */
  lemma ListArguments(name: string, env: Env)
    requires name in env.byName && env.byName[name].ptype.IsList() && name in env.resolved && env.resolved[name].VList?
    ensures Args(Bind(":" + name), env) == env.resolved[name].items && FirstBad(Bind(":" + name), env) == None
  {
    assert (":" + name)[..1] == ":" && (":" + name)[1..] == name;
  }

  /** A bind that names no declared parameter is the author's mistake, reported by name. */
  lemma UndeclaredBind(name: string, env: Env)
    requires name !in env.byName
    ensures FirstBad(Bind(":" + name), env) == Some(UndeclaredParam(name))
  {
    assert (":" + name)[..1] == ":" && (":" + name)[1..] == name;
  }
}
