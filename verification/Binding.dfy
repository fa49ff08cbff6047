/** Parameter binding (exec.go): resolving values and rewriting list parameters on the tree. */
module Binding {
  import opened Text
  import opened Values
  import opened Params
  import opened QueryFile
  import opened Syntax

  // ----- binds -----

  /** A bind's parameter name: the marker without a leading colon. */
  function BindName(marker: string): string {
    if HasPrefix(marker, ":") then marker[1..] else marker
  }

  /** The declared parameters and their resolved values. */
  datatype Env = Env(byName: map<string, Param>, resolved: map<string, Val>)
  {
    function Value(name: string): Val {
      if name in resolved then resolved[name] else VNull
    }
  }

  function BindError(marker: string, env: Env): Option<Error> {
    var name := BindName(marker);
    if name !in env.byName then Some(UndeclaredParam(name))
    else if env.byName[name].ptype.IsList() && !env.Value(name).VList? then Some(InvalidType)
    else None
  }

  predicate IsListBind(e: Expr, env: Env) {
    e.Bind? && BindName(e.marker) in env.byName && env.byName[BindName(e.marker)].ptype.IsList()
  }

  /** The elements of a list bind. */
  function ListItems(e: Expr, env: Env): seq<Val>
    requires IsListBind(e, env)
  {
    var v := env.Value(BindName(e.marker));
    if v.VList? then v.items else []
  }

  /** The first bind in source order that cannot be resolved. */
  function FirstBad(e: Expr, env: Env): Option<Error>
    decreases e, 1
  {
    match e
    case Bind(marker) => BindError(marker, env)
    case Compare(_, l, r) => Earlier(FirstBad(l, env), FirstBad(r, env))
    case And(l, r) => Earlier(FirstBad(l, env), FirstBad(r, env))
    case Or(l, r) => Earlier(FirstBad(l, env), FirstBad(r, env))
    case Not(x) => FirstBad(x, env)
    case IsNull(x) => FirstBad(x, env)
    case In(x, _, list) => Earlier(FirstBad(x, env), FirstBad(list, env))
    case List(items) => FirstBadAll(items, env)
    case _ => None
  }

  function FirstBadAll(es: seq<Expr>, env: Env): Option<Error>
    decreases es, 0
  {
    if es == [] then None else Earlier(FirstBad(es[0], env), FirstBadAll(es[1..], env))
  }

  function Earlier(a: Option<Error>, b: Option<Error>): Option<Error> {
    if a.Some? then a else b
  }

  // ----- what the rewrite produces -----

  function Positional(n: nat): (r: seq<Expr>)
    ensures |r| == n && forall k :: 0 <= k < n ==> r[k] == HOLE
  {
    seq(n, _ => HOLE)
  }

  /** Nested lists are spliced into their parent. */
  function Flatten(es: seq<Expr>): seq<Expr> {
    if es == [] then []
    else (if es[0].List? then es[0].items else [es[0]]) + Flatten(es[1..])
  }

  function Rewritten(e: Expr, env: Env): Expr
    decreases e, 1
  {
    match e
    case Bind(_) =>
      if !IsListBind(e, env) then HOLE
      else if ListItems(e, env) == [] then NullLit
      else List(Positional(|ListItems(e, env)|))
    case Compare(op, l, r) => Compare(op, Rewritten(l, env), Rewritten(r, env))
    case And(l, r) => And(Rewritten(l, env), Rewritten(r, env))
    case Or(l, r) => Or(Rewritten(l, env), Rewritten(r, env))
    case Not(x) => Not(Rewritten(x, env))
    case IsNull(x) => IsNull(Rewritten(x, env))
    case In(x, negated, list) => In(Rewritten(x, env), negated, Rewritten(list, env))
    case List(items) => List(Flatten(RewrittenAll(items, env)))
    case _ => e
  }

  function RewrittenAll(es: seq<Expr>, env: Env): (r: seq<Expr>)
    ensures |r| == |es|
    decreases es, 0
  {
    if es == [] then [] else [Rewritten(es[0], env)] + RewrittenAll(es[1..], env)
  }

  /** The bind arguments, in source order. */
  function Args(e: Expr, env: Env): seq<Val>
    decreases e, 1
  {
    match e
    case Bind(marker) => if IsListBind(e, env) then ListItems(e, env) else [env.Value(BindName(marker))]
    case Compare(_, l, r) => Args(l, env) + Args(r, env)
    case And(l, r) => Args(l, env) + Args(r, env)
    case Or(l, r) => Args(l, env) + Args(r, env)
    case Not(x) => Args(x, env)
    case IsNull(x) => Args(x, env)
    case In(x, _, list) => Args(x, env) + Args(list, env)
    case List(items) => ArgsAll(items, env)
    case _ => []
  }

  function ArgsAll(es: seq<Expr>, env: Env): seq<Val>
    decreases es, 0
  {
    if es == [] then [] else Args(es[0], env) + ArgsAll(es[1..], env)
  }

  // ----- the visitor -----

  /** The outcome of walking something from one visitor state to another. */
  ghost predicate Collected(args: seq<Val>, err: Option<Error>, args': seq<Val>, err': Option<Error>,
                            more: seq<Val>, bad: Option<Error>) {
    if err.Some? then args' == args && err' == err
    else err' == bad && (bad.None? ==> args' == args + more)
  }

  /** Collects arguments while the tree is walked bottom-up, left to right. After an error the
      walk goes on but nothing changes any more. */
  class BindExpander {
    const env: Env
    var args: seq<Val>
    var err: Option<Error>

    constructor (env: Env)
      ensures this.env == env && args == [] && err == None
    {
      this.env := env;
      args := [];
      err := None;
    }

    method Walk(e: Expr) returns (r: Expr)
      modifies this
      ensures Collected(old(args), old(err), args, err, Args(e, env), FirstBad(e, env))
      ensures err.None? ==> r == Rewritten(e, env)
      decreases e, 1
    {
      match e {
        case Compare(op, l, right) =>
          var a, b := WalkTwo(e, l, right);
          r := Compare(op, a, b);
        case And(l, right) =>
          var a, b := WalkTwo(e, l, right);
          r := And(a, b);
        case Or(l, right) =>
          var a, b := WalkTwo(e, l, right);
          r := Or(a, b);
        case Not(x) =>
          var a := Walk(x);
          r := Not(a);
        case IsNull(x) =>
          var a := Walk(x);
          r := IsNull(a);
        case In(x, negated, list) =>
          var a, b := WalkTwo(e, x, list);
          r := In(a, negated, b);
        case List(items) =>
          var walked := WalkAll(items);
          r := VisitEndList(List(walked));
        case Bind(marker) =>
          r := VisitEndBind(e);
        case _ =>
          r := e;
      }
    }

    method WalkTwo(ghost parent: Expr, l: Expr, right: Expr) returns (a: Expr, b: Expr)
      requires l < parent && right < parent
      modifies this
      ensures Collected(old(args), old(err), args, err, Args(l, env) + Args(right, env), Earlier(FirstBad(l, env), FirstBad(right, env)))
      ensures err.None? ==> a == Rewritten(l, env) && b == Rewritten(right, env)
      decreases parent, 0
    {
      a := Walk(l);
      b := Walk(right);
    }

    method WalkAll(es: seq<Expr>) returns (r: seq<Expr>)
      modifies this
      ensures Collected(old(args), old(err), args, err, ArgsAll(es, env), FirstBadAll(es, env))
      ensures err.None? ==> r == RewrittenAll(es, env)
      decreases es, 0
    {
      if es == [] {
        return [];
      }
      var head := Walk(es[0]);
      var tail := WalkAll(es[1..]);
      r := [head] + tail;
    }

    /** Leaving a list splices the lists directly inside it. */
    method VisitEndList(n: Expr) returns (r: Expr)
      requires n.List?
      ensures r == if err.Some? then n else List(Flatten(n.items))
    {
      if err.Some? {
        return n;
      }
      r := FlattenExprList(n);
    }

    method FlattenExprList(list: Expr) returns (r: Expr)
      requires list.List?
      ensures r == List(Flatten(list.items))
    {
      var out: seq<Expr> := [];
      var es := list.items;
      var i := 0;
      while i < |es|
        invariant 0 <= i <= |es|
        invariant out + Flatten(es[i..]) == Flatten(es)
      {
        assert es[i..][1..] == es[i + 1..];
        if es[i].List? {
          out := out + es[i].items;
        } else {
          out := out + [es[i]];
        }
        i := i + 1;
      }
      r := List(out);
    }

    /** Leaving a bind replaces it and records what it binds. */
    method VisitEndBind(n: Expr) returns (r: Expr)
      requires n.Bind?
      modifies this
      ensures Collected(old(args), old(err), args, err, Args(n, env), FirstBad(n, env))
      ensures err.None? ==> r == Rewritten(n, env)
    {
      if err.Some? {
        return n;
      }
      var name := BindName(n.marker);
      if name !in env.byName {
        err := Some(UndeclaredParam(name));
        return n;
      }
      var val := env.Value(name);
      if !env.byName[name].ptype.IsList() {
        args := args + [val];
        return HOLE;
      }
      if !val.VList? {
        err := Some(InvalidType);
        return n;
      }
      if |val.items| == 0 {
        return NullLit;
      }
      r := ExpandItems(val.items);
    }

    method ExpandItems(items: seq<Val>) returns (r: Expr)
      requires err.None?
      modifies this`args
      ensures r == List(Positional(|items|)) && args == old(args) + items
    {
      var exprs: seq<Expr> := [];
      for i := 0 to |items|
        invariant exprs == Positional(i) && args == old(args) + items[..i]
      {
        exprs := exprs + [HOLE];
        args := args + [items[i]];
      }
      r := List(exprs);
    }
  }

  // ----- SQL and arguments stay in step -----

  lemma {:induction false} HolesAllAppend(a: seq<Expr>, b: seq<Expr>)
    ensures HolesAll(a + b) == HolesAll(a) + HolesAll(b)
  {
    if a == [] {
      assert a + b == b;
    } else {
      assert (a + b)[1..] == a[1..] + b;
      HolesAllAppend(a[1..], b);
    }
  }

  lemma {:induction false} HolesFlatten(es: seq<Expr>)
    ensures HolesAll(Flatten(es)) == HolesAll(es)
  {
    if es != [] {
      var head := if es[0].List? then es[0].items else [es[0]];
      HolesAllAppend(head, Flatten(es[1..]));
      HolesFlatten(es[1..]);
    }
  }

  lemma {:induction false} HolesPositional(n: nat)
    ensures HolesAll(Positional(n)) == n
  {
    if n != 0 {
      assert Positional(n)[1..] == Positional(n - 1);
      HolesPositional(n - 1);
    }
  }

  /** One placeholder for every argument, whatever the tree and the values. */
  lemma {:induction false} HolesMatchArgs(e: Expr, env: Env)
    ensures Holes(Rewritten(e, env)) == |Args(e, env)|
    decreases e, 1
  {
    match e
    case Compare(_, l, r) => HolesMatchArgs(l, env); HolesMatchArgs(r, env);
    case And(l, r) => HolesMatchArgs(l, env); HolesMatchArgs(r, env);
    case Or(l, r) => HolesMatchArgs(l, env); HolesMatchArgs(r, env);
    case Not(x) => HolesMatchArgs(x, env);
    case IsNull(x) => HolesMatchArgs(x, env);
    case In(x, _, list) => HolesMatchArgs(x, env); HolesMatchArgs(list, env);
    case List(items) =>
      HolesFlatten(RewrittenAll(items, env));
      HolesMatchArgsAll(items, env);
    case Bind(_) =>
      if IsListBind(e, env) {
        HolesPositional(|ListItems(e, env)|);
      }
    case _ =>
  }

  lemma {:induction false} HolesMatchArgsAll(es: seq<Expr>, env: Env)
    ensures HolesAll(RewrittenAll(es, env)) == |ArgsAll(es, env)|
    decreases es, 0
  {
    if es != [] {
      HolesMatchArgs(es[0], env);
      HolesMatchArgsAll(es[1..], env);
    }
  }

  // ----- resolving the declared parameters -----

  /** The value a parameter binds: the one supplied, its default, or nothing. */
  function ResolveOne(p: Param, vals: map<string, Val>): Result<Val> {
    if p.name !in vals && !p.hasDefault && p.required then Failure(MissingParam(p.name))
    else
      var v :=
        if p.name in vals then vals[p.name]
        else if p.hasDefault then p.default
        else if p.ptype.IsList() then VList([])
        else VNull;
      if p.ptype.IsList() && !v.VList? then Failure(InvalidType) else Success(v)
  }

  function ResolveAll(params: seq<Param>, vals: map<string, Val>, resolved: map<string, Val>): Result<map<string, Val>>
    decreases |params|
  {
    if params == [] then Success(resolved)
    else
      var v := ResolveOne(params[0], vals);
      if v.Failure? then Failure(v.error)
      else ResolveAll(params[1..], vals, resolved[params[0].name := v.value])
  }

  predicate HasList(params: seq<Param>) {
    exists k :: 0 <= k < |params| && params[k].ptype.IsList()
  }

  predicate AllKnown(q: Query, vals: map<string, Val>) {
    forall name :: name in vals ==> name in q.byName
  }

  /** What is sent to the database: the text with named arguments, or the rewritten tree with
      positional ones. */
  datatype Bound = ByName(sql: string, named: seq<(string, Val)>) | ByPosition(stmt: Expr, args: seq<Val>)

  function NamedArgs(params: seq<Param>, resolved: map<string, Val>): (r: seq<(string, Val)>)
    ensures |r| == |params|
  {
    seq(|params|, k requires 0 <= k < |params| =>
      (params[k].name, if params[k].name in resolved then resolved[params[k].name] else VNull))
  }

  function ExpandOf(parsed: Option<Expr>, env: Env): Result<Bound> {
    match parsed
    case None => Failure(BadSQL)
    case Some(stmt) =>
      match FirstBad(stmt, env)
      case Some(bad) => Failure(bad)
      case None => Success(ByPosition(Rewritten(stmt, env), Args(stmt, env)))
  }

  /** The binding of a request whose values are all declared. `parse` is the SQL parser. */
  function BindOf(q: Query, vals: map<string, Val>, parse: string -> Option<Expr>): Result<Bound> {
    var resolved := ResolveAll(q.decl.params, vals, map[]);
    if resolved.Failure? then Failure(resolved.error)
    else if !HasList(q.decl.params) then Success(ByName(q.decl.sql, NamedArgs(q.decl.params, resolved.value)))
    else ExpandOf(parse(q.decl.sql), Env(q.byName, resolved.value))
  }

  /** Rejects undeclared values, resolves the declared ones in order, and binds by name unless
      there is a list parameter. */
  method BindArgs(q: Query, vals: map<string, Val>, parse: string -> Option<Expr>) returns (r: Result<Bound>)
    ensures AllKnown(q, vals) ==> r == BindOf(q, vals, parse)
    ensures !AllKnown(q, vals) ==>
              r.Failure? && r.error.UnknownParam? && r.error.name in vals && r.error.name !in q.byName
  {
    if name :| name in vals && name !in q.byName {
      return Failure(UnknownParam(name));
    }
    r := BindKnown(q, vals, parse);
  }

  /** The loop over the declared parameters, and the choice of binding. */
  method BindKnown(q: Query, vals: map<string, Val>, parse: string -> Option<Expr>) returns (r: Result<Bound>)
    ensures r == BindOf(q, vals, parse)
  {
    var params := q.decl.params;
    var resolved: map<string, Val> := map[];
    var hasList := false;
    var i := 0;
    assert params[0..] == params;
    while i < |params|
      invariant 0 <= i <= |params|
      invariant ResolveAll(params, vals, map[]) == ResolveAll(params[i..], vals, resolved)
      invariant hasList == HasList(params[..i])
    {
      var p := params[i];
      assert params[i..][1..] == params[i + 1..] && params[..i + 1] == params[..i] + [p];
      if p.ptype.IsList() {
        assert params[..i + 1][i].ptype.IsList();
        hasList := true;
      }
      var v := ResolveParam(p, vals);
      if v.Failure? {
        return Failure(v.error);
      }
      resolved := resolved[p.name := v.value];
      i := i + 1;
    }
    assert params[..i] == params;
    if !hasList {
      var args := CollectNamed(params, resolved);
      return Success(ByName(q.decl.sql, args));
    }
    r := ExpandLists(q, resolved, parse);
  }

  method ResolveParam(p: Param, vals: map<string, Val>) returns (r: Result<Val>)
    ensures r == ResolveOne(p, vals)
  {
    var v := VNull;
    if p.name in vals {
      v := vals[p.name];
    } else if p.hasDefault {
      v := p.default;
    } else if p.required {
      return Failure(MissingParam(p.name));
    } else if p.ptype.IsList() {
      v := VList([]);
    }
    if p.ptype.IsList() && !v.VList? {
      return Failure(InvalidType);
    }
    return Success(v);
  }

  method CollectNamed(params: seq<Param>, resolved: map<string, Val>) returns (args: seq<(string, Val)>)
    ensures args == NamedArgs(params, resolved)
  {
    args := [];
    for k := 0 to |params|
      invariant args == NamedArgs(params, resolved)[..k]
    {
      args := args + [(params[k].name, if params[k].name in resolved then resolved[params[k].name] else VNull)];
    }
  }

  /** Rewrites over the parsed statement. */
  method ExpandLists(q: Query, resolved: map<string, Val>, parse: string -> Option<Expr>) returns (r: Result<Bound>)
    ensures r == ExpandOf(parse(q.decl.sql), Env(q.byName, resolved))
  {
    var stmt := parse(q.decl.sql);
    if stmt.None? {
      return Failure(BadSQL);
    }
    var v := new BindExpander(Env(q.byName, resolved));
    var out := v.Walk(stmt.value);
    if v.err.Some? {
      return Failure(v.err.value);
    }
    assert [] + Args(stmt.value, v.env) == Args(stmt.value, v.env);
    return Success(ByPosition(out, v.args));
  }

  // ----- when binding succeeds -----

  lemma {:induction false} ResolveAllSucceeds(params: seq<Param>, vals: map<string, Val>, acc: map<string, Val>)
    requires UniqueNames(params) && forall p :: p in params ==> p.name !in acc
    ensures var r := ResolveAll(params, vals, acc);
            && (r.Success? <==> forall p :: p in params ==> ResolveOne(p, vals).Success?)
            && (r.Success? ==>
                  && (forall p :: p in params ==> p.name in r.value && Success(r.value[p.name]) == ResolveOne(p, vals))
                  && forall name :: name in acc ==> name in r.value && r.value[name] == acc[name])
    decreases |params|
  {
    if params != [] {
      var p := params[0];
      assert p in params;
      var v := ResolveOne(p, vals);
      forall u | u in params
        ensures u == p || (u in params[1..] && u.name != p.name)
      {
      }
      if v.Success? {
        ResolveAllSucceeds(params[1..], vals, acc[p.name := v.value]);
      }
    }
  }

  /** Every bind names a declared parameter. */
  predicate OnlyDeclared(e: Expr, byName: map<string, Param>)
    decreases e, 1
  {
    match e
    case Bind(marker) => BindName(marker) in byName
    case Compare(_, l, r) => OnlyDeclared(l, byName) && OnlyDeclared(r, byName)
    case And(l, r) => OnlyDeclared(l, byName) && OnlyDeclared(r, byName)
    case Or(l, r) => OnlyDeclared(l, byName) && OnlyDeclared(r, byName)
    case Not(x) => OnlyDeclared(x, byName)
    case IsNull(x) => OnlyDeclared(x, byName)
    case In(x, _, list) => OnlyDeclared(x, byName) && OnlyDeclared(list, byName)
    case List(items) => OnlyDeclaredAll(items, byName)
    case _ => true
  }

  predicate OnlyDeclaredAll(es: seq<Expr>, byName: map<string, Param>)
    decreases es, 0
  {
    es == [] || (OnlyDeclared(es[0], byName) && OnlyDeclaredAll(es[1..], byName))
  }

  /** The resolved value of every list parameter is a list. */
  ghost predicate ListsResolved(env: Env) {
    forall name :: name in env.byName && env.byName[name].ptype.IsList() ==> env.Value(name).VList?
  }

  lemma {:induction false} DeclaredBinds(e: Expr, env: Env)
    requires ListsResolved(env)
    ensures FirstBad(e, env).None? <==> OnlyDeclared(e, env.byName)
    decreases e, 1
  {
    match e
    case Compare(_, l, r) => DeclaredBinds(l, env); DeclaredBinds(r, env);
    case And(l, r) => DeclaredBinds(l, env); DeclaredBinds(r, env);
    case Or(l, r) => DeclaredBinds(l, env); DeclaredBinds(r, env);
    case Not(x) => DeclaredBinds(x, env);
    case IsNull(x) => DeclaredBinds(x, env);
    case In(x, _, list) => DeclaredBinds(x, env); DeclaredBinds(list, env);
    case List(items) => DeclaredBindsAll(items, env);
    case _ =>
  }

  lemma {:induction false} DeclaredBindsAll(es: seq<Expr>, env: Env)
    requires ListsResolved(env)
    ensures FirstBadAll(es, env).None? <==> OnlyDeclaredAll(es, env.byName)
    decreases es, 0
  {
    if es != [] {
      DeclaredBinds(es[0], env);
      DeclaredBindsAll(es[1..], env);
    }
  }

  /** Binding a parsed query succeeds exactly when every parameter resolves and, if the statement
      is rewritten, it parses and names only declared parameters. */
  lemma BindSucceedsIff(q: Query, vals: map<string, Val>, parse: string -> Option<Expr>)
    requires IndexAgrees(q.decl.params, q.byName) && UniqueNames(q.decl.params)
    ensures BindOf(q, vals, parse).Success? <==>
            && (forall p :: p in q.decl.params ==> ResolveOne(p, vals).Success?)
            && (HasList(q.decl.params) ==> parse(q.decl.sql).Some? && OnlyDeclared(parse(q.decl.sql).value, q.byName))
  {
    var params := q.decl.params;
    ResolveAllSucceeds(params, vals, map[]);
    var resolved := ResolveAll(params, vals, map[]);
    if resolved.Success? {
      var env := Env(q.byName, resolved.value);
      forall name | name in env.byName && env.byName[name].ptype.IsList()
        ensures env.Value(name).VList?
      {
        assert Find(params, name) == Some(q.byName[name]);
        FindMember(params, name);
        assert ResolveOne(q.byName[name], vals).Success?;
      }
      if parse(q.decl.sql).Some? {
        DeclaredBinds(parse(q.decl.sql).value, env);
      }
    }
  }
}
