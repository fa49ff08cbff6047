/** What list expansion means (exec.go): the rewritten statement against the authored one. */
module Expansion {
  import opened Values
  import opened Params
  import opened Syntax
  import opened Binding

  // ----- splicing values in place -----

  function Literals(vals: seq<Val>): (r: seq<Expr>)
    ensures |r| == |vals|
  {
    if vals == [] then [] else [Lit(vals[0])] + Literals(vals[1..])
  }

  /** What a list bind stands for inside a list: its elements, or NULL when it has none. */
  function Elements(e: Expr, env: Env): seq<Expr>
    requires IsListBind(e, env)
  {
    if ListItems(e, env) == [] then [NullLit] else Literals(ListItems(e, env))
  }

  /** The statement the author meant: each bind replaced by its value where it stands, a list
      inside a list by its elements. Lists the author nested stay nested. */
  function Spliced(e: Expr, env: Env): Expr
    decreases e, 1
  {
    match e
    case Bind(marker) =>
      if !IsListBind(e, env) then Lit(env.Value(BindName(marker)))
      else if ListItems(e, env) == [] then NullLit
      else List(Literals(ListItems(e, env)))
    case Compare(op, l, r) => Compare(op, Spliced(l, env), Spliced(r, env))
    case And(l, r) => And(Spliced(l, env), Spliced(r, env))
    case Or(l, r) => Or(Spliced(l, env), Spliced(r, env))
    case Not(x) => Not(Spliced(x, env))
    case IsNull(x) => IsNull(Spliced(x, env))
    case In(x, negated, list) => In(Spliced(x, env), negated, Spliced(list, env))
    case List(items) => List(SplicedAll(items, env))
    case _ => e
  }

  function SplicedAll(es: seq<Expr>, env: Env): seq<Expr>
    decreases es, 0
  {
    if es == [] then []
    else (if IsListBind(es[0], env) then Elements(es[0], env) else [Spliced(es[0], env)]) + SplicedAll(es[1..], env)
  }

  /** The author put no list directly inside a list. */
  predicate NoNested(e: Expr)
    decreases e, 1
  {
    match e
    case Compare(_, l, r) => NoNested(l) && NoNested(r)
    case And(l, r) => NoNested(l) && NoNested(r)
    case Or(l, r) => NoNested(l) && NoNested(r)
    case Not(x) => NoNested(x)
    case IsNull(x) => NoNested(x)
    case In(x, _, list) => NoNested(x) && NoNested(list)
    case List(items) => NoNestedAll(items)
    case _ => true
  }

  predicate NoNestedAll(es: seq<Expr>)
    decreases es, 0
  {
    es == [] || (!es[0].List? && NoNested(es[0]) && NoNestedAll(es[1..]))
  }

  /** Rewritten and filled: what actually runs. */
  function Ran(e: Expr, env: Env): Expr {
    HolesMatchArgs(e, env);
    Fill(Rewritten(e, env), Args(e, env))
  }

  lemma {:induction false} FillPositional(vals: seq<Val>)
    ensures HolesAll(Positional(|vals|)) == |vals| && FillAll(Positional(|vals|), vals) == Literals(vals)
  {
    HolesPositional(|vals|);
    if vals != [] {
      assert Positional(|vals|)[1..] == Positional(|vals[1..]|);
      FillPositional(vals[1..]);
      assert vals[Holes(HOLE)..] == vals[1..];
    }
  }

  /** Splitting the arguments of two neighbours gives each its own. */
  lemma SplitArgs(p: seq<Val>, q: seq<Val>)
    ensures (p + q)[..|p|] == p && (p + q)[|p|..] == q
  {
  }

  lemma RanTwo(l: Expr, r: Expr, env: Env)
    ensures Holes(Rewritten(l, env)) == |Args(l, env)| && Holes(Rewritten(r, env)) == |Args(r, env)|
    ensures var args := Args(l, env) + Args(r, env);
            args[..Holes(Rewritten(l, env))] == Args(l, env) && args[Holes(Rewritten(l, env))..] == Args(r, env)
  {
    HolesMatchArgs(l, env);
    HolesMatchArgs(r, env);
    SplitArgs(Args(l, env), Args(r, env));
  }

  /** Without authored nesting, running the rewritten statement with its arguments taken left to
      right is running the statement with the values spliced in place. */
  lemma {:induction false} RewriteSplices(e: Expr, env: Env)
    requires NoNested(e)
    ensures Ran(e, env) == Spliced(e, env)
    decreases e, 1
  {
    match e
    case Compare(_, l, r) => RanTwo(l, r, env); RewriteSplices(l, env); RewriteSplices(r, env);
    case And(l, r) => RanTwo(l, r, env); RewriteSplices(l, env); RewriteSplices(r, env);
    case Or(l, r) => RanTwo(l, r, env); RewriteSplices(l, env); RewriteSplices(r, env);
    case Not(x) => HolesMatchArgs(x, env); RewriteSplices(x, env);
    case IsNull(x) => HolesMatchArgs(x, env); RewriteSplices(x, env);
    case In(x, _, list) => RanTwo(x, list, env); RewriteSplices(x, env); RewriteSplices(list, env);
    case List(items) =>
      HolesMatchArgsAll(items, env);
      HolesFlatten(RewrittenAll(items, env));
      RewriteSplicesAll(items, env);
    case Bind(_) =>
      if IsListBind(e, env) {
        FillPositional(ListItems(e, env));
      }
    case _ =>
  }

  /** One item of a list, flattened. */
  function FlatItem(e: Expr, env: Env): seq<Expr> {
    var r := Rewritten(e, env);
    if r.List? then r.items else [r]
  }

  lemma FlatItemSplices(e: Expr, env: Env)
    requires !e.List? && HolesAll(FlatItem(e, env)) == |Args(e, env)|
    requires IsListBind(e, env) || (Holes(Rewritten(e, env)) == |Args(e, env)| && Ran(e, env) == Spliced(e, env))
    ensures FillAll(FlatItem(e, env), Args(e, env)) ==
            if IsListBind(e, env) then Elements(e, env) else [Spliced(e, env)]
  {
    var args := Args(e, env);
    if IsListBind(e, env) && ListItems(e, env) != [] {
      FillPositional(ListItems(e, env));
    } else {
      assert args[..|args|] == args;
    }
  }

  lemma FlatItemHoles(e: Expr, env: Env)
    ensures HolesAll(FlatItem(e, env)) == |Args(e, env)|
  {
    HolesMatchArgs(e, env);
  }

  lemma {:induction false} RewriteSplicesAll(es: seq<Expr>, env: Env)
    requires NoNestedAll(es)
    ensures HolesAll(Flatten(RewrittenAll(es, env))) == |ArgsAll(es, env)|
    ensures FillAll(Flatten(RewrittenAll(es, env)), ArgsAll(es, env)) == SplicedAll(es, env)
    decreases es, 0
  {
    if es != [] {
      var head, tail := es[0], es[1..];
      FlatItemHoles(head, env);
      if !IsListBind(head, env) {
        HolesMatchArgs(head, env);
        RewriteSplices(head, env);
      }
      FlatItemSplices(head, env);
      RewriteSplicesAll(tail, env);
      FillAllAppend(FlatItem(head, env), Flatten(RewrittenAll(tail, env)), Args(head, env), ArgsAll(tail, env));
    }
  }

  // ----- authored nesting is the only thing the rewrite loses -----

  lemma {:induction false} FillLists(e: Expr, args: seq<Val>)
    requires |args| == Holes(e)
    ensures Lists(Fill(e, args)) == Lists(e)
    decreases e, 1
  {
    match e
    case Compare(_, l, r) => FillLists(l, args[..Holes(l)]); FillLists(r, args[Holes(l)..]);
    case And(l, r) => FillLists(l, args[..Holes(l)]); FillLists(r, args[Holes(l)..]);
    case Or(l, r) => FillLists(l, args[..Holes(l)]); FillLists(r, args[Holes(l)..]);
    case Not(x) => FillLists(x, args);
    case IsNull(x) => FillLists(x, args);
    case In(x, _, list) => FillLists(x, args[..Holes(x)]); FillLists(list, args[Holes(x)..]);
    case List(items) => FillListsAll(items, args);
    case _ =>
  }

  lemma {:induction false} FillListsAll(es: seq<Expr>, args: seq<Val>)
    requires |args| == HolesAll(es)
    ensures ListsAll(FillAll(es, args)) == ListsAll(es)
    decreases es, 0
  {
    if es != [] {
      FillLists(es[0], args[..Holes(es[0])]);
      FillListsAll(es[1..], args[Holes(es[0])..]);
    }
  }

  lemma {:induction false} NoListsInside(vals: seq<Val>)
    ensures ListsAll(Positional(|vals|)) == 0 && ListsAll(Literals(vals)) == 0
  {
    if vals != [] {
      assert Positional(|vals|)[1..] == Positional(|vals[1..]|);
      NoListsInside(vals[1..]);
    }
  }

  lemma FlatItemLists(e: Expr, env: Env)
    ensures ListsAll(FlatItem(e, env)) == Lists(Rewritten(e, env)) - if Rewritten(e, env).List? then 1 else 0
  {
  }

  /** Every authored nesting costs the rewritten statement a list. */
  lemma {:induction false} ListsLost(e: Expr, env: Env)
    ensures Lists(Rewritten(e, env)) <= Lists(Spliced(e, env))
    ensures !NoNested(e) ==> Lists(Rewritten(e, env)) < Lists(Spliced(e, env))
    decreases e, 1
  {
    match e
    case Compare(_, l, r) => ListsLost(l, env); ListsLost(r, env);
    case And(l, r) => ListsLost(l, env); ListsLost(r, env);
    case Or(l, r) => ListsLost(l, env); ListsLost(r, env);
    case Not(x) => ListsLost(x, env);
    case IsNull(x) => ListsLost(x, env);
    case In(x, _, list) => ListsLost(x, env); ListsLost(list, env);
    case List(items) => ListsLostAll(items, env);
    case Bind(_) =>
      if IsListBind(e, env) {
        NoListsInside(ListItems(e, env));
      }
    case _ =>
  }

  lemma {:induction false} ListsLostAll(es: seq<Expr>, env: Env)
    ensures ListsAll(Flatten(RewrittenAll(es, env))) <= ListsAll(SplicedAll(es, env))
    ensures !NoNestedAll(es) ==> ListsAll(Flatten(RewrittenAll(es, env))) < ListsAll(SplicedAll(es, env))
    decreases es, 0
  {
    if es != [] {
      var head, tail := es[0], es[1..];
      ListsLost(head, env);
      ListsLostAll(tail, env);
      FlatItemLists(head, env);
      if IsListBind(head, env) {
        NoListsInside(ListItems(head, env));
      }
      ListsAllAppend(FlatItem(head, env), Flatten(RewrittenAll(tail, env)));
      ListsAllAppend(if IsListBind(head, env) then Elements(head, env) else [Spliced(head, env)], SplicedAll(tail, env));
    }
  }

  /** What runs is the spliced statement exactly when the author nested no list in a list. */
  lemma RewriteSplicesIff(e: Expr, env: Env)
    ensures Ran(e, env) == Spliced(e, env) <==> NoNested(e)
  {
    HolesMatchArgs(e, env);
    if NoNested(e) {
      RewriteSplices(e, env);
    } else {
      ListsLost(e, env);
      FillLists(Rewritten(e, env), Args(e, env));
    }
  }

  /** Equality of values as they are; nothing else counts as true. */
  function Structural(): Interp {
    Interp((op, a, b) => if a == b then True else False, v => false)
  }

  /** `(1, 2) IN ((1, 2))`. */
  function RowInRows(): Expr {
    In(Pair(), false, List([Pair()]))
  }

  /** The loss can change a result: `(1, 2) IN ((1, 2))` is true, but runs as `(1, 2) IN (1, 2)`,
      which compares a row with scalars and is not. */
  lemma NestingChangesMeaning(env: Env, row: Row)
    ensures Eval(Spliced(RowInRows(), env), Structural(), row) == VBool(true)
    ensures Eval(Ran(RowInRows(), env), Structural(), row) == VBool(false)
  {
    RowAgainstScalars(VList([VInt(1), VInt(2)]));
    PairAsIs(env, row);
    RowInRowsRuns(env, row);
  }

  function Pair(): Expr {
    List([Lit(VInt(1)), Lit(VInt(2))])
  }

  lemma PairAsIs(env: Env, row: Row)
    ensures Rewritten(Pair(), env) == Pair() == Spliced(Pair(), env)
    ensures Args(Pair(), env) == [] && Holes(Pair()) == 0 && Fill(Pair(), []) == Pair()
    ensures Eval(Pair(), Structural(), row) == VList([VInt(1), VInt(2)])
    ensures EvalAll(Pair().items, Structural(), row) == [VInt(1), VInt(2)]
  {
    Literal(Lit(VInt(1)), Lit(VInt(2)), env, Structural(), row);
  }

  lemma RowInRowsRuns(env: Env, row: Row)
    ensures Spliced(RowInRows(), env) == RowInRows()
    ensures Ran(RowInRows(), env) == In(Pair(), false, Pair())
    ensures EvalAll([Pair()], Structural(), row) == [Eval(Pair(), Structural(), row)]
  {
    PairAsIs(env, row);
    Singleton(Pair(), env, Structural(), row);
    assert Args(RowInRows(), env) == [];
  }

  lemma RowAgainstScalars(v: Val)
    requires v == VList([VInt(1), VInt(2)])
    ensures Member(Structural(), v, [v]) == True && Member(Structural(), v, v.items) == False
  {
    var I := Structural();
    assert [v][1..] == [] && v.items[1..] == [VInt(2)] && [VInt(2)][1..] == [];
    assert Member(I, v, [VInt(2)]) == False;
  }

  lemma Literal(a: Expr, b: Expr, env: Env, I: Interp, row: Row)
    requires a.Lit? && b.Lit?
    ensures RewrittenAll([a, b], env) == [a, b] == Flatten([a, b]) == SplicedAll([a, b], env)
    ensures EvalAll([a, b], I, row) == [a.v, b.v]
    ensures ArgsAll([a, b], env) == [] && HolesAll([a, b]) == 0 && FillAll([a, b], []) == [a, b]
  {
    assert [a, b][1..] == [b] && [b][1..] == [];
    assert RewrittenAll([b], env) == [b] == Flatten([b]) == SplicedAll([b], env);
    assert EvalAll([b], I, row) == [b.v];
    assert ArgsAll([b], env) == [] && HolesAll([b]) == 0 && FillAll([b], []) == [b];
  }

  lemma Singleton(p: Expr, env: Env, I: Interp, row: Row)
    requires p.List? && Rewritten(p, env) == p == Spliced(p, env) && Args(p, env) == []
    ensures Rewritten(List([p]), env) == p && Spliced(List([p]), env) == List([p])
    ensures EvalAll([p], I, row) == [Eval(p, I, row)] && Args(List([p]), env) == []
  {
    assert [p][1..] == [];
    assert p.items + [] == p.items && Args(p, env) + [] == [];
    assert ArgsAll([p], env) == Args(p, env) + ArgsAll([p][1..], env);
    assert Flatten([p]) == p.items;
    assert RewrittenAll([p], env) == [p] == SplicedAll([p], env) && ArgsAll([p], env) == [];
  }

  // ----- the meaning under the named environment -----

  /** Evaluates the authored statement directly: a bind has its value, and a list bind inside a
      list contributes its elements there. `empty` is what a list without elements contributes:
      [VNull] for what the rewrite does, [] for set membership proper. */
  function Meaning(e: Expr, env: Env, empty: seq<Val>, I: Interp, row: Row): Val
    decreases e, 2
  {
    match e
    case NullLit => VNull
    case Lit(v) => v
    case Col(name) => Cell(row, name)
    case Bind(marker) =>
      if !IsListBind(e, env) then env.Value(BindName(marker))
      else if ListItems(e, env) == [] then VNull
      else VList(ListItems(e, env))
    case Compare(op, l, r) => FromTri(CompareVals(I, op, Meaning(l, env, empty, I, row), Meaning(r, env, empty, I, row)))
    case And(l, r) => FromTri(TriAnd(Truth(I, Meaning(l, env, empty, I, row)), Truth(I, Meaning(r, env, empty, I, row))))
    case Or(l, r) => FromTri(TriOr(Truth(I, Meaning(l, env, empty, I, row)), Truth(I, Meaning(r, env, empty, I, row))))
    case Not(x) => FromTri(TriNot(Truth(I, Meaning(x, env, empty, I, row))))
    case IsNull(x) => VBool(Meaning(x, env, empty, I, row) == VNull)
    case In(x, negated, list) =>
      var elems := if list.List? then MeaningAll(list.items, env, empty, I, row) else Contents(list, env, empty, I, row);
      var m := Member(I, Meaning(x, env, empty, I, row), elems);
      FromTri(if negated then TriNot(m) else m)
    case List(items) => VList(MeaningAll(items, env, empty, I, row))
  }

  /** What one item contributes to the list it stands in. */
  function Contents(e: Expr, env: Env, empty: seq<Val>, I: Interp, row: Row): seq<Val>
    decreases e, 3
  {
    if !IsListBind(e, env) then [Meaning(e, env, empty, I, row)]
    else if ListItems(e, env) == [] then empty
    else ListItems(e, env)
  }

  function MeaningAll(es: seq<Expr>, env: Env, empty: seq<Val>, I: Interp, row: Row): seq<Val>
    decreases es, 0
  {
    if es == [] then [] else Contents(es[0], env, empty, I, row) + MeaningAll(es[1..], env, empty, I, row)
  }

  lemma {:induction false} EvalLiterals(vals: seq<Val>, I: Interp, row: Row)
    ensures EvalAll(Literals(vals), I, row) == vals
  {
    if vals != [] {
      EvalLiterals(vals[1..], I, row);
    }
  }

  /** Splicing values in place and evaluating is evaluating under the named environment. */
  lemma {:induction false} SplicedMeans(e: Expr, env: Env, I: Interp, row: Row)
    ensures Eval(Spliced(e, env), I, row) == Meaning(e, env, [VNull], I, row)
    decreases e, 1
  {
    match e
    case Compare(_, l, r) => SplicedMeans(l, env, I, row); SplicedMeans(r, env, I, row);
    case And(l, r) => SplicedMeans(l, env, I, row); SplicedMeans(r, env, I, row);
    case Or(l, r) => SplicedMeans(l, env, I, row); SplicedMeans(r, env, I, row);
    case Not(x) => SplicedMeans(x, env, I, row);
    case IsNull(x) => SplicedMeans(x, env, I, row);
    case In(x, _, list) =>
      SplicedMeans(x, env, I, row);
      SplicedMeans(list, env, I, row);
      if list.List? {
        SplicedMeansAll(list.items, env, I, row);
      } else if IsListBind(list, env) {
        EvalLiterals(ListItems(list, env), I, row);
      }
    case List(items) => SplicedMeansAll(items, env, I, row);
    case Bind(_) =>
      if IsListBind(e, env) {
        EvalLiterals(ListItems(e, env), I, row);
      }
    case _ =>
  }

  lemma {:induction false} SplicedMeansAll(es: seq<Expr>, env: Env, I: Interp, row: Row)
    ensures EvalAll(SplicedAll(es, env), I, row) == MeaningAll(es, env, [VNull], I, row)
    decreases es, 0
  {
    if es != [] {
      var head := es[0];
      SplicedMeans(head, env, I, row);
      SplicedMeansAll(es[1..], env, I, row);
      if IsListBind(head, env) {
        EvalLiterals(ListItems(head, env), I, row);
        EvalAllAppend(Elements(head, env), SplicedAll(es[1..], env), I, row);
      } else {
        EvalAllAppend([Spliced(head, env)], SplicedAll(es[1..], env), I, row);
      }
    }
  }

  /** List expansion preserves meaning: the rewritten statement, its placeholders taking the
      arguments left to right, has on every row the three-valued result that the authored
      statement has under the named environment. */
  lemma ExpansionPreservesMeaning(e: Expr, env: Env, I: Interp, row: Row)
    requires NoNested(e)
    ensures Holes(Rewritten(e, env)) == |Args(e, env)|
    ensures Eval(Fill(Rewritten(e, env), Args(e, env)), I, row) == Meaning(e, env, [VNull], I, row)
  {
    HolesMatchArgs(e, env);
    RewriteSplices(e, env);
    SplicedMeans(e, env, I, row);
  }

  // ----- empty lists: NULL against the empty set -----

  /** A list parameter without elements. */
  predicate IsEmptyBind(e: Expr, env: Env) {
    IsListBind(e, env) && ListItems(e, env) == []
  }

  /** No empty list parameter stands in a list. */
  predicate NoEmpty(e: Expr, env: Env)
    decreases e, 1
  {
    match e
    case Compare(_, l, r) => NoEmpty(l, env) && NoEmpty(r, env)
    case And(l, r) => NoEmpty(l, env) && NoEmpty(r, env)
    case Or(l, r) => NoEmpty(l, env) && NoEmpty(r, env)
    case Not(x) => NoEmpty(x, env)
    case IsNull(x) => NoEmpty(x, env)
    case In(x, _, list) => NoEmpty(x, env) && !IsEmptyBind(list, env) && NoEmpty(list, env)
    case List(items) => NoEmptyAll(items, env)
    case _ => true
  }

  predicate NoEmptyAll(es: seq<Expr>, env: Env)
    decreases es, 0
  {
    es == [] || (!IsEmptyBind(es[0], env) && NoEmpty(es[0], env) && NoEmptyAll(es[1..], env))
  }

  /** Empty list parameters stand only directly in the list of an IN, and no NULL test or row
      value looks at a result that depends on one. */
  predicate Placed(e: Expr, env: Env)
    decreases e, 1
  {
    match e
    case Compare(_, l, r) => Placed(l, env) && Placed(r, env)
    case And(l, r) => Placed(l, env) && Placed(r, env)
    case Or(l, r) => Placed(l, env) && Placed(r, env)
    case Not(x) => Placed(x, env)
    case In(x, _, list) => Placed(x, env) && (if list.List? then PlacedAll(list.items, env) else Placed(list, env))
    case _ => NoEmpty(e, env)
  }

  predicate PlacedAll(es: seq<Expr>, env: Env)
    decreases es, 0
  {
    es == [] || (Placed(es[0], env) && PlacedAll(es[1..], env))
  }

  /** Kleene's order: NULL says less than any value. */
  predicate Below(a: Val, b: Val) {
    a == VNull || a == b
  }

  predicate TriBelow(a: Tri, b: Tri) {
    a == Unknown || a == b
  }

  lemma {:induction false} SameWithoutEmpty(e: Expr, env: Env, p: seq<Val>, q: seq<Val>, I: Interp, row: Row)
    requires NoEmpty(e, env)
    ensures Meaning(e, env, p, I, row) == Meaning(e, env, q, I, row)
    decreases e, 1
  {
    match e
    case Compare(_, l, r) => SameWithoutEmpty(l, env, p, q, I, row); SameWithoutEmpty(r, env, p, q, I, row);
    case And(l, r) => SameWithoutEmpty(l, env, p, q, I, row); SameWithoutEmpty(r, env, p, q, I, row);
    case Or(l, r) => SameWithoutEmpty(l, env, p, q, I, row); SameWithoutEmpty(r, env, p, q, I, row);
    case Not(x) => SameWithoutEmpty(x, env, p, q, I, row);
    case IsNull(x) => SameWithoutEmpty(x, env, p, q, I, row);
    case In(x, _, list) =>
      SameWithoutEmpty(x, env, p, q, I, row);
      SameWithoutEmpty(list, env, p, q, I, row);
    case List(items) => SameWithoutEmptyAll(items, env, p, q, I, row);
    case _ =>
  }

  lemma {:induction false} SameWithoutEmptyAll(es: seq<Expr>, env: Env, p: seq<Val>, q: seq<Val>, I: Interp, row: Row)
    requires NoEmptyAll(es, env)
    ensures MeaningAll(es, env, p, I, row) == MeaningAll(es, env, q, I, row)
    decreases es, 0
  {
    if es != [] {
      SameWithoutEmpty(es[0], env, p, q, I, row);
      SameWithoutEmptyAll(es[1..], env, p, q, I, row);
    }
  }

  /** One list says less than another: element by element, or by an extra NULL. */
  ghost predicate ElemsBelow(a: seq<Val>, b: seq<Val>) {
    if a == [] then b == []
    else
      || (b != [] && Below(a[0], b[0]) && ElemsBelow(a[1..], b[1..]))
      || (a[0] == VNull && ElemsBelow(a[1..], b))
  }

  lemma {:induction false} ElemsBelowRefl(a: seq<Val>)
    ensures ElemsBelow(a, a)
  {
    if a != [] {
      ElemsBelowRefl(a[1..]);
    }
  }

  lemma {:induction false} ElemsBelowAppend(a: seq<Val>, b: seq<Val>, c: seq<Val>, d: seq<Val>)
    requires ElemsBelow(a, b) && ElemsBelow(c, d)
    ensures ElemsBelow(a + c, b + d)
    decreases |a|
  {
    if a == [] {
      assert a + c == c && b + d == d;
    } else {
      assert (a + c)[1..] == a[1..] + c;
      if b != [] && Below(a[0], b[0]) && ElemsBelow(a[1..], b[1..]) {
        assert (b + d)[1..] == b[1..] + d;
        ElemsBelowAppend(a[1..], b[1..], c, d);
      } else {
        ElemsBelowAppend(a[1..], b, c, d);
      }
    }
  }

  /** Membership is monotone in Kleene's order. */
  lemma {:induction false} MemberBelow(I: Interp, x: Val, y: Val, a: seq<Val>, b: seq<Val>)
    requires Below(x, y) && ElemsBelow(a, b)
    ensures TriBelow(Member(I, x, a), Member(I, y, b))
    decreases |a|
  {
    if a != [] {
      if b != [] && Below(a[0], b[0]) && ElemsBelow(a[1..], b[1..]) {
        MemberBelow(I, x, y, a[1..], b[1..]);
      } else {
        MemberBelow(I, x, y, a[1..], b);
      }
    }
  }

  /** The connectives are monotone in Kleene's order. */
  lemma ConnectivesBelow(I: Interp, a: Val, b: Val, c: Val, d: Val, op: Symbol)
    requires Below(a, b) && Below(c, d)
    ensures TriBelow(Truth(I, a), Truth(I, b))
    ensures Below(FromTri(CompareVals(I, op, a, c)), FromTri(CompareVals(I, op, b, d)))
    ensures Below(FromTri(TriAnd(Truth(I, a), Truth(I, c))), FromTri(TriAnd(Truth(I, b), Truth(I, d))))
    ensures Below(FromTri(TriOr(Truth(I, a), Truth(I, c))), FromTri(TriOr(Truth(I, b), Truth(I, d))))
    ensures Below(FromTri(TriNot(Truth(I, a))), FromTri(TriNot(Truth(I, b))))
  {
  }

  lemma PairBelow(l: Expr, r: Expr, op: Symbol, env: Env, I: Interp, row: Row)
    requires Below(Meaning(l, env, [VNull], I, row), Meaning(l, env, [], I, row))
    requires Below(Meaning(r, env, [VNull], I, row), Meaning(r, env, [], I, row))
    ensures Below(Meaning(Compare(op, l, r), env, [VNull], I, row), Meaning(Compare(op, l, r), env, [], I, row))
    ensures Below(Meaning(And(l, r), env, [VNull], I, row), Meaning(And(l, r), env, [], I, row))
    ensures Below(Meaning(Or(l, r), env, [VNull], I, row), Meaning(Or(l, r), env, [], I, row))
    ensures Below(Meaning(Not(l), env, [VNull], I, row), Meaning(Not(l), env, [], I, row))
  {
    ConnectivesBelow(I, Meaning(l, env, [VNull], I, row), Meaning(l, env, [], I, row),
                     Meaning(r, env, [VNull], I, row), Meaning(r, env, [], I, row), op);
  }

  /** The elements the list of an IN stands for. */
  function InElements(list: Expr, env: Env, empty: seq<Val>, I: Interp, row: Row): seq<Val> {
    if list.List? then MeaningAll(list.items, env, empty, I, row) else Contents(list, env, empty, I, row)
  }

  lemma InBelow(x: Expr, negated: bool, list: Expr, env: Env, I: Interp, row: Row)
    requires Below(Meaning(x, env, [VNull], I, row), Meaning(x, env, [], I, row))
    requires ElemsBelow(InElements(list, env, [VNull], I, row), InElements(list, env, [], I, row))
    ensures Below(Meaning(In(x, negated, list), env, [VNull], I, row), Meaning(In(x, negated, list), env, [], I, row))
  {
    MemberBelow(I, Meaning(x, env, [VNull], I, row), Meaning(x, env, [], I, row),
                InElements(list, env, [VNull], I, row), InElements(list, env, [], I, row));
  }

  /** The rewrite never claims more than set membership would: on every row its result is NULL or
      the result under the empty set, whatever mixture of AND, OR, NOT and IN surrounds the lists. */
  lemma {:induction false} NullBelowEmptySet(e: Expr, env: Env, I: Interp, row: Row)
    requires Placed(e, env)
    ensures Below(Meaning(e, env, [VNull], I, row), Meaning(e, env, [], I, row))
    decreases e, 1
  {
    match e
    case Compare(op, l, r) =>
      NullBelowEmptySet(l, env, I, row);
      NullBelowEmptySet(r, env, I, row);
      PairBelow(l, r, op, env, I, row);
    case And(l, r) =>
      NullBelowEmptySet(l, env, I, row);
      NullBelowEmptySet(r, env, I, row);
      PairBelow(l, r, "", env, I, row);
    case Or(l, r) =>
      NullBelowEmptySet(l, env, I, row);
      NullBelowEmptySet(r, env, I, row);
      PairBelow(l, r, "", env, I, row);
    case Not(x) =>
      NullBelowEmptySet(x, env, I, row);
      PairBelow(x, x, "", env, I, row);
    case In(x, negated, list) =>
      NullBelowEmptySet(x, env, I, row);
      if list.List? {
        NullBelowEmptySetAll(list.items, env, I, row);
      } else {
        NullBelowEmptySet(list, env, I, row);
        ElemsBelowRefl([]);
        ElemsBelowRefl(InElements(list, env, [], I, row));
      }
      InBelow(x, negated, list, env, I, row);
    case _ => SameWithoutEmpty(e, env, [VNull], [], I, row);
  }

  lemma {:induction false} NullBelowEmptySetAll(es: seq<Expr>, env: Env, I: Interp, row: Row)
    requires PlacedAll(es, env)
    ensures ElemsBelow(MeaningAll(es, env, [VNull], I, row), MeaningAll(es, env, [], I, row))
    decreases es, 0
  {
    if es != [] {
      var a, b := Contents(es[0], env, [VNull], I, row), Contents(es[0], env, [], I, row);
      if IsListBind(es[0], env) {
        ElemsBelowRefl(b);
        ElemsBelowRefl([]);
      } else {
        NullBelowEmptySet(es[0], env, I, row);
        ElemsBelowRefl([]);
      }
      NullBelowEmptySetAll(es[1..], env, I, row);
      ElemsBelowAppend(a, b, MeaningAll(es[1..], env, [VNull], I, row), MeaningAll(es[1..], env, [], I, row));
    }
  }

  /** An empty list never widens a result: a row the rewritten statement keeps is kept under set
      membership too. */
  lemma EmptyListNeverWidens(e: Expr, env: Env, I: Interp, row: Row)
    requires Placed(e, env) && NoNested(e)
    ensures Truth(I, Eval(Ran(e, env), I, row)) == True ==> Truth(I, Meaning(e, env, [], I, row)) == True
  {
    ExpansionPreservesMeaning(e, env, I, row);
    NullBelowEmptySet(e, env, I, row);
  }

  /** Built with AND and OR from IN tests that are not negated and from parts that no empty list
      parameter affects. */
  predicate Positive(e: Expr, env: Env)
    decreases e, 1
  {
    || NoEmpty(e, env)
    || (match e
        case And(l, r) => Positive(l, env) && Positive(r, env)
        case Or(l, r) => Positive(l, env) && Positive(r, env)
        case In(x, negated, list) => !negated && NoEmpty(x, env) && (if list.List? then FlatItems(list.items, env) else NoEmpty(list, env))
        case _ => false)
  }

  /** No item depends on an empty list parameter other than by being one. */
  predicate FlatItems(es: seq<Expr>, env: Env)
    decreases es, 0
  {
    es == [] || (NoEmpty(es[0], env) && FlatItems(es[1..], env))
  }

  /** An empty list parameter is among the items. */
  predicate HasEmpty(es: seq<Expr>, env: Env)
    decreases es, 0
  {
    es != [] && (IsEmptyBind(es[0], env) || HasEmpty(es[1..], env))
  }

  lemma {:induction false} MemberAppend(I: Interp, x: Val, a: seq<Val>, b: seq<Val>)
    ensures Member(I, x, a + b) == TriOr(Member(I, x, a), Member(I, x, b))
  {
    if a == [] {
      assert a + b == b;
    } else {
      assert (a + b)[1..] == a[1..] + b;
      MemberAppend(I, x, a[1..], b);
    }
  }

  /** What the NULL for an empty parameter adds to a membership test. */
  function OrUnknown(m: Tri, empty: bool): Tri {
    if empty then TriOr(m, Unknown) else m
  }

  lemma MemberOfContents(I: Interp, x: Val, e: Expr, env: Env, row: Row)
    requires NoEmpty(e, env)
    ensures Member(I, x, Contents(e, env, [VNull], I, row)) ==
            OrUnknown(Member(I, x, Contents(e, env, [], I, row)), IsEmptyBind(e, env))
  {
    SameWithoutEmpty(e, env, [VNull], [], I, row);
    assert [VNull][1..] == [];
  }

  /** As run, membership is that in the set, or unknown where an empty parameter hides an absence. */
  lemma {:induction false} MemberWithNull(I: Interp, x: Val, es: seq<Expr>, env: Env, row: Row)
    requires FlatItems(es, env)
    ensures Member(I, x, MeaningAll(es, env, [VNull], I, row)) ==
            OrUnknown(Member(I, x, MeaningAll(es, env, [], I, row)), HasEmpty(es, env))
    decreases es
  {
    if es != [] {
      var a, b := Contents(es[0], env, [VNull], I, row), Contents(es[0], env, [], I, row);
      MemberAppend(I, x, a, MeaningAll(es[1..], env, [VNull], I, row));
      MemberAppend(I, x, b, MeaningAll(es[1..], env, [], I, row));
      MemberWithNull(I, x, es[1..], env, row);
      MemberOfContents(I, x, es[0], env, row);
    }
  }

  /** Both readings of an empty list make the same rows TRUE. */
  ghost predicate SameTrue(e: Expr, env: Env, I: Interp, row: Row) {
    Truth(I, Meaning(e, env, [VNull], I, row)) == True <==> Truth(I, Meaning(e, env, [], I, row)) == True
  }

  lemma PairSameTrue(l: Expr, r: Expr, env: Env, I: Interp, row: Row)
    requires SameTrue(l, env, I, row) && SameTrue(r, env, I, row)
    ensures SameTrue(And(l, r), env, I, row) && SameTrue(Or(l, r), env, I, row)
  {
  }

  lemma InSameTrue(x: Expr, list: Expr, env: Env, I: Interp, row: Row)
    requires NoEmpty(x, env) && (if list.List? then FlatItems(list.items, env) else NoEmpty(list, env))
    ensures SameTrue(In(x, false, list), env, I, row)
  {
    SameWithoutEmpty(x, env, [VNull], [], I, row);
    var m := Meaning(x, env, [], I, row);
    if list.List? {
      MemberWithNull(I, m, list.items, env, row);
    } else {
      MemberOfContents(I, m, list, env, row);
    }
  }

  /** In positive position NULL and the empty set keep the same rows. */
  lemma {:induction false} EmptyListSoundWhenPositive(e: Expr, env: Env, I: Interp, row: Row)
    requires Positive(e, env)
    ensures SameTrue(e, env, I, row)
    decreases e
  {
    if NoEmpty(e, env) {
      SameWithoutEmpty(e, env, [VNull], [], I, row);
    } else {
      match e
      case And(l, r) =>
        EmptyListSoundWhenPositive(l, env, I, row);
        EmptyListSoundWhenPositive(r, env, I, row);
        PairSameTrue(l, r, env, I, row);
      case Or(l, r) =>
        EmptyListSoundWhenPositive(l, env, I, row);
        EmptyListSoundWhenPositive(r, env, I, row);
        PairSameTrue(l, r, env, I, row);
      case In(x, _, list) => InSameTrue(x, list, env, I, row);
    }
  }

  /** The same about what runs. */
  lemma EmptyListExactWhenPositive(e: Expr, env: Env, I: Interp, row: Row)
    requires Positive(e, env) && NoNested(e)
    ensures Truth(I, Eval(Ran(e, env), I, row)) == True <==> Truth(I, Meaning(e, env, [], I, row)) == True
  {
    ExpansionPreservesMeaning(e, env, I, row);
    EmptyListSoundWhenPositive(e, env, I, row);
  }

  lemma {:induction false} EmptyHidesAbsence(I: Interp, x: Val, es: seq<Expr>, k: nat, env: Env, row: Row)
    requires k < |es| && IsEmptyBind(es[k], env)
    ensures Member(I, x, MeaningAll(es, env, [VNull], I, row)) != False
    decreases es
  {
    var a, rest := Contents(es[0], env, [VNull], I, row), MeaningAll(es[1..], env, [VNull], I, row);
    MemberAppend(I, x, a, rest);
    if k != 0 {
      EmptyHidesAbsence(I, x, es[1..], k - 1, env, row);
    }
  }

  /** `NOT IN` a list with an empty parameter keeps no row at all, where set membership would
      keep rows. */
  lemma NotInEmptyKeepsNothing(x: Expr, items: seq<Expr>, k: nat, env: Env, I: Interp, row: Row)
    requires NoNested(In(x, true, List(items)))
    requires k < |items| && IsEmptyBind(items[k], env)
    ensures Truth(I, Eval(Ran(In(x, true, List(items)), env), I, row)) != True
    ensures |items| == 1 ==> Truth(I, Meaning(In(x, true, List(items)), env, [], I, row)) == True
  {
    var e := In(x, true, List(items));
    ExpansionPreservesMeaning(e, env, I, row);
    EmptyHidesAbsence(I, Meaning(x, env, [VNull], I, row), items, k, env, row);
    if |items| == 1 {
      assert items[1..] == [] && MeaningAll(items, env, [], I, row) == [] + [];
    }
  }

  lemma InMeans(x: Expr, negated: bool, items: seq<Expr>, env: Env, I: Interp, row: Row)
    requires NoEmpty(x, env) && FlatItems(items, env)
    ensures var m := Member(I, Meaning(x, env, [], I, row), MeaningAll(items, env, [], I, row));
            var n := OrUnknown(m, HasEmpty(items, env));
            && Meaning(In(x, negated, List(items)), env, [], I, row) == FromTri(if negated then TriNot(m) else m)
            && Meaning(In(x, negated, List(items)), env, [VNull], I, row) == FromTri(if negated then TriNot(n) else n)
  {
    SameWithoutEmpty(x, env, [VNull], [], I, row);
    MemberWithNull(I, Meaning(x, env, [], I, row), items, env, row);
  }

  /** A NULL test of membership, negated or not, widens on exactly the rows that are not members,
      if there is an empty parameter among the items; on all others it does as set membership
      would. */
  lemma NullTestWidensIff(x: Expr, negated: bool, items: seq<Expr>, env: Env, I: Interp, row: Row)
    requires NoNested(In(x, negated, List(items))) && NoEmpty(x, env) && FlatItems(items, env)
    ensures var e := IsNull(In(x, negated, List(items)));
            var widens := HasEmpty(items, env) && Truth(I, Meaning(In(x, false, List(items)), env, [], I, row)) == False;
            && (Truth(I, Eval(Ran(e, env), I, row)) == True && Truth(I, Meaning(e, env, [], I, row)) != True <==> widens)
            && (!widens ==> Eval(Ran(e, env), I, row) == Meaning(e, env, [], I, row))
  {
    InMeans(x, negated, items, env, I, row);
    InMeans(x, false, items, env, I, row);
    ExpansionPreservesMeaning(IsNull(In(x, negated, List(items))), env, I, row);
  }

  lemma OneEmptyList(b: Expr, env: Env, I: Interp, row: Row)
    requires IsEmptyBind(b, env)
    ensures MeaningAll([b], env, [VNull], I, row) == [VNull] && MeaningAll([b], env, [], I, row) == []
    ensures NoNestedAll([b])
  {
    assert [b][1..] == [];
    assert NoNested(b) && NoNestedAll([b][1..]);
  }

  /** With only an empty parameter that is every row, whatever is tested: true as it runs, and false
      under the empty set. */
  lemma NullTestWidens(x: Expr, b: Expr, env: Env, I: Interp, row: Row)
    requires NoNested(x) && IsEmptyBind(b, env)
    ensures var e := IsNull(In(x, false, List([b])));
            && Truth(I, Eval(Ran(e, env), I, row)) == True
            && Truth(I, Meaning(e, env, [], I, row)) == False
  {
    var test := In(x, false, List([b]));
    OneEmptyList(b, env, I, row);
    assert NoNested(List([b])) && NoNested(test) && NoNested(IsNull(test));
    assert Member(I, Meaning(x, env, [VNull], I, row), [VNull]) == Unknown by {
      assert [VNull][1..] == [];
    }
    assert Meaning(test, env, [VNull], I, row) == VNull && Meaning(test, env, [], I, row) == VBool(false);
    ExpansionPreservesMeaning(IsNull(test), env, I, row);
  }
}
