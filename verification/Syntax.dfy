/** A small SQL expression tree and its three-valued meaning. */
module Syntax {
  import opened Values

  predicate OperatorChar(c: char) {
    c != '?' && c != '\'' && c != '"'
  }

  /** An operator holds no quote and no placeholder. */
  type Symbol = s: string | forall k :: 0 <= k < |s| ==> OperatorChar(s[k])

  /** Expressions as the rewrite sees them. A bind carries its marker, as in `:ids` or `?`; the
      right side of IN is a parenthesised list. */
  datatype Expr =
    | NullLit
    | Lit(v: Val)
    | Col(name: string)
    | Bind(marker: string)
    | Compare(op: Symbol, l: Expr, r: Expr)
    | And(l: Expr, r: Expr)
    | Or(l: Expr, r: Expr)
    | Not(e: Expr)
    | IsNull(e: Expr)
    | In(x: Expr, negated: bool, list: Expr)
    | List(items: seq<Expr>)

  // ----- three-valued logic -----

  datatype Tri = True | False | Unknown

  function TriNot(a: Tri): Tri {
    match a
    case True => False
    case False => True
    case Unknown => Unknown
  }

  function TriAnd(a: Tri, b: Tri): Tri {
    if a == False || b == False then False else if a == True && b == True then True else Unknown
  }

  function TriOr(a: Tri, b: Tri): Tri {
    TriNot(TriAnd(TriNot(a), TriNot(b)))
  }

  function FromTri(a: Tri): Val {
    match a
    case True => VBool(true)
    case False => VBool(false)
    case Unknown => VNull
  }

  type Row = map<string, Val>

  /** What the database decides: how two non-NULL values compare (affinity and collation
      included) and which values count as true. */
  datatype Interp = Interp(cmp: (string, Val, Val) -> Tri, truthy: Val -> bool)

  function Truth(I: Interp, v: Val): Tri {
    match v
    case VNull => Unknown
    case VBool(b) => if b then True else False
    case _ => if I.truthy(v) then True else False
  }

  function CompareVals(I: Interp, op: string, a: Val, b: Val): Tri {
    if a.VNull? || b.VNull? then Unknown else I.cmp(op, a, b)
  }

  /** Membership is the disjunction of the equalities; of none, it is false. */
  function Member(I: Interp, x: Val, elems: seq<Val>): Tri {
    if elems == [] then False
    else TriOr(CompareVals(I, "=", x, elems[0]), Member(I, x, elems[1..]))
  }

  function Cell(row: Row, name: string): Val {
    if name in row then row[name] else VNull
  }

  // ----- the meaning of a statement without parameters -----

  function Eval(e: Expr, I: Interp, row: Row): Val
    decreases e, 1
  {
    match e
    case NullLit => VNull
    case Lit(v) => v
    case Col(name) => Cell(row, name)
    case Bind(_) => VNull
    case Compare(op, l, r) => FromTri(CompareVals(I, op, Eval(l, I, row), Eval(r, I, row)))
    case And(l, r) => FromTri(TriAnd(Truth(I, Eval(l, I, row)), Truth(I, Eval(r, I, row))))
    case Or(l, r) => FromTri(TriOr(Truth(I, Eval(l, I, row)), Truth(I, Eval(r, I, row))))
    case Not(x) => FromTri(TriNot(Truth(I, Eval(x, I, row))))
    case IsNull(x) => VBool(Eval(x, I, row) == VNull)
    case In(x, negated, list) =>
      var elems := if list.List? then EvalAll(list.items, I, row) else [Eval(list, I, row)];
      var m := Member(I, Eval(x, I, row), elems);
      FromTri(if negated then TriNot(m) else m)
    case List(items) => VList(EvalAll(items, I, row))
  }

  function EvalAll(es: seq<Expr>, I: Interp, row: Row): (r: seq<Val>)
    ensures |r| == |es|
    decreases es, 0
  {
    if es == [] then [] else [Eval(es[0], I, row)] + EvalAll(es[1..], I, row)
  }

  lemma {:induction false} EvalAllAppend(a: seq<Expr>, b: seq<Expr>, I: Interp, row: Row)
    ensures EvalAll(a + b, I, row) == EvalAll(a, I, row) + EvalAll(b, I, row)
  {
    if a == [] {
      assert a + b == b;
    } else {
      assert (a + b)[1..] == a[1..] + b;
      EvalAllAppend(a[1..], b, I, row);
    }
  }

  // ----- placeholders -----

  const HOLE := Bind("?")

  /** Placeholders, in text order. */
  function Holes(e: Expr): nat
    decreases e, 1
  {
    match e
    case Bind(_) => if e == HOLE then 1 else 0
    case Compare(_, l, r) => Holes(l) + Holes(r)
    case And(l, r) => Holes(l) + Holes(r)
    case Or(l, r) => Holes(l) + Holes(r)
    case Not(x) => Holes(x)
    case IsNull(x) => Holes(x)
    case In(x, _, list) => Holes(x) + Holes(list)
    case List(items) => HolesAll(items)
    case _ => 0
  }

  function HolesAll(es: seq<Expr>): nat
    decreases es, 0
  {
    if es == [] then 0 else Holes(es[0]) + HolesAll(es[1..])
  }

  /** The statement the database runs: the k-th placeholder in text order takes args[k]. */
  function Fill(e: Expr, args: seq<Val>): Expr
    requires |args| == Holes(e)
    decreases e, 1
  {
    match e
    case Bind(_) => if e == HOLE then Lit(args[0]) else e
    case Compare(op, l, r) => Compare(op, Fill(l, args[..Holes(l)]), Fill(r, args[Holes(l)..]))
    case And(l, r) => And(Fill(l, args[..Holes(l)]), Fill(r, args[Holes(l)..]))
    case Or(l, r) => Or(Fill(l, args[..Holes(l)]), Fill(r, args[Holes(l)..]))
    case Not(x) => Not(Fill(x, args))
    case IsNull(x) => IsNull(Fill(x, args))
    case In(x, negated, list) => In(Fill(x, args[..Holes(x)]), negated, Fill(list, args[Holes(x)..]))
    case List(items) => List(FillAll(items, args))
    case _ => e
  }

  function FillAll(es: seq<Expr>, args: seq<Val>): (r: seq<Expr>)
    requires |args| == HolesAll(es)
    ensures |r| == |es|
    decreases es, 0
  {
    if es == [] then []
    else [Fill(es[0], args[..Holes(es[0])])] + FillAll(es[1..], args[Holes(es[0])..])
  }

  lemma {:induction false} FillAllAppend(a: seq<Expr>, b: seq<Expr>, p: seq<Val>, q: seq<Val>)
    requires |p| == HolesAll(a) && |q| == HolesAll(b)
    ensures HolesAll(a + b) == |p + q|
    ensures FillAll(a + b, p + q) == FillAll(a, p) + FillAll(b, q)
  {
    if a == [] {
      assert a + b == b && p + q == q;
    } else {
      var h := Holes(a[0]);
      assert (a + b)[1..] == a[1..] + b;
      FillAllAppend(a[1..], b, p[h..], q);
      assert (p + q)[..h] == p[..h] && (p + q)[h..] == p[h..] + q;
    }
  }

  /** List nodes in a tree. */
  function Lists(e: Expr): nat
    decreases e, 1
  {
    match e
    case Compare(_, l, r) => Lists(l) + Lists(r)
    case And(l, r) => Lists(l) + Lists(r)
    case Or(l, r) => Lists(l) + Lists(r)
    case Not(x) => Lists(x)
    case IsNull(x) => Lists(x)
    case In(x, _, list) => Lists(x) + Lists(list)
    case List(items) => 1 + ListsAll(items)
    case _ => 0
  }

  function ListsAll(es: seq<Expr>): nat
    decreases es, 0
  {
    if es == [] then 0 else Lists(es[0]) + ListsAll(es[1..])
  }

  lemma {:induction false} ListsAllAppend(a: seq<Expr>, b: seq<Expr>)
    ensures ListsAll(a + b) == ListsAll(a) + ListsAll(b)
  {
    if a == [] {
      assert a + b == b;
    } else {
      assert (a + b)[1..] == a[1..] + b;
      ListsAllAppend(a[1..], b);
    }
  }
}
