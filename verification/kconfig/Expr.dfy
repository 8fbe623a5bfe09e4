/** Dependency expressions of the configuration language: trees over the
    three-valued logic no < mod < yes, and their meaning (`config/expr.h`, and
    `expr_calc_value`, `expr_eliminate_yn`, `expr_contains_symbol` of `config/expr.c`).
 */
module KExpr {

  // no, mod and yes, with the numbering of `enum tristate`
  type Tri = t: int | 0 <= t <= 2
  const NO: Tri := 0
  const MOD: Tri := 1
  const YES: Tri := 2

  datatype Kind = Unknown | Boolean | Tristate | IntKind | HexKind | StringKind

  // `sym_lookup` hands out the three built-in symbols for "y", "m" and "n", so no
  // other constant has one of these texts, and two constants with one text are one symbol.
  type Text = t: string | t != "y" && t != "m" && t != "n" witness "0"

  datatype Sym = SymYes | SymMod | SymNo | Constant(text: Text) | Option(id: nat, kind: Kind)

  // `flags & SYMBOL_CONST`
  predicate IsConst(s: Sym) {
    !s.Option?
  }

  // `flags & (SYMBOL_YES|SYMBOL_NO)`: the built-in mod carries neither bit, a
  // constant made by `sym_lookup` carries all three
  predicate HasYesNoFlag(s: Sym) {
    !s.Option? && !s.SymMod?
  }

  function KindOf(s: Sym): Kind {
    if s.Option? then s.kind else Unknown
  }

  datatype Op = And | Or

  datatype Expr =
    | Bin(op: Op, left: Expr, right: Expr)
    | Not(arg: Expr)
    | Cmp(equal: bool, a: Sym, b: Sym)  // E_EQUAL when `equal`, else E_UNEQUAL
    | Leaf(sym: Sym)

  // The pointer that may be NULL, which means "yes"
  datatype Dep = Always | When(e: Expr)

  // ---------------------------------------------------------------- meaning

  datatype Value = Value(tri: Tri, str: string)
  type Env = Sym -> Value

  function TriText(t: Tri): string {
    if t == NO then "n" else if t == MOD then "m" else "y"
  }

  // What the current value of a symbol can be, by its type
  predicate Fits(s: Sym, v: Value) {
    match s
    case SymYes => v == Value(YES, "y")
    case SymMod => v == Value(MOD, "m")
    case SymNo => v == Value(NO, "n")
    case Constant(text) => v == Value(NO, text)
    case Option(_, kind) =>
      && (kind.Boolean? ==> v.tri != MOD)
      && (kind.Boolean? || kind.Tristate? ==> v.str == TriText(v.tri))
  }

  ghost predicate WellTyped(env: Env) {
    forall s: Sym :: Fits(s, env(s))
  }

  // No bool or tristate option is "m"
  ghost predicate TwoValued(env: Env) {
    WellTyped(env) && forall s: Sym :: s.Option? ==> env(s).tri != MOD
  }

  function Meet(op: Op, x: Tri, y: Tri): Tri {
    if op.And? then (if x < y then x else y) else (if x > y then x else y)
  }

  function Calc(e: Expr, env: Env): Tri {
    match e
    case Leaf(s) => env(s).tri
    case Bin(op, l, r) => Meet(op, Calc(l, env), Calc(r, env))
    case Not(x) => 2 - Calc(x, env)
    case Cmp(equal, a, b) => if equal == (env(a).str == env(b).str) then YES else NO
  }

  function CalcDep(d: Dep, env: Env): Tri {
    if d.Always? then YES else Calc(d.e, env)
  }

  // Same meaning under every assignment, resp. under every assignment without mod
  ghost predicate Equiv(x: Expr, y: Expr) {
    forall env: Env | WellTyped(env) :: Calc(x, env) == Calc(y, env)
  }

  ghost predicate Equiv2(x: Expr, y: Expr) {
    forall env: Env | TwoValued(env) :: Calc(x, env) == Calc(y, env)
  }

  // Mentions no symbol with the value mod: the built-in mod constant as an operand
  predicate ModFree(e: Expr) {
    match e
    case Leaf(s) => s != SymMod
    case Bin(_, l, r) => ModFree(l) && ModFree(r)
    case Not(x) => ModFree(x)
    case Cmp(_, _, _) => true
  }

  lemma {:induction false} TwoValuedCalc(e: Expr, env: Env)
    requires TwoValued(env) && ModFree(e)
    ensures Calc(e, env) != MOD
  {
    match e
    case Leaf(s) => assert Fits(s, env(s));
    case Bin(_, l, r) => TwoValuedCalc(l, env); TwoValuedCalc(r, env);
    case Not(x) => TwoValuedCalc(x, env);
    case Cmp(_, _, _) =>
  }

  // Number of nodes
  function Size(e: Expr): nat {
    match e
    case Leaf(_) => 1
    case Cmp(_, _, _) => 1
    case Not(x) => 1 + Size(x)
    case Bin(_, l, r) => 1 + Size(l) + Size(r)
  }

  // ---------------------------------------------------------------- constants

  // The operand that changes nothing, and the one that decides the result
  function Unit(op: Op): Sym {
    if op.And? then SymYes else SymNo
  }

  function Zero(op: Op): Sym {
    if op.And? then SymNo else SymYes
  }

  function Dual(op: Op): Op {
    if op.And? then Or else And
  }

  // `expr_eliminate_yn`: it descends through && and || but not through !
  function EliminateYN(e: Expr): (r: Expr)
    ensures Size(r) <= Size(e)
  {
    if e.Bin? then DropYN(e.op, EliminateYN(e.left), EliminateYN(e.right)) else e
  }

  function DropYN(op: Op, l: Expr, r: Expr): (e: Expr)
    ensures Size(e) <= 1 + Size(l) + Size(r)
  {
    if l == Leaf(Zero(op)) then Leaf(Zero(op))
    else if l == Leaf(Unit(op)) then r
    else if r == Leaf(Zero(op)) then Leaf(Zero(op))
    else if r == Leaf(Unit(op)) then l
    else Bin(op, l, r)
  }

  lemma {:induction false} EliminateYNCalc(e: Expr, env: Env)
    requires WellTyped(env)
    ensures Calc(EliminateYN(e), env) == Calc(e, env)
  {
    if e.Bin? {
      EliminateYNCalc(e.left, env);
      EliminateYNCalc(e.right, env);
      assert Fits(SymYes, env(SymYes)) && Fits(SymNo, env(SymNo));
    }
  }

  // A y or n operand below the && and || nodes that EliminateYN walks
  predicate HasYN(e: Expr) {
    e.Bin? &&
    ( e.left in {Leaf(SymYes), Leaf(SymNo)} || e.right in {Leaf(SymYes), Leaf(SymNo)}
      || HasYN(e.left) || HasYN(e.right))
  }

  lemma {:induction false} EliminateYNShrinks(e: Expr)
    ensures HasYN(e) ==> Size(EliminateYN(e)) < Size(e)
    ensures !HasYN(e) ==> EliminateYN(e) == e
    ensures !HasYN(EliminateYN(e))
  {
    if e.Bin? {
      EliminateYNShrinks(e.left);
      EliminateYNShrinks(e.right);
    }
  }
}
