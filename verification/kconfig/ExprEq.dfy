/** `expr_eq`, `expr_eliminate_eq` and `__expr_eliminate_eq` of `config/expr.c`: equality of
    expressions modulo associativity and commutativity of && and ||, decided by crossing out
    equal operands on both sides.
 */
module KExprEq {
  import opened KExpr

  // `__expr_eliminate_eq` on two separate trees, for the operators `expr_eq` uses it with.
  // Every operand of the left tree is compared with every operand of the right tree, in order;
  // a pair that is equal is overwritten, on both sides, by the constant that changes nothing.
  function CrossOut(op: Op, a: Expr, b: Expr): (r: (Expr, Expr))
    ensures Size(r.0) <= Size(a) && Size(r.1) <= Size(b)
    decreases Size(a) + Size(b), if IsOp(op, a) || IsOp(op, b) then 0 else 2
  {
    if IsOp(op, a) then
      var (l, b1) := CrossOut(op, a.left, b);
      var (r, b2) := CrossOut(op, a.right, b1);
      (Bin(op, l, r), b2)
    else if IsOp(op, b) then
      var (a1, l) := CrossOut(op, a, b.left);
      var (a2, r) := CrossOut(op, a1, b.right);
      (a2, Bin(op, l, r))
    else if a.Leaf? && b.Leaf? && a.sym == b.sym && HasYesNoFlag(a.sym) then (a, b)
    else if !ExprEq(a, b) then (a, b)
    else (Leaf(Unit(op)), Leaf(Unit(op)))
  }

  predicate IsOp(op: Op, e: Expr) {
    e.Bin? && e.op == op
  }

  // `expr_eliminate_eq`
  function EliminateEq(a: Expr, b: Expr): (Expr, Expr)
    decreases Size(a) + Size(b), 1
  {
    if a.Bin? && b.Bin? && a.op == b.op then
      var (a', b') := CrossOut(a.op, a, b);
      (EliminateYN(a'), EliminateYN(b'))
    else (a, b)
  }

  // Same `type`
  predicate SameType(a: Expr, b: Expr) {
    match (a, b)
    case (Bin(op1, _, _), Bin(op2, _, _)) => op1 == op2
    case (Not(_), Not(_)) => true
    case (Cmp(q1, _, _), Cmp(q2, _, _)) => q1 == q2
    case (Leaf(_), Leaf(_)) => true
    case _ => false
  }

  // The two pointers of a node: a negation has none on the right, and those of a comparison or a
  // symbol lead to symbols
  datatype Pointer = ToTree(e: Expr) | Elsewhere

  function LeftOf(e: Expr): Pointer {
    match e
    case Bin(_, l, _) => ToTree(l)
    case Not(x) => ToTree(x)
    case _ => Elsewhere
  }

  function RightOf(e: Expr): Pointer {
    if e.Bin? then ToTree(e.right) else Elsewhere
  }

  function SizeOf(c: Pointer): nat {
    if c.ToTree? then Size(c.e) else 0
  }

  // `__expr_eliminate_eq(e->type, &a, &b)` looks at trees only
  predicate OnlyTrees(e: Expr, a: Pointer, b: Pointer)
    decreases SizeOf(a) + SizeOf(b)
  {
    a.ToTree? &&
    if SameType(e, a.e) then OnlyTrees(e, LeftOf(a.e), b) && OnlyTrees(e, RightOf(a.e), b)
    else b.ToTree? && (SameType(e, b.e) ==> OnlyTrees(e, a, LeftOf(b.e)) && OnlyTrees(e, a, RightOf(b.e)))
  }

  lemma {:induction false} OpOnlyTrees(e: Expr, a: Expr, b: Expr)
    requires e.Bin?
    ensures OnlyTrees(e, ToTree(a), ToTree(b))
    decreases Size(a) + Size(b)
  {
    if SameType(e, a) {
      OpOnlyTrees(e, a.left, b);
      OpOnlyTrees(e, a.right, b);
    } else if SameType(e, b) {
      OpOnlyTrees(e, a, b.left);
      OpOnlyTrees(e, a, b.right);
    }
  }

  // So it may be called on two trees exactly if their types differ, which is the guard of
  // `expr_eliminate_eq`, or are an && or an ||
  lemma MayCross(a: Expr, b: Expr)
    ensures !SameType(a, b) || OnlyTrees(a, ToTree(a), ToTree(b)) <==> Comparable(a, b)
  {
    if a.Bin? {
      OpOnlyTrees(a, a, b);
    }
  }

  predicate Comparable(a: Expr, b: Expr) {
    SameType(a, b) ==> a.Bin?
  }

  // `expr_eq`: the two trees of && and || are copied first, so the arguments are unchanged
  predicate ExprEq(a: Expr, b: Expr)
    decreases Size(a) + Size(b), 1
  {
    match (a, b)
    case (Cmp(q1, a1, b1), Cmp(q2, a2, b2)) => q1 == q2 && a1 == a2 && b1 == b2
    case (Leaf(s1), Leaf(s2)) => s1 == s2
    case (Not(x), Not(y)) => ExprEq(x, y)
    case (Bin(op1, _, _), Bin(op2, _, _)) =>
      op1 == op2 &&
      var (a1, b1) := CrossOut(op1, a, b);
      var (a', b') := (EliminateYN(a1), EliminateYN(b1));
      a'.Leaf? && b'.Leaf? && a'.sym == b'.sym
    case _ => false
  }

  // ---------------------------------------------------------------- soundness

  lemma MeetSplit(op: Op, c1: Tri, x: Tri, c2: Tri, y: Tri)
    ensures Meet(op, Meet(op, c1, x), Meet(op, c2, y)) == Meet(op, Meet(op, c1, c2), Meet(op, x, y))
    ensures Meet(op, c1, Meet(op, x, c2)) == Meet(op, Meet(op, c1, x), c2)
  {
  }

  // What was crossed out is a common part `c` of both sides
  lemma {:induction false} CrossOutCommon(op: Op, a: Expr, b: Expr, env: Env) returns (c: Tri)
    requires WellTyped(env)
    ensures Calc(a, env) == Meet(op, c, Calc(CrossOut(op, a, b).0, env))
    ensures Calc(b, env) == Meet(op, c, Calc(CrossOut(op, a, b).1, env))
    decreases Size(a) + Size(b), if IsOp(op, a) || IsOp(op, b) then 0 else 2
  {
    if IsOp(op, a) {
      var (l, b1) := CrossOut(op, a.left, b);
      var (r, b2) := CrossOut(op, a.right, b1);
      var c1 := CrossOutCommon(op, a.left, b, env);
      var c2 := CrossOutCommon(op, a.right, b1, env);
      c := Meet(op, c1, c2);
      assert CrossOut(op, a, b) == (Bin(op, l, r), b2);
      MeetSplit(op, c1, Calc(l, env), c2, Calc(r, env));
      MeetSplit(op, c1, c2, Calc(b2, env), Calc(b2, env));
    } else if IsOp(op, b) {
      var (a1, l) := CrossOut(op, a, b.left);
      var (a2, r) := CrossOut(op, a1, b.right);
      var c1 := CrossOutCommon(op, a, b.left, env);
      var c2 := CrossOutCommon(op, a1, b.right, env);
      c := Meet(op, c1, c2);
      assert CrossOut(op, a, b) == (a2, Bin(op, l, r));
      MeetSplit(op, c1, Calc(l, env), c2, Calc(r, env));
      MeetSplit(op, c1, c2, Calc(a2, env), Calc(a2, env));
    } else {
      c := CrossOutLeaf(op, a, b, env);
    }
  }

  lemma {:induction false} CrossOutLeaf(op: Op, a: Expr, b: Expr, env: Env) returns (c: Tri)
    requires WellTyped(env)
    requires !IsOp(op, a) && !IsOp(op, b)
    ensures Calc(a, env) == Meet(op, c, Calc(CrossOut(op, a, b).0, env))
    ensures Calc(b, env) == Meet(op, c, Calc(CrossOut(op, a, b).1, env))
    decreases Size(a) + Size(b), 2, 0
  {
    assert Fits(SymYes, env(SymYes)) && Fits(SymNo, env(SymNo));
    if CrossOut(op, a, b) == (a, b) {
      c := env(Unit(op)).tri;
    } else {
      c := Calc(a, env);
      ExprEqSound(a, b, env);
    }
  }

  lemma {:induction false} ExprEqSound(a: Expr, b: Expr, env: Env)
    requires WellTyped(env)
    requires ExprEq(a, b)
    ensures Calc(a, env) == Calc(b, env)
    decreases Size(a) + Size(b), 1
  {
    match a
    case Not(x) => ExprEqSound(x, b.arg, env);
    case Bin(op, _, _) =>
      var c := CrossOutCommon(op, a, b, env);
      EliminateYNCalc(CrossOut(op, a, b).0, env);
      EliminateYNCalc(CrossOut(op, a, b).1, env);
    case Leaf(_) =>
    case Cmp(_, _, _) =>
  }

  // Crossing out keeps "a == b" in both directions of what is left of the two sides
  lemma EliminateEqCommon(a: Expr, b: Expr, env: Env) returns (op: Op, c: Tri)
    requires WellTyped(env)
    ensures Calc(a, env) == Meet(op, c, Calc(EliminateEq(a, b).0, env))
    ensures Calc(b, env) == Meet(op, c, Calc(EliminateEq(a, b).1, env))
  {
    if a.Bin? && b.Bin? && a.op == b.op {
      op := a.op;
      c := CrossOutCommon(op, a, b, env);
      EliminateYNCalc(CrossOut(op, a, b).0, env);
      EliminateYNCalc(CrossOut(op, a, b).1, env);
    } else {
      op, c := And, YES;
    }
  }

  // ---------------------------------------------------------------- equality modulo AC

  // The reference: an expression up to the order and grouping of the operands of && and ||
  datatype Norm =
    | NBin(op: Op, args: multiset<Norm>)
    | NNot(arg: Norm)
    | NCmp(equal: bool, a: Sym, b: Sym)
    | NLeaf(sym: Sym)

  ghost function Normalize(e: Expr): Norm
    decreases e, 0
  {
    match e
    case Bin(op, l, r) => NBin(op, Operands(op, l) + Operands(op, r))
    case Not(x) => NNot(Normalize(x))
    case Cmp(equal, a, b) => NCmp(equal, a, b)
    case Leaf(s) => NLeaf(s)
  }

  ghost function Operands(op: Op, e: Expr): multiset<Norm>
    decreases e, 1
  {
    if IsOp(op, e) then Operands(op, e.left) + Operands(op, e.right) else multiset{Normalize(e)}
  }

  lemma NormalizeIsAC(op: Op, x: Expr, y: Expr, z: Expr)
    ensures Normalize(Bin(op, x, y)) == Normalize(Bin(op, y, x))
    ensures Normalize(Bin(op, x, Bin(op, y, z))) == Normalize(Bin(op, Bin(op, x, y), z))
    ensures Normalize(x) == Normalize(y) ==> Normalize(Bin(op, x, z)) == Normalize(Bin(op, y, z))
  {
  }

  // No constant with a y or n bit as an operand; `=` and `!=` may compare with any symbol
  predicate NoYN(e: Expr) {
    match e
    case Bin(_, l, r) => NoYN(l) && NoYN(r)
    case Not(x) => NoYN(x)
    case Cmp(_, _, _) => true
    case Leaf(s) => !HasYesNoFlag(s)
  }

  // A tree in the course of crossing out: each operand is still there, or is the constant
  // that took the place of a crossed-out one
  predicate Crossed(op: Op, e: Expr) {
    if IsOp(op, e) then Crossed(op, e.left) && Crossed(op, e.right)
    else e == Leaf(Unit(op)) || NoYN(e)
  }

  ghost function Remaining(op: Op, e: Expr): multiset<Norm> {
    if IsOp(op, e) then Remaining(op, e.left) + Remaining(op, e.right)
    else if e == Leaf(Unit(op)) then multiset{}
    else multiset{Normalize(e)}
  }

  lemma {:induction false} NoYNCrossed(op: Op, e: Expr)
    requires NoYN(e)
    ensures Crossed(op, e) && Remaining(op, e) == Operands(op, e)
  {
    if IsOp(op, e) {
      NoYNCrossed(op, e.left);
      NoYNCrossed(op, e.right);
    }
  }

  lemma {:induction false} NoYNFixed(e: Expr)
    requires NoYN(e)
    ensures EliminateYN(e) == e
  {
    if e.Bin? {
      NoYNFixed(e.left);
      NoYNFixed(e.right);
    }
  }

  lemma DifferenceSteps<T>(x: multiset<T>, y: multiset<T>, z: multiset<T>)
    ensures (x - z) + (y - (z - x)) == (x + y) - z
    ensures (z - x) - y == z - (x + y)
  {
  }

  // The greedy pairing takes out as many copies of each operand as both sides have:
  // what remains on each side is the multiset difference
  lemma {:induction false} CrossOutRemaining(op: Op, a: Expr, b: Expr)
    requires Crossed(op, a) && Crossed(op, b)
    ensures Crossed(op, CrossOut(op, a, b).0) && Crossed(op, CrossOut(op, a, b).1)
    ensures Remaining(op, CrossOut(op, a, b).0) == Remaining(op, a) - Remaining(op, b)
    ensures Remaining(op, CrossOut(op, a, b).1) == Remaining(op, b) - Remaining(op, a)
    decreases Size(a) + Size(b), if IsOp(op, a) || IsOp(op, b) then 0 else 2
  {
    if IsOp(op, a) {
      var (l, b1) := CrossOut(op, a.left, b);
      var (r, b2) := CrossOut(op, a.right, b1);
      CrossOutRemaining(op, a.left, b);
      CrossOutRemaining(op, a.right, b1);
      assert CrossOut(op, a, b) == (Bin(op, l, r), b2);
      DifferenceSteps(Remaining(op, a.left), Remaining(op, a.right), Remaining(op, b));
    } else if IsOp(op, b) {
      var (a1, l) := CrossOut(op, a, b.left);
      var (a2, r) := CrossOut(op, a1, b.right);
      CrossOutRemaining(op, a, b.left);
      CrossOutRemaining(op, a1, b.right);
      assert CrossOut(op, a, b) == (a2, Bin(op, l, r));
      DifferenceSteps(Remaining(op, b.left), Remaining(op, b.right), Remaining(op, a));
    } else {
      CrossOutRemainingLeaf(op, a, b);
    }
  }

  lemma PlaceholderStays(op: Op, a: Expr, b: Expr)
    requires a == Leaf(Unit(op)) || b == Leaf(Unit(op))
    requires !IsOp(op, a) && !IsOp(op, b) && Crossed(op, a) && Crossed(op, b)
    ensures CrossOut(op, a, b) == (a, b)
  {
    if a.Leaf? && b.Leaf? && a.sym == b.sym {
      assert HasYesNoFlag(a.sym);
    } else {
      assert !ExprEq(a, b);
    }
  }

  lemma {:induction false} CrossOutRemainingLeaf(op: Op, a: Expr, b: Expr)
    requires Crossed(op, a) && Crossed(op, b)
    requires !IsOp(op, a) && !IsOp(op, b)
    ensures Crossed(op, CrossOut(op, a, b).0) && Crossed(op, CrossOut(op, a, b).1)
    ensures Remaining(op, CrossOut(op, a, b).0) == Remaining(op, a) - Remaining(op, b)
    ensures Remaining(op, CrossOut(op, a, b).1) == Remaining(op, b) - Remaining(op, a)
    decreases Size(a) + Size(b), 2, 0
  {
    var dead := Leaf(Unit(op));
    if a == dead || b == dead {
      PlaceholderStays(op, a, b);
    } else {
      ExprEqExact(a, b);
      var x, y := Normalize(a), Normalize(b);
      hide Normalize, NoYN;
      assert Remaining(op, a) == multiset{x} && Remaining(op, b) == multiset{y};
      if ExprEq(a, b) {
        assert CrossOut(op, a, b) == (dead, dead);
        assert Remaining(op, dead) == multiset{};
      } else {
        assert CrossOut(op, a, b) == (a, b);
        assert multiset{x} - multiset{y} == multiset{x};
      }
    }
  }

  // What is left of a tree once the placeholders are gone
  ghost predicate Remainder(op: Op, r: Expr, m: multiset<Norm>) {
    if m == multiset{} then r == Leaf(Unit(op)) else NoYN(r) && Operands(op, r) == m
  }

  lemma RemainderDrop(op: Op, l: Expr, r: Expr, x: multiset<Norm>, y: multiset<Norm>)
    requires Remainder(op, l, x) && Remainder(op, r, y)
    ensures Remainder(op, DropYN(op, l, r), x + y)
  {
    if x == multiset{} {
      assert x + y == y;
      assert NoYN(r) ==> r != Leaf(Zero(op));
    } else if y == multiset{} {
      assert x + y == x;
      assert NoYN(l) ==> l != Leaf(Zero(op)) && l != Leaf(Unit(op));
    } else {
      KeepBoth(op, l, r);
      SumNonempty(x, y);
    }
  }

  lemma KeepBoth(op: Op, l: Expr, r: Expr)
    requires NoYN(l) && NoYN(r)
    ensures NoYN(DropYN(op, l, r))
    ensures Operands(op, DropYN(op, l, r)) == Operands(op, l) + Operands(op, r)
  {
    assert l != Leaf(Zero(op)) && l != Leaf(Unit(op));
    assert r != Leaf(Zero(op)) && r != Leaf(Unit(op));
    assert DropYN(op, l, r) == Bin(op, l, r);
  }

  lemma SumNonempty<T>(x: multiset<T>, y: multiset<T>)
    requires x != multiset{}
    ensures x + y != multiset{}
  {
    var t :| t in x;
    assert t in x + y;
  }

  lemma {:induction false} RemainingYN(op: Op, e: Expr)
    requires Crossed(op, e)
    ensures Remainder(op, EliminateYN(e), Remaining(op, e))
  {
    if IsOp(op, e) {
      RemainingYN(op, e.left);
      RemainingYN(op, e.right);
      RemainderDrop(op, EliminateYN(e.left), EliminateYN(e.right), Remaining(op, e.left), Remaining(op, e.right));
    } else if e != Leaf(Unit(op)) {
      NoYNFixed(e);
      assert Normalize(e) in Remaining(op, e);
    }
  }

  // Without y and n among the operands, `expr_eq` decides equality modulo associativity
  // and commutativity
  lemma {:induction false} ExprEqExact(a: Expr, b: Expr)
    requires NoYN(a) && NoYN(b)
    ensures ExprEq(a, b) <==> Normalize(a) == Normalize(b)
    decreases Size(a) + Size(b), 1
  {
    if a.Not? && b.Not? {
      ExprEqExact(a.arg, b.arg);
    } else if a.Bin? && b.Bin? && a.op == b.op {
      ExprEqExactBin(a, b);
    }
  }

  lemma {:induction false} ExprEqExactBin(a: Expr, b: Expr)
    requires NoYN(a) && NoYN(b) && a.Bin? && b.Bin? && a.op == b.op
    ensures ExprEq(a, b) <==> Normalize(a) == Normalize(b)
    decreases Size(a) + Size(b), 1, 0
  {
    hide CrossOut, EliminateYN, Remaining, Crossed, Remainder, NoYN;
    var op := a.op;
    var (a1, b1) := CrossOut(op, a, b);
    var x, y := Operands(op, a), Operands(op, b);
    NoYNCrossed(op, a);
    NoYNCrossed(op, b);
    CrossOutRemaining(op, a, b);
    RemainingYN(op, a1);
    RemainingYN(op, b1);
    RemainderEqual(op, EliminateYN(a1), EliminateYN(b1), x, y);
    assert Normalize(a) == NBin(op, x) && Normalize(b) == NBin(op, y);
  }

  lemma RemainderEqual(op: Op, a: Expr, b: Expr, x: multiset<Norm>, y: multiset<Norm>)
    requires Remainder(op, a, x - y) && Remainder(op, b, y - x)
    ensures (a.Leaf? && a == b) <==> x == y
  {
    if x == y {
      assert x - y == multiset{} && y - x == multiset{};
    } else {
      BothEmpty(x, y);
      if a.Leaf? && a == b && x - y != multiset{} && y - x != multiset{} {
        DisjointDifferences(x, y);
        assert false;
      }
    }
  }

  lemma DisjointDifferences<T>(x: multiset<T>, y: multiset<T>)
    ensures x - y == y - x ==> x - y == multiset{}
  {
  }

  lemma BothEmpty<T>(x: multiset<T>, y: multiset<T>)
    ensures x - y == multiset{} && y - x == multiset{} ==> x == y
  {
    if x - y == multiset{} && y - x == multiset{} {
      forall t ensures x[t] == y[t] {
        assert (x - y)[t] == 0 && (y - x)[t] == 0;
      }
    }
  }
}
