/** What clearing and merging of operands mean (`config/expr.c`): where clearing is right, and which
    operands it clears.
 */
module KClash {
  import opened KExpr
  import opened KExprEq
  import opened KTransform
  import opened KJoin
  import opened KSlots
  import opened KDups

  // Without mod, to keep every value but mod is to keep every value
  lemma KeepsTwoValued(x: Expr, y: Expr)
    requires Keeps(x, y) && ModFree(x)
    ensures Equiv2(x, y)
  {
    forall env: Env | TwoValued(env)
      ensures Calc(x, env) == Calc(y, env)
    {
      TwoValuedCalc(x, env);
    }
  }

  // Clearing an operand is right exactly where the tree is not mod
  lemma ClashExact(op: Op, e: Expr, s: Path, t: Path, env: Env)
    requires OnSpine(op, e, s) && OnSpine(op, e, t) && Within(e, s) && Within(e, t)
    requires WellTyped(env) && Clash(op, Get(e, s), Get(e, t))
    ensures Calc(Put(e, s, Leaf(Zero(op))), env) == Calc(e, env) <==> Calc(e, env) != MOD
  {
    ClashStepCalc(op, e, s, t, env);
    BuiltIns(env);
    SpineCalc(op, e, s, Leaf(Zero(op)), env);
  }

  // (FOO || BAR) && (!FOO && !BAR) with FOO and BAR at m is m, and is rewritten to n
  lemma ClashLosesMod(foo: Sym, bar: Sym, env: Env)
    requires KindOf(foo) == Tristate && KindOf(bar) == Tristate && foo != bar
    requires WellTyped(env) && env(foo).tri == MOD && env(bar).tri == MOD
    ensures var x := Bin(Or, Leaf(foo), Leaf(bar));
      var e := Bin(And, x, Bin(And, Not(Leaf(foo)), Not(Leaf(bar))));
      Clash(And, x, e.right) && Calc(e, env) == MOD && Calc(Bin(And, Leaf(SymNo), e.right), env) == NO
  {
    var x := Bin(Or, Leaf(foo), Leaf(bar));
    var nx := Bin(And, Not(Leaf(foo)), Not(Leaf(bar)));
    assert Normal(Leaf(foo)) && Normal(Leaf(bar));
    assert Normal(Not(Leaf(foo))) && Normal(Not(Leaf(bar))) && Normal(x);
    NormalFixed(nx);
    NormalFixed(x);
    assert Transform(Not(x)) == nx;
    assert NoYN(Leaf(foo)) && NoYN(Leaf(bar)) && NoYN(Not(Leaf(foo))) && NoYN(Not(Leaf(bar)));
    SelfExtract(And, nx);
    BuiltIns(env);
    BothMod(foo, bar, env);
  }

  lemma BothMod(foo: Sym, bar: Sym, env: Env)
    requires env(foo).tri == MOD && env(bar).tri == MOD
    ensures Calc(Bin(Or, Leaf(foo), Leaf(bar)), env) == MOD
    ensures Calc(Bin(And, Not(Leaf(foo)), Not(Leaf(bar))), env) == MOD
  {
    assert Calc(Leaf(foo), env) == MOD && Calc(Leaf(bar), env) == MOD;
    assert Calc(Not(Leaf(foo)), env) == MOD && Calc(Not(Leaf(bar)), env) == MOD;
  }

  // Without y and n among the operands, what is extracted is what crossing out takes away
  lemma {:induction false} ExtractIsCross(op: Op, common: Dep, a: Expr, b: Expr)
    requires Crossed(op, a) && Crossed(op, b)
    ensures var (c, a', b') := ExtractEq(op, common, a, b);
      && (a', b') == CrossOut(op, a, b)
      && (common.When? ==> c.When?) && (c.Always? ==> a' == a && b' == b)
    decreases Size(a) + Size(b)
  {
    hide Crossed, CrossOut, ExtractEq, Remaining;
    CrossedParts(op, a);
    CrossedParts(op, b);
    if IsOp(op, a) {
      var (c1, _, b1) := ExtractEq(op, common, a.left, b);
      ExtractIsCross(op, common, a.left, b);
      CrossOutRemaining(op, a.left, b);
      ExtractIsCross(op, c1, a.right, b1);
      LeftSteps(op, common, a, b);
    } else if IsOp(op, b) {
      var (c1, a1, _) := ExtractEq(op, common, a, b.left);
      ExtractIsCross(op, common, a, b.left);
      CrossOutRemaining(op, a, b.left);
      ExtractIsCross(op, c1, a1, b.right);
      RightSteps(op, common, a, b);
    } else {
      ExtractLeaf(op, common, a, b);
    }
  }

  lemma LeftSteps(op: Op, common: Dep, a: Expr, b: Expr)
    requires IsOp(op, a)
    ensures var (l, b1) := CrossOut(op, a.left, b);
      var (r, b2) := CrossOut(op, a.right, b1);
      CrossOut(op, a, b) == (Bin(op, l, r), b2)
    ensures var (c1, l, b1) := ExtractEq(op, common, a.left, b);
      var (c2, r, b2) := ExtractEq(op, c1, a.right, b1);
      ExtractEq(op, common, a, b) == (c2, Bin(op, l, r), b2)
  {
  }

  lemma RightSteps(op: Op, common: Dep, a: Expr, b: Expr)
    requires !IsOp(op, a) && IsOp(op, b)
    ensures var (a1, l) := CrossOut(op, a, b.left);
      var (a2, r) := CrossOut(op, a1, b.right);
      CrossOut(op, a, b) == (a2, Bin(op, l, r))
    ensures var (c1, a1, l) := ExtractEq(op, common, a, b.left);
      var (c2, a2, r) := ExtractEq(op, c1, a1, b.right);
      ExtractEq(op, common, a, b) == (c2, a2, Bin(op, l, r))
  {
  }

  lemma ExtractLeaf(op: Op, common: Dep, a: Expr, b: Expr)
    requires Crossed(op, a) && !IsOp(op, a) && !IsOp(op, b)
    ensures var (c, a', b') := ExtractEq(op, common, a, b);
      && (a', b') == CrossOut(op, a, b)
      && (common.When? ==> c.When?) && (c.Always? ==> a' == a && b' == b)
  {
    hide Crossed, ExprEq;
    if a.Leaf? && b.Leaf? && a.sym == b.sym {
      SameConstant(op, a, b);
    }
  }

  lemma CrossedParts(op: Op, e: Expr)
    requires Crossed(op, e)
    ensures IsOp(op, e) ==> Crossed(op, e.left) && Crossed(op, e.right)
  {
  }

  lemma SameConstant(op: Op, a: Expr, b: Expr)
    requires Crossed(op, a) && a.Leaf? && a == b
    ensures ExprEq(a, b) && (HasYesNoFlag(a.sym) ==> a == Leaf(Unit(op)))
  {
  }

  // What is left of one side is the multiset difference of the operands
  lemma ExtractRemainder(op: Op, a: Expr, b: Expr)
    requires NoYN(a) && NoYN(b)
    ensures Remainder(op, ExtractEqYN(op, a, b).1, Operands(op, a) - Operands(op, b))
    ensures Remainder(op, ExtractEqYN(op, a, b).2, Operands(op, b) - Operands(op, a))
  {
    hide NoYN, Crossed, Remaining, CrossOut, ExtractEq, EliminateYN, Remainder, Operands;
    NoYNCrossed(op, a);
    NoYNCrossed(op, b);
    ExtractIsCross(op, Always, a, b);
    CrossOutRemaining(op, a, b);
    RemainingYN(op, CrossOut(op, a, b).0);
    RemainingYN(op, CrossOut(op, a, b).1);
    NoYNFixed(a);
    NoYNFixed(b);
  }

  // So dups2 clears an operand exactly when each operand of its negation is an operand of the other
  lemma ClashMeans(op: Op, x: Expr, y: Expr)
    requires NoYN(Transform(Not(x))) && NoYN(y)
    ensures Clash(op, x, y) <==> Operands(op, Transform(Not(x))) <= Operands(op, y)
  {
    hide Transform, ExtractEqYN, Operands, NoYN;
    var nx := Transform(Not(x));
    var m, n := Operands(op, nx), Operands(op, y);
    ExtractRemainder(op, nx, y);
    if m <= n {
      assert m - n == multiset{};
    } else {
      Missing(m, n);
      UnitHasYN(op);
    }
  }

  lemma UnitHasYN(op: Op)
    ensures !NoYN(Leaf(Unit(op)))
  {
  }

  lemma Missing<T>(m: multiset<T>, n: multiset<T>)
    requires !(m <= n)
    ensures m - n != multiset{}
  {
    if m - n == multiset{} {
      forall t
        ensures m[t] <= n[t]
      {
        assert (m - n)[t] == 0;
      }
    }
  }

  // A tree extracted from itself leaves nothing
  lemma SelfExtract(op: Op, e: Expr)
    requires NoYN(e)
    ensures ExtractEqYN(op, e, e).1 == Leaf(Unit(op)) && ExtractEqYN(op, e, e).2 == Leaf(Unit(op))
  {
    ExtractRemainder(op, e, e);
    assert Operands(op, e) - Operands(op, e) == multiset{};
    hide ExtractEqYN, Operands, NoYN;
  }
}
