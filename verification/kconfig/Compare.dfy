/** Turning an expression into a comparison and back, and the tests on dependencies that
    `menu_finalize` rests on: `expr_trans_compare`, `expr_trans_bool`, `expr_contains_symbol` and
    `expr_depends_symbol` of `config/expr.c`.
 */
module KCompare {
  import opened KExpr
  import opened KExprEq
  import opened KTransform
  import opened KDups

  predicate IsBuiltIn(s: Sym) {
    s.SymYes? || s.SymMod? || s.SymNo?
  }

  // `expr_trans_compare` for the three symbols it has a meaning for
  function TransCompare(e: Expr, equal: bool, sym: Sym): Expr
    requires IsBuiltIn(sym)
  {
    match e
    case Bin(op, l, r) =>
      var l', r' := TransCompare(l, true, sym), TransCompare(r, true, sym);
      var e' := if sym.SymYes? then Bin(op, l', r') else if sym.SymNo? then Bin(Dual(op), l', r') else e;
      if equal then e' else Not(e')
    case Not(x) => TransCompare(x, !equal, sym)
    case Cmp(_, _, _) =>
      if sym.SymMod? then Leaf(if equal then SymNo else SymYes)
      else if equal == sym.SymYes? then e else Not(e)
    case Leaf(s) => Cmp(equal, s, sym)
  }

  function TransCompareDep(d: Dep, equal: bool, sym: Sym): Expr
    requires IsBuiltIn(sym)
  {
    if d.When? then TransCompare(d.e, equal, sym) else if equal then Leaf(sym) else Not(Leaf(sym))
  }

  // Only symbols that have one of the three values as operands
  predicate Logical(e: Expr) {
    match e
    case Bin(_, l, r) => Logical(l) && Logical(r)
    case Not(x) => Logical(x)
    case Cmp(_, _, _) => true
    case Leaf(s) => IsBuiltIn(s) || IsLogical(s)
  }

  predicate IsLogical(s: Sym) {
    KindOf(s).Boolean? || KindOf(s).Tristate?
  }

  // The comparison is y or n, and right wherever the expression itself is y or n
  lemma {:induction false} TransCompareCalc(e: Expr, equal: bool, sym: Sym, env: Env)
    requires WellTyped(env) && Logical(e) && (sym.SymYes? || sym.SymNo?)
    ensures Calc(TransCompare(e, equal, sym), env) != MOD
    ensures Calc(TransCompare(e, equal, sym), env) == 2 - Calc(TransCompare(e, !equal, sym), env)
    ensures Calc(e, env) != MOD ==>
      (Calc(TransCompare(e, equal, sym), env) == YES <==> equal == (Calc(e, env) == env(sym).tri))
  {
    assert Fits(sym, env(sym));
    match e
    case Bin(op, l, r) =>
      TransCompareCalc(l, true, sym, env);
      TransCompareCalc(r, true, sym, env);
    case Not(x) => TransCompareCalc(x, equal, sym, env);
    case Cmp(_, _, _) =>
    case Leaf(s) => assert Fits(s, env(s));
  }

  // The direction the adoption of menu entries needs holds even when symbols are mod
  lemma TransCompareSafe(d: Dep, env: Env)
    requires WellTyped(env) && (d.When? ==> Logical(d.e))
    ensures Calc(TransCompareDep(d, false, SymNo), env) == YES ==> CalcDep(d, env) != NO
    ensures Calc(TransCompareDep(d, false, SymNo), env) != MOD
    ensures CalcDep(d, env) == YES ==> Calc(TransCompareDep(d, false, SymNo), env) == YES
  {
    assert Fits(SymNo, env(SymNo));
    if d.When? {
      TransCompareCalc(d.e, false, SymNo, env);
    }
  }

  // A negated symbol is where the comparison goes wrong, exactly when the symbol is mod
  lemma TransCompareNegated(s: Sym, equal: bool, sym: Sym, env: Env)
    requires WellTyped(env) && Logical(Leaf(s)) && (sym.SymYes? || sym.SymNo?)
    ensures (Calc(TransCompare(Not(Leaf(s)), equal, sym), env) == YES
        <==> equal == (Calc(Not(Leaf(s)), env) == env(sym).tri))
      <==> env(s).tri != MOD
  {
    assert Fits(s, env(s)) && Fits(sym, env(sym));
  }

  // What the comparison with y or n reads an expression as: ! is y or n, and turns round only the
  // value compared with
  function Read(e: Expr, sym: Sym, env: Env): Tri {
    match e
    case Bin(op, l, r) => Meet(op, Read(l, sym, env), Read(r, sym, env))
    case Not(x) =>
      if sym.SymNo? then (if Read(x, sym, env) == NO then YES else NO)
      else (if Read(x, sym, env) == YES then NO else YES)
    case _ => Calc(e, env)
  }

  // With that reading it is right for every tree in every assignment
  lemma {:induction false} TransCompareReads(e: Expr, equal: bool, sym: Sym, env: Env)
    requires WellTyped(env) && Logical(e) && (sym.SymYes? || sym.SymNo?)
    ensures Calc(TransCompare(e, equal, sym), env) == YES <==> equal == (Read(e, sym, env) == env(sym).tri)
    ensures Calc(TransCompare(e, equal, sym), env) != MOD
  {
    assert Fits(sym, env(sym));
    TransCompareCalc(e, equal, sym, env);
    match e
    case Bin(_, l, r) =>
      TransCompareCalc(e, !equal, sym, env);
      TransCompareReads(l, true, sym, env);
      TransCompareReads(r, true, sym, env);
    case Not(x) => TransCompareReads(x, !equal, sym, env);
    case Cmp(_, _, _) =>
    case Leaf(s) => assert Fits(s, env(s));
  }

  // So it is right about the value exactly where both readings agree on the value compared with
  lemma TransCompareRight(e: Expr, equal: bool, sym: Sym, env: Env)
    requires WellTyped(env) && Logical(e) && (sym.SymYes? || sym.SymNo?)
    ensures (Calc(TransCompare(e, equal, sym), env) == YES <==> equal == (Calc(e, env) == env(sym).tri))
      <==> ((Read(e, sym, env) == env(sym).tri) == (Calc(e, env) == env(sym).tri))
  {
    TransCompareReads(e, equal, sym, env);
  }

  // Without mod the comparison is exact
  lemma TransCompareExact(e: Expr, equal: bool, sym: Sym, env: Env)
    requires TwoValued(env) && ModFree(e) && Logical(e) && (sym.SymYes? || sym.SymNo?)
    ensures Calc(TransCompare(e, equal, sym), env) == YES <==> equal == (Calc(e, env) == env(sym).tri)
  {
    TwoValuedCalc(e, env);
    TransCompareCalc(e, equal, sym, env);
  }

  // ---------------------------------------------------------------- FOO!=n => FOO

  // `expr_trans_bool`
  function TransBool(e: Expr): Expr {
    match e
    case Bin(op, l, r) => Bin(op, TransBool(l), TransBool(r))
    case Not(x) => Not(TransBool(x))
    case Cmp(equal, a, b) => if !equal && KindOf(a) == Tristate && b == SymNo then Leaf(a) else e
    case Leaf(_) => e
  }

  // For a form with ! only before symbols: never larger, and no exactly when it was no
  lemma {:induction false} TransBoolCalc(e: Expr, env: Env)
    requires WellTyped(env) && Normal(e)
    ensures Calc(TransBool(e), env) <= Calc(e, env)
    ensures Calc(TransBool(e), env) == NO <==> Calc(e, env) == NO
  {
    match e
    case Bin(_, l, r) => TransBoolCalc(l, env); TransBoolCalc(r, env);
    case Cmp(_, a, b) => assert Fits(a, env(a)) && Fits(b, env(b));
    case _ =>
  }

  // No `FOO != n` with a tristate symbol is left, and a tree without one is left alone
  predicate NoneUnequal(e: Expr) {
    match e
    case Bin(_, l, r) => NoneUnequal(l) && NoneUnequal(r)
    case Not(x) => NoneUnequal(x)
    case Cmp(equal, a, b) => !(!equal && KindOf(a) == Tristate && b == SymNo)
    case Leaf(_) => true
  }

  lemma {:induction false} TransBoolGone(e: Expr)
    ensures NoneUnequal(TransBool(e)) && (NoneUnequal(e) <==> TransBool(e) == e)
  {
    match e
    case Bin(_, l, r) => TransBoolGone(l); TransBoolGone(r);
    case Not(x) => TransBoolGone(x);
    case _ =>
  }

  // Under a ! it is not kept, exactly when the option is mod
  lemma TransBoolUnderNot(s: Sym, env: Env)
    requires WellTyped(env) && KindOf(s) == Tristate
    ensures var e := Not(Cmp(false, s, SymNo));
      (Calc(TransBool(e), env) == NO <==> Calc(e, env) == NO) <==> env(s).tri != MOD
  {
    assert Fits(s, env(s)) && Fits(SymNo, env(SymNo));
    assert TransBool(Not(Cmp(false, s, SymNo))) == Not(Leaf(s));
  }

  // ---------------------------------------------------------------- dependencies

  // `expr_contains_symbol`
  predicate Contains(d: Dep, sym: Sym) {
    d.When? && Mentions(d.e, sym)
  }

  predicate Mentions(e: Expr, sym: Sym) {
    match e
    case Bin(_, l, r) => Mentions(l, sym) || Mentions(r, sym)
    case Not(x) => Mentions(x, sym)
    case Cmp(_, a, b) => a == sym || b == sym
    case Leaf(s) => s == sym
  }

  // What an expression does not contain cannot influence it
  lemma {:induction false} NotMentioned(e: Expr, sym: Sym, env: Env, env': Env)
    requires !Mentions(e, sym) && forall s: Sym | s != sym :: env(s) == env'(s)
    ensures Calc(e, env) == Calc(e, env')
  {
    match e
    case Bin(_, l, r) => NotMentioned(l, sym, env, env'); NotMentioned(r, sym, env, env');
    case Not(x) => NotMentioned(x, sym, env, env');
    case _ =>
  }

  function Renamed(e: Expr, s: Sym, t: Sym): Expr {
    match e
    case Bin(op, l, r) => Bin(op, Renamed(l, s, t), Renamed(r, s, t))
    case Not(x) => Not(Renamed(x, s, t))
    case Cmp(equal, a, b) => Cmp(equal, if a == s then t else a, if b == s then t else b)
    case Leaf(a) => Leaf(if a == s then t else a)
  }

  // and only what it contains shows when it gets another name
  lemma {:induction false} MentionsExactly(e: Expr, s: Sym, t: Sym)
    requires s != t
    ensures Mentions(e, s) <==> Renamed(e, s, t) != e
  {
    match e
    case Bin(_, l, r) => MentionsExactly(l, s, t); MentionsExactly(r, s, t);
    case Not(x) => MentionsExactly(x, s, t);
    case _ =>
  }

  // `expr_depends_symbol`
  predicate Depends(d: Dep, sym: Sym) {
    d.When? && Needs(d.e, sym)
  }

  predicate Needs(e: Expr, sym: Sym) {
    match e
    case Bin(And, l, r) => Needs(l, sym) || Needs(r, sym)
    case Leaf(s) => s == sym
    case Cmp(true, a, b) => a == sym && (b == SymYes || b == SymMod)
    case Cmp(false, a, b) => a == sym && b == SymNo
    case _ => false
  }

  // A dependency found is a real one
  lemma {:induction false} NeedsCalc(e: Expr, sym: Sym, env: Env)
    requires WellTyped(env) && IsLogical(sym) && Needs(e, sym)
    ensures Calc(e, env) != NO ==> env(sym).tri != NO
    ensures Mentions(e, sym)
  {
    NeedsMentions(e, sym);
    match e
    case Bin(_, l, r) =>
      if Needs(l, sym) { NeedsCalc(l, sym, env); } else { NeedsCalc(r, sym, env); }
    case Cmp(_, _, _) =>
      assert Fits(sym, env(sym));
      assert Fits(SymYes, env(SymYes)) && Fits(SymMod, env(SymMod)) && Fits(SymNo, env(SymNo));
    case _ =>
  }

  lemma {:induction false} NeedsMentions(e: Expr, sym: Sym)
    requires Needs(e, sym)
    ensures Mentions(e, sym)
  {
    if e.Bin? {
      if Needs(e.left, sym) { NeedsMentions(e.left, sym); } else { NeedsMentions(e.right, sym); }
    }
  }

  // What says at once that a symbol is not n: itself, ='y', ='m' or !='n'
  ghost function Demands(sym: Sym): set<Norm> {
    {NLeaf(sym), NCmp(true, sym, SymYes), NCmp(true, sym, SymMod), NCmp(false, sym, SymNo)}
  }

  ghost predicate SomeDemand(operands: multiset<Norm>, sym: Sym) {
    exists x :: x in operands && x in Demands(sym)
  }

  // A dependency is found exactly if one of the operands of && is one of these
  lemma {:induction false} NeedsExactly(e: Expr, sym: Sym)
    ensures Depends(When(e), sym) <==> SomeDemand(Operands(And, e), sym)
  {
    hide SomeDemand, Normalize;
    if IsOp(And, e) {
      NeedsExactly(e.left, sym);
      NeedsExactly(e.right, sym);
      DemandEither(Operands(And, e.left), Operands(And, e.right), sym);
    } else {
      NeedsOne(e, sym);
    }
  }

  lemma DemandEither(m: multiset<Norm>, n: multiset<Norm>, sym: Sym)
    ensures SomeDemand(m + n, sym) <==> SomeDemand(m, sym) || SomeDemand(n, sym)
  {
    hide Demands;
    if x :| x in m && x in Demands(sym) {
      assert x in m + n;
    } else if x :| x in n && x in Demands(sym) {
      assert x in m + n;
    }
  }

  lemma NeedsOne(e: Expr, sym: Sym)
    requires !IsOp(And, e)
    ensures Needs(e, sym) <==> SomeDemand(multiset{Normalize(e)}, sym)
  {
    assert Normalize(e) in multiset{Normalize(e)};
    assert Needs(e, sym) <==> Normalize(e) in Demands(sym);
    hide Needs, Demands, Normalize;
  }

  // ---------------------------------------------------------------- the adoption rule

  // `menu_finalize`, given the two conditions compared with n, transformed and freed of duplicates
  predicate Implied(cond: Expr, base: Expr) {
    EliminateEq(cond, base).1 == Leaf(SymYes)
  }

  lemma ImpliedCalc(cond: Expr, base: Expr, env: Env)
    requires WellTyped(env) && Implied(cond, base)
    ensures Calc(cond, env) <= Calc(base, env)
  {
    var op, c := EliminateEqCommon(cond, base, env);
    assert Fits(SymYes, env(SymYes));
  }

  // Two conjunctions, and each operand of the second is one of the first
  ghost predicate Covers(cond: Expr, base: Expr) {
    IsOp(And, cond) && IsOp(And, base) && Operands(And, base) <= Operands(And, cond)
  }

  // Without y and n among the operands: exactly if both are conjunctions, and every operand of the
  // base is one of the condition
  lemma ImpliedExactly(cond: Expr, base: Expr)
    requires NoYN(cond) && NoYN(base)
    ensures Implied(cond, base) <==> Covers(cond, base)
  {
    hide NoYN, Crossed, Remaining, CrossOut, EliminateYN, Operands, Remainder;
    if cond.Bin? && base.Bin? && cond.op == base.op {
      var op := cond.op;
      NoYNCrossed(op, cond);
      NoYNCrossed(op, base);
      CrossOutRemaining(op, cond, base);
      RemainingYN(op, CrossOut(op, cond, base).1);
      YesRemains(op, EliminateEq(cond, base).1, Operands(op, base), Operands(op, cond));
    } else {
      NoYes(base);
    }
  }

  lemma NoYes(e: Expr)
    requires NoYN(e)
    ensures e != Leaf(SymYes)
  {
  }

  lemma YesRemains(op: Op, r: Expr, m: multiset<Norm>, n: multiset<Norm>)
    requires Remainder(op, r, m - n)
    ensures r == Leaf(SymYes) <==> op == And && m <= n
  {
    if m <= n {
      assert m - n == multiset{};
    } else {
      var x :| m[x] > n[x];
      assert x in m - n;
    }
  }

  // An entry adopted this way is never selectable while the entry above it is hidden
  lemma AdoptionSound(dep: Dep, parent: Dep, cond: Expr, base: Expr, env: Env)
    requires WellTyped(env) && (dep.When? ==> Logical(dep.e)) && (parent.When? ==> Logical(parent.e))
    requires Keeps(Transform(TransCompareDep(dep, false, SymNo)), cond)
    requires Keeps(Transform(TransCompareDep(parent, false, SymNo)), base)
    requires Implied(cond, base)
    ensures CalcDep(dep, env) == YES ==> CalcDep(parent, env) != NO
  {
    TransCompareSafe(dep, env);
    TransCompareSafe(parent, env);
    TransformCalc(TransCompareDep(dep, false, SymNo), env);
    TransformCalc(TransCompareDep(parent, false, SymNo), env);
    ImpliedCalc(cond, base, env);
  }
}
