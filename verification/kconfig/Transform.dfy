/** `expr_transform` of `config/expr.c`: pushes ! down to the symbols and turns comparisons of
    boolean options with y, m and n into plain (negated) symbols.
 */
module KTransform {
  import opened KExpr

  // Decreases along every call, although a De Morgan step makes the tree larger
  function Weight(e: Expr): nat {
    match e
    case Leaf(_) => 1
    case Cmp(_, _, _) => 2
    case Not(x) => 2 * Weight(x)
    case Bin(_, l, r) => 1 + Weight(l) + Weight(r)
  }

  lemma {:induction false} WeightPositive(e: Expr)
    ensures Weight(e) >= 1
  {
    match e
    case Not(x) => WeightPositive(x);
    case Bin(_, l, r) => WeightPositive(l); WeightPositive(r);
    case _ =>
  }

  lemma DeMorganWeight(op: Op, l: Expr, r: Expr)
    ensures Weight(Bin(Dual(op), Not(l), Not(r))) < 2 * Weight(Bin(op, l, r))
  {
  }

  // The operands first, then the root; some roots are rewritten and transformed again
  function Transform(e: Expr): (r: Expr)
    ensures Weight(r) <= Weight(e)
    decreases Weight(e)
  {
    match e
    case Leaf(_) => e
    case Cmp(equal, a, b) => TransformCmp(equal, a, b)
    case Bin(op, l, r) =>
      WeightPositive(l); WeightPositive(r);
      Bin(op, Transform(l), Transform(r))
    case Not(x) =>
      WeightPositive(x);
      var x' := Transform(x);
      (match x'
       case Not(y) => WeightPositive(y); Transform(y)
       case Cmp(equal, a, b) => Cmp(!equal, a, b)
       case Bin(op, l, r) => DeMorganWeight(op, l, r); Transform(Bin(Dual(op), Not(l), Not(r)))
       case Leaf(s) =>
         if s.SymYes? then Leaf(SymNo)
         else if s.SymMod? then Leaf(SymMod)
         else if s.SymNo? then Leaf(SymYes)
         else Not(x'))
  }

  function TransformCmp(equal: bool, a: Sym, b: Sym): (r: Expr)
    ensures Weight(r) <= 2
  {
    if KindOf(a) != Boolean then Cmp(equal, a, b)
    else if b.SymNo? then (if equal then Not(Leaf(a)) else Leaf(a))
    else if b.SymMod? then (if equal then Leaf(SymNo) else Leaf(SymYes))
    else if b.SymYes? then (if equal then Leaf(a) else Not(Leaf(a)))
    else Cmp(equal, a, b)
  }

  function TransformDep(d: Dep): Dep {
    if d.Always? then Always else When(Transform(d.e))
  }

  // The value is kept, with y, m and n all told apart
  lemma {:induction false} TransformCalc(e: Expr, env: Env)
    requires WellTyped(env)
    ensures Calc(Transform(e), env) == Calc(e, env)
    decreases Weight(e)
  {
    match e
    case Leaf(_) =>
    case Cmp(equal, a, b) => TransformCmpCalc(equal, a, b, env);
    case Bin(op, l, r) =>
      WeightPositive(l); WeightPositive(r);
      TransformCalc(l, env); TransformCalc(r, env);
    case Not(x) =>
      WeightPositive(x);
      TransformCalc(x, env);
      var x' := Transform(x);
      match x' {
        case Not(y) => WeightPositive(y); TransformCalc(y, env);
        case Cmp(equal, a, b) =>
        case Bin(op, l, r) =>
          DeMorganWeight(op, l, r);
          TransformCalc(Bin(Dual(op), Not(l), Not(r)), env);
          DeMorgan(op, l, r, env);
        case Leaf(s) => assert Fits(s, env(s)) && Fits(SymYes, env(SymYes)) && Fits(SymNo, env(SymNo));
      }
  }

  lemma DeMorgan(op: Op, l: Expr, r: Expr, env: Env)
    ensures Calc(Not(Bin(op, l, r)), env) == Calc(Bin(Dual(op), Not(l), Not(r)), env)
  {
  }

  lemma TransformCmpCalc(equal: bool, a: Sym, b: Sym, env: Env)
    requires WellTyped(env)
    ensures Calc(TransformCmp(equal, a, b), env) == Calc(Cmp(equal, a, b), env)
  {
    assert Fits(a, env(a)) && Fits(b, env(b));
    assert Fits(SymYes, env(SymYes)) && Fits(SymNo, env(SymNo));
  }

  // ! only in front of a symbol that is not y, m or n; no boolean compared with y, m or n
  predicate Normal(e: Expr) {
    match e
    case Leaf(_) => true
    case Cmp(_, a, b) => KindOf(a) == Boolean ==> !b.SymYes? && !b.SymMod? && !b.SymNo?
    case Bin(_, l, r) => Normal(l) && Normal(r)
    case Not(x) => x.Leaf? && !x.sym.SymYes? && !x.sym.SymMod? && !x.sym.SymNo?
  }

  lemma {:induction false} TransformNormal(e: Expr)
    ensures Normal(Transform(e))
    decreases Weight(e)
  {
    match e
    case Leaf(_) =>
    case Cmp(_, _, _) =>
    case Bin(op, l, r) =>
      WeightPositive(l); WeightPositive(r);
      TransformNormal(l); TransformNormal(r);
    case Not(x) =>
      WeightPositive(x);
      TransformNormal(x);
      match Transform(x) {
        case Not(y) => WeightPositive(y); TransformNormal(y);
        case Bin(op, l, r) =>
          DeMorganWeight(op, l, r);
          TransformNormal(Bin(Dual(op), Not(l), Not(r)));
        case _ =>
      }
  }

  // Exactly the normal forms are left alone
  lemma {:induction false} NormalFixed(e: Expr)
    ensures Normal(e) <==> Transform(e) == e
  {
    if Normal(e) {
      match e
      case Bin(_, l, r) => NormalFixed(l); NormalFixed(r);
      case _ =>
    } else {
      TransformNormal(e);
    }
  }

  lemma TransformIdempotent(e: Expr)
    ensures Transform(Transform(e)) == Transform(e)
  {
    TransformNormal(e);
    NormalFixed(Transform(e));
  }
}
