/** The rules that merge two operands (`expr_join_or`, `expr_join_and`) and the factoring of two
    expressions by their common operands (`expr_extract_eq` and its two callers) of `config/expr.c`.
 */
module KJoin {
  import opened KExpr
  import opened KExprEq

  datatype Joined = NoRule | Rule(e: Expr)
  datatype Subject = NoSubject | About(sym: Sym)

  // `sym1`: the symbol the first operand is about; a negated comparison is looked into
  function FirstSubject(e: Expr): Subject {
    match e
    case Leaf(s) => About(s)
    case Cmp(_, a, _) => About(a)
    case Not(Leaf(s)) => About(s)
    case Not(Cmp(_, a, _)) => About(a)
    case _ => NoSubject
  }

  // `sym2`: a negated comparison is not
  function SecondSubject(e: Expr): Subject {
    match e
    case Leaf(s) => About(s)
    case Cmp(_, a, _) => About(a)
    case Not(Leaf(s)) => About(s)
    case _ => NoSubject
  }

  // `e->type == E_EQUAL && e->right.sym == s`, resp. E_UNEQUAL
  predicate Is(e: Expr, s: Sym) {
    e.Cmp? && e.equal && e.b == s
  }

  predicate IsNot(e: Expr, s: Sym) {
    e.Cmp? && !e.equal && e.b == s
  }

  predicate EitherIs(x: Expr, y: Expr, s: Sym, t: Sym) {
    (Is(x, s) && Is(y, t)) || (Is(x, t) && Is(y, s))
  }

  predicate EitherIsNot(x: Expr, y: Expr, s: Sym, t: Sym) {
    (IsNot(x, s) && IsNot(y, t)) || (IsNot(x, t) && IsNot(y, s))
  }

  // `expr_join_or`
  function JoinOr(x: Expr, y: Expr): Joined {
    if ExprEq(x, y) then Rule(x)
    else if FirstSubject(x).NoSubject? || FirstSubject(x) != SecondSubject(y) then NoRule
    else
      var sym := FirstSubject(x).sym;
      if KindOf(sym) == Tristate then
        if EitherIs(x, y, SymYes, SymMod) then Rule(Cmp(false, sym, SymNo))
        else if EitherIs(x, y, SymYes, SymNo) then Rule(Cmp(false, sym, SymMod))
        else if EitherIs(x, y, SymMod, SymNo) then Rule(Cmp(false, sym, SymYes))
        else NoRule
      else if KindOf(sym) == Boolean then
        if (x.Not? && x.arg.Leaf? && y.Leaf?) || (y.Not? && y.arg.Leaf? && x.Leaf?)
        then Rule(Leaf(SymYes))
        else NoRule
      else NoRule
  }

  // `expr_join_and`
  function JoinAnd(x: Expr, y: Expr): Joined {
    if ExprEq(x, y) then Rule(x)
    else if FirstSubject(x).NoSubject? || FirstSubject(x) != SecondSubject(y) then NoRule
    else
      var sym := FirstSubject(x).sym;
      if KindOf(sym) != Boolean && KindOf(sym) != Tristate then NoRule
      else if (x.Leaf? && Is(y, SymYes)) || (y.Leaf? && Is(x, SymYes)) then Rule(Cmp(true, sym, SymYes))
      else if (x.Leaf? && IsNot(y, SymNo)) || (y.Leaf? && IsNot(x, SymNo)) then Rule(Leaf(sym))
      else if KindOf(sym) != Tristate then NoRule
      else if x.Cmp? && y.Cmp? && x.equal && !y.equal && IsConst(x.b) && IsConst(y.b) then
        Rule(if x.b != y.b then Cmp(true, sym, x.b) else Leaf(SymNo))
      else if x.Cmp? && y.Cmp? && !x.equal && y.equal && IsConst(x.b) && IsConst(y.b) then
        Rule(if y.b != x.b then Cmp(true, sym, y.b) else Leaf(SymNo))
      else if EitherIsNot(x, y, SymYes, SymNo) then Rule(Cmp(true, sym, SymMod))
      else if EitherIsNot(x, y, SymYes, SymMod) then Rule(Cmp(true, sym, SymNo))
      else if EitherIsNot(x, y, SymMod, SymNo) then Rule(Cmp(true, sym, SymYes))
      else NoRule
  }

  function Join(op: Op, x: Expr, y: Expr): Joined {
    if op.And? then JoinAnd(x, y) else JoinOr(x, y)
  }

  // ---------------------------------------------------------------- which operands merge

  predicate BuiltIn(s: Sym) {
    s in {SymYes, SymMod, SymNo}
  }

  predicate IsLogicalKind(a: Sym) {
    KindOf(a) in {Boolean, Tristate}
  }

  // The one that is neither
  function Third(s: Sym, t: Sym): Sym {
    if SymYes !in {s, t} then SymYes else if SymMod !in {s, t} then SymMod else SymNo
  }

  // What the comments beside the rules list, for one order of the operands
  function Listed(op: Op, x: Expr, y: Expr): Joined {
    match (op, x, y)
    case (Or, Leaf(a), Not(Leaf(b))) =>
      if a == b && KindOf(a) == Boolean then Rule(Leaf(SymYes)) else NoRule
    case (Or, Cmp(true, a, s), Cmp(true, b, t)) =>
      if a == b && KindOf(a) == Tristate && s != t && BuiltIn(s) && BuiltIn(t) then Rule(Cmp(false, a, Third(s, t)))
      else NoRule
    case (And, Leaf(a), Cmp(true, b, s)) =>
      if a == b && IsLogicalKind(a) && s == SymYes then Rule(Cmp(true, a, SymYes)) else NoRule
    case (And, Leaf(a), Cmp(false, b, s)) =>
      if a == b && IsLogicalKind(a) && s == SymNo then Rule(Leaf(a)) else NoRule
    case (And, Cmp(true, a, s), Cmp(false, b, t)) =>
      if a == b && KindOf(a) == Tristate && IsConst(s) && IsConst(t) then
        Rule(if s == t then Leaf(SymNo) else Cmp(true, a, s))
      else NoRule
    case (And, Cmp(false, a, s), Cmp(false, b, t)) =>
      if a == b && KindOf(a) == Tristate && s != t && BuiltIn(s) && BuiltIn(t) then Rule(Cmp(true, a, Third(s, t)))
      else NoRule
    case _ => NoRule
  }

  function Either(op: Op, x: Expr, y: Expr): Joined {
    if Listed(op, x, y).Rule? then Listed(op, x, y) else Listed(op, y, x)
  }

  predicate Mergeable(op: Op, x: Expr, y: Expr) {
    Either(op, x, y).Rule?
  }

  // There is a rule exactly for equal operands and for these pairs, and it gives what is listed
  lemma JoinExactly(op: Op, x: Expr, y: Expr)
    ensures Join(op, x, y) == if ExprEq(x, y) then Rule(x) else Either(op, x, y)
    ensures Join(op, x, y).Rule? <==> ExprEq(x, y) || Mergeable(op, x, y)
  {
    hide ExprEq;
    if !ExprEq(x, y) {
      if op.Or? {
        OrExactly(x, y);
      } else {
        AndExactly(x, y);
      }
    }
  }

  lemma OrExactly(x: Expr, y: Expr)
    requires !ExprEq(x, y)
    ensures JoinOr(x, y) == Either(Or, x, y)
  {
    hide ExprEq;
  }

  lemma AndExactly(x: Expr, y: Expr)
    requires !ExprEq(x, y)
    ensures JoinAnd(x, y) == Either(And, x, y)
  {
    hide ExprEq;
    if x.Cmp? && y.Cmp? && x.a == y.a && x.b == y.b && x.equal == y.equal {
      SameComparison(x);
    }
  }

  lemma SameComparison(x: Expr)
    requires x.Cmp?
    ensures ExprEq(x, x)
  {
  }

  lemma SubjectsAgree(x: Expr, y: Expr)
    requires FirstSubject(x).About? && FirstSubject(x) == SecondSubject(y)
    ensures x.Leaf? ==> x.sym == FirstSubject(x).sym
    ensures y.Leaf? ==> y.sym == FirstSubject(x).sym
    ensures x.Cmp? ==> x.a == FirstSubject(x).sym
    ensures y.Cmp? ==> y.a == FirstSubject(x).sym
    ensures x.Not? && x.arg.Leaf? ==> x.arg.sym == FirstSubject(x).sym
    ensures y.Not? ==> y.arg.Leaf? && y.arg.sym == FirstSubject(x).sym
  {
  }

  // Two constants with one text are one constant
  lemma ConstantTexts(s: Sym, t: Sym, env: Env)
    requires WellTyped(env) && IsConst(s) && IsConst(t)
    ensures env(s).str == env(t).str <==> s == t
  {
    assert Fits(s, env(s)) && Fits(t, env(t));
  }

  lemma BuiltIns(env: Env)
    requires WellTyped(env)
    ensures env(SymYes) == Value(YES, "y") && env(SymMod) == Value(MOD, "m") && env(SymNo) == Value(NO, "n")
  {
    assert Fits(SymYes, env(SymYes)) && Fits(SymMod, env(SymMod)) && Fits(SymNo, env(SymNo));
  }

  lemma JoinOrCalc(x: Expr, y: Expr, env: Env)
    requires WellTyped(env) && JoinOr(x, y).Rule?
    ensures Calc(JoinOr(x, y).e, env) == Meet(Or, Calc(x, env), Calc(y, env))
  {
    hide ExprEq;
    if ExprEq(x, y) {
      ExprEqSound(x, y, env);
    } else {
      var sym := FirstSubject(x).sym;
      SubjectsAgree(x, y);
      BuiltIns(env);
      assert Fits(sym, env(sym));
    }
  }

  lemma JoinAndCalc(x: Expr, y: Expr, env: Env)
    requires WellTyped(env) && JoinAnd(x, y).Rule?
    ensures Calc(JoinAnd(x, y).e, env) == Meet(And, Calc(x, env), Calc(y, env))
  {
    hide ExprEq;
    if ExprEq(x, y) {
      ExprEqSound(x, y, env);
    } else if x.Cmp? && y.Cmp? {
      JoinAndCmp(x, y, env);
    } else {
      var sym := FirstSubject(x).sym;
      SubjectsAgree(x, y);
      BuiltIns(env);
      assert Fits(sym, env(sym));
    }
  }

  lemma JoinAndCmp(x: Expr, y: Expr, env: Env)
    requires WellTyped(env) && JoinAnd(x, y).Rule? && x.Cmp? && y.Cmp? && !ExprEq(x, y)
    ensures Calc(JoinAnd(x, y).e, env) == Meet(And, Calc(x, env), Calc(y, env))
  {
    hide ExprEq;
    assert x.a == y.a && KindOf(x.a) == Tristate;
    BuiltIns(env);
    assert Fits(x.a, env(x.a));
    if IsConst(x.b) && IsConst(y.b) {
      ConstantTexts(x.b, y.b, env);
    }
  }

  // Every rule keeps the three-valued meaning
  lemma JoinCalc(op: Op, x: Expr, y: Expr, env: Env)
    requires WellTyped(env) && Join(op, x, y).Rule?
    ensures Calc(Join(op, x, y).e, env) == Meet(op, Calc(x, env), Calc(y, env))
  {
    if op.And? { JoinAndCalc(x, y, env); } else { JoinOrCalc(x, y, env); }
  }

  lemma JoinShape(op: Op, x: Expr, y: Expr)
    requires Join(op, x, y).Rule?
    ensures Join(op, x, y).e == x || Size(Join(op, x, y).e) == 1
    ensures !IsOp(op, x) ==> !IsOp(op, Join(op, x, y).e)
    ensures 1 + Size(Join(op, x, y).e) <= Size(x) + Size(y)
  {
    SizePositive(x);
    SizePositive(y);
  }

  lemma SizePositive(e: Expr)
    ensures Size(e) >= 1
  {
  }

  // ---------------------------------------------------------------- common operands

  // `expr_extract_eq`: like crossing out, but the operands crossed out are collected in `common`
  // (Always while there are none), and y and n are matched like any other symbol
  function ExtractEq(op: Op, common: Dep, a: Expr, b: Expr): (r: (Dep, Expr, Expr))
    ensures Size(r.1) <= Size(a) && Size(r.2) <= Size(b)
    decreases Size(a) + Size(b)
  {
    if IsOp(op, a) then
      var (c1, l, b1) := ExtractEq(op, common, a.left, b);
      var (c2, r, b2) := ExtractEq(op, c1, a.right, b1);
      (c2, Bin(op, l, r), b2)
    else if IsOp(op, b) then
      var (c1, a1, l) := ExtractEq(op, common, a, b.left);
      var (c2, a2, r) := ExtractEq(op, c1, a1, b.right);
      (c2, a2, Bin(op, l, r))
    else if ExprEq(a, b) then
      (if common.When? then When(Bin(op, common.e, a)) else When(a), Leaf(Unit(op)), Leaf(Unit(op)))
    else (common, a, b)
  }

  // `expr_extract_eq_and` and `expr_extract_eq_or`
  function ExtractEqYN(op: Op, a: Expr, b: Expr): (Dep, Expr, Expr) {
    var (c, a', b') := ExtractEq(op, Always, a, b);
    if c.When? then (c, EliminateYN(a'), EliminateYN(b')) else (c, a', b')
  }

  // The value of a collected part: the neutral one while there is nothing
  function PartCalc(op: Op, c: Dep, env: Env): Tri {
    if c.When? then Calc(c.e, env) else if op.And? then YES else NO
  }

  // What is collected grows by some `d`, and each side is `d` together with its rest
  lemma {:induction false} ExtractEqCalc(op: Op, common: Dep, a: Expr, b: Expr, env: Env) returns (d: Tri)
    requires WellTyped(env)
    ensures var (c, a', b') := ExtractEq(op, common, a, b);
      && PartCalc(op, c, env) == Meet(op, PartCalc(op, common, env), d)
      && Calc(a, env) == Meet(op, d, Calc(a', env))
      && Calc(b, env) == Meet(op, d, Calc(b', env))
    decreases Size(a) + Size(b)
  {
    if IsOp(op, a) {
      var (c1, l, b1) := ExtractEq(op, common, a.left, b);
      var (c2, r, b2) := ExtractEq(op, c1, a.right, b1);
      var d1 := ExtractEqCalc(op, common, a.left, b, env);
      var d2 := ExtractEqCalc(op, c1, a.right, b1, env);
      d := Meet(op, d1, d2);
      assert ExtractEq(op, common, a, b) == (c2, Bin(op, l, r), b2);
      MeetSplit(op, d1, Calc(l, env), d2, Calc(r, env));
      MeetSplit(op, PartCalc(op, common, env), d2, d1, d1);
      MeetSplit(op, d1, d2, Calc(b2, env), Calc(b2, env));
    } else if IsOp(op, b) {
      var (c1, a1, l) := ExtractEq(op, common, a, b.left);
      var (c2, a2, r) := ExtractEq(op, c1, a1, b.right);
      var d1 := ExtractEqCalc(op, common, a, b.left, env);
      var d2 := ExtractEqCalc(op, c1, a1, b.right, env);
      d := Meet(op, d1, d2);
      assert ExtractEq(op, common, a, b) == (c2, a2, Bin(op, l, r));
      MeetSplit(op, d1, Calc(l, env), d2, Calc(r, env));
      MeetSplit(op, PartCalc(op, common, env), d2, d1, d1);
      MeetSplit(op, d1, d2, Calc(a2, env), Calc(a2, env));
    } else {
      d := ExtractEqLeaf(op, common, a, b, env);
    }
  }

  lemma ExtractEqLeaf(op: Op, common: Dep, a: Expr, b: Expr, env: Env) returns (d: Tri)
    requires WellTyped(env) && !IsOp(op, a) && !IsOp(op, b)
    ensures var (c, a', b') := ExtractEq(op, common, a, b);
      && PartCalc(op, c, env) == Meet(op, PartCalc(op, common, env), d)
      && Calc(a, env) == Meet(op, d, Calc(a', env))
      && Calc(b, env) == Meet(op, d, Calc(b', env))
  {
    hide ExprEq;
    BuiltIns(env);
    if ExprEq(a, b) {
      ExprEqSound(a, b, env);
      d := Calc(a, env);
    } else {
      d := env(Unit(op)).tri;
    }
  }

  // Both sides are the common part together with a rest of their own
  lemma ExtractFactors(op: Op, a: Expr, b: Expr, env: Env)
    requires WellTyped(env)
    ensures var (c, a', b') := ExtractEqYN(op, a, b);
      && Calc(a, env) == Meet(op, PartCalc(op, c, env), Calc(a', env))
      && Calc(b, env) == Meet(op, PartCalc(op, c, env), Calc(b', env))
  {
    var (c, a', b') := ExtractEq(op, Always, a, b);
    var d := ExtractEqCalc(op, Always, a, b, env);
    EliminateYNCalc(a', env);
    EliminateYNCalc(b', env);
  }
}
