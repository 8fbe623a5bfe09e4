/** `expr_eliminate_dups` of `config/expr.c`: what one step of it does, merging of duplicate operands
    (`expr_eliminate_dups1`) and removal of contradictions (`expr_eliminate_dups2`), and when there is
    nothing left to do.
 */
module KDups {
  import opened KExpr
  import opened KExprEq
  import opened KTransform
  import opened KJoin
  import opened KSlots

  // ---------------------------------------------------------------- what one pass may do

  // The same value wherever the value was not mod
  ghost predicate Keeps(x: Expr, y: Expr) {
    forall env: Env | WellTyped(env) && Calc(x, env) != MOD :: Calc(y, env) == Calc(x, env)
  }

  // Nothing changed unless it was counted; and whatever was counted made the tree smaller, or
  // left a y or n in it for EliminateYN to remove
  predicate Progress(x: Expr, y: Expr, n: int) {
    if n == 0 then y == x
    else 0 < n && Size(y) <= Size(x) && (Size(y) < Size(x) || HasYN(y))
  }

  // Only the subtree at `base` was rewritten, its spine of `op` is as before, n replacements
  // were counted, and a normal form stays one
  predicate Frame(op: Op, old_: Expr, new_: Expr, base: Path, n: int) {
    && Within(old_, base) && Within(new_, base)
    && new_ == Put(old_, base, Get(new_, base))
    && SameSpine(op, Get(old_, base), Get(new_, base))
    && Progress(Get(old_, base), Get(new_, base), n)
    && (Normal(Get(old_, base)) ==> Normal(Get(new_, base)))
  }

  ghost predicate Merged(op: Op, old_: Expr, new_: Expr, base: Path, n: int) {
    Frame(op, old_, new_, base, n) && Equiv(Get(old_, base), Get(new_, base))
  }

  ghost predicate Cleared(op: Op, old_: Expr, new_: Expr, base: Path, n: int) {
    Frame(op, old_, new_, base, n) && Keeps(Get(old_, base), Get(new_, base))
  }

  // Two pointers to nodes on the spine of `op` of the node at `base`
  predicate Slots(op: Op, e: Expr, base: Path, s: Path, t: Path) {
    && Within(e, base)
    && OnSpine(op, Get(e, base), s) && OnSpine(op, Get(e, base), t)
    && Within(Get(e, base), s) && Within(Get(e, base), t)
  }

  lemma FrameRefl(op: Op, e: Expr, base: Path)
    requires Within(e, base)
    ensures Frame(op, e, e, base, 0)
  {
    PutGet(e, base, e);
    SameSpineRefl(op, Get(e, base));
  }

  lemma FrameTrans(op: Op, e: Expr, f: Expr, g: Expr, base: Path, m: int, n: int)
    requires Frame(op, e, f, base, m) && Frame(op, f, g, base, n)
    ensures Frame(op, e, g, base, m + n)
  {
    PutPut(e, base, Get(f, base), Get(g, base));
    SameSpineTrans(op, Get(e, base), Get(f, base), Get(g, base));
  }

  lemma FrameSlots(op: Op, e: Expr, f: Expr, base: Path, n: int, s: Path, t: Path)
    requires Frame(op, e, f, base, n) && Slots(op, e, base, s, t)
    ensures Slots(op, f, base, s, t)
    ensures SpineSize(op, Get(Get(f, base), s)) == SpineSize(op, Get(Get(e, base), s))
    ensures SpineSize(op, Get(Get(f, base), t)) == SpineSize(op, Get(Get(e, base), t))
    ensures IsOp(op, Get(Get(f, base), s)) == IsOp(op, Get(Get(e, base), s))
    ensures IsOp(op, Get(Get(f, base), t)) == IsOp(op, Get(Get(e, base), t))
    ensures Size(Get(f, base)) <= Size(Get(e, base))
  {
    SameSpineAt(op, Get(e, base), Get(f, base), s);
    SameSpineAt(op, Get(e, base), Get(f, base), t);
  }

  lemma {:induction false} PutCalc(e: Expr, p: Path, x: Expr, env: Env)
    requires Within(e, p)
    ensures Calc(Get(e, p), env) == Calc(x, env) ==> Calc(Put(e, p, x), env) == Calc(e, env)
    ensures (Calc(Get(e, p), env) != MOD ==> Calc(x, env) == Calc(Get(e, p), env)) ==>
      (Calc(e, env) != MOD ==> Calc(Put(e, p, x), env) == Calc(e, env))
  {
    if p != [] {
      PutCalc(Child(e, p[0]), p[1..], x, env);
    }
  }

  lemma PutEquiv(e: Expr, p: Path, x: Expr)
    requires Within(e, p)
    ensures Equiv(Get(e, p), x) ==> Equiv(e, Put(e, p, x))
    ensures Keeps(Get(e, p), x) ==> Keeps(e, Put(e, p, x))
  {
    forall env: Env | WellTyped(env)
      ensures Equiv(Get(e, p), x) ==> Calc(Put(e, p, x), env) == Calc(e, env)
      ensures Keeps(Get(e, p), x) && Calc(e, env) != MOD ==> Calc(Put(e, p, x), env) == Calc(e, env)
    {
      PutCalc(e, p, x, env);
    }
  }

  lemma {:induction false} PutNormal(e: Expr, p: Path, x: Expr)
    requires Within(e, p) && Normal(e)
    ensures Normal(Get(e, p)) && (Normal(x) ==> Normal(Put(e, p, x)))
  {
    if p != [] {
      PutNormal(Child(e, p[0]), p[1..], x);
    }
  }

  lemma JoinNormal(op: Op, x: Expr, y: Expr)
    requires Normal(x) && Normal(y) && Join(op, x, y).Rule?
    ensures Normal(Join(op, x, y).e)
  {
    if FirstSubject(x).About? && FirstSubject(x) == SecondSubject(y) {
      SubjectsAgree(x, y);
    }
  }

  lemma {:induction false} EliminateYNNormal(e: Expr)
    requires Normal(e)
    ensures Normal(EliminateYN(e))
  {
    if e.Bin? {
      EliminateYNNormal(e.left);
      EliminateYNNormal(e.right);
    }
  }

  // ---------------------------------------------------------------- one replacement

  // `e1` becomes the neutral constant and `e2` the merged operand
  lemma JoinStep(op: Op, e: Expr, base: Path, s: Path, t: Path)
    requires Slots(op, e, base, s, t) && s != t
    requires !IsOp(op, Get(Get(e, base), s)) && !IsOp(op, Get(Get(e, base), t))
    requires Join(op, Get(Get(e, base), s), Get(Get(e, base), t)).Rule?
    ensures Within(e, base + s)
    ensures var e' := Put(e, base + s, Leaf(Unit(op)));
      && Within(e', base + t)
      && Merged(op, e, Put(e', base + t, Join(op, Get(Get(e, base), s), Get(Get(e, base), t)).e), base, 1)
  {
    var sub, unit := Get(e, base), Leaf(Unit(op));
    var x, y := Get(sub, s), Get(sub, t);
    var z := Join(op, x, y).e;
    SpineWithin(op, sub, s);
    SpineWithin(op, sub, t);
    JoinShape(op, x, y);
    PutConcat(e, base, s, unit);
    var mid := Put(sub, s, unit);
    PutGet(sub, s, unit);
    PutSameSpine(op, sub, s, unit);
    SameSpineAt(op, sub, mid, t);
    JoinStepCalc(op, sub, s, t);
    var e' := Put(e, base + s, unit);
    assert e' == Put(e, base, mid);
    PutGet(e, base, mid);
    PutConcat(e', base, t, z);
    var fin := Put(mid, t, z);
    PutGet(mid, t, z);
    SameSpineAt(op, sub, mid, s);
    SpineWithin(op, mid, s);
    SpineWithin(op, mid, t);
    PutHasYN(mid, s, t, z, op);
    PutSameSpine(op, mid, t, z);
    SameSpineTrans(op, sub, mid, fin);
    PutPut(e, base, mid, fin);
    PutGet(e, base, fin);
    assert Put(e', base + t, z) == Put(e, base, fin);
    if Normal(sub) {
      PutNormal(sub, s, unit);
      PutNormal(mid, t, z);
      PutNormal(sub, t, z);
      JoinNormal(op, x, y);
    }
  }

  // After overwriting two operands, the constant is still there
  lemma {:induction false} PutHasYN(e: Expr, s: Path, t: Path, z: Expr, op: Op)
    requires Operand(op, e, s) && Operand(op, e, t) && s != t && Within(e, s) && Within(e, t)
    requires Get(e, s) == Leaf(Unit(op))
    ensures HasYN(Put(e, t, z))
  {
    if s[0] == t[0] {
      PutHasYN(Child(e, s[0]), s[1..], t[1..], z, op);
    } else {
      var c := Child(e, s[0]);
      PutGet(c, s[1..], Leaf(Unit(op)));
      assert Child(Put(e, t, z), s[0]) == c;
      if s[1..] == [] {
        assert c == Leaf(Unit(op));
      }
    }
  }

  lemma JoinStepCalc(op: Op, e: Expr, s: Path, t: Path)
    requires Operand(op, e, s) && Operand(op, e, t) && s != t
    requires OnSpine(op, e, s) && OnSpine(op, e, t) && Within(e, s) && Within(e, t)
    requires Join(op, Get(e, s), Get(e, t)).Rule?
    ensures Within(Put(e, s, Leaf(Unit(op))), t)
    ensures Get(Put(e, s, Leaf(Unit(op))), t) == Get(e, t)
    ensures Equiv(e, Put(Put(e, s, Leaf(Unit(op))), t, Join(op, Get(e, s), Get(e, t)).e))
  {
    var z := Join(op, Get(e, s), Get(e, t)).e;
    var mid := Put(e, s, Leaf(Unit(op)));
    SpineWithin(op, e, s);
    PutSameSpine(op, e, s, Leaf(Unit(op)));
    SameSpineAt(op, e, mid, t);
    SomeEnv();
    forall env: Env | WellTyped(env)
      ensures Get(mid, t) == Get(e, t)
      ensures Calc(Put(mid, t, z), env) == Calc(e, env)
    {
      JoinCalc(op, Get(e, s), Get(e, t), env);
      BuiltIns(env);
      TwoOperands(op, e, s, t, Leaf(Unit(op)), z, env);
    }
  }

  function PlainEnv(): Env {
    (s: Sym) => match s
      case SymYes => Value(YES, "y")
      case SymMod => Value(MOD, "m")
      case SymNo => Value(NO, "n")
      case Constant(text) => Value(NO, text)
      case Option(_, _) => Value(NO, "n")
  }

  lemma SomeEnv()
    ensures TwoValued(PlainEnv())
  {
  }

  // `expr_eliminate_dups2` finds that every operand of !x is an operand of y
  predicate Clash(op: Op, x: Expr, y: Expr) {
    ExtractEqYN(op, Transform(Not(x)), y).1 == Leaf(Unit(op))
  }

  lemma ClashCalc(op: Op, x: Expr, y: Expr, env: Env)
    requires WellTyped(env) && Clash(op, x, y)
    ensures Calc(y, env) == Meet(op, 2 - Calc(x, env), Calc(y, env))
  {
    hide WellTyped, Transform, ExtractEqYN, Calc, PartCalc;
    TransformCalc(Not(x), env);
    ExtractFactors(op, Transform(Not(x)), y, env);
    UnitCalc(op, x, env);
    var (c, _, b) := ExtractEqYN(op, Transform(Not(x)), y);
    MeetAgain(op, PartCalc(op, c, env), Calc(b, env));
  }

  lemma UnitCalc(op: Op, x: Expr, env: Env)
    requires WellTyped(env)
    ensures Calc(Not(x), env) == 2 - Calc(x, env)
    ensures forall t: Tri :: Meet(op, t, Calc(Leaf(Unit(op)), env)) == t
  {
    BuiltIns(env);
  }

  lemma MeetAgain(op: Op, p: Tri, b: Tri)
    ensures Meet(op, p, b) == Meet(op, p, Meet(op, p, b))
  {
  }

  // `e1` becomes the constant that decides the whole spine
  lemma ClashStep(op: Op, e: Expr, base: Path, s: Path, t: Path)
    requires Slots(op, e, base, s, t) && s != t
    requires IsOp(Dual(op), Get(Get(e, base), s))
    requires Clash(op, Get(Get(e, base), s), Get(Get(e, base), t))
    ensures Within(e, base + s) && Cleared(op, e, Put(e, base + s, Leaf(Zero(op))), base, 1)
  {
    var sub, zero := Get(e, base), Leaf(Zero(op));
    var fin := Put(sub, s, zero);
    SpineWithin(op, sub, s);
    PutConcat(e, base, s, zero);
    PutGet(sub, s, zero);
    PutSameSpine(op, sub, s, zero);
    PutGet(e, base, fin);
    SizePositive(Get(sub, s).left);
    if Normal(sub) {
      PutNormal(sub, s, zero);
    }
    forall env: Env | WellTyped(env) && Calc(sub, env) != MOD
      ensures Calc(fin, env) == Calc(sub, env)
    {
      ClashStepCalc(op, sub, s, t, env);
    }
  }

  lemma ClashStepCalc(op: Op, e: Expr, s: Path, t: Path, env: Env)
    requires OnSpine(op, e, s) && OnSpine(op, e, t) && Within(e, s) && Within(e, t)
    requires WellTyped(env) && Clash(op, Get(e, s), Get(e, t))
    ensures Calc(e, env) != MOD ==> Calc(Put(e, s, Leaf(Zero(op))), env) == Calc(e, env)
  {
    hide WellTyped, Clash, Get, Put, Within, OnSpine, Others;
    BuiltIns(env);
    SpineCalc(op, e, s, Leaf(Zero(op)), env);
    SpineCalc(op, e, t, Leaf(Zero(op)), env);
    ClashCalc(op, Get(e, s), Get(e, t), env);
  }

  // ---------------------------------------------------------------- nothing left to do

  // No two operands below the two places have a merging rule, at any depth of operands
  predicate NoMerge(op: Op, e: Expr, s: Path, t: Path)
    requires OnSpine(op, e, s) && OnSpine(op, e, t) && Within(e, s) && Within(e, t)
    decreases Size(e), SpineSize(op, Get(e, s)) + SpineSize(op, Get(e, t))
  {
    if IsOp(op, Get(e, s)) then (
      SpineSteps(op, e, s);
      NoMerge(op, e, s + [L], t) && NoMerge(op, e, s + [R], t)
    ) else if IsOp(op, Get(e, t)) then (
      SpineSteps(op, e, t);
      NoMerge(op, e, s, t + [L]) && NoMerge(op, e, s, t + [R])
    ) else (s == t || (
      PutGet(e, s, e);
      SpineApart(op, e, s, t);
      && Join(op, Get(e, s), Get(e, t)).NoRule?
      && (Get(e, s).Bin? ==> NoMerge(Dual(op), Get(e, s), [], []))
    ))
  }

  lemma SpineSteps(op: Op, e: Expr, p: Path)
    requires OnSpine(op, e, p) && Within(e, p) && IsOp(op, Get(e, p))
    ensures OnSpine(op, e, p + [L]) && Within(e, p + [L]) && Get(e, p + [L]) == Get(e, p).left
    ensures OnSpine(op, e, p + [R]) && Within(e, p + [R]) && Get(e, p + [R]) == Get(e, p).right
  {
    SpineStep(op, e, p, L);
    SpineStep(op, e, p, R);
  }

  lemma SpineApart(op: Op, e: Expr, s: Path, t: Path)
    requires OnSpine(op, e, s) && OnSpine(op, e, t) && Within(e, s) && Within(e, t)
    requires !IsOp(op, Get(e, s)) && s != t
    ensures s != []
  {
  }

  // No operand below the first place clashes with a node below the second
  predicate NoClash(op: Op, e: Expr, s: Path, t: Path)
    requires OnSpine(op, e, s) && OnSpine(op, e, t) && Within(e, s) && Within(e, t)
    decreases Size(e), SpineSize(op, Get(e, s)) + SpineSize(op, Get(e, t))
  {
    if IsOp(op, Get(e, s)) then (
      SpineSteps(op, e, s);
      NoClash(op, e, s + [L], t) && NoClash(op, e, s + [R], t)
    ) else
      && (IsOp(op, Get(e, t)) ==> (
        SpineSteps(op, e, t);
        NoClash(op, e, s, t + [L]) && NoClash(op, e, s, t + [R])))
      && (s != t && Get(e, s).Bin? ==> (
        PutGet(e, s, e);
        SpineApart(op, e, s, t);
        !Clash(op, Get(e, s), Get(e, t)) && NoClash(Dual(op), Get(e, s), [], [])))
  }

  // One part of a pass after another
  lemma MergedTrans(op: Op, e: Expr, f: Expr, g: Expr, base: Path, m: int, n: int)
    requires Merged(op, e, f, base, m) && Merged(op, f, g, base, n)
    ensures Merged(op, e, g, base, m + n)
  {
    FrameTrans(op, e, f, g, base, m, n);
  }

  lemma ClearedTrans(op: Op, e: Expr, f: Expr, g: Expr, base: Path, m: int, n: int)
    requires Cleared(op, e, f, base, m) && Cleared(op, f, g, base, n)
    ensures Cleared(op, e, g, base, m + n)
  {
    FrameTrans(op, e, f, g, base, m, n);
  }
}
