/** The passes and rounds of `expr_eliminate_dups` (`config/expr.c`) as functions, from a tree and two
    places in it to a tree and how often was counted, and what they do to its meaning.
 */
module KPasses {
  import opened KExpr
  import opened KExprEq
  import opened KTransform
  import opened KJoin
  import opened KSlots
  import opened KDups

  // ---------------------------------------------------------------- the passes as functions

  // Rewriting an operand with another operator rewrites the tree it is an operand of
  lemma FrameLift(op: Op, e: Expr, s: Path, x: Expr, n: int)
    requires OnSpine(op, e, s) && Within(e, s) && IsOp(Dual(op), Get(e, s)) && Frame(Dual(op), Get(e, s), x, [], n)
    ensures Frame(op, e, Put(e, s, x), [], n) && IsOp(Dual(op), x)
    ensures Within(Put(e, s, x), s) && Get(Put(e, s, x), s) == x
  {
    hide Normal;
    PutGet(e, s, x);
    PutSameSpine(op, e, s, x);
    if Normal(e) {
      PutNormal(e, s, x);
    }
  }

  lemma MergedLift(op: Op, e: Expr, s: Path, x: Expr, n: int)
    requires OnSpine(op, e, s) && Within(e, s) && IsOp(Dual(op), Get(e, s)) && Merged(Dual(op), Get(e, s), x, [], n)
    ensures Merged(op, e, Put(e, s, x), [], n)
  {
    hide Frame, Equiv;
    FrameLift(op, e, s, x, n);
    PutEquiv(e, s, x);
  }

  lemma ClearedLift(op: Op, e: Expr, s: Path, x: Expr, n: int)
    requires OnSpine(op, e, s) && Within(e, s) && IsOp(Dual(op), Get(e, s)) && Cleared(Dual(op), Get(e, s), x, [], n)
    ensures Cleared(op, e, Put(e, s, x), [], n)
  {
    hide Frame, Keeps;
    FrameLift(op, e, s, x, n);
    PutEquiv(e, s, x);
  }

  lemma JoinAt(op: Op, e: Expr, s: Path, t: Path)
    requires Slots(op, e, [], s, t) && s != t && !IsOp(op, Get(e, s)) && !IsOp(op, Get(e, t))
    requires Join(op, Get(e, s), Get(e, t)).Rule?
    ensures Within(Put(e, s, Leaf(Unit(op))), t)
    ensures Merged(op, e, Put(Put(e, s, Leaf(Unit(op))), t, Join(op, Get(e, s), Get(e, t)).e), [], 1)
  {
    hide Merged, Join;
    assert [] + s == s && [] + t == t && Get(e, []) == e;
    JoinStep(op, e, [], s, t);
  }

  lemma ClashAt(op: Op, e: Expr, s: Path, t: Path)
    requires Slots(op, e, [], s, t) && s != t && IsOp(Dual(op), Get(e, s)) && Clash(op, Get(e, s), Get(e, t))
    ensures Cleared(op, e, Put(e, s, Leaf(Zero(op))), [], 1)
  {
    hide Cleared, Clash;
    assert [] + s == s && Get(e, []) == e;
    ClashStep(op, e, [], s, t);
  }

  // `expr_eliminate_dups1`: the tree it leaves, and how often it has counted
  function Dups1(op: Op, e: Expr, s: Path, t: Path): (r: (Expr, nat))
    requires Slots(op, e, [], s, t)
    ensures Frame(op, e, r.0, [], r.1)
    decreases Size(e), SpineSize(op, Get(e, s)) + SpineSize(op, Get(e, t)), 1
  {
    if IsOp(op, Get(e, s)) then
      SpineSteps(op, e, s);
      var (f, m) := Dups1(op, e, s + [L], t);
      FrameSlots(op, e, f, [], m, s, t);
      SpineSteps(op, f, s);
      var (g, n) := Dups1(op, f, s + [R], t);
      FrameTrans(op, e, f, g, [], m, n);
      (g, m + n)
    else if IsOp(op, Get(e, t)) then
      SpineSteps(op, e, t);
      var (f, m) := Dups1(op, e, s, t + [L]);
      FrameSlots(op, e, f, [], m, s, t);
      SpineSteps(op, f, t);
      var (g, n) := Dups1(op, f, s, t + [R]);
      FrameTrans(op, e, f, g, [], m, n);
      (g, m + n)
    else if s == t then
      FrameRefl(op, e, []);
      (e, 0)
    else MergePair(op, e, s, t)
  }

  // What it does to two different operands
  function MergePair(op: Op, e: Expr, s: Path, t: Path): (r: (Expr, nat))
    requires Slots(op, e, [], s, t) && s != t && !IsOp(op, Get(e, s)) && !IsOp(op, Get(e, t))
    ensures Frame(op, e, r.0, [], r.1)
    decreases Size(e), SpineSize(op, Get(e, s)) + SpineSize(op, Get(e, t)), 0
  {
    var (f, m) := MergeWithin(op, e, s, t);
    FrameSlots(op, e, f, [], m, s, t);
    var joined := Join(op, Get(f, s), Get(f, t));
    if joined.Rule? then
      JoinAt(op, f, s, t);
      var g := Put(Put(f, s, Leaf(Unit(op))), t, joined.e);
      FrameTrans(op, e, f, g, [], m, 1);
      (g, m + 1)
    else (f, m)
  }

  function MergeWithin(op: Op, e: Expr, s: Path, t: Path): (r: (Expr, nat))
    requires Slots(op, e, [], s, t) && s != t && !IsOp(op, Get(e, s))
    ensures Frame(op, e, r.0, [], r.1)
    decreases Size(e), 0, 0, 0
  {
    if Get(e, s).Bin? then
      SpineApart(op, e, s, t);
      PutGet(e, s, e);
      var (x, m) := Dups1(Dual(op), Get(e, s), [], []);
      FrameLift(op, e, s, x, m);
      (Put(e, s, x), m)
    else
      FrameRefl(op, e, []);
      (e, 0)
  }

  // `expr_eliminate_dups2`
  function Dups2(op: Op, e: Expr, s: Path, t: Path): (r: (Expr, nat))
    requires Slots(op, e, [], s, t)
    ensures Frame(op, e, r.0, [], r.1)
    decreases Size(e), SpineSize(op, Get(e, s)) + SpineSize(op, Get(e, t)), 1
  {
    if IsOp(op, Get(e, s)) then
      SpineSteps(op, e, s);
      var (f, m) := Dups2(op, e, s + [L], t);
      FrameSlots(op, e, f, [], m, s, t);
      SpineSteps(op, f, s);
      var (g, n) := Dups2(op, f, s + [R], t);
      FrameTrans(op, e, f, g, [], m, n);
      (g, m + n)
    else
      var (f, m) := SecondParts(op, e, s, t);
      FrameSlots(op, e, f, [], m, s, t);
      if s == t then (f, m)
      else
        var (g, n) := ClearPair(op, f, s, t);
        FrameTrans(op, e, f, g, [], m, n);
        (g, m + n)
  }

  // Its way through the operands of `e2`
  function SecondParts(op: Op, e: Expr, s: Path, t: Path): (r: (Expr, nat))
    requires Slots(op, e, [], s, t) && !IsOp(op, Get(e, s))
    ensures Frame(op, e, r.0, [], r.1)
    decreases Size(e), SpineSize(op, Get(e, s)) + SpineSize(op, Get(e, t)), 0
  {
    if IsOp(op, Get(e, t)) then
      SpineSteps(op, e, t);
      var (f, m) := Dups2(op, e, s, t + [L]);
      FrameSlots(op, e, f, [], m, s, t);
      SpineSteps(op, f, t);
      var (g, n) := Dups2(op, f, s, t + [R]);
      FrameTrans(op, e, f, g, [], m, n);
      (g, m + n)
    else
      FrameRefl(op, e, []);
      (e, 0)
  }

  // What it does to an operand and another node
  function ClearPair(op: Op, e: Expr, s: Path, t: Path): (r: (Expr, nat))
    requires Slots(op, e, [], s, t) && s != t && !IsOp(op, Get(e, s))
    ensures Frame(op, e, r.0, [], r.1)
    decreases Size(e), SpineSize(op, Get(e, s)) + SpineSize(op, Get(e, t)), 0
  {
    if Get(e, s).Bin? then
      SpineApart(op, e, s, t);
      PutGet(e, s, e);
      var (x, m) := Dups2(Dual(op), Get(e, s), [], []);
      FrameLift(op, e, s, x, m);
      var f := Put(e, s, x);
      FrameSlots(op, e, f, [], m, s, t);
      if Clash(op, x, Get(f, t)) then
        ClashAt(op, f, s, t);
        var g := Put(f, s, Leaf(Zero(op)));
        FrameTrans(op, e, f, g, [], m, 1);
        (g, m + 1)
      else (f, m)
    else
      FrameRefl(op, e, []);
      (e, 0)
  }

  // The first pass keeps the meaning, and counts nothing exactly when there is nothing to merge
  lemma {:induction false} Dups1Means(op: Op, e: Expr, s: Path, t: Path)
    requires Slots(op, e, [], s, t)
    ensures var (f, n) := Dups1(op, e, s, t); Merged(op, e, f, [], n) && (n == 0 <==> NoMerge(op, e, s, t))
    decreases Size(e), SpineSize(op, Get(e, s)) + SpineSize(op, Get(e, t)), 1
  {
    hide Merged, MergePair;
    if IsOp(op, Get(e, s)) {
      SpineSteps(op, e, s);
      var (f, m) := Dups1(op, e, s + [L], t);
      Dups1Means(op, e, s + [L], t);
      FrameSlots(op, e, f, [], m, s, t);
      SpineSteps(op, f, s);
      var (g, n) := Dups1(op, f, s + [R], t);
      Dups1Means(op, f, s + [R], t);
      MergedTrans(op, e, f, g, [], m, n);
    } else if IsOp(op, Get(e, t)) {
      SpineSteps(op, e, t);
      var (f, m) := Dups1(op, e, s, t + [L]);
      Dups1Means(op, e, s, t + [L]);
      FrameSlots(op, e, f, [], m, s, t);
      SpineSteps(op, f, t);
      var (g, n) := Dups1(op, f, s, t + [R]);
      Dups1Means(op, f, s, t + [R]);
      MergedTrans(op, e, f, g, [], m, n);
    } else if s == t {
      MergedRefl(op, e);
    } else {
      MergePairMeans(op, e, s, t);
    }
  }

  lemma MergedRefl(op: Op, e: Expr)
    ensures Merged(op, e, e, [], 0) && Cleared(op, e, e, [], 0)
  {
    FrameRefl(op, e, []);
  }

  lemma {:induction false} MergePairMeans(op: Op, e: Expr, s: Path, t: Path)
    requires Slots(op, e, [], s, t) && s != t && !IsOp(op, Get(e, s)) && !IsOp(op, Get(e, t))
    ensures var (f, n) := MergePair(op, e, s, t); Merged(op, e, f, [], n) && (n == 0 <==> NoMerge(op, e, s, t))
    decreases Size(e), SpineSize(op, Get(e, s)) + SpineSize(op, Get(e, t)), 0
  {
    hide Merged, Dups1, Join;
    SpineApart(op, e, s, t);
    PutGet(e, s, e);
    var (f, m) := MergeWithin(op, e, s, t);
    if Get(e, s).Bin? {
      Dups1Means(Dual(op), Get(e, s), [], []);
      MergedLift(op, e, s, Dups1(Dual(op), Get(e, s), [], []).0, m);
    } else {
      MergedRefl(op, e);
    }
    FrameSlots(op, e, f, [], m, s, t);
    if Join(op, Get(f, s), Get(f, t)).Rule? {
      JoinAt(op, f, s, t);
      MergedTrans(op, e, f, MergePair(op, e, s, t).0, [], m, 1);
    }
  }

  // The second keeps every value that is not mod, and counts nothing exactly when nothing clashes
  lemma {:induction false} Dups2Means(op: Op, e: Expr, s: Path, t: Path)
    requires Slots(op, e, [], s, t)
    ensures var (f, n) := Dups2(op, e, s, t); Cleared(op, e, f, [], n) && (n == 0 <==> NoClash(op, e, s, t))
    decreases Size(e), SpineSize(op, Get(e, s)) + SpineSize(op, Get(e, t)), 1
  {
    hide Cleared, ClearPair, SecondParts, Clash;
    if IsOp(op, Get(e, s)) {
      SpineSteps(op, e, s);
      var (f, m) := Dups2(op, e, s + [L], t);
      Dups2Means(op, e, s + [L], t);
      FrameSlots(op, e, f, [], m, s, t);
      SpineSteps(op, f, s);
      var (g, n) := Dups2(op, f, s + [R], t);
      Dups2Means(op, f, s + [R], t);
      ClearedTrans(op, e, f, g, [], m, n);
    } else {
      var (f, m) := SecondParts(op, e, s, t);
      SecondPartsMean(op, e, s, t);
      FrameSlots(op, e, f, [], m, s, t);
      if s != t {
        var (g, n) := ClearPair(op, f, s, t);
        ClearPairMeans(op, f, s, t);
        ClearedTrans(op, e, f, g, [], m, n);
      }
    }
  }

  predicate SecondClear(op: Op, e: Expr, s: Path, t: Path)
    requires Slots(op, e, [], s, t)
  {
    IsOp(op, Get(e, t)) ==> (
      SpineSteps(op, e, t);
      NoClash(op, e, s, t + [L]) && NoClash(op, e, s, t + [R]))
  }

  lemma {:induction false} SecondPartsMean(op: Op, e: Expr, s: Path, t: Path)
    requires Slots(op, e, [], s, t) && !IsOp(op, Get(e, s))
    ensures var (f, n) := SecondParts(op, e, s, t); Cleared(op, e, f, [], n) && (n == 0 <==> SecondClear(op, e, s, t))
    decreases Size(e), SpineSize(op, Get(e, s)) + SpineSize(op, Get(e, t)), 0
  {
    hide Cleared, Dups2, NoClash;
    if IsOp(op, Get(e, t)) {
      SpineSteps(op, e, t);
      var (f, m) := Dups2(op, e, s, t + [L]);
      Dups2Means(op, e, s, t + [L]);
      FrameSlots(op, e, f, [], m, s, t);
      SpineSteps(op, f, t);
      var (g, n) := Dups2(op, f, s, t + [R]);
      Dups2Means(op, f, s, t + [R]);
      ClearedTrans(op, e, f, g, [], m, n);
    } else {
      MergedRefl(op, e);
    }
  }

  predicate PairClear(op: Op, e: Expr, s: Path, t: Path)
    requires Slots(op, e, [], s, t)
  {
    Get(e, s).Bin? ==> !Clash(op, Get(e, s), Get(e, t)) && NoClash(Dual(op), Get(e, s), [], [])
  }

  lemma {:induction false} ClearPairMeans(op: Op, e: Expr, s: Path, t: Path)
    requires Slots(op, e, [], s, t) && s != t && !IsOp(op, Get(e, s))
    ensures var (f, n) := ClearPair(op, e, s, t); Cleared(op, e, f, [], n) && (n == 0 <==> PairClear(op, e, s, t))
    decreases Size(e), SpineSize(op, Get(e, s)) + SpineSize(op, Get(e, t)), 0
  {
    hide Cleared, Dups2, Clash, NoClash;
    if Get(e, s).Bin? {
      SpineApart(op, e, s, t);
      PutGet(e, s, e);
      var (x, m) := Dups2(Dual(op), Get(e, s), [], []);
      Dups2Means(Dual(op), Get(e, s), [], []);
      ClearedLift(op, e, s, x, m);
      var f := Put(e, s, x);
      FrameLift(op, e, s, x, m);
      FrameSlots(op, e, f, [], m, s, t);
      if Clash(op, x, Get(f, t)) {
        ClashAt(op, f, s, t);
        ClearedTrans(op, e, f, Put(f, s, Leaf(Zero(op))), [], m, 1);
      }
    } else {
      MergedRefl(op, e);
    }
  }

  // One round
  function Round(e: Expr): (Expr, nat) {
    if e.Bin? then
      var (f, m) := Dups1(e.op, e, [], []);
      var (g, n) := Dups2(e.op, f, [], []);
      (g, m + n)
    else (e, 0)
  }

  lemma RoundShrinks(e: Expr)
    ensures var (g, n) := Round(e); if n == 0 then g == e else Size(EliminateYN(g)) < Size(e)
  {
    hide Dups1, Dups2;
    if e.Bin? {
      var (f, m) := Dups1(e.op, e, [], []);
      var (g, n) := Dups2(e.op, f, [], []);
      FrameTrans(e.op, e, f, g, [], m, n);
      EliminateYNShrinks(g);
    }
  }

  // `expr_eliminate_dups`: rounds, with the constants removed in between, until one counts nothing
  function DupsForm(e: Expr): Expr
    decreases Size(e)
  {
    var (g, n) := Round(e);
    RoundShrinks(e);
    if n == 0 then e else DupsForm(EliminateYN(g))
  }

  // ---------------------------------------------------------------- what the rounds mean

  // What the rounds come to
  lemma {:induction false} DupsFormMeans(e: Expr)
    ensures Keeps(e, DupsForm(e)) && Size(DupsForm(e)) <= Size(e) && (Normal(e) ==> Normal(DupsForm(e)))
    ensures Settled(DupsForm(e)) && (Settled(e) ==> DupsForm(e) == e)
    decreases Size(e)
  {
    hide Keeps, Normal, Dups1, Dups2, Merged, Cleared, NoMerge, NoClash;
    RoundShrinks(e);
    RoundMeans(e);
    var (g, n) := Round(e);
    KeepsSelf(e);
    if n != 0 {
      DupsFormMeans(EliminateYN(g));
      KeepsChain(e, EliminateYN(g), DupsForm(e));
    }
  }

  lemma KeepsSelf(e: Expr)
    ensures Keeps(e, e)
  {
  }

  lemma KeepsChain(x: Expr, y: Expr, z: Expr)
    requires Keeps(x, y) && Keeps(y, z)
    ensures Keeps(x, z)
  {
  }

  lemma RoundMeans(e: Expr)
    ensures var (g, n) := Round(e);
      && Keeps(e, EliminateYN(g)) && Size(g) <= Size(e) && (Normal(e) ==> Normal(EliminateYN(g)))
      && (n == 0 <==> Settled(e))
  {
    hide Keeps, Normal, Dups1, Dups2, Merged, Cleared, NoMerge, NoClash;
    if e.Bin? {
      var (f, m) := Dups1(e.op, e, [], []);
      var (g, n) := Dups2(e.op, f, [], []);
      Dups1Means(e.op, e, [], []);
      Dups2Means(e.op, f, [], []);
      RoundKeeps(e.op, e, f, g, m, n);
      UnchangedRound(e, f, m);
    } else {
      NoConstant(e);
    }
  }

  lemma UnchangedRound(e: Expr, f: Expr, m: int)
    requires e.Bin? && Merged(e.op, e, f, [], m)
    ensures m == 0 ==> f == e
  {
  }

  lemma NoConstant(e: Expr)
    requires !e.Bin?
    ensures EliminateYN(e) == e && Keeps(e, e)
  {
  }

  // No rule of either pass applies
  predicate Settled(e: Expr) {
    e.Bin? ==> NoMerge(e.op, e, [], []) && NoClash(e.op, e, [], [])
  }

  // A round that counted something ends with a smaller tree once the constants are gone
  lemma RoundKeeps(op: Op, e: Expr, f: Expr, g: Expr, m: int, n: int)
    requires Merged(op, e, f, [], m) && Cleared(op, f, g, [], n)
    ensures Keeps(e, EliminateYN(g)) && Size(g) <= Size(e)
    ensures m + n == 0 ==> g == e
    ensures m + n != 0 ==> Size(EliminateYN(g)) < Size(e)
    ensures n == 0 ==> Equiv(e, EliminateYN(g))
    ensures Normal(e) ==> Normal(EliminateYN(g))
  {
    if Normal(g) {
      EliminateYNNormal(g);
    }
    EliminateYNShrinks(g);
    forall env: Env | WellTyped(env)
      ensures Calc(EliminateYN(g), env) == Calc(g, env)
    {
      EliminateYNCalc(g, env);
    }
  }
}
