/** What `expr_eliminate_dups` (`config/expr.c`) ends with, without the walk of its passes.
 */
module KSettled {
  import opened KExpr
  import opened KExprEq
  import opened KTransform
  import opened KJoin
  import opened KSlots
  import opened KDups
  import opened KPasses
  import opened KClash

  // What a settled tree is, without the walk of the passes: no two operands are equal or one of the
  // pairs that merge, no operand of the other operator clashes with another node of the spine, and the
  // same holds within each operand
  ghost predicate Minimal(e: Expr)
    decreases Size(e)
  {
    e.Bin? ==>
      && (forall p: Path, q: Path | Operand(e.op, e, p) && Operand(e.op, e, q) && p != q :: Unmerged(e.op, e, p, q))
      && (forall p: Path, t: Path | Operand(e.op, e, p) && OnSpine(e.op, e, t) && p != t :: Unclashed(e.op, e, p, t))
      && (forall p: Path | Operand(e.op, e, p) :: Within(e, p) && Size(Get(e, p)) < Size(e) && Minimal(Get(e, p)))
  }

  predicate Unmerged(op: Op, e: Expr, s: Path, t: Path) {
    Within(e, s) && Within(e, t) && !ExprEq(Get(e, s), Get(e, t)) && !Mergeable(op, Get(e, s), Get(e, t))
  }

  predicate Unclashed(op: Op, e: Expr, s: Path, t: Path) {
    Within(e, s) && Within(e, t) && (Get(e, s).Bin? ==> !Clash(op, Get(e, s), Get(e, t)))
  }

  // Within an operand, a pass had nothing to do
  predicate MergedWithin(op: Op, e: Expr, s: Path) {
    Within(e, s) && (Get(e, s).Bin? ==> NoMerge(Dual(op), Get(e, s), [], []))
  }

  predicate ClearedWithin(op: Op, e: Expr, s: Path) {
    Within(e, s) && (Get(e, s).Bin? ==> NoClash(Dual(op), Get(e, s), [], []))
  }

  // All pairs of an operand below the first place and one, or a node, below the second
  ghost predicate AllUnmerged(op: Op, e: Expr, s: Path, t: Path)
    requires OnSpine(op, e, s) && OnSpine(op, e, t) && Within(e, s) && Within(e, t)
  {
    forall p: Path, q: Path | Operand(op, Get(e, s), p) && Operand(op, Get(e, t), q) && s + p != t + q ::
      Unmerged(op, e, s + p, t + q) && MergedWithin(op, e, s + p)
  }

  ghost predicate AllUnclashed(op: Op, e: Expr, s: Path, t: Path)
    requires OnSpine(op, e, s) && OnSpine(op, e, t) && Within(e, s) && Within(e, t)
  {
    forall p: Path, q: Path | Operand(op, Get(e, s), p) && OnSpine(op, Get(e, t), q) && s + p != t + q ::
      Unclashed(op, e, s + p, t + q) && ClearedWithin(op, e, s + p)
  }

  lemma PathStep(op: Op, e: Expr, s: Path, p: Path)
    requires OnSpine(op, e, s) && Within(e, s) && OnSpine(op, Get(e, s), p) && p != []
    ensures IsOp(op, Get(e, s)) && OnSpine(op, e, s + [p[0]]) && Within(e, s + [p[0]])
    ensures OnSpine(op, Get(e, s + [p[0]]), p[1..]) && s + p == (s + [p[0]]) + p[1..]
    ensures Operand(op, Get(e, s), p) <==> Operand(op, Get(e, s + [p[0]]), p[1..])
  {
    hide Get, Within, Operand;
    assert IsOp(op, Get(e, s)) && p == [p[0]] + p[1..];
    PathBack(op, e, s, p[0], p[1..]);
  }

  lemma PathBack(op: Op, e: Expr, s: Path, d: Side, p: Path)
    requires OnSpine(op, e, s) && Within(e, s) && IsOp(op, Get(e, s))
    ensures OnSpine(op, e, s + [d]) && Within(e, s + [d]) && s + ([d] + p) == (s + [d]) + p
    ensures Operand(op, Get(e, s), [d] + p) <==> Operand(op, Get(e, s + [d]), p)
    ensures OnSpine(op, Get(e, s), [d] + p) <==> OnSpine(op, Get(e, s + [d]), p)
  {
    hide Get, Within;
    SpineSteps(op, e, s);
    assert ([d] + p)[1..] == p;
  }

  lemma {:induction false} OperandOnSpine(op: Op, e: Expr, p: Path)
    requires Operand(op, e, p)
    ensures OnSpine(op, e, p) && (IsOp(op, e) <==> p != [])
  {
    if p != [] {
      OperandOnSpine(op, Child(e, p[0]), p[1..]);
    }
  }

  // A place that is split stands for its two halves
  lemma HalfUnmergedFirst(op: Op, e: Expr, s: Path, t: Path, d: Side)
    requires OnSpine(op, e, s) && OnSpine(op, e, t) && Within(e, s) && Within(e, t) && IsOp(op, Get(e, s))
    requires AllUnmerged(op, e, s, t)
    ensures OnSpine(op, e, s + [d]) && Within(e, s + [d]) && AllUnmerged(op, e, s + [d], t)
  {
    hide Unmerged, MergedWithin, Operand, OnSpine, Get, Within;
    SpineSteps(op, e, s);
    forall p: Path, q: Path | Operand(op, Get(e, s + [d]), p) && Operand(op, Get(e, t), q)
        && (s + [d]) + p != t + q
      ensures Unmerged(op, e, (s + [d]) + p, t + q) && MergedWithin(op, e, (s + [d]) + p)
    {
      PathBack(op, e, s, d, p);
    }
  }

  lemma HalfUnmergedSecond(op: Op, e: Expr, s: Path, t: Path, d: Side)
    requires OnSpine(op, e, s) && OnSpine(op, e, t) && Within(e, s) && Within(e, t) && IsOp(op, Get(e, t))
    requires AllUnmerged(op, e, s, t)
    ensures OnSpine(op, e, t + [d]) && Within(e, t + [d]) && AllUnmerged(op, e, s, t + [d])
  {
    hide Unmerged, MergedWithin, Operand, OnSpine, Get, Within;
    SpineSteps(op, e, t);
    forall p: Path, q: Path | Operand(op, Get(e, s), p) && Operand(op, Get(e, t + [d]), q)
        && s + p != (t + [d]) + q
      ensures Unmerged(op, e, s + p, (t + [d]) + q) && MergedWithin(op, e, s + p)
    {
      PathBack(op, e, t, d, q);
    }
  }

  lemma HalfUnclashedFirst(op: Op, e: Expr, s: Path, t: Path, d: Side)
    requires OnSpine(op, e, s) && OnSpine(op, e, t) && Within(e, s) && Within(e, t) && IsOp(op, Get(e, s))
    requires AllUnclashed(op, e, s, t)
    ensures OnSpine(op, e, s + [d]) && Within(e, s + [d]) && AllUnclashed(op, e, s + [d], t)
  {
    hide Unclashed, ClearedWithin, Operand, OnSpine, Get, Within;
    SpineSteps(op, e, s);
    forall p: Path, q: Path | Operand(op, Get(e, s + [d]), p) && OnSpine(op, Get(e, t), q)
        && (s + [d]) + p != t + q
      ensures Unclashed(op, e, (s + [d]) + p, t + q) && ClearedWithin(op, e, (s + [d]) + p)
    {
      PathBack(op, e, s, d, p);
    }
  }

  lemma HalfUnclashedSecond(op: Op, e: Expr, s: Path, t: Path, d: Side)
    requires OnSpine(op, e, s) && OnSpine(op, e, t) && Within(e, s) && Within(e, t) && IsOp(op, Get(e, t))
    requires AllUnclashed(op, e, s, t)
    ensures OnSpine(op, e, t + [d]) && Within(e, t + [d]) && AllUnclashed(op, e, s, t + [d])
  {
    hide Unclashed, ClearedWithin, Operand, OnSpine, Get, Within;
    SpineSteps(op, e, t);
    forall p: Path, q: Path | Operand(op, Get(e, s), p) && OnSpine(op, Get(e, t + [d]), q)
        && s + p != (t + [d]) + q
      ensures Unclashed(op, e, s + p, (t + [d]) + q) && ClearedWithin(op, e, s + p)
    {
      PathBack(op, e, t, d, q);
    }
  }

  lemma BothUnmergedFirst(op: Op, e: Expr, s: Path, t: Path)
    requires OnSpine(op, e, s) && OnSpine(op, e, t) && Within(e, s) && Within(e, t) && IsOp(op, Get(e, s))
    requires OnSpine(op, e, s + [L]) && Within(e, s + [L]) && OnSpine(op, e, s + [R]) && Within(e, s + [R])
    requires AllUnmerged(op, e, s + [L], t) && AllUnmerged(op, e, s + [R], t)
    ensures AllUnmerged(op, e, s, t)
  {
    hide Unmerged, MergedWithin, Operand, OnSpine, Get, Within;
    forall p: Path, q: Path | Operand(op, Get(e, s), p) && Operand(op, Get(e, t), q) && s + p != t + q
      ensures Unmerged(op, e, s + p, t + q) && MergedWithin(op, e, s + p)
    {
      OperandOnSpine(op, Get(e, s), p);
      PathStep(op, e, s, p);
      assert p[0] == L || p[0] == R;
    }
  }

  lemma BothUnmergedSecond(op: Op, e: Expr, s: Path, t: Path)
    requires OnSpine(op, e, s) && OnSpine(op, e, t) && Within(e, s) && Within(e, t) && IsOp(op, Get(e, t))
    requires OnSpine(op, e, t + [L]) && Within(e, t + [L]) && OnSpine(op, e, t + [R]) && Within(e, t + [R])
    requires AllUnmerged(op, e, s, t + [L]) && AllUnmerged(op, e, s, t + [R])
    ensures AllUnmerged(op, e, s, t)
  {
    hide Unmerged, MergedWithin, Operand, OnSpine, Get, Within;
    forall p: Path, q: Path | Operand(op, Get(e, s), p) && Operand(op, Get(e, t), q) && s + p != t + q
      ensures Unmerged(op, e, s + p, t + q) && MergedWithin(op, e, s + p)
    {
      OperandOnSpine(op, Get(e, t), q);
      PathStep(op, e, t, q);
      assert q[0] == L || q[0] == R;
    }
  }

  lemma BothUnclashedFirst(op: Op, e: Expr, s: Path, t: Path)
    requires OnSpine(op, e, s) && OnSpine(op, e, t) && Within(e, s) && Within(e, t) && IsOp(op, Get(e, s))
    requires OnSpine(op, e, s + [L]) && Within(e, s + [L]) && OnSpine(op, e, s + [R]) && Within(e, s + [R])
    requires AllUnclashed(op, e, s + [L], t) && AllUnclashed(op, e, s + [R], t)
    ensures AllUnclashed(op, e, s, t)
  {
    hide Unclashed, ClearedWithin, Operand, OnSpine, Get, Within;
    forall p: Path, q: Path | Operand(op, Get(e, s), p) && OnSpine(op, Get(e, t), q) && s + p != t + q
      ensures Unclashed(op, e, s + p, t + q) && ClearedWithin(op, e, s + p)
    {
      OperandOnSpine(op, Get(e, s), p);
      PathStep(op, e, s, p);
      assert p[0] == L || p[0] == R;
    }
  }

  lemma BothUnclashedSecond(op: Op, e: Expr, s: Path, t: Path)
    requires OnSpine(op, e, s) && OnSpine(op, e, t) && Within(e, s) && Within(e, t) && IsOp(op, Get(e, t))
    requires OnSpine(op, e, t + [L]) && Within(e, t + [L]) && OnSpine(op, e, t + [R]) && Within(e, t + [R])
    requires AllUnclashed(op, e, s, t + [L]) && AllUnclashed(op, e, s, t + [R])
    requires !IsOp(op, Get(e, s)) && (s != t ==> Unclashed(op, e, s, t) && ClearedWithin(op, e, s))
    ensures AllUnclashed(op, e, s, t)
  {
    hide Unclashed, ClearedWithin, Operand, OnSpine, Get, Within;
    forall p: Path, q: Path | Operand(op, Get(e, s), p) && OnSpine(op, Get(e, t), q) && s + p != t + q
      ensures Unclashed(op, e, s + p, t + q) && ClearedWithin(op, e, s + p)
    {
      if q != [] {
        PathStep(op, e, t, q);
        assert q[0] == L || q[0] == R;
      } else {
        OperandOnSpine(op, Get(e, s), p);
        assert s + p == s && t + q == t;
      }
    }
  }

  lemma {:induction false} NoMergePairs(op: Op, e: Expr, s: Path, t: Path)
    requires OnSpine(op, e, s) && OnSpine(op, e, t) && Within(e, s) && Within(e, t)
    ensures NoMerge(op, e, s, t) <==> AllUnmerged(op, e, s, t)
    decreases SpineSize(op, Get(e, s)) + SpineSize(op, Get(e, t))
  {
    hide Unmerged, MergedWithin, AllUnmerged, Operand, OnSpine;
    if IsOp(op, Get(e, s)) {
      SpineSteps(op, e, s);
      NoMergePairs(op, e, s + [L], t);
      NoMergePairs(op, e, s + [R], t);
      if AllUnmerged(op, e, s, t) {
        HalfUnmergedFirst(op, e, s, t, L);
        HalfUnmergedFirst(op, e, s, t, R);
      } else if NoMerge(op, e, s, t) {
        BothUnmergedFirst(op, e, s, t);
      }
    } else if IsOp(op, Get(e, t)) {
      SpineSteps(op, e, t);
      NoMergePairs(op, e, s, t + [L]);
      NoMergePairs(op, e, s, t + [R]);
      if AllUnmerged(op, e, s, t) {
        HalfUnmergedSecond(op, e, s, t, L);
        HalfUnmergedSecond(op, e, s, t, R);
      } else if NoMerge(op, e, s, t) {
        BothUnmergedSecond(op, e, s, t);
      }
    } else {
      OnePair(op, e, s, t);
    }
  }

  lemma OnePair(op: Op, e: Expr, s: Path, t: Path)
    requires OnSpine(op, e, s) && OnSpine(op, e, t) && Within(e, s) && Within(e, t)
    requires !IsOp(op, Get(e, s)) && !IsOp(op, Get(e, t))
    ensures NoMerge(op, e, s, t) <==> AllUnmerged(op, e, s, t)
    ensures NoClash(op, e, s, t) <==> AllUnclashed(op, e, s, t)
  {
    hide Join, Clash, ExprEq, Mergeable;
    JoinExactly(op, Get(e, s), Get(e, t));
    assert s + [] == s && t + [] == t && Operand(op, Get(e, s), []) && Operand(op, Get(e, t), []);
  }

  lemma HereUnclashed(op: Op, e: Expr, s: Path, t: Path)
    requires OnSpine(op, e, s) && OnSpine(op, e, t) && Within(e, s) && Within(e, t) && !IsOp(op, Get(e, s))
    requires AllUnclashed(op, e, s, t) && s != t
    ensures Unclashed(op, e, s, t) && ClearedWithin(op, e, s)
  {
    hide Unclashed, ClearedWithin, Get, Within;
    assert Operand(op, Get(e, s), []) && OnSpine(op, Get(e, t), []);
    assert s + [] == s && t + [] == t;
  }

  lemma {:induction false} NoClashPairs(op: Op, e: Expr, s: Path, t: Path)
    requires OnSpine(op, e, s) && OnSpine(op, e, t) && Within(e, s) && Within(e, t)
    ensures NoClash(op, e, s, t) <==> AllUnclashed(op, e, s, t)
    decreases SpineSize(op, Get(e, s)) + SpineSize(op, Get(e, t))
  {
    hide AllUnclashed, Operand, OnSpine, Clash;
    if IsOp(op, Get(e, s)) {
      SpineSteps(op, e, s);
      NoClashPairs(op, e, s + [L], t);
      NoClashPairs(op, e, s + [R], t);
      if AllUnclashed(op, e, s, t) {
        HalfUnclashedFirst(op, e, s, t, L);
        HalfUnclashedFirst(op, e, s, t, R);
      } else if NoClash(op, e, s, t) {
        BothUnclashedFirst(op, e, s, t);
      }
    } else if IsOp(op, Get(e, t)) {
      SpineSteps(op, e, t);
      NoClashPairs(op, e, s, t + [L]);
      NoClashPairs(op, e, s, t + [R]);
      if AllUnclashed(op, e, s, t) {
        HalfUnclashedSecond(op, e, s, t, L);
        HalfUnclashedSecond(op, e, s, t, R);
        if s != t {
          HereUnclashed(op, e, s, t);
        }
      } else if NoClash(op, e, s, t) {
        BothUnclashedSecond(op, e, s, t);
      }
    } else {
      OnePair(op, e, s, t);
    }
  }

  lemma AtRoot(op: Op, e: Expr)
    ensures OnSpine(op, e, []) && Within(e, [])
  {
  }

  lemma RootPairs(op: Op, e: Expr)
    ensures AllUnmerged(op, e, [], []) <==>
      forall p: Path, q: Path | Operand(op, e, p) && Operand(op, e, q) && p != q ::
        Unmerged(op, e, p, q) && MergedWithin(op, e, p)
    ensures AllUnclashed(op, e, [], []) <==>
      forall p: Path, q: Path | Operand(op, e, p) && OnSpine(op, e, q) && p != q ::
        Unclashed(op, e, p, q) && ClearedWithin(op, e, p)
  {
    hide Unmerged, MergedWithin, Unclashed, ClearedWithin, Operand, OnSpine;
    assert Get(e, []) == e;
    forall p: Path
      ensures [] + p == p
    {
    }
  }

  // No operand is the only one
  lemma {:induction false} OtherOperand(op: Op, e: Expr, p: Path) returns (q: Path)
    requires IsOp(op, e) && Operand(op, e, p)
    ensures Operand(op, e, q) && OnSpine(op, e, q) && q != p
  {
    var d := if p[0] == L then R else L;
    var rest := SomeOperand(op, Child(e, d));
    q := [d] + rest;
    assert q[1..] == rest;
    OperandOnSpine(op, e, q);
  }

  lemma {:induction false} SomeOperand(op: Op, e: Expr) returns (p: Path)
    ensures Operand(op, e, p)
  {
    p := [];
    if IsOp(op, e) {
      var rest := SomeOperand(op, e.left);
      p := [L] + rest;
      assert p[1..] == rest;
    }
  }

  lemma OperandSmaller(op: Op, e: Expr, p: Path)
    requires IsOp(op, e) && Operand(op, e, p)
    ensures Within(e, p) && Size(Get(e, p)) < Size(e) && !IsOp(op, Get(e, p))
  {
    OperandOnSpine(op, e, p);
    SpineWithin(op, e, p);
    PutGet(e, p, e);
  }

  lemma SettledWithin(op: Op, e: Expr, p: Path)
    requires Within(e, p) && !IsOp(op, Get(e, p))
    ensures Settled(Get(e, p)) <==> MergedWithin(op, e, p) && ClearedWithin(op, e, p)
  {
    hide NoMerge, NoClash;
    assert Get(e, p).Bin? ==> Get(e, p).op == Dual(op);
  }

  // The passes leave nothing exactly when there is nothing to leave
  lemma {:induction false} SettledMinimal(e: Expr)
    ensures Settled(e) <==> Minimal(e)
    decreases Size(e)
  {
    hide NoMerge, NoClash, Unmerged, Unclashed, AllUnmerged, AllUnclashed, MergedWithin, ClearedWithin, Operand,
      OnSpine;
    if e.Bin? {
      AtRoot(e.op, e);
      RootPairs(e.op, e);
      NoMergePairs(e.op, e, [], []);
      NoClashPairs(e.op, e, [], []);
      forall p: Path | Operand(e.op, e, p)
        ensures Within(e, p) && Size(Get(e, p)) < Size(e)
        ensures Minimal(Get(e, p)) <==> MergedWithin(e.op, e, p) && ClearedWithin(e.op, e, p)
        ensures Settled(e) ==> MergedWithin(e.op, e, p) && ClearedWithin(e.op, e, p)
      {
        OperandSmaller(e.op, e, p);
        SettledMinimal(Get(e, p));
        SettledWithin(e.op, e, p);
        var q := OtherOperand(e.op, e, p);
      }
    }
  }

  // ---------------------------------------------------------------- no duplicates

  // At every level, and as far as no y or n occurs in them: different operands differ by more than
  // order and grouping, and are none of the pairs that merge; and of no operand that is itself split
  // are all the negated parts operands of another node
  ghost predicate Reduced(e: Expr)
    decreases Size(e)
  {
    e.Bin? ==>
      && (forall p: Path, q: Path | Operand(e.op, e, p) && Operand(e.op, e, q) && p != q :: Unlike(e.op, e, p, q))
      && (forall p: Path, t: Path | Operand(e.op, e, p) && OnSpine(e.op, e, t) && p != t :: Possible(e.op, e, p, t))
      && (forall p: Path | Operand(e.op, e, p) :: Within(e, p) && Size(Get(e, p)) < Size(e) && Reduced(Get(e, p)))
  }

  ghost predicate Unlike(op: Op, e: Expr, s: Path, t: Path) {
    && Within(e, s) && Within(e, t) && !Mergeable(op, Get(e, s), Get(e, t))
    && (NoYN(Get(e, s)) && NoYN(Get(e, t)) ==> Normalize(Get(e, s)) != Normalize(Get(e, t)))
  }

  ghost predicate Possible(op: Op, e: Expr, s: Path, t: Path) {
    && Within(e, s) && Within(e, t)
    && (Get(e, s).Bin? && NoYN(Transform(Not(Get(e, s)))) && NoYN(Get(e, t)) ==>
          !(Operands(op, Transform(Not(Get(e, s)))) <= Operands(op, Get(e, t))))
  }

  lemma UnclashedPossible(op: Op, e: Expr, s: Path, t: Path)
    requires Unclashed(op, e, s, t)
    ensures Possible(op, e, s, t)
  {
    hide Clash, NoYN, Operands, Transform;
    if Get(e, s).Bin? && NoYN(Transform(Not(Get(e, s)))) && NoYN(Get(e, t)) {
      ClashMeans(op, Get(e, s), Get(e, t));
    }
  }

  lemma UnmergedUnlike(op: Op, e: Expr, s: Path, t: Path)
    requires Unmerged(op, e, s, t)
    ensures Unlike(op, e, s, t)
  {
    hide ExprEq, Mergeable, Normalize, NoYN;
    if NoYN(Get(e, s)) && NoYN(Get(e, t)) {
      ExprEqExact(Get(e, s), Get(e, t));
    }
  }

  lemma {:induction false} MinimalReduced(e: Expr)
    requires Minimal(e)
    ensures Reduced(e)
    decreases Size(e)
  {
    hide Unmerged, Unclashed, Unlike, Possible, Operand, OnSpine;
    if e.Bin? {
      forall p: Path, q: Path | Operand(e.op, e, p) && Operand(e.op, e, q) && p != q
        ensures Unlike(e.op, e, p, q)
      {
        UnmergedUnlike(e.op, e, p, q);
      }
      forall p: Path, t: Path | Operand(e.op, e, p) && OnSpine(e.op, e, t) && p != t
        ensures Possible(e.op, e, p, t)
      {
        UnclashedPossible(e.op, e, p, t);
      }
      forall p: Path | Operand(e.op, e, p)
        ensures Within(e, p) && Size(Get(e, p)) < Size(e) && Reduced(Get(e, p))
      {
        MinimalReduced(Get(e, p));
      }
    }
  }

  // So nothing that `expr_eliminate_dups` leaves has a duplicate or contradicts itself
  lemma SettledReduced(e: Expr)
    requires Settled(e)
    ensures Reduced(e)
  {
    hide Settled, Minimal, Reduced;
    SettledMinimal(e);
    MinimalReduced(e);
  }

  // and any tree that has one gets smaller
  lemma DuplicateShrinks(e: Expr)
    requires !Reduced(e)
    ensures Size(DupsForm(e)) < Size(e)
  {
    hide Settled, Reduced, Keeps, Normal, Dups1, Dups2;
    if Settled(e) {
      SettledReduced(e);
    }
    RoundMeans(e);
    RoundShrinks(e);
    DupsFormMeans(EliminateYN(Round(e).0));
  }
}
