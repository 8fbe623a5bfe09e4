/** `expr_eliminate_dups` (`config/expr.c`) on the tree itself, which is rewritten in place through two
    pointers into it: it does what the passes as functions say.
 */
module KTree {
  import opened KExpr
  import opened KExprEq
  import opened KTransform
  import opened KJoin
  import opened KSlots
  import opened KDups
  import opened KPasses
  import opened KSettled

  // Writing within a part that has been written is writing the part so
  lemma OneWrite(r: Expr, base: Path, f: Expr, s: Path, u: Expr)
    requires Within(r, base) && Within(f, s)
    ensures var r' := Put(r, base, f);
      && Within(r', base) && Get(r', base) == f && Within(r', base + s) && Get(r', base + s) == Get(f, s)
      && Put(r', base + s, u) == Put(r, base, Put(f, s, u))
  {
    PutGet(r, base, f);
    Concat(Put(r, base, f), base, s);
    PutConcat(Put(r, base, f), base, s, u);
    PutPut(r, base, f, Put(f, s, u));
  }

  // What the first pass means for the tree around the part it works on
  lemma Dups1Around(op: Op, r: Expr, base: Path, s: Path, t: Path)
    requires Slots(op, r, base, s, t)
    ensures var (f, n) := Dups1(op, Get(r, base), s, t);
      && Merged(op, r, Put(r, base, f), base, n) && Slots(op, Put(r, base, f), base, s, t)
      && (n == 0 <==> NoMerge(op, Get(r, base), s, t))
  {
    hide Dups1, NoMerge, Equiv;
    var (f, n) := Dups1(op, Get(r, base), s, t);
    Dups1Means(op, Get(r, base), s, t);
    PutGet(r, base, f);
    FrameSlots(op, Get(r, base), f, [], n, s, t);
  }

  lemma Dups2Around(op: Op, r: Expr, base: Path, s: Path, t: Path)
    requires Slots(op, r, base, s, t)
    ensures var (f, n) := Dups2(op, Get(r, base), s, t);
      && Cleared(op, r, Put(r, base, f), base, n) && Slots(op, Put(r, base, f), base, s, t)
      && (n == 0 <==> NoClash(op, Get(r, base), s, t))
  {
    hide Dups2, NoClash, Keeps;
    var (f, n) := Dups2(op, Get(r, base), s, t);
    Dups2Means(op, Get(r, base), s, t);
    PutGet(r, base, f);
    FrameSlots(op, Get(r, base), f, [], n, s, t);
  }

  // What the pass over the operands of `e1` leaves at the two places
  lemma MergeWithinAt(op: Op, e: Expr, s: Path, t: Path)
    requires Slots(op, e, [], s, t) && s != t && !IsOp(op, Get(e, s))
    ensures var (f, m) := MergeWithin(op, e, s, t);
      && Within(f, s) && Within(f, t) && Slots(op, f, [], s, t) && f == Put(e, s, Get(f, s))
      && !IsOp(op, Get(f, s)) && IsOp(op, Get(f, t)) == IsOp(op, Get(e, t))
      && (if Get(e, s).Bin? then (Get(f, s), m) == Dups1(Dual(op), Get(e, s), [], []) else f == e && m == 0)
  {
    hide Dups1, Frame;
    var (f, m) := MergeWithin(op, e, s, t);
    FrameSlots(op, e, f, [], m, s, t);
    PutGet(e, s, Get(e, s));
    if Get(e, s).Bin? {
      PutGet(e, s, Dups1(Dual(op), Get(e, s), [], []).0);
    }
  }

  lemma PairMerged(op: Op, r: Expr, base: Path, s: Path, t: Path)
    requires Slots(op, r, base, s, t) && s != t
    requires !IsOp(op, Get(Get(r, base), s)) && !IsOp(op, Get(Get(r, base), t))
    ensures var (f, n) := MergePair(op, Get(r, base), s, t);
      Merged(op, r, Put(r, base, f), base, n) && (n == 0 <==> NoMerge(op, Get(r, base), s, t))
  {
    hide MergePair, NoMerge, Equiv;
    MergePairMeans(op, Get(r, base), s, t);
    PutGet(r, base, MergePair(op, Get(r, base), s, t).0);
  }

  lemma SecondCleared(op: Op, r: Expr, base: Path, s: Path, t: Path)
    requires Slots(op, r, base, s, t) && !IsOp(op, Get(Get(r, base), s))
    ensures var (f, n) := SecondParts(op, Get(r, base), s, t);
      Cleared(op, r, Put(r, base, f), base, n) && (n == 0 <==> SecondClear(op, Get(r, base), s, t))
  {
    hide SecondParts, SecondClear, Keeps;
    SecondPartsMean(op, Get(r, base), s, t);
    PutGet(r, base, SecondParts(op, Get(r, base), s, t).0);
  }

  lemma PairCleared(op: Op, r: Expr, base: Path, s: Path, t: Path)
    requires Slots(op, r, base, s, t) && s != t && !IsOp(op, Get(Get(r, base), s))
    ensures var (f, n) := ClearPair(op, Get(r, base), s, t);
      Cleared(op, r, Put(r, base, f), base, n) && (n == 0 <==> PairClear(op, Get(r, base), s, t))
  {
    hide ClearPair, PairClear, Keeps;
    ClearPairMeans(op, Get(r, base), s, t);
    PutGet(r, base, ClearPair(op, Get(r, base), s, t).0);
  }

  class Tree {
    var root: Expr
    var transCount: nat

    constructor (e: Expr)
      ensures root == e && transCount == 0
    {
      root, transCount := e, 0;
    }

    // `expr_eliminate_dups1(op, &base.s, &base.t)`: merges every operand below the first place
    // with every operand below the second
    method EliminateDups1(op: Op, base: Path, s: Path, t: Path)
      requires Slots(op, root, base, s, t)
      modifies this
      ensures var (f, n) := Dups1(op, Get(old(root), base), s, t);
        root == Put(old(root), base, f) && transCount == old(transCount) + n
      ensures Merged(op, old(root), root, base, transCount - old(transCount))
      ensures Slots(op, root, base, s, t)
      ensures transCount == old(transCount) <==> NoMerge(op, Get(old(root), base), s, t)
      decreases Size(Get(root, base)),
        SpineSize(op, Get(Get(root, base), s)) + SpineSize(op, Get(Get(root, base), t)), 1
    {
      hide Merged, NoMerge, MergePair, Normal;
      ghost var r, e := root, Get(root, base);
      Concat(root, base, s);
      Concat(root, base, t);
      if IsOp(op, Get(root, base + s)) {
        SpineSteps(op, e, s);
        EliminateDups1(op, base, s + [L], t);
        ghost var (f, m) := Dups1(op, e, s + [L], t);
        PutGet(r, base, f);
        FrameSlots(op, e, f, [], m, s, t);
        SpineSteps(op, f, s);
        EliminateDups1(op, base, s + [R], t);
        PutPut(r, base, f, Dups1(op, f, s + [R], t).0);
      } else if IsOp(op, Get(root, base + t)) {
        SpineSteps(op, e, t);
        EliminateDups1(op, base, s, t + [L]);
        ghost var (f, m) := Dups1(op, e, s, t + [L]);
        PutGet(r, base, f);
        FrameSlots(op, e, f, [], m, s, t);
        SpineSteps(op, f, t);
        EliminateDups1(op, base, s, t + [R]);
        PutPut(r, base, f, Dups1(op, f, s, t + [R]).0);
      } else if s == t {
        PutGet(r, base, e);
      } else {
        MergeOperands(op, base, s, t);
      }
      Dups1Around(op, r, base, s, t);
    }

    // The part of `expr_eliminate_dups1` for two different operands: first the pass over the
    // operands of `e1` itself, when it has another operator, then the merging rules
    method MergeOperands(op: Op, base: Path, s: Path, t: Path)
      requires Slots(op, root, base, s, t) && s != t
      requires !IsOp(op, Get(Get(root, base), s)) && !IsOp(op, Get(Get(root, base), t))
      modifies this
      ensures var (f, n) := MergePair(op, Get(old(root), base), s, t);
        root == Put(old(root), base, f) && transCount == old(transCount) + n
      ensures Merged(op, old(root), root, base, transCount - old(transCount))
      ensures transCount == old(transCount) <==> NoMerge(op, Get(old(root), base), s, t)
      decreases Size(Get(root, base)),
        SpineSize(op, Get(Get(root, base), s)) + SpineSize(op, Get(Get(root, base), t)), 0
    {
      hide Merged, NoMerge, Normal, Join, Dups1, Frame, MergeWithin;
      ghost var r, e := root, Get(root, base);
      Concat(root, base, s);
      SpineApart(op, e, s, t);
      PutGet(e, s, root);
      PutGet(r, base, e);
      MergeWithinAt(op, e, s, t);
      ghost var (f, m) := MergeWithin(op, e, s, t);
      if Get(root, base + s).Bin? {
        EliminateDups1(Get(root, base + s).op, base + s, [], []);
        PutConcat(r, base, s, Get(f, s));
      }
      OneWrite(r, base, f, s, Leaf(Unit(op)));
      OneWrite(r, base, f, t, f);
      var joined := Join(op, Get(root, base + s), Get(root, base + t));
      if joined.Rule? {
        JoinAt(op, f, s, t);
        root := Put(root, base + s, Leaf(Unit(op)));
        OneWrite(r, base, Put(f, s, Leaf(Unit(op))), t, joined.e);
        root := Put(root, base + t, joined.e);
        transCount := transCount + 1;
      }
      PairMerged(op, r, base, s, t);
    }

    // `expr_eliminate_dups2(op, &base.s, &base.t)`: unlike the first pass it goes on after the
    // operands of `e2`, so `e2` is every node on the spine, and may contain `e1`
    method EliminateDups2(op: Op, base: Path, s: Path, t: Path)
      requires Slots(op, root, base, s, t)
      modifies this
      ensures var (f, n) := Dups2(op, Get(old(root), base), s, t);
        root == Put(old(root), base, f) && transCount == old(transCount) + n
      ensures Cleared(op, old(root), root, base, transCount - old(transCount))
      ensures Slots(op, root, base, s, t)
      ensures transCount == old(transCount) <==> NoClash(op, Get(old(root), base), s, t)
      decreases Size(Get(root, base)),
        SpineSize(op, Get(Get(root, base), s)) + SpineSize(op, Get(Get(root, base), t)), 1
    {
      hide Cleared, NoClash, ClearPair, SecondParts, Normal;
      ghost var r, e := root, Get(root, base);
      Concat(root, base, s);
      if IsOp(op, Get(root, base + s)) {
        SpineSteps(op, e, s);
        EliminateDups2(op, base, s + [L], t);
        ghost var (f, m) := Dups2(op, e, s + [L], t);
        PutGet(r, base, f);
        FrameSlots(op, e, f, [], m, s, t);
        SpineSteps(op, f, s);
        EliminateDups2(op, base, s + [R], t);
        PutPut(r, base, f, Dups2(op, f, s + [R], t).0);
      } else {
        SplitSecond(op, base, s, t);
        ghost var (f, m) := SecondParts(op, e, s, t);
        PutGet(r, base, f);
        FrameSlots(op, e, f, [], m, s, t);
        if s != t {
          ClearOperand(op, base, s, t);
          PutPut(r, base, f, ClearPair(op, f, s, t).0);
        }
      }
      Dups2Around(op, r, base, s, t);
    }

    // The part of `expr_eliminate_dups2` that goes through the operands of `e2`
    method SplitSecond(op: Op, base: Path, s: Path, t: Path)
      requires Slots(op, root, base, s, t)
      requires !IsOp(op, Get(Get(root, base), s))
      modifies this
      ensures var (f, n) := SecondParts(op, Get(old(root), base), s, t);
        root == Put(old(root), base, f) && transCount == old(transCount) + n
      ensures Cleared(op, old(root), root, base, transCount - old(transCount))
      ensures transCount == old(transCount) <==> SecondClear(op, Get(old(root), base), s, t)
      decreases Size(Get(root, base)),
        SpineSize(op, Get(Get(root, base), s)) + SpineSize(op, Get(Get(root, base), t)), 0
    {
      hide Cleared, NoClash, SecondClear, Dups2, Normal;
      ghost var r, e := root, Get(root, base);
      Concat(root, base, t);
      PutGet(r, base, e);
      if IsOp(op, Get(root, base + t)) {
        SpineSteps(op, e, t);
        EliminateDups2(op, base, s, t + [L]);
        ghost var (f, m) := Dups2(op, e, s, t + [L]);
        PutGet(r, base, f);
        FrameSlots(op, e, f, [], m, s, t);
        SpineSteps(op, f, t);
        EliminateDups2(op, base, s, t + [R]);
        PutPut(r, base, f, Dups2(op, f, s, t + [R]).0);
      }
      SecondCleared(op, r, base, s, t);
    }

    // The part of `expr_eliminate_dups2` for one operand `e1` and another node `e2`
    method ClearOperand(op: Op, base: Path, s: Path, t: Path)
      requires Slots(op, root, base, s, t) && s != t
      requires !IsOp(op, Get(Get(root, base), s))
      modifies this
      ensures var (f, n) := ClearPair(op, Get(old(root), base), s, t);
        root == Put(old(root), base, f) && transCount == old(transCount) + n
      ensures Cleared(op, old(root), root, base, transCount - old(transCount))
      ensures transCount == old(transCount) <==> PairClear(op, Get(old(root), base), s, t)
      decreases Size(Get(root, base)),
        SpineSize(op, Get(Get(root, base), s)) + SpineSize(op, Get(Get(root, base), t)), 0
    {
      hide Cleared, NoClash, PairClear, Normal, Dups2, ExtractEqYN, Transform;
      ghost var r, e := root, Get(root, base);
      Concat(root, base, s);
      SpineApart(op, e, s, t);
      PutGet(e, s, root);
      PutGet(r, base, e);
      if Get(root, base + s).Bin? {
        EliminateDups2(Get(root, base + s).op, base + s, [], []);
        ghost var (x, m) := Dups2(Dual(op), Get(e, s), [], []);
        ghost var f := Put(e, s, x);
        PutConcat(r, base, s, x);
        FrameLift(op, e, s, x, m);
        FrameSlots(op, e, f, [], m, s, t);
        OneWrite(r, base, f, s, Leaf(Zero(op)));
        OneWrite(r, base, f, t, f);
        var (_, tmp1, _) := ExtractEqYN(op, Transform(Not(Get(root, base + s))), Get(root, base + t));
        if tmp1 == Leaf(Unit(op)) {
          root := Put(root, base + s, Leaf(Zero(op)));
          transCount := transCount + 1;
        }
      }
      PairCleared(op, r, base, s, t);
    }

    // `expr_eliminate_dups`: rounds of both passes and the removal of constants, until a round
    // replaces nothing. It ends, keeps every value but mod, and leaves nothing to merge or clear.
    method EliminateDups()
      modifies this
      ensures root == DupsForm(old(root))
      ensures Keeps(old(root), root)
      ensures Size(root) <= Size(old(root))
      ensures Normal(old(root)) ==> Normal(root)
      ensures transCount == old(transCount)
      ensures Settled(root)
      ensures Settled(old(root)) ==> root == old(root)
      ensures Reduced(root) && (!Reduced(old(root)) ==> Size(root) < Size(old(root)))
    {
      hide Keeps, Normal, Settled, Reduced, Dups1, Dups2, Merged, Cleared, NoMerge, NoClash;
      var oldCount := transCount;
      while true
        invariant DupsForm(root) == DupsForm(old(root))
        decreases Size(root)
      {
        ghost var e := root;
        RoundShrinks(e);
        transCount := 0;
        if root.Bin? {
          FrameRefl(root.op, root, []);
          EliminateDups1(root.op, [], [], []);
          EliminateDups2(root.op, [], [], []);
        }
        if transCount == 0 {
          break;
        }
        root := EliminateYN(root);
      }
      transCount := oldCount;
      DupsFormMeans(old(root));
      SettledReduced(root);
      if !Reduced(old(root)) {
        DuplicateShrinks(old(root));
      }
    }
  }
}
