/** Places in an expression tree. A `struct expr **` into a tree is a path from its root: two
    such pointers hold the same node exactly when the paths are the same, and overwriting
    through one of them is replacing the subtree there.
 */
module KSlots {
  import opened KExpr
  import opened KExprEq

  datatype Side = L | R
  type Path = seq<Side>

  function Child(e: Expr, s: Side): Expr
    requires e.Bin?
  {
    if s.L? then e.left else e.right
  }

  predicate Within(e: Expr, p: Path) {
    p == [] || (e.Bin? && Within(Child(e, p[0]), p[1..]))
  }

  function Get(e: Expr, p: Path): Expr
    requires Within(e, p)
  {
    if p == [] then e else Get(Child(e, p[0]), p[1..])
  }

  function Put(e: Expr, p: Path, x: Expr): Expr
    requires Within(e, p)
  {
    if p == [] then x
    else if p[0].L? then e.(left := Put(e.left, p[1..], x))
    else e.(right := Put(e.right, p[1..], x))
  }

  lemma {:induction false} PutGet(e: Expr, p: Path, x: Expr)
    requires Within(e, p)
    ensures Within(Put(e, p, x), p) && Get(Put(e, p, x), p) == x
    ensures Put(e, p, Get(e, p)) == e
    ensures Size(Put(e, p, x)) == Size(e) - Size(Get(e, p)) + Size(x)
    ensures p != [] ==> Size(Get(e, p)) < Size(e)
    ensures HasYN(x) || (p != [] && x in {Leaf(SymYes), Leaf(SymNo)}) ==> HasYN(Put(e, p, x))
  {
    if p != [] {
      PutGet(Child(e, p[0]), p[1..], x);
      if p[1..] == [] {
        assert Get(e, p) == Child(e, p[0]);
      }
    }
  }

  lemma {:induction false} PutPut(e: Expr, p: Path, x: Expr, y: Expr)
    requires Within(e, p)
    ensures Within(Put(e, p, x), p) && Put(Put(e, p, x), p, y) == Put(e, p, y)
  {
    if p != [] {
      PutPut(Child(e, p[0]), p[1..], x, y);
    }
  }

  lemma {:induction false} Concat(e: Expr, p: Path, q: Path)
    requires Within(e, p)
    ensures Within(e, p + q) <==> Within(Get(e, p), q)
    ensures Within(e, p + q) ==> Get(e, p + q) == Get(Get(e, p), q)
  {
    if p == [] {
      assert p + q == q;
    } else {
      assert (p + q)[0] == p[0] && (p + q)[1..] == p[1..] + q;
      Concat(Child(e, p[0]), p[1..], q);
    }
  }

  lemma {:induction false} PutConcat(e: Expr, p: Path, q: Path, x: Expr)
    requires Within(e, p) && Within(Get(e, p), q)
    ensures Within(e, p + q) && Put(e, p + q, x) == Put(e, p, Put(Get(e, p), q, x))
  {
    if p == [] {
      assert p + q == q;
    } else {
      assert (p + q)[0] == p[0] && (p + q)[1..] == p[1..] + q;
      PutConcat(Child(e, p[0]), p[1..], q, x);
    }
  }

  // ---------------------------------------------------------------- the spine of one operator

  // All nodes strictly above the place carry the operator
  predicate OnSpine(op: Op, e: Expr, p: Path) {
    p == [] || (IsOp(op, e) && OnSpine(op, Child(e, p[0]), p[1..]))
  }

  // An operand: on the spine, and not split further
  predicate Operand(op: Op, e: Expr, p: Path) {
    if IsOp(op, e) then p != [] && Operand(op, Child(e, p[0]), p[1..]) else p == []
  }

  lemma {:induction false} SpineWithin(op: Op, e: Expr, p: Path)
    requires OnSpine(op, e, p)
    ensures Within(e, p)
    ensures Operand(op, e, p) <==> !IsOp(op, Get(e, p))
  {
    if p != [] {
      SpineWithin(op, Child(e, p[0]), p[1..]);
    }
  }

  lemma {:induction false} SpineStep(op: Op, e: Expr, p: Path, s: Side)
    requires OnSpine(op, e, p) && Within(e, p) && IsOp(op, Get(e, p))
    ensures OnSpine(op, e, p + [s]) && Within(e, p + [s]) && Get(e, p + [s]) == Child(Get(e, p), s)
  {
    if p == [] {
      assert p + [s] == [s];
    } else {
      assert (p + [s])[0] == p[0] && (p + [s])[1..] == p[1..] + [s];
      SpineStep(op, Child(e, p[0]), p[1..], s);
    }
  }

  predicate SameSpine(op: Op, e: Expr, f: Expr) {
    IsOp(op, e) == IsOp(op, f) &&
    (IsOp(op, e) ==> SameSpine(op, e.left, f.left) && SameSpine(op, e.right, f.right))
  }

  function SpineSize(op: Op, e: Expr): nat {
    if IsOp(op, e) then 1 + SpineSize(op, e.left) + SpineSize(op, e.right) else 0
  }

  lemma {:induction false} SameSpineAt(op: Op, e: Expr, f: Expr, p: Path)
    requires SameSpine(op, e, f) && OnSpine(op, e, p)
    ensures OnSpine(op, f, p) && Within(e, p) && Within(f, p)
    ensures SameSpine(op, Get(e, p), Get(f, p))
    ensures SpineSize(op, Get(e, p)) == SpineSize(op, Get(f, p))
  {
    if p != [] {
      SameSpineAt(op, Child(e, p[0]), Child(f, p[0]), p[1..]);
    } else {
      SameSpineSize(op, e, f);
    }
  }

  lemma {:induction false} SameSpineSize(op: Op, e: Expr, f: Expr)
    requires SameSpine(op, e, f)
    ensures SpineSize(op, e) == SpineSize(op, f)
  {
    if IsOp(op, e) {
      SameSpineSize(op, e.left, f.left);
      SameSpineSize(op, e.right, f.right);
    }
  }

  lemma {:induction false} SameSpineTrans(op: Op, e: Expr, f: Expr, g: Expr)
    requires SameSpine(op, e, f) && SameSpine(op, f, g)
    ensures SameSpine(op, e, g)
  {
    if IsOp(op, e) {
      SameSpineTrans(op, e.left, f.left, g.left);
      SameSpineTrans(op, e.right, f.right, g.right);
    }
  }

  lemma {:induction false} SameSpineRefl(op: Op, e: Expr)
    ensures SameSpine(op, e, e)
  {
    if IsOp(op, e) {
      SameSpineRefl(op, e.left);
      SameSpineRefl(op, e.right);
    }
  }

  // Overwriting an operand by something that is not split keeps the spine
  lemma {:induction false} PutSameSpine(op: Op, e: Expr, p: Path, x: Expr)
    requires OnSpine(op, e, p) && Within(e, p)
    requires SameSpine(op, Get(e, p), x)
    ensures SameSpine(op, e, Put(e, p, x))
  {
    if p != [] {
      PutSameSpine(op, Child(e, p[0]), p[1..], x);
      SameSpineRefl(op, e.left);
      SameSpineRefl(op, e.right);
    }
  }

  // ---------------------------------------------------------------- meaning along the spine

  // The value of everything on the spine but the part at `p`
  function Others(op: Op, e: Expr, p: Path, env: Env): Tri
    requires OnSpine(op, e, p)
  {
    if p == [] then if op.And? then YES else NO
    else Meet(op, Others(op, Child(e, p[0]), p[1..], env), Calc(Child(e, if p[0].L? then R else L), env))
  }

  lemma {:induction false} SpineCalc(op: Op, e: Expr, p: Path, x: Expr, env: Env)
    requires OnSpine(op, e, p) && Within(e, p)
    ensures Calc(e, env) == Meet(op, Calc(Get(e, p), env), Others(op, e, p, env))
    ensures Calc(Put(e, p, x), env) == Meet(op, Calc(x, env), Others(op, e, p, env))
  {
    if p != [] {
      SpineCalc(op, Child(e, p[0]), p[1..], x, env);
    }
  }

  // Two operands may be overwritten together: only their joint value matters
  lemma {:induction false} TwoOperands(op: Op, e: Expr, p: Path, q: Path, x: Expr, y: Expr, env: Env)
    requires Operand(op, e, p) && Operand(op, e, q) && p != q
    requires OnSpine(op, e, p) && OnSpine(op, e, q) && Within(e, p) && Within(e, q)
    requires Meet(op, Calc(Get(e, p), env), Calc(Get(e, q), env)) == Meet(op, Calc(x, env), Calc(y, env))
    ensures Within(Put(e, p, x), q) && Get(Put(e, p, x), q) == Get(e, q)
    ensures Calc(Put(Put(e, p, x), q, y), env) == Calc(e, env)
  {
    if p[0] == q[0] {
      TwoOperands(op, Child(e, p[0]), p[1..], q[1..], x, y, env);
      PutSameSide(e, p, q, x, y);
    } else {
      TwoSides(op, e, p, q, x, y, env);
    }
  }

  lemma TwoSides(op: Op, e: Expr, p: Path, q: Path, x: Expr, y: Expr, env: Env)
    requires p != [] && q != [] && p[0] != q[0]
    requires OnSpine(op, e, p) && OnSpine(op, e, q) && Within(e, p) && Within(e, q)
    requires Meet(op, Calc(Get(e, p), env), Calc(Get(e, q), env)) == Meet(op, Calc(x, env), Calc(y, env))
    ensures Within(Put(e, p, x), q) && Get(Put(e, p, x), q) == Get(e, q)
    ensures Calc(Put(Put(e, p, x), q, y), env) == Calc(e, env)
  {
    hide Calc, Meet;
    var c, d := Child(e, p[0]), Child(e, q[0]);
    PartedOperands(op, c, d, p[1..], q[1..], x, y, env);
    PutBothSides(e, p, q, x, y);
    SidesCalc(op, c, d, Put(c, p[1..], x), Put(d, q[1..], y), env);
  }

  lemma SidesCalc(op: Op, c: Expr, d: Expr, c': Expr, d': Expr, env: Env)
    requires Meet(op, Calc(c', env), Calc(d', env)) == Meet(op, Calc(c, env), Calc(d, env))
    ensures Calc(Bin(op, c', d'), env) == Calc(Bin(op, c, d), env)
    ensures Calc(Bin(op, d', c'), env) == Calc(Bin(op, d, c), env)
  {
    MeetComm(op, Calc(c, env), Calc(d, env));
    MeetComm(op, Calc(c', env), Calc(d', env));
    hide Meet;
  }

  lemma MeetComm(op: Op, x: Tri, y: Tri)
    ensures Meet(op, x, y) == Meet(op, y, x)
  {
  }

  lemma PutSameSide(e: Expr, p: Path, q: Path, x: Expr, y: Expr)
    requires p != [] && q != [] && p[0] == q[0] && Within(e, p) && Within(e, q)
    requires Within(Put(Child(e, p[0]), p[1..], x), q[1..])
    ensures Within(Put(e, p, x), q)
    ensures Get(Put(e, p, x), q) == Get(Put(Child(e, p[0]), p[1..], x), q[1..])
    ensures var c := Put(Put(Child(e, p[0]), p[1..], x), q[1..], y);
      Put(Put(e, p, x), q, y) == if p[0].L? then Bin(e.op, c, e.right) else Bin(e.op, e.left, c)
  {
  }

  lemma PutBothSides(e: Expr, p: Path, q: Path, x: Expr, y: Expr)
    requires p != [] && q != [] && p[0] != q[0] && Within(e, p) && Within(e, q)
    ensures Within(Put(e, p, x), q) && Get(Put(e, p, x), q) == Get(e, q)
    ensures p[0].L? ==>
      Put(Put(e, p, x), q, y) == Bin(e.op, Put(e.left, p[1..], x), Put(e.right, q[1..], y))
    ensures p[0].R? ==>
      Put(Put(e, p, x), q, y) == Bin(e.op, Put(e.left, q[1..], y), Put(e.right, p[1..], x))
  {
    var f := Put(e, p, x);
    assert Child(f, q[0]) == Child(e, q[0]);
  }

  lemma PartedOperands(op: Op, c: Expr, d: Expr, p: Path, q: Path, x: Expr, y: Expr, env: Env)
    requires OnSpine(op, c, p) && OnSpine(op, d, q) && Within(c, p) && Within(d, q)
    requires Meet(op, Calc(Get(c, p), env), Calc(Get(d, q), env)) == Meet(op, Calc(x, env), Calc(y, env))
    ensures Meet(op, Calc(Put(c, p, x), env), Calc(Put(d, q, y), env)) == Meet(op, Calc(c, env), Calc(d, env))
  {
    SpineCalc(op, c, p, x, env);
    SpineCalc(op, d, q, y, env);
    var u, v := Others(op, c, p, env), Others(op, d, q, env);
    MeetSplit(op, Calc(x, env), u, Calc(y, env), v);
    MeetSplit(op, Calc(Get(c, p), env), u, Calc(Get(d, q), env), v);
  }
}
