/** What the normal form of `KExprEq` identifies: exactly what the laws of associativity and
    commutativity of && and || make equal.
 */
module KExprAC {
  import opened KExpr
  import opened KExprEq

  type Rel = (Expr, Expr) -> bool

  // An equality of expressions that has the laws and may be used within expressions
  ghost predicate Lawful(r: Rel) {
    && (forall x :: r(x, x))
    && (forall x, y | r(x, y) :: r(y, x))
    && (forall x, y, z | r(x, y) && r(y, z) :: r(x, z))
    && (forall op: Op, x, x', y, y' | r(x, x') && r(y, y') :: r(Bin(op, x, y), Bin(op, x', y')))
    && (forall x, y | r(x, y) :: r(Not(x), Not(y)))
    && (forall op: Op, x, y :: r(Bin(op, x, y), Bin(op, y, x)))
    && (forall op: Op, x, y, z :: r(Bin(op, x, Bin(op, y, z)), Bin(op, Bin(op, x, y), z)))
  }

  // Equal normal forms are one such equality, and the smallest
  lemma NormalFormsAC(a: Expr, b: Expr)
    ensures Normalize(a) == Normalize(b) <==> forall r: Rel | Lawful(r) :: r(a, b)
  {
    if Normalize(a) == Normalize(b) {
      forall r: Rel | Lawful(r)
        ensures r(a, b)
      {
        LawsReach(r, a, b);
      }
    } else {
      NormalFormsLawful();
      assert !SameNormal()(a, b);
    }
  }

  ghost function SameNormal(): Rel {
    (x, y) => Normalize(x) == Normalize(y)
  }

  lemma NormalFormsLawful()
    ensures Lawful(SameNormal())
  {
    var r := SameNormal();
    forall op: Op, x, x', y, y' | r(x, x') && r(y, y')
      ensures r(Bin(op, x, y), Bin(op, x', y'))
    {
      SameOperands(op, x, x');
      SameOperands(op, y, y');
    }
    forall op: Op, x, y
      ensures r(Bin(op, x, y), Bin(op, y, x))
    {
      NormalizeIsAC(op, x, y, y);
    }
    forall op: Op, x, y, z
      ensures r(Bin(op, x, Bin(op, y, z)), Bin(op, Bin(op, x, y), z))
    {
      NormalizeIsAC(op, x, y, z);
    }
  }

  lemma SameOperands(op: Op, x: Expr, y: Expr)
    requires Normalize(x) == Normalize(y)
    ensures Operands(op, x) == Operands(op, y)
  {
  }

  // ---------------------------------------------------------------- from the normal form to the laws

  function Parts(op: Op, e: Expr): (s: seq<Expr>)
    ensures s != []
    ensures forall x | x in s :: if IsOp(op, e) then Size(x) < Size(e) else x == e
  {
    if IsOp(op, e) then
      Parts(op, e.left) + Parts(op, e.right)
    else [e]
  }

  // The operands in a row, grouped to the right
  function Fold(op: Op, s: seq<Expr>): Expr
    requires s != []
  {
    if |s| == 1 then s[0] else Bin(op, s[0], Fold(op, s[1..]))
  }

  ghost function Norms(s: seq<Expr>): multiset<Norm> {
    if s == [] then multiset{} else multiset{Normalize(s[0])} + Norms(s[1..])
  }

  lemma Within2(r: Rel, op: Op, x: Expr, x': Expr, y: Expr, y': Expr)
    requires Lawful(r) && r(x, x') && r(y, y')
    ensures r(Bin(op, x, y), Bin(op, x', y'))
  {
  }

  lemma WithinNot(r: Rel, x: Expr, y: Expr)
    requires Lawful(r) && r(x, y)
    ensures r(Not(x), Not(y))
  {
  }

  lemma Chain(r: Rel, x: Expr, y: Expr, z: Expr)
    requires Lawful(r) && r(x, y) && r(y, z)
    ensures r(x, z)
  {
  }

  lemma Back(r: Rel, x: Expr, y: Expr)
    requires Lawful(r) && r(x, y)
    ensures r(y, x)
  {
  }

  lemma Self(r: Rel, x: Expr)
    requires Lawful(r)
    ensures r(x, x)
  {
  }

  lemma Regroup(r: Rel, op: Op, x: Expr, y: Expr, z: Expr)
    requires Lawful(r)
    ensures r(Bin(op, Bin(op, x, y), z), Bin(op, x, Bin(op, y, z)))
  {
    Back(r, Bin(op, x, Bin(op, y, z)), Bin(op, Bin(op, x, y), z));
  }

  // x (y z) and y (x z)
  lemma Exchange(r: Rel, op: Op, x: Expr, y: Expr, z: Expr)
    requires Lawful(r)
    ensures r(Bin(op, x, Bin(op, y, z)), Bin(op, y, Bin(op, x, z)))
  {
    var xy, yx := Bin(op, x, y), Bin(op, y, x);
    Self(r, z);
    Within2(r, op, xy, yx, z, z);
    Regroup(r, op, y, x, z);
    Chain(r, Bin(op, x, Bin(op, y, z)), Bin(op, xy, z), Bin(op, yx, z));
    Chain(r, Bin(op, x, Bin(op, y, z)), Bin(op, yx, z), Bin(op, y, Bin(op, x, z)));
  }

  lemma {:induction false} FoldAppend(r: Rel, op: Op, s: seq<Expr>, t: seq<Expr>)
    requires Lawful(r) && s != [] && t != []
    ensures r(Bin(op, Fold(op, s), Fold(op, t)), Fold(op, s + t))
  {
    hide Lawful;
    assert (s + t)[1..] == s[1..] + t;
    if |s| == 1 {
      assert s[1..] + t == t;
      Self(r, Fold(op, s + t));
    } else {
      var x, f, g := s[0], Fold(op, s[1..]), Fold(op, t);
      FoldAppend(r, op, s[1..], t);
      Regroup(r, op, x, f, g);
      Self(r, x);
      Within2(r, op, x, x, Bin(op, f, g), Fold(op, s[1..] + t));
      Chain(r, Bin(op, Fold(op, s), g), Bin(op, x, Bin(op, f, g)), Fold(op, s + t));
    }
  }

  // A tree is its operands in a row
  lemma {:induction false} Flattened(r: Rel, op: Op, e: Expr)
    requires Lawful(r)
    ensures r(e, Fold(op, Parts(op, e))) && Norms(Parts(op, e)) == Operands(op, e)
  {
    hide Lawful;
    if IsOp(op, e) {
      var s, t := Parts(op, e.left), Parts(op, e.right);
      Flattened(r, op, e.left);
      Flattened(r, op, e.right);
      NormsAppend(s, t);
      FoldAppend(r, op, s, t);
      Within2(r, op, e.left, Fold(op, s), e.right, Fold(op, t));
      Chain(r, e, Bin(op, Fold(op, s), Fold(op, t)), Fold(op, s + t));
    } else {
      Self(r, e);
      assert [e][1..] == [];
    }
  }

  lemma {:induction false} NormsAppend(s: seq<Expr>, t: seq<Expr>)
    ensures Norms(s + t) == Norms(s) + Norms(t)
  {
    if s == [] {
      assert s + t == t;
    } else {
      assert (s + t)[1..] == s[1..] + t;
      NormsAppend(s[1..], t);
    }
  }

  lemma {:induction false} FindNorm(s: seq<Expr>, n: Norm) returns (j: nat)
    requires n in Norms(s)
    ensures j < |s| && Normalize(s[j]) == n
  {
    hide Normalize;
    if Normalize(s[0]) == n {
      j := 0;
    } else {
      assert n in Norms(s[1..]);
      j := FindNorm(s[1..], n);
      j := j + 1;
    }
  }

  function Without(s: seq<Expr>, j: nat): seq<Expr>
    requires j < |s|
  {
    s[..j] + s[j + 1..]
  }

  lemma NormsWithout(s: seq<Expr>, j: nat)
    requires j < |s|
    ensures Norms(s) == multiset{Normalize(s[j])} + Norms(Without(s, j))
  {
    hide Norms;
    assert s == s[..j] + ([s[j]] + s[j + 1..]);
    NormsAppend(s[..j], [s[j]] + s[j + 1..]);
    NormsAppend([s[j]], s[j + 1..]);
    NormsAppend(s[..j], s[j + 1..]);
    NormsOne(s[j]);
    Move(Norms(s[..j]), multiset{Normalize(s[j])}, Norms(s[j + 1..]));
  }

  lemma NormsOne(x: Expr)
    ensures Norms([x]) == multiset{Normalize(x)}
  {
    assert [x][1..] == [];
  }

  lemma Move<T>(a: multiset<T>, b: multiset<T>, c: multiset<T>)
    ensures a + (b + c) == b + (a + c)
  {
  }

  lemma Cancel<T>(a: multiset<T>, b: multiset<T>, c: multiset<T>)
    requires a + b == a + c
    ensures b == c
  {
    forall t
      ensures b[t] == c[t]
    {
      assert (a + b)[t] == (a + c)[t];
    }
  }

  // Any operand may come first
  lemma {:induction false} ToFront(r: Rel, op: Op, s: seq<Expr>, j: nat)
    requires Lawful(r) && j < |s| && |s| > 1
    ensures r(Fold(op, s), Bin(op, s[j], Fold(op, Without(s, j))))
  {
    hide Lawful;
    if j == 0 {
      assert Without(s, 0) == s[1..];
      Self(r, Fold(op, s));
    } else {
      var x, t := s[0], s[1..];
      assert Without(s, j)[1..] == Without(t, j - 1) && Without(s, j)[0] == x && t[j - 1] == s[j];
      Self(r, x);
      if |t| == 1 {
        assert Without(t, 0) == [];
        Swap(r, op, x, s[j]);
      } else {
        var f := Fold(op, Without(t, j - 1));
        ToFront(r, op, t, j - 1);
        Within2(r, op, x, x, Fold(op, t), Bin(op, s[j], f));
        Exchange(r, op, x, s[j], f);
        Chain(r, Fold(op, s), Bin(op, x, Bin(op, s[j], f)), Bin(op, s[j], Bin(op, x, f)));
      }
    }
  }

  lemma Swap(r: Rel, op: Op, x: Expr, y: Expr)
    requires Lawful(r)
    ensures r(Bin(op, x, y), Bin(op, y, x))
  {
  }

  lemma {:induction false} NormsCount(s: seq<Expr>)
    ensures |Norms(s)| == |s|
  {
    if s != [] {
      NormsCount(s[1..]);
    }
  }

  // Rows with the same normal forms are equal by the laws
  lemma {:induction false} RowsReach(r: Rel, op: Op, s: seq<Expr>, t: seq<Expr>, n: nat)
    requires Lawful(r) && s != [] && t != [] && Norms(s) == Norms(t)
    requires forall x | x in s :: Size(x) < n
    ensures r(Fold(op, s), Fold(op, t))
    decreases n, 0, |s|
  {
    hide Lawful;
    NormsCount(s);
    NormsCount(t);
    var j := FindNorm(t, Normalize(s[0]));
    NormsWithout(t, j);
    Cancel(multiset{Normalize(s[0])}, Norms(s[1..]), Norms(Without(t, j)));
    LawsReach(r, s[0], t[j]);
    if |s| > 1 {
      var f, g := Fold(op, s[1..]), Fold(op, Without(t, j));
      RowsReach(r, op, s[1..], Without(t, j), n);
      Within2(r, op, s[0], t[j], f, g);
      ToFront(r, op, t, j);
      Back(r, Fold(op, t), Bin(op, t[j], g));
      Chain(r, Fold(op, s), Bin(op, t[j], g), Fold(op, t));
    }
  }

  lemma {:induction false} LawsReach(r: Rel, a: Expr, b: Expr)
    requires Lawful(r) && Normalize(a) == Normalize(b)
    ensures r(a, b)
    decreases Size(a), 1, 0
  {
    hide Lawful, Fold, Parts, Norms;
    match a
    case Bin(op, _, _) =>
      Flattened(r, op, a);
      Flattened(r, op, b);
      RowsReach(r, op, Parts(op, a), Parts(op, b), Size(a));
      Back(r, b, Fold(op, Parts(op, b)));
      Chain(r, a, Fold(op, Parts(op, a)), Fold(op, Parts(op, b)));
      Chain(r, a, Fold(op, Parts(op, b)), b);
    case Not(x) =>
      LawsReach(r, x, b.arg);
      WithinNot(r, x, b.arg);
    case _ => Self(r, a);
  }
}
