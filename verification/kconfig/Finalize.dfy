/** `menu_finalize` (`config/menu.c`): conditions are handed down, entries that depend on the one
    before them become its children, and the lists are flattened.
 */
module KFinalize {
  import opened KExpr
  import opened KExprEq
  import opened KTransform
  import opened KDups
  import opened KPasses
  import opened KSettled
  import opened KTree
  import opened KCompare
  import opened KForest
  import opened KFlatten
  import opened KPropagate

  // ---------------------------------------------------------------- adoption

  // What a condition is compared as: `expr_eliminate_dups(expr_transform(expr_trans_compare(d,
  // E_UNEQUAL, &symbol_no)))`
  function ComparedAs(d: Dep): Expr {
    DupsForm(Transform(TransCompareDep(d, false, SymNo)))
  }

  // An entry with the condition `dep` goes below the entry of `sym` with the condition `above`; any
  // other ends the list of those that do
  predicate Adopted(dep: Dep, above: Dep, sym: Sym) {
    Contains(dep, sym) && (Depends(dep, sym) || Implied(ComparedAs(dep), ComparedAs(above)))
  }

  predicate LogicalDep(d: Dep) {
    d.When? ==> Logical(d.e)
  }

  // What adoption means: the entry is never selectable while its new parent is off or hidden
  lemma AdoptedMeans(dep: Dep, above: Dep, sym: Sym, env: Env)
    requires WellTyped(env) && LogicalDep(dep) && LogicalDep(above) && IsLogical(sym)
    requires Adopted(dep, above, sym)
    ensures CalcDep(dep, env) == YES ==> env(sym).tri != NO || CalcDep(above, env) != NO
  {
    if Depends(dep, sym) {
      NeedsCalc(dep.e, sym, env);
    } else {
      hide DupsForm, Keeps;
      DupsFormMeans(Transform(TransCompareDep(dep, false, SymNo)));
      DupsFormMeans(Transform(TransCompareDep(above, false, SymNo)));
      AdoptionSound(dep, above, ComparedAs(dep), ComparedAs(above), env);
    }
  }

  // The test in terms of operands, when no y or n is left among those compared: the entry contains the
  // symbol, and one of its operands says at once that it is not n, or each operand of the condition
  // above is one of its own
  lemma AdoptedExactly(dep: Dep, above: Dep, sym: Sym, other: Sym)
    requires other != sym && NoYN(ComparedAs(dep)) && NoYN(ComparedAs(above))
    ensures Adopted(dep, above, sym) <==> (
        && dep.When? && Renamed(dep.e, sym, other) != dep.e
        && (SomeDemand(Operands(And, dep.e), sym) || Covers(ComparedAs(dep), ComparedAs(above))))
  {
    hide ComparedAs, NoYN, Operands, Implied, Needs, Mentions, Renamed, SomeDemand;
    ImpliedExactly(ComparedAs(dep), ComparedAs(above));
    if dep.When? {
      MentionsExactly(dep.e, sym, other);
      NeedsExactly(dep.e, sym);
    }
  }

  method Compared(d: Dep) returns (e: Expr)
    ensures e == ComparedAs(d) && Normal(e) && Reduced(e)
  {
    TransformNormal(TransCompareDep(d, false, SymNo));
    var tree := new Tree(Transform(TransCompareDep(d, false, SymNo)));
    tree.EliminateDups();
    e := tree.root;
  }

  // The test runs into the limits of `expr_eliminate_eq` exactly here
  predicate Undefined(dep: Dep, above: Dep, sym: Sym) {
    Contains(dep, sym) && !Depends(dep, sym) && !Comparable(ComparedAs(dep), ComparedAs(above))
  }

  // `expr_eliminate_eq` leaves both sides alone there, in this model; so the entry is taken in
  // exactly if nothing is demanded of the entry above
  lemma UndefinedTaken(dep: Dep, above: Dep, sym: Sym)
    requires Undefined(dep, above, sym)
    ensures Adopted(dep, above, sym) <==> ComparedAs(above) == Leaf(SymYes)
  {
    hide DupsForm, Transform;
  }

  // An entry with the prompt condition !Z, and one that depends on !FOO, for boolean symbols:
  // two negations
  lemma TwoNegations(foo: Sym, z: Sym)
    requires KindOf(foo).Boolean? && KindOf(z).Boolean?
    ensures Undefined(When(Not(Leaf(foo))), When(Not(Leaf(z))), foo)
    ensures !Adopted(When(Not(Leaf(foo))), When(Not(Leaf(z))), foo)
  {
    assert Mentions(Leaf(foo), foo);
    NegationStays(foo);
    NegationStays(z);
    UndefinedTaken(When(Not(Leaf(foo))), When(Not(Leaf(z))), foo);
  }

  lemma NegationStays(s: Sym)
    requires KindOf(s).Boolean?
    ensures ComparedAs(When(Not(Leaf(s)))) == Not(Leaf(s))
  {
    assert TransCompare(Not(Leaf(s)), false, SymNo) == Cmp(true, s, SymNo);
    assert Transform(Cmp(true, s, SymNo)) == Not(Leaf(s));
  }

  // The test of the adoption loop for one following entry, with what the condition above is
  // compared as worked out before
  method ShouldAdopt(dep: Dep, above: Dep, base: Expr, sym: Sym) returns (b: bool)
    requires base == ComparedAs(above)
    ensures b <==> Adopted(dep, above, sym)
    ensures b ==> dep.When? && Mentions(dep.e, sym)
    ensures dep.When? && SomeDemand(Operands(And, dep.e), sym) ==> b
  {
    if dep.When? {
      NeedsExactly(dep.e, sym);
      if Needs(dep.e, sym) {
        NeedsMentions(dep.e, sym);
      }
    }
    if !Contains(dep, sym) {
      return false;
    }
    if Depends(dep, sym) {
      return true;
    }
    var compared := Compared(dep);
    var (_, dep2) := EliminateEq(compared, base);
    return dep2 == Leaf(SymYes);
  }

  // ---------------------------------------------------------------- the recursion

  // `g` is `f` without some of its first entries
  ghost predicate Suffix(g: Forest, f: Forest) {
    g == f || (f.Cons? && Suffix(g, f.rest))
  }

  lemma {:induction false} SuffixNext(h: Forest, g: Forest, f: Forest)
    requires Suffix(g, f) && g.Cons? && Suffix(h, g.rest)
    ensures Suffix(h, f)
  {
    if g != f {
      SuffixNext(h, g, f.rest);
    }
  }

  // `kids` and `rest` are what was below and after the first entry of `f`, the latter only
  // shortened, all in the same order
  ghost predicate Rearranged(f: Forest, kids: Forest, rest: Forest) {
    && f.Cons?
    && Distinct(Node(f.m, kids, rest)) && Nodes(Node(f.m, kids, rest)) == Nodes(f)
    && Preorder(kids) + Preorder(rest) == Preorder(f.kids) + Preorder(f.rest)
    && Suffix(rest, f.rest)
  }

  lemma RearrangedSelf(f: Forest)
    requires f.Cons? && Distinct(f)
    ensures Rearranged(f, f.kids, f.rest)
    ensures |Preorder(f.kids)| < |Preorder(f)| && |Preorder(f.rest)| < |Preorder(f)|
    ensures f == Node(f.m, f.kids, f.rest)
    ensures Nodes(f.kids) <= Nodes(f) && Nodes(f.rest) <= Nodes(f) && f.m in Nodes(f)
  {
  }

  lemma RearrangedNext(f: Forest, kids: Forest, rest: Forest)
    requires f.Cons? && Distinct(f) && f.kids == Nil
    requires Split(kids, rest, f.rest) && Suffix(rest, f.rest)
    ensures Rearranged(f, kids, rest)
  {
  }

  lemma RearrangedBelow(f: Forest, kids: Forest, rest: Forest, below: Forest)
    requires Rearranged(f, kids, rest)
    requires Distinct(below) && Nodes(below) == Nodes(kids) && Preorder(below) == Preorder(kids)
    ensures Rearranged(f, below, rest)
  {
  }

  // The list `f` is parted into what is done, flat below its entries, and what is to come, in the
  // same order
  ghost predicate Split(done: Forest, todo: Forest, f: Forest) {
    Parted(done, todo, Nodes(f)) && Preorder(done) + Preorder(todo) == Preorder(f) && KidsFlat(done)
  }

  // The next entry of a list, rearranged, is put behind what is done
  lemma Advance(done: Forest, todo: Forest, f: Forest, below: Forest, after: Forest)
    requires Split(done, todo, f) && Rearranged(todo, below, after) && DeepFlat(below)
    ensures Split(Snoc(done, todo.m, below), after, f) && |Preorder(after)| < |Preorder(todo)|
    ensures Preorder(Snoc(done, todo.m, below)) == Preorder(done) + [todo.m] + Preorder(below)
    ensures Tops(Snoc(done, todo.m, below)) == Tops(done) + [todo.m]
    ensures Nodes(Snoc(done, todo.m, below)) == Nodes(done) + {todo.m} + Nodes(below)
    ensures Apart(done, todo.m, below) && Suffix(after, todo.rest)
  {
    TakeOne(done, todo, Nodes(f), below, after);
    TakeOneOrder(done, todo, Preorder(f), below, after);
    KidsFlatAppend(done, Node(todo.m, below, Nil));
  }

  ghost predicate Apart(a: Forest, m: Menu, k: Forest) {
    Distinct(a) && Distinct(k) && m !in Nodes(a) && m !in Nodes(k) && Nodes(a) !! Nodes(k)
  }

  lemma SplitFacts(done: Forest, todo: Forest, f: Forest)
    requires Split(done, todo, f)
    ensures Nodes(done) !! Nodes(todo) && Nodes(done) + Nodes(todo) == Nodes(f) && Distinct(done) && Distinct(todo)
    ensures KidsFlat(done)
    ensures todo == Nil && Distinct(f) ==> Preorder(done) == Preorder(f) && Nodes(done) == Nodes(f)
  {
    assert Preorder(done) + [] == Preorder(done);
  }

  lemma PreorderNil()
    ensures Preorder(Nil) == []
  {
  }

  lemma ConcatAssoc<T>(a: seq<T>, b: seq<T>, c: seq<T>)
    ensures (a + b) + c == a + (b + c)
  {
  }

  lemma EmptyList(f: Forest, parent: Menu?)
    requires Segment(f, null, parent, null)
    ensures f == Nil
  {
  }

  lemma OrderStep<T>(o: seq<T>, d: seq<T>, m: T, b: seq<T>)
    ensures (o + d) + ([m] + b) == o + (d + [m] + b)
  {
  }

  // ---------------------------------------------------------------- what has been handed down

  // Between two moments, the entries of `s` may have been added
  ghost predicate Grew(before: map<Menu, Dep>, after: map<Menu, Dep>, s: set<Menu>) {
    && before.Keys <= after.Keys <= before.Keys + s
    && forall m | m in before :: after[m] == before[m]
  }

  lemma GrewTrans(a: map<Menu, Dep>, b: map<Menu, Dep>, c: map<Menu, Dep>, s: set<Menu>, t: set<Menu>, u: set<Menu>)
    requires Grew(a, b, s) && Grew(b, c, t) && s <= u && t <= u
    ensures Grew(a, c, u)
  {
  }

  // Of a list and what is below it, exactly the entries of the list itself are done
  ghost predicate Waiting(f: Forest, done: set<Menu>) {
    forall m | m in Nodes(f) :: m in done <==> m in TopSet(f)
  }

  // The condition was an entry's own when it was taken in, and the test has passed
  ghost predicate AllTaken(taken: Forest, shown: map<Menu, Dep>, above: Dep, sym: Sym) {
    forall m | m in TopSet(taken) :: m in shown && Adopted(shown[m], above, sym)
  }

  // What comes next was not taken in
  ghost predicate Stopped(rest: Forest, shown: map<Menu, Dep>, above: Dep, sym: Sym) {
    rest.Cons? ==> rest.m in shown && !Adopted(shown[rest.m], above, sym)
  }

  // Which entries an entry without a list takes in, and where that stops; any other entry takes none
  ghost predicate TakesIn(f: Forest, taken: Forest, rest: Forest, shown: map<Menu, Dep>) {
    && f.Cons? && f.m in shown
    && if f.kids.Nil? && f.m.sym.HasSym? && f.m.prompt != null then
        && AllTaken(taken, shown, shown[f.m], f.m.sym.sym)
        && Stopped(rest, shown, shown[f.m], f.m.sym.sym)
      else rest == f.rest
  }

  lemma TakesInList(f: Forest, kids: Forest, shown: map<Menu, Dep>)
    requires f.Cons? && f.kids.Cons? && f.m in shown
    ensures TakesIn(f, kids, f.rest, shown)
  {
  }

  class Finalizer {
    ghost const entries: set<Menu>          // all entries there are
    ghost const conditions: set<Property>   // and their properties
    ghost const root: Menu
    ghost const home: map<Menu, Menu?>      // below which entry each was declared
    ghost const deps: map<Menu, Dep>        // with which dependency
    ghost const visible: map<Property, Dep> // and the conditions of its properties
    ghost var order: seq<Menu>              // the entries finalised so far
    ghost var shown: map<Menu, Dep>         // the entries narrowed so far, with their conditions since

    constructor (root: Menu, ghost f: Forest)
      requires Segment(f, root.list, root, null) && Distinct(f) && root !in Nodes(f)
      requires OwnProperties({root} + Nodes(f))
      ensures entries == {root} + Nodes(f) && this.root == root && order == [] && shown.Keys == {root}
      ensures home == (map m | m in entries :: m.parent) && deps == map m | m in entries :: m.dep
      ensures conditions == Properties(entries) && visible == map q | q in conditions :: q.visible
      ensures Handed()
    {
      hide Segment, Distinct, Handed, OwnProperties;
      this.root, entries := root, {root} + Nodes(f);
      home := map m | m in {root} + Nodes(f) :: m.parent;
      deps := map m | m in {root} + Nodes(f) :: m.dep;
      conditions := Properties({root} + Nodes(f));
      visible := map q | q in Properties({root} + Nodes(f)) :: q.visible;
      order, shown := [], map[root := root.Condition()];
      new;
      NoneNarrowed();
    }

    lemma NoneNarrowed()
      requires root in entries && OwnProperties(entries) && shown == map[root := root.Condition()]
      requires home == (map m | m in entries :: m.parent) && deps == map m | m in entries :: m.dep
      requires conditions == Properties(entries) && visible == map q | q in conditions :: q.visible
      ensures Handed()
    {
      hide HandedDown, Propagated;
      assert root.Valid();
    }

    // An entry has been narrowed, once, by what the entry demands that it was declared below
    ghost predicate Received(m: Menu)
      reads entries`dep, conditions`visible
    {
      && m in entries && OwnProperties(entries) && m in home && m in deps && home[m] != null && home[m] in entries
      && (forall q | q in m.props + home[m].props :: q in conditions)
      && Propagated(m, Above(home[m]), deps[m], visible)
    }

    ghost predicate HandedDown(m: Menu)
      reads this`shown, entries`dep, conditions`visible
    {
      Received(m) && m in shown && home[m] in shown && shown[m] == m.Condition()
    }

    ghost predicate AsDeclared(m: Menu)
      reads entries`dep, entries`parent, conditions`visible
    {
      && m in entries && m in home && m in deps && (forall q | q in m.props :: q in conditions)
      && m.parent == home[m] && Untouched(m, deps[m], visible)
    }

    ghost predicate AllHandedDown()
      reads this`shown, entries`dep, conditions`visible
    {
      && root in shown && root in entries && shown.Keys <= entries && OwnProperties(entries)
      && conditions == Properties(entries) && (root.prompt != null ==> root.prompt in conditions)
      && shown[root] == root.Condition()
      && forall m | m in shown && m != root :: HandedDown(m)
    }

    ghost predicate OthersAsDeclared(s: set<Menu>)
      reads this`shown, entries`dep, entries`parent, conditions`visible
    {
      forall m | m in entries && m !in s && m !in shown :: AsDeclared(m)
    }

    // Every entry is either narrowed or as it was declared
    ghost predicate Handed()
      reads this`shown, entries`dep, entries`parent, conditions`visible
    {
      AllHandedDown() && OthersAsDeclared({})
    }

    // Some of the entries, linked to a list
    ghost predicate Linked(f: Forest, first: Menu?, parent: Menu?)
      reads Nodes(f)`next, Nodes(f)`parent, Nodes(f)`list
    {
      Segment(f, first, parent, null) && Distinct(f) && Nodes(f) <= entries
    }

    lemma LinkedKids(f: Forest, p: Menu, above: Menu?)
      requires f.Cons? && Linked(f, p, above)
      ensures f.m == p && Linked(f.kids, p.list, p) && Nodes(f.kids) <= Nodes(f)
      ensures p !in Nodes(f.kids) && Nodes(f.rest) !! Nodes(f.kids) && p in entries
      ensures |Preorder(f.kids)| < |Preorder(f)| && |Preorder(f.rest)| < |Preorder(f)|
    {
    }

    lemma ShownInside()
      requires Handed()
      ensures shown.Keys <= entries
    {
    }

    lemma ShownCondition(m: Menu)
      requires Handed() && m in shown
      ensures m in entries && shown[m] == m.Condition()
    {
      assert m != root ==> HandedDown(m);
    }

    lemma AllReceived(s: set<Menu>)
      requires Handed() && s <= shown.Keys && root !in s
      ensures forall m | m in s :: Received(m)
    {
      assert forall m | m in s :: HandedDown(m);
    }

    // `menu_finalize(p)`, where `f` is `p` with everything below and after it. The entries keep
    // their order; the list below `p` may take in entries that followed it; exactly these and `p`
    // are finalised, once each and in order, and what is below them is narrowed; all pointers are
    // right afterwards. `taken` is the list below `p` before it is flattened.
    method Finalize(p: Menu, ghost f: Forest, ghost above: Menu?)
      returns (ghost kids: Forest, ghost rest: Forest, ghost taken: Forest)
      requires Handed() && f.Cons? && Linked(f, p, above) && Waiting(f, shown.Keys)
      modifies this`order, this`shown, Nodes(f)`next, Nodes(f)`parent, Nodes(f)`list, Nodes(f)`dep
      modifies conditions`visible
      ensures p.parent == above && Segment(kids, p.list, p, null) && Segment(rest, p.next, above, null)
      ensures Rearranged(f, kids, rest)
      ensures order == old(order) + ([p] + Preorder(kids))
      ensures Handed() && Grew(old(shown), shown, Nodes(f))
      ensures Nodes(kids) + {p} <= shown.Keys && Waiting(rest, shown.Keys)
      ensures TakesIn(f, taken, rest, shown) && kids == FlatForm(taken) && DeepFlat(kids)
      decreases |Preorder(f)|, 1
    {
      hide Handed, Waiting, TakesIn, Grew, FlatForm, DeepFlat, KidsFlat;
      order := order + [p];
      taken, rest := Arrange(p, f, above);
      assert Nodes(taken) <= Nodes(f) && Nodes(taken) !! Nodes(rest) && p !in Nodes(taken) && p !in Nodes(rest);
      kids := FlattenHanded(p, taken);
      RearrangedBelow(f, taken, rest, kids);
      FlatFormDeep(taken);
      ConcatAssoc(old(order), [p], Preorder(kids));
    }

    // Flattening moves only entries that have been narrowed
    method FlattenHanded(p: Menu, ghost kids: Forest) returns (ghost kids': Forest)
      requires Handed() && Nodes(kids) <= shown.Keys
      requires Segment(kids, p.list, p, null) && Distinct(kids) && p !in Nodes(kids)
      modifies Nodes(kids)`next, Nodes(kids)`parent, Nodes(kids)`list
      ensures Handed()
      ensures Segment(kids', p.list, p, null) && Distinct(kids')
      ensures Preorder(kids') == Preorder(kids) && Nodes(kids') == Nodes(kids)
      ensures kids' == FlatForm(kids)
    {
      hide FlatForm, AllHandedDown, Untouched;
      ShownInside();
      kids' := Flatten(p, kids);
    }

    // The part of `menu_finalize` before the flattening
    method Arrange(p: Menu, ghost f: Forest, ghost above: Menu?)
      returns (ghost kids: Forest, ghost rest: Forest)
      requires Handed() && f.Cons? && Linked(f, p, above) && Waiting(f, shown.Keys)
      modifies this`order, this`shown, Nodes(f)`next, Nodes(f)`parent, Nodes(f)`list, Nodes(f)`dep
      modifies conditions`visible
      ensures p.parent == above && Segment(kids, p.list, p, null) && Segment(rest, p.next, above, null)
      ensures Rearranged(f, kids, rest)
      ensures order == old(order) + Preorder(kids)
      ensures Handed() && Grew(old(shown), shown, Nodes(f))
      ensures Nodes(kids) + {p} <= shown.Keys && Waiting(rest, shown.Keys)
      ensures TakesIn(f, kids, rest, shown) && KidsFlat(kids)
      decreases |Preorder(f)|, 0
    {
      hide Handed, Grew, Waiting, TakesIn, Preorder, Tops, Distinct;
      LinkedKids(f, p, above);
      if p.list != null {
        rest := f.rest;
        RearrangedSelf(f);
        WaitingParts(f, shown.Keys);
        SomeKids(f.kids, p);
        kids := ArrangeList(p, f, above);
        KeysGrew(old(shown), shown, Nodes(f));
        RearrangedBelow(f, f.kids, f.rest, kids);
        TakesInList(f, kids, shown);
      } else {
        kids, rest := ArrangeLone(p, f, above);
      }
    }

    // An entry without a list may take in some of what follows it
    method ArrangeLone(p: Menu, ghost f: Forest, ghost above: Menu?)
      returns (ghost kids: Forest, ghost rest: Forest)
      requires Handed() && f.Cons? && Linked(f, p, above) && Waiting(f, shown.Keys) && p.list == null
      modifies this`order, this`shown, Nodes(f)`next, Nodes(f)`parent, Nodes(f)`list, Nodes(f)`dep
      modifies conditions`visible
      ensures p.parent == above && Segment(kids, p.list, p, null) && Segment(rest, p.next, above, null)
      ensures Rearranged(f, kids, rest)
      ensures order == old(order) + Preorder(kids)
      ensures Handed() && Grew(old(shown), shown, Nodes(f))
      ensures Nodes(kids) + {p} <= shown.Keys && Waiting(rest, shown.Keys)
      ensures TakesIn(f, kids, rest, shown) && KidsFlat(kids)
      decreases |Preorder(f.rest)|, 7
    {
      hide Handed, Grew, Waiting, Preorder, Tops, Adopted, AllTaken;
      PreorderNil();
      kids, rest := Nil, f.rest;
      RearrangedSelf(f);
      WaitingParts(f, shown.Keys);
      GrewSelf(shown, Nodes(f));
      NoKids(f.kids, p);
      if p.sym.HasSym? && p.prompt != null {
        kids, rest := Adopt(p, rest, above);
        RearrangedNext(f, kids, rest);
        GrewMore(old(shown), shown, Nodes(f.rest), Nodes(f));
      }
    }

    // An entry with a list: what is below it is narrowed and finalised
    method ArrangeList(p: Menu, ghost f: Forest, ghost above: Menu?) returns (ghost kids: Forest)
      requires Handed() && f.Cons? && Linked(f, p, above) && Waiting(f, shown.Keys)
      modifies this`order, this`shown, Nodes(f.kids)`next, Nodes(f.kids)`parent, Nodes(f.kids)`list, Nodes(f.kids)`dep
      modifies conditions`visible
      ensures Segment(kids, p.list, p, null) && Distinct(kids) && Nodes(kids) == Nodes(f.kids)
      ensures Preorder(kids) == Preorder(f.kids) && order == old(order) + Preorder(kids)
      ensures Handed() && Grew(old(shown), shown, Nodes(f))
      ensures Nodes(kids) <= shown.Keys && Waiting(f.rest, shown.Keys) && KidsFlat(kids)
      decreases |Preorder(f.kids)|, 4
    {
      hide Handed, Grew, Waiting, Segment, Distinct, Preorder, Tops;
      LinkedKids(f, p, above);
      WaitingParts(f, shown.Keys);
      Narrowing(p, f.kids);
      ghost var mid := shown;
      WaitingNarrowed(f.kids, old(shown), mid);
      kids := FinalizeAll(p, f.kids);
      GrewTrans(old(shown), mid, shown, TopSet(f.kids), Nodes(f.kids), Nodes(f.kids));
      WaitingElsewhere(f.rest, old(shown), shown, Nodes(f.kids));
      GrewMore(old(shown), shown, Nodes(f.kids), Nodes(f));
    }

    // The entries of the list are narrowed, those below them not yet
    method Narrowing(p: Menu, ghost kids: Forest)
      requires Handed() && Linked(kids, p.list, p) && p in shown && Nodes(kids) !! shown.Keys
      modifies this`shown, Nodes(kids)`dep, conditions`visible
      ensures Handed() && Grew(old(shown), shown, TopSet(kids)) && shown.Keys == old(shown).Keys + TopSet(kids)
      ensures TopSet(kids) <= Nodes(kids)
    {
      hide Segment, Distinct, Tops, Propagated, Untouched;
      TopsInside(kids);
      TopsParent(kids, p.list, p, null);
      DeclaredHere(kids);
      PropagateKept(p, kids);
      Note(p, kids);
    }

    // The conditions from now on
    ghost method Note(p: Menu, kids: Forest)
      requires AllHandedDown() && OthersAsDeclared(Nodes(kids)) && Nodes(kids) <= entries && Nodes(kids) !! shown.Keys
      requires p in shown && TopSet(kids) <= Nodes(kids)
      requires forall m | m in Nodes(kids) :: m in home && m.parent == home[m]
      requires forall m | m in TopSet(kids) :: home[m] == p
      requires Handled(Nodes(kids), TopSet(kids), Above(p), deps, visible)
      modifies this`shown
      ensures Handed() && Grew(old(shown), shown, TopSet(kids)) && shown.Keys == old(shown).Keys + TopSet(kids)
    {
      hide TopSet, Propagated, AsDeclared, Handled, Received, OwnProperties, Properties, Menu.Condition;
      ReceivedNow(p, kids);
      shown := shown + map m | m in TopSet(kids) :: m.Condition();
      forall m | m in shown && m != root
        ensures HandedDown(m)
      {
        assert m !in Nodes(kids) ==> old(HandedDown(m));
      }
      forall m | m in entries && m !in shown
        ensures AsDeclared(m)
      {
        assert m !in Nodes(kids) ==> old(AsDeclared(m));
      }
    }

    lemma ReceivedNow(p: Menu, kids: Forest)
      requires p in entries && OwnProperties(entries) && conditions == Properties(entries)
      requires TopSet(kids) <= Nodes(kids) <= entries
      requires forall m | m in Nodes(kids) :: m in home && m.parent == home[m]
      requires forall m | m in TopSet(kids) :: home[m] == p
      requires Handled(Nodes(kids), TopSet(kids), Above(p), deps, visible)
      ensures forall m | m in Nodes(kids) :: if m in TopSet(kids) then Received(m) else AsDeclared(m)
    {
      hide TopSet, Propagated, Untouched;
      forall m | m in Nodes(kids)
        ensures if m in TopSet(kids) then Received(m) else AsDeclared(m)
      {
        assert m in deps;
      }
    }

    lemma DeclaredHere(kids: Forest)
      requires Handed() && Nodes(kids) <= entries && Nodes(kids) !! shown.Keys
      ensures forall m | m in Nodes(kids) :: m in home && m.parent == home[m]
      ensures forall above: Dep :: Handled(Nodes(kids), {}, above, deps, visible)
    {
      hide Untouched, Propagated;
      forall m | m in Nodes(kids)
        ensures m in deps && Untouched(m, deps[m], visible) && m in home && m.parent == home[m]
      {
        assert AsDeclared(m);
      }
    }

    lemma PropertiesApart(kids: Forest)
      requires AllHandedDown() && Nodes(kids) <= entries
      ensures OwnProperties(Nodes(kids)) && Properties(Nodes(kids)) <= conditions
      ensures forall m, q | m in entries && m !in Nodes(kids) && q in m.props :: q !in Properties(Nodes(kids))
      ensures forall m | m in entries && m.prompt != null :: m.prompt in m.props
    {
      hide HandedDown;
    }

    // The loop, and what it leaves alone
    method PropagateKept(p: Menu, ghost kids: Forest)
      requires Handed() && Linked(kids, p.list, p) && p in shown && Nodes(kids) !! shown.Keys
      requires Handled(Nodes(kids), {}, Above(p), deps, visible)
      modifies Nodes(kids)`dep, conditions`visible
      ensures AllHandedDown() && OthersAsDeclared(Nodes(kids))
      ensures Handled(Nodes(kids), TopSet(kids), Above(p), deps, visible)
    {
      hide Segment, Distinct, Tops, Handled, Propagated, Untouched, OwnProperties, Properties;
      PropertiesApart(kids);
      Propagate(p, kids, deps, visible);
      forall m | m in shown && m != root
        ensures HandedDown(m)
      {
        assert old(HandedDown(m));
      }
      forall m | m in entries && m !in Nodes(kids) && m !in shown
        ensures AsDeclared(m)
      {
        assert old(AsDeclared(m));
      }
    }

    // The loop over the list below `p`
    method FinalizeAll(p: Menu, ghost f: Forest) returns (ghost kids: Forest)
      requires Handed() && Linked(f, p.list, p) && p !in Nodes(f) && Waiting(f, shown.Keys)
      modifies this`order, this`shown, Nodes(f)`next, Nodes(f)`parent, Nodes(f)`list, Nodes(f)`dep
      modifies conditions`visible
      ensures Segment(kids, p.list, p, null) && Distinct(kids) && Nodes(kids) == Nodes(f)
      ensures Preorder(kids) == Preorder(f)
      ensures order == old(order) + Preorder(kids)
      ensures Handed() && Grew(old(shown), shown, Nodes(f)) && Nodes(f) <= shown.Keys && KidsFlat(kids)
      decreases |Preorder(f)|, 3
    {
      hide Handed, Waiting, Grew;
      var menu := p.list;
      ghost var todo := f;
      kids := Nil;
      GrewSelf(shown, Nodes(f));
      while menu != null
        invariant Segment(kids, p.list, p, menu) && Segment(todo, menu, p, null)
        invariant Split(kids, todo, f)
        invariant order == old(order) + Preorder(kids)
        invariant Handed() && Waiting(todo, shown.Keys) && Nodes(kids) <= shown.Keys
        invariant Grew(old(shown), shown, Nodes(f))
        decreases |Preorder(todo)|
      {
        ghost var mid := shown;
        ghost var below, after := FinalizeNext(menu, p, p.list, kids, todo, f, old(order));
        GrewTrans(old(shown), mid, shown, Nodes(f), Nodes(f), Nodes(f));
        kids, todo := Snoc(kids, menu, below), after;
        menu := menu.next;
      }
    }

    // Its body
    method FinalizeNext(menu: Menu, p: Menu, ghost first: Menu?, ghost kids: Forest, ghost todo: Forest,
      ghost f: Forest, ghost before: seq<Menu>)
      returns (ghost below: Forest, ghost after: Forest)
      requires Handed() && Waiting(todo, shown.Keys) && Nodes(kids) <= shown.Keys
      requires Segment(kids, first, p, menu) && todo.Cons? && Linked(todo, menu, p)
      requires Split(kids, todo, f)
      requires order == before + Preorder(kids)
      modifies this`order, this`shown, Nodes(todo)`next, Nodes(todo)`parent, Nodes(todo)`list, Nodes(todo)`dep
      modifies conditions`visible
      ensures Segment(Snoc(kids, menu, below), first, p, menu.next) && Segment(after, menu.next, p, null)
      ensures Split(Snoc(kids, menu, below), after, f) && |Preorder(after)| < |Preorder(todo)|
      ensures order == before + Preorder(Snoc(kids, menu, below))
      ensures Handed() && Grew(old(shown), shown, Nodes(f)) && Waiting(after, shown.Keys)
      ensures Nodes(Snoc(kids, menu, below)) <= shown.Keys
      decreases |Preorder(todo)|, 2
    {
      hide Handed, Waiting, TakesIn, Grew, FlatForm, Preorder, Split, Rearranged, Snoc, Distinct, Suffix, Apart;
      assert todo.m == menu;
      SplitFacts(kids, todo, f);
      ghost var taken;
      below, after, taken := Finalize(menu, todo, p);
      SnocSegment(kids, menu, below, first, p, menu.next);
      Advance(kids, todo, f, below, after);
      OrderStep(before, Preorder(kids), menu, Preorder(below));
      GrewMore(old(shown), shown, Nodes(todo), Nodes(f));
      KeysGrew(old(shown), shown, Nodes(f));
    }

    // One turn of the loop over what follows `p`
    method AdoptOne(menu: Menu, p: Menu, ghost f: Forest, ghost above: Menu?)
      returns (ghost below: Forest, ghost after: Forest)
      requires Handed() && f.Cons? && Linked(f, menu, above) && Waiting(f, shown.Keys)
      modifies this`order, this`shown, Nodes(f)`next, Nodes(f)`parent, Nodes(f)`list, Nodes(f)`dep
      modifies conditions`visible
      ensures menu.parent == p && Segment(below, menu.list, menu, null) && Segment(after, menu.next, above, null)
      ensures Rearranged(f, below, after)
      ensures order == old(order) + ([menu] + Preorder(below))
      ensures Handed() && Grew(old(shown), shown, Nodes(f))
      ensures Nodes(below) + {menu} <= shown.Keys && Waiting(after, shown.Keys) && DeepFlat(below)
      decreases |Preorder(f)|, 2
    {
      hide Handed, Waiting, TakesIn, Grew;
      ghost var taken;
      below, after, taken := Finalize(menu, f, above);
      SetParent(menu, p);
    }

    method SetParent(menu: Menu, p: Menu)
      requires Handed() && menu in shown
      modifies menu`parent
      ensures menu.parent == p && Handed()
    {
      hide AllHandedDown, Untouched;
      ShownInside();
      menu.parent := p;
    }

    // The same, for the next entry of what is to come, with the entries taken in so far
    method AdoptNext(menu: Menu, first: Menu?, p: Menu, last: Menu?, ghost above: Menu?,
      ghost kids: Forest, ghost rest: Forest, ghost a: Forest, ghost k: Forest,
      ghost f: Forest, ghost before: seq<Menu>)
      returns (ghost below: Forest, ghost after: Forest)
      requires Handed() && Waiting(rest, shown.Keys) && Nodes(kids) <= shown.Keys
      requires rest.Cons? && Linked(rest, menu, above) && Suffix(rest, f)
      requires Split(kids, rest, f)
      requires AdoptedSoFar(kids, first, p, last, menu, a, k)
      requires order == before + Preorder(kids)
      modifies this`order, this`shown, Nodes(rest)`next, Nodes(rest)`parent, Nodes(rest)`list, Nodes(rest)`dep
      modifies conditions`visible
      ensures AdoptedList(Snoc(kids, menu, below), first, p, menu, menu.next, kids, below)
      ensures Segment(after, menu.next, above, null) && Suffix(after, f)
      ensures Split(Snoc(kids, menu, below), after, f) && |Preorder(after)| < |Preorder(rest)|
      ensures Tops(Snoc(kids, menu, below)) == Tops(kids) + [menu]
      ensures order == before + Preorder(Snoc(kids, menu, below))
      ensures Handed() && Grew(old(shown), shown, Nodes(f)) && Waiting(after, shown.Keys)
      ensures Nodes(Snoc(kids, menu, below)) <= shown.Keys
      decreases |Preorder(rest)|, 3
    {
      hide Handed, Waiting, Grew, Preorder, Tops, Split, Rearranged, Snoc, Distinct, Suffix, Apart, AdoptedList;
      assert rest.m == menu;
      SplitFacts(kids, rest, f);
      below, after := AdoptOne(menu, p, rest, above);
      Advance(kids, rest, f, below, after);
      Extended(kids, first, p, last, menu, a, k, below);
      OrderStep(before, Preorder(kids), menu, Preorder(below));
      SuffixNext(after, rest, f);
      GrewMore(old(shown), shown, Nodes(rest), Nodes(f));
      KeysGrew(old(shown), shown, Nodes(f));
    }

    // The test and, when it succeeds, the turn
    method TryNext(menu: Menu, p: Menu, last: Menu?, sym: Sym, condition: Dep, base: Expr,
      ghost above: Menu?, ghost kids: Forest, ghost rest: Forest, ghost a: Forest, ghost k: Forest,
      ghost f: Forest, ghost before: seq<Menu>)
      returns (adopted: bool, ghost below: Forest, ghost after: Forest)
      requires Handed() && Waiting(rest, shown.Keys) && Nodes(kids) <= shown.Keys && p !in Nodes(f)
      requires base == ComparedAs(condition)
      requires rest.Cons? && Linked(rest, menu, above) && Suffix(rest, f)
      requires Split(kids, rest, f)
      requires AdoptedSoFar(kids, p.next, p, last, menu, a, k)
      requires order == before + Preorder(kids)
      modifies this`order, this`shown, Nodes(rest)`next, Nodes(rest)`parent, Nodes(rest)`list, Nodes(rest)`dep
      modifies conditions`visible
      ensures Handed() && Grew(old(shown), shown, Nodes(f)) && menu in old(shown)
      ensures if adopted then
          && Adopted(old(shown)[menu], condition, sym)
          && AdoptedList(Snoc(kids, menu, below), p.next, p, menu, menu.next, kids, below)
          && Segment(after, menu.next, above, null) && Suffix(after, f)
          && Split(Snoc(kids, menu, below), after, f) && |Preorder(after)| < |Preorder(rest)|
          && Tops(Snoc(kids, menu, below)) == Tops(kids) + [menu]
          && order == before + Preorder(Snoc(kids, menu, below))
          && Waiting(after, shown.Keys) && Nodes(Snoc(kids, menu, below)) <= shown.Keys
        else
          && order == old(order) && shown == old(shown) && !Adopted(shown[menu], condition, sym)
          && AdoptedSoFar(kids, p.next, p, last, menu, a, k) && Segment(rest, menu, above, null)
      decreases |Preorder(rest)|, 4
    {
      hide Handed, Waiting, Grew, Adopted, DupsForm;
      below, after := Nil, Nil;
      WaitingFirst(rest, shown.Keys);
      ShownCondition(menu);
      GrewSelf(shown, Nodes(f));
      adopted := ShouldAdopt(menu.Condition(), condition, base, sym);
      if adopted {
        below, after := AdoptNext(menu, p.next, p, last, above, kids, rest, a, k, f, before);
      }
    }

    // The relinking after the loop
    method Relink(p: Menu, last: Menu?, ghost next: Menu?, ghost kids: Forest, ghost rest: Forest, ghost above: Menu?,
      ghost a: Forest, ghost k: Forest)
      requires AdoptedSoFar(kids, p.next, p, last, next, a, k) && Segment(rest, next, above, null)
      requires p !in Nodes(kids) && p !in Nodes(rest) && Nodes(kids) !! Nodes(rest) && p.list == null
      modifies p`next, p`list, Nodes(kids)`next
      ensures Segment(kids, p.list, p, null) && Segment(rest, p.next, above, null)
    {
      hide Preorder, Tops, Append;
      if last != null {
        p.list := p.next;
        p.next := last.next;
        last.next := null;
        SnocSegment(a, last, k, p.list, p, null);
      }
    }

    // The loop over what follows `p`: the entries taken in, up to `last`, have `p` as their parent
    // now, and the one after them did not pass
    method AdoptLoop(p: Menu, sym: Sym, condition: Dep, base: Expr, ghost f: Forest, ghost above: Menu?)
      returns (last: Menu?, ghost next: Menu?, ghost kids: Forest, ghost rest: Forest, ghost a: Forest, ghost k: Forest)
      requires Handed() && Linked(f, p.next, above) && p !in Nodes(f) && Waiting(f, shown.Keys)
      requires base == ComparedAs(condition)
      modifies this`order, this`shown, Nodes(f)`next, Nodes(f)`parent, Nodes(f)`list, Nodes(f)`dep
      modifies conditions`visible
      ensures AdoptedSoFar(kids, p.next, p, last, next, a, k)
      ensures Segment(rest, next, above, null) && Suffix(rest, f)
      ensures Split(kids, rest, f)
      ensures order == old(order) + Preorder(kids)
      ensures Handed() && Grew(old(shown), shown, Nodes(f))
      ensures Nodes(kids) <= shown.Keys && Waiting(rest, shown.Keys)
      ensures AllTaken(kids, shown, condition, sym) && Stopped(rest, shown, condition, sym)
      decreases |Preorder(f)|, 5
    {
      hide Handed, Waiting, Grew, AllTaken, Adopted, DupsForm;
      last := null;
      var menu := p.next;
      a, k, kids, rest := Nil, Nil, Nil, f;
      GrewSelf(shown, Nodes(f));
      TakenNone(shown, condition, sym);
      while menu != null
        invariant Segment(rest, menu, above, null) && Suffix(rest, f)
        invariant Split(kids, rest, f)
        invariant order == old(order) + Preorder(kids)
        invariant AdoptedSoFar(kids, p.next, p, last, menu, a, k)
        invariant Handed() && Waiting(rest, shown.Keys) && Nodes(kids) <= shown.Keys
        invariant Grew(old(shown), shown, Nodes(f)) && AllTaken(kids, shown, condition, sym)
        decreases |Preorder(rest)|
      {
        ghost var mid := shown;
        var adopted;
        ghost var below, after;
        adopted, below, after :=
          TryNext(menu, p, last, sym, condition, base, above, kids, rest, a, k, f, old(order));
        if !adopted {
          break;
        }
        GrewTrans(old(shown), mid, shown, Nodes(f), Nodes(f), Nodes(f));
        TakenNext(kids, menu, below, mid, shown, Nodes(f), condition, sym);
        a, k, last := kids, below, menu;
        kids, rest := Snoc(kids, menu, below), after;
        menu := menu.next;
      }
      next := menu;
    }

    // The loop and the relinking after it
    method Adopt(p: Menu, ghost f: Forest, ghost above: Menu?)
      returns (ghost kids: Forest, ghost rest: Forest)
      requires Handed() && Linked(f, p.next, above) && p !in Nodes(f) && Waiting(f, shown.Keys)
      requires p in shown && p.list == null && p.sym.HasSym? && p.prompt != null
      modifies this`order, this`shown, p`next, p`list
      modifies Nodes(f)`next, Nodes(f)`parent, Nodes(f)`list, Nodes(f)`dep
      modifies conditions`visible
      ensures Segment(kids, p.list, p, null) && Segment(rest, p.next, above, null)
      ensures Split(kids, rest, f) && Suffix(rest, f)
      ensures order == old(order) + Preorder(kids)
      ensures Handed() && Grew(old(shown), shown, Nodes(f)) && p in shown
      ensures Nodes(kids) <= shown.Keys && Waiting(rest, shown.Keys)
      ensures AllTaken(kids, shown, shown[p], p.sym.sym) && Stopped(rest, shown, shown[p], p.sym.sym)
      decreases |Preorder(f)|, 6
    {
      hide Handed, Waiting, Grew, AllTaken, Stopped, Split, Suffix, AdoptedSoFar, Preorder, Tops, Segment, Distinct,
        DupsForm, Transform, TransCompareDep;
      ShownCondition(p);
      var base := Compared(p.prompt.visible);
      var last;
      ghost var next, a, k;
      last, next, kids, rest, a, k := AdoptLoop(p, p.sym.sym, p.prompt.visible, base, f, above);
      KeysGrew(old(shown), shown, Nodes(f));
      SplitFacts(kids, rest, f);
      Relink(p, last, next, kids, rest, above, a, k);
    }
  }

  lemma NilEnds(f: Forest, first: Menu?)
    requires f == Nil && Segment(f, first, null, null)
    ensures first == null
  {
  }

  lemma WholeTree(root: Menu, f: Forest)
    requires Segment(f, root.list, root, null) && Distinct(f) && root !in Nodes(f)
    requires root.parent == null && root.next == null
    ensures Segment(Node(root, f, Nil), root, null, null) && Distinct(Node(root, f, Nil))
    ensures Nodes(Node(root, f, Nil)) == {root} + Nodes(f) && Waiting(Node(root, f, Nil), {root})
  {
  }

  lemma WholeDone(root: Menu, f: Forest, kids: Forest, rest: Forest)
    requires Rearranged(Node(root, f, Nil), kids, rest) && root !in Nodes(f)
    ensures rest == Nil && Preorder(kids) == Preorder(f) && Nodes(kids) == Nodes(f)
  {
    assert Preorder(kids) + [] == Preorder(kids) && Preorder(f) + [] == Preorder(f);
  }

  // `menu_finalize` from the root: afterwards every entry has been narrowed, exactly once, by what
  // the entry above its declaration demands in the end
  method FinalizeTree(root: Menu, ghost f: Forest) returns (fin: Finalizer, ghost kids: Forest)
    requires Segment(f, root.list, root, null) && Distinct(f) && root !in Nodes(f)
    requires root.parent == null && root.next == null && OwnProperties({root} + Nodes(f))
    modifies ({root} + Nodes(f))`next, ({root} + Nodes(f))`parent, ({root} + Nodes(f))`list, ({root} + Nodes(f))`dep
    modifies Properties({root} + Nodes(f))`visible
    ensures fresh(fin) && fin.entries == {root} + Nodes(f)
    ensures fin.home == old(map m | m in {root} + Nodes(f) :: m.parent)
    ensures fin.deps == old(map m | m in {root} + Nodes(f) :: m.dep)
    ensures fin.visible == old(map q | q in Properties({root} + Nodes(f)) :: q.visible)
    ensures forall m | m in Nodes(f) :: fin.Received(m)
    ensures root.Condition() == old(root.Condition())
    ensures root.parent == null && root.next == null && Segment(kids, root.list, root, null) && DeepFlat(kids)
    ensures Preorder(kids) == Preorder(f) && fin.order == [root] + Preorder(f)
  {
    hide Segment, Distinct, Finalizer.Handed, Waiting, Rearranged, Preorder, TakesIn, FlatForm, DeepFlat, Grew,
      Finalizer.Received;
    WholeTree(root, f);
    fin := new Finalizer(root, f);
    fin.ShownCondition(root);
    ghost var before := fin.shown;
    ghost var rest, taken;
    kids, rest, taken := fin.Finalize(root, Node(root, f, Nil), null);
    WholeDone(root, f, kids, rest);
    KeysGrew(before, fin.shown, {root} + Nodes(f));
    fin.ShownCondition(root);
    fin.AllReceived(Nodes(f));
    NilEnds(rest, root.next);
  }

  lemma GrewSelf(a: map<Menu, Dep>, s: set<Menu>)
    ensures Grew(a, a, s)
  {
  }

  lemma GrewMore(a: map<Menu, Dep>, b: map<Menu, Dep>, s: set<Menu>, t: set<Menu>)
    requires Grew(a, b, s) && s <= t
    ensures Grew(a, b, t)
  {
  }

  lemma KeysGrew(a: map<Menu, Dep>, b: map<Menu, Dep>, s: set<Menu>)
    requires Grew(a, b, s)
    ensures a.Keys <= b.Keys && forall m | m in a :: b[m] == a[m]
  {
  }

  lemma {:induction false} TopsInside(f: Forest)
    requires Distinct(f)
    ensures TopSet(f) <= Nodes(f)
  {
    TopsAreNodes(f);
  }

  lemma {:induction false} TopsParent(f: Forest, first: Menu?, parent: Menu?, end: Menu?)
    requires Segment(f, first, parent, end) && Distinct(f)
    ensures forall m | m in TopSet(f) :: m.parent == parent
  {
    if f.Cons? {
      TopsParent(f.rest, f.m.next, parent, end);
    }
  }

  lemma WaitingFirst(f: Forest, done: set<Menu>)
    requires f.Cons? && Distinct(f) && Waiting(f, done)
    ensures f.m in done
  {
  }

  lemma WaitingParts(f: Forest, done: set<Menu>)
    requires f.Cons? && Distinct(f) && Waiting(f, done)
    ensures f.m in done && Nodes(f.kids) !! done && Waiting(f.rest, done)
  {
    TopsInside(f.rest);
  }

  // After the entries of the list, what is below them waits
  lemma WaitingNarrowed(f: Forest, before: map<Menu, Dep>, after: map<Menu, Dep>)
    requires Nodes(f) !! before.Keys && after.Keys == before.Keys + TopSet(f)
    ensures Waiting(f, after.Keys)
  {
  }

  lemma WaitingElsewhere(f: Forest, before: map<Menu, Dep>, after: map<Menu, Dep>, s: set<Menu>)
    requires Waiting(f, before.Keys) && Nodes(f) !! s && Grew(before, after, s)
    ensures Waiting(f, after.Keys)
  {
  }

  lemma TakenNone(shown: map<Menu, Dep>, above: Dep, sym: Sym)
    ensures AllTaken(Nil, shown, above, sym)
  {
  }

  lemma TakenNext(kids: Forest, menu: Menu, below: Forest, before: map<Menu, Dep>, after: map<Menu, Dep>, s: set<Menu>,
    above: Dep, sym: Sym)
    requires AllTaken(kids, before, above, sym) && Grew(before, after, s)
    requires menu in before && Adopted(before[menu], above, sym)
    requires Tops(Snoc(kids, menu, below)) == Tops(kids) + [menu]
    ensures AllTaken(Snoc(kids, menu, below), after, above, sym)
  {
    hide Adopted;
  }

  lemma Extended(kids: Forest, first: Menu?, p: Menu, last: Menu?, menu: Menu, a: Forest, k: Forest, below: Forest)
    requires AdoptedSoFar(kids, first, p, last, menu, a, k)
    requires Apart(kids, menu, below)
    requires menu.parent == p && Segment(below, menu.list, menu, null)
    ensures AdoptedList(Snoc(kids, menu, below), first, p, menu, menu.next, kids, below)
  {
    SnocFacts(kids, menu, below);
    if last != null {
      SnocSegment(a, last, k, first, p, menu);
    }
  }

  ghost predicate AdoptedSoFar(kids: Forest, first: Menu?, p: Menu, last: Menu?, menu: Menu?, a: Forest, k: Forest)
    reads Nodes(kids)`next, Nodes(kids)`parent, Nodes(kids)`list
  {
    if last == null then kids == Nil && menu == first else AdoptedList(kids, first, p, last, menu, a, k)
  }

  // The entries taken in so far: `a` and then `last` with `k` below it, before `menu`
  ghost predicate AdoptedList(kids: Forest, first: Menu?, p: Menu, last: Menu, menu: Menu?, a: Forest, k: Forest)
    reads Nodes(kids)`next, Nodes(kids)`parent, Nodes(kids)`list
  {
    && kids == Snoc(a, last, k) && Nodes(kids) == Nodes(a) + {last} + Nodes(k)
    && Apart(a, last, k)
    && Segment(a, first, p, last) && Segment(k, last.list, last, null)
    && last.parent == p && last.next == menu
  }
}
