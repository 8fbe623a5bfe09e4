/** The last loop of `menu_finalize` (`config/menu.c`): the entries below an entry without a
    prompt text are moved up to follow it.
 */
module KFlatten {
  import opened KExpr
  import opened KForest

  // A list and one more entry at its end
  ghost function Snoc(a: Forest, m: Menu, k: Forest): Forest {
    Append(a, Node(m, k, Nil))
  }

  lemma SnocSegment(a: Forest, m: Menu, k: Forest, first: Menu?, parent: Menu?, end: Menu?)
    requires Segment(a, first, parent, m) && m.parent == parent && Segment(k, m.list, m, null)
    requires m.next == end
    ensures Segment(Snoc(a, m, k), first, parent, end)
  {
    assert Segment(Node(m, k, Nil), m, parent, end);
    AppendSegment(a, Node(m, k, Nil), first, parent, m, end);
  }

  lemma SnocFacts(a: Forest, m: Menu, k: Forest)
    requires Distinct(a) && Distinct(k) && m !in Nodes(a) && m !in Nodes(k) && Nodes(a) !! Nodes(k)
    ensures Nodes(Snoc(a, m, k)) == Nodes(a) + {m} + Nodes(k)
    ensures Preorder(Snoc(a, m, k)) == Preorder(a) + [m] + Preorder(k)
    ensures Tops(Snoc(a, m, k)) == Tops(a) + [m]
    ensures Distinct(Snoc(a, m, k))
  {
    hide Segment;
    LoneFacts(m, k);
    AppendFacts(a, Node(m, k, Nil));
    AppendDistinct(a, Node(m, k, Nil));
    Regroup(Preorder(a), m, Preorder(k), [], Preorder(k), []);
  }

  // Taking one entry off what is to come and putting it behind what is done
  lemma Regroup<T>(a: seq<T>, m: T, k: seq<T>, r: seq<T>, k': seq<T>, r': seq<T>)
    requires k' + r' == k + r
    ensures (a + [m] + k') + r' == a + ([m] + k + r)
  {
    assert (a + [m] + k') + r' == a + ([m] + (k' + r'));
    assert [m] + (k + r) == [m] + k + r;
  }

  // A list is parted into what is done and what is to come
  ghost predicate Parted(done: Forest, todo: Forest, nodes: set<Menu>) {
    && Distinct(done) && Distinct(todo)
    && Nodes(done) !! Nodes(todo) && Nodes(done) + Nodes(todo) == nodes
  }

  // The next entry becomes the last of what is done, with some of what was below or after it now
  // below and the rest after it
  lemma TakeOne(done: Forest, todo: Forest, nodes: set<Menu>, below: Forest, after: Forest)
    requires Parted(done, todo, nodes) && todo.Cons?
    requires Distinct(Node(todo.m, below, after)) && Nodes(Node(todo.m, below, after)) == Nodes(todo)
    ensures Parted(Snoc(done, todo.m, below), after, nodes)
    ensures Tops(Snoc(done, todo.m, below)) == Tops(done) + [todo.m]
    ensures Nodes(done) + {todo.m} + Nodes(below) == Nodes(Snoc(done, todo.m, below))
  {
    SnocFacts(done, todo.m, below);
  }

  lemma TakeOneOrder(done: Forest, todo: Forest, order: seq<Menu>, below: Forest, after: Forest)
    requires Distinct(done) && todo.Cons? && Preorder(done) + Preorder(todo) == order
    requires Distinct(Node(todo.m, below, after))
    requires Nodes(done) !! Nodes(Node(todo.m, below, after))
    requires Preorder(below) + Preorder(after) == Preorder(todo.kids) + Preorder(todo.rest)
    ensures Preorder(Snoc(done, todo.m, below)) == Preorder(done) + [todo.m] + Preorder(below)
    ensures Preorder(Snoc(done, todo.m, below)) + Preorder(after) == order
    ensures |Preorder(after)| < |Preorder(todo)|
  {
    SnocFacts(done, todo.m, below);
    Regroup(Preorder(done), todo.m, Preorder(todo.kids), Preorder(todo.rest), Preorder(below), Preorder(after));
    FewerLeft(todo, below, after);
  }

  lemma FewerLeft(todo: Forest, below: Forest, after: Forest)
    requires todo.Cons?
    requires Preorder(below) + Preorder(after) == Preorder(todo.kids) + Preorder(todo.rest)
    ensures |Preorder(after)| < |Preorder(todo)|
  {
    assert |Preorder(below) + Preorder(after)| == |Preorder(todo.kids) + Preorder(todo.rest)|;
  }

  lemma LoneFacts(m: Menu, k: Forest)
    ensures var f := Node(m, k, Nil);
      Nodes(f) == {m} + Nodes(k) && Tops(f) == [m] && Preorder(f) == [m] + Preorder(k)
  {
    assert Tops(Node(m, k, Nil)) == [m] + Tops(Nil);
  }

  // The inner loop: every entry of the list below `m` gets the parent `p`
  method Reparent(m: Menu, p: Menu, ghost kids: Forest) returns (last: Menu, ghost a: Forest, ghost k: Forest)
    requires Segment(kids, m.list, m, null) && Distinct(kids) && m.list != null
    modifies Nodes(kids)`parent
    ensures kids == Snoc(a, last, k) && last.next == null && last.parent == p
    ensures Segment(a, m.list, p, last) && Segment(k, last.list, last, null)
    ensures Distinct(a) && Distinct(k) && last !in Nodes(a) && last !in Nodes(k) && Nodes(a) !! Nodes(k)
  {
    hide Preorder, Tops, Append, Snoc, Distinct;
    SomeKids(kids, m);
    NoneYet(kids);
    last := m.list;
    ghost var b := kids;
    a := Nil;
    while true
      invariant b.Cons? && b.m == last && Append(a, b) == kids
      invariant Distinct(a) && Distinct(b) && Nodes(a) !! Nodes(b) && Nodes(a) + Nodes(b) == Nodes(kids)
      invariant Segment(a, m.list, p, last) && Segment(b, last, m, null)
      decreases b
    {
      OneMore(a, b);
      last.parent := p;
      if last.next == null {
        k := b.kids;
        return;
      }
      SnocSegment(a, last, b.kids, m.list, p, last.next);
      a, b := Snoc(a, last, b.kids), b.rest;
      last := last.next;
    }
  }

  lemma NoneYet(f: Forest)
    ensures Append(Nil, f) == f && Distinct(Nil)
  {
  }

  // The first entry of `b` goes to the end of `a`
  lemma OneMore(a: Forest, b: Forest)
    requires b.Cons? && Distinct(a) && Distinct(b) && Nodes(a) !! Nodes(b)
    ensures b.m !in Nodes(a) && b.m !in Nodes(b.kids) && b.m !in Nodes(b.rest) && Nodes(b.kids) !! Nodes(b.rest)
    ensures Nodes(b) == {b.m} + Nodes(b.kids) + Nodes(b.rest) && Distinct(b.kids) && Distinct(b.rest)
    ensures Append(Snoc(a, b.m, b.kids), b.rest) == Append(a, b) && Distinct(Snoc(a, b.m, b.kids))
    ensures Nodes(Snoc(a, b.m, b.kids)) == Nodes(a) + {b.m} + Nodes(b.kids)
    ensures b.rest == Nil ==> Append(a, b) == Snoc(a, b.m, b.kids)
  {
    SnocFacts(a, b.m, b.kids);
    AppendAssoc(a, Node(b.m, b.kids, Nil), b.rest);
    assert b == Append(Node(b.m, b.kids, Nil), b.rest);
  }

  // The relinking after it: the list goes between `m` and what follows
  method Hoist(m: Menu, p: Menu, ghost kids: Forest, ghost rest: Forest)
    requires Segment(kids, m.list, m, null) && Segment(rest, m.next, p, null)
    requires Distinct(Node(m, kids, rest))
    requires m.list != null
    modifies {m}`next, {m}`list, Nodes(kids)`parent, Nodes(kids)`next
    ensures m.list == null && Segment(Append(kids, rest), m.next, p, null)
  {
    hide Preorder, Tops, Append, Snoc, Segment, Distinct;
    NodeApart(m, kids, rest);
    var last, a, k := Reparent(m, p, kids);
    SnocFacts(a, last, k);
    last.next := m.next;
    HoistSegment(a, last, k, m.list, p, rest);
    m.next := m.list;
    m.list := null;
  }

  lemma NodeApart(m: Menu, kids: Forest, rest: Forest)
    requires Distinct(Node(m, kids, rest))
    ensures m !in Nodes(kids) && m !in Nodes(rest) && Nodes(kids) !! Nodes(rest) && Distinct(kids) && Distinct(rest)
  {
  }

  lemma HoistSegment(a: Forest, last: Menu, k: Forest, first: Menu?, p: Menu, rest: Forest)
    requires Segment(a, first, p, last) && last.parent == p && Segment(k, last.list, last, null)
    requires Segment(rest, last.next, p, null)
    requires Distinct(a) && Distinct(k) && last !in Nodes(a) && last !in Nodes(k) && Nodes(a) !! Nodes(k)
    ensures Segment(Append(Snoc(a, last, k), rest), first, p, null)
    ensures Nodes(Append(Snoc(a, last, k), rest)) == Nodes(Snoc(a, last, k)) + Nodes(rest)
  {
    SnocFacts(a, last, k);
    SnocSegment(a, last, k, first, p, last.next);
    AppendSegment(Snoc(a, last, k), rest, first, p, last.next, null);
    AppendFacts(Snoc(a, last, k), rest);
  }

  method FlattenOne(m: Menu, p: Menu, ghost todo: Forest)
    returns (ghost below: Forest, ghost after: Forest)
    requires Segment(todo, m, p, null) && Distinct(todo) && todo.Cons?
    modifies Nodes(todo)`next, Nodes(todo)`parent, Nodes(todo)`list
    ensures m.parent == p && Segment(below, m.list, m, null) && Segment(after, m.next, p, null)
    ensures Distinct(Node(m, below, after)) && Nodes(Node(m, below, after)) == Nodes(todo)
    ensures Preorder(below) + Preorder(after) == Preorder(todo.kids) + Preorder(todo.rest)
    ensures if Lifted(todo) then below == Nil && after == Append(todo.kids, todo.rest)
      else below == todo.kids && after == todo.rest
  {
    below, after := todo.kids, todo.rest;
    if m.list == null {
      NoKids(todo.kids, m);
    } else if !m.HasText() {
      SomeKids(todo.kids, m);
      Hoist(m, p, below, after);
      AppendFacts(below, after);
      AppendDistinct(below, after);
      below, after := Nil, Append(below, after);
    }
  }

  lemma NoKids(kids: Forest, m: Menu)
    requires Segment(kids, null, m, null)
    ensures kids == Nil
  {
  }

  lemma SomeKids(kids: Forest, m: Menu)
    requires Segment(kids, m.list, m, null) && m.list != null
    ensures kids.Cons?
  {
  }

  // The first entry has entries below it but no prompt text
  ghost predicate Lifted(f: Forest) {
    f.Cons? && f.kids.Cons? && !f.m.HasText()
  }

  // The list that is meant: what is below an entry without a text follows it
  ghost function FlatForm(f: Forest): Forest
    decreases Count(f)
  {
    if f.Nil? then Nil
    else if Lifted(f) then
      CountAppend(f.kids, f.rest);
      Node(f.m, Nil, FlatForm(Append(f.kids, f.rest)))
    else Node(f.m, f.kids, FlatForm(f.rest))
  }

  ghost function Count(f: Forest): nat {
    if f.Nil? then 0 else 1 + Count(f.kids) + Count(f.rest)
  }

  lemma {:induction false} CountAppend(f: Forest, g: Forest)
    ensures Count(Append(f, g)) == Count(f) + Count(g)
  {
    if f.Cons? {
      CountAppend(f.rest, g);
    }
  }

  // In the flat list, exactly the entries with a prompt text have entries below them
  ghost predicate Flat(f: Forest) {
    f.Nil? || (!Lifted(f) && Flat(f.rest))
  }

  lemma {:induction false} FlatFormFlat(f: Forest)
    ensures Flat(FlatForm(f))
    decreases Count(f)
  {
    if Lifted(f) {
      CountAppend(f.kids, f.rest);
      FlatFormFlat(Append(f.kids, f.rest));
    } else if f.Cons? {
      FlatFormFlat(f.rest);
    }
  }

  // A list that is flat already is left alone
  lemma {:induction false} FlatFormFixed(f: Forest)
    requires Distinct(f)
    ensures Flat(f) <==> FlatForm(f) == f
  {
    if f.Cons? {
      FlatFormFixed(f.rest);
      FlatFormFlat(f);
    }
  }

  // An entry of the list with `k` below it, resp. of the list or of what is below
  ghost predicate TopWith(f: Forest, m: Menu, k: Forest) {
    f.Cons? && ((f.m == m && f.kids == k) || TopWith(f.rest, m, k))
  }

  ghost predicate With(f: Forest, m: Menu, k: Forest) {
    f.Cons? && ((f.m == m && f.kids == k) || With(f.kids, m, k) || With(f.rest, m, k))
  }

  lemma {:induction false} WithAppend(f: Forest, g: Forest, m: Menu, k: Forest)
    ensures TopWith(Append(f, g), m, k) <==> TopWith(f, m, k) || TopWith(g, m, k)
    ensures With(Append(f, g), m, k) <==> With(f, m, k) || With(g, m, k)
  {
    if f.Cons? {
      WithAppend(f.rest, g, m, k);
    }
  }

  // No more is lifted than that: what is still below an entry has been there, and an entry of the list
  // with a prompt text keeps what is below it
  lemma {:induction false} FlatFormKeeps(f: Forest, m: Menu, k: Forest)
    ensures k.Cons? && TopWith(FlatForm(f), m, k) ==> With(f, m, k)
    ensures m.HasText() && TopWith(f, m, k) ==> TopWith(FlatForm(f), m, k)
    decreases Count(f)
  {
    if Lifted(f) {
      CountAppend(f.kids, f.rest);
      FlatFormKeeps(Append(f.kids, f.rest), m, k);
      WithAppend(f.kids, f.rest, m, k);
    } else if f.Cons? {
      FlatFormKeeps(f.rest, m, k);
    }
  }

  // Only entries with a prompt text have entries below them, at every level
  ghost predicate DeepFlat(f: Forest) {
    f.Cons? ==> (f.kids.Cons? ==> f.m.HasText()) && DeepFlat(f.kids) && DeepFlat(f.rest)
  }

  // The same below the entries of a list
  ghost predicate KidsFlat(f: Forest) {
    f.Cons? ==> DeepFlat(f.kids) && KidsFlat(f.rest)
  }

  lemma {:induction false} KidsFlatAppend(f: Forest, g: Forest)
    requires (KidsFlat(f) || DeepFlat(f)) && KidsFlat(g)
    ensures KidsFlat(Append(f, g))
  {
    if f.Cons? {
      KidsFlatAppend(f.rest, g);
    }
  }

  // Once the lists below its entries are flat at every level, flattening a list makes it so
  lemma {:induction false} FlatFormDeep(f: Forest)
    requires KidsFlat(f)
    ensures DeepFlat(FlatForm(f))
    decreases Count(f)
  {
    if Lifted(f) {
      CountAppend(f.kids, f.rest);
      KidsFlatAppend(f.kids, f.rest);
      FlatFormDeep(Append(f.kids, f.rest));
    } else if f.Cons? {
      FlatFormDeep(f.rest);
    }
  }

  lemma FlatNext(done: Forest, todo: Forest, below: Forest, after: Forest)
    requires todo.Cons?
    requires if Lifted(todo) then below == Nil && after == Append(todo.kids, todo.rest)
      else below == todo.kids && after == todo.rest
    ensures Append(Snoc(done, todo.m, below), FlatForm(after)) == Append(done, FlatForm(todo))
  {
    AppendAssoc(done, Node(todo.m, below, Nil), FlatForm(after));
    assert Append(Node(todo.m, below, Nil), FlatForm(after)) == Node(todo.m, below, FlatForm(after));
  }

  lemma {:induction false} AppendNil(f: Forest)
    requires Distinct(f)
    ensures Append(f, Nil) == f
  {
    if f.Cons? {
      AppendNil(f.rest);
    }
  }

  // The outer loop: the entries keep their order, and the list becomes flat
  method Flatten(p: Menu, ghost kids: Forest) returns (ghost kids': Forest)
    requires Segment(kids, p.list, p, null) && Distinct(kids) && p !in Nodes(kids)
    modifies Nodes(kids)`next, Nodes(kids)`parent, Nodes(kids)`list
    ensures Segment(kids', p.list, p, null) && Distinct(kids')
    ensures Preorder(kids') == Preorder(kids) && Nodes(kids') == Nodes(kids)
    ensures kids' == FlatForm(kids)
  {
    hide FlatForm;
    var menu := p.list;
    ghost var todo := kids;
    kids' := Nil;
    while menu != null
      invariant Segment(kids', p.list, p, menu) && Segment(todo, menu, p, null)
      invariant Parted(kids', todo, Nodes(kids))
      invariant Preorder(kids') + Preorder(todo) == Preorder(kids)
      invariant Append(kids', FlatForm(todo)) == FlatForm(kids)
      decreases |Preorder(todo)|
    {
      ghost var below, after := FlattenOne(menu, p, todo);
      SnocSegment(kids', menu, below, p.list, p, menu.next);
      TakeOne(kids', todo, Nodes(kids), below, after);
      TakeOneOrder(kids', todo, Preorder(kids), below, after);
      FlatNext(kids', todo, below, after);
      kids', todo := Snoc(kids', menu, below), after;
      menu := menu.next;
    }
    assert todo == Nil;
    FlatFormNil();
    AppendNil(kids');
  }

  lemma FlatFormNil()
    ensures FlatForm(Nil) == Nil
  {
  }
}
