/** The menu entries of `config/expr.h` as linked objects, and the tree their pointers describe. */
module KForest {
  import opened KExpr

  datatype MaybeSym = NoSym | HasSym(sym: Sym)

  // `struct property`, with or without a text
  class Property {
    const text: bool
    var visible: Dep

    constructor (text: bool, visible: Dep)
      ensures this.text == text && this.visible == visible
    {
      this.text, this.visible := text, visible;
    }
  }

  // `struct menu`; `props` are the properties with `prop->menu == menu`
  class Menu {
    var next: Menu?
    var parent: Menu?
    var list: Menu?
    var dep: Dep
    const prompt: Property?
    const props: seq<Property>
    const sym: MaybeSym
    const choice: bool  // `sym_is_choice(sym)`

    constructor (sym: MaybeSym, choice: bool, dep: Dep, prompt: Property?, props: seq<Property>)
      ensures next == null && parent == null && list == null
      ensures this.sym == sym && this.choice == choice && this.dep == dep
      ensures this.prompt == prompt && this.props == props
    {
      this.sym, this.choice, this.dep, this.prompt, this.props := sym, choice, dep, prompt, props;
      next, parent, list := null, null, null;
    }

    ghost predicate Valid() {
      && (prompt != null ==> prompt in props)
      && (forall i, j | 0 <= i < j < |props| :: props[i] != props[j])
    }

    // `menu->prompt ? E_EXPR(menu->prompt->visible) : menu->dep`
    function Condition(): Dep
      reads this`dep, (if prompt == null then {} else {prompt})`visible
    {
      if prompt != null then prompt.visible else dep
    }

    predicate HasText() {
      prompt != null && prompt.text
    }
  }

  // No property belongs to two of the entries
  ghost predicate OwnProperties(s: set<Menu>) {
    && (forall m | m in s :: m.Valid())
    && (forall m, n, q | m in s && n in s && q in m.props && q in n.props :: m == n)
  }

  ghost function Properties(s: set<Menu>): set<Property> {
    set m, q | m in s && q in m.props :: q
  }

  // An entry, what is below it, and what follows it; `nodes` are all of these entries
  datatype Forest = Nil | Cons(m: Menu, kids: Forest, rest: Forest, nodes: set<Menu>)

  ghost function Nodes(f: Forest): set<Menu> {
    if f.Nil? then {} else f.nodes
  }

  ghost function Node(m: Menu, kids: Forest, rest: Forest): Forest {
    Cons(m, kids, rest, {m} + Nodes(kids) + Nodes(rest))
  }

  ghost function Preorder(f: Forest): seq<Menu> {
    match f
    case Nil => []
    case Cons(m, kids, rest, _) => [m] + Preorder(kids) + Preorder(rest)
  }

  // The entries of the outermost list
  ghost function Tops(f: Forest): seq<Menu> {
    if f.Nil? then [] else [f.m] + Tops(f.rest)
  }

  ghost function TopSet(f: Forest): (s: set<Menu>)
    ensures s == if f.Cons? then {f.m} + TopSet(f.rest) else {}
  {
    set m | m in Tops(f)
  }

  ghost function Append(f: Forest, g: Forest): Forest {
    match f
    case Nil => g
    case Cons(m, kids, rest, _) => Node(m, kids, Append(rest, g))
  }

  // No entry occurs twice
  ghost predicate Distinct(f: Forest) {
    match f
    case Nil => true
    case Cons(m, kids, rest, _) =>
      && f == Node(m, kids, rest)
      && m !in Nodes(kids) && m !in Nodes(rest) && Nodes(kids) !! Nodes(rest)
      && Distinct(kids) && Distinct(rest)
  }

  // A list of entries from `first` up to `end`, all below `parent`, with everything below them
  ghost predicate Segment(f: Forest, first: Menu?, parent: Menu?, end: Menu?)
    reads Nodes(f)`next, Nodes(f)`parent, Nodes(f)`list
    decreases f
  {
    match f
    case Nil => first == end
    case Cons(m, kids, rest, _) =>
      && f == Node(m, kids, rest)
      && first == m && m.parent == parent
      && Segment(kids, m.list, m, null)
      && Segment(rest, m.next, parent, end)
  }

  lemma {:induction false} AppendFacts(f: Forest, g: Forest)
    requires Distinct(f)
    ensures Preorder(Append(f, g)) == Preorder(f) + Preorder(g)
    ensures Nodes(Append(f, g)) == Nodes(f) + Nodes(g)
    ensures Tops(Append(f, g)) == Tops(f) + Tops(g)
  {
    if f.Cons? {
      AppendFacts(f.rest, g);
      AppendOne(f, g);
      Regroup([f.m], Preorder(f.kids), Preorder(f.rest), Preorder(g));
      Regroup([], [f.m], Tops(f.rest), Tops(g));
      hide Append, Distinct;
    }
  }

  lemma AppendOne(f: Forest, g: Forest)
    requires f.Cons? && Distinct(f)
    ensures Append(f, g) == Node(f.m, f.kids, Append(f.rest, g))
    ensures Distinct(f.rest) && Nodes(f) == {f.m} + Nodes(f.kids) + Nodes(f.rest)
  {
  }

  lemma Regroup<T>(a: seq<T>, b: seq<T>, c: seq<T>, d: seq<T>)
    ensures a + b + (c + d) == a + b + c + d && (a == [] ==> b + (c + d) == b + c + d)
  {
  }

  lemma {:induction false} AppendAssoc(f: Forest, g: Forest, h: Forest)
    ensures Append(Append(f, g), h) == Append(f, Append(g, h))
  {
    if f.Cons? {
      AppendAssoc(f.rest, g, h);
    }
  }

  lemma {:induction false} AppendDistinct(f: Forest, g: Forest)
    requires Distinct(f) && Distinct(g) && Nodes(f) !! Nodes(g)
    ensures Distinct(Append(f, g))
  {
    if f.Cons? {
      AppendFacts(f.rest, g);
      AppendDistinct(f.rest, g);
    }
  }

  lemma {:induction false} AppendSegment(f: Forest, g: Forest, first: Menu?, parent: Menu?, mid: Menu?, end: Menu?)
    requires Segment(f, first, parent, mid) && Segment(g, mid, parent, end)
    ensures Segment(Append(f, g), first, parent, end)
  {
    if f.Cons? {
      AppendSegment(f.rest, g, f.m.next, parent, mid, end);
    }
  }

  lemma {:induction false} TopsAreNodes(f: Forest)
    requires Distinct(f)
    ensures forall m :: m in Tops(f) ==> m in Nodes(f)
  {
    if f.Cons? {
      TopsAreNodes(f.rest);
    }
  }
}
