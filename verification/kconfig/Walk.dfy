/** The walk of `conf_write` (`config/confdata.c`) over the menu tree: down, on, or up until there
    is something to go on to, with nothing but the pointers of the entries.
 */
module KWalk {
  import opened KExpr
  import opened KForest
  import opened KFlatten
  import opened KPropagate
  import opened KFinalize

  // Where the walk is: below `m`, with `rest` still to come after it, and so on upwards
  datatype Upward = Top | Up(m: Menu, rest: Forest, above: Upward)

  ghost function ToCome(c: Upward): seq<Menu> {
    if c.Top? then [] else Preorder(c.rest) + ToCome(c.above)
  }

  ghost predicate Chain(c: Upward, root: Menu, p: Menu)
    reads *
    decreases c
  {
    match c
    case Top => p == root
    case Up(m, rest, above) =>
      p == m && m.parent != null && Segment(rest, m.next, m.parent, null) && Chain(above, root, m.parent)
  }

  // `while ((menu = menu->parent)) if (menu->next) { menu = menu->next; break; }`
  method Climb(from: Menu, ghost c: Upward, ghost root: Menu)
    returns (menu: Menu?, ghost cur: Forest, ghost above: Upward, ghost p: Menu)
    requires from.parent != null && Chain(c, root, from.parent) && root.parent == null && root.next == null
    ensures menu == null ==> ToCome(c) == []
    ensures menu != null ==>
      && Segment(cur, menu, p, null) && Chain(above, root, p)
      && ToCome(c) == Preorder(cur) + ToCome(above)
  {
    menu, above, cur, p := from.parent, c, Nil, root;
    while menu != null
      invariant menu != null ==> Chain(above, root, menu)
      invariant menu == null ==> above == Top
      invariant ToCome(above) == ToCome(c)
      decreases above, menu
    {
      if menu.next != null {
        cur, p, above, menu := above.rest, menu.parent, above.above, menu.next;
        return;
      }
      if above.Up? {
        EmptyList(above.rest, menu.parent);
        above := above.above;
      }
      menu := menu.parent;
    }
  }

  // Every entry below `root` is visited exactly once, in the order of the tree
  method Walk(root: Menu, ghost f: Forest) returns (visited: seq<Menu>)
    requires Segment(f, root.list, root, null)
    requires root.parent == null && root.next == null
    ensures visited == Preorder(f)
  {
    visited := [];
    var menu := root.list;
    ghost var cur, c := f, Top;
    ghost var p: Menu := root;
    while menu != null
      invariant menu != null ==> Segment(cur, menu, p, null) && Chain(c, root, p)
      invariant menu == null ==> visited == Preorder(f)
      invariant menu != null ==> visited + Preorder(cur) + ToCome(c) == Preorder(f)
      decreases if menu == null then 0 else 1 + |Preorder(cur)| + |ToCome(c)|
    {
      Onward(visited, cur, ToCome(c));
      visited := visited + [menu];
      if menu.list != null {
        c, cur, p, menu := Up(menu, cur.rest, c), cur.kids, menu, menu.list;
      } else if menu.next != null {
        EmptyList(cur.kids, menu);
        cur, menu := cur.rest, menu.next;
      } else {
        EmptyList(cur.kids, menu);
        EmptyList(cur.rest, p);
        menu, cur, c, p := Climb(menu, c, root);
      }
    }
  }

  lemma Onward(v: seq<Menu>, cur: Forest, t: seq<Menu>)
    requires cur.Cons?
    ensures v + Preorder(cur) + t == (v + [cur.m]) + Preorder(cur.kids) + (Preorder(cur.rest) + t)
    ensures cur.kids == Nil ==> v + Preorder(cur) + t == (v + [cur.m]) + Preorder(cur.rest) + t
    ensures cur.kids == Nil && cur.rest == Nil ==> v + Preorder(cur) + t == (v + [cur.m]) + t
  {
    var k, r := Preorder(cur.kids), Preorder(cur.rest);
    assert Preorder(cur) == [cur.m] + k + r;
    Pieces(v, cur.m, k, r, t);
  }

  lemma Pieces<T>(v: seq<T>, m: T, k: seq<T>, r: seq<T>, t: seq<T>)
    ensures v + ([m] + k + r) + t == (v + [m]) + k + (r + t)
    ensures k == [] ==> v + ([m] + k + r) + t == (v + [m]) + r + t
    ensures k == [] && r == [] ==> v + ([m] + k + r) + t == (v + [m]) + t
  {
  }

  // What `menu_finalize` makes of an entry: its condition, and those of its properties, are narrowed
  // by what the entry above its declaration demands in the end
  ghost predicate NarrowedBelow(m: Menu, above: Menu?, dep: Dep, visible: map<Property, Dep>, s: set<Menu>)
    reads s`dep, Properties(s)`visible
  {
    && m in s && above in s && above.Valid()
    && (forall q | q in m.props + above.props :: q in Properties(s))
    && Propagated(m, Above(above), dep, visible)
  }

  // Of an entry and of its properties
  ghost predicate NormalEntry(m: Menu)
    reads m`dep, m.props`visible
  {
    NormalDep(m.dep) && forall q | q in m.props :: NormalDep(q.visible)
  }

  // `home` is where the entries of the list have been declared, below `p`
  ghost predicate Declared(f: Forest, p: Menu, home: map<Menu, Menu?>) {
    f.Cons? ==>
      && f == Node(f.m, f.kids, f.rest) && f.m in home && home[f.m] == p
      && Declared(f.kids, f.m, home) && Declared(f.rest, p, home)
  }

  lemma {:induction false} DeclaredBelow(f: Forest, first: Menu?, p: Menu, end: Menu?, home: map<Menu, Menu?>)
    requires Segment(f, first, p, end)
    requires forall m | m in Nodes(f) :: m in home && home[m] == m.parent
    ensures Declared(f, p, home)
  {
    if f.Cons? {
      DeclaredBelow(f.kids, f.m.list, f.m, null, home);
      DeclaredBelow(f.rest, f.m.next, p, end, home);
    }
  }

  // What is handed down from a normal form leaves normal forms
  lemma {:induction false} NormalBelow(f: Forest, p: Menu, home: map<Menu, Menu?>, deps: map<Menu, Dep>,
    visible: map<Property, Dep>, s: set<Menu>)
    requires Declared(f, p, home) && NormalDep(Above(p))
    requires OwnProperties(s)
    requires forall m | m in Nodes(f) :: m in home && m in deps && NarrowedBelow(m, home[m], deps[m], visible, s)
    ensures forall m | m in Nodes(f) :: NormalEntry(m)
  {
    hide Narrowed, NarrowedBool;
    if f.Cons? {
      assert NarrowedBelow(f.m, p, deps[f.m], visible, s);
      OwnNormal(f.m, Above(p), deps[f.m], visible);
      NormalBelow(f.kids, f.m, home, deps, visible, s);
      NormalBelow(f.rest, p, home, deps, visible, s);
    }
  }

  lemma OwnNormal(m: Menu, above: Dep, dep: Dep, visible: map<Property, Dep>)
    requires Propagated(m, above, dep, visible) && NormalDep(above) && m.Valid()
    ensures NormalEntry(m) && NormalDep(Above(m))
  {
    hide Narrowed, NarrowedBool;
  }

  // Finalising the whole tree, with the conditions and places it was declared with
  method FinalizeDeclared(root: Menu, ghost f: Forest)
    returns (ghost order: seq<Menu>, ghost kids: Forest,
      ghost home: map<Menu, Menu?>, ghost deps: map<Menu, Dep>, ghost visible: map<Property, Dep>)
    requires Segment(f, root.list, root, null) && Distinct(f) && root !in Nodes(f)
    requires root.parent == null && root.next == null && OwnProperties({root} + Nodes(f))
    modifies ({root} + Nodes(f))`next, ({root} + Nodes(f))`parent, ({root} + Nodes(f))`list, ({root} + Nodes(f))`dep
    modifies Properties({root} + Nodes(f))`visible
    ensures home == old(map m | m in {root} + Nodes(f) :: m.parent)
    ensures deps == old(map m | m in {root} + Nodes(f) :: m.dep)
    ensures visible == old(map q | q in Properties({root} + Nodes(f)) :: q.visible)
    ensures Declared(f, root, home)
    ensures forall m | m in Nodes(f) :: NarrowedBelow(m, home[m], deps[m], visible, {root} + Nodes(f))
    ensures root.Condition() == old(root.Condition())
    ensures root.parent == null && root.next == null && Segment(kids, root.list, root, null) && DeepFlat(kids)
    ensures Preorder(kids) == Preorder(f) && order == [root] + Preorder(f)
  {
    hide Distinct, DeepFlat, Propagated, Declared;
    home := map m | m in {root} + Nodes(f) :: m.parent;
    deps := map m | m in {root} + Nodes(f) :: m.dep;
    visible := map q | q in Properties({root} + Nodes(f)) :: q.visible;
    DeclaredBelow(f, root.list, root, null, home);
    var fin;
    fin, kids := FinalizeTree(root, f);
    order := fin.order;
  }

  // And what that means for the conditions
  method FinalizeNormal(root: Menu, ghost f: Forest) returns (ghost order: seq<Menu>, ghost kids: Forest)
    requires Segment(f, root.list, root, null) && Distinct(f) && root !in Nodes(f)
    requires root.parent == null && root.next == null && OwnProperties({root} + Nodes(f))
    modifies ({root} + Nodes(f))`next, ({root} + Nodes(f))`parent, ({root} + Nodes(f))`list, ({root} + Nodes(f))`dep
    modifies Properties({root} + Nodes(f))`visible
    ensures forall m | m in Nodes(f) :: NarrowedBelow(m, old(m.parent), old(m.dep),
      old(map q | q in Properties({root} + Nodes(f)) :: q.visible), {root} + Nodes(f))
    ensures root.Condition() == old(root.Condition())
    ensures NormalDep(old(Above(root))) ==> forall m | m in Nodes(f) :: NormalEntry(m)
    ensures root.parent == null && root.next == null && Segment(kids, root.list, root, null) && DeepFlat(kids)
    ensures Preorder(kids) == Preorder(f) && order == [root] + Preorder(f)
  {
    hide Distinct, DeepFlat, NarrowedBelow, NormalEntry, Segment, NormalDep, Declared, OwnProperties;
    ghost var home, deps, visible;
    order, kids, home, deps, visible := FinalizeDeclared(root, f);
    if NormalDep(Above(root)) {
      NormalBelow(f, root, home, deps, visible, {root} + Nodes(f));
    }
  }

  // Finalising the whole tree and writing it out: both go through all entries once, in the order
  // in which they were declared; every entry has been narrowed once, and only entries with a prompt
  // text have entries below them. When what the root hands down is a normal form, as none at all is,
  // all conditions are, and those of entries that are not tristate have been narrowed, too.
  method FinalizeAndWrite(root: Menu, ghost f: Forest)
    returns (visited: seq<Menu>, ghost order: seq<Menu>, ghost kids: Forest)
    requires Segment(f, root.list, root, null) && Distinct(f) && root !in Nodes(f)
    requires root.parent == null && root.next == null && OwnProperties({root} + Nodes(f))
    modifies ({root} + Nodes(f))`next, ({root} + Nodes(f))`parent, ({root} + Nodes(f))`list, ({root} + Nodes(f))`dep
    modifies Properties({root} + Nodes(f))`visible
    ensures visited == Preorder(f) && order == [root] + Preorder(f)
    ensures Segment(kids, root.list, root, null) && DeepFlat(kids)
    ensures forall m | m in Nodes(f) :: NarrowedBelow(m, old(m.parent), old(m.dep),
      old(map q | q in Properties({root} + Nodes(f)) :: q.visible), {root} + Nodes(f))
    ensures root.Condition() == old(root.Condition())
    ensures NormalDep(old(Above(root))) ==> forall m | m in Nodes(f) :: NormalEntry(m)
  {
    hide Distinct, DeepFlat, NarrowedBelow, NormalEntry, NormalDep, OwnProperties;
    order, kids := FinalizeNormal(root, f);
    visited := Walk(root, kids);
  }
}
