/** The first loop of `menu_finalize` (`config/menu.c`): the condition of the entry above is added
    to the conditions of an entry and of its properties, and the result is simplified.
 */
module KPropagate {
  import opened KExpr
  import opened KTransform
  import opened KDups
  import opened KPasses
  import opened KSettled
  import opened KTree
  import opened KCompare
  import opened KForest

  // `expr_alloc_and`
  function AllocAnd(d: Dep, e: Dep): Dep {
    if d.Always? then e else if e.Always? then d else When(Bin(And, d.e, e.e))
  }

  lemma AllocAndCalc(d: Dep, e: Dep, env: Env)
    ensures CalcDep(AllocAnd(d, e), env) == Meet(And, CalcDep(d, env), CalcDep(e, env))
  {
  }

  predicate NormalDep(d: Dep) {
    d.When? ==> Normal(d.e)
  }

  // No duplicate and no contradiction is left
  ghost predicate ReducedDep(d: Dep) {
    d.When? ==> Reduced(d.e)
  }

  ghost predicate KeepsDep(d: Dep, e: Dep) {
    forall env: Env | WellTyped(env) && CalcDep(d, env) != MOD :: CalcDep(e, env) == CalcDep(d, env)
  }

  // `expr_eliminate_dups` on a pointer that may be NULL
  method EliminateDupsDep(d: Dep) returns (r: Dep)
    ensures KeepsDep(d, r) && (NormalDep(d) ==> NormalDep(r)) && d.Always? == r.Always? && ReducedDep(r)
  {
    if d.Always? {
      return Always;
    }
    var tree := new Tree(d.e);
    tree.EliminateDups();
    return When(tree.root);
  }

  // The condition `own` of something below `above` has become `now`: both together, wherever
  // that is not mod
  ghost predicate Narrowed(above: Dep, own: Dep, now: Dep) {
    forall env: Env | WellTyped(env) && Meet(And, CalcDep(above, env), CalcDep(own, env)) != MOD ::
      CalcDep(now, env) == Meet(And, CalcDep(above, env), CalcDep(own, env))
  }

  // For an entry that is not tristate it is only kept apart from no, and never larger
  ghost predicate NarrowedBool(above: Dep, own: Dep, now: Dep) {
    forall env: Env | WellTyped(env) && Meet(And, CalcDep(above, env), CalcDep(own, env)) != MOD ::
      && (CalcDep(now, env) == NO <==> CalcDep(above, env) == NO || CalcDep(own, env) == NO)
      && CalcDep(now, env) <= Meet(And, CalcDep(above, env), CalcDep(own, env))
  }

  method Narrow(above: Dep, own: Dep) returns (now: Dep)
    ensures Narrowed(above, own, now) && ReducedDep(now)
    ensures NormalDep(above) ==> NormalDep(now)
  {
    var both := AllocAnd(above, TransformDep(own));
    now := EliminateDupsDep(both);
    forall env: Env | WellTyped(env)
      ensures CalcDep(both, env) == Meet(And, CalcDep(above, env), CalcDep(own, env))
    {
      AllocAndCalc(above, TransformDep(own), env);
      if own.When? {
        TransformCalc(own.e, env);
      }
    }
    if own.When? {
      TransformNormal(own.e);
    }
  }

  function TransBoolDep(d: Dep): Dep {
    if d.Always? then d else When(TransBool(d.e))
  }

  lemma {:induction false} TransBoolNormal(e: Expr)
    requires Normal(e)
    ensures Normal(TransBool(e))
  {
    if e.Bin? {
      TransBoolNormal(e.left);
      TransBoolNormal(e.right);
    }
  }

  lemma TransBoolNarrowed(above: Dep, own: Dep, now: Dep)
    requires Narrowed(above, own, now) && NormalDep(now)
    ensures NarrowedBool(above, own, TransBoolDep(now)) && NormalDep(TransBoolDep(now))
  {
    if now.When? {
      TransBoolNormal(now.e);
    }
    forall env: Env | WellTyped(env)
      ensures CalcDep(TransBoolDep(now), env) <= CalcDep(now, env)
      ensures CalcDep(TransBoolDep(now), env) == NO <==> CalcDep(now, env) == NO
    {
      if now.When? {
        TransBoolCalc(now.e, env);
      }
    }
  }

  // `menu->sym && menu->sym->type != S_TRISTATE`
  predicate NotTristate(m: Menu) {
    m.sym.HasSym? && KindOf(m.sym.sym) != Tristate
  }

  // What the loop body leaves of a property's condition
  ghost predicate PropertyNarrowed(m: Menu, dep: Dep, own: Dep, now: Dep) {
    if NotTristate(m) then
      && (NormalDep(dep) ==> NarrowedBool(dep, own, now) && NormalDep(now))
      && (now.When? ==> NoneUnequal(now.e))
    else Narrowed(dep, own, now) && (NormalDep(dep) ==> NormalDep(now)) && ReducedDep(now)
  }

  method NarrowProperty(m: Menu, q: Property, dep: Dep)
    modifies q`visible
    ensures PropertyNarrowed(m, dep, old(q.visible), q.visible)
  {
    ghost var own := q.visible;
    var now := Narrow(dep, q.visible);
    if NotTristate(m) {
      if NormalDep(dep) {
        TransBoolNarrowed(dep, own, now);
      }
      if now.When? {
        TransBoolGone(now.e);
      }
      now := TransBoolDep(now);
    }
    q.visible := now;
  }

  // The loop body
  method PropagateOne(m: Menu, above: Dep)
    requires m.Valid()
    modifies m`dep, m.props`visible
    ensures Narrowed(above, old(m.dep), m.dep) && (NormalDep(above) ==> NormalDep(m.dep)) && ReducedDep(m.dep)
    ensures forall q | q in m.props :: PropertyNarrowed(m, m.dep, old(q.visible), q.visible)
  {
    var dep := Narrow(above, m.dep);
    m.dep := dep;
    var i := 0;
    while i < |m.props|
      invariant i <= |m.props| && m.dep == dep
      invariant forall j | 0 <= j < i ::
        PropertyNarrowed(m, m.dep, old(m.props[j].visible), m.props[j].visible)
      invariant forall j | i <= j < |m.props| :: m.props[j].visible == old(m.props[j].visible)
    {
      NarrowProperty(m, m.props[i], m.dep);
      i := i + 1;
    }
  }

  // The condition handed down: of the choice itself, of the prompt, or of the entry
  function Above(p: Menu): Dep
    reads p`dep, (if p.prompt == null then {} else {p.prompt})`visible
  {
    if p.sym.HasSym? && p.choice then When(Leaf(p.sym.sym)) else p.Condition()
  }

  // What the loop body does to one entry, given the conditions before it
  ghost predicate Propagated(m: Menu, above: Dep, dep: Dep, visible: map<Property, Dep>)
    reads m`dep, m.props`visible
  {
    && Narrowed(above, dep, m.dep) && (NormalDep(above) ==> NormalDep(m.dep)) && ReducedDep(m.dep)
    && forall q | q in m.props :: q in visible && PropertyNarrowed(m, m.dep, visible[q], q.visible)
  }

  // So an entry is hidden with what it was declared below: a choice that is n, a prompt that is not
  // shown, or an entry whose dependency is n
  lemma HiddenBelow(m: Menu, p: Menu, dep: Dep, visible: map<Property, Dep>, env: Env)
    requires Propagated(m, Above(p), dep, visible) && NormalDep(Above(p)) && WellTyped(env)
    requires if p.sym.HasSym? && p.choice then env(p.sym.sym).tri == NO
      else if p.prompt != null then CalcDep(p.prompt.visible, env) == NO
      else CalcDep(p.dep, env) == NO
    ensures CalcDep(m.dep, env) == NO && forall q | q in m.props :: CalcDep(q.visible, env) == NO
  {
    assert CalcDep(Above(p), env) == NO;
    assert CalcDep(m.dep, env) == NO;
  }

  ghost predicate Untouched(m: Menu, dep: Dep, visible: map<Property, Dep>)
    reads m`dep, m.props`visible
  {
    && m.dep == dep
    && forall q | q in m.props :: q in visible && q.visible == visible[q]
  }

  // Of the entries `all`, those of `done` have been narrowed and the others are as they were
  ghost predicate Handled(all: set<Menu>, done: set<Menu>, above: Dep,
    deps: map<Menu, Dep>, visible: map<Property, Dep>)
    reads all`dep, Properties(all)`visible
  {
    forall m | m in all ::
      assert forall q | q in m.props :: q in Properties(all);
      m in deps && if m in done then Propagated(m, above, deps[m], visible) else Untouched(m, deps[m], visible)
  }

  method PropagateNext(m: Menu, above: Dep, ghost all: set<Menu>, ghost done: set<Menu>,
    ghost deps: map<Menu, Dep>, ghost visible: map<Property, Dep>)
    requires m in all && m !in done && OwnProperties(all)
    requires Handled(all, done, above, deps, visible)
    modifies m`dep, m.props`visible
    ensures Handled(all, done + {m}, above, deps, visible)
  {
    assert forall x, q | x in all && x != m && q in x.props :: q !in m.props;
    PropagateOne(m, above);
  }

  // The loop, with the conditions before it given
  method PropagateList(p: Menu, above: Dep, ghost kids: Forest, ghost props: set<Property>,
    ghost deps: map<Menu, Dep>, ghost visible: map<Property, Dep>)
    requires Segment(kids, p.list, p, null) && Distinct(kids) && OwnProperties(Nodes(kids))
    requires forall m, q | m in Nodes(kids) && q in m.props :: q in props
    requires Handled(Nodes(kids), {}, above, deps, visible)
    modifies Nodes(kids)`dep, props`visible
    ensures Handled(Nodes(kids), TopSet(kids), above, deps, visible)
  {
    hide Handled, Segment, Distinct, TopSet, Tops;
    ListStep(kids, p.list, p);
    var menu := p.list;
    ghost var todo, done := kids, {};
    while menu != null
      invariant Segment(todo, menu, p, null) && Distinct(todo)
      invariant done !! Nodes(todo) && Nodes(todo) <= Nodes(kids)
      invariant TopSet(kids) == done + TopSet(todo)
      invariant Handled(Nodes(kids), done, above, deps, visible)
      decreases todo
    {
      ListStep(todo, menu, p);
      PropagateNext(menu, above, Nodes(kids), done, deps, visible);
      done := done + {menu};
      menu, todo := menu.next, todo.rest;
    }
    ListStep(todo, menu, p);
  }

  lemma ListStep(todo: Forest, menu: Menu?, p: Menu)
    requires Segment(todo, menu, p, null) && Distinct(todo)
    ensures menu == null ==> todo == Nil && TopSet(todo) == {}
    ensures menu != null ==>
      && todo.Cons? && todo.m == menu && TopSet(todo) == {menu} + TopSet(todo.rest)
      && Segment(todo.rest, menu.next, p, null) && Distinct(todo.rest)
      && menu !in Nodes(todo.rest) && Nodes(todo) == {menu} + Nodes(todo.kids) + Nodes(todo.rest)
  {
  }

  // The whole loop: every entry of the list, and no other
  method Propagate(p: Menu, ghost kids: Forest, ghost deps: map<Menu, Dep>, ghost visible: map<Property, Dep>)
    requires Segment(kids, p.list, p, null) && Distinct(kids) && OwnProperties(Nodes(kids))
    requires Handled(Nodes(kids), {}, Above(p), deps, visible)
    modifies Nodes(kids)`dep, Properties(Nodes(kids))`visible
    ensures Handled(Nodes(kids), TopSet(kids), old(Above(p)), deps, visible)
  {
    PropagateList(p, Above(p), kids, Properties(Nodes(kids)), deps, visible);
  }
}
