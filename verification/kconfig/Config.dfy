/** The symbols of a configuration, and what their values are by definition: the recursion that
    `sym_calc_value` (`config/symbol.c`) memoises, for configurations without dependency cycles.
 */
module KConfig {
  import opened KExpr
  import opened KCompare
  import opened KForest

  datatype Default = Default(sym: Sym, cond: Dep)

  // The part of `struct symbol` that evaluation does not change
  datatype Def = Def(
    name: string,
    prompts: seq<Dep>,         // the conditions of its prompts
    defaults: seq<Default>,    // its default properties, in order
    hasValue: bool,            // no SYMBOL_NEW: the user has chosen a value
    user: Value,               // `sym->def`
    optional: bool,
    choice: bool,              // SYMBOL_CHOICE
    userChoice: MaybeSym,      // `S_VAL(sym->def)` of a choice
    members: seq<Sym>,         // of a choice, in the order of its E_CHOICE list
    memberOf: MaybeSym)        // SYMBOL_CHOICEVAL, and the choice

  datatype Config = Config(defs: map<Sym, Def>, modules: Sym)

  predicate IsTyped(s: Sym) {
    s.Option? && !s.kind.Unknown?
  }

  // Constants are not in the table, every other symbol is
  predicate Known(c: Config, s: Sym) {
    s.Option? ==> s in c.defs
  }

  predicate KnownExpr(c: Config, e: Expr) {
    match e
    case Bin(_, l, r) => KnownExpr(c, l) && KnownExpr(c, r)
    case Not(x) => KnownExpr(c, x)
    case Cmp(_, a, b) => Known(c, a) && Known(c, b)
    case Leaf(s) => Known(c, s)
  }

  predicate KnownDep(c: Config, d: Dep) {
    d.When? ==> KnownExpr(c, d.e)
  }

  predicate KnownDef(c: Config, d: Def) {
    && (forall p | p in d.prompts :: KnownDep(c, p))
    && (forall f | f in d.defaults :: Known(c, f.sym) && KnownDep(c, f.cond))
    && (d.userChoice.HasSym? ==> Known(c, d.userChoice.sym))
    && (forall m | m in d.members :: Known(c, m))
    && (d.memberOf.HasSym? ==> IsChoice(c, d.memberOf.sym))
  }

  predicate IsChoice(c: Config, s: Sym) {
    s in c.defs && IsTyped(s) && c.defs[s].choice
  }

  // All pointers lead to symbols of the table
  predicate Closed(c: Config) {
    Known(c, c.modules) && forall s | s in c.defs :: KnownDef(c, c.defs[s])
  }

  // ---------------------------------------------------------------- values

  // The values that never change: of the constants, and of symbols without a type
  function Fixed(c: Config, s: Sym): Value {
    match s
    case SymYes => Value(YES, "y")
    case SymMod => Value(MOD, "m")
    case SymNo => Value(NO, "n")
    case Constant(text) => Value(NO, text)
    case Option(_, _) => Value(NO, if s in c.defs then c.defs[s].name else "")
  }

  // `symbol_no.curr` or `symbol_empty.curr`
  function Blank(s: Sym): Value {
    Value(NO, if IsLogical(s) then "n" else "")
  }

  // `sym_get_string_value`: the text of a bool or tristate symbol goes by its value
  function Shown(s: Sym, v: Value): Value {
    Value(v.tri, if IsLogical(s) then TriText(v.tri) else v.str)
  }

  function ShownAll(raw: Env): Env {
    (s: Sym) => Shown(s, raw(s))
  }

  // `sym_calc_visibility`
  function VisibleIn(prompts: seq<Dep>, env: Env): Tri {
    if prompts == [] then NO
    else Meet(Or, VisibleIn(prompts[..|prompts| - 1], env), CalcDep(prompts[|prompts| - 1], env))
  }

  // `sym_get_default_prop`
  function DefaultIn(defaults: seq<Default>, env: Env): MaybeSym {
    if defaults == [] then NoSym
    else if CalcDep(defaults[0].cond, env) != NO then HasSym(defaults[0].sym)
    else DefaultIn(defaults[1..], env)
  }

  // The value before the type is taken into account; `picked`: the choice has picked this member
  function Wanted(s: Sym, d: Def, visible: Tri, default: MaybeSym, raw: Env, picked: bool): Value {
    var byDefault := if default.HasSym? then raw(default.sym) else Blank(s);
    if visible != NO then
      var v := if d.hasValue then d.user else if d.choice then Blank(s) else byDefault;
      var t := Meet(And, v.tri, visible);
      var t' := if !d.optional && t == NO then visible else t;
      Value(if d.memberOf.HasSym? && visible == YES then (if picked then YES else NO) else t', v.str)
    else byDefault
  }

  // `sym_get_type`
  function TypeNow(s: Sym, d: Def, visible: Tri, modules: Tri): Kind {
    if KindOf(s).Tristate? && ((d.memberOf.HasSym? && visible == YES) || modules == NO) then Boolean
    else KindOf(s)
  }

  function Typed(kind: Kind, v: Value): Value {
    if kind.Boolean? && v.tri == MOD then Value(YES, v.str) else v
  }

  // The first default of a choice that is enabled and selectable, resp. the first such member
  function PickDefault(c: Config, defaults: seq<Default>, env: Env): MaybeSym {
    if defaults == [] then NoSym
    else if CalcDep(defaults[0].cond, env) != NO && Selectable(c, defaults[0].sym, env) then HasSym(defaults[0].sym)
    else PickDefault(c, defaults[1..], env)
  }

  function PickMember(c: Config, members: seq<Sym>, env: Env): MaybeSym {
    if members == [] then NoSym
    else if Selectable(c, members[0], env) then HasSym(members[0])
    else PickMember(c, members[1..], env)
  }

  predicate Selectable(c: Config, s: Sym, env: Env) {
    s in c.defs && VisibleIn(c.defs[s].prompts, env) != NO
  }

  function Pick(c: Config, d: Def, env: Env): MaybeSym {
    if d.userChoice.HasSym? && Selectable(c, d.userChoice.sym, env) then d.userChoice
    else
      var p := PickDefault(c, d.defaults, env);
      if p.HasSym? then p else PickMember(c, d.members, env)
  }

  // ---------------------------------------------------------------- no cycles

  predicate Below(e: Expr, rank: Sym -> nat, k: nat) {
    match e
    case Bin(_, l, r) => Below(l, rank, k) && Below(r, rank, k)
    case Not(x) => Below(x, rank, k)
    case Cmp(_, a, b) => rank(a) < k && rank(b) < k
    case Leaf(s) => rank(s) < k
  }

  predicate BelowDep(d: Dep, rank: Sym -> nat, k: nat) {
    d.When? ==> Below(d.e, rank, k)
  }

  predicate PromptsBelow(c: Config, s: Sym, rank: Sym -> nat, k: nat) {
    s in c.defs ==> forall p | p in c.defs[s].prompts :: BelowDep(p, rank, k)
  }

  // A hidden choice has no enabled default
  ghost predicate Guarded(d: Def) {
    forall env: Env | WellTyped(env) && VisibleIn(d.prompts, env) == NO :: DefaultIn(d.defaults, env) == NoSym
  }

  // Every symbol depends on symbols of lower rank only. The prompts of a member of a choice ask
  // for the choice, as `menu_finalize` makes them, and otherwise only for what is below the choice.
  ghost predicate RankedAt(c: Config, s: Sym, rank: Sym -> nat)
    requires s in c.defs
  {
    var d := c.defs[s];
    && PromptsBelow(c, s, rank, rank(s))
    && (forall f | f in d.defaults :: BelowDep(f.cond, rank, rank(s)))
    && (KindOf(s).Tristate? ==> rank(c.modules) < rank(s))
    && (if d.choice then
          && Guarded(d) && !d.memberOf.HasSym?
          && (d.userChoice.HasSym? ==> PromptsBelow(c, d.userChoice.sym, rank, rank(s) + 1))
          && (forall f | f in d.defaults :: PromptsBelow(c, f.sym, rank, rank(s) + 1))
          && (forall m | m in d.members :: PromptsBelow(c, m, rank, rank(s) + 1))
        else
          forall f | f in d.defaults :: rank(f.sym) < rank(s))
    && (d.memberOf.HasSym? ==>
          && rank(d.memberOf.sym) < rank(s)
          && forall p | p in d.prompts :: Contains(p, d.memberOf.sym))
  }

  ghost predicate Ranked(c: Config, rank: Sym -> nat) {
    Closed(c) && forall s | s in c.defs :: RankedAt(c, s, rank)
  }

  // ---------------------------------------------------------------- the definition

  // The values of the symbols of rank below `k`
  ghost function RawBelow(c: Config, rank: Sym -> nat, k: nat): Env
    requires Ranked(c, rank)
    decreases k, 0
  {
    (s: Sym) =>
      if !IsTyped(s) || s !in c.defs then Fixed(c, s)
      else if rank(s) < k then Val(c, rank, s)
      else Blank(s)
  }

  ghost function EnvBelow(c: Config, rank: Sym -> nat, k: nat): Env
    requires Ranked(c, rank)
    decreases k, 1
  {
    ShownAll(RawBelow(c, rank, k))
  }

  ghost function Visible(c: Config, rank: Sym -> nat, s: Sym): Tri
    requires Ranked(c, rank) && s in c.defs
    decreases rank(s), 2
  {
    VisibleIn(c.defs[s].prompts, EnvBelow(c, rank, rank(s)))
  }

  ghost function Val(c: Config, rank: Sym -> nat, s: Sym): Value
    requires Ranked(c, rank) && s in c.defs && IsTyped(s)
    decreases rank(s), 4
  {
    var d, env := c.defs[s], EnvBelow(c, rank, rank(s));
    var raw, visible := RawBelow(c, rank, rank(s)), Visible(c, rank, s);
    assert RankedAt(c, s, rank) && KnownDef(c, d);
    var picked := d.memberOf.HasSym? && Chosen(c, rank, d.memberOf.sym) == HasSym(s);
    var v := Wanted(s, d, visible, DefaultIn(d.defaults, env), raw, picked);
    Typed(TypeNow(s, d, visible, raw(c.modules).tri), v)
  }

  // What a choice that is yes has picked; it is not asked for otherwise
  ghost function Chosen(c: Config, rank: Sym -> nat, s: Sym): MaybeSym
    requires Ranked(c, rank) && IsChoice(c, s)
    decreases rank(s) + 1, 3
  {
    if Val(c, rank, s).tri == YES then Pick(c, c.defs[s], EnvBelow(c, rank, rank(s) + 1))
    else if Visible(c, rank, s) != NO && c.defs[s].hasValue then c.defs[s].userChoice
    else NoSym
  }

  ghost function WantedBelow(c: Config, rank: Sym -> nat, s: Sym): Value
    requires Ranked(c, rank) && s in c.defs && IsTyped(s)
  {
    var d, raw := c.defs[s], RawBelow(c, rank, rank(s));
    assert RankedAt(c, s, rank) && KnownDef(c, d);
    Wanted(s, d, Visible(c, rank, s), DefaultIn(d.defaults, ShownAll(raw)), raw,
      d.memberOf.HasSym? && Chosen(c, rank, d.memberOf.sym) == HasSym(s))
  }

  lemma ValIsTyped(c: Config, rank: Sym -> nat, s: Sym)
    requires Ranked(c, rank) && s in c.defs && IsTyped(s)
    ensures Val(c, rank, s) == Typed(
      TypeNow(s, c.defs[s], Visible(c, rank, s), RawBelow(c, rank, rank(s))(c.modules).tri), WantedBelow(c, rank, s))
  {
  }

  // ---------------------------------------------------------------- agreement

  // Two assignments give an expression the same value when they agree on its symbols
  lemma {:induction false} CalcAgree(e: Expr, env: Env, env': Env)
    requires forall s | Mentions(e, s) :: env(s) == env'(s)
    ensures Calc(e, env) == Calc(e, env')
  {
    match e
    case Bin(_, l, r) =>
      assert forall s | Mentions(l, s) || Mentions(r, s) :: Mentions(e, s);
      CalcAgree(l, env, env'); CalcAgree(r, env, env');
    case Not(x) =>
      assert forall s | Mentions(x, s) :: Mentions(e, s);
      CalcAgree(x, env, env');
    case Cmp(_, a, b) => assert Mentions(e, a) && Mentions(e, b);
    case Leaf(s) => assert Mentions(e, s);
  }

  lemma {:induction false} BelowMentions(e: Expr, rank: Sym -> nat, k: nat, s: Sym)
    requires Below(e, rank, k) && Mentions(e, s)
    ensures rank(s) < k
  {
    match e
    case Bin(_, l, r) =>
      if Mentions(l, s) { BelowMentions(l, rank, k, s); } else { BelowMentions(r, rank, k, s); }
    case Not(x) => BelowMentions(x, rank, k, s);
    case _ =>
  }

  lemma {:induction false} BelowMore(e: Expr, rank: Sym -> nat, j: nat, k: nat)
    requires Below(e, rank, j) && j <= k
    ensures Below(e, rank, k)
  {
    match e
    case Bin(_, l, r) => BelowMore(l, rank, j, k); BelowMore(r, rank, j, k);
    case Not(x) => BelowMore(x, rank, j, k);
    case _ =>
  }

  lemma {:induction false} KnownMentions(c: Config, e: Expr, s: Sym)
    requires KnownExpr(c, e) && Mentions(e, s)
    ensures Known(c, s)
  {
    match e
    case Bin(_, l, r) =>
      if Mentions(l, s) { KnownMentions(c, l, s); } else { KnownMentions(c, r, s); }
    case Not(x) => KnownMentions(c, x, s);
    case _ =>
  }

  lemma {:induction false} VisibleAgree(prompts: seq<Dep>, env: Env, env': Env)
    requires forall p | p in prompts :: CalcDep(p, env) == CalcDep(p, env')
    ensures VisibleIn(prompts, env) == VisibleIn(prompts, env')
  {
    if prompts != [] {
      VisibleAgree(prompts[..|prompts| - 1], env, env');
    }
  }

  ghost function ValueOf(c: Config, rank: Sym -> nat, s: Sym): Value
    requires Ranked(c, rank)
  {
    if IsTyped(s) && s in c.defs then Val(c, rank, s) else Fixed(c, s)
  }

  lemma EnvAt(c: Config, rank: Sym -> nat, k: nat, s: Sym)
    requires Ranked(c, rank) && rank(s) < k
    ensures RawBelow(c, rank, k)(s) == ValueOf(c, rank, s)
    ensures EnvBelow(c, rank, k)(s) == Shown(s, ValueOf(c, rank, s))
  {
    assert EnvBelow(c, rank, k)(s) == Shown(s, RawBelow(c, rank, k)(s));
  }

  // By definition, a boolean symbol is never mod
  lemma ValTyped(c: Config, rank: Sym -> nat, s: Sym)
    requires Ranked(c, rank) && s in c.defs && KindOf(s).Boolean?
    ensures Val(c, rank, s).tri != MOD
  {
    ValIsTyped(c, rank, s);
  }

  lemma EnvBelowTyped(c: Config, rank: Sym -> nat, k: nat)
    requires Ranked(c, rank)
    ensures WellTyped(EnvBelow(c, rank, k))
  {
    forall s: Sym
      ensures Fits(s, EnvBelow(c, rank, k)(s))
    {
      EnvBelowFits(c, rank, k, s);
    }
  }

  lemma EnvBelowFits(c: Config, rank: Sym -> nat, k: nat, s: Sym)
    requires Ranked(c, rank)
    ensures Fits(s, EnvBelow(c, rank, k)(s))
  {
    var raw := RawBelow(c, rank, k)(s);
    assert EnvBelow(c, rank, k)(s) == Shown(s, raw);
    if IsTyped(s) && s in c.defs {
      assert raw == if rank(s) < k then Val(c, rank, s) else Blank(s);
      if KindOf(s).Boolean? {
        ValTyped(c, rank, s);
      }
    } else {
      assert raw == Fixed(c, s);
    }
  }

  // The prompts of a symbol may be read at any level that reaches them
  lemma VisibleAt(c: Config, rank: Sym -> nat, s: Sym, k: nat)
    requires Ranked(c, rank) && s in c.defs && PromptsBelow(c, s, rank, k)
    ensures VisibleIn(c.defs[s].prompts, EnvBelow(c, rank, k)) == Visible(c, rank, s)
  {
    var env, env' := EnvBelow(c, rank, k), EnvBelow(c, rank, rank(s));
    assert RankedAt(c, s, rank);
    forall p | p in c.defs[s].prompts
      ensures CalcDep(p, env) == CalcDep(p, env')
    {
      if p.When? {
        forall x | Mentions(p.e, x)
          ensures env(x) == env'(x)
        {
          BelowMentions(p.e, rank, k, x);
          BelowMentions(p.e, rank, rank(s), x);
          EnvAt(c, rank, k, x);
          EnvAt(c, rank, rank(s), x);
        }
        CalcAgree(p.e, env, env');
      }
    }
    VisibleAgree(c.defs[s].prompts, env, env');
  }

  // The default found is the first enabled one
  lemma {:induction false} DefaultAt(defaults: seq<Default>, env: Env, i: nat)
    requires i <= |defaults| && forall j | 0 <= j < i :: CalcDep(defaults[j].cond, env) == NO
    requires i < |defaults| ==> CalcDep(defaults[i].cond, env) != NO
    ensures DefaultIn(defaults, env) == if i < |defaults| then HasSym(defaults[i].sym) else NoSym
  {
    if i > 0 {
      DefaultAt(defaults[1..], env, i - 1);
    }
  }
}
