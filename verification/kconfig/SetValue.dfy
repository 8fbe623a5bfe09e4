/** What the user sets is what comes out (`sym_tristate_within_range` and `sym_set_tristate_value` of
    `config/symbol.c`): after the change, and a new evaluation, the symbol has the value.
 */
module KSetValue {
  import opened KExpr
  import opened KCompare
  import opened KForest
  import opened KConfig
  import opened KChoice

  // `sym_tristate_within_range`
  predicate WithinRange(s: Sym, d: Def, visible: Tri, modules: Tri, v: Tri) {
    var kind := TypeNow(s, d, visible, modules);
    var picked := d.memberOf.HasSym? && visible == YES;
    && visible != NO && (kind.Boolean? || kind.Tristate?)
    && (v == NO ==> !picked && d.optional)
    && (v == MOD ==> !picked && kind.Tristate?)
    && (v == YES ==> kind.Boolean? || visible == YES)
  }

  // What `sym_set_tristate_value` writes, once it has let the value pass
  function SetTo(c: Config, s: Sym, v: Tri): (r: Config)
    requires s in c.defs
    ensures r.defs.Keys == c.defs.Keys && r.modules == c.modules
  {
    var m := c.defs[s].memberOf;
    var defs := if v == YES && m.HasSym? && m.sym in c.defs then
        c.defs[m.sym := c.defs[m.sym].(userChoice := HasSym(s), hasValue := true)]
      else c.defs;
    Config(defs[s := defs[s].(hasValue := true, user := Value(v, defs[s].user.str))], c.modules)
  }

  // Only what the user says has changed
  ghost predicate SameShape(c: Config, c': Config) {
    && c'.defs.Keys == c.defs.Keys && c'.modules == c.modules
    && forall x | x in c.defs ::
      c'.defs[x] == c.defs[x].(hasValue := c'.defs[x].hasValue, user := c'.defs[x].user,
        userChoice := c'.defs[x].userChoice)
  }

  // Nothing has changed up to rank `k`, but for some symbols of rank `k` or more
  ghost predicate SameUpTo(c: Config, c': Config, rank: Sym -> nat, k: nat, but: set<Sym>) {
    && SameShape(c, c') && (forall x | x in but :: k <= rank(x))
    && forall x | x in c.defs && rank(x) <= k && x !in but :: c'.defs[x] == c.defs[x]
  }

  // ---------------------------------------------------------------- agreement

  ghost predicate Agree(env: Env, env': Env) {
    forall x: Sym :: env(x) == env'(x)
  }

  lemma CalcDepAgree(d: Dep, env: Env, env': Env)
    requires Agree(env, env')
    ensures CalcDep(d, env) == CalcDep(d, env')
  {
    if d.When? {
      CalcAgree(d.e, env, env');
    }
  }

  lemma PromptsAgree(prompts: seq<Dep>, env: Env, env': Env)
    requires Agree(env, env')
    ensures VisibleIn(prompts, env) == VisibleIn(prompts, env')
  {
    forall p | p in prompts
      ensures CalcDep(p, env) == CalcDep(p, env')
    {
      CalcDepAgree(p, env, env');
    }
    VisibleAgree(prompts, env, env');
  }

  lemma {:induction false} DefaultAgree(defaults: seq<Default>, env: Env, env': Env)
    requires Agree(env, env')
    ensures DefaultIn(defaults, env) == DefaultIn(defaults, env')
  {
    if defaults != [] {
      CalcDepAgree(defaults[0].cond, env, env');
      DefaultAgree(defaults[1..], env, env');
    }
  }

  lemma SelectableAgree(c: Config, c': Config, s: Sym, env: Env, env': Env)
    requires SameShape(c, c') && Agree(env, env')
    ensures Selectable(c, s, env) == Selectable(c', s, env')
  {
    if s in c.defs {
      PromptsAgree(c.defs[s].prompts, env, env');
    }
  }

  lemma {:induction false} PickDefaultAgree(c: Config, c': Config, defaults: seq<Default>, env: Env, env': Env)
    requires SameShape(c, c') && Agree(env, env')
    ensures PickDefault(c, defaults, env) == PickDefault(c', defaults, env')
  {
    hide SameShape, Selectable, Agree;
    if defaults != [] {
      CalcDepAgree(defaults[0].cond, env, env');
      SelectableAgree(c, c', defaults[0].sym, env, env');
      PickDefaultAgree(c, c', defaults[1..], env, env');
    }
  }

  lemma {:induction false} PickMemberAgree(c: Config, c': Config, members: seq<Sym>, env: Env, env': Env)
    requires SameShape(c, c') && Agree(env, env')
    ensures PickMember(c, members, env) == PickMember(c', members, env')
  {
    hide SameShape, Selectable, Agree;
    if members != [] {
      SelectableAgree(c, c', members[0], env, env');
      PickMemberAgree(c, c', members[1..], env, env');
    }
  }

  lemma PickAgree(c: Config, c': Config, d: Def, env: Env, env': Env)
    requires SameShape(c, c') && Agree(env, env')
    ensures Pick(c, d, env) == Pick(c', d, env')
  {
    hide SameShape, Selectable, Agree;
    if d.userChoice.HasSym? {
      SelectableAgree(c, c', d.userChoice.sym, env, env');
    }
    PickDefaultAgree(c, c', d.defaults, env, env');
    PickMemberAgree(c, c', d.members, env, env');
  }

  // ---------------------------------------------------------------- what does not change

  lemma {:induction false} RawSame(c: Config, c': Config, rank: Sym -> nat, k: nat, but: set<Sym>, j: nat)
    requires Ranked(c, rank) && Ranked(c', rank) && SameUpTo(c, c', rank, k, but) && j <= k
    ensures Agree(RawBelow(c, rank, j), RawBelow(c', rank, j))
    ensures Agree(EnvBelow(c, rank, j), EnvBelow(c', rank, j))
    decreases j, 0
  {
    hide Ranked, Val;
    forall x: Sym
      ensures RawBelow(c, rank, j)(x) == RawBelow(c', rank, j)(x)
    {
      if IsTyped(x) && x in c.defs && rank(x) < j {
        assert x !in but;
        ValSame(c, c', rank, k, but, x);
      } else {
        FixedSame(c, c', x);
      }
    }
    EnvAgree(c, c', rank, j);
  }

  lemma FixedSame(c: Config, c': Config, x: Sym)
    requires SameShape(c, c')
    ensures Fixed(c', x) == Fixed(c, x)
  {
    if x in c.defs {
      assert c'.defs[x].name == c.defs[x].name;
    }
  }

  lemma EnvAgree(c: Config, c': Config, rank: Sym -> nat, j: nat)
    requires Ranked(c, rank) && Ranked(c', rank) && Agree(RawBelow(c, rank, j), RawBelow(c', rank, j))
    ensures Agree(EnvBelow(c, rank, j), EnvBelow(c', rank, j))
  {
    forall x: Sym
      ensures EnvBelow(c, rank, j)(x) == EnvBelow(c', rank, j)(x)
    {
      assert EnvBelow(c, rank, j)(x) == Shown(x, RawBelow(c, rank, j)(x));
      assert EnvBelow(c', rank, j)(x) == Shown(x, RawBelow(c', rank, j)(x));
    }
  }

  lemma VisibleSame(c: Config, c': Config, rank: Sym -> nat, k: nat, but: set<Sym>, x: Sym)
    requires Ranked(c, rank) && Ranked(c', rank) && SameUpTo(c, c', rank, k, but) && x in c.defs && rank(x) <= k
    ensures Visible(c', rank, x) == Visible(c, rank, x)
    decreases rank(x), 1
  {
    RawSame(c, c', rank, k, but, rank(x));
    hide Ranked, Agree;
    PromptsAgree(c.defs[x].prompts, EnvBelow(c, rank, rank(x)), EnvBelow(c', rank, rank(x)));
  }

  // The value but for what the user says, with the same inputs
  lemma WantedSame(c: Config, c': Config, rank: Sym -> nat, k: nat, but: set<Sym>, x: Sym)
    requires Ranked(c, rank) && Ranked(c', rank) && SameUpTo(c, c', rank, k, but)
    requires x in c.defs && IsTyped(x) && rank(x) <= k
    ensures Visible(c', rank, x) == Visible(c, rank, x)
    ensures var d := c.defs[x];
      var def := DefaultIn(d.defaults, EnvBelow(c, rank, rank(x)));
      var raw, raw' := RawBelow(c, rank, rank(x)), RawBelow(c', rank, rank(x));
      && DefaultIn(c'.defs[x].defaults, EnvBelow(c', rank, rank(x))) == def
      && raw'(c.modules) == raw(c.modules) && (def.HasSym? ==> raw'(def.sym) == raw(def.sym))
    decreases rank(x), 2
  {
    VisibleSame(c, c', rank, k, but, x);
    RawSame(c, c', rank, k, but, rank(x));
    DefaultAgree(c.defs[x].defaults, EnvBelow(c, rank, rank(x)), EnvBelow(c', rank, rank(x)));
    hide Ranked;
  }

  lemma SameAt(c: Config, c': Config, rank: Sym -> nat, k: nat, but: set<Sym>, x: Sym)
    requires SameUpTo(c, c', rank, k, but) && x in c.defs && rank(x) <= k && (x !in but || rank(x) < k)
    ensures c'.defs.Keys == c.defs.Keys && c'.modules == c.modules && SameShape(c, c') && x in c'.defs
    ensures c'.defs[x] == c.defs[x]
  {
  }

  lemma FixedSameUpTo(c: Config, c': Config, rank: Sym -> nat, k: nat, but: set<Sym>, x: Sym)
    requires SameUpTo(c, c', rank, k, but)
    ensures Fixed(c', x) == Fixed(c, x)
  {
    FixedSame(c, c', x);
  }

  lemma MemberOfSame(c: Config, c': Config, m: Sym)
    requires SameShape(c, c') && m in c.defs
    ensures m in c'.defs && c'.defs[m].memberOf == c.defs[m].memberOf
  {
  }

  lemma ValSame(c: Config, c': Config, rank: Sym -> nat, k: nat, but: set<Sym>, x: Sym)
    requires Ranked(c, rank) && Ranked(c', rank) && SameUpTo(c, c', rank, k, but)
    requires x in c.defs && IsTyped(x) && rank(x) <= k && x !in but
    ensures Val(c', rank, x) == Val(c, rank, x)
    decreases rank(x), 4
  {
    hide Ranked, Val, Chosen, Visible, RawBelow, EnvBelow, SameShape, DefaultIn, TypeNow, Typed, RankedAt, KnownDef;
    SameAt(c, c', rank, k, but, x);
    WantedSame(c, c', rank, k, but, x);
    ValIs(c, rank, x);
    ValIs(c', rank, x);
    if c.defs[x].memberOf.HasSym? {
      MemberRank(c, rank, x);
      ChosenSame(c, c', rank, k, but, c.defs[x].memberOf.sym);
    }
  }

  lemma MemberRank(c: Config, rank: Sym -> nat, x: Sym)
    requires Ranked(c, rank) && x in c.defs && c.defs[x].memberOf.HasSym?
    ensures IsChoice(c, c.defs[x].memberOf.sym) && rank(c.defs[x].memberOf.sym) < rank(x)
  {
    assert RankedAt(c, x, rank) && KnownDef(c, c.defs[x]);
  }

  lemma ValIs(c: Config, rank: Sym -> nat, s: Sym)
    requires Ranked(c, rank) && s in c.defs && IsTyped(s)
    ensures c.defs[s].memberOf.HasSym? ==> IsChoice(c, c.defs[s].memberOf.sym)
    ensures var d, raw := c.defs[s], RawBelow(c, rank, rank(s));
      var v := Wanted(s, d, Visible(c, rank, s), DefaultIn(d.defaults, EnvBelow(c, rank, rank(s))), raw,
        d.memberOf.HasSym? && Chosen(c, rank, d.memberOf.sym) == HasSym(s));
      Val(c, rank, s) == Typed(TypeNow(s, d, Visible(c, rank, s), raw(c.modules).tri), v)
  {
    assert RankedAt(c, s, rank) && KnownDef(c, c.defs[s]);
    hide Visible, Wanted, TypeNow;
  }

  lemma ChosenSame(c: Config, c': Config, rank: Sym -> nat, k: nat, but: set<Sym>, x: Sym)
    requires Ranked(c, rank) && Ranked(c', rank) && SameUpTo(c, c', rank, k, but)
    requires IsChoice(c, x) && rank(x) < k
    ensures IsChoice(c', x) && Chosen(c', rank, x) == Chosen(c, rank, x)
    decreases rank(x) + 1, 3
  {
    hide Ranked, Val, Visible, Agree, SameShape, RawBelow, EnvBelow, Pick;
    SameAt(c, c', rank, k, but, x);
    ValSame(c, c', rank, k, but, x);
    VisibleSame(c, c', rank, k, but, x);
    RawSame(c, c', rank, k, but, rank(x) + 1);
    PickAgree(c, c', c.defs[x], EnvBelow(c, rank, rank(x) + 1), EnvBelow(c', rank, rank(x) + 1));
  }

  // ---------------------------------------------------------------- setting a value

  lemma SetShape(c: Config, s: Sym, v: Tri)
    requires s in c.defs
    ensures SameShape(c, SetTo(c, s, v))
  {
  }

  // A choice that is shown may be told to pick one of its members
  ghost predicate Settable(c: Config, s: Sym, v: Tri) {
    s in c.defs && IsLogical(s) && (v == YES && c.defs[s].memberOf.HasSym? ==>
      IsChoice(c, c.defs[s].memberOf.sym) && s in c.defs[c.defs[s].memberOf.sym].members)
  }

  lemma StillClosed(c: Config, s: Sym, v: Tri)
    requires Closed(c) && Settable(c, s, v)
    ensures Closed(SetTo(c, s, v))
  {
    var c' := SetTo(c, s, v);
    SetShape(c, s, v);
    forall x | x in c'.defs
      ensures KnownDef(c', c'.defs[x])
    {
      assert KnownDef(c, c.defs[x]);
      KnownStill(c, c', c.defs[x], c'.defs[x]);
    }
  }

  lemma KnownStill(c: Config, c': Config, d: Def, d': Def)
    requires SameShape(c, c') && KnownDef(c, d)
    requires d' == d.(hasValue := d'.hasValue, user := d'.user, userChoice := d'.userChoice)
    requires d'.userChoice.HasSym? ==> Known(c, d'.userChoice.sym)
    ensures KnownDef(c', d')
  {
    forall e: Expr | KnownExpr(c, e)
      ensures KnownExpr(c', e)
    {
      ExprStill(c, c', e);
    }
  }

  lemma {:induction false} ExprStill(c: Config, c': Config, e: Expr)
    requires c'.defs.Keys == c.defs.Keys && KnownExpr(c, e)
    ensures KnownExpr(c', e)
  {
    match e
    case Bin(_, l, r) => ExprStill(c, c', l); ExprStill(c, c', r);
    case Not(x) => ExprStill(c, c', x);
    case _ =>
  }

  lemma StillRanked(c: Config, rank: Sym -> nat, s: Sym, v: Tri)
    requires Ranked(c, rank) && Settable(c, s, v)
    ensures Ranked(SetTo(c, s, v), rank)
  {
    var c' := SetTo(c, s, v);
    StillClosed(c, s, v);
    SetShape(c, s, v);
    forall x | x in c'.defs
      ensures RankedAt(c', x, rank)
    {
      assert RankedAt(c, x, rank);
      RankedStill(c, c', rank, x);
    }
  }

  lemma RankedStill(c: Config, c': Config, rank: Sym -> nat, x: Sym)
    requires SameShape(c, c') && x in c.defs && RankedAt(c, x, rank)
    requires c'.defs[x].userChoice == c.defs[x].userChoice
      || (c.defs[x].choice && c'.defs[x].userChoice.HasSym? && c'.defs[x].userChoice.sym in c.defs[x].members)
    ensures RankedAt(c', x, rank)
  {
    forall y: Sym, k: nat | PromptsBelow(c, y, rank, k)
      ensures PromptsBelow(c', y, rank, k)
    {
    }
    assert Guarded(c.defs[x]) ==> Guarded(c'.defs[x]);
  }

  // `sym_set_tristate_value` lets a value pass that the symbol has already, or that is in range
  ghost predicate Passes(c: Config, rank: Sym -> nat, s: Sym, v: Tri)
    requires Ranked(c, rank) && s in c.defs && IsTyped(s)
  {
    Val(c, rank, s).tri == v ||
    WithinRange(s, c.defs[s], Visible(c, rank, s), RawBelow(c, rank, rank(s))(c.modules).tri, v)
  }

  // The value asked for survives what evaluation does to it
  lemma WantedIs(s: Sym, d: Def, visible: Tri, default: MaybeSym, raw: Env, picked: bool, modules: Tri, v: Tri)
    requires IsLogical(s) && (d.memberOf.HasSym? && visible == YES && v == YES ==> picked)
    requires Typed(TypeNow(s, d, visible, modules), Wanted(s, d, visible, default, raw, picked)).tri == v
      || WithinRange(s, d, visible, modules, v)
    ensures var d' := d.(hasValue := true, user := Value(v, d.user.str));
      Typed(TypeNow(s, d', visible, modules), Wanted(s, d', visible, default, raw, picked)).tri == v
  {
  }

  lemma WantedAgree(s: Sym, d: Def, visible: Tri, default: MaybeSym, raw: Env, raw': Env, picked: bool)
    requires default.HasSym? ==> raw(default.sym) == raw'(default.sym)
    ensures Wanted(s, d, visible, default, raw, picked) == Wanted(s, d, visible, default, raw', picked)
  {
  }

  // Set, then get: what has passed is the value of the symbol from then on. (Picking a member of a
  // choice is the next lemma.)
  lemma SetThenGet(c: Config, rank: Sym -> nat, s: Sym, v: Tri)
    requires Ranked(c, rank) && s in c.defs && IsLogical(s) && Settable(c, s, v) && Passes(c, rank, s, v)
    requires !(v == YES && c.defs[s].memberOf.HasSym?)
    ensures Ranked(SetTo(c, s, v), rank) && Val(SetTo(c, s, v), rank, s).tri == v
  {
    assert IsTyped(s);
    hide Ranked, Val, Chosen, Visible, RawBelow, EnvBelow, SameShape, SameUpTo, DefaultIn, Settable, SetTo;
    hide WithinRange, Wanted, TypeNow, Typed;
    var c' := SetTo(c, s, v);
    StillRanked(c, rank, s, v);
    PlainShape(c, rank, s, v);
    WantedSame(c, c', rank, rank(s), {s}, s);
    ValIs(c, rank, s);
    ValIs(c', rank, s);
    var d, raw, raw' := c.defs[s], RawBelow(c, rank, rank(s)), RawBelow(c', rank, rank(s));
    if d.memberOf.HasSym? {
      MemberRank(c, rank, s);
      ChosenSame(c, c', rank, rank(s), {s}, d.memberOf.sym);
    }
    var def := DefaultIn(d.defaults, EnvBelow(c, rank, rank(s)));
    var picked := d.memberOf.HasSym? && Chosen(c, rank, d.memberOf.sym) == HasSym(s);
    WantedIs(s, d, Visible(c, rank, s), def, raw, picked, raw(c.modules).tri, v);
    WantedAgree(s, c'.defs[s], Visible(c, rank, s), def, raw, raw', picked);
  }

  // What would survive is in range, or there already
  lemma RangeIs(s: Sym, d: Def, visible: Tri, default: MaybeSym, raw: Env, picked: bool, modules: Tri, v: Tri)
    requires IsLogical(s) && !(v == YES && d.memberOf.HasSym?) && visible != NO
    requires var d' := d.(hasValue := true, user := Value(v, d.user.str));
      Typed(TypeNow(s, d', visible, modules), Wanted(s, d', visible, default, raw, picked)).tri == v
    ensures WithinRange(s, d, visible, modules, v)
      || Typed(TypeNow(s, d, visible, modules), Wanted(s, d, visible, default, raw, picked)).tri == v
  {
  }

  // So a value is let pass exactly if the symbol has it already, or is shown and has it once it is set
  lemma PassesExactly(c: Config, rank: Sym -> nat, s: Sym, v: Tri)
    requires Ranked(c, rank) && s in c.defs && IsLogical(s) && Settable(c, s, v)
    requires !(v == YES && c.defs[s].memberOf.HasSym?)
    ensures Ranked(SetTo(c, s, v), rank)
    ensures Passes(c, rank, s, v) <==>
      Val(c, rank, s).tri == v || (Visible(c, rank, s) != NO && Val(SetTo(c, s, v), rank, s).tri == v)
  {
    hide Ranked, Val, Chosen, Visible, RawBelow, EnvBelow, SameShape, SameUpTo, DefaultIn, Settable, SetTo,
      Wanted, TypeNow, Typed;
    assert IsTyped(s);
    var c' := SetTo(c, s, v);
    StillRanked(c, rank, s, v);
    if Passes(c, rank, s, v) {
      SetThenGet(c, rank, s, v);
    } else if Visible(c, rank, s) != NO && Val(c', rank, s).tri == v {
      RangeNeeded(c, rank, s, v);
    }
  }

  lemma RangeNeeded(c: Config, rank: Sym -> nat, s: Sym, v: Tri)
    requires Ranked(c, rank) && s in c.defs && IsLogical(s) && Settable(c, s, v)
    requires !(v == YES && c.defs[s].memberOf.HasSym?) && Visible(c, rank, s) != NO
    requires Ranked(SetTo(c, s, v), rank) && IsTyped(s) && s in SetTo(c, s, v).defs
    requires Val(SetTo(c, s, v), rank, s).tri == v
    ensures Passes(c, rank, s, v)
  {
    hide Ranked, Val, Chosen, Visible, RawBelow, EnvBelow, SameShape, SameUpTo, DefaultIn, Settable, SetTo,
      WithinRange, Wanted, TypeNow, Typed;
    var c' := SetTo(c, s, v);
    PlainShape(c, rank, s, v);
    WantedSame(c, c', rank, rank(s), {s}, s);
    ValIs(c, rank, s);
    ValIs(c', rank, s);
    var d, raw, raw' := c.defs[s], RawBelow(c, rank, rank(s)), RawBelow(c', rank, rank(s));
    if d.memberOf.HasSym? {
      MemberRank(c, rank, s);
      ChosenSame(c, c', rank, rank(s), {s}, d.memberOf.sym);
    }
    var def := DefaultIn(d.defaults, EnvBelow(c, rank, rank(s)));
    var picked := d.memberOf.HasSym? && Chosen(c, rank, d.memberOf.sym) == HasSym(s);
    WantedAgree(s, c'.defs[s], Visible(c, rank, s), def, raw, raw', picked);
    RangeIs(s, d, Visible(c, rank, s), def, raw, picked, raw(c.modules).tri, v);
  }

  lemma PlainShape(c: Config, rank: Sym -> nat, s: Sym, v: Tri)
    requires s in c.defs && !(v == YES && c.defs[s].memberOf.HasSym?)
    ensures var c' := SetTo(c, s, v);
      && c'.modules == c.modules && SameUpTo(c, c', rank, rank(s), {s})
      && c'.defs[s] == c.defs[s].(hasValue := true, user := Value(v, c.defs[s].user.str))
  {
    SetShape(c, s, v);
  }

  // The value a choice gets once it counts as set by the user
  ghost function ChoiceNext(c: Config, rank: Sym -> nat, ch: Sym): Value
    requires Ranked(c, rank) && IsChoice(c, ch)
  {
    var d, visible, raw := c.defs[ch], Visible(c, rank, ch), RawBelow(c, rank, rank(ch));
    var default := DefaultIn(d.defaults, EnvBelow(c, rank, rank(ch)));
    Typed(TypeNow(ch, d, visible, raw(c.modules).tri), Wanted(ch, d.(hasValue := true), visible, default, raw, false))
  }

  // The assignment its members' prompts are read in then, and what they come to
  ghost function EnvNext(c: Config, rank: Sym -> nat, ch: Sym): Env
    requires Ranked(c, rank) && IsChoice(c, ch)
  {
    var env, v := EnvBelow(c, rank, rank(ch) + 1), Shown(ch, ChoiceNext(c, rank, ch));
    (x: Sym) => if x == ch then v else env(x)
  }

  ghost function VisibleNext(c: Config, rank: Sym -> nat, ch: Sym, m: Sym): Tri
    requires Ranked(c, rank) && IsChoice(c, ch) && m in c.defs
  {
    VisibleIn(c.defs[m].prompts, EnvNext(c, rank, ch))
  }

  lemma ChoiceWanted(ch: Sym, d: Def, visible: Tri, default: MaybeSym, raw: Env, raw': Env, modules: Tri, s: Sym)
    requires default.HasSym? ==> raw(default.sym) == raw'(default.sym)
    ensures var d' := d.(userChoice := HasSym(s), hasValue := true);
      Typed(TypeNow(ch, d', visible, modules), Wanted(ch, d', visible, default, raw', false))
        == Typed(TypeNow(ch, d, visible, modules), Wanted(ch, d.(hasValue := true), visible, default, raw, false))
  {
  }

  lemma ChoiceAlone(c: Config, rank: Sym -> nat, ch: Sym)
    requires Ranked(c, rank) && IsChoice(c, ch)
    ensures !c.defs[ch].memberOf.HasSym? && ch in c.defs && IsTyped(ch)
    ensures forall m | m in c.defs[ch].members :: PromptsBelow(c, m, rank, rank(ch) + 1)
  {
    assert RankedAt(c, ch, rank);
  }

  lemma ChoiceAfter(c: Config, c': Config, rank: Sym -> nat, but: set<Sym>, ch: Sym, s: Sym)
    requires Ranked(c, rank) && Ranked(c', rank) && SameUpTo(c, c', rank, rank(ch), but) && IsChoice(c, ch)
    requires c'.defs.Keys == c.defs.Keys && c'.modules == c.modules
    requires c'.defs[ch] == c.defs[ch].(userChoice := HasSym(s), hasValue := true)
    ensures Val(c', rank, ch) == ChoiceNext(c, rank, ch)
    ensures Visible(c', rank, ch) == Visible(c, rank, ch)
  {
    hide Ranked, Val, Chosen, Visible, RawBelow, EnvBelow, SameShape, SameUpTo, DefaultIn, Wanted, Typed, TypeNow;
    ChoiceAlone(c, rank, ch);
    WantedSame(c, c', rank, rank(ch), but, ch);
    ValIs(c', rank, ch);
    var raw, raw' := RawBelow(c, rank, rank(ch)), RawBelow(c', rank, rank(ch));
    ChoiceWanted(ch, c.defs[ch], Visible(c, rank, ch), DefaultIn(c.defs[ch].defaults, EnvBelow(c, rank, rank(ch))),
      raw, raw', raw(c.modules).tri, s);
  }

  lemma EnvAfter(c: Config, c': Config, rank: Sym -> nat, ch: Sym, s: Sym)
    requires Ranked(c, rank) && Ranked(c', rank) && SameUpTo(c, c', rank, rank(ch), {ch, s})
    requires IsChoice(c, ch) && rank(ch) < rank(s) && c'.defs.Keys == c.defs.Keys
    requires Val(c', rank, ch) == ChoiceNext(c, rank, ch)
    ensures Agree(EnvNext(c, rank, ch), EnvBelow(c', rank, rank(ch) + 1))
  {
    var k := rank(ch) + 1;
    hide Ranked, Val, SameShape, SameUpTo, EnvBelow, EnvNext, ChoiceNext;
    forall x: Sym
      ensures EnvNext(c, rank, ch)(x) == EnvBelow(c', rank, k)(x)
    {
      EnvAfterAt(c, c', rank, ch, s, x);
    }
  }

  lemma EnvAfterAt(c: Config, c': Config, rank: Sym -> nat, ch: Sym, s: Sym, x: Sym)
    requires Ranked(c, rank) && Ranked(c', rank) && SameUpTo(c, c', rank, rank(ch), {ch, s})
    requires IsChoice(c, ch) && rank(ch) < rank(s) && c'.defs.Keys == c.defs.Keys
    requires Val(c', rank, ch) == ChoiceNext(c, rank, ch)
    ensures EnvNext(c, rank, ch)(x) == EnvBelow(c', rank, rank(ch) + 1)(x)
  {
    var k := rank(ch) + 1;
    hide Ranked, Val, SameUpTo, SameShape, RawBelow, EnvBelow, ChoiceNext;
    EnvShown(c, rank, k, x);
    EnvShown(c', rank, k, x);
    if IsTyped(x) && x in c.defs && rank(x) < k {
      if x != ch {
        assert x != s;
        ValSame(c, c', rank, rank(ch), {ch, s}, x);
      }
    } else {
      FixedSameUpTo(c, c', rank, rank(ch), {ch, s}, x);
    }
  }

  lemma EnvShown(c: Config, rank: Sym -> nat, k: nat, x: Sym)
    requires Ranked(c, rank)
    ensures EnvBelow(c, rank, k)(x) == Shown(x,
      if !IsTyped(x) || x !in c.defs then Fixed(c, x) else if rank(x) < k then Val(c, rank, x) else Blank(x))
  {
    assert EnvBelow(c, rank, k)(x) == Shown(x, RawBelow(c, rank, k)(x));
  }

  // What the members of the choice are shown by
  lemma MemberVisible(c: Config, c': Config, rank: Sym -> nat, ch: Sym, m: Sym)
    requires Ranked(c, rank) && Ranked(c', rank) && SameShape(c, c')
    requires IsChoice(c, ch) && m in c.defs && m in c.defs[ch].members
    requires Agree(EnvNext(c, rank, ch), EnvBelow(c', rank, rank(ch) + 1))
    ensures Visible(c', rank, m) == VisibleNext(c, rank, ch, m)
    ensures Selectable(c', m, EnvBelow(c', rank, rank(ch) + 1)) <==> VisibleNext(c, rank, ch, m) != NO
  {
    hide Visible, EnvBelow, EnvNext, VisibleIn;
    assert RankedAt(c, ch, rank);
    assert PromptsBelow(c, m, rank, rank(ch) + 1) && c'.defs[m].prompts == c.defs[m].prompts;
    VisibleAt(c', rank, m, rank(ch) + 1);
    PromptsAgree(c.defs[m].prompts, EnvNext(c, rank, ch), EnvBelow(c', rank, rank(ch) + 1));
  }

  lemma PickShape(c: Config, rank: Sym -> nat, s: Sym)
    requires Settable(c, s, YES) && c.defs[s].memberOf.HasSym? && rank(c.defs[s].memberOf.sym) < rank(s)
    ensures var c', ch := SetTo(c, s, YES), c.defs[s].memberOf.sym;
      && IsChoice(c, ch) && s in c.defs[ch].members && c'.defs.Keys == c.defs.Keys && c'.modules == c.modules
      && c'.defs[ch] == c.defs[ch].(userChoice := HasSym(s), hasValue := true)
      && SameUpTo(c, c', rank, rank(ch), {ch, s})
  {
    SetShape(c, s, YES);
  }

  lemma PickAfter(c: Config, rank: Sym -> nat, s: Sym)
    requires Ranked(c, rank) && s in c.defs && Settable(c, s, YES) && c.defs[s].memberOf.HasSym?
    ensures var c', ch := SetTo(c, s, YES), c.defs[s].memberOf.sym;
      && Ranked(c', rank) && IsChoice(c, ch) && IsChoice(c', ch) && s in c.defs[ch].members && SameShape(c, c')
      && Val(c', rank, ch) == ChoiceNext(c, rank, ch) && Visible(c', rank, ch) == Visible(c, rank, ch)
      && c'.defs[ch].hasValue && c'.defs[ch].userChoice == HasSym(s)
      && Agree(EnvNext(c, rank, ch), EnvBelow(c', rank, rank(ch) + 1))
  {
    hide Ranked, SameShape, SameUpTo, Settable, Val, Visible, EnvBelow, EnvNext, ChoiceNext, Agree, SetTo;
    var c', ch := SetTo(c, s, YES), c.defs[s].memberOf.sym;
    MemberRank(c, rank, s);
    StillRanked(c, rank, s, YES);
    SetShape(c, s, YES);
    PickShape(c, rank, s);
    ChoiceAfter(c, c', rank, {ch, s}, ch, s);
    EnvAfter(c, c', rank, ch, s);
  }

  // The choice obeys as long as it is shown, and the member is
  lemma ChosenAfter(c': Config, rank: Sym -> nat, ch: Sym, s: Sym)
    requires Ranked(c', rank) && IsChoice(c', ch) && c'.defs[ch].hasValue && c'.defs[ch].userChoice == HasSym(s)
    requires Selectable(c', s, EnvBelow(c', rank, rank(ch) + 1))
    ensures Chosen(c', rank, ch) ==
      if Val(c', rank, ch).tri == YES || Visible(c', rank, ch) != NO then HasSym(s) else NoSym
  {
    hide Ranked, Val, Visible, EnvBelow, Selectable;
  }

  // A member that is going to be fully visible becomes y if its choice has anything to say; one that
  // is going to be partly visible does if its type has no m; a hidden one goes by its defaults
  ghost predicate Takes(c: Config, rank: Sym -> nat, s: Sym, modules: Tri, default: Tri)
    requires Ranked(c, rank) && s in c.defs && c.defs[s].memberOf.HasSym? && IsChoice(c, c.defs[s].memberOf.sym)
  {
    match VisibleNext(c, rank, c.defs[s].memberOf.sym, s)
    case 2 => Obeys(c, rank, c.defs[s].memberOf.sym)
    case 1 => KindOf(s).Boolean? || modules == NO
    case _ => default == YES
  }

  ghost function ByDefault(c: Config, rank: Sym -> nat, s: Sym): Tri
    requires Ranked(c, rank) && s in c.defs && IsTyped(s)
  {
    var raw := RawBelow(c, rank, rank(s));
    var default := DefaultIn(c.defs[s].defaults, EnvBelow(c, rank, rank(s)));
    Typed(TypeNow(s, c.defs[s], NO, raw(c.modules).tri), if default.HasSym? then raw(default.sym) else Blank(s)).tri
  }

  ghost predicate Obeys(c: Config, rank: Sym -> nat, ch: Sym)
    requires Ranked(c, rank) && IsChoice(c, ch)
  {
    ChoiceNext(c, rank, ch).tri == YES || Visible(c, rank, ch) != NO
  }

  // The value of a member that has been picked, by what it is shown by then
  lemma PickedValue(c: Config, rank: Sym -> nat, s: Sym)
    requires Ranked(c, rank) && s in c.defs && Settable(c, s, YES) && c.defs[s].memberOf.HasSym?
    ensures var c', ch := SetTo(c, s, YES), c.defs[s].memberOf.sym;
      && Ranked(c', rank) && IsChoice(c, ch) && s in c'.defs && IsTyped(s)
      && (match VisibleNext(c, rank, ch, s)
          case 2 => Val(c', rank, s).tri == if Obeys(c, rank, ch) then YES else NO
          case 1 => Val(c', rank, s).tri ==
            if KindOf(s).Boolean? || ValueOf(c', rank, c.modules).tri == NO then YES else MOD
          case _ => Val(c', rank, s).tri == ByDefault(c', rank, s))
  {
    hide Ranked, SameShape, SameUpTo, Settable, Agree, Val, Chosen, Visible, EnvBelow, RawBelow, SetTo, VisibleNext,
      ChoiceNext, Wanted, TypeNow, Typed, Selectable, ValueOf;
    var c', ch := SetTo(c, s, YES), c.defs[s].memberOf.sym;
    PickAfter(c, rank, s);
    MemberVisible(c, c', rank, ch, s);
    MemberSet(c, s);
    if KindOf(s).Tristate? {
      ModulesRead(c', rank, s);
    }
    ValIs(c', rank, s);
    var default, raw := DefaultIn(c'.defs[s].defaults, EnvBelow(c', rank, rank(s))), RawBelow(c', rank, rank(s));
    if VisibleNext(c, rank, ch, s) != NO {
      ChosenAfter(c', rank, ch, s);
    }
    MemberWanted(s, c'.defs[s], Visible(c', rank, s), default, raw, Chosen(c', rank, ch) == HasSym(s),
      raw(c.modules).tri);
  }

  lemma NothingByDefault(c: Config, rank: Sym -> nat, s: Sym)
    requires Ranked(c, rank) && s in c.defs && IsTyped(s) && IsLogical(s) && c.defs[s].defaults == []
    ensures ByDefault(c, rank, s) == NO
  {
    hide Ranked, RawBelow, EnvBelow;
  }

  // Set a member of a choice to y, then get: exactly when it is y
  lemma PickThenGet(c: Config, rank: Sym -> nat, s: Sym)
    requires Ranked(c, rank) && s in c.defs && Settable(c, s, YES) && c.defs[s].memberOf.HasSym?
    ensures var c', ch := SetTo(c, s, YES), c.defs[s].memberOf.sym;
      && Ranked(c', rank) && IsChoice(c, ch)
      && s in c'.defs && IsTyped(s)
      && (Val(c', rank, s).tri == YES <==>
            Takes(c, rank, s, ValueOf(c', rank, c.modules).tri, ByDefault(c', rank, s)))
      && (c.defs[s].defaults == [] ==> ByDefault(c', rank, s) == NO)
      && (rank(c.modules) < rank(ch) ==> ValueOf(c', rank, c.modules) == ValueOf(c, rank, c.modules))
  {
    hide Ranked, Settable, Val, SetTo, VisibleNext, ValueOf, ByDefault, Obeys;
    PickedValue(c, rank, s);
    MemberSet(c, s);
    ModulesKept(c, rank, s);
    if c.defs[s].defaults == [] {
      NothingByDefault(SetTo(c, s, YES), rank, s);
    }
  }

  lemma MemberSet(c: Config, s: Sym)
    requires s in c.defs && Settable(c, s, YES)
    ensures var c' := SetTo(c, s, YES);
      && s in c'.defs && c'.modules == c.modules && IsTyped(s) && IsLogical(s)
      && c'.defs[s].memberOf == c.defs[s].memberOf && c'.defs[s].defaults == c.defs[s].defaults
      && c'.defs[s].hasValue && c'.defs[s].user.tri == YES
  {
  }

  lemma MemberWanted(s: Sym, d: Def, visible: Tri, default: MaybeSym, raw: Env, picked: bool, modules: Tri)
    requires IsLogical(s) && d.memberOf.HasSym? && d.hasValue && d.user.tri == YES
    ensures var v := Typed(TypeNow(s, d, visible, modules), Wanted(s, d, visible, default, raw, picked)).tri;
      && (visible == YES ==> v == if picked then YES else NO)
      && (visible == MOD ==> v == if KindOf(s).Boolean? || modules == NO then YES else MOD)
      && (visible == NO ==>
            v == Typed(TypeNow(s, d, NO, modules), if default.HasSym? then raw(default.sym) else Blank(s)).tri)
      && (default == NoSym ==> Typed(TypeNow(s, d, NO, modules), Blank(s)).tri == NO)
  {
  }

  // Modules that rank below the choice do not change
  lemma ModulesKept(c: Config, rank: Sym -> nat, s: Sym)
    requires Ranked(c, rank) && s in c.defs && Settable(c, s, YES) && c.defs[s].memberOf.HasSym?
    requires Ranked(SetTo(c, s, YES), rank)
    ensures var c', ch := SetTo(c, s, YES), c.defs[s].memberOf.sym;
      rank(c.modules) < rank(ch) ==> ValueOf(c', rank, c.modules) == ValueOf(c, rank, c.modules)
  {
    hide Ranked, SameUpTo, SameShape, Settable, SetTo, Val;
    var c', ch, m := SetTo(c, s, YES), c.defs[s].memberOf.sym, c.modules;
    MemberRank(c, rank, s);
    PickShape(c, rank, s);
    if rank(m) < rank(ch) {
      if IsTyped(m) && m in c.defs {
        ValSame(c, c', rank, rank(ch), {ch, s}, m);
      } else {
        FixedSameUpTo(c, c', rank, rank(ch), {ch, s}, m);
      }
    }
  }

  lemma ModulesRead(c: Config, rank: Sym -> nat, s: Sym)
    requires Ranked(c, rank) && s in c.defs && KindOf(s).Tristate?
    ensures RawBelow(c, rank, rank(s))(c.modules) == ValueOf(c, rank, c.modules)
  {
    assert RankedAt(c, s, rank);
    EnvAt(c, rank, rank(s), c.modules);
  }

  // Every other member that is going to be fully visible is n
  lemma PickClears(c: Config, rank: Sym -> nat, s: Sym, m: Sym)
    requires Ranked(c, rank) && s in c.defs && Settable(c, s, YES) && c.defs[s].memberOf.HasSym?
    requires m in c.defs && IsTyped(m) && m != s && c.defs[m].memberOf == c.defs[s].memberOf
    requires IsChoice(c, c.defs[s].memberOf.sym) && m in c.defs[c.defs[s].memberOf.sym].members
    requires VisibleNext(c, rank, c.defs[s].memberOf.sym, s) != NO
    requires VisibleNext(c, rank, c.defs[s].memberOf.sym, m) == YES
    ensures Ranked(SetTo(c, s, YES), rank) && Val(SetTo(c, s, YES), rank, m).tri == NO
  {
    hide Ranked, SameShape, Settable, Agree, Val, Chosen, Visible, EnvBelow, SetTo, VisibleNext, ChoiceNext, Selectable;
    var c', ch := SetTo(c, s, YES), c.defs[s].memberOf.sym;
    PickAfter(c, rank, s);
    MemberOfSame(c, c', m);
    MemberVisible(c, c', rank, ch, s);
    MemberVisible(c, c', rank, ch, m);
    ChosenAfter(c', rank, ch, s);
    MemberYes(c', rank, m);
  }

  // What a caller sees who sets a value and reads it again: a value that is refused, or that is there
  // already, changes nothing until something else is set
  ghost function GetAfterSet(c: Config, rank: Sym -> nat, s: Sym, v: Tri): Tri
    requires Ranked(c, rank) && s in c.defs && Settable(c, s, v)
  {
    StillRanked(c, rank, s, v);
    if Val(c, rank, s).tri == v || !Passes(c, rank, s, v) then Val(c, rank, s).tri
    else Val(SetTo(c, s, v), rank, s).tri
  }

  lemma SetThenRead(c: Config, rank: Sym -> nat, s: Sym, v: Tri)
    requires Ranked(c, rank) && s in c.defs && Settable(c, s, v)
    ensures var c' := SetTo(c, s, v);
      && Ranked(c', rank) && s in c'.defs && IsTyped(s)
      && (v == YES && c.defs[s].memberOf.HasSym? ==> IsChoice(c, c.defs[s].memberOf.sym))
      && (GetAfterSet(c, rank, s, v) == v <==>
            && Passes(c, rank, s, v)
            && (Val(c, rank, s).tri != v && v == YES && c.defs[s].memberOf.HasSym? ==>
                  Takes(c, rank, s, ValueOf(c', rank, c.modules).tri, ByDefault(c', rank, s))))
  {
    hide Ranked, Val, SetTo, WithinRange, Visible, RawBelow, Takes, ByDefault, ValueOf;
    StillRanked(c, rank, s, v);
    if v == YES && c.defs[s].memberOf.HasSym? {
      PickThenGet(c, rank, s);
    } else if Passes(c, rank, s, v) {
      SetThenGet(c, rank, s, v);
    }
  }

  // ---------------------------------------------------------------- where picking works

  // A choice that counts as new has the value n in its place: as all do when the configuration files
  // have been parsed, and as `conf_read` leaves them, after which no choice is new
  ghost predicate NewIsNo(c: Config) {
    forall x | x in c.defs && c.defs[x].choice && !c.defs[x].hasValue :: c.defs[x].user.tri == NO
  }

  function SetAll(c: Config, sets: seq<(Sym, Tri)>): Config
    requires forall p | p in sets :: p.0 in c.defs
    decreases |sets|
  {
    if sets == [] then c else SetAll(SetTo(c, sets[0].0, sets[0].1), sets[1..])
  }

  // It stays so, whatever is set
  lemma {:induction false} NewStaysNo(c: Config, sets: seq<(Sym, Tri)>)
    requires NewIsNo(c) && forall p | p in sets :: p.0 in c.defs
    ensures NewIsNo(SetAll(c, sets))
    decreases |sets|
  {
    if sets != [] {
      NewStaysNo(SetTo(c, sets[0].0, sets[0].1), sets[1..]);
    }
  }

  // So the choice keeps its value
  lemma ChoiceStays(c: Config, rank: Sym -> nat, ch: Sym)
    requires Ranked(c, rank) && IsChoice(c, ch) && NewIsNo(c)
    ensures ChoiceNext(c, rank, ch).tri == Val(c, rank, ch).tri
  {
    hide Ranked, Val, Visible, RawBelow, EnvBelow, DefaultIn;
    ChoiceAlone(c, rank, ch);
    ValIs(c, rank, ch);
  }

  // and its members stay as visible as they are
  lemma MemberStays(c: Config, rank: Sym -> nat, ch: Sym, m: Sym)
    requires Ranked(c, rank) && IsChoice(c, ch) && IsLogical(ch) && NewIsNo(c)
    requires m in c.defs && m in c.defs[ch].members
    ensures VisibleNext(c, rank, ch, m) == Visible(c, rank, m)
  {
    hide Ranked, Val, Visible, EnvBelow, EnvNext, VisibleIn, ChoiceNext;
    ChoiceAlone(c, rank, ch);
    NextIsNow(c, rank, ch);
    VisibleAt(c, rank, m, rank(ch) + 1);
    PromptsAgree(c.defs[m].prompts, EnvNext(c, rank, ch), EnvBelow(c, rank, rank(ch) + 1));
  }

  lemma NextIsNow(c: Config, rank: Sym -> nat, ch: Sym)
    requires Ranked(c, rank) && IsChoice(c, ch) && IsLogical(ch) && NewIsNo(c)
    ensures Agree(EnvNext(c, rank, ch), EnvBelow(c, rank, rank(ch) + 1))
  {
    hide Ranked, Val, EnvBelow, RawBelow, ChoiceNext, NewIsNo;
    ChoiceStays(c, rank, ch);
    EnvShown(c, rank, rank(ch) + 1, ch);
  }

  // A hidden choice is n
  lemma HiddenChoice(c: Config, rank: Sym -> nat, ch: Sym)
    requires Ranked(c, rank) && IsChoice(c, ch) && Visible(c, rank, ch) == NO
    ensures Val(c, rank, ch).tri == NO
  {
    hide RawBelow, Val, EnvBelow, Visible, Chosen;
    assert RankedAt(c, ch, rank);
    EnvBelowTyped(c, rank, rank(ch));
    VisibleAt(c, rank, ch, rank(ch));
    ValIs(c, rank, ch);
  }

  // A pick that is let pass works: for a member that is hidden while the choice is n, and that has no
  // m or does not count on modules that change with the choice
  lemma PickWorks(c: Config, rank: Sym -> nat, s: Sym)
    requires Ranked(c, rank) && s in c.defs && Settable(c, s, YES) && c.defs[s].memberOf.HasSym? && NewIsNo(c)
    requires IsLogical(c.defs[s].memberOf.sym) && IsChoice(c, c.defs[s].memberOf.sym)
    requires Val(c, rank, c.defs[s].memberOf.sym).tri == NO ==> Visible(c, rank, s) == NO
    requires KindOf(s).Boolean? || rank(c.modules) < rank(c.defs[s].memberOf.sym)
    requires Passes(c, rank, s, YES)
    ensures GetAfterSet(c, rank, s, YES) == YES
  {
    hide Ranked, Val, Chosen, Visible, EnvBelow, RawBelow, SetTo, VisibleNext, ChoiceNext, NewIsNo, Settable;
    MemberOfChoice(c, s);
    if Val(c, rank, s).tri != YES {
      StillRanked(c, rank, s, YES);
      var ch := c.defs[s].memberOf.sym;
      ChoiceStays(c, rank, ch);
      MemberStays(c, rank, ch, s);
      if Visible(c, rank, ch) == NO {
        HiddenChoice(c, rank, ch);
      }
      if KindOf(s).Tristate? {
        ModulesRead(c, rank, s);
      }
      PickThenGet(c, rank, s);
    }
  }

  lemma MemberOfChoice(c: Config, s: Sym)
    requires Settable(c, s, YES) && c.defs[s].memberOf.HasSym?
    ensures s in c.defs[c.defs[s].memberOf.sym].members && IsLogical(s) && IsTyped(s)
  {
  }

  // ---------------------------------------------------------------- where picking fails

  // Otherwise it need not: here a choice counts as new, but has an old m in its place
  const CHOICE: Sym := Option(0, Tristate)
  const FIRST: Sym := Option(1, Tristate)
  const SECOND: Sym := Option(2, Tristate)

  function Stale(): Config {
    var choice := Def("CHOICE", [Always], [], false, Value(MOD, "m"), false, true, NoSym, [FIRST, SECOND], NoSym);
    var first := Def("FIRST", [When(Leaf(CHOICE))], [], false, Value(NO, "n"), false, false, NoSym, [], HasSym(CHOICE));
    Config(map[CHOICE := choice, FIRST := first, SECOND := first.(name := "SECOND")], SymYes)
  }

  function StaleRank(): Sym -> nat {
    (x: Sym) => if x == CHOICE then 1 else if x == FIRST || x == SECOND then 2 else 0
  }

  lemma StaleRanked()
    ensures Ranked(Stale(), StaleRank())
  {
    hide RankedAt, Closed;
    StaleKnown();
    ChoiceRanked();
    MemberRanked(FIRST);
    MemberRanked(SECOND);
  }

  lemma ChoiceRanked()
    ensures CHOICE in Stale().defs && RankedAt(Stale(), CHOICE, StaleRank())
  {
    hide Guarded;
    ChoiceGuarded();
  }

  lemma MemberRanked(m: Sym)
    requires m in {FIRST, SECOND}
    ensures m in Stale().defs && RankedAt(Stale(), m, StaleRank())
  {
    hide Guarded;
  }

  lemma ChoiceGuarded()
    ensures Guarded(Stale().defs[CHOICE])
  {
  }

  lemma StaleKnown()
    ensures Closed(Stale())
  {
  }

  lemma StaleShape(c: Config)
    requires SameShape(Stale(), c)
    ensures CHOICE in c.defs && FIRST in c.defs && SECOND in c.defs && c.modules == SymYes
    ensures c.defs[CHOICE].prompts == [Always] && c.defs[CHOICE].defaults == []
    ensures c.defs[CHOICE].members == [FIRST, SECOND]
    ensures c.defs[CHOICE].choice && !c.defs[CHOICE].optional && c.defs[CHOICE].memberOf == NoSym
    ensures forall m | m in {FIRST, SECOND} ::
      && c.defs[m].prompts == [When(Leaf(CHOICE))] && c.defs[m].defaults == []
      && !c.defs[m].choice && !c.defs[m].optional && c.defs[m].memberOf == HasSym(CHOICE)
  {
  }

  lemma AlwaysShown(env: Env)
    ensures VisibleIn([Always], env) == YES
  {
    assert [Always][..0] == [];
  }

  // The value of the choice, whatever its members are told
  lemma ChoiceValue(c: Config, t: Tri)
    requires Ranked(c, StaleRank()) && SameShape(Stale(), c) && CHOICE in c.defs
    requires t == if c.defs[CHOICE].hasValue then MOD else YES
    requires c.defs[CHOICE].user.tri == MOD
    ensures Visible(c, StaleRank(), CHOICE) == YES && Val(c, StaleRank(), CHOICE).tri == t
  {
    StaleShape(c);
    hide Stale, SameShape, Ranked;
    AlwaysShown(EnvBelow(c, StaleRank(), 1));
    ValIs(c, StaleRank(), CHOICE);
    RawYes(c, StaleRank(), 1);
    hide Val, RawBelow, EnvBelow, VisibleIn;
  }

  lemma OnePrompt(env: Env)
    ensures VisibleIn([When(Leaf(CHOICE))], env) == env(CHOICE).tri
  {
    assert [When(Leaf(CHOICE))][..0] == [];
  }

  lemma MemberShown(c: Config, m: Sym)
    requires Ranked(c, StaleRank()) && SameShape(Stale(), c) && m in {FIRST, SECOND}
    ensures m in c.defs && CHOICE in c.defs
    ensures Visible(c, StaleRank(), m) == Val(c, StaleRank(), CHOICE).tri
  {
    hide Ranked, Val, EnvBelow, SameShape, VisibleIn, Stale;
    StaleShape(c);
    OnePrompt(EnvBelow(c, StaleRank(), 2));
    EnvShown(c, StaleRank(), 2, CHOICE);
  }

  lemma RawYes(c: Config, rank: Sym -> nat, k: nat)
    requires Ranked(c, rank)
    ensures RawBelow(c, rank, k)(SymYes) == Value(YES, "y")
  {
    RawShown(c, rank, k, SymYes);
    hide Ranked, RawBelow;
  }

  lemma RawShown(c: Config, rank: Sym -> nat, k: nat, x: Sym)
    requires Ranked(c, rank)
    ensures RawBelow(c, rank, k)(x) ==
      if !IsTyped(x) || x !in c.defs then Fixed(c, x) else if rank(x) < k then Val(c, rank, x) else Blank(x)
  {
  }

  // The second member is fully visible and "n"; setting it to "y" is let pass and makes it "m", for
  // that is what the choice becomes
  lemma PickMayFail()
    ensures Ranked(Stale(), StaleRank()) && Settable(Stale(), SECOND, YES) && IsChoice(Stale(), CHOICE)
    ensures Val(Stale(), StaleRank(), SECOND).tri == NO && Passes(Stale(), StaleRank(), SECOND, YES)
    ensures ChoiceNext(Stale(), StaleRank(), CHOICE).tri == MOD
    ensures VisibleNext(Stale(), StaleRank(), CHOICE, SECOND) == MOD
    ensures GetAfterSet(Stale(), StaleRank(), SECOND, YES) == MOD
  {
    hide Ranked, Val, Chosen, SameShape, Stale, Visible, SetTo, Settable, ChoiceNext, VisibleNext, Passes, EnvNext,
      EnvBelow, Agree;
    StaleRanked();
    StaleSelf();
    StaleBefore();
    var c, c', rank := Stale(), SetTo(Stale(), SECOND, YES), StaleRank();
    StillRanked(c, rank, SECOND, YES);
    SetShape(c, SECOND, YES);
    StaleShape(c);
    StaleShape(c');
    StaleUser();
    PickAfter(c, rank, SECOND);
    MemberVisible(c, c', rank, CHOICE, SECOND);
    StaleAfter(c');
  }

  lemma StaleSelf()
    ensures SameShape(Stale(), Stale()) && IsChoice(Stale(), CHOICE) && Settable(Stale(), SECOND, YES)
    ensures !Stale().defs[CHOICE].hasValue && Stale().defs[CHOICE].user.tri == MOD
    ensures Stale().defs[CHOICE].userChoice == NoSym
  {
  }

  lemma StaleBefore()
    requires Ranked(Stale(), StaleRank())
    ensures SECOND in Stale().defs
    ensures Val(Stale(), StaleRank(), SECOND).tri == NO && Passes(Stale(), StaleRank(), SECOND, YES)
  {
    hide Ranked, Visible, RawBelow, EnvBelow, Val, Chosen, Stale, SameShape;
    var c, rank := Stale(), StaleRank();
    StaleSelf();
    StaleShape(c);
    ChoiceValue(c, YES);
    MemberShown(c, SECOND);
    StalePicks();
    MemberYes(c, rank, SECOND);
  }

  lemma StalePicks()
    requires Ranked(Stale(), StaleRank())
    ensures IsChoice(Stale(), CHOICE) && Chosen(Stale(), StaleRank(), CHOICE) == HasSym(FIRST)
  {
    hide Ranked, Stale, SameShape, Val, Visible, EnvBelow, VisibleIn;
    var c, rank := Stale(), StaleRank();
    StaleSelf();
    StaleShape(c);
    ChoiceValue(c, YES);
    var env := EnvBelow(c, rank, 2);
    OnePrompt(env);
    EnvShown(c, rank, 2, CHOICE);
    assert Selectable(c, FIRST, env);
    assert Pick(c, c.defs[CHOICE], env) == HasSym(FIRST);
  }

  lemma StaleUser()
    ensures SECOND in Stale().defs && CHOICE in Stale().defs
    ensures var c := SetTo(Stale(), SECOND, YES);
      && CHOICE in c.defs && SECOND in c.defs
      && c.defs[CHOICE].hasValue && c.defs[CHOICE].user.tri == MOD
      && c.defs[SECOND].hasValue && c.defs[SECOND].user.tri == YES
  {
  }

  lemma StaleAfter(c: Config)
    requires Ranked(c, StaleRank()) && SameShape(Stale(), c) && CHOICE in c.defs && SECOND in c.defs
    requires c.defs[CHOICE].hasValue && c.defs[CHOICE].user.tri == MOD
    requires c.defs[SECOND].hasValue && c.defs[SECOND].user.tri == YES
    ensures Val(c, StaleRank(), CHOICE).tri == MOD && Visible(c, StaleRank(), SECOND) == MOD
    ensures Val(c, StaleRank(), SECOND).tri == MOD
  {
    hide Ranked, Visible, RawBelow, EnvBelow, Val, Chosen, Stale, SameShape, DefaultIn;
    StaleShape(c);
    ChoiceValue(c, MOD);
    MemberShown(c, SECOND);
    ValIs(c, StaleRank(), SECOND);
    RawYes(c, StaleRank(), 2);
  }
}
