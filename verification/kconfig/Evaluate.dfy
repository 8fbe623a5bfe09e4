/** `sym_calc_value` and `expr_calc_value` (`config/symbol.c`, `config/expr.c`): the values of the
    symbols are computed on demand, by mutual recursion, and kept under a VALID flag.
 */
module KEvaluate {
  import opened KExpr
  import opened KCompare
  import opened KForest
  import opened KConfig

  // The fields that evaluation changes
  datatype State = State(
    valid: set<Sym>, curr: map<Sym, Value>, chosen: map<Sym, MaybeSym>, visible: map<Sym, Tri>)

  // A configuration, and a ranking of its symbols when it has no dependency cycles
  datatype Setting = Setting(cfg: Config, rank: Sym -> nat, ranked: bool)

  ghost predicate ValidSetting(g: Setting) {
    Closed(g.cfg) && (g.ranked ==> Ranked(g.cfg, g.rank))
  }

  // Holds at any time, also in the middle of an evaluation, with or without cycles
  ghost predicate Inv(g: Setting, st: State) {
    && ValidSetting(g)
    && st.curr.Keys == g.cfg.defs.Keys && st.chosen.Keys == g.cfg.defs.Keys
    && st.visible.Keys == g.cfg.defs.Keys && st.valid <= g.cfg.defs.Keys
    && (forall s | s in st.valid :: IsTyped(s))
    && forall s | s in g.cfg.defs && KindOf(s).Boolean? :: st.curr[s].tri != MOD
  }

  // Symbols with a type that are not VALID yet
  ghost function Pending(g: Setting, st: State): set<Sym> {
    set s | s in g.cfg.defs && IsTyped(s) && s !in st.valid
  }

  function RawValue(cfg: Config, curr: map<Sym, Value>, s: Sym): Value {
    if IsTyped(s) && s in curr then curr[s] else Fixed(cfg, s)
  }

  // The assignment at the moment
  function EnvNow(cfg: Config, curr: map<Sym, Value>): Env {
    (s: Sym) => Shown(s, RawValue(cfg, curr, s))
  }

  lemma EnvNowTyped(g: Setting, st: State)
    requires Inv(g, st)
    ensures WellTyped(EnvNow(g.cfg, st.curr))
  {
    forall s: Sym
      ensures Fits(s, EnvNow(g.cfg, st.curr)(s))
    {
      var v := RawValue(g.cfg, st.curr, s);
      assert EnvNow(g.cfg, st.curr)(s) == Shown(s, v);
      assert KindOf(s).Boolean? ==> v.tri != MOD;
    }
  }

  ghost predicate RightValue(g: Setting, st: State, s: Sym)
    requires ValidSetting(g) && g.ranked
  {
    s in g.cfg.defs && IsTyped(s) && s in st.curr && st.curr[s] == Val(g.cfg, g.rank, s)
  }

  ghost predicate RightChoice(g: Setting, st: State, s: Sym)
    requires ValidSetting(g) && g.ranked
  {
    IsChoice(g.cfg, s) ==> s in st.chosen && st.chosen[s] == Chosen(g.cfg, g.rank, s)
  }

  // Without cycles: what is VALID below rank `k` is right; the pick of a choice just below `k`
  // may still be open
  ghost predicate Level(g: Setting, st: State, k: nat)
    requires ValidSetting(g)
  {
    g.ranked ==> forall s | s in st.valid && g.rank(s) < k ::
      RightValue(g, st, s) && (g.rank(s) + 1 < k ==> RightChoice(g, st, s))
  }

  // Kept, resp. made VALID, resp. its visibility perhaps computed, between two states
  ghost predicate Same(a: State, b: State, s: Sym) {
    && s in a.curr && s in b.curr && s in a.chosen && s in b.chosen
    && b.curr[s] == a.curr[s] && b.chosen[s] == a.chosen[s]
  }

  ghost predicate Done(g: Setting, st: State, s: Sym, k: nat)
    requires ValidSetting(g) && g.ranked
  {
    g.rank(s) < k && RightValue(g, st, s) && RightChoice(g, st, s)
  }

  ghost predicate Seen(g: Setting, a: State, b: State, s: Sym)
    requires ValidSetting(g) && g.ranked && s in g.cfg.defs
  {
    && s in a.visible && s in b.visible
    && (b.visible[s] == a.visible[s] || b.visible[s] == Visible(g.cfg, g.rank, s))
  }

  // What an evaluation below rank `k` does to the state: what was VALID is kept, and what became
  // VALID is right; the symbols of `but` are left out of account
  ghost predicate GrownBut(g: Setting, a: State, b: State, but: set<Sym>, k: nat)
    requires ValidSetting(g)
  {
    && a.valid <= b.valid
    && (forall s | s in a.valid && s !in but :: Same(a, b, s))
    && (g.ranked ==> forall s | s in b.valid && s !in a.valid && s !in but :: Done(g, b, s, k))
    && (g.ranked ==> forall s | s in g.cfg.defs :: Seen(g, a, b, s))
  }

  ghost predicate Grown(g: Setting, a: State, b: State, k: nat)
    requires ValidSetting(g)
  {
    GrownBut(g, a, b, {}, k)
  }

  lemma GrownRefl(g: Setting, st: State, k: nat)
    requires Inv(g, st)
    ensures Grown(g, st, st, k)
  {
  }

  lemma GrownTrans(g: Setting, a: State, b: State, c: State, but: set<Sym>, j: nat, k: nat)
    requires Inv(g, a) && Inv(g, b) && Inv(g, c) && (g.ranked ==> j <= k)
    requires GrownBut(g, a, b, but, j) && GrownBut(g, b, c, but, k)
    ensures GrownBut(g, a, c, but, k)
  {
    hide Closed, Ranked, Val, Chosen, Visible;
    forall s | s in a.valid && s !in but
      ensures Same(a, c, s)
    {
      assert Same(a, b, s) && Same(b, c, s);
    }
    if g.ranked {
      GrownTransDone(g, a, b, c, but, j, k);
      forall s | s in g.cfg.defs
        ensures Seen(g, a, c, s)
      {
        assert Seen(g, a, b, s) && Seen(g, b, c, s);
      }
    }
  }

  lemma GrownTransDone(g: Setting, a: State, b: State, c: State, but: set<Sym>, j: nat, k: nat)
    requires Inv(g, a) && Inv(g, b) && Inv(g, c) && j <= k && g.ranked
    requires GrownBut(g, a, b, but, j) && GrownBut(g, b, c, but, k)
    ensures forall s | s in c.valid && s !in a.valid && s !in but :: Done(g, c, s, k)
  {
    hide Closed, Ranked, Val, Chosen, Visible;
    forall s | s in c.valid && s !in a.valid && s !in but
      ensures Done(g, c, s, k)
    {
      if s in b.valid {
        assert Done(g, b, s, j) && Same(b, c, s);
      }
    }
  }

  lemma GrownSome(g: Setting, a: State, b: State, but: set<Sym>, j: nat, k: nat)
    requires ValidSetting(g) && Grown(g, a, b, j) && (g.ranked ==> j <= k)
    ensures GrownBut(g, a, b, but, k)
  {
    hide Closed, Ranked, Val, Chosen, Visible;
    if g.ranked {
      forall s | s in b.valid && s !in a.valid
        ensures Done(g, b, s, k)
      {
        assert Done(g, b, s, j);
      }
    }
  }

  lemma GrownLevel(g: Setting, a: State, b: State, j: nat, k: nat)
    requires Inv(g, a) && Inv(g, b) && Grown(g, a, b, j) && Level(g, a, k)
    ensures Level(g, b, k)
    ensures Pending(g, b) <= Pending(g, a)
  {
    hide Closed, Ranked, Val, Chosen, Visible;
    if g.ranked {
      forall s | s in b.valid && g.rank(s) < k
        ensures RightValue(g, b, s) && (g.rank(s) + 1 < k ==> RightChoice(g, b, s))
      {
        if s in a.valid {
          assert Same(a, b, s);
        } else {
          assert Done(g, b, s, j);
        }
      }
    }
  }

  lemma OtherRight(g: Setting, a: State, b: State, s: Sym, x: Sym, j: nat, k: nat)
    requires Inv(g, a) && Inv(g, b) && GrownBut(g, a, b, {s}, j) && Level(g, a, k) && g.ranked
    requires x in b.valid && x != s && g.rank(x) < k
    ensures RightValue(g, b, x) && (g.rank(x) + 1 < k ==> RightChoice(g, b, x))
  {
    hide Closed, Ranked, Val, Chosen, Visible;
    if x in a.valid {
      assert Same(a, b, x);
    } else {
      assert Done(g, b, x, j);
    }
  }

  // While `s` itself is in the making: everything below it is right, and so is everything of its
  // own rank as soon as its value is
  lemma LevelBut(g: Setting, a: State, b: State, s: Sym, j: nat, k: nat)
    requires Inv(g, a) && Inv(g, b) && GrownBut(g, a, b, {s}, j) && Level(g, a, k)
    requires g.ranked ==> g.rank(s) < k
    ensures Full(g, b, g.rank(s)) && Level(g, b, g.rank(s))
  {
    hide Closed, Ranked, Val, Chosen, Visible;
    if g.ranked {
      forall x | x in b.valid && g.rank(x) < g.rank(s)
        ensures RightValue(g, b, x) && RightChoice(g, b, x)
      {
        OtherRight(g, a, b, s, x, j, k);
      }
    }
  }

  lemma LevelUp(g: Setting, a: State, b: State, s: Sym, j: nat, k: nat)
    requires Inv(g, a) && Inv(g, b) && GrownBut(g, a, b, {s}, j) && Level(g, a, k)
    requires g.ranked ==> g.rank(s) < k && RightValue(g, b, s)
    ensures Level(g, b, g.rank(s) + 1)
  {
    hide Closed, Ranked, Val, Chosen, Visible;
    if g.ranked {
      forall x | x in b.valid && g.rank(x) < g.rank(s) + 1
        ensures RightValue(g, b, x) && (g.rank(x) < g.rank(s) ==> RightChoice(g, b, x))
      {
        if x != s {
          OtherRight(g, a, b, s, x, j, k);
        }
      }
    }
  }

  // Everything VALID below rank `k` is right
  ghost predicate Full(g: Setting, st: State, k: nat)
    requires ValidSetting(g)
  {
    g.ranked ==> forall s | s in st.valid && g.rank(s) < k :: RightValue(g, st, s) && RightChoice(g, st, s)
  }

  // The steps of one symbol in the making: it becomes VALID, its value is written, it is done
  lemma MakeValid(g: Setting, a: State, s: Sym, k: nat)
    requires Inv(g, a) && s in g.cfg.defs && IsTyped(s) && s !in a.valid
    ensures var c := a.(valid := a.valid + {s});
      Inv(g, c) && GrownBut(g, a, c, {s}, k) && Pending(g, c) < Pending(g, a)
  {
    hide Closed, Ranked, Val, Chosen, Visible;
    var c := a.(valid := a.valid + {s});
    assert Pending(g, c) == Pending(g, a) - {s};
  }

  lemma WriteValue(g: Setting, a: State, b: State, s: Sym, v: Value, ch: MaybeSym, k: nat)
    requires Inv(g, b) && s in g.cfg.defs && (KindOf(s).Boolean? ==> v.tri != MOD)
    requires GrownBut(g, a, b, {s}, k)
    ensures var c := b.(curr := b.curr[s := v], chosen := b.chosen[s := ch]);
      Inv(g, c) && GrownBut(g, a, c, {s}, k) && Pending(g, c) == Pending(g, b)
  {
    WriteInv(g, b, s, v, ch);
    WriteGrown(g, a, b, b.(curr := b.curr[s := v], chosen := b.chosen[s := ch]), s, k);
    hide Closed, Ranked, Inv, GrownBut;
  }

  lemma WriteGrown(g: Setting, a: State, b: State, c: State, s: Sym, k: nat)
    requires Inv(g, b) && GrownBut(g, a, b, {s}, k)
    requires c.valid == b.valid && c.visible == b.visible
    requires forall x | x in b.curr && x in b.chosen && x != s :: Same(b, c, x)
    ensures GrownBut(g, a, c, {s}, k)
  {
    hide Closed, Ranked, Val, Chosen, Visible;
    forall x | x in a.valid && x != s
      ensures Same(a, c, x)
    {
      assert Same(a, b, x);
    }
    if g.ranked {
      WriteDone(g, a, b, c, s, k);
      forall x | x in g.cfg.defs
        ensures Seen(g, a, c, x)
      {
        assert Seen(g, a, b, x);
      }
    }
  }

  lemma WriteDone(g: Setting, a: State, b: State, c: State, s: Sym, k: nat)
    requires Inv(g, b) && GrownBut(g, a, b, {s}, k) && g.ranked && c.valid == b.valid
    requires forall x | x in b.curr && x in b.chosen && x != s :: Same(b, c, x)
    ensures forall x | x in c.valid && x !in a.valid && x != s :: Done(g, c, x, k)
  {
    hide Closed, Ranked, Val, Chosen, Visible;
    forall x | x in c.valid && x !in a.valid && x != s
      ensures Done(g, c, x, k)
    {
      assert Done(g, b, x, k) && Same(b, c, x);
    }
  }

  lemma WriteInv(g: Setting, b: State, s: Sym, v: Value, ch: MaybeSym)
    requires Inv(g, b) && s in g.cfg.defs && (KindOf(s).Boolean? ==> v.tri != MOD)
    ensures Inv(g, b.(curr := b.curr[s := v], chosen := b.chosen[s := ch]))
  {
    hide Closed, Ranked;
    assert b.curr.Keys + {s} == b.curr.Keys && b.chosen.Keys + {s} == b.chosen.Keys;
  }

  // One more evaluation in between
  lemma MakeNext(g: Setting, a: State, b: State, c: State, s: Sym, j: nat, k: nat)
    requires Inv(g, a) && Inv(g, b) && Inv(g, c) && Level(g, a, k)
    requires GrownBut(g, a, b, {s}, k) && Grown(g, b, c, j)
    requires g.ranked ==> j <= k && g.rank(s) < k
    ensures GrownBut(g, a, c, {s}, k)
    ensures Full(g, c, g.rank(s)) && Level(g, c, g.rank(s))
    ensures Pending(g, c) <= Pending(g, b) && b.valid <= c.valid
    ensures s in b.valid ==> Same(b, c, s)
    ensures g.ranked && s in g.cfg.defs ==> Seen(g, b, c, s)
  {
    GrownSome(g, b, c, {s}, j, k);
    GrownTrans(g, a, b, c, {s}, k, k);
    LevelBut(g, a, c, s, k, k);
    hide Closed, Ranked, Val, Chosen, Visible;
  }

  lemma GrownDone(g: Setting, a: State, c: State, s: Sym, k: nat)
    requires Inv(g, a) && Inv(g, c) && GrownBut(g, a, c, {s}, k)
    requires s in c.valid && s !in a.valid && (g.ranked ==> Done(g, c, s, k))
    ensures Grown(g, a, c, k)
  {
    hide Closed, Ranked, Val, Chosen, Visible;
  }

  // All symbols of an expression that have a type are VALID
  ghost predicate Settled(st: State, e: Expr) {
    forall s | Mentions(e, s) && IsTyped(s) :: s in st.valid
  }

  ghost predicate SettledDep(st: State, d: Dep) {
    d.When? ==> Settled(st, d.e)
  }

  lemma SettledKept(g: Setting, a: State, b: State, k: nat, d: Dep)
    requires Inv(g, a) && Inv(g, b) && Grown(g, a, b, k) && SettledDep(a, d)
    ensures SettledDep(b, d)
    ensures CalcDep(d, EnvNow(g.cfg, b.curr)) == CalcDep(d, EnvNow(g.cfg, a.curr))
  {
    hide Closed, Ranked, Val, Chosen, Visible;
    if d.When? {
      CalcAgree(d.e, EnvNow(g.cfg, b.curr), EnvNow(g.cfg, a.curr));
    }
  }

  // A settled expression has the value that the definition gives it
  lemma SettledRight(g: Setting, st: State, d: Dep, k: nat)
    requires Inv(g, st) && g.ranked && Level(g, st, k)
    requires SettledDep(st, d) && BelowDep(d, g.rank, k) && KnownDep(g.cfg, d)
    ensures CalcDep(d, EnvNow(g.cfg, st.curr)) == CalcDep(d, EnvBelow(g.cfg, g.rank, k))
  {
    if d.When? {
      var env, env' := EnvNow(g.cfg, st.curr), EnvBelow(g.cfg, g.rank, k);
      forall s | Mentions(d.e, s)
        ensures env(s) == env'(s)
      {
        BelowMentions(d.e, g.rank, k, s);
        KnownMentions(g.cfg, d.e, s);
        EnvAt(g.cfg, g.rank, k, s);
      }
      CalcAgree(d.e, env, env');
    }
  }

  lemma {:induction false} VisibleSettled(g: Setting, st: State, s: Sym, k: nat)
    requires Inv(g, st) && g.ranked && Level(g, st, k) && s in g.cfg.defs
    requires PromptsBelow(g.cfg, s, g.rank, k)
    requires forall p | p in g.cfg.defs[s].prompts :: SettledDep(st, p)
    ensures VisibleIn(g.cfg.defs[s].prompts, EnvNow(g.cfg, st.curr)) == Visible(g.cfg, g.rank, s)
  {
    var env, env' := EnvNow(g.cfg, st.curr), EnvBelow(g.cfg, g.rank, k);
    assert KnownDef(g.cfg, g.cfg.defs[s]);
    forall p | p in g.cfg.defs[s].prompts
      ensures CalcDep(p, env) == CalcDep(p, env')
    {
      SettledRight(g, st, p, k);
    }
    VisibleAgree(g.cfg.defs[s].prompts, env, env');
    VisibleAt(g.cfg, g.rank, s, k);
  }

  lemma KnownAt(g: Setting, st: State, s: Sym)
    requires Inv(g, st) && s in g.cfg.defs
    ensures KnownDef(g.cfg, g.cfg.defs[s]) && Known(g.cfg, g.cfg.modules)
    ensures g.ranked ==> RankedAt(g.cfg, s, g.rank)
  {
    hide KnownDef, RankedAt;
  }

  // ---------------------------------------------------------------- the evaluation

  class Evaluator {
    const cfg: Config
    ghost const g: Setting
    var valid: set<Sym>
    var curr: map<Sym, Value>
    var chosen: map<Sym, MaybeSym>  // `S_VAL(curr)` of a choice
    var visible: map<Sym, Tri>

    constructor (cfg: Config, ghost g: Setting)
      requires ValidSetting(g) && g.cfg == cfg
      ensures Ready(0) && valid == {} && this.cfg == cfg && this.g == g
    {
      this.cfg, this.g := cfg, g;
      valid := {};
      curr := map s | s in cfg.defs :: Value(NO, "");
      chosen := map s | s in cfg.defs :: NoSym;
      visible := map s | s in cfg.defs :: NO;
    }

    ghost function Now(): State
      reads this
    {
      State(valid, curr, chosen, visible)
    }

    ghost predicate Ready(k: nat)
      reads this
    {
      g.cfg == cfg && ValidSetting(g) && Inv(g, Now()) && Level(g, Now(), k)
    }

    function Raw(s: Sym): Value
      reads this
    {
      RawValue(cfg, curr, s)
    }

    // `expr_calc_value`
    method CalcExpr(e: Expr, ghost k: nat) returns (t: Tri)
      requires Ready(k) && KnownExpr(cfg, e) && (g.ranked ==> Below(e, g.rank, k))
      modifies this
      ensures Ready(k) && Grown(g, old(Now()), Now(), k)
      ensures Settled(Now(), e) && t == Calc(e, EnvNow(cfg, curr)) && valid >= old(valid)
      decreases Pending(g, Now()), 1, e
    {
      hide Inv, GrownBut, Level, ValidSetting;
      match e
      case Leaf(s) =>
        CalcValue(s, k);
        t := Raw(s).tri;
      case Not(x) =>
        var t1 := CalcExpr(x, k);
        t := 2 - t1;
      case Cmp(equal, a, b) =>
        CalcValue(a, k);
        ghost var mid := Now();
        CalcValue(b, k);
        GrownTrans(g, old(Now()), mid, Now(), {}, k, k);
        t := if equal == (Shown(a, Raw(a)).str == Shown(b, Raw(b)).str) then YES else NO;
      case Bin(op, l, r) =>
        var t1 := CalcExpr(l, k);
        ghost var mid := Now();
        GrownLevel(g, old(Now()), Now(), k, k);
        var t2 := CalcExpr(r, k);
        GrownTrans(g, old(Now()), mid, Now(), {}, k, k);
        SettledKept(g, mid, Now(), k, When(l));
        t := Meet(op, t1, t2);
    }

    method CalcDepValue(d: Dep, ghost k: nat) returns (t: Tri)
      requires Ready(k) && KnownDep(cfg, d) && (g.ranked ==> BelowDep(d, g.rank, k))
      modifies this
      ensures Ready(k) && Grown(g, old(Now()), Now(), k)
      ensures SettledDep(Now(), d) && t == CalcDep(d, EnvNow(cfg, curr))
      decreases Pending(g, Now()), 2
    {
      if d.Always? {
        GrownRefl(g, Now(), k);
        return YES;
      }
      t := CalcExpr(d.e, k);
    }

    // `sym_calc_visibility`
    method CalcVisibility(s: Sym, ghost k: nat)
      requires Ready(k) && s in cfg.defs && (g.ranked ==> PromptsBelow(cfg, s, g.rank, k))
      modifies this
      ensures Ready(k) && Grown(g, old(Now()), Now(), k)
      ensures forall p | p in cfg.defs[s].prompts :: SettledDep(Now(), p)
      ensures s in visible && visible[s] == VisibleIn(cfg.defs[s].prompts, EnvNow(cfg, curr))
      ensures g.ranked ==> visible[s] == Visible(cfg, g.rank, s)
      ensures valid >= old(valid)
      decreases Pending(g, Now()), 3
    {
      hide Inv, GrownBut, Level, ValidSetting;
      KnownAt(g, Now(), s);
      var prompts := cfg.defs[s].prompts;
      GrownRefl(g, Now(), k);
      var t := NO;
      var i := 0;
      while i < |prompts|
        invariant i <= |prompts|
        invariant Ready(k) && Grown(g, old(Now()), Now(), k)
        invariant forall j | 0 <= j < i :: SettledDep(Now(), prompts[j])
        invariant t == VisibleIn(prompts[..i], EnvNow(cfg, curr)) && valid >= old(valid)
        invariant Pending(g, Now()) <= old(Pending(g, Now()))
      {
        t := OnePrompt(prompts, i, t, k, old(Now()));
        i := i + 1;
      }
      assert prompts[..i] == prompts;
      if g.ranked {
        VisibleSettled(g, Now(), s, k);
      }
      ghost var mid := Now();
      visible := visible[s := t];
      VisibilitySet(g, old(Now()), mid, s, t, k);
    }

    // `E_OR(visible, E_CALC(prop->visible))`
    method OnePrompt(prompts: seq<Dep>, i: nat, before: Tri, ghost k: nat, ghost start: State) returns (t: Tri)
      requires Ready(k) && Inv(g, start) && Grown(g, start, Now(), k)
      requires i < |prompts| && KnownDep(cfg, prompts[i]) && (g.ranked ==> BelowDep(prompts[i], g.rank, k))
      requires forall j | 0 <= j < i :: SettledDep(Now(), prompts[j])
      requires before == VisibleIn(prompts[..i], EnvNow(cfg, curr))
      modifies this
      ensures Ready(k) && Grown(g, start, Now(), k)
      ensures forall j | 0 <= j < i + 1 :: SettledDep(Now(), prompts[j])
      ensures t == VisibleIn(prompts[..i + 1], EnvNow(cfg, curr))
      ensures Pending(g, Now()) <= old(Pending(g, Now())) && valid >= old(valid)
      decreases Pending(g, Now()), 3, 0
    {
      var one := CalcDepValue(prompts[i], k);
      forall p | p in prompts[..i]
        ensures SettledDep(Now(), p)
        ensures CalcDep(p, EnvNow(cfg, curr)) == CalcDep(p, old(EnvNow(cfg, curr)))
      {
        SettledKept(g, old(Now()), Now(), k, p);
      }
      VisibleAgree(prompts[..i], EnvNow(cfg, curr), old(EnvNow(cfg, curr)));
      GrownTrans(g, start, old(Now()), Now(), {}, k, k);
      GrownLevel(g, old(Now()), Now(), k, k);
      assert prompts[..i + 1][..i] == prompts[..i];
      t := Meet(Or, before, one);
    }

    // `sym_calc_value`
    method CalcValue(s: Sym, ghost k: nat)
      requires Ready(k) && Known(cfg, s) && (g.ranked ==> g.rank(s) < k)
      modifies this
      ensures Ready(k) && Grown(g, old(Now()), Now(), k)
      ensures (IsTyped(s) ==> s in valid) && valid >= old(valid)
      decreases Pending(g, Now()), 0
    {
      GrownRefl(g, Now(), k);
      if IsTyped(s) && s !in valid {
        Make(s, k);
        hide Inv, Level, GrownBut;
        GrownLevel(g, old(Now()), Now(), k, k);
      }
    }

    // The body of `sym_calc_value` for a symbol with a type that is not VALID yet
    method Make(s: Sym, ghost k: nat)
      requires Ready(k) && s in cfg.defs && IsTyped(s) && s !in valid && (g.ranked ==> g.rank(s) < k)
      modifies this
      ensures Inv(g, Now()) && Grown(g, old(Now()), Now(), k) && s in valid && valid >= old(valid)
      decreases Pending(g, Now()), 0, 2
    {
      hide Inv, Level, GrownBut, Made;
      MakeValue(s, k);
      ghost var mid := Now();
      if cfg.defs[s].choice && curr[s].tri == YES {
        LevelMade(g, old(Now()), mid, s, k);
        var p := Choose(s, g.rank(s) + 1);
        FinishChoice(g, old(Now()), mid, Now(), s, p, k);
        chosen := chosen[s := p];
      } else {
        FinishPlain(g, old(Now()), mid, s, k);
      }
    }

    // Everything but the pick of a choice
    method MakeValue(s: Sym, ghost k: nat)
      requires Ready(k) && s in cfg.defs && IsTyped(s) && s !in valid && (g.ranked ==> g.rank(s) < k)
      modifies this
      ensures ValidSetting(g) && Inv(g, Now()) && GrownBut(g, old(Now()), Now(), {s}, k)
      ensures s in valid && valid >= old(valid) && s in curr
      ensures g.ranked ==> Made(g, Now(), s)
      ensures Pending(g, Now()) < old(Pending(g, Now()))
      decreases Pending(g, Now()), 0, 1
    {
      hide Inv, Level, GrownBut, Made, Full, Seen;
      MakeVisible(s, k);
      ghost var b := Now();
      var v, ch := Want(s, g.rank(s));
      MakeNext(g, old(Now()), b, Now(), s, g.rank(s), k);
      ghost var c := Now();
      SeenAgain(g, b, c, s);
      v := Adjust(s, v, g.rank(s));
      MakeNext(g, old(Now()), c, Now(), s, g.rank(s), k);
      WriteValue(g, old(Now()), Now(), s, v, ch, k);
      curr, chosen := curr[s := v], chosen[s := ch];
      if g.ranked {
        MakeMade(g, Now(), s);
      }
    }

    // The symbol is VALID now, its visibility is computed, and it is "n" or empty for whoever asks
    // for it in the meantime
    method MakeVisible(s: Sym, ghost k: nat)
      requires Ready(k) && s in cfg.defs && IsTyped(s) && s !in valid && (g.ranked ==> g.rank(s) < k)
      modifies this
      ensures ValidSetting(g) && Inv(g, Now()) && GrownBut(g, old(Now()), Now(), {s}, k)
      ensures s in valid && valid >= old(valid)
      ensures Ready(g.rank(s)) && Full(g, Now(), g.rank(s)) && InTheMaking(s)
      ensures Pending(g, Now()) < old(Pending(g, Now()))
      decreases Pending(g, Now()), 0, 0
    {
      hide Inv, Level, GrownBut, Full, Seen;
      MakeValid(g, Now(), s, k);
      KnownAt(g, Now(), s);
      valid := valid + {s};
      ghost var a := Now();
      LevelBut(g, old(Now()), a, s, k, k);
      CalcVisibility(s, g.rank(s));
      MakeNext(g, old(Now()), a, Now(), s, g.rank(s), k);
      ghost var b := Now();
      WriteValue(g, old(Now()), b, s, Blank(s), NoSym, k);
      curr, chosen := curr[s := Blank(s)], chosen[s := NoSym];
      forall p | p in cfg.defs[s].prompts
        ensures SettledDep(Now(), p)
      {
        SettledMore(b, Now(), p);
      }
      LevelBut(g, old(Now()), Now(), s, k, k);
    }

    // The visibility is known, and the conditions it was computed from are
    ghost predicate InTheMaking(s: Sym)
      reads this
    {
      && s in cfg.defs && s in visible && IsTyped(s) && g.cfg == cfg && ValidSetting(g)
      && (forall p | p in cfg.defs[s].prompts :: SettledDep(Now(), p))
      && (g.ranked ==> visible[s] == Visible(cfg, g.rank, s))
    }

    // The value before the type is taken into account
    method Want(s: Sym, ghost k: nat) returns (v: Value, ch: MaybeSym)
      requires Ready(k) && Full(g, Now(), k) && InTheMaking(s) && s in valid && k == g.rank(s)
      modifies this
      ensures Ready(k) && Grown(g, old(Now()), Now(), k) && valid >= old(valid)
      ensures g.ranked ==> v == WantedBelow(cfg, g.rank, s)
      ensures g.ranked && IsChoice(cfg, s) ==> ch == OpenChoice(cfg, g.rank, s)
      decreases Pending(g, Now()), 4
    {
      hide Inv, Level, GrownBut, Full, Seen;
      var d := cfg.defs[s];
      v, ch := Blank(s), NoSym;
      GrownRefl(g, Now(), k);
      ghost var start := Now();
      if visible[s] != NO {
        if d.hasValue {
          v, ch := d.user, d.userChoice;
        } else if !d.choice {
          v := ByDefault(s, k);
          SeenNow(g, start, Now(), s, k);
        }
        var t := Meet(And, v.tri, visible[s]);
        if !d.optional && t == NO {
          t := visible[s];
        }
        if d.memberOf.HasSym? && visible[s] == YES {
          PickedRight(g, start, Now(), s, k);
          t := if chosen[d.memberOf.sym] == HasSym(s) then YES else NO;
        }
        v := Value(t, v.str);
      } else {
        v := ByDefault(s, k);
      }
    }

    // The value by the first enabled default
    method ByDefault(s: Sym, ghost k: nat) returns (v: Value)
      requires Ready(k) && s in cfg.defs && IsTyped(s) && k == g.rank(s)
      requires g.ranked && cfg.defs[s].choice ==> Visible(cfg, g.rank, s) == NO
      modifies this
      ensures Ready(k) && Grown(g, old(Now()), Now(), k) && valid >= old(valid)
      ensures g.ranked ==> v == DefaultBelow(cfg, g.rank, s)
      decreases Pending(g, Now()), 4, 1
    {
      hide Inv, Level, GrownBut, Full, Seen, Closed, Ranked;
      var i := FindDefault(s, k);
      ghost var mid := Now();
      DefaultKnown(g, mid, s, i);
      if i < |cfg.defs[s].defaults| {
        var f := cfg.defs[s].defaults[i].sym;
        GrownLevel(g, old(Now()), mid, k, k);
        CalcValue(f, k);
        GrownTrans(g, old(Now()), mid, Now(), {}, k, k);
        v := Raw(f);
        if g.ranked {
          RawRight(g, Now(), f, k);
        }
      } else {
        v := Blank(s);
      }
    }

    // `sym_get_default_prop`: how many defaults are not enabled before the first one that is
    method FindDefault(s: Sym, ghost k: nat) returns (i: nat)
      requires Ready(k) && s in cfg.defs && IsTyped(s) && k == g.rank(s)
      modifies this
      ensures Ready(k) && Grown(g, old(Now()), Now(), k) && valid >= old(valid)
      ensures i <= |cfg.defs[s].defaults|
      ensures g.ranked ==> FoundDefault(cfg.defs[s], EnvBelow(cfg, g.rank, k), i)
      decreases Pending(g, Now()), 4, 0
    {
      hide Inv, Level, GrownBut, Full, Seen, Closed, Ranked;
      var defaults := cfg.defs[s].defaults;
      KnownAt(g, Now(), s);
      GrownRefl(g, Now(), k);
      i := 0;
      while i < |defaults|
        invariant i <= |defaults|
        invariant Ready(k) && Grown(g, old(Now()), Now(), k) && valid >= old(valid)
        invariant Pending(g, Now()) <= old(Pending(g, Now()))
        invariant g.ranked ==> forall j | 0 <= j < i :: CalcDep(defaults[j].cond, EnvBelow(cfg, g.rank, k)) == NO
      {
        var t := OneCondition(defaults[i].cond, k, old(Now()));
        if t != NO {
          break;
        }
        i := i + 1;
      }
      if g.ranked {
        DefaultAt(defaults, EnvBelow(cfg, g.rank, k), i);
      }
    }

    // `E_CALC(prop->visible)`
    method OneCondition(d: Dep, ghost k: nat, ghost start: State) returns (t: Tri)
      requires Ready(k) && Inv(g, start) && Grown(g, start, Now(), k)
      requires KnownDep(cfg, d) && (g.ranked ==> BelowDep(d, g.rank, k))
      modifies this
      ensures Ready(k) && Grown(g, start, Now(), k) && valid >= old(valid)
      ensures g.ranked ==> t == CalcDep(d, EnvBelow(cfg, g.rank, k))
      ensures Pending(g, Now()) <= old(Pending(g, Now()))
      decreases Pending(g, Now()), 3, 0
    {
      hide Inv, Level, Full, Seen, Closed, Ranked;
      t := CalcDepValue(d, k);
      GrownTrans(g, start, old(Now()), Now(), {}, k, k);
      GrownLevel(g, old(Now()), Now(), k, k);
      if g.ranked {
        SettledRight(g, Now(), d, k);
      }
    }

    // The switch on `sym_get_type`
    method Adjust(s: Sym, v: Value, ghost k: nat) returns (r: Value)
      requires Ready(k) && s in cfg.defs && s in visible && IsTyped(s) && k == g.rank(s)
      requires g.ranked ==> visible[s] == Visible(cfg, g.rank, s) && v == WantedBelow(cfg, g.rank, s)
      modifies this
      ensures Ready(k) && Grown(g, old(Now()), Now(), k) && valid >= old(valid)
      ensures KindOf(s).Boolean? ==> r.tri != MOD
      ensures g.ranked ==> r == Val(cfg, g.rank, s)
      decreases Pending(g, Now()), 4
    {
      hide Inv, Level, GrownBut, Full, Seen, Closed, Ranked;
      var d := cfg.defs[s];
      GrownRefl(g, Now(), k);
      KnownAt(g, Now(), s);
      r := v;
      var kind := KindOf(s);
      if kind.Tristate? {
        if d.memberOf.HasSym? && visible[s] == YES {
          kind := Boolean;
        } else {
          CalcValue(cfg.modules, k);
          if g.ranked {
            RawRight(g, Now(), cfg.modules, k);
          }
          if Raw(cfg.modules).tri == NO {
            kind := Boolean;
          }
        }
      }
      if kind.Boolean? && r.tri == MOD {
        r := Value(YES, r.str);
      }
      if g.ranked {
        ValIsTyped(cfg, g.rank, s);
      }
    }

    // What a choice that is yes picks: the member the user chose, the first enabled default, or
    // the first member, if it is visible
    method Choose(s: Sym, ghost k: nat) returns (p: MaybeSym)
      requires Ready(k) && s in cfg.defs && cfg.defs[s].choice && (g.ranked ==> k == g.rank(s) + 1)
      modifies this
      ensures Ready(k) && Grown(g, old(Now()), Now(), k) && valid >= old(valid)
      ensures g.ranked ==> p == Pick(cfg, cfg.defs[s], EnvBelow(cfg, g.rank, k))
      decreases Pending(g, Now()), 7
    {
      hide Inv, Level, GrownBut, Full, Seen, Closed, Ranked;
      var d := cfg.defs[s];
      KnownAt(g, Now(), s);
      GrownRefl(g, Now(), k);
      GrownLevel(g, Now(), Now(), k, k);
      p := NoSym;
      if d.userChoice.HasSym? {
        var b := OneSelectable(d.userChoice.sym, k, old(Now()));
        if b {
          return d.userChoice;
        }
      }
      if g.ranked {
        forall f | f in d.defaults && f.cond.When?
          ensures Below(f.cond.e, g.rank, k)
        {
          BelowMore(f.cond.e, g.rank, g.rank(s), k);
        }
      }
      p := ChooseDefault(d, k, old(Now()));
      if p == NoSym {
        p := ChooseMember(d, k, old(Now()));
      }
    }

    method ChooseDefault(d: Def, ghost k: nat, ghost start: State) returns (p: MaybeSym)
      requires Ready(k) && Inv(g, start) && Grown(g, start, Now(), k)
      requires forall f | f in d.defaults :: KnownDep(cfg, f.cond)
      requires g.ranked ==> forall f | f in d.defaults ::
        BelowDep(f.cond, g.rank, k) && PromptsBelow(cfg, f.sym, g.rank, k)
      modifies this
      ensures Ready(k) && Grown(g, start, Now(), k) && valid >= old(valid)
      ensures g.ranked ==> p == PickDefault(cfg, d.defaults, EnvBelow(cfg, g.rank, k))
      ensures Pending(g, Now()) <= old(Pending(g, Now()))
      decreases Pending(g, Now()), 5
    {
      hide Inv, Level, GrownBut, Full, Seen, Closed, Ranked;
      ghost var env := if g.ranked then EnvBelow(cfg, g.rank, k) else EnvNow(cfg, curr);
      var i := 0;
      while i < |d.defaults|
        invariant i <= |d.defaults|
        invariant Ready(k) && Grown(g, start, Now(), k) && valid >= old(valid)
        invariant Pending(g, Now()) <= old(Pending(g, Now()))
        invariant g.ranked ==> PickDefault(cfg, d.defaults, env) == PickDefault(cfg, d.defaults[i..], env)
      {
        var t := OneCondition(d.defaults[i].cond, k, start);
        if t != NO {
          var b := OneSelectable(d.defaults[i].sym, k, start);
          if b {
            return HasSym(d.defaults[i].sym);
          }
        }
        i := i + 1;
      }
      p := NoSym;
    }

    method ChooseMember(d: Def, ghost k: nat, ghost start: State) returns (p: MaybeSym)
      requires Ready(k) && Inv(g, start) && Grown(g, start, Now(), k)
      requires g.ranked ==> forall m | m in d.members :: PromptsBelow(cfg, m, g.rank, k)
      modifies this
      ensures Ready(k) && Grown(g, start, Now(), k) && valid >= old(valid)
      ensures g.ranked ==> p == PickMember(cfg, d.members, EnvBelow(cfg, g.rank, k))
      decreases Pending(g, Now()), 5
    {
      hide Inv, Level, GrownBut, Full, Seen, Closed, Ranked;
      ghost var env := if g.ranked then EnvBelow(cfg, g.rank, k) else EnvNow(cfg, curr);
      var i := 0;
      while i < |d.members|
        invariant i <= |d.members|
        invariant Ready(k) && Grown(g, start, Now(), k) && valid >= old(valid)
        invariant Pending(g, Now()) <= old(Pending(g, Now()))
        invariant g.ranked ==> PickMember(cfg, d.members, env) == PickMember(cfg, d.members[i..], env)
      {
        var b := OneSelectable(d.members[i], k, start);
        if b {
          return HasSym(d.members[i]);
        }
        i := i + 1;
      }
      p := NoSym;
    }

    // `sym_calc_visibility(s); s->visible != no`; a symbol without an entry has no prompts
    method OneSelectable(s: Sym, ghost k: nat, ghost start: State) returns (b: bool)
      requires Ready(k) && Inv(g, start) && Grown(g, start, Now(), k)
      requires g.ranked ==> PromptsBelow(cfg, s, g.rank, k)
      modifies this
      ensures Ready(k) && Grown(g, start, Now(), k) && valid >= old(valid)
      ensures g.ranked ==> b == Selectable(cfg, s, EnvBelow(cfg, g.rank, k))
      ensures Pending(g, Now()) <= old(Pending(g, Now()))
      decreases Pending(g, Now()), 4
    {
      hide Inv, Level, Full, Seen, Closed, Ranked, GrownBut;
      GrownRefl(g, Now(), k);
      GrownLevel(g, Now(), Now(), k, k);
      if s !in cfg.defs {
        return false;
      }
      CalcVisibility(s, k);
      GrownTrans(g, start, old(Now()), Now(), {}, k, k);
      GrownLevel(g, old(Now()), Now(), k, k);
      if g.ranked {
        VisibleAt(cfg, g.rank, s, k);
      }
      b := visible[s] != NO;
    }

    // Between evaluations: without cycles, everything VALID is right
    ghost predicate Consistent()
      reads this
    {
      && g.cfg == cfg && ValidSetting(g) && Inv(g, Now())
      && (g.ranked ==> forall s | s in valid :: RightValue(g, Now(), s) && RightChoice(g, Now(), s))
    }

    // The value of any symbol at any time is the one the definition gives it, whatever was asked
    // for before; without the ranking it still ends, and no boolean symbol is mod. The assignment is
    // always well-typed, so what is proved of rewritten expressions holds for what is evaluated here.
    method Query(s: Sym) returns (v: Value)
      requires Consistent() && Known(cfg, s)
      modifies this
      ensures Consistent() && valid >= old(valid) && (IsTyped(s) ==> s in valid)
      ensures g.ranked ==> v == ValueOf(cfg, g.rank, s)
      ensures KindOf(s).Boolean? ==> v.tri != MOD
      ensures WellTyped(EnvNow(cfg, curr))
      ensures forall x | x in old(valid) :: x in curr && x in old(curr) && curr[x] == old(curr)[x]
    {
      ghost var k := g.rank(s) + 1;
      CalcValue(s, k);
      v := Raw(s);
      StillConsistent(g, old(Now()), Now(), k);
      EnvNowTyped(g, Now());
      hide Val, Chosen, Closed, Ranked;
    }
  }

  ghost predicate FoundDefault(d: Def, env: Env, i: nat) {
    && i <= |d.defaults|
    && DefaultIn(d.defaults, env) == if i < |d.defaults| then HasSym(d.defaults[i].sym) else NoSym
  }

  // The default found may be evaluated: its rank is lower, and a hidden choice has none
  lemma DefaultKnown(g: Setting, st: State, s: Sym, i: nat)
    requires Inv(g, st) && s in g.cfg.defs && i <= |g.cfg.defs[s].defaults|
    requires g.ranked && g.cfg.defs[s].choice ==> Visible(g.cfg, g.rank, s) == NO
    requires g.ranked ==> FoundDefault(g.cfg.defs[s], EnvBelow(g.cfg, g.rank, g.rank(s)), i)
    ensures i < |g.cfg.defs[s].defaults| ==> Known(g.cfg, g.cfg.defs[s].defaults[i].sym)
    ensures g.ranked && i < |g.cfg.defs[s].defaults| ==> g.rank(g.cfg.defs[s].defaults[i].sym) < g.rank(s)
  {
    hide Closed, Ranked;
    KnownAt(g, st, s);
    var d := g.cfg.defs[s];
    if g.ranked && d.choice {
      EnvBelowTyped(g.cfg, g.rank, g.rank(s));
      assert VisibleIn(d.prompts, EnvBelow(g.cfg, g.rank, g.rank(s))) == NO;
    }
  }

  lemma RawRight(g: Setting, st: State, s: Sym, k: nat)
    requires Inv(g, st) && g.ranked && Level(g, st, k) && Known(g.cfg, s) && g.rank(s) < k
    requires IsTyped(s) ==> s in st.valid
    ensures RawValue(g.cfg, st.curr, s) == RawBelow(g.cfg, g.rank, k)(s)
  {
    EnvAt(g.cfg, g.rank, k, s);
    hide Closed, Ranked, Val;
  }

  lemma StillConsistent(g: Setting, a: State, b: State, k: nat)
    requires ValidSetting(g) && Grown(g, a, b, k)
    requires g.ranked ==> forall s | s in a.valid :: RightValue(g, a, s) && RightChoice(g, a, s)
    ensures g.ranked ==> forall s | s in b.valid :: RightValue(g, b, s) && RightChoice(g, b, s)
    ensures forall s | s in a.valid :: Same(a, b, s)
  {
    hide Closed, Ranked, Val, Chosen, Visible;
    if g.ranked {
      forall s | s in b.valid
        ensures RightValue(g, b, s) && RightChoice(g, b, s)
      {
        if s in a.valid {
          assert Same(a, b, s);
        } else {
          assert Done(g, b, s, k);
        }
      }
    }
  }

  ghost function OpenChoice(c: Config, rank: Sym -> nat, s: Sym): MaybeSym
    requires Ranked(c, rank) && s in c.defs
  {
    if Visible(c, rank, s) != NO && c.defs[s].hasValue then c.defs[s].userChoice else NoSym
  }

  ghost function DefaultBelow(c: Config, rank: Sym -> nat, s: Sym): Value
    requires Ranked(c, rank) && s in c.defs
  {
    var f := DefaultIn(c.defs[s].defaults, EnvBelow(c, rank, rank(s)));
    if f.HasSym? then RawBelow(c, rank, rank(s))(f.sym) else Blank(s)
  }

  lemma MakeMade(g: Setting, st: State, s: Sym)
    requires Inv(g, st) && g.ranked && s in g.cfg.defs && IsTyped(s)
    requires st.curr[s] == Val(g.cfg, g.rank, s)
    requires IsChoice(g.cfg, s) ==> st.chosen[s] == OpenChoice(g.cfg, g.rank, s)
    ensures Made(g, st, s)
  {
    hide Closed, Ranked, Val;
  }

  lemma SettledMore(a: State, b: State, d: Dep)
    requires SettledDep(a, d) && a.valid <= b.valid
    ensures SettledDep(b, d)
  {
  }

  lemma SeenNow(g: Setting, a: State, b: State, s: Sym, k: nat)
    requires Inv(g, a) && Inv(g, b) && Grown(g, a, b, k) && s in g.cfg.defs
    requires g.ranked ==> a.visible[s] == Visible(g.cfg, g.rank, s)
    ensures s in b.visible && (g.ranked ==> b.visible[s] == Visible(g.cfg, g.rank, s))
  {
    hide Closed, Ranked, Visible;
    assert g.ranked ==> Seen(g, a, b, s);
  }

  // A member that can be yes has asked for its choice, and what the choice has picked is final
  lemma PickedRight(g: Setting, a: State, b: State, s: Sym, k: nat)
    requires Inv(g, a) && Inv(g, b) && Grown(g, a, b, k) && Full(g, a, k) && s in g.cfg.defs && k == g.rank(s)
    requires g.cfg.defs[s].memberOf.HasSym?
    requires forall p | p in g.cfg.defs[s].prompts :: SettledDep(a, p)
    ensures IsChoice(g.cfg, g.cfg.defs[s].memberOf.sym)
    ensures g.cfg.defs[s].memberOf.sym in b.chosen
    ensures g.ranked && Visible(g.cfg, g.rank, s) == YES ==>
      b.chosen[g.cfg.defs[s].memberOf.sym] == Chosen(g.cfg, g.rank, g.cfg.defs[s].memberOf.sym)
  {
    KnownAt(g, a, s);
    var d := g.cfg.defs[s];
    var c := d.memberOf.sym;
    hide Closed, Ranked, Val, Chosen, RightValue;
    assert c in b.chosen;
    hide Inv;
    if g.ranked && Visible(g.cfg, g.rank, s) == YES {
      assert d.prompts != [];
      var p := d.prompts[0];
      hide Visible;
      assert Contains(p, c) && SettledDep(a, p);
      assert c in a.valid && Same(a, b, c);
      assert RightChoice(g, a, c);
    }
  }

  lemma SeenAgain(g: Setting, b: State, c: State, s: Sym)
    requires ValidSetting(g) && s in g.cfg.defs && s in b.visible && Inv(g, c)
    requires g.ranked ==> b.visible[s] == Visible(g.cfg, g.rank, s) && Seen(g, b, c, s)
    ensures s in c.visible && (g.ranked ==> c.visible[s] == Visible(g.cfg, g.rank, s))
  {
    hide Closed, Ranked, Visible;
  }

  // A symbol with its value, and the pick of a choice unless that is still to be made
  ghost predicate Made(g: Setting, st: State, s: Sym)
    requires ValidSetting(g) && g.ranked
  {
    && RightValue(g, st, s)
    && (IsChoice(g.cfg, s) && st.curr[s].tri != YES ==> RightChoice(g, st, s))
  }

  lemma LevelMade(g: Setting, a: State, mid: State, s: Sym, k: nat)
    requires Inv(g, a) && Inv(g, mid) && Level(g, a, k) && GrownBut(g, a, mid, {s}, k)
    requires g.ranked ==> g.rank(s) < k && Made(g, mid, s)
    ensures Level(g, mid, g.rank(s) + 1)
  {
    hide Inv, Level, GrownBut, RightValue, RightChoice;
    LevelUp(g, a, mid, s, k, k);
  }

  lemma FinishPlain(g: Setting, a: State, mid: State, s: Sym, k: nat)
    requires Inv(g, a) && Inv(g, mid) && GrownBut(g, a, mid, {s}, k) && s in mid.valid && s !in a.valid
    requires g.ranked ==> g.rank(s) < k && Made(g, mid, s)
    requires s in mid.curr && s in g.cfg.defs && !(g.cfg.defs[s].choice && mid.curr[s].tri == YES)
    ensures Grown(g, a, mid, k)
  {
    hide Inv, Level, GrownBut, Val, Chosen, Closed, Ranked;
    GrownDone(g, a, mid, s, k);
  }

  lemma FinishChoice(g: Setting, a: State, mid: State, c: State, s: Sym, p: MaybeSym, k: nat)
    requires Inv(g, a) && Inv(g, mid) && Inv(g, c) && Level(g, a, k)
    requires GrownBut(g, a, mid, {s}, k) && Grown(g, mid, c, g.rank(s) + 1)
    requires s in mid.valid && s !in a.valid && s in mid.curr && s in g.cfg.defs
    requires IsTyped(s) && g.cfg.defs[s].choice && mid.curr[s].tri == YES
    requires g.ranked ==> g.rank(s) < k && Made(g, mid, s)
    requires g.ranked ==> p == Pick(g.cfg, g.cfg.defs[s], EnvBelow(g.cfg, g.rank, g.rank(s) + 1))
    ensures var d := c.(chosen := c.chosen[s := p]); Inv(g, d) && Grown(g, a, d, k)
    ensures mid.valid <= c.valid
  {
    hide Inv, Level, GrownBut, Val, Closed, Ranked;
    MakeNext(g, a, mid, c, s, g.rank(s) + 1, k);
    WriteChoice(g, a, c, s, p, k);
    GrownDone(g, a, c.(chosen := c.chosen[s := p]), s, k);
  }

  lemma WriteChoice(g: Setting, a: State, b: State, s: Sym, p: MaybeSym, k: nat)
    requires Inv(g, b) && s in g.cfg.defs && GrownBut(g, a, b, {s}, k)
    requires g.ranked ==> RightValue(g, b, s)
    ensures var c := b.(chosen := b.chosen[s := p]);
      && Inv(g, c) && GrownBut(g, a, c, {s}, k)
      && (g.ranked ==> RightValue(g, c, s))
  {
    WriteValue(g, a, b, s, b.curr[s], p, k);
    assert b.curr[s := b.curr[s]] == b.curr;
  }

  lemma VisibilitySet(g: Setting, a: State, b: State, s: Sym, t: Tri, k: nat)
    requires Inv(g, a) && Inv(g, b) && Grown(g, a, b, k) && Level(g, b, k) && s in g.cfg.defs
    requires g.ranked ==> t == Visible(g.cfg, g.rank, s)
    ensures var c := b.(visible := b.visible[s := t]); Inv(g, c) && Grown(g, a, c, k) && Level(g, c, k)
  {
    hide Level, GrownBut;
    var c := b.(visible := b.visible[s := t]);
    InvVisible(g, b, s, t);
    GrownSameValues(g, a, b, c, k);
    LevelSameValues(g, b, c, k);
  }

  lemma InvVisible(g: Setting, b: State, s: Sym, t: Tri)
    requires Inv(g, b) && s in g.cfg.defs
    ensures Inv(g, b.(visible := b.visible[s := t]))
  {
    assert b.visible.Keys + {s} == b.visible.Keys;
    hide Closed, Ranked;
  }

  lemma GrownSameValues(g: Setting, a: State, b: State, c: State, k: nat)
    requires ValidSetting(g) && Grown(g, a, b, k)
    requires c.valid == b.valid && c.curr == b.curr && c.chosen == b.chosen && c.visible.Keys == b.visible.Keys
    requires g.ranked ==> forall x | x in g.cfg.defs :: Seen(g, b, c, x)
    ensures Grown(g, a, c, k)
  {
    hide Closed, Ranked, Val, Chosen, Visible;
    forall x | x in a.valid
      ensures Same(a, c, x)
    {
      assert Same(a, b, x);
    }
    if g.ranked {
      forall x | x in c.valid && x !in a.valid
        ensures Done(g, c, x, k)
      {
        assert Done(g, b, x, k);
      }
      forall x | x in g.cfg.defs
        ensures Seen(g, a, c, x)
      {
        assert Seen(g, a, b, x) && Seen(g, b, c, x);
      }
    }
  }

  lemma LevelSameValues(g: Setting, b: State, c: State, k: nat)
    requires ValidSetting(g) && Level(g, b, k)
    requires c.valid == b.valid && c.curr == b.curr && c.chosen == b.chosen
    ensures Level(g, c, k)
  {
    hide Closed, Ranked, Val, Chosen, Visible;
  }
}
