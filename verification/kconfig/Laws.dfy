/** What the value of a symbol is (`sym_calc_value` of `config/symbol.c`), case by case and in terms of
    other values only: user's values, defaults, hidden symbols, choices and what they pick.
 */
module KLaws {
  import opened KExpr
  import opened KCompare
  import opened KForest
  import opened KConfig

  // The type in force has no m: of a boolean symbol, of any when there are no modules, and of a member
  // of a choice that is fully visible
  ghost predicate TwoValuedNow(c: Config, rank: Sym -> nat, s: Sym)
    requires Ranked(c, rank) && s in c.defs
  {
    KindOf(s) == Boolean || (KindOf(s) == Tristate &&
      (ValueOf(c, rank, c.modules).tri == NO || (c.defs[s].memberOf.HasSym? && Visible(c, rank, s) == YES)))
  }

  // A value `t` that a visible symbol asks for: not above its visibility, raised to it from n when n
  // cannot be chosen
  function Bounded(t: Tri, visible: Tri, optional: bool): Tri {
    if t == NO || visible == NO then (if optional then NO else visible) else if t < visible then t else visible
  }

  function WithoutMod(t: Tri, two: bool): Tri {
    if two && t == MOD then YES else t
  }

  // The default that counts is the first whose condition is not n
  ghost predicate FirstEnabled(defaults: seq<Default>, env: Env, k: nat) {
    && k < |defaults| && CalcDep(defaults[k].cond, env) != NO
    && forall i | 0 <= i < k :: CalcDep(defaults[i].cond, env) == NO
  }

  ghost predicate NoneEnabled(defaults: seq<Default>, env: Env) {
    forall i | 0 <= i < |defaults| :: CalcDep(defaults[i].cond, env) == NO
  }

  lemma {:induction false} DefaultIsFirst(defaults: seq<Default>, env: Env, k: nat)
    requires FirstEnabled(defaults, env, k)
    ensures DefaultIn(defaults, env) == HasSym(defaults[k].sym)
  {
    if k > 0 {
      assert CalcDep(defaults[0].cond, env) == NO;
      forall i | 0 <= i < k - 1
        ensures CalcDep(defaults[1..][i].cond, env) == NO
      {
        assert defaults[1..][i] == defaults[i + 1];
      }
      DefaultIsFirst(defaults[1..], env, k - 1);
    }
  }

  lemma {:induction false} DefaultIsNone(defaults: seq<Default>, env: Env)
    requires NoneEnabled(defaults, env)
    ensures DefaultIn(defaults, env) == NoSym
  {
    if defaults != [] {
      assert CalcDep(defaults[0].cond, env) == NO;
      forall i | 0 <= i < |defaults| - 1
        ensures CalcDep(defaults[1..][i].cond, env) == NO
      {
        assert defaults[1..][i] == defaults[i + 1];
      }
      DefaultIsNone(defaults[1..], env);
    }
  }

  // The visibility is the largest value of a prompt's condition
  lemma {:induction false} VisibleIsMost(prompts: seq<Dep>, env: Env)
    ensures forall p | p in prompts :: CalcDep(p, env) <= VisibleIn(prompts, env)
    ensures VisibleIn(prompts, env) != NO ==> exists p :: p in prompts && CalcDep(p, env) == VisibleIn(prompts, env)
  {
    if prompts != [] {
      var n := |prompts| - 1;
      VisibleIsMost(prompts[..n], env);
      assert prompts == prompts[..n] + [prompts[n]];
      if VisibleIn(prompts, env) != NO {
        if VisibleIn(prompts, env) == CalcDep(prompts[n], env) {
          assert prompts[n] in prompts;
        } else {
          var p :| p in prompts[..n] && CalcDep(p, env) == VisibleIn(prompts[..n], env);
          assert p in prompts;
        }
      }
    }
  }

  // ---------------------------------------------------------------- plain symbols

  // The first default of a symbol that is no choice ranks below it
  lemma DefaultValue(c: Config, rank: Sym -> nat, s: Sym, k: nat)
    requires Ranked(c, rank) && s in c.defs && IsTyped(s) && !c.defs[s].choice
    requires FirstEnabled(c.defs[s].defaults, EnvBelow(c, rank, rank(s)), k)
    ensures RawBelow(c, rank, rank(s))(c.defs[s].defaults[k].sym) == ValueOf(c, rank, c.defs[s].defaults[k].sym)
  {
    hide RawBelow, EnvBelow, Val;
    assert RankedAt(c, s, rank) && c.defs[s].defaults[k] in c.defs[s].defaults;
    EnvAt(c, rank, rank(s), c.defs[s].defaults[k].sym);
  }

  // The type in force is the one that evaluation goes by
  lemma TypeInForce(c: Config, rank: Sym -> nat, s: Sym, v: Value)
    requires Ranked(c, rank) && s in c.defs && IsTyped(s)
    ensures var kind := TypeNow(s, c.defs[s], Visible(c, rank, s), RawBelow(c, rank, rank(s))(c.modules).tri);
      Typed(kind, v) == Value(WithoutMod(v.tri, TwoValuedNow(c, rank, s)), v.str)
  {
    hide RawBelow, EnvBelow, Val, Visible;
    if KindOf(s) == Tristate {
      assert RankedAt(c, s, rank);
      EnvAt(c, rank, rank(s), c.modules);
    }
  }

  // A visible symbol that the user has not set takes its default: the first that is enabled
  lemma UnsetTakesDefault(c: Config, rank: Sym -> nat, s: Sym, k: nat)
    requires Ranked(c, rank) && s in c.defs && IsTyped(s) && Visible(c, rank, s) != NO
    requires !c.defs[s].hasValue && !c.defs[s].choice && !(c.defs[s].memberOf.HasSym? && Visible(c, rank, s) == YES)
    requires FirstEnabled(c.defs[s].defaults, EnvBelow(c, rank, rank(s)), k)
    ensures var default := ValueOf(c, rank, c.defs[s].defaults[k].sym);
      && Val(c, rank, s).str == default.str
      && Val(c, rank, s).tri == WithoutMod(Bounded(default.tri, Visible(c, rank, s), c.defs[s].optional),
        TwoValuedNow(c, rank, s))
  {
    hide Ranked, RawBelow, EnvBelow, Val, Visible, TypeNow, Typed, DefaultIn, FirstEnabled, TwoValuedNow;
    DefaultIsFirst(c.defs[s].defaults, EnvBelow(c, rank, rank(s)), k);
    DefaultValue(c, rank, s, k);
    WantedUnset(c, rank, s);
  }

  // and without one the empty value
  lemma UnsetWithoutDefault(c: Config, rank: Sym -> nat, s: Sym)
    requires Ranked(c, rank) && s in c.defs && IsTyped(s) && Visible(c, rank, s) != NO
    requires !c.defs[s].hasValue && !(c.defs[s].memberOf.HasSym? && Visible(c, rank, s) == YES)
    requires c.defs[s].choice || NoneEnabled(c.defs[s].defaults, EnvBelow(c, rank, rank(s)))
    ensures Val(c, rank, s).str == if IsLogical(s) then "n" else ""
    ensures Val(c, rank, s).tri == WithoutMod(Bounded(NO, Visible(c, rank, s), c.defs[s].optional),
      TwoValuedNow(c, rank, s))
  {
    hide Ranked, RawBelow, EnvBelow, Val, Visible, TypeNow, Typed, DefaultIn, NoneEnabled, TwoValuedNow;
    if !c.defs[s].choice {
      DefaultIsNone(c.defs[s].defaults, EnvBelow(c, rank, rank(s)));
    }
    WantedUnset(c, rank, s);
  }

  lemma WantedUnset(c: Config, rank: Sym -> nat, s: Sym)
    requires Ranked(c, rank) && s in c.defs && IsTyped(s) && Visible(c, rank, s) != NO
    requires !c.defs[s].hasValue && !(c.defs[s].memberOf.HasSym? && Visible(c, rank, s) == YES)
    ensures var raw := RawBelow(c, rank, rank(s));
      var default := DefaultIn(c.defs[s].defaults, EnvBelow(c, rank, rank(s)));
      var v := if default.HasSym? && !c.defs[s].choice then raw(default.sym) else Blank(s);
      Val(c, rank, s) == Value(WithoutMod(Bounded(v.tri, Visible(c, rank, s), c.defs[s].optional),
        TwoValuedNow(c, rank, s)), v.str)
  {
    hide Ranked, RawBelow, Val, Visible, TypeNow, Typed, DefaultIn, TwoValuedNow, Chosen;
    ValIsTyped(c, rank, s);
    TypeInForce(c, rank, s, WantedBelow(c, rank, s));
  }

  // What the user has set is what a visible symbol has, as far as its visibility goes
  lemma SetTakesValue(c: Config, rank: Sym -> nat, s: Sym)
    requires Ranked(c, rank) && s in c.defs && IsTyped(s) && Visible(c, rank, s) != NO
    requires c.defs[s].hasValue && !(c.defs[s].memberOf.HasSym? && Visible(c, rank, s) == YES)
    ensures Val(c, rank, s).str == c.defs[s].user.str
    ensures Val(c, rank, s).tri == WithoutMod(Bounded(c.defs[s].user.tri, Visible(c, rank, s), c.defs[s].optional),
      TwoValuedNow(c, rank, s))
  {
    hide Ranked, RawBelow, Val, Visible, TypeNow, Typed, DefaultIn, TwoValuedNow, Chosen;
    ValIsTyped(c, rank, s);
    TypeInForce(c, rank, s, WantedBelow(c, rank, s));
  }

  // A hidden symbol goes by its default, whatever the user has set
  lemma HiddenTakesDefault(c: Config, rank: Sym -> nat, s: Sym, k: nat)
    requires Ranked(c, rank) && s in c.defs && IsTyped(s) && Visible(c, rank, s) == NO && !c.defs[s].choice
    requires FirstEnabled(c.defs[s].defaults, EnvBelow(c, rank, rank(s)), k)
    ensures var default := ValueOf(c, rank, c.defs[s].defaults[k].sym);
      && Val(c, rank, s).str == default.str
      && Val(c, rank, s).tri == WithoutMod(default.tri, TwoValuedNow(c, rank, s))
  {
    hide Ranked, RawBelow, EnvBelow, Val, Visible, TypeNow, Typed, DefaultIn, FirstEnabled, TwoValuedNow;
    DefaultIsFirst(c.defs[s].defaults, EnvBelow(c, rank, rank(s)), k);
    DefaultValue(c, rank, s, k);
    WantedHidden(c, rank, s);
  }

  lemma HiddenWithoutDefault(c: Config, rank: Sym -> nat, s: Sym)
    requires Ranked(c, rank) && s in c.defs && IsTyped(s) && Visible(c, rank, s) == NO
    requires NoneEnabled(c.defs[s].defaults, EnvBelow(c, rank, rank(s)))
    ensures Val(c, rank, s) == Value(NO, if IsLogical(s) then "n" else "")
  {
    hide Ranked, RawBelow, EnvBelow, Val, Visible, TypeNow, Typed, DefaultIn, NoneEnabled, TwoValuedNow;
    DefaultIsNone(c.defs[s].defaults, EnvBelow(c, rank, rank(s)));
    WantedHidden(c, rank, s);
  }

  lemma WantedHidden(c: Config, rank: Sym -> nat, s: Sym)
    requires Ranked(c, rank) && s in c.defs && IsTyped(s) && Visible(c, rank, s) == NO
    ensures var raw := RawBelow(c, rank, rank(s));
      var default := DefaultIn(c.defs[s].defaults, EnvBelow(c, rank, rank(s)));
      var v := if default.HasSym? then raw(default.sym) else Blank(s);
      Val(c, rank, s) == Value(WithoutMod(v.tri, TwoValuedNow(c, rank, s)), v.str)
  {
    hide Ranked, RawBelow, Val, Visible, TypeNow, Typed, DefaultIn, TwoValuedNow, Chosen;
    ValIsTyped(c, rank, s);
    TypeInForce(c, rank, s, WantedBelow(c, rank, s));
  }

  // ---------------------------------------------------------------- choices

  lemma ChoiceMembers(c: Config, rank: Sym -> nat, ch: Sym, m: Sym)
    requires Ranked(c, rank) && IsChoice(c, ch) && m in c.defs
    requires || m in c.defs[ch].members || c.defs[ch].userChoice == HasSym(m)
      || exists f :: f in c.defs[ch].defaults && f.sym == m
    ensures Selectable(c, m, EnvBelow(c, rank, rank(ch) + 1)) <==> Visible(c, rank, m) != NO
  {
    hide EnvBelow, Visible, VisibleIn;
    assert RankedAt(c, ch, rank);
    VisibleAt(c, rank, m, rank(ch) + 1);
  }

  lemma {:induction false} PickDefaultIs(c: Config, defaults: seq<Default>, env: Env, k: nat)
    requires k < |defaults| && CalcDep(defaults[k].cond, env) != NO && Selectable(c, defaults[k].sym, env)
    requires forall i | 0 <= i < k :: !(CalcDep(defaults[i].cond, env) != NO && Selectable(c, defaults[i].sym, env))
    ensures PickDefault(c, defaults, env) == HasSym(defaults[k].sym)
  {
    hide Selectable;
    if k > 0 {
      assert !(CalcDep(defaults[0].cond, env) != NO && Selectable(c, defaults[0].sym, env));
      assert forall i | 0 <= i < k - 1 :: defaults[1..][i] == defaults[i + 1];
      PickDefaultIs(c, defaults[1..], env, k - 1);
    }
  }

  lemma {:induction false} PickDefaultNone(c: Config, defaults: seq<Default>, env: Env)
    requires forall i | 0 <= i < |defaults| ::
      !(CalcDep(defaults[i].cond, env) != NO && Selectable(c, defaults[i].sym, env))
    ensures PickDefault(c, defaults, env) == NoSym
  {
    hide Selectable;
    if defaults != [] {
      assert !(CalcDep(defaults[0].cond, env) != NO && Selectable(c, defaults[0].sym, env));
      assert forall i | 0 <= i < |defaults| - 1 :: defaults[1..][i] == defaults[i + 1];
      PickDefaultNone(c, defaults[1..], env);
    }
  }

  lemma {:induction false} PickMemberIs(c: Config, members: seq<Sym>, env: Env, k: nat)
    requires k < |members| && Selectable(c, members[k], env)
    requires forall i | 0 <= i < k :: !Selectable(c, members[i], env)
    ensures PickMember(c, members, env) == HasSym(members[k])
  {
    hide Selectable;
    if k > 0 {
      assert !Selectable(c, members[0], env);
      assert forall i | 0 <= i < k - 1 :: members[1..][i] == members[i + 1];
      PickMemberIs(c, members[1..], env, k - 1);
    }
  }

  // A default of the choice counts if it is enabled and its symbol visible
  ghost predicate Offered(c: Config, rank: Sym -> nat, ch: Sym, f: Default)
    requires Ranked(c, rank)
  {
    f.sym in c.defs && CalcDep(f.cond, EnvBelow(c, rank, rank(ch) + 1)) != NO && Visible(c, rank, f.sym) != NO
  }

  // A choice that is y picks the member the user has picked, as long as that is visible
  lemma UserPicks(c: Config, rank: Sym -> nat, ch: Sym, m: Sym)
    requires Ranked(c, rank) && IsChoice(c, ch) && Val(c, rank, ch).tri == YES
    requires c.defs[ch].userChoice == HasSym(m) && m in c.defs && Visible(c, rank, m) != NO
    ensures Chosen(c, rank, ch) == HasSym(m)
  {
    hide Val, Visible, EnvBelow, Selectable;
    ChoiceMembers(c, rank, ch, m);
  }

  ghost predicate UserDoesNot(c: Config, rank: Sym -> nat, ch: Sym)
    requires Ranked(c, rank) && IsChoice(c, ch)
  {
    var u := c.defs[ch].userChoice;
    u.HasSym? ==> u.sym in c.defs && Visible(c, rank, u.sym) == NO
  }

  lemma UserPicksNot(c: Config, rank: Sym -> nat, ch: Sym)
    requires Ranked(c, rank) && IsChoice(c, ch) && UserDoesNot(c, rank, ch)
    ensures var u := c.defs[ch].userChoice; u.HasSym? ==> !Selectable(c, u.sym, EnvBelow(c, rank, rank(ch) + 1))
  {
    hide Visible, EnvBelow, Selectable, Ranked;
    if c.defs[ch].userChoice.HasSym? {
      ChoiceMembers(c, rank, ch, c.defs[ch].userChoice.sym);
    }
  }

  lemma OfferedIs(c: Config, rank: Sym -> nat, ch: Sym, f: Default)
    requires Ranked(c, rank) && IsChoice(c, ch) && f in c.defs[ch].defaults
    ensures var env := EnvBelow(c, rank, rank(ch) + 1);
      Offered(c, rank, ch, f) <==> CalcDep(f.cond, env) != NO && Selectable(c, f.sym, env)
  {
    hide Visible, EnvBelow, Ranked;
    if f.sym in c.defs {
      ChoiceMembers(c, rank, ch, f.sym);
    }
  }

  // Otherwise the first default that is offered
  lemma DefaultPicks(c: Config, rank: Sym -> nat, ch: Sym, k: nat)
    requires Ranked(c, rank) && IsChoice(c, ch) && Val(c, rank, ch).tri == YES && UserDoesNot(c, rank, ch)
    requires k < |c.defs[ch].defaults| && Offered(c, rank, ch, c.defs[ch].defaults[k])
    requires forall i | 0 <= i < k :: !Offered(c, rank, ch, c.defs[ch].defaults[i])
    ensures Chosen(c, rank, ch) == HasSym(c.defs[ch].defaults[k].sym)
  {
    hide Ranked, Val, Visible, EnvBelow, Selectable, Offered, UserDoesNot;
    UserPicksNot(c, rank, ch);
    forall i | 0 <= i <= k
      ensures var env, f := EnvBelow(c, rank, rank(ch) + 1), c.defs[ch].defaults[i];
        Offered(c, rank, ch, f) <==> CalcDep(f.cond, env) != NO && Selectable(c, f.sym, env)
    {
      OfferedIs(c, rank, ch, c.defs[ch].defaults[i]);
    }
    PickDefaultIs(c, c.defs[ch].defaults, EnvBelow(c, rank, rank(ch) + 1), k);
  }

  // Otherwise the first member that is visible
  lemma MemberPicks(c: Config, rank: Sym -> nat, ch: Sym, k: nat)
    requires Ranked(c, rank) && IsChoice(c, ch) && Val(c, rank, ch).tri == YES && UserDoesNot(c, rank, ch)
    requires forall f | f in c.defs[ch].defaults :: !Offered(c, rank, ch, f)
    requires forall m | m in c.defs[ch].members :: m in c.defs
    requires k < |c.defs[ch].members| && Visible(c, rank, c.defs[ch].members[k]) != NO
    requires forall i | 0 <= i < k :: Visible(c, rank, c.defs[ch].members[i]) == NO
    ensures Chosen(c, rank, ch) == HasSym(c.defs[ch].members[k])
  {
    hide Ranked, Val, Visible, EnvBelow, Selectable, Offered, UserDoesNot;
    var env := EnvBelow(c, rank, rank(ch) + 1);
    UserPicksNot(c, rank, ch);
    forall i | 0 <= i < |c.defs[ch].defaults|
      ensures !(CalcDep(c.defs[ch].defaults[i].cond, env) != NO && Selectable(c, c.defs[ch].defaults[i].sym, env))
    {
      OfferedIs(c, rank, ch, c.defs[ch].defaults[i]);
    }
    PickDefaultNone(c, c.defs[ch].defaults, env);
    forall i | 0 <= i <= k
      ensures Selectable(c, c.defs[ch].members[i], env) <==> Visible(c, rank, c.defs[ch].members[i]) != NO
    {
      ChoiceMembers(c, rank, ch, c.defs[ch].members[i]);
    }
    PickMemberIs(c, c.defs[ch].members, env, k);
  }

  // A choice that is not y has the user's pick, if it is shown and the user has set it
  lemma IdleChoicePicks(c: Config, rank: Sym -> nat, ch: Sym)
    requires Ranked(c, rank) && IsChoice(c, ch) && Val(c, rank, ch).tri != YES
    ensures Chosen(c, rank, ch) ==
      if Visible(c, rank, ch) != NO && c.defs[ch].hasValue then c.defs[ch].userChoice else NoSym
  {
    hide Val, Visible;
  }
}
