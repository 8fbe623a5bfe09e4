/** What the values of a choice group come to (`sym_calc_value`, `sym_set_tristate_value` of
    `config/symbol.c`): who is picked, that nobody else is, and that picking a member works.
 */
module KChoice {
  import opened KExpr
  import opened KCompare
  import opened KForest
  import opened KConfig

  // A member that is fully visible is yes or no, and yes exactly when the choice has picked it
  lemma MemberYes(c: Config, rank: Sym -> nat, m: Sym)
    requires Ranked(c, rank) && m in c.defs && IsTyped(m) && c.defs[m].memberOf.HasSym?
    requires Visible(c, rank, m) == YES
    ensures IsChoice(c, c.defs[m].memberOf.sym)
    ensures Val(c, rank, m).tri == if Chosen(c, rank, c.defs[m].memberOf.sym) == HasSym(m) then YES else NO
  {
    assert RankedAt(c, m, rank) && KnownDef(c, c.defs[m]);
    ValIsTyped(c, rank, m);
  }

  lemma AtMostOne(c: Config, rank: Sym -> nat, m: Sym, n: Sym)
    requires Ranked(c, rank) && m in c.defs && n in c.defs && IsTyped(m) && IsTyped(n)
    requires c.defs[m].memberOf.HasSym? && c.defs[n].memberOf == c.defs[m].memberOf
    requires Visible(c, rank, m) == YES && Visible(c, rank, n) == YES
    requires Val(c, rank, m).tri == YES && Val(c, rank, n).tri == YES
    ensures m == n
  {
    MemberYes(c, rank, m);
    MemberYes(c, rank, n);
  }

  lemma {:induction false} PickMemberSome(c: Config, members: seq<Sym>, env: Env, m: Sym)
    requires m in members && Selectable(c, m, env)
    ensures PickMember(c, members, env).HasSym?
  {
    if !Selectable(c, members[0], env) {
      PickMemberSome(c, members[1..], env, m);
    }
  }

  lemma {:induction false} PickMemberSelectable(c: Config, members: seq<Sym>, env: Env)
    ensures var p := PickMember(c, members, env); p.HasSym? ==> p.sym in members && Selectable(c, p.sym, env)
  {
    if members != [] && !Selectable(c, members[0], env) {
      PickMemberSelectable(c, members[1..], env);
    }
  }

  lemma {:induction false} PickDefaultSelectable(c: Config, defaults: seq<Default>, env: Env)
    ensures var p := PickDefault(c, defaults, env); p.HasSym? ==> Selectable(c, p.sym, env)
  {
    if defaults != [] && !(CalcDep(defaults[0].cond, env) != NO && Selectable(c, defaults[0].sym, env)) {
      PickDefaultSelectable(c, defaults[1..], env);
    }
  }

  // A choice that is yes picks somebody as soon as one of its members is visible, and whoever it
  // picks is visible
  lemma PicksVisible(c: Config, rank: Sym -> nat, s: Sym, m: Sym)
    requires Ranked(c, rank) && IsChoice(c, s) && Val(c, rank, s).tri == YES
    requires m in c.defs[s].members && m in c.defs && Visible(c, rank, m) != NO
    ensures Chosen(c, rank, s).HasSym?
    ensures Chosen(c, rank, s).sym in c.defs && Visible(c, rank, Chosen(c, rank, s).sym) != NO
  {
    var d, env := c.defs[s], EnvBelow(c, rank, rank(s) + 1);
    assert RankedAt(c, s, rank);
    VisibleAt(c, rank, m, rank(s) + 1);
    PickMemberSome(c, d.members, env, m);
    PickMemberSelectable(c, d.members, env);
    PickDefaultSelectable(c, d.defaults, env);
    var p := Pick(c, d, env);
    assert Selectable(c, p.sym, env);
    PickedBelow(c, rank, s, env, p.sym);
    VisibleAt(c, rank, p.sym, rank(s) + 1);
  }

  lemma PickedBelow(c: Config, rank: Sym -> nat, s: Sym, env: Env, p: Sym)
    requires Ranked(c, rank) && IsChoice(c, s) && Pick(c, c.defs[s], env) == HasSym(p)
    ensures PromptsBelow(c, p, rank, rank(s) + 1)
  {
    var d := c.defs[s];
    assert RankedAt(c, s, rank);
    PickMemberSelectable(c, d.members, env);
    PickDefaultFrom(c, d.defaults, env);
  }

  lemma {:induction false} PickDefaultFrom(c: Config, defaults: seq<Default>, env: Env)
    ensures var p := PickDefault(c, defaults, env); p.HasSym? ==> exists f :: f in defaults && f.sym == p.sym
  {
    if defaults != [] {
      if CalcDep(defaults[0].cond, env) != NO && Selectable(c, defaults[0].sym, env) {
        assert defaults[0] in defaults;
      } else {
        PickDefaultFrom(c, defaults[1..], env);
      }
    }
  }

  // Without modules, nothing with a bool or tristate type is mod
  lemma NoModules(c: Config, rank: Sym -> nat, s: Sym)
    requires Ranked(c, rank) && s in c.defs && IsLogical(s)
    requires ValueOf(c, rank, c.modules).tri == NO
    ensures Val(c, rank, s).tri != MOD
  {
    assert RankedAt(c, s, rank);
    ValIsTyped(c, rank, s);
    if KindOf(s).Tristate? {
      EnvAt(c, rank, rank(s), c.modules);
    }
  }
}
