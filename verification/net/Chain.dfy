/** Where firewall rules go in a chain (`insert_entry` of `netconf/netconf_linux.c`), and what a
    packet meets first there.
 */
module NChain {
  // `target`: what `netconf_get_target` says. `blank`: the rule has no match, it is a default policy.
  datatype Rule = Rule(target: string, blank: bool, id: nat)

  predicate IsDrop(r: Rule) {
    r.target == "DROP" || r.target == "logdrop"
  }

  predicate IsAccept(r: Rule) {
    r.target == "ACCEPT" || r.target == "logaccept"
  }

  datatype Class = Dropping | Accepting | Trailing

  // Default policies and all other targets stay in the order they come
  function ClassOf(r: Rule): Class {
    if r.blank then Trailing else if IsDrop(r) then Dropping else if IsAccept(r) then Accepting else Trailing
  }

  // The rules of a class, in order
  function Only(rules: seq<Rule>, c: Class): seq<Rule> {
    if rules == [] then []
    else
      var r := rules[|rules| - 1];
      Only(rules[..|rules| - 1], c) + if ClassOf(r) == c then [r] else []
  }

  function Reversed(rules: seq<Rule>): seq<Rule> {
    if rules == [] then [] else [rules[|rules| - 1]] + Reversed(rules[..|rules| - 1])
  }

  // What the chain looks like after `added`: drops, accepts, the rest
  function Arranged(added: seq<Rule>): seq<Rule> {
    Reversed(Only(added, Dropping)) + Reversed(Only(added, Accepting)) + Only(added, Trailing)
  }

  lemma {:induction false} OnlyClass(rules: seq<Rule>, c: Class)
    ensures forall r | r in Only(rules, c) :: r in rules && ClassOf(r) == c
  {
    if rules != [] {
      OnlyClass(rules[..|rules| - 1], c);
    }
  }

  lemma {:induction false} OnlyAll(rules: seq<Rule>, c: Class, r: Rule)
    requires r in rules && ClassOf(r) == c
    ensures r in Only(rules, c)
  {
    if r != rules[|rules| - 1] {
      OnlyAll(rules[..|rules| - 1], c, r);
    }
  }

  lemma {:induction false} ReversedSame(rules: seq<Rule>)
    ensures forall r :: r in Reversed(rules) <==> r in rules
  {
    if rules != [] {
      ReversedSame(rules[..|rules| - 1]);
      assert rules == rules[..|rules| - 1] + [rules[|rules| - 1]];
    }
  }

  class Chain {
    var rules: seq<Rule>
    ghost var added: seq<Rule>  // the calls so far

    ghost predicate Valid()
      reads this
    {
      rules == Arranged(added)
    }

    constructor ()
      ensures Valid() && rules == [] && added == []
    {
      rules, added := [], [];
    }

    // `insert_entry`; `iptc_append_entry` and `iptc_insert_entry` at index `i` change the chain
    method InsertEntry(entry: Rule)
      requires Valid()
      modifies this
      ensures Valid() && added == old(added) + [entry]
    {
      hide Arranged;
      Next(added, entry);
      ghost var drops := |Only(added, Dropping)|;
      if entry.blank {
        rules := rules + [entry];
      } else if IsDrop(entry) {
        rules := [entry] + rules;
      } else if IsAccept(entry) {
        var i := 0;
        DropsFirst(added);
        while i < |rules|
          invariant i <= drops <= |rules|
        {
          if !IsDrop(rules[i]) || rules[i].blank {
            break;
          }
          i := i + 1;
        }
        rules := rules[..i] + [entry] + rules[i..];
      } else {
        rules := rules + [entry];
      }
      added := added + [entry];
    }
  }

  // The drops are exactly the first rules that the scan for an accept passes
  lemma DropsFirst(added: seq<Rule>)
    ensures var n, rules := |Only(added, Dropping)|, Arranged(added);
      && n <= |rules|
      && (forall i | 0 <= i < n :: ClassOf(rules[i]) == Dropping)
      && (n < |rules| ==> ClassOf(rules[n]) != Dropping)
  {
    var d, a, t := Only(added, Dropping), Only(added, Accepting), Only(added, Trailing);
    OnlyClass(added, Dropping);
    OnlyClass(added, Accepting);
    OnlyClass(added, Trailing);
    ReversedSame(d);
    ReversedSame(a);
    ReversedLength(d);
    var rules := Arranged(added);
    forall i | 0 <= i < |d|
      ensures ClassOf(rules[i]) == Dropping
    {
      assert rules[i] == Reversed(d)[i];
    }
    if |d| < |rules| {
      assert rules[|d|] == (Reversed(a) + t)[0];
      assert rules[|d|] in Reversed(a) + t;
    }
  }

  lemma {:induction false} ReversedLength(rules: seq<Rule>)
    ensures |Reversed(rules)| == |rules|
  {
    if rules != [] {
      ReversedLength(rules[..|rules| - 1]);
    }
  }

  // Where a new rule belongs
  lemma Next(added: seq<Rule>, entry: Rule)
    ensures var n, rules := |Only(added, Dropping)|, Arranged(added);
      && n <= |rules|
      && Arranged(added + [entry]) ==
        match ClassOf(entry)
        case Dropping => [entry] + rules
        case Accepting => rules[..n] + [entry] + rules[n..]
        case Trailing => rules + [entry]
  {
    var d, a, t := Only(added, Dropping), Only(added, Accepting), Only(added, Trailing);
    OnlyNext(added, entry, Dropping);
    OnlyNext(added, entry, Accepting);
    OnlyNext(added, entry, Trailing);
    ReversedNext(d, entry);
    ReversedNext(a, entry);
    ReversedLength(d);
    hide Only, Reversed;
    InsertBetween([entry], Reversed(d), Reversed(a), t);
    match ClassOf(entry)
    case Dropping => assert Only(added + [entry], Accepting) == a && Only(added + [entry], Trailing) == t;
    case Accepting => assert Only(added + [entry], Dropping) == d && Only(added + [entry], Trailing) == t;
    case Trailing => assert Only(added + [entry], Dropping) == d && Only(added + [entry], Accepting) == a;
  }

  lemma InsertBetween(e: seq<Rule>, d: seq<Rule>, a: seq<Rule>, t: seq<Rule>)
    ensures (e + d) + a + t == e + (d + a + t) && d + a + (t + e) == (d + a + t) + e
    ensures d + (e + a) + t == (d + a + t)[..|d|] + e + (d + a + t)[|d|..]
    ensures d + [] == d && a + [] == a && t + [] == t
  {
  }

  lemma OnlyNext(added: seq<Rule>, entry: Rule, c: Class)
    ensures Only(added + [entry], c) == Only(added, c) + if ClassOf(entry) == c then [entry] else []
  {
    assert (added + [entry])[..|added|] == added;
  }

  lemma ReversedNext(rules: seq<Rule>, entry: Rule)
    ensures Reversed(rules + [entry]) == [entry] + Reversed(rules)
  {
    assert (rules + [entry])[..|rules|] == rules;
  }

  // ---------------------------------------------------------------- what happens to a packet

  datatype Verdict = Drop | Accept | Other(target: string) | NoMatch

  function Judge(r: Rule): Verdict {
    if IsDrop(r) then Drop else if IsAccept(r) then Accept else Other(r.target)
  }

  // The first rule that matches decides, unless its target is one of those that let the packet go
  // through, such as LOG; `hits` are the packet's matches among the rules with one
  ghost predicate Hit(r: Rule, hits: set<nat>, through: set<string>) {
    (r.blank || r.id in hits) && (IsDrop(r) || IsAccept(r) || r.target !in through)
  }

  ghost function Walk(rules: seq<Rule>, hits: set<nat>, through: set<string>): Verdict {
    if rules == [] then NoMatch
    else if Hit(rules[0], hits, through) then Judge(rules[0])
    else Walk(rules[1..], hits, through)
  }

  lemma {:induction false} WalkAppend(a: seq<Rule>, b: seq<Rule>, hits: set<nat>, through: set<string>)
    ensures Walk(a + b, hits, through) ==
      if exists r :: r in a && Hit(r, hits, through) then Walk(a, hits, through) else Walk(b, hits, through)
  {
    if a == [] {
      assert a + b == b;
    } else {
      assert (a + b)[1..] == a[1..] + b;
      WalkAppend(a[1..], b, hits, through);
      assert forall r :: r in a <==> r == a[0] || r in a[1..];
    }
  }

  lemma {:induction false} WalkClass(rules: seq<Rule>, c: Class, hits: set<nat>, through: set<string>)
    requires c != Trailing && forall r | r in rules :: ClassOf(r) == c
    requires exists r :: r in rules && Hit(r, hits, through)
    ensures Walk(rules, hits, through) == if c.Dropping? then Drop else Accept
  {
    assert ClassOf(rules[0]) == c;
    if !Hit(rules[0], hits, through) {
      assert forall r :: r in rules <==> r == rules[0] || r in rules[1..];
      WalkClass(rules[1..], c, hits, through);
    }
  }

  ghost predicate Some(added: seq<Rule>, c: Class, hits: set<nat>, through: set<string>) {
    exists r :: r in added && ClassOf(r) == c && Hit(r, hits, through)
  }

  // A packet is dropped iff a drop matches it; otherwise it is accepted if an accept does;
  // otherwise the first of the other rules and default policies decides
  lemma VerdictOf(added: seq<Rule>, hits: set<nat>, through: set<string>)
    ensures Walk(Arranged(added), hits, through) ==
      if Some(added, Dropping, hits, through) then Drop
      else if Some(added, Accepting, hits, through) then Accept
      else Walk(Only(added, Trailing), hits, through)
  {
    var d, a, t := Only(added, Dropping), Only(added, Accepting), Only(added, Trailing);
    Inside(added, Dropping, hits, through);
    Inside(added, Accepting, hits, through);
    assert Reversed(d) + Reversed(a) + t == Reversed(d) + (Reversed(a) + t);
    WalkAppend(Reversed(d), Reversed(a) + t, hits, through);
    WalkAppend(Reversed(a), t, hits, through);
    if Some(added, Dropping, hits, through) {
      WalkClass(Reversed(d), Dropping, hits, through);
    } else if Some(added, Accepting, hits, through) {
      WalkClass(Reversed(a), Accepting, hits, through);
    }
  }

  // A rule of these targets, other than a default policy, matches the packet
  ghost predicate Named(added: seq<Rule>, targets: set<string>, hits: set<nat>) {
    exists r :: r in added && !r.blank && r.id in hits && r.target in targets
  }

  // The same by the names of the targets, wherever in the order the rules were added
  lemma VerdictByName(added: seq<Rule>, hits: set<nat>, through: set<string>)
    ensures Walk(Arranged(added), hits, through) ==
      if Named(added, {"DROP", "logdrop"}, hits) then Drop
      else if Named(added, {"ACCEPT", "logaccept"}, hits) then Accept
      else Walk(Only(added, Trailing), hits, through)
    ensures forall r :: r in Only(added, Trailing) <==>
      r in added && (r.blank || r.target !in {"DROP", "logdrop", "ACCEPT", "logaccept"})
  {
    hide Walk, Only, Arranged;
    VerdictOf(added, hits, through);
    forall r: Rule
      ensures ClassOf(r) == Dropping <==> !r.blank && r.target in {"DROP", "logdrop"}
      ensures ClassOf(r) == Accepting <==> !r.blank && r.target in {"ACCEPT", "logaccept"}
    {
    }
    assert Some(added, Dropping, hits, through) == Named(added, {"DROP", "logdrop"}, hits);
    assert Some(added, Accepting, hits, through) == Named(added, {"ACCEPT", "logaccept"}, hits);
    OnlyClass(added, Trailing);
    forall r | r in added && ClassOf(r) == Trailing
      ensures r in Only(added, Trailing)
    {
      OnlyAll(added, Trailing, r);
    }
  }

  lemma Inside(added: seq<Rule>, c: Class, hits: set<nat>, through: set<string>)
    ensures Some(added, c, hits, through) <==> exists r :: r in Reversed(Only(added, c)) && Hit(r, hits, through)
    ensures forall r | r in Reversed(Only(added, c)) :: ClassOf(r) == c
  {
    OnlyClass(added, c);
    ReversedSame(Only(added, c));
    if Some(added, c, hits, through) {
      var r :| r in added && ClassOf(r) == c && Hit(r, hits, through);
      OnlyAll(added, c, r);
    }
  }

  // The order in which drops and accepts are added does not matter, neither among each other nor
  // between the default policies
  lemma OrderDoesNotMatter(added: seq<Rule>, added': seq<Rule>, hits: set<nat>, through: set<string>)
    requires forall r | !ClassOf(r).Trailing? :: r in added <==> r in added'
    requires Only(added, Trailing) == Only(added', Trailing)
    ensures Walk(Arranged(added), hits, through) == Walk(Arranged(added'), hits, through)
  {
    VerdictOf(added, hits, through);
    VerdictOf(added', hits, through);
    assert Some(added, Dropping, hits, through) == Some(added', Dropping, hits, through);
    assert Some(added, Accepting, hits, through) == Some(added', Accepting, hits, through);
  }

  // With a default policy that decides every packet has a verdict
  lemma {:induction false} DefaultDecides(added: seq<Rule>, r: Rule, hits: set<nat>, through: set<string>)
    requires r in added && r.blank && (IsDrop(r) || IsAccept(r) || r.target !in through)
    ensures Walk(Arranged(added), hits, through) != NoMatch
  {
    VerdictOf(added, hits, through);
    OnlyAll(added, Trailing, r);
    SomeVerdict(Only(added, Trailing), r, hits, through);
  }

  lemma {:induction false} SomeVerdict(rules: seq<Rule>, r: Rule, hits: set<nat>, through: set<string>)
    requires r in rules && Hit(r, hits, through)
    ensures Walk(rules, hits, through) != NoMatch
  {
    if !Hit(rules[0], hits, through) {
      SomeVerdict(rules[1..], r, hits, through);
    }
  }
}
