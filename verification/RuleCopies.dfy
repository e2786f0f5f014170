/** Where the rules of a file are in the tree: a rule with several parents has several
    copies, of which a later child gets one; no rule is lost and none is made up. */
module RuleCopies {
  import opened Optional
  import opened RuleTree

  // ----- a rule under several parents

  /** A rule without its place in the tree. */
  function Bare(r: Rule): Rule { r.(children := []) }

  /** How many rules of the tree have this id. */
  function Copies(rules: seq<Rule>, id: nat): nat
    decreases rules
  {
    if rules == [] then 0
    else (if rules[0].id == id then 1 else 0) + Copies(rules[0].children, id) + Copies(rules[1..], id)
  }

  predicate HasChild(r: Rule, child: nat) { exists i :: 0 <= i < |r.children| && r.children[i].id == child }

  /** How many of them have a child with that id. */
  function CopiesWith(rules: seq<Rule>, id: nat, child: nat): nat
    decreases rules
  {
    if rules == [] then 0
    else (if rules[0].id == id && HasChild(rules[0], child) then 1 else 0)
         + CopiesWith(rules[0].children, id, child) + CopiesWith(rules[1..], id, child)
  }

  lemma {:induction false} FindCounts(rules: seq<Rule>, id: nat)
    ensures Find(rules, id).Some? <==> Copies(rules, id) > 0
    decreases rules
  {
    if rules != [] {
      FindCounts(rules[0].children, id);
      FindCounts(rules[1..], id);
    }
  }

  lemma {:induction false} ChildCounts(rules: seq<Rule>, id: nat, i: nat)
    requires i < |rules| && rules[i].id == id
    ensures Copies(rules, id) > 0
  {
    if i > 0 {
      ChildCounts(rules[1..], id, i - 1);
    }
  }

  lemma {:induction false} NoChildNoCopies(rules: seq<Rule>, id: nat, child: nat)
    requires Copies(rules, child) == 0
    ensures CopiesWith(rules, id, child) == 0
    decreases rules
  {
    if rules != [] {
      NoChildNoCopies(rules[0].children, id, child);
      NoChildNoCopies(rules[1..], id, child);
      if HasChild(rules[0], child) {
        var i :| 0 <= i < |rules[0].children| && rules[0].children[i].id == child;
        ChildCounts(rules[0].children, child, i);
      }
    }
  }

  lemma {:induction false} CopiesSnoc(rules: seq<Rule>, r: Rule, id: nat, child: nat)
    requires r.children == []
    ensures Copies(rules + [r], id) == Copies(rules, id) + if r.id == id then 1 else 0
    ensures CopiesWith(rules + [r], id, child) == CopiesWith(rules, id, child)
    decreases |rules|
  {
    if rules == [] {
      assert rules + [r] == [r] && [r][1..] == [];
      assert Copies([], id) == 0 && CopiesWith([], id, child) == 0;
    } else {
      assert (rules + [r])[1..] == rules[1..] + [r] && (rules + [r])[0] == rules[0];
      CopiesSnoc(rules[1..], r, id, child);
    }
  }

  lemma CopiesCons(r: Rule, rest: seq<Rule>, id: nat, child: nat)
    ensures Copies([r] + rest, id) == (if r.id == id then 1 else 0) + Copies(r.children, id) + Copies(rest, id)
    ensures CopiesWith([r] + rest, id, child)
         == (if r.id == id && HasChild(r, child) then 1 else 0)
           + CopiesWith(r.children, id, child) + CopiesWith(rest, id, child)
    ensures Find([r] + rest, id)
         == if r.id == id then Some(r) else if Find(r.children, id).Some? then Find(r.children, id) else Find(rest, id)
  {
    assert ([r] + rest)[1..] == rest;
  }

  lemma NewChild(r: Rule, child: Rule, q: nat)
    ensures HasChild(r.(children := r.children + [child]), q) <==> HasChild(r, q) || child.id == q
  {
    var r' := r.(children := r.children + [child]);
    assert r'.children[|r.children|] == child;
    if HasChild(r, q) {
      var i :| 0 <= i < |r.children| && r.children[i].id == q;
      assert r'.children[i] == r.children[i];
    }
  }

  /** Inserting a child changes nothing else about the rules of a list. */
  lemma {:induction false} SameTops(rules: seq<Rule>, id: nat, child: Rule)
    ensures |AddChild(rules, id, child)| == |rules|
    ensures forall i :: 0 <= i < |rules| ==> Bare(AddChild(rules, id, child)[i]) == Bare(rules[i])
    decreases |rules|
  {
    if rules != [] {
      SameTops(rules[1..], id, child);
    }
  }

  /** Hanging a child under one id leaves the copies of another rule as they are. */
  lemma {:induction false} OtherRule(rules: seq<Rule>, id: nat, child: Rule, p: nat)
    requires child.children == [] && id != p && child.id != p
    ensures var rules' := AddChild(rules, id, child);
      && Copies(rules', p) == Copies(rules, p) && CopiesWith(rules', p, child.id) == CopiesWith(rules, p, child.id)
      && (Find(rules', p).Some? <==> Find(rules, p).Some?)
      && (Find(rules, p).Some?
          ==> HasChild(Find(rules', p).value, child.id) == HasChild(Find(rules, p).value, child.id))
    decreases rules
  {
    hide Copies, CopiesWith, HasChild, Find;
    if rules != [] {
      var r := rules[0];
      assert rules == [r] + rules[1..];
      CopiesCons(r, rules[1..], p, child.id);
      OtherRule(r.children, id, child, p);
      OtherRule(rules[1..], id, child, p);
      if r.id == id {
        CopiesSnoc(r.children, child, p, child.id);
        NotFoundLast(r.children, child, p);
        CopiesCons(r.(children := r.children + [child]), rules[1..], p, child.id);
      } else if Find(r.children, id).Some? {
        var r' := r.(children := AddChild(r.children, id, child));
        SameChildIds(r, id, child, child.id);
        CopiesCons(r', rules[1..], p, child.id);
      } else {
        CopiesCons(r, AddChild(rules[1..], id, child), p, child.id);
      }
    }
  }

  lemma {:induction false} NotFoundLast(rules: seq<Rule>, r: Rule, p: nat)
    requires r.children == [] && r.id != p
    ensures Find(rules + [r], p) == Find(rules, p)
    decreases |rules|
  {
    if rules == [] {
      assert rules + [r] == [r] && [r][1..] == [] && Find([], p) == None;
    } else {
      assert (rules + [r])[1..] == rules[1..] + [r] && (rules + [r])[0] == rules[0];
      NotFoundLast(rules[1..], r, p);
    }
  }

  lemma SameChildIds(r: Rule, id: nat, child: Rule, q: nat)
    ensures HasChild(r.(children := AddChild(r.children, id, child)), q) == HasChild(r, q)
  {
    SameTops(r.children, id, child);
    var r' := r.(children := AddChild(r.children, id, child));
    if HasChild(r, q) {
      var i :| 0 <= i < |r.children| && r.children[i].id == q;
      assert Bare(r'.children[i]).id == q;
    }
  }

  /** Hanging a child under an id gives it to the first copy that the lookup finds, and to
      no other. */
  lemma {:induction false} FirstCopyGetsTheChild(rules: seq<Rule>, p: nat, child: Rule)
    requires child.children == [] && child.id != p && Find(rules, p).Some?
    ensures var rules' := AddChild(rules, p, child);
      && Copies(rules', p) == Copies(rules, p)
      && CopiesWith(rules', p, child.id) == CopiesWith(rules, p, child.id)
        + (if HasChild(Find(rules, p).value, child.id) then 0 else 1)
      && Find(rules', p).Some? && HasChild(Find(rules', p).value, child.id)
    decreases rules
  {
    hide Copies, CopiesWith, HasChild, Find;
    FoundInSome(rules, p);
    var r := rules[0];
    assert rules == [r] + rules[1..];
    CopiesCons(r, rules[1..], p, child.id);
    if r.id == p {
      CopiesSnoc(r.children, child, p, child.id);
      NewChild(r, child, child.id);
      CopiesCons(r.(children := r.children + [child]), rules[1..], p, child.id);
    } else if Find(r.children, p).Some? {
      FirstCopyGetsTheChild(r.children, p, child);
      CopiesCons(r.(children := AddChild(r.children, p, child)), rules[1..], p, child.id);
    } else {
      FirstCopyGetsTheChild(rules[1..], p, child);
      CopiesCons(r, AddChild(rules[1..], p, child), p, child.id);
    }
  }

  lemma FoundInSome(rules: seq<Rule>, p: nat)
    requires Find(rules, p).Some?
    ensures rules != []
  {
  }

  // ----- all parents of a rule

  function AllCopies(c: Config, p: nat): nat { Copies(c.std, p) + Copies(c.grp, p) }

  function AllCopiesWith(c: Config, p: nat, child: nat): nat {
    CopiesWith(c.std, p, child) + CopiesWith(c.grp, p, child)
  }

  /** The copy that a lookup finds. */
  function First(c: Config, p: nat): Option<Rule> { if Find(c.std, p).Some? then Find(c.std, p) else Find(c.grp, p) }

  /** Exactly the first copy of p has the child. */
  predicate OnFirst(c: Config, p: nat, child: nat) {
    First(c, p).Some? && HasChild(First(c, p).value, child) && AllCopiesWith(c, p, child) == 1
  }

  lemma {:induction false} FoundCounts(rules: seq<Rule>, p: nat, child: nat)
    requires CopiesWith(rules, p, child) == 0 && Find(rules, p).Some?
    ensures !HasChild(Find(rules, p).value, child)
    decreases rules
  {
    var r := rules[0];
    if r.id != p {
      if Find(r.children, p).Some? {
        FoundCounts(r.children, p, child);
      } else {
        FoundCounts(rules[1..], p, child);
      }
    }
  }

  /** One more hanging: under p itself, or somewhere else. */
  lemma HangOnFirst(c: Config, id: nat, child: Rule, p: nat)
    requires child.children == [] && child.id != p && Hang(c, id, child).Some?
    requires OnFirst(c, p, child.id) || AllCopiesWith(c, p, child.id) == 0
    ensures var c' := Hang(c, id, child).value;
      && AllCopies(c', p) == AllCopies(c, p)
      && (if p == id || OnFirst(c, p, child.id) then OnFirst(c', p, child.id) else AllCopiesWith(c', p, child.id) == 0)
  {
    hide Copies, CopiesWith, HasChild, Find, AddChild;
    if id == p {
      if AllCopiesWith(c, p, child.id) == 0 {
        NotOnFirst(c, p, child.id);
      }
      if Find(c.std, p).Some? {
        FirstCopyGetsTheChild(c.std, p, child);
      } else {
        FirstCopyGetsTheChild(c.grp, p, child);
      }
    } else {
      OtherRule(c.std, id, child, p);
      OtherRule(c.grp, id, child, p);
    }
  }

  lemma NotOnFirst(c: Config, p: nat, child: nat)
    requires AllCopiesWith(c, p, child) == 0
    ensures First(c, p).Some? ==> !HasChild(First(c, p).value, child)
  {
    if Find(c.std, p).Some? {
      FoundCounts(c.std, p, child);
    } else if Find(c.grp, p).Some? {
      FoundCounts(c.grp, p, child);
    }
  }

  lemma {:induction false} HangAllOnFirst(c: Config, ids: seq<nat>, child: Rule, p: nat)
    requires child.children == [] && child.id != p && HangAll(c, ids, child).Some?
    requires OnFirst(c, p, child.id) || AllCopiesWith(c, p, child.id) == 0
    ensures var c' := HangAll(c, ids, child).value;
      && AllCopies(c', p) == AllCopies(c, p)
      && (if p in ids || OnFirst(c, p, child.id) then OnFirst(c', p, child.id) else AllCopiesWith(c', p, child.id) == 0)
    decreases |ids|
  {
    hide AllCopies, AllCopiesWith, First, HasChild, Hang;
    if ids != [] {
      assert p in ids <==> p == ids[0] || p in ids[1..];
      HangOnFirst(c, ids[0], child, p);
      HangAllOnFirst(Hang(c, ids[0], child).value, ids[1..], child, p);
    }
  }

  /** The parser hangs an accepted rule under exactly one copy of each of its parents and of
      the rule it watches, however many of them there are. */
  lemma OneCopyGetsTheChild(c: Config, r: Rule, p: nat)
    requires Accept(c, r).Ok? && r.children == [] && HangsUnder(r, p)
    ensures OnFirst(Accept(c, r).config, p, r.id) && AllCopies(Accept(c, r).config, p) == AllCopies(c, p)
  {
    hide Copies, CopiesWith, HasChild, Find, Hang, HangAll, OnFirst;
    NotYetInTheTree(c, r.id, p);
    WatchedIsKnown(c, r);
    if Grouped(r) {
      CopiesSnoc(c.grp, r, p, r.id);
    } else if r.parents != [] {
      HangAllOnFirst(c, r.parents, r, p);
    } else {
      CopiesSnoc(c.std, r, p, r.id);
    }
    if r.unlessId != 0 {
      HangOnFirst(Place(c, r).value, r.unlessId, r, p);
    }
  }

  /** Where the parser hangs a rule: under its parents, unless it is a group rule, and under
      the rule it watches. */
  predicate HangsUnder(r: Rule, p: nat) {
    || (p in r.parents && !Grouped(r))
    || (r.unlessId != 0 && p == r.unlessId)
  }

  lemma NotYetInTheTree(c: Config, id: nat, p: nat)
    requires !Known(c, id)
    ensures AllCopiesWith(c, p, id) == 0
  {
    FindCounts(c.std, id);
    FindCounts(c.grp, id);
    NoChildNoCopies(c.std, p, id);
    NoChildNoCopies(c.grp, p, id);
  }

  lemma WatchedIsKnown(c: Config, r: Rule)
    requires Flaw(c, r).None?
    ensures !Known(c, r.id) && r.id !in r.parents && (r.unlessId != 0 ==> r.unlessId != r.id)
  {
  }

  /** Every rule with id p has such a child. */
  ghost predicate EveryCopyHas(rules: seq<Rule>, p: nat, child: nat)
    decreases rules
  {
    forall i :: 0 <= i < |rules| ==>
      (rules[i].id == p ==> HasChild(rules[i], child)) && EveryCopyHas(rules[i].children, p, child)
  }

  lemma {:induction false} EveryCopyCounts(rules: seq<Rule>, p: nat, child: nat)
    ensures CopiesWith(rules, p, child) <= Copies(rules, p)
    ensures EveryCopyHas(rules, p, child) <==> CopiesWith(rules, p, child) == Copies(rules, p)
    decreases rules
  {
    if rules != [] {
      EveryCopyCounts(rules[0].children, p, child);
      EveryCopyCounts(rules[1..], p, child);
      EveryCons(rules, p, child);
    }
  }

  lemma EveryCons(rules: seq<Rule>, p: nat, child: nat)
    requires rules != []
    ensures EveryCopyHas(rules, p, child) <==>
      && (rules[0].id == p ==> HasChild(rules[0], child))
      && EveryCopyHas(rules[0].children, p, child) && EveryCopyHas(rules[1..], p, child)
  {
    assert forall i :: 1 <= i < |rules| ==> rules[1..][i - 1] == rules[i];
    assert forall i :: 0 <= i < |rules[1..]| ==> rules[1..][i] == rules[i + 1];
  }

  /** All copies of a parent get the child if and only if there is only one copy. */
  lemma EveryCopyGetsTheChildIff(c: Config, r: Rule, p: nat)
    requires Accept(c, r).Ok? && r.children == [] && HangsUnder(r, p)
    ensures var c' := Accept(c, r).config;
      EveryCopyHas(c'.std, p, r.id) && EveryCopyHas(c'.grp, p, r.id) <==> AllCopies(c, p) == 1
  {
    hide EveryCopyHas, Copies, CopiesWith, Accept, HangsUnder;
    OneCopyGetsTheChild(c, r, p);
    EveryCopyCounts(Accept(c, r).config.std, p, r.id);
    EveryCopyCounts(Accept(c, r).config.grp, p, r.id);
  }

  // ----- no rule is lost, none is made up

  /** All rules of a tree, each without its children. */
  function Rules(rules: seq<Rule>): set<Rule>
    decreases rules
  {
    if rules == [] then {} else {Bare(rules[0])} + Rules(rules[0].children) + Rules(rules[1..])
  }

  function AllRules(c: Config): set<Rule> { Rules(c.std) + Rules(c.grp) }

  lemma {:induction false} RulesSnoc(rules: seq<Rule>, r: Rule)
    requires r.children == []
    ensures Rules(rules + [r]) == Rules(rules) + {r}
    decreases |rules|
  {
    if rules == [] {
      assert rules + [r] == [r] && [r][1..] == [] && Rules([]) == {};
    } else {
      assert (rules + [r])[1..] == rules[1..] + [r] && (rules + [r])[0] == rules[0];
      RulesSnoc(rules[1..], r);
    }
  }

  lemma RulesCons(r: Rule, rest: seq<Rule>)
    ensures Rules([r] + rest) == {Bare(r)} + Rules(r.children) + Rules(rest)
  {
    assert ([r] + rest)[1..] == rest;
  }

  /** Hanging a child adds that rule and changes no other. */
  lemma {:induction false} AddChildRules(rules: seq<Rule>, id: nat, child: Rule)
    requires Find(rules, id).Some? && child.children == []
    ensures Rules(AddChild(rules, id, child)) == Rules(rules) + {child}
    decreases rules
  {
    hide Rules;
    var r := rules[0];
    assert rules == [r] + rules[1..];
    RulesCons(r, rules[1..]);
    if r.id == id {
      RulesSnoc(r.children, child);
      RulesCons(r.(children := r.children + [child]), rules[1..]);
    } else if Find(r.children, id).Some? {
      AddChildRules(r.children, id, child);
      RulesCons(r.(children := AddChild(r.children, id, child)), rules[1..]);
    } else {
      AddChildRules(rules[1..], id, child);
      RulesCons(r, AddChild(rules[1..], id, child));
    }
  }

  lemma HangRules(c: Config, id: nat, child: Rule)
    requires child.children == [] && Hang(c, id, child).Some?
    ensures AllRules(Hang(c, id, child).value) == AllRules(c) + {child}
  {
    hide Rules, Find, AddChild;
    if Find(c.std, id).Some? {
      AddChildRules(c.std, id, child);
    } else {
      AddChildRules(c.grp, id, child);
    }
  }

  lemma {:induction false} HangAllRules(c: Config, ids: seq<nat>, child: Rule)
    requires child.children == [] && HangAll(c, ids, child).Some?
    ensures AllRules(HangAll(c, ids, child).value) == AllRules(c) + if ids == [] then {} else {child}
    decreases |ids|
  {
    hide AllRules, Hang;
    if ids != [] {
      HangRules(c, ids[0], child);
      HangAllRules(Hang(c, ids[0], child).value, ids[1..], child);
    }
  }

  lemma AcceptRules(c: Config, r: Rule)
    requires r.children == [] && Accept(c, r).Ok?
    ensures AllRules(Accept(c, r).config) == AllRules(c) + {r}
  {
    hide Rules, Hang, HangAll, Known;
    RulesSnoc(c.std, r);
    RulesSnoc(c.grp, r);
    if !Grouped(r) && r.parents != [] {
      HangAllRules(c, r.parents, r);
    }
    if r.unlessId != 0 {
      HangRules(Place(c, r).value, r.unlessId, r);
    }
  }

  lemma {:induction false} FindRules(rules: seq<Rule>, id: nat)
    ensures Find(rules, id).Some? <==> exists r :: r in Rules(rules) && r.id == id
    decreases rules
  {
    if rules != [] {
      FindRules(rules[0].children, id);
      FindRules(rules[1..], id);
      if Find(rules, id).Some? {
        RuleWithId(rules, id);
      }
    }
  }

  lemma RuleWithId(rules: seq<Rule>, id: nat)
    requires rules != [] && Find(rules, id).Some?
    requires Find(rules[0].children, id).Some? ==> exists r :: r in Rules(rules[0].children) && r.id == id
    requires Find(rules[1..], id).Some? ==> exists r :: r in Rules(rules[1..]) && r.id == id
    ensures exists r :: r in Rules(rules) && r.id == id
  {
    if rules[0].id == id {
      assert Bare(rules[0]) in Rules(rules);
    } else if Find(rules[0].children, id).Some? {
      var r :| r in Rules(rules[0].children) && r.id == id;
      assert r in Rules(rules);
    } else {
      var r :| r in Rules(rules[1..]) && r.id == id;
      assert r in Rules(rules);
    }
  }

  /** The rules of a file. */
  function FileRules(nodes: seq<Node>): set<Rule> {
    if nodes == [] then {}
    else
      var last := nodes[|nodes| - 1];
      FileRules(nodes[..|nodes| - 1]) + if last.RuleNode? then {Bare(last.rule)} else {}
  }

  /** An accepted tree holds exactly the rules of its file, wherever and however often they
      hang in it, and no two different rules have the same id: the state that is kept by id
      belongs to one rule. */
  lemma {:induction false} TreeHoldsTheFile(nodes: seq<Node>)
    requires Parse(nodes).Ok?
    ensures AllRules(Parse(nodes).config) == FileRules(nodes)
    ensures forall r, r' :: r in FileRules(nodes) && r' in FileRules(nodes) && r.id == r'.id ==> r == r'
    decreases |nodes|
  {
    hide Accept, AllRules;
    if nodes == [] {
      NoRules();
    } else {
      var before, last := nodes[..|nodes| - 1], nodes[|nodes| - 1];
      TreeHoldsTheFile(before);
      var c := Parse(before).config;
      if last.RuleNode? {
        AcceptRules(c, Bare(last.rule));
        AcceptedIsNew(c, Bare(last.rule));
      } else {
        SameRules(c, c.groups + {last.name});
      }
    }
  }

  lemma NoRules()
    ensures AllRules(Config({}, [], [])) == {}
  {
  }

  lemma SameRules(c: Config, groups: set<string>)
    ensures AllRules(c.(groups := groups)) == AllRules(c)
  {
  }

  lemma AcceptedIsNew(c: Config, r: Rule)
    requires Accept(c, r).Ok?
    ensures forall x :: x in AllRules(c) ==> x.id != r.id
  {
    hide Place, Hang, Rules, Find;
    FindRules(c.std, r.id);
    FindRules(c.grp, r.id);
  }
}
