/** Which rules an event meets in the tree of an accepted file: when a rule is evaluated
    without its parent having matched, and when a child is missed. */
module RuleReach {
  import opened Optional
  import opened RuleTree
  import opened RuleWalk
  import opened RuleCopies
  import opened RuleWay

  // ----- rules without a parent stay at the top

  ghost predicate IsTop(rules: seq<Rule>, r: Rule) { exists i :: 0 <= i < |rules| && Bare(rules[i]) == r }

  ghost predicate KeepsTops(c: Config, c': Config) {
    forall r :: (IsTop(c.std, r) ==> IsTop(c'.std, r)) && (IsTop(c.grp, r) ==> IsTop(c'.grp, r))
  }

  lemma HangTops(c: Config, id: nat, child: Rule)
    ensures Hang(c, id, child).Some? ==> KeepsTops(c, Hang(c, id, child).value)
  {
    hide AddChild;
    SameTops(c.std, id, child);
    SameTops(c.grp, id, child);
    if Hang(c, id, child).Some? {
      var c' := Hang(c, id, child).value;
      assert forall i :: 0 <= i < |c.std| ==> Bare(c'.std[i]) == Bare(c.std[i]);
      assert forall i :: 0 <= i < |c.grp| ==> Bare(c'.grp[i]) == Bare(c.grp[i]);
    }
  }

  lemma {:induction false} HangAllTops(c: Config, ids: seq<nat>, child: Rule)
    ensures HangAll(c, ids, child).Some? ==> KeepsTops(c, HangAll(c, ids, child).value)
    decreases |ids|
  {
    hide Hang, IsTop;
    if ids != [] && Hang(c, ids[0], child).Some? {
      HangTops(c, ids[0], child);
      HangAllTops(Hang(c, ids[0], child).value, ids[1..], child);
    }
  }

  lemma OneMoreTop(rules: seq<Rule>, r: Rule)
    ensures IsTop(rules + [r], Bare(r))
    ensures forall x :: IsTop(rules, x) ==> IsTop(rules + [r], x)
  {
    assert (rules + [r])[|rules|] == r;
    forall x | IsTop(rules, x)
      ensures IsTop(rules + [r], x)
    {
      var i :| 0 <= i < |rules| && Bare(rules[i]) == x;
      assert (rules + [r])[i] == rules[i];
    }
  }

  lemma AcceptTops(c: Config, r: Rule)
    requires r.children == [] && Accept(c, r).Ok?
    ensures KeepsTops(c, Accept(c, r).config)
    ensures Grouped(r) ==> IsTop(Accept(c, r).config.grp, r)
    ensures !Grouped(r) && r.parents == [] ==> IsTop(Accept(c, r).config.std, r)
  {
    hide Hang, HangAll, IsTop, Known;
    OneMoreTop(c.grp, r);
    OneMoreTop(c.std, r);
    HangAllTops(c, r.parents, r);
    HangTops(Place(c, r).value, r.unlessId, r);
  }

  /** Rules with a group are at the top of the group rules, and other rules without a parent
      at the top of the standard rules. */
  lemma {:induction false} TopRules(nodes: seq<Node>, r: Rule)
    requires Parse(nodes).Ok? && r in FileRules(nodes)
    ensures Grouped(r) ==> IsTop(Parse(nodes).config.grp, r)
    ensures !Grouped(r) && r.parents == [] ==> IsTop(Parse(nodes).config.std, r)
    decreases |nodes|
  {
    hide Accept, IsTop;
    var before, last := nodes[..|nodes| - 1], nodes[|nodes| - 1];
    if last.RuleNode? {
      AcceptTops(Parse(before).config, Bare(last.rule));
    }
    if r in FileRules(before) {
      TopRules(before, r);
    }
  }

  // ----- a rule is evaluated after its parent

  /** The walk looks at a rule, with the last rule of the event at that time (0: none yet). */
  datatype Look = Look(rule: Rule, cur: nat)

  /** The looks at one list of rules, up to one that throws. */
  function LooksAt(rules: seq<Rule>, cur: nat): set<Look> {
    if rules == [] then {}
    else {Look(Bare(rules[0]), cur)} + if Fits(rules[0], cur) then LooksAt(rules[1..], cur) else {}
  }

  /** All looks of a walk. */
  function Looks(rules: seq<Rule>, cur: nat, m: Matcher): set<Look>
    decreases rules
  {
    if exists i :: 0 <= i < |rules| && !Fits(rules[i], cur) then LooksAt(rules, cur)
    else
      var matching := Matching(rules, cur, m);
      SelectIn(matching);
      match Select(matching)
      case None => LooksAt(rules, cur)
      case Some(fit) => LooksAt(rules, cur) + Looks(fit.children, fit.id, m)
  }

  function EventLooks(c: Config, m: Matcher): set<Look> {
    var o := Walk(c.std, 0, m);
    Looks(c.std, 0, m) + if o.Done? then Looks(c.grp, o.ruleId, m) else {}
  }

  /** A rule with parents is evaluated only for an event whose last rule is a parent. */
  predicate AfterItsParent(l: Look) { l.rule.parents != [] ==> l.cur != 0 && l.cur in l.rule.parents }

  ghost predicate AllAfterTheirParents(c: Config, m: Matcher) {
    forall l :: l in EventLooks(c, m) ==> AfterItsParent(l)
  }

  /** The same with the rule that it watches as another parent. */
  predicate AfterEither(l: Look) { l.rule.parents != [] ==> l.cur != 0 && Under(l.rule, l.cur) }

  ghost predicate AllAfterEither(c: Config, m: Matcher) { forall l :: l in EventLooks(c, m) ==> AfterEither(l) }

  lemma {:induction false} LooksAtAreRules(rules: seq<Rule>, cur: nat, l: Look)
    requires l in LooksAt(rules, cur)
    ensures l.cur == cur && IsTop(rules, l.rule)
  {
    if l == Look(Bare(rules[0]), cur) {
      assert Bare(rules[0]) == l.rule;
    } else {
      LooksAtAreRules(rules[1..], cur, l);
      var i :| 0 <= i < |rules[1..]| && Bare(rules[1..][i]) == l.rule;
      assert rules[i + 1] == rules[1..][i];
    }
  }

  lemma {:induction false} LooksBelow(rules: seq<Rule>, cur: nat, m: Matcher, l: Look)
    requires Placed(rules, cur) && cur != 0 && l in Looks(rules, cur, m)
    ensures AfterEither(l)
    decreases rules
  {
    hide Matching, Select, LooksAt;
    if l in LooksAt(rules, cur) {
      LooksAtAreRules(rules, cur, l);
    } else {
      var matching := Matching(rules, cur, m);
      SelectIn(matching);
      var fit := Select(matching).value;
      LooksBelow(fit.children, fit.id, m, l);
    }
  }

  lemma LooksOnTop(rules: seq<Rule>, grouped: bool, cur: nat, m: Matcher, l: Look)
    requires PlacedOnTop(rules, grouped) && l in Looks(rules, cur, m)
    requires forall i :: 0 <= i < |rules| ==> rules[i].parents == []
    ensures AfterEither(l)
  {
    hide Matching, Select, LooksAt;
    if l in LooksAt(rules, cur) {
      LooksAtAreRules(rules, cur, l);
    } else {
      var matching := Matching(rules, cur, m);
      SelectIn(matching);
      var fit := Select(matching).value;
      LooksBelow(fit.children, fit.id, m, l);
    }
  }

  /** No rule with a parent has an activation group. */
  ghost predicate NoGroupedChild(nodes: seq<Node>) {
    forall r :: r in FileRules(nodes) && r.parents != [] ==> r.ActivationGroup() == ""
  }

  lemma ChildrenAreNotOnTop(nodes: seq<Node>)
    requires Parse(nodes).Ok? && NoGroupedChild(nodes)
    ensures var c := Parse(nodes).config;
      && (forall i :: 0 <= i < |c.std| ==> c.std[i].parents == [])
      && (forall i :: 0 <= i < |c.grp| ==> c.grp[i].parents == [])
  {
    hide Parse, Placed, Rules;
    ParsePlaced(nodes);
    TreeHoldsTheFile(nodes);
    var c := Parse(nodes).config;
    forall i | 0 <= i < |c.grp|
      ensures c.grp[i].parents == []
    {
      RulesBelow(c.grp, i);
    }
  }

  /** Looking through a list meets a rule, or throws at one that watches before it. */
  lemma {:induction false} LooksAtOne(rules: seq<Rule>, cur: nat, i: nat) returns (l: Look)
    requires i < |rules|
    ensures l in LooksAt(rules, cur)
    ensures l == Look(Bare(rules[i]), cur) || (l.cur == cur && l.rule.unlessId != 0 && IsTop(rules, l.rule))
  {
    if i == 0 {
      l := Look(Bare(rules[0]), cur);
    } else if !Fits(rules[0], cur) {
      l := Look(Bare(rules[0]), cur);
      assert Bare(rules[0]) == l.rule;
    } else {
      l := LooksAtOne(rules[1..], cur, i - 1);
      LooksAtAreRules(rules, cur, l);
    }
  }

  lemma {:induction false} NoMatchNoWalk(rules: seq<Rule>, cur: nat)
    ensures Matching(rules, cur, Never) == []
    decreases |rules|
  {
    if rules != [] {
      NoMatchNoWalk(rules[..|rules| - 1], cur);
    }
  }

  lemma GroupedChildIsEarly(nodes: seq<Node>, r: Rule)
    requires Parse(nodes).Ok? && r in FileRules(nodes) && r.parents != [] && r.ActivationGroup() != ""
    ensures exists m: Matcher :: !AllAfterEither(Parse(nodes).config, m)
  {
    hide Parse, Placed, LooksAt, FileRules;
    var c := Parse(nodes).config;
    var m: Matcher := Never;
    ParsePlaced(nodes);
    TopRules(nodes, r);
    var i :| 0 <= i < |c.grp| && Bare(c.grp[i]) == r;
    NoMatchNoWalk(c.std, 0);
    assert Walk(c.std, 0, m) == Done(0);
    var l := LooksAtOne(c.grp, 0, i);
    assert l.rule.parents != [];
    assert l in Looks(c.grp, 0, m);
    assert l in EventLooks(c, m) && !AfterEither(l) && !AllAfterEither(c, m);
  }

  /** In an accepted file every rule with parents is evaluated only after one of them, or
      after the rule it watches, whatever matches, if and only if none of them has an
      activation group. */
  lemma EvaluatedAfterEitherIff(nodes: seq<Node>)
    requires Parse(nodes).Ok?
    ensures (forall m: Matcher :: AllAfterEither(Parse(nodes).config, m)) <==> NoGroupedChild(nodes)
  {
    hide Parse, Looks, PlacedOnTop;
    var c := Parse(nodes).config;
    if NoGroupedChild(nodes) {
      ParsePlaced(nodes);
      ChildrenAreNotOnTop(nodes);
      forall m: Matcher, l | l in EventLooks(c, m)
        ensures AfterEither(l)
      {
        if l in Looks(c.std, 0, m) {
          LooksOnTop(c.std, false, 0, m, l);
        } else {
          LooksOnTop(c.grp, true, Walk(c.std, 0, m).ruleId, m, l);
        }
      }
    } else {
      var r :| r in FileRules(nodes) && r.parents != [] && r.ActivationGroup() != "";
      GroupedChildIsEarly(nodes, r);
    }
  }

  // ----- after a parent, strictly

  /** A rule that an event goes on with, although a child of it names another parent. */
  predicate Strays(r: Rule) {
    !Largest(r) && exists i :: 0 <= i < |r.children| && r.children[i].parents != [] && r.id !in r.children[i].parents
  }

  lemma {:induction false} LooksAtFitting(rules: seq<Rule>, cur: nat, i: nat)
    requires i < |rules| && forall k :: 0 <= k < |rules| ==> Fits(rules[k], cur)
    ensures Look(Bare(rules[i]), cur) in LooksAt(rules, cur)
  {
    if i > 0 {
      LooksAtFitting(rules[1..], cur, i - 1);
    }
  }

  lemma LooksGoOn(rules: seq<Rule>, cur: nat, m: Matcher, r: Rule)
    requires (forall i :: 0 <= i < |rules| ==> Fits(rules[i], cur)) && Select(Matching(rules, cur, m)) == Some(r)
    requires Matching(rules, cur, m) != []
    ensures Looks(rules, cur, m) == LooksAt(rules, cur) + Looks(r.children, r.id, m)
  {
    hide Matching, Select, LooksAt, Fits;
  }

  /** An event that arrives at such a rule looks at that child. */
  lemma {:induction false} ArrivesAtAStray(rules: seq<Rule>, cur: nat, m: Matcher) returns (l: Look)
    requires Arrives(rules, cur, m, Strays) && Sound(rules)
    ensures l in Looks(rules, cur, m) && !AfterItsParent(l)
    decreases rules
  {
    hide Matching, Select, Sound, LooksAt, Looks, Largest;
    var r := Arriving(rules, cur, m, Strays);
    LooksGoOn(rules, cur, m, r);
    if Strays(r) {
      var i :| 0 <= i < |r.children| && r.children[i].parents != [] && r.id !in r.children[i].parents;
      l := Look(Bare(r.children[i]), r.id);
      LooksAtFitting(r.children, r.id, i);
      LooksAreLooks(r.children, r.id, m);
    } else {
      l := ArrivesAtAStray(r.children, r.id, m);
    }
  }

  lemma LooksAreLooks(rules: seq<Rule>, cur: nat, m: Matcher)
    ensures LooksAt(rules, cur) <= Looks(rules, cur, m)
  {
    hide Matching, Select, LooksAt;
  }

  /** Below the top only an event that gets to such a rule looks too early. */
  lemma {:induction false} EarlyNeedsAWay(rules: seq<Rule>, cur: nat, m: Matcher, l: Look)
    requires Sound(rules) && l in Looks(rules, cur, m) && l !in LooksAt(rules, cur) && !AfterItsParent(l)
    ensures Lives(rules, Strays)
    decreases rules
  {
    hide Matching, Select, LooksAt, Sound, Largest;
    var i := GoesOn(rules, cur, m);
    var r := rules[i];
    SoundBelow(rules, i);
    if l in LooksAt(r.children, r.id) {
      LooksAtAreRules(r.children, r.id, l);
      var k :| 0 <= k < |r.children| && Bare(r.children[k]) == l.rule;
      assert r.children[k].parents == l.rule.parents;
      assert Strays(r);
    } else {
      EarlyNeedsAWay(r.children, r.id, m, l);
    }
  }

  lemma NoParentNoWatch(rules: seq<Rule>)
    requires Sound(rules) && forall i :: 0 <= i < |rules| ==> rules[i].parents == []
    ensures AllFit(rules, 0)
  {
  }

  lemma EarlyLook(c: Config, m: Matcher, l: Look)
    requires l in EventLooks(c, m) && !AfterItsParent(l)
    ensures !AllAfterTheirParents(c, m)
  {
  }

  lemma TopIsEarly(rules: seq<Rule>, cur: nat, l: Look)
    requires l in LooksAt(rules, cur) && forall i :: 0 <= i < |rules| ==> rules[i].parents == []
    ensures AfterItsParent(l)
  {
    LooksAtAreRules(rules, cur, l);
  }

  lemma StrayIsEarly(nodes: seq<Node>) returns (m: Matcher)
    requires Parse(nodes).Ok? && NoGroupedChild(nodes)
    requires Lives(Parse(nodes).config.std, Strays) || Lives(Parse(nodes).config.grp, Strays)
    ensures !AllAfterTheirParents(Parse(nodes).config, m)
  {
    hide Parse, Lives, Arrives, Looks, NoGroupedChild, AllAfterTheirParents,
      WellPlaced, Tidy, AllFit, Sound, Walk, Strays;
    var c := Parse(nodes).config;
    ParseAccepted(nodes);
    ChildrenAreNotOnTop(nodes);
    var l;
    if Lives(c.std, Strays) {
      m := StandardArrives(c, Strays);
      l := ArrivesAtAStray(c.std, 0, m);
    } else {
      NoParentNoWatch(c.grp);
      m := GroupArrives(c, 0, Strays);
      l := ArrivesAtAStray(c.grp, 0, m);
    }
    EarlyLook(c, m, l);
  }

  /** In an accepted file every rule with parents is evaluated only after one of them has
      matched, whatever matches, if and only if none of them has an activation group and no
      event can go on with a rule that is watched by a rule with other parents. */
  lemma EvaluatedAfterParentIff(nodes: seq<Node>)
    requires Parse(nodes).Ok?
    ensures var c := Parse(nodes).config;
      (forall m: Matcher :: AllAfterTheirParents(c, m))
      <==> NoGroupedChild(nodes) && !Lives(c.std, Strays) && !Lives(c.grp, Strays)
  {
    hide Parse, Lives, NoGroupedChild, AllAfterTheirParents, AllAfterEither;
    var c := Parse(nodes).config;
    if !NoGroupedChild(nodes) {
      EvaluatedAfterEitherIff(nodes);
      var m: Matcher :| !AllAfterEither(c, m);
      EitherIsWeaker(c, m);
    } else if Lives(c.std, Strays) || Lives(c.grp, Strays) {
      var m := StrayIsEarly(nodes);
    } else {
      forall m: Matcher
        ensures AllAfterTheirParents(c, m)
      {
        NeverEarly(nodes, m);
      }
    }
  }

  lemma EitherIsWeaker(c: Config, m: Matcher)
    ensures AllAfterTheirParents(c, m) ==> AllAfterEither(c, m)
  {
    hide EventLooks;
  }

  lemma NeverEarly(nodes: seq<Node>, m: Matcher)
    requires Parse(nodes).Ok? && NoGroupedChild(nodes)
    requires !Lives(Parse(nodes).config.std, Strays) && !Lives(Parse(nodes).config.grp, Strays)
    ensures AllAfterTheirParents(Parse(nodes).config, m)
  {
    hide Parse, Lives, NoGroupedChild, Looks, LooksAt, WellPlaced, Tidy, Sound, AfterItsParent, Walk;
    var c := Parse(nodes).config;
    ParseAccepted(nodes);
    ChildrenAreNotOnTop(nodes);
    forall l | l in EventLooks(c, m)
      ensures AfterItsParent(l)
    {
      if !AfterItsParent(l) && l in Looks(c.std, 0, m) {
        if l in LooksAt(c.std, 0) {
          TopIsEarly(c.std, 0, l);
        } else {
          EarlyNeedsAWay(c.std, 0, m, l);
        }
      } else if !AfterItsParent(l) {
        var q := Walk(c.std, 0, m).ruleId;
        if l in LooksAt(c.grp, q) {
          TopIsEarly(c.grp, q, l);
        } else {
          EarlyNeedsAWay(c.grp, q, m, l);
        }
      }
    }
  }

  /** Every rule that is watched is named as a parent as well. */
  ghost predicate WatchedIsParent(nodes: seq<Node>) {
    forall r :: r in FileRules(nodes) && r.unlessId != 0 ==> r.unlessId in r.parents
  }

  lemma {:induction false} NoStrays(rules: seq<Rule>, file: set<Rule>)
    requires Sound(rules) && Rules(rules) <= file
    requires forall r :: r in file && r.unlessId != 0 ==> r.unlessId in r.parents
    ensures !Lives(rules, Strays)
    decreases rules
  {
    hide Rules, Largest, Sound;
    if Lives(rules, Strays) {
      var i :| 0 <= i < |rules| && rules[i].unlessId == 0
        && (Strays(rules[i]) || (!Largest(rules[i]) && Lives(rules[i].children, Strays)));
      var r := rules[i];
      SoundBelow(rules, i);
      RulesBelow(rules, i);
      if Strays(r) {
        var k :| 0 <= k < |r.children| && r.children[k].parents != [] && r.id !in r.children[k].parents;
        RulesBelow(r.children, k);
        NamesItsOwner(rules, i, k);
      } else {
        NoStrays(r.children, file);
      }
    }
  }

  lemma NamesItsOwner(rules: seq<Rule>, i: nat, k: nat)
    requires Sound(rules) && i < |rules| && k < |rules[i].children|
    ensures Under(rules[i].children[k], rules[i].id) && rules[i].id > 0
    ensures Bare(rules[i].children[k]).unlessId == rules[i].children[k].unlessId
    ensures Bare(rules[i].children[k]).parents == rules[i].children[k].parents
  {
  }

  lemma {:induction false} RulesBelow(rules: seq<Rule>, i: nat)
    requires i < |rules|
    ensures Bare(rules[i]) in Rules(rules) && Rules(rules[i].children) <= Rules(rules)
  {
    if i > 0 {
      RulesBelow(rules[1..], i - 1);
    }
  }

  /** A condition on the file: no rule with a parent has an activation group, and every rule
      that is watched is named as a parent as well. */
  lemma EvaluatedAfterParent(nodes: seq<Node>, m: Matcher)
    requires Parse(nodes).Ok? && NoGroupedChild(nodes) && WatchedIsParent(nodes)
    ensures AllAfterTheirParents(Parse(nodes).config, m)
  {
    hide Parse, Lives, NoGroupedChild, AllAfterTheirParents, WellPlaced, Tidy, Sound, Rules, FileRules;
    var c := Parse(nodes).config;
    ParseAccepted(nodes);
    TreeHoldsTheFile(nodes);
    NoStrays(c.std, FileRules(nodes));
    NoStrays(c.grp, FileRules(nodes));
    EvaluatedAfterParentIff(nodes);
  }

  // ----- two files with rules that are evaluated early

  /** Rule 2 names rule 1 as its parent and has an activation group. It is evaluated for an
      event that rule 1 does not match. */
  const GROUPED_CHILD: seq<Node> := [
    GroupNode("g"),
    RuleNode(Rule(1, 1, [], "", None, "", {}, 0, [])),
    RuleNode(Rule(2, 1, [1], "", Some(Activation("g", 1, 2, false)), "", {}, 0, []))]

  lemma GroupedChildAccepted()
    ensures Parse(GROUPED_CHILD).Ok?
  {
    hide Accept, Parse;
    var r1 := Rule(1, 1, [], "", None, "", {}, 0, []);
    var r2 := Rule(2, 1, [1], "", Some(Activation("g", 1, 2, false)), "", {}, 0, []);
    var n0, n1, n2 := GroupNode("g"), RuleNode(r1), RuleNode(r2);
    assert [] + [n0] == [n0] && [n0] + [n1] == [n0, n1] && [n0, n1] + [n2] == GROUPED_CHILD;
    assert {} + {"g"} == {"g"};
    NothingParsed();
    ParseOne([], n0);
    ParseOne([n0], n1);
    FirstRuleAccepted(r1);
    assert r1.(children := []) == r1 && r2.(children := []) == r2;
    ParseOne([n0, n1], n2);
    AcceptGroupedChild(r1, r2);
  }

  lemma FirstRuleAccepted(r1: Rule)
    requires r1 == Rule(1, 1, [], "", None, "", {}, 0, [])
    ensures Accept(Config({"g"}, [], []), r1) == Ok(Config({"g"}, [r1], []))
  {
    assert [] + [r1] == [r1];
  }

  lemma AcceptGroupedChild(r1: Rule, r2: Rule)
    requires r1 == Rule(1, 1, [], "", None, "", {}, 0, [])
    requires r2 == Rule(2, 1, [1], "", Some(Activation("g", 1, 2, false)), "", {}, 0, [])
    ensures Accept(Config({"g"}, [r1], []), r2).Ok?
  {
    assert [r1][1..] == [] && Find([], 2) == None && Find([r1], 2) == None;
  }

  lemma GroupedChildIsEvaluated()
    ensures Parse(GROUPED_CHILD).Ok? && exists m: Matcher :: !AllAfterEither(Parse(GROUPED_CHILD).config, m)
  {
    hide Parse, AllAfterEither;
    GroupedChildAccepted();
    var r := GROUPED_CHILD[2].rule;
    assert Bare(r) == r && GROUPED_CHILD[|GROUPED_CHILD| - 1] == RuleNode(r);
    GroupedChildIsEarly(GROUPED_CHILD, r);
  }

  /** Rule 3 names rule 1 as its parent and watches rule 2. */
  const WATCHING: seq<Node> := [
    RuleNode(Plain(1, [])), RuleNode(Plain(2, [])), RuleNode(Plain(3, [1]).(unlessId := 2))]

  const WATCHER := Plain(3, [1]).(unlessId := 2)

  const WATCHED := Plain(2, []).(children := [WATCHER])

  lemma WatchingAccepted()
    ensures Parse(WATCHING) == Ok(Config({}, [Plain(1, []).(children := [WATCHER]), WATCHED], []))
  {
    hide Parse, Accept;
    var n1, n2, n3 := WATCHING[0], WATCHING[1], WATCHING[2];
    assert [] + [n1] == [n1] && [n1] + [n2] == [n1, n2] && [n1, n2] + [n3] == WATCHING;
    NothingParsed();
    ParseOne([], n1);
    AcceptFirst();
    ParseOne([n1], n2);
    AcceptSecond();
    ParseOne([n1, n2], n3);
    AcceptWatcher();
  }

  lemma AcceptWatcher()
    ensures Accept(Config({}, [Plain(1, []), Plain(2, [])], []), WATCHER)
         == Ok(Config({}, [Plain(1, []).(children := [WATCHER]), WATCHED], []))
  {
    hide AddChild, Copies;
    var rules := [Plain(1, []), Plain(2, [])];
    FindPlain();
    HangUnderOne(WATCHER);
    HangUnderTwo(WATCHER);
    assert [1][1..] == [];
    assert HangAll(Config({}, rules, []), [1], WATCHER)
        == Some(Config({}, [Plain(1, []).(children := [WATCHER]), Plain(2, [])], []));
  }

  /** No rule has an activation group, yet rule 3 is evaluated for an event that matches rule
      2 only. */
  lemma WatcherIsEvaluated()
    ensures Parse(WATCHING).Ok? && NoGroupedChild(WATCHING)
    ensures exists m: Matcher :: !AllAfterTheirParents(Parse(WATCHING).config, m)
  {
    hide Parse, AllAfterTheirParents, Lives, FileRules;
    WatchingAccepted();
    NoGroups();
    WatchedStrays();
    var m := StrayIsEarly(WATCHING);
  }

  lemma NoGroups()
    ensures NoGroupedChild(WATCHING)
  {
    var n1, n2, n3 := WATCHING[0], WATCHING[1], WATCHING[2];
    assert WATCHING[..2] == [n1, n2] && [n1, n2][..1] == [n1] && [n1][..0] == [];
    assert FileRules([]) == {} && FileRules([n1]) == {Plain(1, [])};
    assert FileRules([n1, n2]) == {Plain(1, []), Plain(2, [])};
  }

  lemma WatchedStrays()
    ensures Lives([Plain(1, []).(children := [WATCHER]), WATCHED], Strays)
  {
    assert WATCHED.children[0].parents == [1] && WATCHED.id !in [1];
    assert Strays(WATCHED) && [Plain(1, []).(children := [WATCHER]), WATCHED][1] == WATCHED;
  }

  // ----- a child under one copy of its parent

  function Plain(id: nat, parents: seq<nat>): Rule { Rule(id, 1, parents, "", None, "", {}, 0, []) }

  /** Rule 3 has two parents and rule 4 is a child of rule 3. */
  const TWO_PARENTS: seq<Node> := [
    RuleNode(Plain(1, [])), RuleNode(Plain(2, [])), RuleNode(Plain(3, [1, 2])), RuleNode(Plain(4, [3]))]

  const THREE := Plain(3, [1, 2])

  const THREE_WITH_FOUR := THREE.(children := [Plain(4, [3])])

  const ONE := Plain(1, []).(children := [THREE_WITH_FOUR])

  const TWO := Plain(2, []).(children := [THREE])

  lemma {:induction false} HangOne(rules: seq<Rule>, i: nat, child: Rule)
    requires i < |rules| && Copies(rules[..i], rules[i].id) == 0
    ensures Find(rules, rules[i].id) == Some(rules[i])
    ensures AddChild(rules, rules[i].id, child)
         == rules[..i] + [rules[i].(children := rules[i].children + [child])] + rules[i + 1..]
    decreases i
  {
    if i > 0 {
      assert rules[1..][..i - 1] == rules[..i][1..] && rules[..i][0] == rules[0];
      FindCounts(rules[0].children, rules[i].id);
      HangOne(rules[1..], i - 1, child);
    }
  }

  lemma TwoParentsAccepted()
    ensures Parse(TWO_PARENTS) == Ok(Config({}, [ONE, TWO], []))
  {
    hide Parse, Accept;
    var n1, n2, n3, n4 := TWO_PARENTS[0], TWO_PARENTS[1], TWO_PARENTS[2], TWO_PARENTS[3];
    assert [] + [n1] == [n1] && [n1] + [n2] == [n1, n2] && [n1, n2] + [n3] == [n1, n2, n3]
      && [n1, n2, n3] + [n4] == TWO_PARENTS;
    NothingParsed();
    ParseOne([], n1);
    AcceptFirst();
    ParseOne([n1], n2);
    AcceptSecond();
    ParseOne([n1, n2], n3);
    AcceptThird();
    ParseOne([n1, n2, n3], n4);
    AcceptFourth();
  }

  lemma AcceptFirst()
    ensures Accept(Config({}, [], []), Plain(1, [])) == Ok(Config({}, [Plain(1, [])], []))
  {
    assert [] + [Plain(1, [])] == [Plain(1, [])];
  }

  lemma AcceptSecond()
    ensures Accept(Config({}, [Plain(1, [])], []), Plain(2, [])) == Ok(Config({}, [Plain(1, []), Plain(2, [])], []))
  {
    var rules := [Plain(1, [])];
    assert Find(rules[1..], 2).None? && rules + [Plain(2, [])] == [Plain(1, []), Plain(2, [])];
  }

  lemma AcceptThird()
    ensures Accept(Config({}, [Plain(1, []), Plain(2, [])], []), THREE)
         == Ok(Config({}, [Plain(1, []).(children := [THREE]), TWO], []))
  {
    hide AddChild, Copies;
    var rules := [Plain(1, []), Plain(2, [])];
    var rules' := [Plain(1, []).(children := [THREE]), Plain(2, [])];
    FindPlain();
    HangUnderOne(THREE);
    HangUnderTwo(THREE);
    assert [1, 2][1..] == [2] && [2][1..] == [];
    assert HangAll(Config({}, rules, []), [1, 2], THREE) == Some(Config({}, [rules'[0], TWO], []));
  }

  lemma FindPlain()
    ensures Find([Plain(1, []), Plain(2, [])], 2).Some? && Find([Plain(1, []), Plain(2, [])], 3).None?
  {
    var rules := [Plain(1, []), Plain(2, [])];
    assert rules[1..] == [Plain(2, [])] && rules[1..][1..] == [] && rules[0].children == rules[1].children == [];
    assert Find([], 2).None? && Find([], 3).None?;
    assert Find(rules[1..], 2).Some? && Find(rules[1..], 3).None?;
  }

  lemma HangUnderOne(child: Rule)
    ensures Hang(Config({}, [Plain(1, []), Plain(2, [])], []), 1, child)
         == Some(Config({}, [Plain(1, []).(children := [child]), Plain(2, [])], []))
  {
    hide AddChild, Find;
    var rules := [Plain(1, []), Plain(2, [])];
    assert [] + [child] == [child] && rules[..0] == [] && Copies([], 1) == 0;
    HangOne(rules, 0, child);
    assert AddChild(rules, 1, child) == [Plain(1, []).(children := [child]), Plain(2, [])];
  }

  lemma HangUnderTwo(child: Rule)
    requires child.id == 3 && child.children == []
    ensures Hang(Config({}, [Plain(1, []).(children := [child]), Plain(2, [])], []), 2, child)
         == Some(Config({}, [Plain(1, []).(children := [child]), Plain(2, []).(children := [child])], []))
  {
    hide AddChild, Find;
    var rules := [Plain(1, []).(children := [child]), Plain(2, [])];
    assert [] + [child] == [child] && [child][1..] == [] && rules[..1] == [rules[0]] && [rules[0]][1..] == [];
    assert Copies([], 2) == 0 && Copies([child], 2) == 0;
    HangOne(rules, 1, child);
    assert AddChild(rules, 2, child) == [rules[0], Plain(2, []).(children := [child])];
  }

  lemma AcceptFourth()
    ensures Accept(Config({}, [Plain(1, []).(children := [THREE]), TWO], []), Plain(4, [3]))
      == Ok(Config({}, [ONE, TWO], []))
  {
    var r4 := Plain(4, [3]);
    var one := Plain(1, []).(children := [THREE]);
    var rules := [one, TWO];
    var c := Config({}, rules, []);
    assert Find([], 4).None? && Find([THREE], 4).None? && Find(rules[1..], 4).None? && Find(rules, 4).None?;
    assert [] + [r4] == [r4] && [THREE][..0] == [] && Copies([], 3) == 0;
    HangOne([THREE], 0, r4);
    assert AddChild([THREE], 3, r4) == [THREE_WITH_FOUR];
    assert AddChild(rules, 3, r4) == [ONE, TWO];
    assert Hang(c, 3, r4) == Some(Config({}, [ONE, TWO], []));
    assert [3][1..] == [];
  }

  /** Rules 1, 3 and 4 match, one after the other. */
  predicate ReachesThroughOne(m: Matcher) {
    m(ONE, 0) && !m(TWO, 0) && m(THREE_WITH_FOUR, 1) && m(Plain(4, [3]), 3)
  }

  /** Rules 2 and 3 match; rule 4 may or may not. */
  predicate ReachesThroughTwo(m: Matcher) { !m(ONE, 0) && m(TWO, 0) && m(THREE, 2) }

  /** An event that reaches rule 3 through its first parent goes on to rule 4; one that
      reaches it through the second ends there, even when rule 4 would match. */
  lemma ChildIsMissed()
    ensures Parse(TWO_PARENTS) == Ok(Config({}, [ONE, TWO], []))
    ensures forall m: Matcher :: ReachesThroughOne(m) ==> Process(Config({}, [ONE, TWO], []), m) == Done(4)
    ensures forall m: Matcher :: ReachesThroughTwo(m) ==> Process(Config({}, [ONE, TWO], []), m) == Done(3)
  {
    TwoParentsAccepted();
    forall m: Matcher | ReachesThroughOne(m)
      ensures Process(Config({}, [ONE, TWO], []), m) == Done(4)
    {
      ThroughTheFirst(m);
    }
    forall m: Matcher | ReachesThroughTwo(m)
      ensures Process(Config({}, [ONE, TWO], []), m) == Done(3)
    {
      ThroughTheSecond(m);
    }
  }

  /** A list with one rule that matches: the walk goes on with its children. */
  lemma OneMatches(r: Rule, cur: nat, m: Matcher)
    requires r.unlessId == 0 && m(r, cur) && r.priority > 0
    ensures Walk([r], cur, m) == Walk(r.children, r.id, m)
  {
    hide Matching, Select;
    OneCandidate(r, cur, m);
  }

  lemma OneOfTwoMatches(r: Rule, r': Rule, cur: nat, m: Matcher)
    requires r.unlessId == 0 && r'.unlessId == 0 && m(r, cur) != m(r', cur) && r.priority > 0 && r'.priority > 0
    ensures Walk([r, r'], cur, m) == if m(r, cur) then Walk(r.children, r.id, m) else Walk(r'.children, r'.id, m)
  {
    hide Matching, Select;
    OneCandidate(r, cur, m);
    OneCandidate(r', cur, m);
    assert [r] + [r'] == [r, r'] && [] + [r'] == [r'] && [r] + [] == [r];
    LastCandidate([r], r', cur, m);
    assert Matching([r, r'], cur, m) == [if m(r, cur) then r else r'];
    assert Fits([r, r'][0], cur) && Fits([r, r'][1], cur);
  }

  lemma ThroughTheFirst(m: Matcher)
    requires ReachesThroughOne(m)
    ensures Process(Config({}, [ONE, TWO], []), m) == Done(4)
  {
    hide Walk, Matching, Select;
    OneOfTwoMatches(ONE, TWO, 0, m);
    OneMatches(THREE_WITH_FOUR, 1, m);
    OneMatches(Plain(4, [3]), 3, m);
    EndOfWalk(4, m);
  }

  lemma ThroughTheSecond(m: Matcher)
    requires ReachesThroughTwo(m)
    ensures Process(Config({}, [ONE, TWO], []), m) == Done(3)
  {
    hide Walk, Matching, Select;
    OneOfTwoMatches(ONE, TWO, 0, m);
    OneMatches(THREE, 2, m);
    EndOfWalk(3, m);
  }

  lemma EndOfWalk(cur: nat, m: Matcher)
    ensures Walk([], cur, m) == Done(cur)
  {
  }
}
