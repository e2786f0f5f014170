/** The two exceptions of the rule walk: for which rules files some event, or every event that
    nothing matches, raises them. What matches an event is an arbitrary function of the rule
    and of the last rule of the event. */
module RuleThrows {
  import opened Optional
  import opened RuleTree
  import opened RuleWalk
  import opened RuleCopies
  import opened RuleWay
  import opened RuleReach

  // ----- "Unknown child case"

  /** For every accepted file: some event is met by a group rule that watches another but is
      not a child of the event's last rule, if and only if an event can leave the standard
      rules with a last rule that such a rule does not know. */
  lemma UnknownChildPossibleIff(nodes: seq<Node>)
    requires Parse(nodes).Ok?
    ensures var c := Parse(nodes).config;
      (exists m: Matcher :: Process(c, m) == UnknownChild) <==> exists q :: CanEnd(c.std, q) && !AllFit(c.grp, q)
  {
    hide Parse, Walk, CanEnd, Accepted;
    var c := Parse(nodes).config;
    ParseAccepted(nodes);
    if q :| CanEnd(c.std, q) && !AllFit(c.grp, q) {
      var m := SomeEventEnds(c, q);
      UnknownChildIff(nodes, m);
      assert Process(c, m) == UnknownChild;
    }
    if m: Matcher :| Process(c, m) == UnknownChild {
      UnknownChildIff(nodes, m);
      EndCanBe(c, m);
      assert !AllFit(c.grp, Walk(c.std, 0, m).ruleId);
    }
  }

  lemma EndCanBe(c: Config, m: Matcher)
    requires Accepted(c) && Walk(c.std, 0, m).Done?
    ensures CanEnd(c.std, Walk(c.std, 0, m).ruleId)
  {
    hide Walk, Lives;
    EndNeedsAWay(c.std, 0, m, Walk(c.std, 0, m).ruleId);
  }

  /** A rule that watches another and has an activation group. */
  predicate GroupedUnless(r: Rule) { r.unlessId != 0 && r.ActivationGroup() != "" }

  ghost predicate NoGroupedUnless(nodes: seq<Node>) { forall r :: r in FileRules(nodes) ==> !GroupedUnless(r) }

  lemma GroupRuleOfTheFile(nodes: seq<Node>, i: nat)
    requires Parse(nodes).Ok? && i < |Parse(nodes).config.grp| && Parse(nodes).config.grp[i].unlessId != 0
    ensures Bare(Parse(nodes).config.grp[i]) in FileRules(nodes) && GroupedUnless(Bare(Parse(nodes).config.grp[i]))
  {
    hide Parse, Placed, Rules, FileRules;
    ParsePlaced(nodes);
    TreeHoldsTheFile(nodes);
    RulesBelow(Parse(nodes).config.grp, i);
  }

  lemma GroupRulesFit(nodes: seq<Node>, q: nat)
    requires Parse(nodes).Ok? && NoGroupedUnless(nodes)
    ensures AllFit(Parse(nodes).config.grp, q)
  {
    hide Parse, FileRules, GroupedUnless;
    var grp := Parse(nodes).config.grp;
    forall i | 0 <= i < |grp|
      ensures Fits(grp[i], q)
    {
      if grp[i].unlessId != 0 {
        GroupRuleOfTheFile(nodes, i);
      }
    }
  }

  /** For every accepted rules file whose unless rules have no activation group, the
      exception "Unknown child case" is unreachable, whatever matches. */
  lemma NoUnknownChild(nodes: seq<Node>, m: Matcher)
    requires Parse(nodes).Ok? && NoGroupedUnless(nodes)
    ensures Process(Parse(nodes).config, m) != UnknownChild
  {
    hide Parse, Walk, Fits, NoGroupedUnless;
    UnknownChildIff(nodes, m);
    if Walk(Parse(nodes).config.std, 0, m).Done? {
      GroupRulesFit(nodes, Walk(Parse(nodes).config.std, 0, m).ruleId);
    }
  }

  /** Every accepted file with such a rule throws for every event that no rule matches, unless
      the rule names 0, the id of no rule, as a parent. */
  lemma GroupedUnlessThrows(nodes: seq<Node>, r: Rule)
    requires Parse(nodes).Ok? && r in FileRules(nodes) && GroupedUnless(r) && 0 !in r.parents
    ensures Process(Parse(nodes).config, Never) == UnknownChild
  {
    hide Parse, Walk, FileRules;
    var c := Parse(nodes).config;
    UnknownChildIff(nodes, Never);
    TopRules(nodes, r);
    var i :| 0 <= i < |c.grp| && Bare(c.grp[i]) == r;
    assert !Fits(Bare(c.grp[i]), 0) && !Fits(c.grp[i], 0);
    NothingMatched(nodes);
  }

  lemma NothingMatched(nodes: seq<Node>)
    requires Parse(nodes).Ok?
    ensures Walk(Parse(nodes).config.std, 0, Never) == Done(0)
  {
    hide Parse, Contains, Sound, Tidy, Fits;
    ParseAccepted(nodes);
    StandardFits(Parse(nodes).config);
    NothingFollowed(Parse(nodes).config.std, 0, Never);
  }

  /** The condition on the file: when 0 is never named as a parent, some event throws if and
      only if a rule that watches another has an activation group. */
  lemma GroupedUnlessIff(nodes: seq<Node>)
    requires Parse(nodes).Ok? && forall r :: r in FileRules(nodes) && GroupedUnless(r) ==> 0 !in r.parents
    ensures (exists m: Matcher :: Process(Parse(nodes).config, m) == UnknownChild) <==> !NoGroupedUnless(nodes)
  {
    hide Parse, Process, FileRules, GroupedUnless;
    if NoGroupedUnless(nodes) {
      forall m: Matcher
        ensures Process(Parse(nodes).config, m) != UnknownChild
      {
        NoUnknownChild(nodes, m);
      }
    } else {
      var r :| r in FileRules(nodes) && GroupedUnless(r);
      GroupedUnlessThrows(nodes, r);
    }
  }

  /** Such a file: rule 2 waits for rule 1 and watches it, and is also a group rule. */
  const GROUPED_UNLESS: seq<Node> := [
    GroupNode("g"),
    RuleNode(Rule(1, 1, [], "", None, "", {}, 0, [])),
    RuleNode(Rule(2, 1, [1], "", Some(Activation("g", 1, 2, false)), "", {}, 1, []))]

  lemma GroupedUnlessParsed()
    ensures Parse(GROUPED_UNLESS).Ok?
  {
    hide Accept, Parse;
    var r1 := Rule(1, 1, [], "", None, "", {}, 0, []);
    var r2 := Rule(2, 1, [1], "", Some(Activation("g", 1, 2, false)), "", {}, 1, []);
    var n0, n1, n2 := GroupNode("g"), RuleNode(r1), RuleNode(r2);
    assert [] + [n0] == [n0] && [n0] + [n1] == [n0, n1] && [n0, n1] + [n2] == GROUPED_UNLESS;
    assert {} + {"g"} == {"g"};
    NothingParsed();
    ParseOne([], n0);
    ParseOne([n0], n1);
    FirstRuleAccepted(r1);
    assert r1.(children := []) == r1 && r2.(children := []) == r2;
    ParseOne([n0, n1], n2);
    GroupedUnlessAccepted(r1, r2);
  }

  lemma GroupedUnlessAccepted(r1: Rule, r2: Rule)
    requires r1 == Rule(1, 1, [], "", None, "", {}, 0, [])
    requires r2 == Rule(2, 1, [1], "", Some(Activation("g", 1, 2, false)), "", {}, 1, [])
    ensures Accept(Config({"g"}, [r1], []), r2).Ok?
  {
    assert [r1][1..] == [] && Find([], 2) == Find([], 1) == None;
    assert Find([r1], 2).None? && Find([r1], 1) == Some(r1);
  }

  lemma GroupedUnlessExists()
    ensures Parse(GROUPED_UNLESS).Ok? && Process(Parse(GROUPED_UNLESS).config, Never) == UnknownChild
  {
    hide Parse, Process;
    GroupedUnlessParsed();
    var r := GROUPED_UNLESS[2].rule;
    assert Bare(r) == r && GROUPED_UNLESS[|GROUPED_UNLESS| - 1] == RuleNode(r);
    GroupedUnlessThrows(GROUPED_UNLESS, r);
  }

  // ----- "this should never happen"

  /** For every accepted file: for some matching behaviour no rule is chosen among those that
      match, if and only if an event can get to a rule of priority 0 with the largest id,
      among the standard rules or behind them among the group rules. */
  lemma NoFitIff(nodes: seq<Node>)
    requires Parse(nodes).Ok?
    ensures var c := Parse(nodes).config;
      (exists m: Matcher :: Process(c, m) == NoFit) <==>
        Lives(c.std, Largest) || exists q :: CanEnd(c.std, q) && AllFit(c.grp, q) && Lives(c.grp, Largest)
  {
    hide Parse, Walk, Lives, Accepted, CanEnd, Process, AllFit;
    var c := Parse(nodes).config;
    ParseAccepted(nodes);
    if Lives(c.std, Largest) {
      var m := StandardFails(c);
      assert Process(c, m) == NoFit;
    } else if q :| CanEnd(c.std, q) && AllFit(c.grp, q) && Lives(c.grp, Largest) {
      var m := GroupFails(c, q);
      assert Process(c, m) == NoFit;
    }
    if m: Matcher :| Process(c, m) == NoFit {
      NoFitNeedsAWay(c, m);
    }
  }

  lemma StandardFails(c: Config) returns (m: Matcher)
    requires Accepted(c) && Lives(c.std, Largest)
    ensures Process(c, m) == NoFit
  {
    hide Walk, Lives, Arrives, WellPlaced, Tidy, Sound;
    m := StandardArrives(c, Largest);
    ArrivesAtTheLargest(c.std, 0, m);
  }

  lemma GroupFails(c: Config, q: nat) returns (m: Matcher)
    requires Accepted(c) && CanEnd(c.std, q) && AllFit(c.grp, q) && Lives(c.grp, Largest)
    ensures Process(c, m) == NoFit
  {
    hide Walk, Lives, Arrives, WellPlaced, Tidy, Sound, CanEnd;
    m := GroupArrives(c, q, Largest);
    ArrivesAtTheLargest(c.grp, q, m);
  }

  lemma NoFitNeedsAWay(c: Config, m: Matcher)
    requires Accepted(c) && Process(c, m) == NoFit
    ensures Lives(c.std, Largest) || exists q :: CanEnd(c.std, q) && AllFit(c.grp, q) && Lives(c.grp, Largest)
  {
    hide Lives, WellPlaced, Tidy, Sound, CanEnd, Matching, Select;
    var o := Walk(c.std, 0, m);
    if o.Done? {
      EndCanBe(c, m);
      FailureNeedsAWay(c.grp, o.ruleId, m);
      assert AllFit(c.grp, o.ruleId);
    } else {
      FailureNeedsAWay(c.std, 0, m);
    }
  }

  ghost predicate HasLargest(nodes: seq<Node>) { exists r :: r in FileRules(nodes) && r.unlessId == 0 && Largest(r) }

  lemma {:induction false} LivesInTheFile(rules: seq<Rule>)
    requires Lives(rules, Largest)
    ensures exists r :: r in Rules(rules) && r.unlessId == 0 && Largest(r)
    decreases rules
  {
    hide Rules, Largest;
    var i :| 0 <= i < |rules| && rules[i].unlessId == 0
      && (Largest(rules[i]) || (!Largest(rules[i]) && Lives(rules[i].children, Largest)));
    RulesBelow(rules, i);
    if Largest(rules[i]) {
      StillLargest(rules[i]);
    } else {
      LivesInTheFile(rules[i].children);
      var r :| r in Rules(rules[i].children) && r.unlessId == 0 && Largest(r);
      assert r in Rules(rules);
    }
  }

  lemma StillLargest(r: Rule)
    ensures Largest(r) == Largest(Bare(r)) && Bare(r).unlessId == r.unlessId
  {
  }

  /** For every accepted file without a rule of priority 0 and the largest id the exception
      is unreachable, whatever matches. */
  lemma NoFitIsUnreachable(nodes: seq<Node>, m: Matcher)
    requires Parse(nodes).Ok? && !HasLargest(nodes)
    ensures Process(Parse(nodes).config, m) != NoFit
  {
    hide Parse, Process, Lives, Rules, Largest, CanEnd, AllFit, Accepted;
    TreeHoldsTheFile(nodes);
    ParseAccepted(nodes);
    var c := Parse(nodes).config;
    if Process(c, m) == NoFit {
      NoFitNeedsAWay(c, m);
      if Lives(c.std, Largest) {
        LivesInTheFile(c.std);
      } else {
        LivesInTheFile(c.grp);
      }
    }
  }

  /** A condition on the file under which it is reachable: such a rule has no parent, and the
      group rules that watch another know the events that no standard rule matches. */
  lemma LargestOnTopFails(nodes: seq<Node>, r: Rule)
    requires Parse(nodes).Ok? && r in FileRules(nodes) && Largest(r) && r.unlessId == 0 && r.parents == []
    requires forall x :: x in FileRules(nodes) && GroupedUnless(x) ==> 0 in x.parents
    ensures exists m: Matcher :: Process(Parse(nodes).config, m) == NoFit
  {
    hide Parse, Process, FileRules, AllFit;
    var c := Parse(nodes).config;
    NoFitIff(nodes);
    TopRules(nodes, r);
    if Grouped(r) {
      TopLives(c.grp, r);
      TopFits(nodes);
    } else {
      TopLives(c.std, r);
    }
  }

  lemma TopLives(rules: seq<Rule>, r: Rule)
    requires IsTop(rules, r) && Largest(r) && r.unlessId == 0
    ensures Lives(rules, Largest)
  {
    var i :| 0 <= i < |rules| && Bare(rules[i]) == r;
    StillLargest(rules[i]);
  }

  lemma TopFits(nodes: seq<Node>)
    requires Parse(nodes).Ok? && forall x :: x in FileRules(nodes) && GroupedUnless(x) ==> 0 in x.parents
    ensures CanEnd(Parse(nodes).config.std, 0) && AllFit(Parse(nodes).config.grp, 0)
  {
    hide Parse, FileRules, GroupedUnless;
    var grp := Parse(nodes).config.grp;
    forall i | 0 <= i < |grp|
      ensures Fits(grp[i], 0)
    {
      if grp[i].unlessId != 0 {
        GroupRuleOfTheFile(nodes, i);
        assert Bare(grp[i]).parents == grp[i].parents;
      }
    }
  }

  /** Such a file. */
  const LARGEST := Rule(MAX_ID, 0, [], "", None, "", {}, 0, [])

  lemma LargestIsAccepted()
    ensures Parse([RuleNode(LARGEST)]) == Ok(Config({}, [LARGEST], []))
  {
    assert [] + [RuleNode(LARGEST)] == [RuleNode(LARGEST)] && [] + [LARGEST] == [LARGEST];
    NothingParsed();
    ParseOne([], RuleNode(LARGEST));
  }

  lemma LargestFails(m: Matcher)
    requires m(LARGEST, 0)
    ensures Parse([RuleNode(LARGEST)]) == Ok(Config({}, [LARGEST], []))
    ensures Process(Config({}, [LARGEST], []), m) == NoFit
  {
    hide Parse, Matching, Select;
    LargestIsAccepted();
    OneCandidate(LARGEST, 0, m);
  }
}
