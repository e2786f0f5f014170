/** Ways through a rule tree: where an event can get to, and which events get there. */
module RuleWay {
  import opened Optional
  import opened RuleTree
  import opened RuleWalk
  import opened RuleCopies

  // ----- choosing

  /** Measured against priority 0 and the largest id, such a rule is never better. */
  predicate Largest(r: Rule) { r.priority == 0 && r.id == MAX_ID }

  lemma {:induction false} SelectedIsNotLargest(matching: seq<Rule>)
    requires forall r :: r in matching ==> r.id <= MAX_ID
    ensures Select(matching).Some? ==> !Largest(Select(matching).value)
  {
    if matching != [] {
      var before := matching[..|matching| - 1];
      SelectIn(before);
      SelectedIsNotLargest(before);
    }
  }

  lemma {:induction false} MatchingAre(rules: seq<Rule>, cur: nat, m: Matcher, r: Rule)
    ensures r in Matching(rules, cur, m) <==> r in rules && r.unlessId == 0 && m(r, cur)
    decreases |rules|
  {
    if rules != [] {
      assert rules == rules[..|rules| - 1] + [rules[|rules| - 1]];
      MatchingAre(rules[..|rules| - 1], cur, m, r);
    }
  }

  /** All candidates are this rule. */
  ghost predicate Only(matching: seq<Rule>, r: Rule) { matching != [] && forall x :: x in matching ==> x == r }

  lemma OnlySelected(matching: seq<Rule>, r: Rule)
    requires Only(matching, r) && r.id <= MAX_ID
    ensures Select(matching) == if Largest(r) then None else Some(r)
  {
    hide Select;
    SelectIsBest(matching);
    assert matching[0] == r;
  }

  // ----- what every accepted tree is like

  ghost predicate Sound(rules: seq<Rule>) {
    forall i :: 0 <= i < |rules| ==> Legal(rules[i]) && Placed(rules[i].children, rules[i].id)
  }

  /** No rule is below itself. */
  ghost predicate Unrepeated(rules: seq<Rule>)
    decreases rules
  {
    rules == []
    || (Copies(rules[0].children, rules[0].id) == 0 && Unrepeated(rules[0].children) && Unrepeated(rules[1..]))
  }

  /** The copies of a rule have no children. */
  ghost predicate Leaves(rules: seq<Rule>, id: nat)
    decreases rules
  {
    rules == []
    || ((rules[0].id == id ==> rules[0].children == []) && Leaves(rules[0].children, id) && Leaves(rules[1..], id))
  }

  /** Only the standard rules are searched for a rule that has a copy there, so that its
      copies among the group rules get no child. */
  ghost predicate StandardFirst(c: Config) { forall id :: Leaves(c.grp, id) || Copies(c.std, id) == 0 }

  lemma UnrepeatedCons(r: Rule, rest: seq<Rule>)
    ensures Unrepeated([r] + rest) <==> Copies(r.children, r.id) == 0 && Unrepeated(r.children) && Unrepeated(rest)
    ensures Unrepeated([])
  {
    assert ([r] + rest)[1..] == rest;
  }

  lemma LeavesCons(r: Rule, rest: seq<Rule>, id: nat)
    ensures Leaves([r] + rest, id) <==> (r.id == id ==> r.children == []) && Leaves(r.children, id) && Leaves(rest, id)
    ensures Leaves([], id)
  {
    assert ([r] + rest)[1..] == rest;
  }

  lemma {:induction false} LeavesSnoc(rules: seq<Rule>, r: Rule, id: nat)
    requires r.children == []
    ensures Leaves(rules + [r], id) <==> Leaves(rules, id)
    decreases |rules|
  {
    hide Leaves;
    if rules == [] {
      assert rules + [r] == [r] + [];
      LeavesCons(r, [], id);
    } else {
      assert rules == [rules[0]] + rules[1..] && rules + [r] == [rules[0]] + (rules[1..] + [r]);
      LeavesCons(rules[0], rules[1..], id);
      LeavesSnoc(rules[1..], r, id);
      LeavesCons(rules[0], rules[1..] + [r], id);
    }
  }

  lemma {:induction false} UnrepeatedSnoc(rules: seq<Rule>, r: Rule)
    requires Unrepeated(rules) && r.children == []
    ensures Unrepeated(rules + [r])
    decreases |rules|
  {
    hide Unrepeated, Copies;
    NoCopies(r.id);
    if rules == [] {
      assert rules + [r] == [r] + [];
      UnrepeatedCons(r, []);
    } else {
      assert rules == [rules[0]] + rules[1..] && rules + [r] == [rules[0]] + (rules[1..] + [r]);
      UnrepeatedCons(rules[0], rules[1..]);
      UnrepeatedSnoc(rules[1..], r);
      UnrepeatedCons(rules[0], rules[1..] + [r]);
    }
  }

  lemma NoCopies(id: nat)
    ensures Copies([], id) == 0
  {
  }

  lemma {:induction false} NoCopiesNoChildren(rules: seq<Rule>, id: nat)
    requires Copies(rules, id) == 0
    ensures Leaves(rules, id)
    decreases rules
  {
    if rules != [] {
      NoCopiesNoChildren(rules[0].children, id);
      NoCopiesNoChildren(rules[1..], id);
    }
  }

  /** A child under one rule gives no other rule a child. */
  lemma {:induction false} AddChildLeaves(rules: seq<Rule>, id: nat, child: Rule, p: nat)
    requires Leaves(rules, p) && id != p && child.children == []
    ensures Leaves(AddChild(rules, id, child), p)
    decreases rules
  {
    hide Leaves, Find;
    if rules != [] {
      var r := rules[0];
      assert rules == [r] + rules[1..];
      LeavesCons(r, rules[1..], p);
      AddChildLeaves(rules[1..], id, child, p);
      if r.id == id {
        LeavesSnoc(r.children, child, p);
        LeavesCons(r.(children := r.children + [child]), rules[1..], p);
      } else if Find(r.children, id).Some? {
        AddChildLeaves(r.children, id, child, p);
        FoundInSome(r.children, id);
        LeavesCons(r.(children := AddChild(r.children, id, child)), rules[1..], p);
      } else {
        LeavesCons(r, AddChild(rules[1..], id, child), p);
      }
    }
  }

  lemma {:induction false} AddChildUnrepeated(rules: seq<Rule>, id: nat, child: Rule)
    requires Unrepeated(rules) && Leaves(rules, child.id) && id != child.id && child.children == []
    ensures Unrepeated(AddChild(rules, id, child))
    decreases rules
  {
    hide Unrepeated, Leaves, Copies, Find;
    if rules != [] {
      var r := rules[0];
      assert rules == [r] + rules[1..];
      UnrepeatedCons(r, rules[1..]);
      LeavesCons(r, rules[1..], child.id);
      AddChildUnrepeated(rules[1..], id, child);
      if r.id == id {
        UnrepeatedSnoc(r.children, child);
        CopiesSnoc(r.children, child, r.id, child.id);
        UnrepeatedCons(r.(children := r.children + [child]), rules[1..]);
      } else if Find(r.children, id).Some? {
        AddChildUnrepeated(r.children, id, child);
        FoundInSome(r.children, id);
        OtherRule(r.children, id, child, r.id);
        UnrepeatedCons(r.(children := AddChild(r.children, id, child)), rules[1..]);
      } else {
        UnrepeatedCons(r, AddChild(rules[1..], id, child));
      }
    }
  }

  ghost predicate Tidy(c: Config) { Unrepeated(c.std) && Unrepeated(c.grp) && StandardFirst(c) }

  /** A rule that is being hung into the tree has no children yet. */
  ghost predicate Growing(c: Config, id: nat) { Tidy(c) && Leaves(c.std, id) && Leaves(c.grp, id) }

  lemma HangGrows(c: Config, id: nat, child: Rule)
    requires Growing(c, child.id) && child.id != id && child.children == []
    ensures Hang(c, id, child).Some? ==> Growing(Hang(c, id, child).value, child.id)
  {
    hide Unrepeated, Leaves, Copies, AddChild, StandardFirst;
    if Find(c.std, id).Some? {
      AddChildUnrepeated(c.std, id, child);
      AddChildLeaves(c.std, id, child, child.id);
      HungInStandard(c, id, child);
    } else if Find(c.grp, id).Some? {
      AddChildUnrepeated(c.grp, id, child);
      AddChildLeaves(c.grp, id, child, child.id);
      HungInGroups(c, id, child);
    }
  }

  lemma HungInStandard(c: Config, id: nat, child: Rule)
    requires StandardFirst(c) && Leaves(c.grp, child.id) && child.id != id
      && child.children == [] && Find(c.std, id).Some?
    ensures StandardFirst(c.(std := AddChild(c.std, id, child)))
  {
    hide Leaves, Copies, AddChild, CopiesWith, HasChild;
    forall p | !Leaves(c.grp, p)
      ensures Copies(AddChild(c.std, id, child), p) == 0
    {
      if p == id {
        FirstCopyGetsTheChild(c.std, id, child);
      } else {
        OtherRule(c.std, id, child, p);
      }
    }
  }

  lemma HungInGroups(c: Config, id: nat, child: Rule)
    requires StandardFirst(c) && child.children == [] && Find(c.std, id).None?
    ensures StandardFirst(c.(grp := AddChild(c.grp, id, child)))
  {
    hide Leaves, Copies, AddChild;
    FindCounts(c.std, id);
    forall p | Leaves(c.grp, p) && p != id
      ensures Leaves(AddChild(c.grp, id, child), p)
    {
      AddChildLeaves(c.grp, id, child, p);
    }
  }

  lemma {:induction false} HangAllGrows(c: Config, ids: seq<nat>, child: Rule)
    requires Growing(c, child.id) && child.id !in ids && child.children == []
    ensures HangAll(c, ids, child).Some? ==> Growing(HangAll(c, ids, child).value, child.id)
    decreases |ids|
  {
    hide Growing, Hang;
    if ids != [] {
      HangGrows(c, ids[0], child);
      if Hang(c, ids[0], child).Some? {
        HangAllGrows(Hang(c, ids[0], child).value, ids[1..], child);
      }
    }
  }

  lemma PutOnTop(c: Config, r: Rule)
    requires Growing(c, r.id) && r.children == []
    ensures Growing(c.(std := c.std + [r]), r.id) && Growing(c.(grp := c.grp + [r]), r.id)
  {
    hide Unrepeated, Leaves, Copies;
    UnrepeatedSnoc(c.std, r);
    UnrepeatedSnoc(c.grp, r);
    forall p
      ensures Leaves(c.grp + [r], p) <==> Leaves(c.grp, p)
      ensures Leaves(c.std + [r], p) <==> Leaves(c.std, p)
      ensures p != r.id ==> Copies(c.std + [r], p) == Copies(c.std, p)
    {
      LeavesSnoc(c.grp, r, p);
      LeavesSnoc(c.std, r, p);
      CopiesSnoc(c.std, r, p, r.id);
    }
  }

  lemma AcceptTidy(c: Config, r: Rule)
    requires Tidy(c) && r.children == [] && Accept(c, r).Ok?
    ensures Tidy(Accept(c, r).config)
  {
    hide Hang, HangAll, Find, Tidy, Leaves;
    WatchedIsKnown(c, r);
    NotThere(c, r.id);
    PutOnTop(c, r);
    HangAllGrows(c, r.parents, r);
    if r.unlessId != 0 {
      HangGrows(Place(c, r).value, r.unlessId, r);
    }
  }

  lemma NotThere(c: Config, id: nat)
    requires !Known(c, id)
    ensures Leaves(c.std, id) && Leaves(c.grp, id)
  {
    FindCounts(c.std, id);
    FindCounts(c.grp, id);
    NoCopiesNoChildren(c.std, id);
    NoCopiesNoChildren(c.grp, id);
  }

  /** In every accepted tree no rule hangs below itself, and the standard rules come first. */
  lemma {:induction false} ParseTidy(nodes: seq<Node>)
    requires Parse(nodes).Ok?
    ensures Tidy(Parse(nodes).config)
    decreases |nodes|
  {
    hide Accept;
    if nodes != [] {
      var before, last := nodes[..|nodes| - 1], nodes[|nodes| - 1];
      ParseTidy(before);
      if last.RuleNode? {
        AcceptTidy(Parse(before).config, Bare(last.rule));
      }
    }
  }

  /** All that is used of an accepted tree. */
  ghost predicate Accepted(c: Config) { Sound(c.std) && Sound(c.grp) && WellPlaced(c) && Tidy(c) }

  lemma ParseAccepted(nodes: seq<Node>)
    requires Parse(nodes).Ok?
    ensures Accepted(Parse(nodes).config)
  {
    hide Parse, Placed, Tidy;
    ParsePlaced(nodes);
    ParseTidy(nodes);
  }

  lemma {:induction false} NoZero(rules: seq<Rule>)
    requires Sound(rules)
    ensures Copies(rules, 0) == 0
    decreases rules
  {
    if rules != [] {
      NoZero(rules[0].children);
      NoZero(rules[1..]);
    }
  }

  // ----- a way to a rule

  type Goal = Rule -> bool

  /** An event can get to a rule of that kind: neither it nor a rule on the way watches
      another, and no rule on the way makes the choice fail. */
  ghost predicate Lives(rules: seq<Rule>, goal: Goal)
    decreases rules
  {
    exists i :: 0 <= i < |rules| && rules[i].unlessId == 0
      && (goal(rules[i]) || (!Largest(rules[i]) && Lives(rules[i].children, goal)))
  }

  /** A rule on the way, and the last rule of the event when it is looked at. */
  datatype Stop = Stop(rule: Rule, cur: nat)

  ghost function Way(rules: seq<Rule>, cur: nat, goal: Goal): set<Stop>
    requires Lives(rules, goal)
    decreases rules
  {
    var i :| 0 <= i < |rules| && rules[i].unlessId == 0
      && (goal(rules[i]) || (!Largest(rules[i]) && Lives(rules[i].children, goal)));
    {Stop(rules[i], cur)} + if goal(rules[i]) then {} else Way(rules[i].children, rules[i].id, goal)
  }

  /** The first step of a way. */
  ghost predicate Steps(rules: seq<Rule>, cur: nat, goal: Goal, i: nat)
    requires Lives(rules, goal) && i < |rules|
  {
    var r := rules[i];
    && r.unlessId == 0
    && (goal(r) || (!Largest(r) && Lives(r.children, goal)))
    && Way(rules, cur, goal) == {Stop(r, cur)} + if goal(r) then {} else Way(r.children, r.id, goal)
  }

  lemma FirstStep(rules: seq<Rule>, cur: nat, goal: Goal) returns (i: nat)
    requires Lives(rules, goal)
    ensures i < |rules| && Steps(rules, cur, goal, i)
  {
    i :| 0 <= i < |rules| && rules[i].unlessId == 0
      && (goal(rules[i]) || (!Largest(rules[i]) && Lives(rules[i].children, goal)))
      && Way(rules, cur, goal)
         == {Stop(rules[i], cur)} + if goal(rules[i]) then {} else Way(rules[i].children, rules[i].id, goal);
  }

  /** The last rules an event can have when it looks at these rules or below. */
  ghost predicate Near(rules: seq<Rule>, cur: nat, q: nat) { q == cur || !Leaves(rules, q) }

  lemma {:induction false} LeavesAt(rules: seq<Rule>, i: nat, q: nat)
    requires i < |rules| && Leaves(rules, q)
    ensures Leaves(rules[i].children, q) && (rules[i].id == q ==> rules[i].children == [])
    decreases |rules|
  {
    if i > 0 {
      LeavesAt(rules[1..], i - 1, q);
    }
  }

  lemma NearBelow(rules: seq<Rule>, i: nat, q: nat)
    requires i < |rules| && rules[i].children != [] && Near(rules[i].children, rules[i].id, q)
    ensures !Leaves(rules, q)
  {
    hide Leaves;
    if Leaves(rules, q) {
      LeavesAt(rules, i, q);
    }
  }

  lemma {:induction false} UnrepeatedAt(rules: seq<Rule>, i: nat)
    requires i < |rules| && Unrepeated(rules)
    ensures Copies(rules[i].children, rules[i].id) == 0 && Unrepeated(rules[i].children)
    decreases |rules|
  {
    if i > 0 {
      UnrepeatedAt(rules[1..], i - 1);
    }
  }

  lemma LivesInSome(rules: seq<Rule>, goal: Goal)
    requires Lives(rules, goal)
    ensures rules != []
  {
  }

  /** The stops of a way are near, and those with the first last rule are the first. */
  lemma {:induction false} WayIsNear(rules: seq<Rule>, cur: nat, goal: Goal, s: Stop)
    requires Lives(rules, goal) && s in Way(rules, cur, goal)
    ensures Near(rules, cur, s.cur) && s.rule.unlessId == 0
    ensures s.cur == cur && Leaves(rules, cur) ==> s.rule in rules
    decreases rules
  {
    hide Leaves, Lives, Way, Largest;
    var i := FirstStep(rules, cur, goal);
    if s != Stop(rules[i], cur) {
      LivesInSome(rules[i].children, goal);
      WayIsNear(rules[i].children, rules[i].id, goal, s);
      NearBelow(rules, i, s.cur);
    }
  }

  /** What the event does: it matches just one rule of each list, until it gets to a rule of
      that kind and matches none of its children. */
  ghost predicate Arrives(rules: seq<Rule>, cur: nat, m: Matcher, goal: Goal)
    decreases rules
  {
    && (forall i :: 0 <= i < |rules| ==> Fits(rules[i], cur))
    && exists r :: r in rules && Only(Matching(rules, cur, m), r)
         && if goal(r) then Matching(r.children, r.id, m) == [] else !Largest(r) && Arrives(r.children, r.id, m, goal)
  }

  /** The event matches the rules on a way and no other rules of this tree. */
  ghost predicate Follows(rules: seq<Rule>, cur: nat, m: Matcher, goal: Goal)
    requires Lives(rules, goal)
  {
    forall x, q :: Contains(rules, x) && Near(rules, cur, q) ==> m(x, q) == (Stop(x, q) in Way(rules, cur, goal))
  }

  lemma ContainsBelow(rules: seq<Rule>, i: nat, x: Rule)
    requires i < |rules|
    ensures Contains(rules, rules[i]) && (Contains(rules[i].children, x) ==> Contains(rules, x))
    ensures x in rules ==> Contains(rules, x)
  {
  }

  lemma OnlyFirst(rules: seq<Rule>, cur: nat, m: Matcher, goal: Goal, i: nat)
    requires Lives(rules, goal) && Follows(rules, cur, m, goal) && Leaves(rules, cur)
    requires i < |rules| && Steps(rules, cur, goal, i)
    ensures Only(Matching(rules, cur, m), rules[i])
  {
    hide Matching, Lives, Way, Leaves, Largest, Contains;
    forall x | x in rules
      ensures m(x, cur) <==> x == rules[i]
    {
      ContainsBelow(rules, i, x);
      if !goal(rules[i]) && Stop(x, cur) in Way(rules[i].children, rules[i].id, goal) {
        LivesInSome(rules[i].children, goal);
        WayIsNear(rules[i].children, rules[i].id, goal, Stop(x, cur));
        NearBelow(rules, i, cur);
      }
    }
    forall x
      ensures x in Matching(rules, cur, m) <==> x == rules[i]
    {
      MatchingAre(rules, cur, m, x);
    }
    assert rules[i] in Matching(rules, cur, m);
  }

  lemma NoneAtTheGoal(rules: seq<Rule>, cur: nat, m: Matcher, goal: Goal, i: nat)
    requires Lives(rules, goal) && Follows(rules, cur, m, goal) && Leaves(rules, cur)
    requires i < |rules| && Steps(rules, cur, goal, i) && goal(rules[i])
    ensures Matching(rules[i].children, rules[i].id, m) == []
  {
    hide Matching, Lives, Way, Leaves, Largest, Contains;
    var r := rules[i];
    var matching := Matching(r.children, r.id, m);
    if matching != [] {
      var x := matching[0];
      MatchingAre(r.children, r.id, m, x);
      ContainsBelow(r.children, 0, x);
      ContainsBelow(rules, i, x);
      NearBelow(rules, i, r.id);
    }
  }

  lemma FollowsBelow(rules: seq<Rule>, cur: nat, m: Matcher, goal: Goal, i: nat)
    requires Lives(rules, goal) && Follows(rules, cur, m, goal) && Leaves(rules, cur)
    requires i < |rules| && Steps(rules, cur, goal, i) && !goal(rules[i])
    ensures Follows(rules[i].children, rules[i].id, m, goal)
  {
    hide Lives, Way, Leaves, Largest, Contains;
    var r := rules[i];
    LivesInSome(r.children, goal);
    forall x, q | Contains(r.children, x) && Near(r.children, r.id, q)
      ensures m(x, q) == (Stop(x, q) in Way(r.children, r.id, goal))
    {
      ContainsBelow(rules, i, x);
      NearBelow(rules, i, q);
      assert Near(rules, cur, q) && q != cur;
    }
  }

  lemma SoundBelow(rules: seq<Rule>, i: nat)
    requires Sound(rules) && i < |rules|
    ensures Sound(rules[i].children) && Legal(rules[i])
    ensures forall k :: 0 <= k < |rules[i].children| ==> Fits(rules[i].children[k], rules[i].id)
  {
  }

  /** An event that follows a way arrives. */
  lemma {:induction false} FollowerArrives(rules: seq<Rule>, cur: nat, m: Matcher, goal: Goal)
    requires Lives(rules, goal) && Sound(rules) && Unrepeated(rules) && Leaves(rules, cur)
    requires (forall i :: 0 <= i < |rules| ==> Fits(rules[i], cur)) && Follows(rules, cur, m, goal)
    ensures Arrives(rules, cur, m, goal)
    decreases rules
  {
    hide Matching, Lives, Way, Leaves, Follows, Sound, Fits, Only, Unrepeated, Largest, Copies;
    var i := FirstStep(rules, cur, goal);
    var r := rules[i];
    OnlyFirst(rules, cur, m, goal, i);
    if goal(r) {
      NoneAtTheGoal(rules, cur, m, goal, i);
    } else {
      FollowsBelow(rules, cur, m, goal, i);
      SoundBelow(rules, i);
      UnrepeatedAt(rules, i);
      NoCopiesNoChildren(r.children, r.id);
      FollowerArrives(r.children, r.id, m, goal);
    }
    assert r in rules;
  }

  // ----- where a walk ends

  /** A rule at which an event can end. */
  function EndsAt(q: nat): Goal { (x: Rule) => x.id == q && !Largest(x) }

  /** The rule of the first step of an event that arrives. */
  lemma Arriving(rules: seq<Rule>, cur: nat, m: Matcher, goal: Goal) returns (r: Rule)
    requires Arrives(rules, cur, m, goal) && Sound(rules)
    ensures r in rules && Sound(r.children) && Legal(r) && Matching(rules, cur, m) != []
    ensures forall k :: 0 <= k < |r.children| ==> Fits(r.children[k], r.id)
    ensures Select(Matching(rules, cur, m)) == if Largest(r) then None else Some(r)
    ensures if goal(r) then Matching(r.children, r.id, m) == [] else !Largest(r) && Arrives(r.children, r.id, m, goal)
  {
    hide Matching, Sound, Fits, Select, Largest;
    r :| r in rules && Only(Matching(rules, cur, m), r)
      && if goal(r) then Matching(r.children, r.id, m) == [] else !Largest(r) && Arrives(r.children, r.id, m, goal);
    var i :| 0 <= i < |rules| && rules[i] == r;
    SoundBelow(rules, i);
    OnlySelected(Matching(rules, cur, m), r);
  }

  lemma {:induction false} ArrivesAtTheEnd(rules: seq<Rule>, cur: nat, m: Matcher, q: nat)
    requires Arrives(rules, cur, m, EndsAt(q)) && Sound(rules)
    ensures Walk(rules, cur, m) == Done(q)
    decreases rules
  {
    hide Matching, Select, Sound, Fits;
    var r := Arriving(rules, cur, m, EndsAt(q));
    if EndsAt(q)(r) {
      assert Walk(r.children, r.id, m) == Done(q);
    } else {
      ArrivesAtTheEnd(r.children, r.id, m, q);
    }
  }

  lemma {:induction false} ArrivesAtTheLargest(rules: seq<Rule>, cur: nat, m: Matcher)
    requires Arrives(rules, cur, m, Largest) && Sound(rules)
    ensures Walk(rules, cur, m) == NoFit
    decreases rules
  {
    hide Matching, Select, Sound, Fits;
    var r := Arriving(rules, cur, m, Largest);
    if !Largest(r) {
      ArrivesAtTheLargest(r.children, r.id, m);
    }
  }

  /** The rule that a walk goes on with. */
  lemma GoesOn(rules: seq<Rule>, cur: nat, m: Matcher) returns (i: nat)
    requires Sound(rules) && Select(Matching(rules, cur, m)).Some?
    ensures i < |rules| && Sound(rules[i].children) && Select(Matching(rules, cur, m)) == Some(rules[i])
    ensures rules[i].unlessId == 0 && !Largest(rules[i]) && m(rules[i], cur)
  {
    hide Matching, Select, Largest, Placed;
    var matching := Matching(rules, cur, m);
    SelectIn(matching);
    SelectedIsNotLargest(matching);
    MatchingAre(rules, cur, m, Select(matching).value);
    i :| 0 <= i < |rules| && rules[i] == Select(matching).value;
    SoundBelow(rules, i);
  }

  lemma {:induction false} EndNeedsAWay(rules: seq<Rule>, cur: nat, m: Matcher, q: nat)
    requires Sound(rules) && Walk(rules, cur, m) == Done(q)
    ensures q == cur || Lives(rules, EndsAt(q))
    decreases rules
  {
    hide Matching, Select, Sound;
    if Matching(rules, cur, m) != [] {
      var i := GoesOn(rules, cur, m);
      EndNeedsAWay(rules[i].children, rules[i].id, m, q);
      assert rules[i].id == q ==> EndsAt(q)(rules[i]);
    }
  }

  /** Only a rule with priority 0 and the largest id can make the choice fail. */
  lemma {:induction false} FailureNeedsAWay(rules: seq<Rule>, cur: nat, m: Matcher)
    requires Sound(rules) && Walk(rules, cur, m) == NoFit
    ensures Lives(rules, Largest)
    decreases rules
  {
    hide Matching, Select, Largest, Sound;
    var matching := Matching(rules, cur, m);
    if Select(matching).Some? {
      var i := GoesOn(rules, cur, m);
      FailureNeedsAWay(rules[i].children, rules[i].id, m);
    } else {
      CandidatesAreLargest(rules, cur, m);
    }
  }

  lemma CandidatesAreLargest(rules: seq<Rule>, cur: nat, m: Matcher)
    requires Sound(rules) && Matching(rules, cur, m) != [] && Select(Matching(rules, cur, m)).None?
    ensures exists i :: 0 <= i < |rules| && rules[i].unlessId == 0 && Largest(rules[i])
  {
    hide Matching, Select, Placed;
    var matching := Matching(rules, cur, m);
    SelectIsBest(matching);
    MatchingAre(rules, cur, m, matching[0]);
    var i :| 0 <= i < |rules| && rules[i] == matching[0];
  }

  // ----- through the standard rules to the group rules

  /** Some event leaves the standard rules with this last rule, or with none if it is 0. */
  ghost predicate CanEnd(std: seq<Rule>, q: nat) { q == 0 || Lives(std, EndsAt(q)) }

  ghost predicate AllFit(rules: seq<Rule>, cur: nat) { forall i :: 0 <= i < |rules| ==> Fits(rules[i], cur) }

  ghost function Along(way: set<Stop>): Matcher { (x: Rule, q: nat) => Stop(x, q) in way }

  ghost function EndWay(std: seq<Rule>, q: nat): set<Stop>
    requires CanEnd(std, q)
  {
    if q == 0 then {} else Way(std, 0, EndsAt(q))
  }

  /** Before the end no rule of that id is the last rule. */
  lemma {:induction false} BeforeTheEnd(rules: seq<Rule>, cur: nat, q: nat, s: Stop)
    requires Lives(rules, EndsAt(q)) && s in Way(rules, cur, EndsAt(q)) && cur != q
    ensures s.cur != q
    decreases rules
  {
    hide Lives, Way, Largest;
    var i := FirstStep(rules, cur, EndsAt(q));
    if s != Stop(rules[i], cur) {
      BeforeTheEnd(rules[i].children, rules[i].id, q, s);
    }
  }

  lemma {:induction false} WayHasCopies(rules: seq<Rule>, q: nat)
    requires Lives(rules, EndsAt(q))
    ensures Copies(rules, q) > 0
    decreases rules
  {
    var i :| 0 <= i < |rules| && rules[i].unlessId == 0
      && (EndsAt(q)(rules[i]) || (!Largest(rules[i]) && Lives(rules[i].children, EndsAt(q))));
    if !EndsAt(q)(rules[i]) {
      WayHasCopies(rules[i].children, q);
    }
    CopiesAt(rules, i, q);
  }

  lemma {:induction false} CopiesAt(rules: seq<Rule>, i: nat, q: nat)
    requires i < |rules| && (rules[i].id == q || Copies(rules[i].children, q) > 0)
    ensures Copies(rules, q) > 0
    decreases |rules|
  {
    if i > 0 {
      CopiesAt(rules[1..], i - 1, q);
    }
  }

  /** No group rule of the top is among the standard rules, unless it watches. */
  lemma {:induction false} GroupedIsElsewhere(rules: seq<Rule>, x: Rule)
    requires Contains(rules, x) && Grouped(x)
    requires forall i :: 0 <= i < |rules| ==>
      (Grouped(rules[i]) ==> rules[i].unlessId != 0) && Placed(rules[i].children, rules[i].id)
    ensures x.unlessId != 0
    decreases rules
  {
    var i :| 0 <= i < |rules| && (rules[i] == x || Contains(rules[i].children, x));
    if rules[i] != x {
      GroupedIsElsewhere(rules[i].children, x);
    }
  }

  lemma NoLastRuleInBoth(c: Config, q: nat)
    requires Accepted(c) && CanEnd(c.std, q)
    ensures Leaves(c.grp, q) && Leaves(c.std, 0) && Leaves(c.grp, 0)
    ensures forall p :: !Leaves(c.grp, p) ==> Leaves(c.std, p)
  {
    hide Lives, Copies, Leaves, Sound, WellPlaced, Unrepeated, EndsAt;
    NoZero(c.std);
    NoZero(c.grp);
    NoCopiesNoChildren(c.std, 0);
    NoCopiesNoChildren(c.grp, 0);
    if q != 0 {
      WayHasCopies(c.std, q);
    }
    forall p | !Leaves(c.grp, p)
      ensures Leaves(c.std, p)
    {
      NoCopiesNoChildren(c.std, p);
    }
  }

  /** Stops of the two ways do not get into each other's way. */
  lemma StandardStops(c: Config, q: nat, goal: Goal, x: Rule, p: nat)
    requires Accepted(c) && CanEnd(c.std, q) && Lives(c.grp, goal)
    requires Contains(c.std, x) && Near(c.std, 0, p)
    ensures Stop(x, p) !in Way(c.grp, q, goal)
  {
    hide Lives, Leaves, Sound, Tidy, Way, Placed, Contains, EndsAt;
    NoLastRuleInBoth(c, q);
    if Stop(x, p) in Way(c.grp, q, goal) {
      WayIsNear(c.grp, q, goal, Stop(x, p));
      assert p == q;
      var i :| 0 <= i < |c.grp| && c.grp[i] == x;
      GroupedIsElsewhere(c.std, x);
    }
  }

  lemma GroupStops(c: Config, q: nat, x: Rule, p: nat)
    requires Accepted(c) && CanEnd(c.std, q) && Near(c.grp, q, p)
    ensures Stop(x, p) !in EndWay(c.std, q)
  {
    hide Lives, Leaves, Sound, Tidy, Way, WellPlaced, EndsAt;
    NoLastRuleInBoth(c, q);
    if Stop(x, p) in EndWay(c.std, q) {
      WayIsNear(c.std, 0, EndsAt(q), Stop(x, p));
      BeforeTheEnd(c.std, 0, q, Stop(x, p));
    }
  }

  lemma StandardFits(c: Config)
    requires Accepted(c)
    ensures AllFit(c.std, 0)
  {
  }

  lemma NothingFollowed(rules: seq<Rule>, cur: nat, m: Matcher)
    requires AllFit(rules, cur) && forall x :: Contains(rules, x) ==> !m(x, cur)
    ensures Walk(rules, cur, m) == Done(cur)
  {
    hide Matching, Contains, Fits;
    var matching := Matching(rules, cur, m);
    if matching != [] {
      MatchingAre(rules, cur, m, matching[0]);
      var i :| 0 <= i < |rules| && rules[i] == matching[0];
      ContainsBelow(rules, i, matching[0]);
    }
  }

  /** An event can leave the standard rules with that last rule, whatever it does elsewhere. */
  lemma StandardEnds(c: Config, q: nat, m: Matcher)
    requires Accepted(c) && CanEnd(c.std, q)
    requires forall x, p :: Contains(c.std, x) && Near(c.std, 0, p) ==> m(x, p) == (Stop(x, p) in EndWay(c.std, q))
    ensures Walk(c.std, 0, m) == Done(q)
  {
    hide Lives, Leaves, Sound, WellPlaced, Way, Contains, Unrepeated, StandardFirst, EndsAt, Walk, Fits;
    NoLastRuleInBoth(c, q);
    StandardFits(c);
    if q == 0 {
      NothingFollowed(c.std, 0, m);
    } else {
      FollowerArrives(c.std, 0, m, EndsAt(q));
      ArrivesAtTheEnd(c.std, 0, m, q);
    }
  }

  /** Whatever the last rule after the standard rules and the kind of group rule: if both can
      be reached, some event reaches both. */
  lemma GroupArrives(c: Config, q: nat, goal: Goal) returns (m: Matcher)
    requires Accepted(c) && CanEnd(c.std, q) && AllFit(c.grp, q) && Lives(c.grp, goal)
    ensures Walk(c.std, 0, m) == Done(q) && Arrives(c.grp, q, m, goal)
  {
    hide Lives, Leaves, Sound, WellPlaced, Way, Contains, Unrepeated,
      StandardFirst, EndsAt, Walk, Fits, Near, EndWay, Arrives;
    m := Along(EndWay(c.std, q) + Way(c.grp, q, goal));
    forall x, p | Contains(c.std, x) && Near(c.std, 0, p)
      ensures m(x, p) == (Stop(x, p) in EndWay(c.std, q))
    {
      StandardStops(c, q, goal, x, p);
    }
    StandardEnds(c, q, m);
    forall x, p | Contains(c.grp, x) && Near(c.grp, q, p)
      ensures m(x, p) == (Stop(x, p) in Way(c.grp, q, goal))
    {
      GroupStops(c, q, x, p);
    }
    NoLastRuleInBoth(c, q);
    FollowerArrives(c.grp, q, m, goal);
  }

  /** So can a kind of standard rule. */
  lemma StandardArrives(c: Config, goal: Goal) returns (m: Matcher)
    requires Accepted(c) && Lives(c.std, goal)
    ensures Arrives(c.std, 0, m, goal)
  {
    hide Lives, Leaves, Sound, WellPlaced, Way, Contains, Unrepeated, StandardFirst, Fits, Near, Arrives;
    NoLastRuleInBoth(c, 0);
    StandardFits(c);
    m := Along(Way(c.std, 0, goal));
    FollowerArrives(c.std, 0, m, goal);
  }

  /** And every last rule. */
  lemma SomeEventEnds(c: Config, q: nat) returns (m: Matcher)
    requires Accepted(c) && CanEnd(c.std, q)
    ensures Walk(c.std, 0, m) == Done(q)
  {
    hide Lives, Leaves, Sound, WellPlaced, Way, Contains, Unrepeated, StandardFirst, Near, EndsAt, Walk, EndWay;
    m := Along(EndWay(c.std, q));
    StandardEnds(c, q, m);
  }
}
