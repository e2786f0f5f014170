/** The rule tree: which rules of a file are accepted and where they are put. */
module RuleTree {
  import opened Optional

  const NO_PRIORITY: nat := 0xFFFF
  const MAX_ID: nat := 0xFFFF_FFFF

  datatype Activation = Activation(group: string, time: nat, rate: nat, reset: bool)

  datatype Rule = Rule(
    id: nat, priority: nat, parents: seq<nat>, triggerGroup: string, activation: Option<Activation>, sameField: string,
    groups: set<string>, unlessId: nat, children: seq<Rule>)
  {
    function ActivationGroup(): string { if activation.Some? then activation.value.group else "" }
  }

  datatype Config = Config(groups: set<string>, std: seq<Rule>, grp: seq<Rule>)

  datatype Error =
    | OutOfRange | NoTime | NoRate | RateTooLow | NoId | DuplicateId | NoPriority | ParentAndGroup
    | SameFieldAlone | NoSuchUnless | UnlessWithoutParent | BadTriggerGroup | BadActivationGroup
    | BadGroup | OwnParent | NoSuchParent | BadGroupNode

  datatype Result = Ok(config: Config) | Err(error: Error)

  // ----- looking up and inserting

  /** The first rule with the given id, a rule before its children. */
  function Find(rules: seq<Rule>, id: nat): Option<Rule>
    decreases rules
  {
    if rules == [] then None
    else if rules[0].id == id then Some(rules[0])
    else
      var below := Find(rules[0].children, id);
      if below.Some? then below else Find(rules[1..], id)
  }

  /** Append a child to the rule that a lookup finds. */
  function AddChild(rules: seq<Rule>, id: nat, child: Rule): seq<Rule>
    decreases rules
  {
    if rules == [] then []
    else if rules[0].id == id then [rules[0].(children := rules[0].children + [child])] + rules[1..]
    else if Find(rules[0].children, id).Some? then
      [rules[0].(children := AddChild(rules[0].children, id, child))] + rules[1..]
    else [rules[0]] + AddChild(rules[1..], id, child)
  }

  predicate Known(c: Config, id: nat) { Find(c.std, id).Some? || Find(c.grp, id).Some? }

  /** Under the rule with this id, looked up in the standard rules first. */
  function Hang(c: Config, id: nat, child: Rule): Option<Config> {
    if Find(c.std, id).Some? then Some(c.(std := AddChild(c.std, id, child)))
    else if Find(c.grp, id).Some? then Some(c.(grp := AddChild(c.grp, id, child)))
    else None
  }

  function HangAll(c: Config, ids: seq<nat>, child: Rule): Option<Config>
    decreases |ids|
  {
    if ids == [] then Some(c)
    else
      var first := Hang(c, ids[0], child);
      if first.None? then None else HangAll(first.value, ids[1..], child)
  }

  // ----- accepting a rule

  /** Numbers that do not fit their C types are rejected when they are read. */
  predicate InRange(r: Rule) {
    && r.id <= MAX_ID && r.priority <= NO_PRIORITY && r.unlessId <= MAX_ID
    && (forall i :: 0 <= i < |r.parents| ==> r.parents[i] <= MAX_ID)
    && (r.activation.Some? ==> r.activation.value.time <= 0xFFFF && r.activation.value.rate <= 0xFFFF)
  }

  /** The checks in their order; those made while the node is read come first. */
  function Flaw(c: Config, r: Rule): Option<Error> {
    if !InRange(r) then Some(OutOfRange)
    else if r.activation.Some? && r.activation.value.time == 0 then Some(NoTime)
    else if r.activation.Some? && r.activation.value.rate == 0 then Some(NoRate)
    else if r.activation.Some? && r.activation.value.rate < 2 then Some(RateTooLow)
    else if r.id == 0 then Some(NoId)
    else if Known(c, r.id) then Some(DuplicateId)
    else if r.priority == NO_PRIORITY then Some(NoPriority)
    else if r.parents != [] && r.triggerGroup != "" then Some(ParentAndGroup)
    else if r.sameField != "" && r.ActivationGroup() == "" then Some(SameFieldAlone)
    else if r.unlessId != 0 && !Known(c, r.unlessId) then Some(NoSuchUnless)
    else if r.unlessId != 0 && r.parents == [] then Some(UnlessWithoutParent)
    else if r.triggerGroup != "" && r.triggerGroup !in c.groups && r.triggerGroup != "!ALWAYS" then
      Some(BadTriggerGroup)
    else if r.ActivationGroup() != "" && r.ActivationGroup() !in c.groups then Some(BadActivationGroup)
    else if !(r.groups <= c.groups) then Some(BadGroup)
    else if r.id in r.parents then Some(OwnParent)
    else None
  }

  /** Group rules and rules without a parent go to the top, the others under every parent. */
  function Place(c: Config, r: Rule): Option<Config> {
    if Grouped(r) then Some(c.(grp := c.grp + [r]))
    else if r.parents == [] then Some(c.(std := c.std + [r]))
    else HangAll(c, r.parents, r)
  }

  function Accept(c: Config, r: Rule): Result {
    var flaw := Flaw(c, r);
    if flaw.Some? then Err(flaw.value)
    else
      var placed := Place(c, r);
      if placed.None? then Err(NoSuchParent)
      else if r.unlessId == 0 then Ok(placed.value)
      else
        var hung := Hang(placed.value, r.unlessId, r);
        if hung.None? then Err(NoSuchUnless) else Ok(hung.value)
  }

  /** The nodes of a rules file. */
  datatype Node = GroupNode(name: string) | RuleNode(rule: Rule)

  function Parse(nodes: seq<Node>): Result {
    if nodes == [] then Ok(Config({}, [], []))
    else
      var before, last := Parse(nodes[..|nodes| - 1]), nodes[|nodes| - 1];
      if before.Err? then before
      else match last
        case GroupNode(name) =>
          if name == "" || name[0] == '!' then Err(BadGroupNode)
          else Ok(before.config.(groups := before.config.groups + {name}))
        case RuleNode(r) => Accept(before.config, r.(children := []))
  }

  /** The parser's two rule lists, changed rule by rule. */
  class Parser {
    var groups: set<string>
    var std: seq<Rule>
    var grp: seq<Rule>

    ghost function View(): Config
      reads this
    {
      Config(groups, std, grp)
    }

    constructor ()
      ensures Parse([]) == Ok(View())
    {
      groups, std, grp := {}, [], [];
    }

    method AddGroup(name: string) returns (error: Option<Error>)
      modifies this
      ensures forall nodes :: Parse(nodes) == Ok(old(View())) ==>
                Parse(nodes + [GroupNode(name)]) == if error.None? then Ok(View()) else Err(error.value)
    {
      ghost var c := View();
      if name == "" || name[0] == '!' {
        error := Some(BadGroupNode);
      } else {
        groups := groups + {name};
        error := None;
      }
      forall nodes | Parse(nodes) == Ok(c)
        ensures Parse(nodes + [GroupNode(name)]) == if error.None? then Ok(View()) else Err(error.value)
      {
        ParseOne(nodes, GroupNode(name));
      }
    }

    /** Hang one copy of the rule under the rule with this id. */
    method AddUnder(id: nat, r: Rule) returns (found: bool)
      modifies `std, `grp
      ensures found <==> Hang(old(View()), id, r).Some?
      ensures found ==> Hang(old(View()), id, r) == Some(View())
    {
      if Find(std, id).Some? {
        std := AddChild(std, id, r);
        found := true;
      } else if Find(grp, id).Some? {
        grp := AddChild(grp, id, r);
        found := true;
      } else {
        found := false;
      }
    }

    method AddUnderAll(r: Rule) returns (found: bool)
      modifies `std, `grp
      ensures found <==> HangAll(old(View()), r.parents, r).Some?
      ensures found ==> HangAll(old(View()), r.parents, r) == Some(View())
    {
      hide Hang;
      var i := 0;
      while i < |r.parents|
        invariant 0 <= i <= |r.parents|
        invariant HangAll(View(), r.parents[i..], r) == HangAll(old(View()), r.parents, r)
      {
        assert r.parents[i..][1..] == r.parents[i + 1..];
        found := AddUnder(r.parents[i], r);
        if !found {
          return;
        }
        i := i + 1;
      }
      found := true;
    }

    method AddRule(ex: Rule) returns (error: Option<Error>)
      modifies this
      ensures var was := Accept(old(View()), ex.(children := []));
        if error.Some? then was == Err(error.value) else was == Ok(View())
    {
      hide Hang, HangAll, Known;
      var r := ex.(children := []);
      error := Flaw(Config(groups, std, grp), r);
      if error.Some? {
        return;
      }
      var found := true;
      if Grouped(r) {
        grp := grp + [r];
      } else if r.parents == [] {
        std := std + [r];
      } else {
        found := AddUnderAll(r);
      }
      if !found {
        return Some(NoSuchParent);
      }
      if r.unlessId != 0 {
        found := AddUnder(r.unlessId, r);
        if !found {
          return Some(NoSuchUnless);
        }
      }
    }
  }

  lemma NothingParsed()
    ensures Parse([]) == Ok(Config({}, [], []))
  {
  }

  lemma ParseOne(nodes: seq<Node>, n: Node)
    requires Parse(nodes).Ok?
    ensures Parse(nodes + [n]) ==
      match n
      case GroupNode(name) =>
        if name == "" || name[0] == '!' then Err(BadGroupNode)
        else Ok(Parse(nodes).config.(groups := Parse(nodes).config.groups + {name}))
      case RuleNode(r) => Accept(Parse(nodes).config, r.(children := []))
  {
    assert (nodes + [n])[..|nodes|] == nodes;
  }

  // ----- where rules with a parent end up

  /** Under a rule with id `owner`, an unless rule is a child of that rule or watches it. */
  predicate Fits(r: Rule, owner: nat) { r.unlessId != 0 ==> owner in r.parents || owner == r.unlessId }

  /** Below a rule with id `owner` a rule names that rule as its parent or as the one it watches. */
  predicate Under(r: Rule, owner: nat) { owner in r.parents || owner == r.unlessId }

  predicate Grouped(r: Rule) { r.triggerGroup != "" || r.ActivationGroup() != "" }

  /** A rule with a group is below the top only where it watches. */
  predicate Below(r: Rule, owner: nat) { Under(r, owner) && (Grouped(r) ==> r.unlessId != 0) }

  /** Numbers fit, an activation node has a time and a rate of at least two, and a rule that
      watches another has a parent. */
  predicate Legal(r: Rule) {
    && InRange(r) && r.id > 0 && (r.unlessId != 0 ==> r.parents != [])
    && (r.activation.Some? ==> r.activation.value.time > 0 && r.activation.value.rate >= 2)
  }

  ghost predicate Placed(rules: seq<Rule>, owner: nat)
    decreases rules
  {
    forall i :: 0 <= i < |rules| ==> Below(rules[i], owner) && Legal(rules[i]) && Placed(rules[i].children, rules[i].id)
  }

  /** The rules at the top, with or without a group; only one with an activation group can
      have a parent. */
  ghost predicate PlacedOnTop(rules: seq<Rule>, grouped: bool) {
    forall i :: 0 <= i < |rules| ==>
      && Grouped(rules[i]) == grouped && (rules[i].parents != [] ==> rules[i].ActivationGroup() != "")
      && Legal(rules[i]) && Placed(rules[i].children, rules[i].id)
  }

  ghost predicate WellPlaced(c: Config) { PlacedOnTop(c.std, false) && PlacedOnTop(c.grp, true) }

  lemma {:induction false} AddChildPlaced(rules: seq<Rule>, id: nat, child: Rule, owner: nat)
    requires Placed(rules, owner) && Below(child, id) && Legal(child) && child.children == []
    ensures Placed(AddChild(rules, id, child), owner)
    decreases rules
  {
    if rules != [] {
      var r := rules[0];
      AddChildPlaced(r.children, id, child, r.id);
      AddChildPlaced(rules[1..], id, child, owner);
      if r.id == id {
        PlacedSnoc(r.children, child, id);
      }
    }
  }

  lemma PlacedSnoc(rules: seq<Rule>, child: Rule, owner: nat)
    requires Placed(rules, owner) && Below(child, owner) && Legal(child) && child.children == []
    ensures Placed(rules + [child], owner)
  {
  }

  lemma {:induction false} AddChildOnTop(rules: seq<Rule>, id: nat, child: Rule, grouped: bool)
    requires PlacedOnTop(rules, grouped) && Below(child, id) && Legal(child) && child.children == []
    ensures PlacedOnTop(AddChild(rules, id, child), grouped)
    decreases rules
  {
    if rules != [] {
      var r := rules[0];
      AddChildPlaced(r.children, id, child, r.id);
      AddChildOnTop(rules[1..], id, child, grouped);
      if r.id == id {
        PlacedSnoc(r.children, child, id);
      }
    }
  }

  lemma HangPlaced(c: Config, id: nat, child: Rule)
    requires WellPlaced(c) && Below(child, id) && Legal(child) && child.children == []
    ensures Hang(c, id, child).Some? ==> WellPlaced(Hang(c, id, child).value)
  {
    hide PlacedOnTop, AddChild;
    AddChildOnTop(c.std, id, child, false);
    AddChildOnTop(c.grp, id, child, true);
  }

  lemma {:induction false} HangAllPlaced(c: Config, ids: seq<nat>, child: Rule)
    requires WellPlaced(c) && child.children == [] && Legal(child) && !Grouped(child)
    requires forall id :: id in ids ==> id in child.parents
    ensures HangAll(c, ids, child).Some? ==> WellPlaced(HangAll(c, ids, child).value)
    decreases |ids|
  {
    hide WellPlaced, Hang;
    if ids != [] {
      HangPlaced(c, ids[0], child);
      if Hang(c, ids[0], child).Some? {
        HangAllPlaced(Hang(c, ids[0], child).value, ids[1..], child);
      }
    }
  }

  lemma AcceptPlaced(c: Config, r: Rule)
    requires WellPlaced(c) && r.children == []
    ensures Accept(c, r).Ok? ==> WellPlaced(Accept(c, r).config)
  {
    hide Hang, HangAll, Known, Placed;
    if Flaw(c, r).Some? {
      return;
    }
    if !Grouped(r) {
      HangAllPlaced(c, r.parents, r);
    }
    NoChildren(r);
    if Place(c, r).Some? && r.unlessId != 0 {
      HangPlaced(Place(c, r).value, r.unlessId, r);
    }
  }

  lemma NoChildren(r: Rule)
    requires r.children == []
    ensures Placed(r.children, r.id)
  {
  }

  /** In every tree that a rules file can produce, rules with a parent are well placed. */
  lemma {:induction false} ParsePlaced(nodes: seq<Node>)
    ensures Parse(nodes).Ok? ==> WellPlaced(Parse(nodes).config)
    decreases |nodes|
  {
    hide Accept, PlacedOnTop;
    if nodes == [] {
      EmptyPlaced(false);
      EmptyPlaced(true);
    } else {
      ParsePlaced(nodes[..|nodes| - 1]);
      var last := nodes[|nodes| - 1];
      if last.RuleNode? && Parse(nodes[..|nodes| - 1]).Ok? {
        AcceptPlaced(Parse(nodes[..|nodes| - 1]).config, last.rule.(children := []));
      }
    }
  }

  lemma EmptyPlaced(grouped: bool)
    ensures PlacedOnTop([], grouped)
  {
  }

  /** The rule is somewhere in the tree. */
  ghost predicate Contains(rules: seq<Rule>, r: Rule)
    decreases rules
  {
    exists i :: 0 <= i < |rules| && (rules[i] == r || Contains(rules[i].children, r))
  }

  lemma {:induction false} PlacedIsLegal(rules: seq<Rule>, r: Rule)
    requires Contains(rules, r)
    requires forall i :: 0 <= i < |rules| ==> Legal(rules[i]) && Placed(rules[i].children, rules[i].id)
    ensures Legal(r)
    decreases rules
  {
    var i :| 0 <= i < |rules| && (rules[i] == r || Contains(rules[i].children, r));
    if rules[i] != r {
      PlacedIsLegal(rules[i].children, r);
    }
  }

  /** In every accepted rules file an activation rule waits for at least two events, which
      is what the window of such a rule relies on. */
  lemma RatesAreLegal(nodes: seq<Node>, r: Rule)
    requires Parse(nodes).Ok?
    requires Contains(Parse(nodes).config.std, r) || Contains(Parse(nodes).config.grp, r)
    ensures r.activation.Some? ==> r.activation.value.rate >= 2
  {
    hide Parse, Contains;
    ParsePlaced(nodes);
    if Contains(Parse(nodes).config.std, r) {
      PlacedIsLegal(Parse(nodes).config.std, r);
    } else {
      PlacedIsLegal(Parse(nodes).config.grp, r);
    }
  }
}
