/** How an event walks down the rule tree: which of the matching rules is chosen on each
    level, and when the walk ends with an exception. */
module RuleWalk {
  import opened Optional
  import opened RuleTree

  // ----- choosing among the matching rules

  /** Higher priority first, then lower id; measured against priority 0 and the largest id
      while nothing is chosen. */
  predicate Better(r: Rule, fit: Option<Rule>) {
    var maxPriority := if fit.Some? then fit.value.priority else 0;
    var minId := if fit.Some? then fit.value.id else MAX_ID;
    r.priority > maxPriority || (r.priority == maxPriority && r.id < minId)
  }

  function Select(matching: seq<Rule>): Option<Rule> {
    if matching == [] then None
    else
      var before, last := Select(matching[..|matching| - 1]), matching[|matching| - 1];
      if Better(last, before) then Some(last) else before
  }

  /** The choice is a matching rule of the highest priority, and of the lowest id among
      those. There is none exactly when every matching rule has priority 0 and the largest
      possible id: the exception that "should never happen". */
  lemma {:induction false} SelectIsBest(matching: seq<Rule>)
    requires forall r :: r in matching ==> r.id <= MAX_ID
    ensures Select(matching).None? <==> forall r :: r in matching ==> r.priority == 0 && r.id == MAX_ID
    ensures Select(matching).Some? ==>
      var fit := Select(matching).value;
      fit in matching && forall r :: r in matching ==>
        r.priority < fit.priority || (r.priority == fit.priority && fit.id <= r.id)
  {
    if matching != [] {
      var before, last := matching[..|matching| - 1], matching[|matching| - 1];
      SelectIsBest(before);
      assert last in matching && forall r :: r in matching <==> r in before || r == last by {
        assert matching == before + [last];
      }
    }
  }

  lemma {:induction false} SelectIn(matching: seq<Rule>)
    ensures Select(matching).Some? ==> Select(matching).value in matching
  {
    if matching != [] {
      SelectIn(matching[..|matching| - 1]);
    }
  }

  // ----- walking down

  /** Whether a rule matches an event whose last rule is the given one; unless rules never do. */
  type Matcher = (Rule, nat) -> bool

  /** An event that no rule matches. */
  predicate Never(r: Rule, cur: nat) { false }

  function Matching(rules: seq<Rule>, cur: nat, m: Matcher): (r: seq<Rule>)
    ensures forall x :: x in r ==> x in rules
  {
    if rules == [] then []
    else
      var last := rules[|rules| - 1];
      Matching(rules[..|rules| - 1], cur, m) + if last.unlessId == 0 && m(last, cur) then [last] else []
  }

  lemma LastCandidate(rules: seq<Rule>, r: Rule, cur: nat, m: Matcher)
    ensures Matching(rules + [r], cur, m) == Matching(rules, cur, m) + if r.unlessId == 0 && m(r, cur) then [r] else []
  {
    assert (rules + [r])[..|rules|] == rules;
  }

  lemma OneCandidate(r: Rule, cur: nat, m: Matcher)
    ensures Matching([r], cur, m) == if r.unlessId == 0 && m(r, cur) then [r] else []
    ensures Select([r]) == if Better(r, None) then Some(r) else None
  {
    assert [] + [r] == [r] && [r][..0] == [];
    LastCandidate([], r, cur, m);
  }

  datatype Outcome = Done(ruleId: nat) | UnknownChild | NoFit

  /** One list of rules, then the children of the rule that fits. The check of an unless
      rule throws when the event comes neither from a parent nor from the watched rule. */
  function Walk(rules: seq<Rule>, cur: nat, m: Matcher): Outcome
    decreases rules
  {
    if exists i :: 0 <= i < |rules| && !Fits(rules[i], cur) then UnknownChild
    else
      var matching := Matching(rules, cur, m);
      if matching == [] then Done(cur)
      else
        SelectIn(matching);
        match Select(matching)
        case None => NoFit
        case Some(fit) => Walk(fit.children, fit.id, m)
  }

  /** Standard rules first, then group rules, both with the event as it is by then. */
  function Process(c: Config, m: Matcher): Outcome {
    var o := Walk(c.std, 0, m);
    if o.Done? then Walk(c.grp, o.ruleId, m) else o
  }

  /** The loop that chooses. */
  method ChooseFit(matching: seq<Rule>) returns (fit: Option<Rule>)
    ensures fit == Select(matching)
  {
    var maxPriority, minId := 0, MAX_ID;
    fit := None;
    for i := 0 to |matching|
      invariant fit == Select(matching[..i])
      invariant maxPriority == (if fit.Some? then fit.value.priority else 0)
        && minId == (if fit.Some? then fit.value.id else MAX_ID)
    {
      var r := matching[i];
      assert matching[..i + 1][..i] == matching[..i];
      if r.priority > maxPriority || (r.priority == maxPriority && r.id < minId) {
        fit := Some(r);
        minId := r.id;
        maxPriority := r.priority;
      }
    }
    assert matching[..|matching|] == matching;
  }

  /** check_top_rules. */
  method CheckTopRules(rules: seq<Rule>, cur: nat, m: Matcher) returns (o: Outcome)
    ensures o == Walk(rules, cur, m)
    decreases rules
  {
    var matching := [];
    for i := 0 to |rules|
      invariant matching == Matching(rules[..i], cur, m)
      invariant forall k :: 0 <= k < i ==> Fits(rules[k], cur)
    {
      var r := rules[i];
      assert rules[..i + 1][..i] == rules[..i];
      if r.unlessId != 0 {
        if !(cur in r.parents || cur == r.unlessId) {
          assert !Fits(rules[i], cur);
          return UnknownChild;
        }
      } else if m(r, cur) {
        matching := matching + [r];
      }
    }
    assert rules[..|rules|] == rules;
    if matching == [] {
      return Done(cur);
    }
    SelectIn(matching);
    var fit := ChooseFit(matching);
    if fit.None? {
      return NoFit;
    }
    o := CheckTopRules(fit.value.children, fit.value.id, m);
  }

  /** Below the top the exception is unreachable, whatever matches. */
  lemma {:induction false} WalkBelow(rules: seq<Rule>, cur: nat, m: Matcher)
    requires Placed(rules, cur)
    ensures Walk(rules, cur, m) != UnknownChild
    decreases rules
  {
    var matching := Matching(rules, cur, m);
    SelectIn(matching);
    if matching != [] && Select(matching).Some? {
      WalkBelow(Select(matching).value.children, Select(matching).value.id, m);
    }
  }

  lemma WalkTop(rules: seq<Rule>, grouped: bool, cur: nat, m: Matcher)
    requires PlacedOnTop(rules, grouped)
    ensures Walk(rules, cur, m) == UnknownChild <==> exists i :: 0 <= i < |rules| && !Fits(rules[i], cur)
  {
    var matching := Matching(rules, cur, m);
    SelectIn(matching);
    if matching != [] && Select(matching).Some? {
      WalkBelow(Select(matching).value.children, Select(matching).value.id, m);
    }
  }

  /** For every accepted rules file and whatever matches: the exception "Unknown child case"
      is thrown exactly when a top-level group rule that is also an unless rule meets an
      event whose last standard rule is neither one of its parents nor the watched rule. */
  lemma UnknownChildIff(nodes: seq<Node>, m: Matcher)
    requires Parse(nodes).Ok?
    ensures var c := Parse(nodes).config;
      var o := Walk(c.std, 0, m);
      Process(c, m) == UnknownChild <==> o.Done? && exists i :: 0 <= i < |c.grp| && !Fits(c.grp[i], o.ruleId)
  {
    hide Parse, Walk;
    ParsePlaced(nodes);
    var c := Parse(nodes).config;
    WalkTop(c.std, false, 0, m);
    var o := Walk(c.std, 0, m);
    if o.Done? {
      WalkTop(c.grp, true, o.ruleId, m);
    }
  }
}
