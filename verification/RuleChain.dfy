/** Which rule an event ends with: a chain of rules, each the best of those that match below
    the one before, up to a rule below which none matches. */
module RuleChain {
  import opened Optional
  import opened RuleTree
  import opened RuleWalk
  import opened RuleWay

  /** A rule that takes part: it does not watch another, and it matches. */
  predicate Candidate(r: Rule, cur: nat, m: Matcher) { r.unlessId == 0 && m(r, cur) }

  /** Higher priority, or the same and a lower id. */
  predicate Before(r: Rule, x: Rule) { r.priority > x.priority || (r.priority == x.priority && r.id < x.id) }

  /** Rule i is the first of the best candidates, and not the one that is never chosen. */
  ghost predicate Best(rules: seq<Rule>, cur: nat, m: Matcher, i: nat) {
    && i < |rules| && Candidate(rules[i], cur, m) && (rules[i].priority > 0 || rules[i].id < MAX_ID)
    && (forall k :: 0 <= k < i && Candidate(rules[k], cur, m) ==> Before(rules[i], rules[k]))
    && forall k :: i < k < |rules| && Candidate(rules[k], cur, m) ==> !Before(rules[k], rules[i])
  }

  ghost predicate IsBest(rules: seq<Rule>, cur: nat, m: Matcher, i: nat, r: Rule) {
    Best(rules, cur, m, i) && i < |rules| && rules[i] == r
  }

  /** Every rule of the list that watches another knows the event's last rule. */
  ghost predicate NoneThrows(rules: seq<Rule>, cur: nat) {
    forall i :: 0 <= i < |rules| && rules[i].unlessId != 0 ==> cur in rules[i].parents || cur == rules[i].unlessId
  }

  /** The rules that are chosen, one after the other. */
  ghost predicate Chain(rules: seq<Rule>, cur: nat, m: Matcher, chosen: seq<Rule>)
    decreases |chosen|
  {
    && NoneThrows(rules, cur)
    && if chosen == [] then forall i :: 0 <= i < |rules| ==> !Candidate(rules[i], cur, m)
       else
         && Chain(chosen[0].children, chosen[0].id, m, chosen[1..])
         && exists i: nat :: IsBest(rules, cur, m, i, chosen[0])
  }

  function LastId(cur: nat, chosen: seq<Rule>): nat { if chosen == [] then cur else chosen[|chosen| - 1].id }

  // ----- the choice

  /** The last rule of a list is the best: it is better than all candidates in front of it. */
  ghost predicate Beats(last: Rule, front: seq<Rule>, cur: nat, m: Matcher) {
    && Candidate(last, cur, m) && (last.priority > 0 || last.id < MAX_ID)
    && forall k :: 0 <= k < |front| && Candidate(front[k], cur, m) ==> Before(last, front[k])
  }

  lemma BestSnoc(front: seq<Rule>, last: Rule, cur: nat, m: Matcher, i: nat)
    ensures i < |front| ==> (Best(front + [last], cur, m, i)
      <==> Best(front, cur, m, i) && !(Candidate(last, cur, m) && Before(last, front[i])))
    ensures i == |front| ==> (Best(front + [last], cur, m, i) <==> Beats(last, front, cur, m))
    ensures i > |front| ==> !Best(front + [last], cur, m, i)
  {
    var rules := front + [last];
    assert forall k :: 0 <= k < |front| ==> rules[k] == front[k];
    assert rules[|front|] == last;
  }

  lemma SelectSnoc(matching: seq<Rule>, r: Rule)
    ensures Select(matching + [r]) == if Better(r, Select(matching)) then Some(r) else Select(matching)
  {
    assert (matching + [r])[..|matching|] == matching;
  }

  lemma CandidatesSnoc(front: seq<Rule>, last: Rule, cur: nat, m: Matcher)
    ensures var before := Matching(front, cur, m);
      Matching(front + [last], cur, m) == if Candidate(last, cur, m) then before + [last] else before
  {
    LastCandidate(front, last, cur, m);
  }

  lemma Split(rules: seq<Rule>) returns (front: seq<Rule>, last: Rule)
    requires rules != []
    ensures rules == front + [last]
  {
    front, last := rules[..|rules| - 1], rules[|rules| - 1];
  }

  ghost predicate Numbered(rules: seq<Rule>) { forall k :: 0 <= k < |rules| ==> rules[k].id <= MAX_ID }

  lemma NumberedSnoc(front: seq<Rule>, last: Rule)
    requires Numbered(front + [last])
    ensures Numbered(front) && last.id <= MAX_ID
  {
    assert (front + [last])[|front|] == last;
    assert forall k :: 0 <= k < |front| ==> (front + [last])[k] == front[k];
  }

  lemma {:induction false} BestIsSelected(rules: seq<Rule>, cur: nat, m: Matcher, i: nat)
    requires Best(rules, cur, m, i) && Numbered(rules)
    ensures i < |rules| && Matching(rules, cur, m) != [] && Select(Matching(rules, cur, m)) == Some(rules[i])
    decreases |rules|
  {
    hide Matching, Select, Best, Numbered, Candidate, Beats;
    Inside(rules, cur, m, i);
    var front, last := Split(rules);
    NumberedSnoc(front, last);
    BestSnoc(front, last, cur, m, i);
    CandidatesSnoc(front, last, cur, m);
    var before := Matching(front, cur, m);
    SelectSnoc(before, last);
    if i < |front| {
      BestIsSelected(front, cur, m, i);
    } else {
      BeatsSelected(front, cur, m, last);
    }
  }

  lemma BeatsSelected(front: seq<Rule>, cur: nat, m: Matcher, last: Rule)
    requires Beats(last, front, cur, m) && last.id <= MAX_ID
    ensures Candidate(last, cur, m) && Better(last, Select(Matching(front, cur, m)))
  {
    hide Matching, Select;
    SelectIn(Matching(front, cur, m));
    if Select(Matching(front, cur, m)).Some? {
      var fit := Select(Matching(front, cur, m)).value;
      MatchingAre(front, cur, m, fit);
      var k :| 0 <= k < |front| && front[k] == fit;
      assert Before(last, front[k]);
    }
  }

  /** What is selected is the first of the best. */
  lemma {:induction false} SelectedIsBest(rules: seq<Rule>, cur: nat, m: Matcher) returns (i: nat)
    requires Select(Matching(rules, cur, m)).Some? && Numbered(rules)
    ensures Best(rules, cur, m, i) && i < |rules| && Select(Matching(rules, cur, m)) == Some(rules[i])
    decreases |rules|
  {
    hide Matching, Select, Best, Numbered, Candidate, Beats;
    if rules == [] {
      NothingSelected(cur, m);
    }
    var front, last := Split(rules);
    NumberedSnoc(front, last);
    CandidatesSnoc(front, last, cur, m);
    var before := Matching(front, cur, m);
    SelectSnoc(before, last);
    if Candidate(last, cur, m) && Better(last, Select(before)) {
      i := |front|;
      AllAreWorse(front, cur, m, last);
    } else {
      i := SelectedIsBest(front, cur, m);
    }
    BestSnoc(front, last, cur, m, i);
  }

  lemma NothingSelected(cur: nat, m: Matcher)
    ensures Select(Matching([], cur, m)).None?
  {
  }

  lemma AllAreWorse(front: seq<Rule>, cur: nat, m: Matcher, last: Rule)
    requires Candidate(last, cur, m) && Better(last, Select(Matching(front, cur, m)))
      && last.id <= MAX_ID && Numbered(front)
    ensures Beats(last, front, cur, m)
  {
    hide Select, Matching;
    var matching := Matching(front, cur, m);
    forall r | r in matching
      ensures r.id <= MAX_ID
    {
      MatchingAre(front, cur, m, r);
    }
    SelectIsBest(matching);
    forall k | 0 <= k < |front| && Candidate(front[k], cur, m)
      ensures Before(last, front[k])
    {
      MatchingAre(front, cur, m, front[k]);
    }
  }

  lemma NothingMatches(rules: seq<Rule>, cur: nat, m: Matcher)
    ensures Matching(rules, cur, m) == [] <==> forall i :: 0 <= i < |rules| ==> !Candidate(rules[i], cur, m)
  {
    hide Matching;
    var matching := Matching(rules, cur, m);
    if matching != [] {
      MatchingAre(rules, cur, m, matching[0]);
    }
    forall i | 0 <= i < |rules| && Candidate(rules[i], cur, m)
      ensures matching != []
    {
      MatchingAre(rules, cur, m, rules[i]);
    }
  }

  lemma SoundIsNumbered(rules: seq<Rule>)
    requires Sound(rules)
    ensures Numbered(rules)
  {
  }

  lemma ThrowsMeans(rules: seq<Rule>, cur: nat)
    ensures NoneThrows(rules, cur) <==> forall i :: 0 <= i < |rules| ==> Fits(rules[i], cur)
  {
  }

  // ----- the walk

  lemma {:induction false} ChainEnds(rules: seq<Rule>, cur: nat, m: Matcher, chosen: seq<Rule>)
    requires Sound(rules) && Chain(rules, cur, m, chosen)
    ensures Walk(rules, cur, m) == Done(LastId(cur, chosen))
    decreases |chosen|
  {
    hide Matching, Select, NoneThrows, Placed, Best, Fits, Candidate;
    ThrowsMeans(rules, cur);
    NothingMatches(rules, cur, m);
    SoundIsNumbered(rules);
    if chosen != [] {
      var i: nat :| IsBest(rules, cur, m, i, chosen[0]);
      SoundBelow(rules, i);
      BestIsSelected(rules, cur, m, i);
      ChainEnds(chosen[0].children, chosen[0].id, m, chosen[1..]);
    }
  }

  lemma Inside(rules: seq<Rule>, cur: nat, m: Matcher, i: nat)
    requires Best(rules, cur, m, i)
    ensures i < |rules|
  {
  }

  lemma {:induction false} EndHasChain(rules: seq<Rule>, cur: nat, m: Matcher) returns (chosen: seq<Rule>)
    requires Sound(rules) && Walk(rules, cur, m).Done?
    ensures Chain(rules, cur, m, chosen)
    decreases rules
  {
    hide Matching, Select, NoneThrows, Placed, Best, Fits, Candidate;
    ThrowsMeans(rules, cur);
    NothingMatches(rules, cur, m);
    SoundIsNumbered(rules);
    chosen := [];
    if Matching(rules, cur, m) != [] {
      var i := SelectedIsBest(rules, cur, m);
      SoundBelow(rules, i);
      assert IsBest(rules, cur, m, i, rules[i]);
      var more := EndHasChain(rules[i].children, rules[i].id, m);
      chosen := [rules[i]] + more;
      assert chosen[1..] == more;
    }
  }

  /** For every accepted file and whatever matches: without an exception the event ends with
      the last rule of a chain through the standard rules and then, with the event as it is by
      then, through the group rules; and with no other rule. */
  lemma ProcessEndsIff(nodes: seq<Node>, m: Matcher, q: nat)
    requires Parse(nodes).Ok?
    ensures var c := Parse(nodes).config;
      Process(c, m) == Done(q) <==>
        exists std: seq<Rule>, grp: seq<Rule> :: Chains(c, m, std, grp) && q == LastId(LastId(0, std), grp)
  {
    hide Parse, Walk, Chain, Tidy, WellPlaced, Sound;
    var c := Parse(nodes).config;
    ParseAccepted(nodes);
    if Process(c, m) == Done(q) {
      var std := EndHasChain(c.std, 0, m);
      ChainEnds(c.std, 0, m, std);
      var grp := EndHasChain(c.grp, LastId(0, std), m);
      ChainEnds(c.grp, LastId(0, std), m, grp);
      assert Chains(c, m, std, grp);
    }
    forall std, grp | Chains(c, m, std, grp)
      ensures Process(c, m) == Done(LastId(LastId(0, std), grp))
    {
      ChainEnds(c.std, 0, m, std);
      ChainEnds(c.grp, LastId(0, std), m, grp);
    }
  }

  ghost predicate Chains(c: Config, m: Matcher, std: seq<Rule>, grp: seq<Rule>) {
    Chain(c.std, 0, m, std) && Chain(c.grp, LastId(0, std), m, grp)
  }
}
