/** Which rules files are accepted, in terms of the file alone. */
module RuleFile {
  import opened Optional
  import opened RuleTree
  import opened RuleCopies

  /** The ids and the groups of the first n nodes. */
  function Ids(nodes: seq<Node>, n: nat): set<nat>
    requires n <= |nodes|
  {
    set i | 0 <= i < n && nodes[i].RuleNode? :: nodes[i].rule.id
  }

  function Groups(nodes: seq<Node>, n: nat): set<string>
    requires n <= |nodes|
  {
    set i | 0 <= i < n && nodes[i].GroupNode? :: nodes[i].name
  }

  /** A group has a name that is not reserved. */
  predicate GoodGroup(name: string) { name != "" && name[0] != '!' }

  /** Every number of a rule fits its type; id, priority, time and rate are there. */
  predicate GoodNumbers(r: Rule) {
    && 0 < r.id < 0x1_0000_0000 && r.priority < 0xFFFF && r.unlessId < 0x1_0000_0000
    && (forall i :: 0 <= i < |r.parents| ==> r.parents[i] < 0x1_0000_0000)
    && (r.activation.Some? ==> 1 <= r.activation.value.time < 0x1_0000 && 2 <= r.activation.value.rate < 0x1_0000)
  }

  function GroupOf(r: Rule): string { if r.activation.Some? then r.activation.value.group else "" }

  /** What a rule may refer to are the ids and groups in front of it. */
  predicate GoodReferences(r: Rule, ids: set<nat>, groups: set<string>) {
    && r.id !in ids && (r.unlessId != 0 ==> r.unlessId in ids) && r.id !in r.parents
    && (r.triggerGroup == "" && GroupOf(r) == "" ==> forall p :: p in r.parents ==> p in ids)
    && (r.triggerGroup in groups || r.triggerGroup == "" || r.triggerGroup == "!ALWAYS")
    && (GroupOf(r) in groups || GroupOf(r) == "") && r.groups <= groups
  }

  /** What does not go together. */
  predicate GoodCombination(r: Rule) {
    && (r.parents == [] || r.triggerGroup == "")
    && (r.sameField != "" ==> GroupOf(r) != "")
    && (r.unlessId != 0 ==> r.parents != [])
  }

  ghost predicate GoodNode(nodes: seq<Node>, i: nat)
    requires i < |nodes|
  {
    match nodes[i]
    case GroupNode(name) => GoodGroup(name)
    case RuleNode(r) => GoodNumbers(r) && GoodReferences(r, Ids(nodes, i), Groups(nodes, i)) && GoodCombination(r)
  }

  // ----- what the tree knows

  lemma {:induction false} FileIds(nodes: seq<Node>)
    ensures forall id :: id in Ids(nodes, |nodes|) <==> exists r :: r in FileRules(nodes) && r.id == id
  {
    if nodes != [] {
      var n := |nodes| - 1;
      var before, last := nodes[..n], nodes[n];
      FileIds(before);
      IdsOfMore(nodes);
      forall id
        ensures id in Ids(nodes, |nodes|) <==> exists r :: r in FileRules(nodes) && r.id == id
      {
        if r :| r in FileRules(nodes) && r.id == id {
          assert r in FileRules(before) || (last.RuleNode? && r == Bare(last.rule));
        }
        if r :| r in FileRules(before) && r.id == id {
          assert r in FileRules(nodes);
        }
        if last.RuleNode? && last.rule.id == id {
          assert Bare(last.rule) in FileRules(nodes);
        }
      }
    }
  }

  lemma IdsOfMore(nodes: seq<Node>)
    requires nodes != []
    ensures var n := |nodes| - 1;
      && Ids(nodes, |nodes|) == Ids(nodes[..n], n) + (if nodes[n].RuleNode? then {nodes[n].rule.id} else {})
      && Groups(nodes, |nodes|) == Groups(nodes[..n], n) + (if nodes[n].GroupNode? then {nodes[n].name} else {})
  {
    var n := |nodes| - 1;
    assert forall i :: 0 <= i < n ==> nodes[..n][i] == nodes[i];
    forall id | id in Ids(nodes, |nodes|)
      ensures id in Ids(nodes[..n], n) || (nodes[n].RuleNode? && id == nodes[n].rule.id)
    {
      var i :| 0 <= i < |nodes| && nodes[i].RuleNode? && nodes[i].rule.id == id;
      assert i < n ==> nodes[..n][i].rule.id == id;
    }
    forall g | g in Groups(nodes, |nodes|)
      ensures g in Groups(nodes[..n], n) || (nodes[n].GroupNode? && g == nodes[n].name)
    {
      var i :| 0 <= i < |nodes| && nodes[i].GroupNode? && nodes[i].name == g;
      assert i < n ==> nodes[..n][i].name == g;
    }
  }

  lemma SamePrefix(nodes: seq<Node>, i: nat)
    requires nodes != [] && i < |nodes|
    ensures Ids(nodes[..i], i) == Ids(nodes, i) && Groups(nodes[..i], i) == Groups(nodes, i)
  {
    assert forall k :: 0 <= k < i ==> nodes[..i][k] == nodes[k];
    assert forall id :: id in Ids(nodes, i) ==> id in Ids(nodes[..i], i);
    assert forall g :: g in Groups(nodes, i) ==> g in Groups(nodes[..i], i);
  }

  lemma KnownIsDeclared(nodes: seq<Node>)
    requires Parse(nodes).Ok?
    ensures forall id: nat :: Known(Parse(nodes).config, id) <==> id in Ids(nodes, |nodes|)
  {
    hide Parse, FileRules, Rules, Find, Ids;
    var c := Parse(nodes).config;
    TreeHoldsTheFile(nodes);
    FileIds(nodes);
    forall id: nat
      ensures Known(c, id) <==> exists r :: r in AllRules(c) && r.id == id
    {
      FindRules(c.std, id);
      FindRules(c.grp, id);
    }
  }

  lemma {:induction false} GroupsAreDeclared(nodes: seq<Node>)
    requires Parse(nodes).Ok?
    ensures Parse(nodes).config.groups == Groups(nodes, |nodes|)
  {
    hide Flaw, Hang, HangAll, Groups;
    if nodes == [] {
      NoGroups();
    } else {
      var before := nodes[..|nodes| - 1];
      GroupsAreDeclared(before);
      IdsOfMore(nodes);
      if nodes[|nodes| - 1].RuleNode? {
        AcceptGroups(Parse(before).config, Bare(nodes[|nodes| - 1].rule));
      }
    }
  }

  lemma NoGroups()
    ensures Groups([], 0) == {}
  {
  }

  lemma AcceptGroups(c: Config, r: Rule)
    requires Accept(c, r).Ok?
    ensures Accept(c, r).config.groups == c.groups
  {
    hide Flaw, AddChild, Find;
    HangAllGroups(c, r.parents, r);
  }

  lemma {:induction false} HangAllGroups(c: Config, ids: seq<nat>, r: Rule)
    ensures HangAll(c, ids, r).Some? ==> HangAll(c, ids, r).value.groups == c.groups
    decreases |ids|
  {
    hide AddChild, Find;
    if ids != [] && Hang(c, ids[0], r).Some? {
      HangAllGroups(Hang(c, ids[0], r).value, ids[1..], r);
    }
  }

  // ----- one more rule

  /** Hanging a rule somewhere loses no rule. */
  lemma HangKnows(c: Config, id: nat, r: Rule)
    requires Known(c, id) && r.children == []
    ensures Hang(c, id, r).Some? && forall p: nat :: Known(c, p) ==> Known(Hang(c, id, r).value, p)
  {
    hide Rules, Find, AddChild;
    HangRules(c, id, r);
    var c' := Hang(c, id, r).value;
    forall p: nat | Known(c, p)
      ensures Known(c', p)
    {
      FindRules(c.std, p);
      FindRules(c.grp, p);
      var x :| x in AllRules(c) && x.id == p;
      assert x in AllRules(c');
      FindRules(c'.std, p);
      FindRules(c'.grp, p);
    }
  }

  /** All parents must be known. While the rule is being hung only its own id is new. */
  lemma {:induction false} HangAllIff(c: Config, ids: seq<nat>, r: Rule)
    requires r.children == [] && r.id !in ids
    ensures HangAll(c, ids, r).Some? <==> forall p :: p in ids ==> Known(c, p)
    ensures HangAll(c, ids, r).Some? ==> forall p: nat :: Known(c, p) ==> Known(HangAll(c, ids, r).value, p)
    decreases |ids|
  {
    hide Hang, Known;
    if ids != [] {
      assert ids[0] in ids && forall p :: p in ids <==> p == ids[0] || p in ids[1..];
      UnknownHangs(c, ids[0], r);
      if Known(c, ids[0]) {
        HangKnows(c, ids[0], r);
        OnlyTheRule(c, ids[0], r);
        HangAllIff(Hang(c, ids[0], r).value, ids[1..], r);
      }
    }
  }

  lemma UnknownHangs(c: Config, id: nat, r: Rule)
    ensures Hang(c, id, r).Some? <==> Known(c, id)
  {
  }

  lemma OnlyTheRule(c: Config, id: nat, r: Rule)
    requires Known(c, id) && r.children == [] && Hang(c, id, r).Some?
    ensures forall p: nat :: Known(Hang(c, id, r).value, p) && p != r.id ==> Known(c, p)
  {
    hide Rules, Find, AddChild, Hang;
    HangRules(c, id, r);
    var c' := Hang(c, id, r).value;
    forall p: nat | Known(c', p) && p != r.id
      ensures Known(c, p)
    {
      FindRules(c'.std, p);
      FindRules(c'.grp, p);
      var x :| x in AllRules(c') && x.id == p;
      FindRules(c.std, p);
      FindRules(c.grp, p);
    }
  }

  /** A rule is accepted if and only if its numbers, references and combinations are good. */
  lemma AcceptIff(c: Config, r: Rule, ids: set<nat>)
    requires r.children == [] && forall id: nat :: Known(c, id) <==> id in ids
    ensures Accept(c, r).Ok? <==> GoodNumbers(r) && GoodReferences(r, ids, c.groups) && GoodCombination(r)
  {
    hide Hang, HangAll, Known;
    FlawIff(c, r, ids);
    if Flaw(c, r).None? {
      HangAllIff(c, r.parents, r);
      if Place(c, r).Some? && r.unlessId != 0 {
        StillKnown(c, r);
        UnknownHangs(Place(c, r).value, r.unlessId, r);
      }
    }
  }

  lemma FlawIff(c: Config, r: Rule, ids: set<nat>)
    requires forall id: nat :: Known(c, id) <==> id in ids
    ensures Flaw(c, r).None? ==> !Known(c, r.id) && r.id !in r.parents && (r.unlessId != 0 ==> Known(c, r.unlessId))
    ensures Flaw(c, r).None? && (!Grouped(r) ==> forall p :: p in r.parents ==> p in ids)
       <==> GoodNumbers(r) && GoodReferences(r, ids, c.groups) && GoodCombination(r)
  {
    hide Known;
  }

  lemma StillKnown(c: Config, r: Rule)
    requires r.children == [] && Flaw(c, r).None? && Place(c, r).Some? && Known(c, r.unlessId)
    ensures Known(Place(c, r).value, r.unlessId)
  {
    hide Hang, HangAll, Find, Flaw;
    FlawRefers(c, r);
    HangAllIff(c, r.parents, r);
    FindSnoc(c.std, r, r.unlessId);
    FindSnoc(c.grp, r, r.unlessId);
  }

  lemma FlawRefers(c: Config, r: Rule)
    requires Flaw(c, r).None?
    ensures !Known(c, r.id) && r.id !in r.parents
  {
  }

  lemma {:induction false} FindSnoc(rules: seq<Rule>, r: Rule, id: nat)
    ensures Find(rules, id).Some? ==> Find(rules + [r], id).Some?
    decreases |rules|
  {
    if rules != [] {
      assert (rules + [r])[1..] == rules[1..] + [r] && (rules + [r])[0] == rules[0];
      FindSnoc(rules[1..], r, id);
    }
  }

  // ----- whole files

  /** A file is accepted if and only if every node is good with respect to those in front. */
  lemma {:induction false} AcceptedIff(nodes: seq<Node>)
    ensures Parse(nodes).Ok? <==> forall i :: 0 <= i < |nodes| ==> GoodNode(nodes, i)
    decreases |nodes|
  {
    hide Accept, Ids, Groups, GoodNumbers, GoodReferences, GoodCombination, Known;
    if nodes != [] {
      var n := |nodes| - 1;
      var before := nodes[..n];
      AcceptedIff(before);
      forall i | 0 <= i < n
        ensures GoodNode(before, i) <==> GoodNode(nodes, i)
      {
        assert before[..i] == nodes[..i] && before[i] == nodes[i];
        SamePrefix(nodes, i);
        SamePrefix(before, i);
      }
      if Parse(before).Ok? {
        LastIff(nodes);
      }
    }
  }

  lemma LastIff(nodes: seq<Node>)
    requires nodes != [] && Parse(nodes[..|nodes| - 1]).Ok?
    ensures Parse(nodes).Ok? <==> GoodNode(nodes, |nodes| - 1)
  {
    hide Accept, Ids, Groups, GoodNumbers, GoodReferences, GoodCombination, Known;
    var n := |nodes| - 1;
    var before := nodes[..n];
    KnownIsDeclared(before);
    GroupsAreDeclared(before);
    SamePrefix(nodes, n);
    if nodes[n].RuleNode? {
      BareIsGood(nodes[n].rule, Ids(nodes, n), Groups(nodes, n));
      AcceptIff(Parse(before).config, Bare(nodes[n].rule), Ids(before, n));
    }
  }

  lemma BareIsGood(r: Rule, ids: set<nat>, groups: set<string>)
    ensures GoodNumbers(Bare(r)) == GoodNumbers(r) && GoodCombination(Bare(r)) == GoodCombination(r)
    ensures GoodReferences(Bare(r), ids, groups) == GoodReferences(r, ids, groups)
  {
  }

  // ----- errors

  /** What is wrong with a rule when it is rejected with this error. */
  predicate Wrong(e: Error, r: Rule, ids: set<nat>, groups: set<string>) {
    match e
    case OutOfRange =>
      || r.id >= 0x1_0000_0000 || r.priority >= 0x1_0000 || r.unlessId >= 0x1_0000_0000
      || (exists i :: 0 <= i < |r.parents| && r.parents[i] >= 0x1_0000_0000)
      || (r.activation.Some? && (r.activation.value.time >= 0x1_0000 || r.activation.value.rate >= 0x1_0000))
    case NoTime => r.activation.Some? && r.activation.value.time == 0
    case NoRate => r.activation.Some? && r.activation.value.rate == 0
    case RateTooLow => r.activation.Some? && r.activation.value.rate == 1
    case NoId => r.id == 0
    case DuplicateId => r.id in ids
    case NoPriority => r.priority == 0xFFFF
    case ParentAndGroup => r.parents != [] && r.triggerGroup != ""
    case SameFieldAlone => r.sameField != "" && GroupOf(r) == ""
    case NoSuchUnless => r.unlessId != 0 && r.unlessId !in ids
    case UnlessWithoutParent => r.unlessId != 0 && r.parents == []
    case BadTriggerGroup => r.triggerGroup != "" && r.triggerGroup != "!ALWAYS" && r.triggerGroup !in groups
    case BadActivationGroup => GroupOf(r) != "" && GroupOf(r) !in groups
    case BadGroup => !(r.groups <= groups)
    case OwnParent => r.id in r.parents
    case NoSuchParent => exists i :: 0 <= i < |r.parents| && r.parents[i] !in ids
    case BadGroupNode => false
  }

  ghost predicate WrongNode(e: Error, nodes: seq<Node>, i: nat)
    requires i < |nodes|
  {
    match nodes[i]
    case GroupNode(name) => e == BadGroupNode && !GoodGroup(name)
    case RuleNode(r) => Wrong(e, r, Ids(nodes, i), Groups(nodes, i))
  }

  lemma FlawIsWrong(c: Config, r: Rule, ids: set<nat>)
    requires Flaw(c, r).Some? && forall id: nat :: Known(c, id) <==> id in ids
    ensures Wrong(Flaw(c, r).value, r, ids, c.groups)
  {
    hide Known;
  }

  lemma RejectedIsWrong(c: Config, r: Rule, ids: set<nat>)
    requires r.children == [] && Accept(c, r).Err? && forall id: nat :: Known(c, id) <==> id in ids
    ensures Wrong(Accept(c, r).error, r, ids, c.groups)
  {
    hide Hang, HangAll, Known, Wrong;
    if Flaw(c, r).Some? {
      FlawIsWrong(c, r, ids);
    } else {
      HangAllIff(c, r.parents, r) by { FlawRefers(c, r); }
      FlawIff(c, r, ids);
      if Place(c, r).Some? {
        StillKnown(c, r);
        UnknownHangs(Place(c, r).value, r.unlessId, r);
      } else {
        UnknownParent(c, r, ids);
      }
    }
  }

  lemma UnknownParent(c: Config, r: Rule, ids: set<nat>)
    requires forall id: nat :: Known(c, id) <==> id in ids
    requires exists p :: p in r.parents && !Known(c, p)
    ensures Wrong(NoSuchParent, r, ids, c.groups)
  {
    hide Known;
    var p :| p in r.parents && !Known(c, p);
    var i :| 0 <= i < |r.parents| && r.parents[i] == p;
  }

  /** The error of a file is about its first node that is not good, and says what is wrong. */
  lemma {:induction false} ErrorMeans(nodes: seq<Node>) returns (i: nat)
    requires Parse(nodes).Err?
    ensures i < |nodes| && WrongNode(Parse(nodes).error, nodes, i) && !GoodNode(nodes, i)
    ensures forall k :: 0 <= k < i ==> GoodNode(nodes, k)
    decreases |nodes|
  {
    hide Accept, Ids, Groups, GoodNumbers, GoodReferences, GoodCombination, Known, Wrong;
    var n := |nodes| - 1;
    var before := nodes[..n];
    if Parse(before).Err? {
      i := ErrorMeans(before);
    } else {
      i := n;
      AcceptedIff(before);
      LastIff(nodes);
      KnownIsDeclared(before);
      GroupsAreDeclared(before);
      if nodes[n].RuleNode? {
        RejectedIsWrong(Parse(before).config, Bare(nodes[n].rule), Ids(before, n));
        BareIsWrong(Parse(nodes).error, nodes[n].rule, Ids(before, n), Groups(before, n));
      }
    }
    forall k: nat | k <= i && k < n
      ensures GoodNode(before, k) <==> GoodNode(nodes, k)
      ensures WrongNode(Parse(nodes).error, before, k) <==> WrongNode(Parse(nodes).error, nodes, k)
    {
      assert before[..k] == nodes[..k] && before[k] == nodes[k];
      SamePrefix(nodes, k);
      SamePrefix(before, k);
    }
    SamePrefix(nodes, n);
  }

  lemma BareIsWrong(e: Error, r: Rule, ids: set<nat>, groups: set<string>)
    ensures Wrong(e, Bare(r), ids, groups) == Wrong(e, r, ids, groups)
  {
  }
}
