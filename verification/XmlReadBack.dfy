/** Exactly which nodes are read back from their printed form: those whose attribute values
    do not contain the start of a comment. */
module XmlReadBack {
  import opened Optional
  import opened XmlGrammar
  import opened XmlReading
  import opened XmlRoundTrip

  // ----- counting what a comment or a line end costs

  /** A parser that skips a comment passes an exclamation mark that it does not collect; the
      same goes for a line end. */
  function Weight(s: string): nat {
    if s == [] then 0 else (if s[0] == '!' || s[0] == '\n' then 1 else 0) + Weight(s[1..])
  }

  lemma {:induction false} WeightConcat(a: string, b: string)
    ensures Weight(a + b) == Weight(a) + Weight(b)
  {
    if a == [] {
      assert a + b == b;
    } else {
      assert (a + b)[1..] == a[1..] + b && (a + b)[0] == a[0];
      WeightConcat(a[1..], b);
    }
  }

  lemma {:induction false} RawWeight(s: string)
    ensures Raw(s).Some? ==>
      var (c, rest) := Raw(s).value;
      Weight([c] + rest) <= Weight(s) && (Weight([c] + rest) == Weight(s) ==> s == [c] + rest)
  {
    if s != [] {
      if s[0] == '\n' {
        RawWeight(s[1..]);
      } else {
        assert s == [s[0]] + s[1..];
      }
    }
  }

  lemma WeightCons(c: char, rest: string)
    ensures Weight(rest) <= Weight([c] + rest) <= Weight(rest) + 1
    ensures c == '!' ==> Weight([c] + rest) == Weight(rest) + 1
  {
    assert ([c] + rest)[1..] == rest;
  }

  lemma {:induction false} CommentTailWeight(s: string)
    ensures CommentTail(s).Some? ==> Weight(CommentTail(s).value) <= Weight(s)
    decreases |s|
  {
    hide Raw;
    RawWeight(s);
    if Raw(s).Some? {
      var (c, rest) := Raw(s).value;
      WeightCons(c, rest);
      if c == '-' && rest != [] && rest[0] == '-' {
        assert rest == [rest[0]] + rest[1..];
        WeightCons(rest[0], rest[1..]);
      } else {
        CommentTailWeight(rest);
      }
    }
  }

  lemma CommentWeight(s: string)
    ensures Comment(s).Some? ==> Weight(Comment(s).value) <= Weight(s)
  {
    hide Raw, CommentTail;
    RawWeight(s);
    if Comment(s).Some? {
      var (c, rest) := Raw(s).value;
      WeightCons(c, rest);
      assert rest == [rest[0]] + rest[1..];
      WeightCons(rest[0], rest[1..]);
      CommentTailWeight(rest[1..]);
      var tail := CommentTail(rest[1..]).value;
      RawWeight(tail);
      WeightCons(Raw(tail).value.0, Raw(tail).value.1);
    }
  }

  /** Neither a line end nor the start of a comment. */
  predicate PlainStart(c: char, rest: string) { c != '\n' && (c == '<' ==> !StartsWith(rest, '!')) }

  /** A character costs at least its own weight, and exactly that only if nothing was skipped. */
  lemma {:induction false} GetWeight(s: string)
    ensures Get(s).Some? ==>
      var (c, rest) := Get(s).value;
      Weight([c] + rest) <= Weight(s) && (Weight([c] + rest) == Weight(s) ==> s == [c] + rest && PlainStart(c, rest))
    decreases |s|
  {
    hide Raw, Comment, Weight;
    RawWeight(s);
    if Raw(s).Some? {
      var (c, rest) := Raw(s).value;
      if c == '<' && rest != [] && rest[0] == '!' {
        WeightCons(c, rest);
        assert rest == [rest[0]] + rest[1..];
        WeightCons(rest[0], rest[1..]);
        CommentWeight(rest[1..]);
        if Comment(rest[1..]).Some? {
          GetWeight(Comment(rest[1..]).value);
        }
      }
    }
  }

  /** So does a run of characters, and then it has no start of a comment. */
  lemma {:induction false} SpanWeight(c: char, s: string, p: char -> bool)
    ensures Span(c, s, p).Some? ==>
      var run := Span(c, s, p).value;
      && Weight(run.text) + Weight([run.stop] + run.rest) <= Weight([c] + s)
      && (PlainStart(c, s) && Weight(run.text) + Weight([run.stop] + run.rest) == Weight([c] + s)
          ==> Quiet(run.text + [run.stop]))
    decreases |s|
  {
    hide Get, Weight, Quiet;
    if !p(c) {
      EmptyRun(c);
    } else if Get(s).Some? {
      var (d, rest) := Get(s).value;
      GetWeight(s);
      SpanWeight(d, rest, p);
      if Span(d, rest, p).Some? {
        var run := Span(d, rest, p).value;
        WeightConcat([c], run.text);
        WeightConcat([c], s);
        if PlainStart(c, s) && s == [d] + rest && Quiet(run.text + [run.stop]) {
          SpanStarts(d, rest, p);
          QuietCons(c, run.text + [run.stop], s);
          assert [c] + (run.text + [run.stop]) == [c] + run.text + [run.stop];
        }
      }
    }
  }

  lemma EmptyRun(c: char)
    ensures Weight([]) == 0 && (c != '\n' ==> Quiet([] + [c]))
  {
  }

  lemma SpanStarts(c: char, s: string, p: char -> bool)
    ensures Span(c, s, p).Some? ==> (Span(c, s, p).value.text + [Span(c, s, p).value.stop])[0] == c
  {
    hide Get;
  }

  lemma QuietCons(c: char, t: string, s: string)
    requires Quiet(t) && PlainStart(c, s) && t != [] && s != [] && t[0] == s[0]
    ensures Quiet([c] + t)
  {
    var u := [c] + t;
    forall i | 0 <= i < |u|
      ensures u[i] != '\n' && (u[i] == '<' && i + 1 < |u| ==> u[i + 1] != '!')
    {
      assert i > 0 ==> u[i] == t[i - 1];
      assert i + 1 < |u| ==> u[i + 1] == t[i];
    }
  }

  lemma ReadsWeight(s: string, st: State)
    ensures Reads(s, st).Some? ==>
      var run := Reads(s, st).value;
      && Weight(run.text) + Weight(run.rest) <= Weight(run.text) + Weight([run.stop] + run.rest) <= Weight(s)
      && (Weight(run.text) + Weight([run.stop] + run.rest) == Weight(s) ==> Quiet(run.text + [run.stop]))
  {
    hide Get, Span, Weight, Quiet;
    GetWeight(s);
    if Reads(s, st).Some? {
      var (c, rest) := Get(s).value;
      SpanWeight(c, rest, Kind(st));
      WeightCons(Reads(s, st).value.stop, Reads(s, st).value.rest);
    }
  }

  // ----- a value

  /** A printable value is read back if and only if it has no start of a comment. */
  lemma ValueReadsBackIff(v: string, rest: string)
    requires All(v, IsValueChar)
    ensures Reads(v + ['\"'] + rest, AttrValue) == Some(Run(v, '\"', rest)) <==> Quiet(v)
  {
    hide Reads, Weight;
    if Quiet(v) {
      ValuesAreQuiet(v);
      ReadsText(v, '\"', rest, AttrValue);
    } else if Reads(v + ['\"'] + rest, AttrValue) == Some(Run(v, '\"', rest)) {
      ReadsWeight(v + ['\"'] + rest, AttrValue);
      assert v + ['\"'] + rest == v + (['\"'] + rest);
      WeightConcat(v, ['\"'] + rest);
      QuietStart(v, '\"');
    }
  }

  lemma QuietStart(v: string, x: char)
    requires Quiet(v + [x])
    ensures Quiet(v)
  {
    var u := v + [x];
    forall i | 0 <= i < |v|
      ensures v[i] != '\n' && (v[i] == '<' && i + 1 < |v| ==> v[i + 1] != '!')
    {
      assert u[i] == v[i] && (i + 1 < |v| ==> u[i + 1] == v[i + 1]);
    }
  }

  // ----- a node

  function AttributesWeight(a: seq<(string, string)>): nat {
    if a == [] then 0 else Weight(a[0].1) + AttributesWeight(a[1..])
  }

  function NodesWeight(nodes: seq<Node>): nat
    decreases nodes
  {
    if nodes == [] then 0 else NodeWeight(nodes[0]) + NodesWeight(nodes[1..])
  }

  function NodeWeight(n: Node): nat
    decreases n
  {
    AttributesWeight(n.attributes) + Weight(n.value) + NodesWeight(n.children)
  }

  function Collected(w: Work): nat { AttributesWeight(w.attributes) + Weight(w.value) + NodesWeight(w.children) }

  lemma {:induction false} AttributesSnoc(a: seq<(string, string)>, x: (string, string))
    ensures AttributesWeight(a + [x]) == AttributesWeight(a) + Weight(x.1)
  {
    if a == [] {
      assert a + [x] == [x] && [x][1..] == [];
    } else {
      assert (a + [x])[1..] == a[1..] + [x] && (a + [x])[0] == a[0];
      AttributesSnoc(a[1..], x);
    }
  }

  lemma {:induction false} NodesSnoc(nodes: seq<Node>, n: Node)
    ensures NodesWeight(nodes + [n]) == NodesWeight(nodes) + NodeWeight(n)
    decreases |nodes|
  {
    hide NodeWeight;
    if nodes == [] {
      assert nodes + [n] == [n] && [n][1..] == [];
    } else {
      assert (nodes + [n])[1..] == nodes[1..] + [n] && (nodes + [n])[0] == nodes[0];
      NodesSnoc(nodes[1..], n);
    }
  }

  lemma {:induction false} TabsWeighNothing(t: string)
    ensures Weight(WithoutTabs(t)) == Weight(t)
  {
    if t != [] {
      var init, last := t[..|t| - 1], t[|t| - 1];
      TabsWeighNothing(init);
      assert t == init + [last];
      WeightConcat(init, [last]);
      WeightConcat(WithoutTabs(init), if last == '\t' then [] else [last]);
    }
  }

  /** No start of a comment in what has been collected. */
  ghost predicate QuietWork(w: Work) {
    && (forall i :: 0 <= i < |w.attributes| ==> Quiet(w.attributes[i].1))
    && forall i :: 0 <= i < |w.children| ==> NoCommentInValues(w.children[i])
  }

  /** One step collects no more than it passes, and if nothing was skipped it collects no
      start of a comment. */
  lemma StepWeight(s: string, st: State, w: Work)
    ensures var n := Step(s, st, w);
      && (n.Go? ==> Collected(n.work) + Weight(n.rest) <= Collected(w) + Weight(s))
      && (n.Go? && Collected(n.work) + Weight(n.rest) == Collected(w) + Weight(s) && QuietWork(w) ==> QuietWork(n.work))
      && (n.Child? ==> Collected(n.work) + Weight(n.rest) <= Collected(w) + Weight(s))
      && (n.Child? ==> n.work.children == w.children && n.work.attributes == w.attributes)
      && (n.Return? ==> NodeWeight(n.node) + Weight(n.rest) <= Collected(w) + Weight(s))
      && (n.Return? && QuietWork(w) ==> NoCommentInValues(n.node))
  {
    hide Reads, AttributesWeight, NodesWeight, WithoutTabs, HasKey, Quiet, Weight;
    ReadsWeight(s, st);
    if Reads(s, st).Some? {
      var run := Reads(s, st).value;
      RestWeight(run.rest);
      AttributesSnoc(w.attributes, (w.attrKey, run.text));
      TabsWeighNothing(run.text);
      WeightConcat(w.value, WithoutTabs(run.text));
      if Quiet(run.text + [run.stop]) {
        QuietStart(run.text, run.stop);
      }
    }
  }

  lemma RestWeight(rest: string)
    ensures rest != [] ==> Weight(rest[1..]) <= Weight(rest)
    ensures Weight([]) == 0 && NodesWeight([]) == 0
  {
  }

  /** Neither does the whole parser. */
  lemma {:induction false} MachineWeight(s: string, st: State, w: Work)
    ensures Machine(s, st, w).Some? ==>
      var (n, after) := Machine(s, st, w).value;
      && NodeWeight(n) + Weight(after) <= Collected(w) + Weight(s)
      && (NodeWeight(n) + Weight(after) == Collected(w) + Weight(s) && QuietWork(w) ==> NoCommentInValues(n))
    decreases |s|, Rank(st)
  {
    hide Step, Collected, NodeWeight, Weight, QuietWork, NoCommentInValues;
    StepWeight(s, st, w);
    match Step(s, st, w)
    case Go(rest, st', w') => MachineWeight(rest, st', w');
    case Child(rest, w') =>
      MachineWeight(rest, Initial, BLANK);
      if Machine(rest, Initial, BLANK).Some? {
        var (node, after) := Machine(rest, Initial, BLANK).value;
        NothingCollected();
        MachineWeight(after, Body, w'.(children := w'.children + [node]));
        ChildCollected(w, w', node);
      }
    case _ =>
  }

  lemma NothingCollected()
    ensures Collected(BLANK) == 0 && QuietWork(BLANK)
  {
  }

  lemma ChildCollected(w: Work, w': Work, node: Node)
    ensures Collected(w'.(children := w'.children + [node])) == Collected(w') + NodeWeight(node)
    ensures QuietWork(w) && w'.attributes == w.attributes && w'.children == w.children && NoCommentInValues(node)
        ==> QuietWork(w'.(children := w'.children + [node]))
  {
    hide AttributesWeight, NodesWeight, Weight, NodeWeight, NoCommentInValues, Quiet;
    NodesSnoc(w'.children, node);
  }

  // ----- what the printer writes

  lemma {:induction false} NamesWeighNothing(t: string)
    requires IsName(t)
    ensures Weight(t) == 0
  {
    if t != [] {
      NamesWeighNothing(t[1..]);
    }
  }

  lemma {:induction false} PrintedAttributesWeight(a: seq<(string, string)>)
    requires forall i :: 0 <= i < |a| ==> IsName(a[i].0)
    ensures Weight(PrintAttributes(a)) == AttributesWeight(a)
  {
    hide Weight, IsName;
    if a == [] {
      RestWeight([]);
    } else {
      PrintedAttributesWeight(a[1..]);
      NamesWeighNothing(a[0].0);
      FixedParts();
      WeightConcat(" ", a[0].0);
      WeightConcat(" " + a[0].0, "=\"");
      WeightConcat(" " + a[0].0 + "=\"", a[0].1);
      WeightConcat(" " + a[0].0 + "=\"" + a[0].1, "\"");
      WeightConcat(" " + a[0].0 + "=\"" + a[0].1 + "\"", PrintAttributes(a[1..]));
    }
  }

  lemma FixedParts()
    ensures Weight(" ") == 0 && Weight("=\"") == 0 && Weight("\"") == 0
      && Weight("<") == 0 && Weight(">") == 0 && Weight("</") == 0
  {
    assert "=\""[1..] == "\"" && "</"[1..] == "/";
  }

  lemma {:induction false} PrintedAllWeight(nodes: seq<Node>)
    requires forall i :: 0 <= i < |nodes| ==> Clean(nodes[i])
    ensures Weight(PrintAll(nodes)) == NodesWeight(nodes)
    decreases nodes
  {
    hide Weight, Print, NodeWeight, Clean;
    if nodes == [] {
      RestWeight([]);
    } else {
      PrintedWeight(nodes[0]);
      PrintedAllWeight(nodes[1..]);
      WeightConcat(Print(nodes[0]), PrintAll(nodes[1..]));
    }
  }

  /** The printer adds no weight. */
  lemma {:induction false} PrintedWeight(n: Node)
    requires Clean(n)
    ensures Weight(Print(n)) == NodeWeight(n)
    decreases n
  {
    hide Weight, IsName, PrintAttributes, PrintAll, AttributesWeight, NodesWeight, IsText, All;
    var a, v, c := PrintAttributes(n.attributes), n.value, PrintAll(n.children);
    PrintedAttributesWeight(n.attributes);
    PrintedAllWeight(n.children);
    NamesWeighNothing(n.name);
    FixedParts();
    WeightConcat("<", n.name);
    WeightConcat("<" + n.name, a);
    WeightConcat("<" + n.name + a, ">");
    WeightConcat("<" + n.name + a + ">", v);
    WeightConcat("<" + n.name + a + ">" + v, c);
    WeightConcat("<" + n.name + a + ">" + v + c, "</");
    WeightConcat("<" + n.name + a + ">" + v + c + "</", n.name);
    WeightConcat("<" + n.name + a + ">" + v + c + "</" + n.name, ">");
  }

  // ----- both directions

  /** Every clean node, and the parser returns no other, is read back from its printed form if
      and only if no attribute value in it contains "<!". */
  lemma ReadsBackIff(n: Node, rest: string)
    requires Clean(n)
    ensures Parse(Print(n) + rest) == Some((n, rest)) <==> NoCommentInValues(n)
  {
    hide Machine, Print, Clean, NoCommentInValues, Weight, NodeWeight, Collected, QuietWork;
    if NoCommentInValues(n) {
      RoundTrip(n, rest);
    } else {
      MachineWeight(Print(n) + rest, Initial, BLANK);
      PrintedWeight(n);
      WeightConcat(Print(n), rest);
      NothingCollected();
    }
  }

  /** Printing what was parsed and parsing it again gives the same node if and only if no
      attribute value contains "<!". */
  lemma ReprintReadsBack(s: string, rest: string)
    requires Parse(s).Some?
    ensures var n := Parse(s).value.0;
      Parse(Print(n) + rest) == Some((n, rest)) <==> NoCommentInValues(n)
  {
    hide Machine, Print, Clean, NoCommentInValues;
    BlankIsReady(s);
    MachineIsClean(s, Initial, BLANK);
    ReadsBackIff(Parse(s).value.0, rest);
  }

  // ----- nodes that are not read back

  /** An attribute value that looks like a comment is read back as empty. */
  lemma CommentValueIsLost(key: string, t: string, rest: string, w: Work)
    requires key != [] && IsAlnum(key[0]) && IsName(key) && !HasKey(w.attributes, key)
    requires All(t, IsPrint) && '-' !in t
    ensures Machine(" " + key + "=\"<!--" + t + "-->\"" + rest, OpenTagAttr, w)
         == Machine(rest, OpenTagAttr, w.(attrKey := key, attributes := w.attributes + [(key, [])]))
  {
    hide Machine, Reads, HasKey, Get;
    var s3 := "<!--" + t + "-->" + ['\"'] + rest;
    assert Blank(" ");
    ReadsKey(" ", key, s3, w);
    assert " " + key + "=\"<!--" + t + "-->\"" + rest == " " + key + "=\"" + s3;
    EmptyValue(t, rest);
    Steps(s3, AttrValue, w.(attrKey := key), Run([], '\"', rest), rest, OpenTagAttr,
          w.(attrKey := key, attributes := w.attributes + [(key, [])]));
  }

  lemma EmptyValue(t: string, rest: string)
    requires All(t, IsPrint) && '-' !in t
    ensures Reads("<!--" + t + "-->" + ['\"'] + rest, AttrValue) == Some(Run([], '\"', rest))
  {
    hide Get;
    CommentIsSkipped(t, ['\"'] + rest);
    assert "<!--" + t + "-->" + ['\"'] + rest == "<!--" + t + "-->" + (['\"'] + rest);
    GetPlain('\"', rest);
  }

  /** The end of an element without contents. */
  lemma EmptyElement(rest: string, w: Work)
    requires w.name == "a" && w.value == [] && w.children == []
    ensures Machine("></a>" + rest, OpenTagAttr, w) == Some((Node("a", w.attributes, [], []), rest))
  {
    hide Machine, Reads;
    var body := [] + "</" + "a" + ">" + rest;
    assert "></a>" + rest == [] + ['>'] + body;
    EndsTag([], body, w);
    ClosesTag([], "a", rest, w);
    assert w.value + [] == [];
  }

  /** An element with one attribute, whose value may be read as something else. */
  lemma OneAttribute(key: string, written: string, value: string, rest: string)
    requires key != [] && IsAlnum(key[0]) && IsName(key)
    requires Reads(written + ['\"'] + ("></a>" + rest), AttrValue) == Some(Run(value, '\"', "></a>" + rest))
    ensures Parse("<a " + key + "=\"" + written + "\"></a>" + rest) == Some((Node("a", [(key, value)], [], []), rest))
  {
    hide Machine, Reads;
    var end := "></a>" + rest;
    var s3 := written + ['\"'] + end;
    var w := BLANK.(name := "a");
    var w' := w.(attrKey := key, attributes := [(key, value)]);
    var more := key + "=\"" + s3;
    assert "<a " + key + "=\"" + written + "\"></a>" + rest == [] + "<" + "a" + [' '] + more;
    OpensTag([], "a", ' ', more);
    assert [' '] + more == " " + key + "=\"" + s3;
    assert Blank(" ");
    ReadsKey(" ", key, s3, w);
    assert w.attributes + [(key, value)] == w'.attributes;
    Steps(s3, AttrValue, w.(attrKey := key), Run(value, '\"', end), end, OpenTagAttr, w');
    EmptyElement(rest, w');
  }

  /** A node whose attribute value looks like a comment: another node is read back. */
  lemma CommentNodeIsLost(key: string, t: string, rest: string)
    requires key != [] && IsAlnum(key[0]) && IsName(key) && All(t, IsPrint) && '-' !in t
    ensures Parse("<a " + key + "=\"<!--" + t + "-->\"></a>" + rest) == Some((Node("a", [(key, [])], [], []), rest))
  {
    hide Reads;
    var written := "<!--" + t + "-->";
    EmptyValue(t, "></a>" + rest);
    OneAttribute(key, written, [], rest);
    assert "<a " + key + "=\"" + written + "\"></a>" + rest == "<a " + key + "=\"<!--" + t + "-->\"></a>" + rest;
  }

  /** The parser itself returns such values: a comment that is skipped can leave the start of
      another one. */
  const NESTED := "<<!---->!"

  const NESTED_NODE := Node("a", [("k", "<!")], [], [])

  lemma NestedValue(rest: string)
    ensures Reads(NESTED + ['\"'] + rest, AttrValue) == Some(Run("<!", '\"', rest))
  {
    hide Reads;
    assert Escape("!") == "!" && Escape("<!") == NESTED by {
      assert "!"[1..] == [] && "<!"[1..] == "!" && ['!'] + [] + [] == "!";
    }
    EscapedIsRead("<!", rest);
  }

  /** So there are texts that can be parsed, but whose reprint gives something else. */
  lemma NestedIsLost(rest: string)
    ensures Parse("<a k=\"" + NESTED + "\"></a>" + rest) == Some((NESTED_NODE, rest))
    ensures Parse(Print(NESTED_NODE) + rest) != Some((NESTED_NODE, rest))
  {
    hide Machine, Reads, Print;
    NestedValue("></a>" + rest);
    OneAttribute("k", NESTED, "<!", rest);
    assert "<a " + "k" + "=\"" + NESTED + "\"></a>" + rest == "<a k=\"" + NESTED + "\"></a>" + rest;
    ReprintReadsBack("<a k=\"" + NESTED + "\"></a>" + rest, rest);
    assert NESTED_NODE.attributes[0].1[0] == '<' && NESTED_NODE.attributes[0].1[1] == '!';
  }
}
