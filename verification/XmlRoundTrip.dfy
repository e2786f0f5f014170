/** The parser reads back what the printer prints, unless a value has the start of a comment;
    laid out plainly and with escapes, every node that it can return at all. */
module XmlRoundTrip {
  import opened Optional
  import opened XmlGrammar
  import opened XmlReading
  import opened XmlLayout

  /** Alphanumeric names, which may be empty; distinct keys that start alphanumeric; printable
      values; text without markup. */
  ghost predicate Clean(n: Node)
    decreases n
  {
    && IsName(n.name) && CleanAttributes(n.attributes) && IsText(n.value)
    && forall i :: 0 <= i < |n.children| ==> Clean(n.children[i])
  }

  /** No attribute value of the node or below contains "<!". */
  ghost predicate NoCommentInValues(n: Node)
    decreases n
  {
    && (forall i :: 0 <= i < |n.attributes| ==> Quiet(n.attributes[i].1))
    && forall i :: 0 <= i < |n.children| ==> NoCommentInValues(n.children[i])
  }

  // ----- a plain layout for every node

  function PlainAttributes(a: seq<(string, string)>): (r: seq<Attr>)
    ensures |r| == |a| && forall i :: 0 <= i < |a| ==> r[i] == Attr(" ", a[i].0, a[i].1)
  {
    if a == [] then [] else [Attr(" ", a[0].0, a[0].1)] + PlainAttributes(a[1..])
  }

  /** One space in front of every attribute, then the text and the children. */
  function Plain(n: Node): Doc
    decreases n
  {
    Doc(n.name, PlainAttributes(n.attributes), [], false, [Text(n.value)] + PlainAll(n.children))
  }

  function PlainAll(nodes: seq<Node>): (r: seq<Piece>)
    ensures |r| == |nodes|
    decreases nodes
  {
    if nodes == [] then [] else [Element(Plain(nodes[0]))] + PlainAll(nodes[1..])
  }

  lemma {:induction false} PlainPairs(a: seq<(string, string)>)
    ensures Pairs(PlainAttributes(a)) == a
  {
    if a != [] {
      PlainPairs(a[1..]);
      assert a == [a[0]] + a[1..];
    }
  }

  lemma {:induction false} UntabbedText(t: string)
    requires IsText(t)
    ensures Untabbed(t) == t && All(t, IsTextChar)
  {
    if t != [] {
      UntabbedText(t[1..]);
    }
  }

  lemma {:induction false} PlainAllMeans(nodes: seq<Node>)
    requires forall i :: 0 <= i < |nodes| ==> Clean(nodes[i])
    ensures Elements(PlainAll(nodes)) == nodes && Characters(PlainAll(nodes)) == []
    ensures forall i :: 0 <= i < |nodes| ==> WellPiece(PlainAll(nodes)[i])
    decreases nodes
  {
    hide Plain, Meaning, Well, Clean;
    if nodes != [] {
      PlainMeans(nodes[0]);
      PlainAllMeans(nodes[1..]);
      PiecesCons(Element(Plain(nodes[0])), PlainAll(nodes[1..]));
      IsNotClosing(nodes[0]);
      assert nodes == [nodes[0]] + nodes[1..];
    }
  }

  lemma IsNotClosing(n: Node)
    ensures !LooksClosing(Plain(n))
  {
  }

  lemma SpacesAreBlank(a: seq<(string, string)>)
    ensures WellSpaced(PlainAttributes(a)) && Blank([])
    ensures a != [] ==> PlainAttributes(a) != [] && PlainAttributes(a)[0].space != []
  {
  }

  /** It is well laid out and means the node. */
  lemma {:induction false} PlainMeans(n: Node)
    requires Clean(n)
    ensures Well(Plain(n)) && Meaning(Plain(n)) == n
    decreases n
  {
    hide PlainAll, Characters, Elements, CleanAttributes, WellSpaced, IsName, Blank;
    PlainPairs(n.attributes);
    SpacesAreBlank(n.attributes);
    UntabbedText(n.value);
    PlainAllMeans(n.children);
    PiecesCons(Text(n.value), PlainAll(n.children));
    assert n.value + [] == n.value && [] + n.children == n.children;
  }

  function Write(n: Node): string { Render(Plain(n)) }

  /** Parsing what was written of a node gives the node and leaves the rest of the input,
      whatever that is. */
  lemma WrittenIsRead(n: Node, rest: string)
    requires Clean(n)
    ensures Parse(Write(n) + rest) == Some((n, rest))
  {
    hide Machine, Render, Plain, Meaning, Well, Clean;
    PlainMeans(n);
    ReadsDoc(Plain(n), rest);
  }

  // ----- printing

  lemma {:induction false} NothingEscaped(v: string)
    requires Quiet(v)
    ensures Escape(v) == v
  {
    if v != [] {
      assert v == [v[0]] + v[1..];
      QuietTail(v);
      NothingEscaped(v[1..]);
    }
  }

  lemma {:induction false} AttributesArePrinted(a: seq<(string, string)>)
    requires forall i :: 0 <= i < |a| ==> Quiet(a[i].1)
    ensures AttributesText(PlainAttributes(a)) == PrintAttributes(a)
  {
    hide Quiet, Escape;
    if a != [] {
      NothingEscaped(a[0].1);
      AttributesArePrinted(a[1..]);
    }
  }

  lemma {:induction false} AllArePrinted(nodes: seq<Node>)
    requires forall i :: 0 <= i < |nodes| ==> NoCommentInValues(nodes[i])
    ensures BodyText(PlainAll(nodes)) == PrintAll(nodes)
    decreases nodes
  {
    hide Write, Plain, Render, Print, NoCommentInValues;
    if nodes != [] {
      WrittenIsPrinted(nodes[0]);
      AllArePrinted(nodes[1..]);
      PiecesCons(Element(Plain(nodes[0])), PlainAll(nodes[1..]));
    }
  }

  /** Without the start of a comment in a value the printer writes just that. */
  lemma {:induction false} WrittenIsPrinted(n: Node)
    requires NoCommentInValues(n)
    ensures Render(Plain(n)) == Print(n)
    decreases n
  {
    hide AttributesText, PrintAttributes, BodyText, PrintAll, PlainAll, Quiet, Render, Print;
    AttributesArePrinted(n.attributes);
    AllArePrinted(n.children);
    PlainRendered(n);
    Printed(n);
    Regroup("<" + n.name, PrintAttributes(n.attributes), n.value, PrintAll(n.children), "</" + n.name + ">");
  }

  lemma PlainRendered(n: Node)
    ensures Render(Plain(n)) == ("<" + n.name) + AttributesText(PlainAttributes(n.attributes)) + []
      + (['>'] + (n.value + BodyText(PlainAll(n.children))) + ("</" + n.name + ">"))
  {
    hide AttributesText, BodyText, PlainAll;
    PiecesCons(Text(n.value), PlainAll(n.children));
  }

  lemma Printed(n: Node)
    ensures Print(n)
      == ("<" + n.name) + PrintAttributes(n.attributes) + ['>'] + n.value + PrintAll(n.children) + ("</" + n.name + ">")
  {
    hide PrintAttributes, PrintAll;
    var front := "<" + n.name + PrintAttributes(n.attributes) + ">" + n.value + PrintAll(n.children);
    assert front + "</" + n.name + ">" == front + ("</" + n.name + ">");
  }

  lemma Regroup(open: string, a: string, v: string, c: string, close: string)
    ensures open + a + ['>'] + v + c + close == open + a + [] + (['>'] + (v + c) + close)
  {
  }

  /** So the parser reads back what the printer prints. */
  lemma RoundTrip(n: Node, rest: string)
    requires Clean(n) && NoCommentInValues(n)
    ensures Parse(Print(n) + rest) == Some((n, rest))
  {
    hide Machine, Render, Plain, Print, Clean, NoCommentInValues;
    WrittenIsPrinted(n);
    WrittenIsRead(n, rest);
  }

  // ----- what the parser returns

  /** What is known of the collected parts in a state. */
  ghost predicate Ready(s: string, st: State, w: Work) {
    && IsName(w.name) && CleanAttributes(w.attributes) && IsText(w.value)
    && (forall i :: 0 <= i < |w.children| ==> Clean(w.children[i]))
    && (st == Initial || st == OpenTagKey ==> w.name == [])
    && (st == AttrKey ==> s != [] && IsAlnum(s[0]))
    && (st == AttrValue ==> w.attrKey != [] && IsAlnum(w.attrKey[0]) && IsName(w.attrKey))
    && (st == AttrValue ==> !HasKey(w.attributes, w.attrKey))
  }

  lemma {:induction false} SpanAll(c: char, s: string, p: char -> bool)
    ensures Span(c, s, p).Some? ==> All(Span(c, s, p).value.text, p)
    ensures Span(c, s, p).Some? && p(c) ==> Span(c, s, p).value.text != [] && Span(c, s, p).value.text[0] == c
    decreases |s|
  {
    hide Get;
    if p(c) && Get(s).Some? {
      SpanAll(Get(s).value.0, Get(s).value.1, p);
    }
  }

  lemma ReadsAll(s: string, st: State)
    ensures Reads(s, st).Some? ==> All(Reads(s, st).value.text, Kind(st))
    ensures Reads(s, st).Some? && st == AttrKey && s != [] && IsAlnum(s[0])
        ==> Reads(s, st).value.text != [] && Reads(s, st).value.text[0] == s[0]
  {
    hide Span;
    if Get(s).Some? {
      SpanAll(Get(s).value.0, Get(s).value.1, Kind(st));
    }
    if s != [] && IsAlnum(s[0]) {
      GetPlain(s[0], s[1..]);
      assert [s[0]] + s[1..] == s;
    }
  }

  lemma {:induction false} TextWithoutTabs(t: string)
    requires All(t, IsTextChar)
    ensures IsText(WithoutTabs(t))
  {
    if t != [] {
      TextWithoutTabs(t[..|t| - 1]);
    }
  }

  lemma OneMoreAttribute(a: seq<(string, string)>, key: string, value: string)
    requires CleanAttributes(a) && !HasKey(a, key) && key != []
      && IsAlnum(key[0]) && IsName(key) && All(value, IsValueChar)
    ensures CleanAttributes(a + [(key, value)])
  {
    hide IsName, All;
    var b := a + [(key, value)];
    forall i | 0 <= i < |b| ensures b[i].0 != [] && IsAlnum(b[i].0[0]) && IsName(b[i].0) && All(b[i].1, IsValueChar) {
      assert i < |a| ==> b[i] == a[i];
    }
    forall i, j | 0 <= i < j < |b| ensures b[i].0 != b[j].0 {
      assert b[i] == a[i] && (j < |a| ==> b[j] == a[j]);
    }
  }

  /** One step keeps it. */
  lemma StepReady(s: string, st: State, w: Work)
    requires Ready(s, st, w)
    ensures var next := Step(s, st, w);
      && (next.Go? ==> Ready(next.rest, next.state, next.work))
      && (next.Child? ==> Ready(next.rest, Body, next.work))
      && (next.Return? ==> Clean(next.node))
  {
    hide Reads, CleanAttributes, WithoutTabs, HasKey;
    ReadsAll(s, st);
    if Reads(s, st).Some? {
      var run := Reads(s, st).value;
      match st
      case AttrValue => OneMoreAttribute(w.attributes, w.attrKey, run.text);
      case Body => TextWithoutTabs(run.text);
      case OpenTagKey => assert [] + run.text == run.text;
      case OpenTagAttr => NoText();
      case _ =>
    }
  }

  /** Whatever the parser returns is clean. */
  lemma {:induction false} MachineIsClean(s: string, st: State, w: Work)
    requires Ready(s, st, w)
    ensures Machine(s, st, w).Some? ==> Clean(Machine(s, st, w).value.0)
    decreases |s|, Rank(st)
  {
    hide Step, CleanAttributes, Clean;
    StepReady(s, st, w);
    match Step(s, st, w)
    case Go(rest, st', w') => MachineIsClean(rest, st', w');
    case Child(rest, w') =>
      BlankIsReady(rest);
      MachineIsClean(rest, Initial, BLANK);
      if Machine(rest, Initial, BLANK).Some? {
        var (node, after) := Machine(rest, Initial, BLANK).value;
        ReadyAfterChild(rest, w', node, after);
        MachineIsClean(after, Body, w'.(children := w'.children + [node]));
      }
    case _ =>
  }

  lemma BlankIsReady(s: string)
    ensures Ready(s, Initial, BLANK)
  {
  }

  lemma ReadyAfterChild(s: string, w: Work, node: Node, after: string)
    requires Ready(s, Body, w) && Clean(node)
    ensures Ready(after, Body, w.(children := w.children + [node]))
  {
    hide CleanAttributes, Clean;
  }

  /** The parser returns the clean nodes and no others. */
  lemma ReturnedIff(n: Node)
    ensures (exists s: string :: Parse(s).Some? && Parse(s).value.0 == n) <==> Clean(n)
  {
    hide Machine, Clean, Write;
    if Clean(n) {
      WrittenIsRead(n, []);
      assert Parse(Write(n) + []).value.0 == n;
    }
    if s: string :| Parse(s).Some? && Parse(s).value.0 == n {
      BlankIsReady(s);
      MachineIsClean(s, Initial, BLANK);
    }
  }
}
