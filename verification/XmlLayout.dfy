/** Documents as people write them: white space around attributes, tags without a body, and
    text and elements in any order. The parser reads what they mean. */
module XmlLayout {
  import opened Optional
  import opened XmlGrammar
  import opened XmlReading

  datatype Attr = Attr(space: string, key: string, value: string)

  datatype Piece = Text(text: string) | Element(doc: Doc)

  /** `space` is in front of the end of the opening tag. */
  datatype Doc = Doc(name: string, attributes: seq<Attr>, space: string, selfClosing: bool, body: seq<Piece>)

  // ----- what is written

  function AttributesText(attributes: seq<Attr>): string {
    if attributes == [] then []
    else
      var a := attributes[0];
      a.space + a.key + "=\"" + Escape(a.value) + "\"" + AttributesText(attributes[1..])
  }

  function BodyText(body: seq<Piece>): string
    decreases body
  {
    if body == [] then [] else PieceText(body[0]) + BodyText(body[1..])
  }

  function PieceText(p: Piece): string
    decreases p
  {
    match p case Text(t) => t case Element(d) => Render(d)
  }

  /** The end of the opening tag and everything behind it. */
  function EndText(d: Doc): string
    decreases d, 0
  {
    if d.selfClosing then "/>" else ">" + BodyText(d.body) + ("</" + d.name + ">")
  }

  function Render(d: Doc): string
    decreases d, 1
  {
    "<" + d.name + AttributesText(d.attributes) + d.space + EndText(d)
  }

  // ----- what it means

  function Pairs(attributes: seq<Attr>): (p: seq<(string, string)>)
    ensures |p| == |attributes|
  {
    if attributes == [] then [] else [(attributes[0].key, attributes[0].value)] + Pairs(attributes[1..])
  }

  function Untabbed(t: string): string {
    if t == [] then [] else (if t[0] == '\t' then [] else [t[0]]) + Untabbed(t[1..])
  }

  /** All text of a body, with tabs left out. */
  function Characters(body: seq<Piece>): string {
    if body == [] then [] else (if body[0].Text? then Untabbed(body[0].text) else []) + Characters(body[1..])
  }

  function Elements(body: seq<Piece>): seq<Node>
    decreases body
  {
    if body == [] then [] else PieceNodes(body[0]) + Elements(body[1..])
  }

  function PieceNodes(p: Piece): seq<Node>
    decreases p
  {
    match p case Text(_) => [] case Element(d) => [Meaning(d)]
  }

  function Meaning(d: Doc): Node
    decreases d
  {
    if d.selfClosing then Node(d.name, Pairs(d.attributes), [], [])
    else Node(d.name, Pairs(d.attributes), Characters(d.body), Elements(d.body))
  }

  // ----- which documents are meant

  /** White space between the name and the first attribute; elsewhere it may be missing. */
  ghost predicate WellSpaced(attributes: seq<Attr>) {
    forall i :: 0 <= i < |attributes| ==> Blank(attributes[i].space)
  }

  /** Such an element would look like a closing tag. */
  predicate LooksClosing(d: Doc) { d.name == [] && d.attributes == [] && d.space == [] && d.selfClosing }

  ghost predicate Well(d: Doc)
    decreases d
  {
    && IsName(d.name) && CleanAttributes(Pairs(d.attributes)) && WellSpaced(d.attributes) && Blank(d.space)
    && (d.attributes != [] ==> d.attributes[0].space != [])
    && (d.selfClosing || forall i :: 0 <= i < |d.body| ==> WellPiece(d.body[i]))
  }

  ghost predicate WellPiece(p: Piece)
    decreases p
  {
    match p case Text(t) => All(t, IsTextChar) case Element(d) => Well(d) && !LooksClosing(d)
  }

  // ----- tabs

  lemma {:induction false} TabsConcat(a: string, b: string)
    ensures WithoutTabs(a + b) == WithoutTabs(a) + WithoutTabs(b)
  {
    if b == [] {
      assert a + b == a && WithoutTabs(b) == [];
    } else {
      assert (a + b)[..|a + b| - 1] == a + b[..|b| - 1];
      TabsConcat(a, b[..|b| - 1]);
    }
  }

  lemma {:induction false} TabsAreLeftOut(t: string)
    ensures WithoutTabs(t) == Untabbed(t)
  {
    if t != [] {
      assert t == [t[0]] + t[1..] && [t[0]][..0] == [];
      TabsConcat([t[0]], t[1..]);
      TabsAreLeftOut(t[1..]);
    }
  }

  // ----- the opening tag

  lemma {:induction false} ReadsAttributes(a: seq<Attr>, done: seq<(string, string)>, rest: string, w: Work)
    returns (key: string)
    requires CleanAttributes(done + Pairs(a)) && WellSpaced(a) && w.attributes == done
    ensures Machine(AttributesText(a) + rest, OpenTagAttr, w)
      == Machine(rest, OpenTagAttr, w.(attrKey := key, attributes := done + Pairs(a)))
    decreases |a|
  {
    hide Machine, IsName, All, Escape, Blank;
    if a == [] {
      key := w.attrKey;
      assert done + Pairs(a) == done && AttributesText(a) + rest == rest;
    } else {
      var first, tail := a[0], AttributesText(a[1..]) + rest;
      var pair := (first.key, first.value);
      assert Pairs(a) == [pair] + Pairs(a[1..]);
      assert (done + Pairs(a))[|done|] == pair;
      NewKey(done, Pairs(a));
      Tagged(first, AttributesText(a[1..]), rest);
      ReadsAttribute(first.space, first.key, first.value, tail, w);
      assert done + [pair] + Pairs(a[1..]) == done + Pairs(a);
      key := ReadsAttributes(a[1..], done + [pair], rest, w.(attrKey := first.key, attributes := done + [pair]));
    }
  }

  lemma Tagged(a: Attr, more: string, rest: string)
    ensures (a.space + a.key + "=\"" + Escape(a.value) + "\"" + more) + rest
      == a.space + a.key + "=\"" + Escape(a.value) + "\"" + (more + rest)
  {
  }

  /** Everything behind the name. */
  function Behind(d: Doc): string { AttributesText(d.attributes) + d.space + EndText(d) }

  /** What is read first behind the name ends it. */
  lemma BehindStarts(d: Doc)
    requires Well(d)
    ensures var t := Behind(d);
      && t != [] && t[0] != '\n' && (IsSpace(t[0]) || t[0] == '/' || t[0] == '>')
      && (d.attributes != [] || d.space != [] || !d.selfClosing ==> t[0] != '/')
  {
    hide Escape, CleanAttributes, WellPiece, BodyText, IsName;
    var e := EndText(d);
    assert e[0] == if d.selfClosing then '/' else '>';
    if d.attributes != [] {
      var a := d.attributes[0];
      BlankStart(a.space);
      assert AttributesText(d.attributes)[0] == a.space[0];
    } else if d.space != [] {
      BlankStart(d.space);
    }
  }

  lemma BlankStart(t: string)
    requires Blank(t) && t != []
    ensures IsSpace(t[0]) && t[0] != '\n'
  {
  }

  lemma Rendered(d: Doc)
    ensures Render(d) == ['<'] + (d.name + Behind(d))
  {
    hide AttributesText, EndText;
    Apart3(d.name, AttributesText(d.attributes), d.space, EndText(d));
  }

  lemma Apart3(name: string, a: string, space: string, end: string)
    ensures "<" + name + a + space + end == ['<'] + (name + (a + space + end))
  {
  }

  // ----- the body

  /** What reading a body with this text in front of it and that closing tag gives. */
  function Closed(w: Work, text: string, body: seq<Piece>, close: string, rest: string): Option<(Node, string)> {
    if close != w.name then None
    else Some((Node(w.name, w.attributes, w.value + (Untabbed(text) + Characters(body)), w.children + Elements(body)),
      rest))
  }

  function BodyEnd(body: seq<Piece>, name: string, rest: string): string {
    BodyText(body) + ("</" + name + ">" + rest)
  }

  /** Text so far, then a body and the closing tag. */
  lemma {:induction false} ReadsBody(body: seq<Piece>, text: string, close: string, rest: string, w: Work)
    requires All(text, IsTextChar) && IsName(close) && forall i :: 0 <= i < |body| ==> WellPiece(body[i])
    ensures Machine(text + BodyEnd(body, close, rest), Body, w) == Closed(w, text, body, close, rest)
    decreases body
  {
    hide Machine, WellPiece, IsName, All, Closed, BodyEnd, Untabbed;
    if body == [] {
      ReadsNoPieces(text, close, rest, w);
      assert body == [];
    } else {
      var more := body[1..];
      assert body == [body[0]] + more;
      if body[0].Text? {
        TextPiece(body[0]);
        MoreText(text, body[0].text);
        ReadsBody(more, text + body[0].text, close, rest, w);
        TextInFront(body[0].text, more, text, close, rest, w);
      } else {
        ElementPiece(body[0]);
        ReadsPiece(body[0], BodyEnd(more, close, rest));
        NoText();
        ReadsBody(more, [], close, rest, Grown(w, text, body[0].doc));
        ElementInFront(body[0].doc, more, text, close, rest, w);
      }
    }
  }

  function Grown(w: Work, text: string, d: Doc): Work {
    w.(value := w.value + Untabbed(text), children := w.children + [Meaning(d)])
  }

  lemma ReadsPiece(p: Piece, rest: string)
    requires p.Element? && Well(p.doc)
    ensures Machine(Render(p.doc) + rest, Initial, BLANK) == Some((Meaning(p.doc), rest))
    decreases p
  {
    hide Machine, Render, Meaning, Well;
    ReadsDoc(p.doc, rest);
  }

  lemma ReadsNoPieces(text: string, close: string, rest: string, w: Work)
    requires All(text, IsTextChar) && IsName(close)
    ensures Machine(text + BodyEnd([], close, rest), Body, w) == Closed(w, text, [], close, rest)
  {
    hide Machine, IsName, All, Untabbed, WithoutTabs;
    TabsAreLeftOut(text);
    assert text + BodyEnd([], close, rest) == text + "</" + close + ">" + rest;
    assert Untabbed(text) + Characters([]) == Untabbed(text) && w.children + Elements([]) == w.children;
    ClosesTag(text, close, rest, w);
  }

  lemma PiecesCons(p: Piece, more: seq<Piece>)
    ensures BodyText([p] + more) == PieceText(p) + BodyText(more)
    ensures Characters([p] + more) == (if p.Text? then Untabbed(p.text) else []) + Characters(more)
    ensures Elements([p] + more) == PieceNodes(p) + Elements(more)
  {
    assert ([p] + more)[1..] == more;
  }

  lemma TextInFront(t: string, more: seq<Piece>, text: string, close: string, rest: string, w: Work)
    requires All(text, IsTextChar) && All(t, IsTextChar)
    requires Machine(text + t + BodyEnd(more, close, rest), Body, w) == Closed(w, text + t, more, close, rest)
    ensures var body := [Text(t)] + more;
      Machine(text + BodyEnd(body, close, rest), Body, w) == Closed(w, text, body, close, rest)
  {
    hide Machine, All, Untabbed, BodyText, Characters, Elements;
    PiecesCons(Text(t), more);
    MoreText(text, t);
    Moved(text, t, BodyText(more), "</" + close + ">" + rest);
    assert (Untabbed(text) + Untabbed(t)) + Characters(more) == Untabbed(text) + (Untabbed(t) + Characters(more));
    assert [] + Elements(more) == Elements(more);
  }

  lemma ElementInFront(d: Doc, more: seq<Piece>, text: string, close: string, rest: string, w: Work)
    requires All(text, IsTextChar) && Well(d) && !LooksClosing(d)
    requires var after := BodyEnd(more, close, rest);
      && Machine(Render(d) + after, Initial, BLANK) == Some((Meaning(d), after))
      && Machine([] + after, Body, Grown(w, text, d)) == Closed(Grown(w, text, d), [], more, close, rest)
    ensures var body := [Element(d)] + more;
      Machine(text + BodyEnd(body, close, rest), Body, w) == Closed(w, text, body, close, rest)
  {
    hide Machine, All, Untabbed, BodyText, Characters, Elements, Well, Render, Meaning, Behind, WithoutTabs, IsName;
    var after, inside := BodyEnd(more, close, rest), d.name + Behind(d);
    PiecesCons(Element(d), more);
    TabsAreLeftOut(text);
    Rendered(d);
    InsideStarts(d);
    Opened(text, inside, BodyText(more), "</" + close + ">" + rest);
    Front(inside, after);
    ReadsChild(text, inside + after, after, Meaning(d), w);
    NoText();
    assert [] + after == after;
    ClosedInFront(d, more, text, close, rest, w);
  }

  lemma Front(inside: string, after: string)
    requires inside != []
    ensures (inside + after)[0] == inside[0] && (['<'] + inside) + after == ['<'] + (inside + after)
  {
  }

  lemma ClosedInFront(d: Doc, more: seq<Piece>, text: string, close: string, rest: string, w: Work)
    ensures Closed(Grown(w, text, d), [], more, close, rest) == Closed(w, text, [Element(d)] + more, close, rest)
  {
    hide Untabbed, Characters, Elements, Meaning;
    PiecesCons(Element(d), more);
    NoText();
    assert w.value + Untabbed(text) + ([] + Characters(more)) == w.value + (Untabbed(text) + ([] + Characters(more)));
    assert w.children + [Meaning(d)] + Elements(more) == w.children + ([Meaning(d)] + Elements(more));
  }

  lemma NoText()
    ensures All([], IsTextChar) && Untabbed([]) == []
  {
  }

  lemma TextPiece(p: Piece)
    requires WellPiece(p) && p.Text?
    ensures All(p.text, IsTextChar)
  {
  }

  lemma ElementPiece(p: Piece)
    requires WellPiece(p) && p.Element?
    ensures Well(p.doc) && !LooksClosing(p.doc)
  {
  }

  lemma MoreText(a: string, b: string)
    requires All(a, IsTextChar) && All(b, IsTextChar)
    ensures All(a + b, IsTextChar) && Untabbed(a + b) == Untabbed(a) + Untabbed(b)
  {
    TabsConcat(a, b);
    TabsAreLeftOut(a);
    TabsAreLeftOut(b);
    TabsAreLeftOut(a + b);
  }

  lemma Moved(text: string, t: string, more: string, close: string)
    ensures text + ((t + more) + close) == (text + t) + (more + close)
  {
  }

  lemma Opened(text: string, inside: string, more: string, close: string)
    ensures text + (((['<'] + inside) + more) + close) == text + ['<'] + (inside + (more + close))
  {
  }

  lemma InsideStarts(d: Doc)
    requires Well(d) && !LooksClosing(d)
    ensures var t := d.name + Behind(d); t != [] && t[0] != '!' && t[0] != '/'
  {
    hide Behind;
    BehindStarts(d);
  }

  // ----- whole documents

  /** The opening tag up to the white space in front of its end. */
  function Opening(lead: string, d: Doc): string { lead + "<" + d.name + AttributesText(d.attributes) + d.space }

  /** What is read first behind the name ends it. */
  lemma OpeningGoesOn(d: Doc, end: string)
    requires Well(d) && end != [] && (end[0] == '/' || end[0] == '>')
    ensures var t := AttributesText(d.attributes) + (d.space + end);
      t != [] && t[0] != '\n' && (IsSpace(t[0]) || t[0] == '/' || t[0] == '>')
  {
    hide Escape, CleanAttributes, WellPiece, BodyText, IsName;
    if d.attributes != [] {
      BlankStart(d.attributes[0].space);
      assert AttributesText(d.attributes)[0] == d.attributes[0].space[0];
    } else if d.space != [] {
      BlankStart(d.space);
    }
  }

  lemma OpeningIsRead(lead: string, d: Doc, end: string) returns (w: Work)
    requires Blank(lead) && Well(d) && end != [] && (end[0] == '/' || end[0] == '>')
    ensures w.name == d.name && w.attributes == Pairs(d.attributes) && w.value == [] && w.children == []
    ensures Parse(Opening(lead, d) + end) == Machine(d.space + end, OpenTagAttr, w)
  {
    hide Machine, AttributesText, Pairs, Escape, WellPiece, CleanAttributes, IsName, Blank;
    var t := AttributesText(d.attributes) + (d.space + end);
    OpeningGoesOn(d, end);
    Named(lead, d.name, AttributesText(d.attributes), d.space, end);
    OpensTag(lead, d.name, t[0], t[1..]);
    assert t == [t[0]] + t[1..];
    w := BLANK.(name := d.name);
    assert [] + Pairs(d.attributes) == Pairs(d.attributes);
    var key := ReadsAttributes(d.attributes, [], d.space + end, w);
    w := w.(attrKey := key, attributes := Pairs(d.attributes));
  }

  lemma Named(lead: string, name: string, a: string, space: string, end: string)
    requires a + (space + end) != []
    ensures var t := a + (space + end);
      (lead + "<" + name + a + space) + end == lead + "<" + name + [t[0]] + t[1..]
  {
    var t := a + (space + end);
    assert t == [t[0]] + t[1..];
    assert (lead + "<" + name + a + space) + end == (lead + "<" + name) + t;
  }

  /** A document behind white space is read as what it means, and the rest of the input is left. */
  lemma {:induction false} LaidOutIsRead(lead: string, d: Doc, rest: string)
    requires Blank(lead) && Well(d)
    ensures Parse(lead + Render(d) + rest) == Some((Meaning(d), rest))
    decreases d, 1
  {
    hide Machine, AttributesText, Pairs, BodyText, Meaning, Well, Blank;
    var end := EndText(d) + rest;
    assert end[0] == EndText(d)[0];
    Placed(lead, d, rest);
    var w := OpeningIsRead(lead, d, end);
    EndIsRead(d, rest, w);
  }

  lemma Placed(lead: string, d: Doc, rest: string)
    ensures lead + Render(d) + rest == Opening(lead, d) + (EndText(d) + rest)
  {
    hide AttributesText, EndText;
    var a, end := AttributesText(d.attributes), EndText(d);
    assert lead + ("<" + d.name + a + d.space + end) + rest == (lead + "<" + d.name + a + d.space) + (end + rest);
  }

  /** A closing tag with another name is an error. */
  lemma MisclosedIsRejected(lead: string, d: Doc, close: string, rest: string)
    requires Blank(lead) && Well(d) && !d.selfClosing && IsName(close) && close != d.name
    ensures Parse(Opening(lead, d) + (['>'] + BodyEnd(d.body, close, rest))) == None
  {
    hide Machine, AttributesText, Pairs, BodyEnd, Blank, WellPiece, CleanAttributes, IsName, Untabbed;
    var w := OpeningIsRead(lead, d, ['>'] + BodyEnd(d.body, close, rest));
    assert d.space + (['>'] + BodyEnd(d.body, close, rest)) == d.space + ['>'] + BodyEnd(d.body, close, rest);
    EndsTag(d.space, BodyEnd(d.body, close, rest), w);
    NoText();
    assert [] + BodyEnd(d.body, close, rest) == BodyEnd(d.body, close, rest);
    ReadsBody(d.body, [], close, rest, w);
  }

  lemma {:induction false} EndIsRead(d: Doc, rest: string, w: Work)
    requires Well(d) && w.name == d.name && w.attributes == Pairs(d.attributes) && w.value == [] && w.children == []
    ensures Machine(d.space + (EndText(d) + rest), OpenTagAttr, w) == Some((Meaning(d), rest))
    decreases d, 0
  {
    hide Machine, Pairs, BodyText, Characters, Elements, WellPiece, CleanAttributes, IsName, Blank, Untabbed;
    if d.selfClosing {
      assert d.space + ("/>" + rest) == d.space + "/>" + rest;
      EndsEmptyTag(d.space, rest, w);
    } else {
      var inside := BodyEnd(d.body, w.name, rest);
      Closing(d.space, BodyText(d.body), "</" + d.name + ">", rest);
      assert inside == BodyText(d.body) + ("</" + d.name + ">" + rest);
      EndsTag(d.space, inside, w);
      NoText();
      assert [] + inside == inside;
      ReadsBody(d.body, [], d.name, rest, w);
      assert [] + ([] + Characters(d.body)) == Characters(d.body) && [] + Elements(d.body) == Elements(d.body);
    }
  }

  lemma Closing(space: string, body: string, close: string, rest: string)
    ensures space + ((">" + body + close) + rest) == space + ['>'] + (body + (close + rest))
  {
  }

  lemma ReadsDoc(d: Doc, rest: string)
    requires Well(d)
    ensures Machine(Render(d) + rest, Initial, BLANK) == Some((Meaning(d), rest))
    decreases d, 2
  {
    hide Machine, Render, Meaning, Well;
    assert Blank([]);
    assert [] + Render(d) + rest == Render(d) + rest;
    LaidOutIsRead([], d, rest);
  }

  // ----- errors

  /** Which characters may end the run of each state; anything else is an error. */
  lemma FailsIff(run: Run, st: State, w: Work)
    ensures After(run, st, w) == Fail <==>
      match st
      case Initial => run.stop != '<'
      case OpenTagKey => false
      case OpenTagAttr => !IsAlnum(run.stop) && run.stop != '>'
        && !(run.stop == '/' && run.rest != [] && run.rest[0] == '>')
      case AttrKey =>
        || run.stop != '=' || run.rest == [] || run.rest[0] != '\"'
        || exists i :: 0 <= i < |w.attributes| && w.attributes[i].0 == run.text
      case AttrValue => run.stop != '\"'
      case Body => run.stop != '<'
      case CloseTag => run.stop != '>' || run.text != w.name
  {
  }

  /** An error is final, and so is the end of the input inside a tag, or a zero byte. */
  lemma ErrorsAreFinal(s: string, st: State, w: Work)
    ensures Reads(s, st).None? ==> Machine(s, st, w) == None
    ensures Reads(s, st).Some? && After(Reads(s, st).value, st, w) == Fail ==> Machine(s, st, w) == None
    ensures Reads([], st).None? && Reads(['\0'] + s, st).None?
  {
    hide Span, After;
    GetPlain('\0', s);
  }
}
