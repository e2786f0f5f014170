/** The XML dialect of the configuration files: what the parser makes of a text, as a
    function of the text, and the printer. Characters are bytes in the C locale. */
module XmlGrammar {
  import opened Optional

  datatype Node = Node(name: string, attributes: seq<(string, string)>, value: string, children: seq<Node>)

  predicate IsSpace(c: char) { c == ' ' || '\t' <= c <= '\r' }

  predicate IsAlnum(c: char) { '0' <= c <= '9' || 'A' <= c <= 'Z' || 'a' <= c <= 'z' }

  predicate IsNameChar(c: char) { IsAlnum(c) || c == '_' }

  predicate IsPrint(c: char) { ' ' <= c <= '~' }

  predicate IsValueChar(c: char) { c != '\"' && IsPrint(c) }

  predicate IsTextChar(c: char) { c != '<' && (IsPrint(c) || c == '\t') }

  // ----- reading characters

  /** The next character; line ends do not count. */
  function Raw(s: string): (r: Option<(char, string)>)
    ensures r.Some? ==> |r.value.1| < |s| && r.value.0 != '\n'
  {
    if s == [] then None else if s[0] == '\n' then Raw(s[1..]) else Some((s[0], s[1..]))
  }

  /** What comes after the two hyphens that end a comment. */
  function CommentTail(s: string): (r: Option<string>)
    ensures r.Some? ==> |r.value| < |s|
    decreases |s|
  {
    match Raw(s)
    case None => None
    case Some((c, rest)) => if c == '-' && rest != [] && rest[0] == '-' then Some(rest[1..]) else CommentTail(rest)
  }

  /** Behind "<!": the rest of a comment. */
  function Comment(s: string): (r: Option<string>)
    ensures r.Some? ==> |r.value| < |s|
  {
    match Raw(s)
    case None => None
    case Some((c, rest)) =>
      if c != '-' || rest == [] || rest[0] != '-' then None
      else
        match CommentTail(rest[1..])
        case None => None
        case Some(tail) =>
          match Raw(tail)
          case None => None
          case Some((d, after)) => if d == '>' then Some(after) else None
  }

  /** The next character outside comments. */
  function Get(s: string): (r: Option<(char, string)>)
    ensures r.Some? ==> |r.value.1| < |s| && r.value.0 != '\n'
    decreases |s|
  {
    match Raw(s)
    case None => None
    case Some((c, rest)) =>
      if c == '<' && rest != [] && rest[0] == '!' then
        match Comment(rest[1..])
        case None => None
        case Some(after) => Get(after)
      else Some((c, rest))
  }

  datatype Run = Run(text: string, stop: char, rest: string)

  /** From character c on: the longest run of characters with property p, and the character
      that ends it. */
  function Span(c: char, s: string, p: char -> bool): (r: Option<Run>)
    ensures r.Some? ==> |r.value.rest| <= |s| && !p(r.value.stop) && (r.value.text != [] ==> |r.value.rest| < |s|)
    ensures r.Some? && r.value.text == [] ==> r.value.rest == s && r.value.stop == c
    decreases |s|
  {
    if !p(c) then Some(Run([], c, s))
    else
      match Get(s)
      case None => None
      case Some((d, rest)) =>
        match Span(d, rest, p)
        case None => None
        case Some(run) => Some(run.(text := [c] + run.text))
  }

  // ----- the state machine

  datatype State = Initial | OpenTagKey | OpenTagAttr | AttrKey | AttrValue | Body | CloseTag

  /** What has been collected of one node. */
  datatype Work = Work(name: string, value: string, attrKey: string,
    attributes: seq<(string, string)>, children: seq<Node>)

  const BLANK: Work := Work([], [], [], [], [])

  datatype Next =
    | Go(rest: string, state: State, work: Work) | Child(rest: string, work: Work) | Return(node: Node, rest: string)
    | Fail

  function Rank(st: State): nat {
    match st
    case OpenTagKey => 3
    case OpenTagAttr => 2
    case AttrKey => 1
    case Body => 1
    case _ => 0
  }

  function WithoutTabs(t: string): string {
    if t == [] then [] else WithoutTabs(t[..|t| - 1]) + if t[|t| - 1] == '\t' then [] else [t[|t| - 1]]
  }

  predicate HasKey(attributes: seq<(string, string)>, key: string) {
    exists i :: 0 <= i < |attributes| && attributes[i].0 == key
  }

  predicate StartsWith(s: string, c: char) { s != [] && s[0] == c }

  /** What happens once the run of characters of a state has been read. A character that is
      pushed back is read again. */
  function After(run: Run, st: State, w: Work): (n: Next)
    ensures n.Go? ==> |n.rest| <= |run.rest| || (|n.rest| == |run.rest| + 1 && Rank(n.state) < Rank(st))
    ensures n.Go? ==> n.state != Initial && (st == Initial ==> |n.rest| <= |run.rest|)
    ensures n.Child? ==> st == Body && |n.rest| == |run.rest| + 1
    ensures n.Return? ==> |n.rest| <= |run.rest|
  {
    var c, rest := run.stop, run.rest;
    match st
    case Initial => if c == '<' then Go(rest, OpenTagKey, w) else Fail
    case OpenTagKey => Go([c] + rest, OpenTagAttr, w.(name := w.name + run.text))
    case OpenTagAttr =>
      if IsAlnum(c) then Go([c] + rest, AttrKey, w)
      else if c == '/' && StartsWith(rest, '>') then Return(Node(w.name, w.attributes, [], []), rest[1..])
      else if c == '>' then Go(rest, Body, w)
      else Fail
    case AttrKey =>
      if !HasKey(w.attributes, run.text) && c == '=' && StartsWith(rest, '\"') then
        Go(rest[1..], AttrValue, w.(attrKey := run.text))
      else Fail
    case AttrValue =>
      if c == '\"' then Go(rest, OpenTagAttr, w.(attributes := w.attributes + [(w.attrKey, run.text)])) else Fail
    case Body =>
      if c == '<' && StartsWith(rest, '/') then Go(rest[1..], CloseTag, w.(value := w.value + WithoutTabs(run.text)))
      else if c == '<' then Child([c] + rest, w.(value := w.value + WithoutTabs(run.text)))
      else Fail
    case CloseTag =>
      if c == '>' && w.name == run.text then Return(Node(w.name, w.attributes, w.value, w.children), rest) else Fail
  }

  function Kind(st: State): char -> bool {
    match st
    case Initial => IsSpace
    case OpenTagKey => IsNameChar
    case OpenTagAttr => IsSpace
    case AttrKey => IsNameChar
    case AttrValue => IsValueChar
    case Body => IsTextChar
    case CloseTag => IsNameChar
  }

  /** The run of characters that a state reads. */
  function Reads(s: string, st: State): (r: Option<Run>)
    ensures r.Some? ==> |r.value.rest| < |s|
  {
    match Get(s)
    case None => None
    case Some((c, rest)) => if c == '\0' then None else Span(c, rest, Kind(st))
  }

  /** One step: it gets closer to the end of the input, or to the end of the states that
      push a character back. */
  function Step(s: string, st: State, w: Work): (n: Next)
    ensures n.Go? ==> |n.rest| < |s| || (|n.rest| == |s| && Rank(n.state) < Rank(st))
    ensures n.Go? ==> n.state != Initial && (st == Initial ==> |n.rest| < |s|)
    ensures n.Child? ==> st == Body && |n.rest| <= |s|
    ensures n.Return? ==> |n.rest| < |s|
  {
    match Reads(s, st)
    case None => Fail
    case Some(run) => After(run, st, w)
  }

  /** The node that starts here, and what follows it. */
  function Machine(s: string, st: State, w: Work): (r: Option<(Node, string)>)
    ensures r.Some? ==> |r.value.1| < |s|
    decreases |s|, Rank(st)
  {
    match Step(s, st, w)
    case Fail => None
    case Return(node, rest) => Some((node, rest))
    case Go(rest, st', w') => Machine(rest, st', w')
    case Child(rest, w') =>
      match Machine(rest, Initial, BLANK)
      case None => None
      case Some((node, after)) => Machine(after, Body, w'.(children := w'.children + [node]))
  }

  /** Parsing a text. */
  function Parse(s: string): Option<(Node, string)> { Machine(s, Initial, BLANK) }

  // ----- the printer

  function PrintAttributes(attributes: seq<(string, string)>): string {
    if attributes == [] then []
    else " " + attributes[0].0 + "=\"" + attributes[0].1 + "\"" + PrintAttributes(attributes[1..])
  }

  function PrintAll(nodes: seq<Node>): string
    decreases nodes
  {
    if nodes == [] then [] else Print(nodes[0]) + PrintAll(nodes[1..])
  }

  function Print(n: Node): string
    decreases n
  {
    "<" + n.name + PrintAttributes(n.attributes) + ">" + n.value + PrintAll(n.children) + "</" + n.name + ">"
  }
}
