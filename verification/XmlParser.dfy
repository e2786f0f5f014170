/** The parser itself: a stream that it can push one character back into, and its loop. */
module XmlParser {
  import opened Optional
  import opened XmlGrammar

  class Parser {
    const input: string
    var pos: nat
    /** The escape flag; it is only ever set where it is set already. */
    var escaped: bool

    ghost predicate Valid()
      reads this
    {
      pos <= |input| && !escaped
    }

    /** The input that is still to be read. */
    ghost function Rest(): string
      requires pos <= |input|
      reads this
    {
      input[pos..]
    }

    constructor (input: string)
      ensures Valid() && Rest() == input
    {
      this.input := input;
      pos, escaped := 0, false;
    }

    predicate PeekIs(c: char)
      requires pos <= |input|
      reads this
      ensures PeekIs(c) == StartsWith(Rest(), c)
    {
      pos < |input| && input[pos] == c
    }

    /** Skip a character that was seen by a peek. */
    method Skip()
      requires Valid() && pos < |input|
      modifies `pos
      ensures Valid() && old(Rest()) != [] && Rest() == old(Rest())[1..] && pos == old(pos) + 1
    {
      pos := pos + 1;
    }

    /** Push back the character that was read last. */
    method Unget()
      requires Valid() && pos > 0
      modifies `pos
      ensures Valid() && pos == old(pos) - 1 && Rest() == [input[pos]] + old(Rest())
    {
      pos := pos - 1;
    }

    /** The character that was read last. */
    predicate Last(c: char)
      reads this
    {
      0 < pos <= |input| && input[pos - 1] == c
    }

    /** The result and the new position are those of a reading function. */
    ghost predicate Reads(r: Option<char>, was: Option<(char, string)>)
      reads this
    {
      && pos <= |input|
      && match was { case None => r == None case Some((c, rest)) => r == Some(c) && Rest() == rest && Last(c) }
    }

    method GetCharRaw() returns (r: Option<char>)
      requires pos <= |input|
      modifies `pos
      ensures Reads(r, Raw(old(Rest()))) && pos >= old(pos)
      decreases |input| - pos
    {
      if pos == |input| {
        return None;
      }
      var c := input[pos];
      pos := pos + 1;
      if c == '\n' {
        r := GetCharRaw();
      } else {
        r := Some(c);
      }
    }

    /** After a backslash with the escape flag set: the character behind it. */
    ghost function Low(s: string, flag: bool): Option<(char, string)> {
      var r := Raw(s);
      if r.Some? && flag && r.value.0 == '\\' then Raw(r.value.1) else r
    }

    method GetCharLow() returns (r: Option<char>)
      requires pos <= |input|
      modifies `pos, `escaped
      ensures Reads(r, Low(old(Rest()), old(escaped))) && pos >= old(pos)
      ensures escaped ==> old(escaped)
    {
      r := GetCharRaw();
      if r.None? {
        return;
      }
      if escaped && r.value == '\\' {
        escaped := true;
        r := GetCharRaw();
        return;
      }
      escaped := false;
    }

    /** Up to two hyphens in a row. */
    method SkipToHyphens() returns (ok: bool)
      requires Valid()
      modifies `pos, `escaped
      ensures Valid() && pos >= old(pos)
      ensures match CommentTail(old(Rest())) { case None => !ok case Some(rest) => ok && Rest() == rest }
    {
      hide Raw;
      while true
        invariant Valid() && pos >= old(pos)
        invariant CommentTail(Rest()) == CommentTail(old(Rest()))
        decreases |input| - pos
      {
        var c := GetCharLow();
        if c.None? {
          return false;
        }
        if c.value == '-' && PeekIs('-') {
          Skip();
          return true;
        }
      }
    }

    /** Behind "<!" up to the end of the comment. */
    method SkipComment() returns (ok: bool)
      requires Valid()
      modifies `pos, `escaped
      ensures Valid() && pos >= old(pos)
      ensures match Comment(old(Rest())) { case None => !ok case Some(rest) => ok && Rest() == rest }
    {
      hide Raw, CommentTail;
      var c := GetCharLow();
      if c.None? || c.value != '-' || !PeekIs('-') {
        return false;
      }
      Skip();
      ok := SkipToHyphens();
      if !ok {
        return;
      }
      c := GetCharLow();
      return c.Some? && c.value == '>';
    }

    method GetChar() returns (r: Option<char>)
      requires Valid()
      modifies `pos, `escaped
      ensures Valid() && pos >= old(pos)
      ensures Reads(r, Get(old(Rest())))
      decreases |input| - pos
    {
      r := GetCharLow();
      if r == Some('<') && PeekIs('!') {
        Skip();
        var ok := SkipComment();
        if !ok {
          return None;
        }
        r := GetChar();
      }
    }

    /** The inner loops of the states: from c on, collect characters with property p. */
    method ReadWhile(c: char, p: char -> bool) returns (r: Option<(string, char)>)
      requires Valid() && Last(c)
      modifies `pos, `escaped
      ensures Valid() && pos >= old(pos)
      ensures match Span(c, old(Rest()), p) {
                case None => r == None
                case Some(run) => r == Some((run.text, run.stop)) && Rest() == run.rest && Last(run.stop) }
    {
      hide Get, Span;
      var text, d := [], c;
      CollectNone(Span(c, Rest(), p));
      while p(d)
        invariant Valid() && pos >= old(pos) && Last(d)
        invariant Collected(text, Span(d, Rest(), p)) == Span(c, old(Rest()), p)
        decreases |input| - pos
      {
        ghost var s := Rest();
        SpanGoesOn(d, s, p);
        var next := GetChar();
        if next.None? {
          return None;
        }
        CollectOne(text, d, s, p);
        text, d := text + [d], next.value;
      }
      SpanStops(d, Rest(), p);
      assert text + [] == text;
      r := Some((text, d));
    }

    /** What a state does when its run of characters has been read and c has ended it. */
    method React(text: string, c: char, state: State, w: Work) returns (a: Action)
      requires Valid() && Last(c)
      modifies `pos
      ensures Valid()
      ensures match After(Run(text, c, old(Rest())), state, w) {
                case Go(rest, state', w') => a == Continue(state', w') && Rest() == rest
                case Child(rest, w') => a == Descend(w') && Rest() == rest
                case Return(node, rest) => a == Finish(node) && Rest() == rest
                case Fail => a == Stop }
    {
      hide WithoutTabs;
      match state
      case Initial =>
        a := if c == '<' then Continue(OpenTagKey, w) else Stop;
      case OpenTagKey =>
        Unget();
        a := Continue(OpenTagAttr, w.(name := w.name + text));
      case OpenTagAttr =>
        if IsAlnum(c) {
          Unget();
          a := Continue(AttrKey, w);
        } else if c == '/' && PeekIs('>') {
          Skip();
          a := Finish(Node(w.name, w.attributes, [], []));
        } else {
          a := if c == '>' then Continue(Body, w) else Stop;
        }
      case AttrKey =>
        var known := FindKey(w.attributes, text);
        if !known && c == '=' && PeekIs('\"') {
          Skip();
          a := Continue(AttrValue, w.(attrKey := text));
        } else {
          a := Stop;
        }
      case AttrValue =>
        a := if c == '\"' then Continue(OpenTagAttr, w.(attributes := w.attributes + [(w.attrKey, text)])) else Stop;
      case Body =>
        if c == '<' && PeekIs('/') {
          Skip();
          a := Continue(CloseTag, w.(value := w.value + WithoutTabs(text)));
        } else if c == '<' {
          Unget();
          a := Descend(w.(value := w.value + WithoutTabs(text)));
        } else {
          a := Stop;
        }
      case CloseTag =>
        a := if c == '>' && w.name == text then Finish(Node(w.name, w.attributes, w.value, w.children)) else Stop;
    }

    /** The loop that looks for a key that is defined already. */
    method FindKey(attributes: seq<(string, string)>, key: string) returns (known: bool)
      ensures known <==> HasKey(attributes, key)
    {
      for i := 0 to |attributes|
        invariant forall k :: 0 <= k < i ==> attributes[k].0 != key
      {
        if attributes[i].0 == key {
          return true;
        }
      }
      return false;
    }

    /** The run of characters of a state. */
    method ReadRun(state: State) returns (r: Option<(string, char)>)
      requires Valid()
      modifies `pos, `escaped
      ensures Valid()
      ensures match XmlGrammar.Reads(old(Rest()), state) {
                case None => r == None
                case Some(run) => r == Some((run.text, run.stop)) && Rest() == run.rest && Last(run.stop) }
    {
      hide Get, Span, Kind;
      var c := GetChar();
      if c.None? || c.value == '\0' {
        return None;
      }
      r := ReadWhile(c.value, Kind(state));
    }

    /** parse(): state after state; a tag inside the body is parsed by a call of its own. */
    method Parse() returns (r: Option<Node>)
      requires Valid()
      modifies `pos, `escaped
      ensures Valid()
      ensures match XmlGrammar.Parse(old(Rest())) {
        case None => r == None
        case Some((node, rest)) => r == Some(node) && Rest() == rest
      }
      decreases |input| - pos
    {
      hide XmlGrammar.Reads, After, WithoutTabs;
      var state, w := Initial, BLANK;
      while true
        invariant Valid() && |Rest()| <= old(|Rest()|) && (state != Initial ==> |Rest()| < old(|Rest()|))
        invariant Machine(Rest(), state, w) == Machine(old(Rest()), Initial, BLANK)
        decreases |input| - pos, Rank(state)
      {
        ghost var next := Step(Rest(), state, w);
        var run := ReadRun(state);
        if run.None? {
          return None;
        }
        var (text, c) := run.value;
        var a := React(text, c, state, w);
        match a {
          case Continue(state', w') =>
            state, w := state', w';
          case Descend(w') =>
            var child := Parse();
            if child.None? {
              return None;
            }
            w := w'.(children := w'.children + [child.value]);
          case Finish(node) =>
            return Some(node);
          case Stop =>
            return None;
        }
      }
    }
  }

  datatype Action = Continue(state: State, work: Work) | Descend(work: Work) | Finish(node: Node) | Stop

  lemma CollectNone(run: Option<Run>)
    ensures Collected([], run) == run
  {
    if run.Some? {
      assert [] + run.value.text == run.value.text;
    }
  }

  lemma SpanStops(c: char, s: string, p: char -> bool)
    requires !p(c)
    ensures Span(c, s, p) == Some(Run([], c, s))
  {
  }

  lemma SpanGoesOn(c: char, s: string, p: char -> bool)
    requires p(c)
    ensures Get(s).None? ==> Span(c, s, p) == None
  {
  }

  /** What a run looks like to a loop that has already collected some of it. */
  function Collected(text: string, run: Option<Run>): Option<Run> {
    if run.None? then None else Some(run.value.(text := text + run.value.text))
  }

  lemma CollectOne(text: string, d: char, s: string, p: char -> bool)
    requires p(d) && Get(s).Some?
    ensures Collected(text, Span(d, s, p)) == Collected(text + [d], Span(Get(s).value.0, Get(s).value.1, p))
  {
    hide Get;
    var rest := Span(Get(s).value.0, Get(s).value.1, p);
    if rest.Some? {
      assert text + ([d] + rest.value.text) == text + [d] + rest.value.text;
    }
  }
}
