/** How the parser reads the parts of a tag: names, keys, escaped values, text and children. */
module XmlReading {
  import opened Optional
  import opened XmlGrammar

  ghost predicate All(t: string, p: char -> bool) { forall i :: 0 <= i < |t| ==> p(t[i]) }

  /** No line end and no start of a comment. */
  ghost predicate Quiet(t: string) {
    forall i :: 0 <= i < |t| ==> t[i] != '\n' && (t[i] == '<' && i + 1 < |t| ==> t[i + 1] != '!')
  }

  predicate IsName(t: string) { forall i :: 0 <= i < |t| ==> IsNameChar(t[i]) }

  predicate IsText(t: string) { forall i :: 0 <= i < |t| ==> IsPrint(t[i]) && t[i] != '<' }

  /** Distinct keys that start alphanumeric, and printable values. */
  ghost predicate CleanAttributes(a: seq<(string, string)>) {
    && (forall i :: 0 <= i < |a| ==> a[i].0 != [] && IsAlnum(a[i].0[0]) && IsName(a[i].0) && All(a[i].1, IsValueChar))
    && (forall i, j :: 0 <= i < j < |a| ==> a[i].0 != a[j].0)
  }

  /** White space without line ends. */
  ghost predicate Blank(t: string) { All(t, IsSpace) && Quiet(t) }

  /** A comment between the two characters of "<!" is skipped, and keeps them apart. */
  function Escape(v: string): string {
    if v == [] then []
    else [v[0]] + (if v[0] == '<' && StartsWith(v[1..], '!') then "<!---->" else []) + Escape(v[1..])
  }

  // ----- reading a run

  lemma GetPlain(c: char, rest: string)
    requires c != '\n' && (c == '<' && rest != [] ==> rest[0] != '!')
    ensures Get([c] + rest) == Some((c, rest))
  {
    assert ([c] + rest)[1..] == rest;
  }

  lemma QuietTail(t: string)
    requires Quiet(t) && t != []
    ensures Quiet(t[1..])
  {
  }

  /** The first character of a quiet run, or the one that ends it. */
  lemma GetFirst(t: string, x: char, rest: string)
    requires Quiet(t + [x]) && (x == '<' && rest != [] ==> rest[0] != '!')
    ensures Get(t + [x] + rest) == Some(((t + [x])[0], if t == [] then rest else t[1..] + [x] + rest))
  {
    hide Get;
    var u := t + [x];
    assert u + rest == [u[0]] + (u[1..] + rest);
    if t == [] {
      assert u[1..] + rest == rest;
    } else {
      assert u[1..] + rest == t[1..] + [x] + rest;
      assert (u[1..] + rest)[0] == u[1];
    }
    GetPlain(u[0], u[1..] + rest);
  }

  lemma {:induction false} SpanText(t: string, x: char, rest: string, p: char -> bool)
    requires All(t, p) && !p(x) && Quiet(t + [x]) && (x == '<' && rest != [] ==> rest[0] != '!')
    ensures t == [] ==> Span(x, rest, p) == Some(Run([], x, rest))
    ensures t != [] ==> Span(t[0], t[1..] + [x] + rest, p) == Some(Run(t, x, rest))
    decreases |t|
  {
    hide Get;
    if t != [] {
      var u := t[1..] + [x];
      assert (t + [x])[1..] == u;
      QuietTail(t + [x]);
      SpanText(t[1..], x, rest, p);
      GetFirst(t[1..], x, rest);
      assert t == [t[0]] + t[1..];
    }
  }

  lemma ReadsText(t: string, x: char, rest: string, st: State)
    requires All(t, Kind(st)) && !Kind(st)(x) && Quiet(t + [x]) && (x == '<' && rest != [] ==> rest[0] != '!')
    requires (t + [x])[0] != '\0'
    ensures Reads(t + [x] + rest, st) == Some(Run(t, x, rest))
  {
    hide Span, Get, Kind;
    SpanText(t, x, rest, Kind(st));
    GetFirst(t, x, rest);
  }

  /** One step of the machine on a run that is known. */
  lemma Steps(s: string, st: State, w: Work, run: Run, rest: string, st': State, w': Work)
    requires Reads(s, st) == Some(run) && After(run, st, w) == Go(rest, st', w')
    ensures Machine(s, st, w) == Machine(rest, st', w')
  {
    hide Reads, After;
  }

  lemma Descends(s: string, w: Work, run: Run, rest: string, w': Work, node: Node, after: string)
    requires Reads(s, Body) == Some(run) && After(run, Body, w) == Child(rest, w')
    requires Machine(rest, Initial, BLANK) == Some((node, after))
    ensures Machine(s, Body, w) == Machine(after, Body, w'.(children := w'.children + [node]))
  {
    hide Reads, After;
  }

  lemma Returns(s: string, st: State, w: Work, run: Run, node: Node, rest: string)
    requires Reads(s, st) == Some(run) && After(run, st, w) == Return(node, rest)
    ensures Machine(s, st, w) == Some((node, rest))
  {
    hide Reads, After;
  }

  lemma Fails(s: string, st: State, w: Work, run: Run)
    requires Reads(s, st) == Some(run) && After(run, st, w) == Fail
    ensures Machine(s, st, w) == None
  {
    hide Reads, After;
  }

  lemma NamesAreQuiet(t: string, x: char)
    requires IsName(t) && x != '\n'
    ensures Quiet(t + [x]) && (x != '\0' ==> (t + [x])[0] != '\0') && All(t, IsNameChar)
  {
  }

  // ----- reading an escaped value

  lemma {:induction false} CommentEnds(t: string, rest: string)
    requires All(t, IsPrint) && '-' !in t
    ensures CommentTail(t + "--" + rest) == Some(rest)
    decreases |t|
  {
    if t == [] {
      assert t + "--" + rest == ['-'] + (['-'] + rest);
      assert (['-'] + (['-'] + rest))[1..] == ['-'] + rest && (['-'] + rest)[1..] == rest;
    } else {
      CommentEnds(t[1..], rest);
      assert (t + "--" + rest)[1..] == t[1..] + "--" + rest && (t + "--" + rest)[0] == t[0];
    }
  }

  lemma RawPlain(c: char, rest: string)
    requires c != '\n'
    ensures Raw([c] + rest) == Some((c, rest))
  {
    assert ([c] + rest)[1..] == rest;
  }

  /** Behind "<!": two hyphens, the text, two hyphens and the end. */
  lemma CommentIsRead(t: string, after: string)
    requires All(t, IsPrint) && '-' !in t
    ensures Comment(['-'] + (['-'] + (t + "--" + (['>'] + after)))) == Some(after)
  {
    hide Raw, CommentTail;
    var tail := ['>'] + after;
    var body := t + "--" + tail;
    RawPlain('-', ['-'] + body);
    assert (['-'] + body)[1..] == body;
    CommentEnds(t, tail);
    RawPlain('>', after);
  }

  /** A comment is not there. */
  lemma CommentIsSkipped(t: string, after: string)
    requires All(t, IsPrint) && '-' !in t
    ensures Get("<!--" + t + "-->" + after) == Get(after)
  {
    hide Raw, Comment;
    var inside := ['-'] + (['-'] + (t + "--" + (['>'] + after)));
    assert "<!--" + t + "-->" + after == ['<'] + (['!'] + inside);
    RawPlain('<', ['!'] + inside);
    assert (['!'] + inside)[1..] == inside;
    CommentIsRead(t, after);
  }

  /** What is left to read of an escaped value, its closing quote and what follows. */
  function Escaped(v: string, rest: string): string { Escape(v) + ['\"'] + rest }

  /** What stands behind the first character of an escaped value. */
  function Behind(v: string, rest: string): string
    requires v != []
  {
    (if v[0] == '<' && StartsWith(v[1..], '!') then "<!---->" else []) + Escaped(v[1..], rest)
  }

  lemma FirstOfEscaped(v: string, rest: string)
    requires v != []
    ensures Escaped(v, rest) == [v[0]] + Behind(v, rest)
  {
    var gap, more := if v[0] == '<' && StartsWith(v[1..], '!') then "<!---->" else [], Escape(v[1..]);
    assert Escape(v) == [v[0]] + gap + more;
    Apart(v[0], gap, more, rest);
  }

  lemma Apart(c: char, gap: string, more: string, rest: string)
    ensures [c] + gap + more + ['\"'] + rest == [c] + (gap + (more + ['\"'] + rest))
  {
  }

  /** The first character of an escaped value does not start a comment. */
  lemma StartOfEscaped(v: string, rest: string)
    requires All(v, IsValueChar)
    ensures v == [] ==> Get(Escaped(v, rest)) == Some(('\"', rest))
    ensures v != [] ==> Get(Escaped(v, rest)) == Some((v[0], Behind(v, rest)))
  {
    hide Get, Escape;
    if v == [] {
      assert Escape([]) == [] by { NothingToEscape(); }
      assert Escaped(v, rest) == ['\"'] + rest;
      GetPlain('\"', rest);
    } else {
      FirstOfEscaped(v, rest);
      BehindIsPlain(v, rest);
      GetPlain(v[0], Behind(v, rest));
    }
  }

  lemma NothingToEscape()
    ensures Escape([]) == []
  {
  }

  lemma BehindIsPlain(v: string, rest: string)
    requires v != []
    ensures v[0] == '<' && Behind(v, rest) != [] ==> Behind(v, rest)[0] != '!'
  {
    if v[1..] != [] {
      FirstOfEscaped(v[1..], rest);
    }
  }

  /** Behind the first character the next one is read, with or without a comment in between. */
  lemma NextOfEscaped(v: string, rest: string)
    requires v != []
    ensures Get(Behind(v, rest)) == Get(Escaped(v[1..], rest))
  {
    hide Get, Escaped;
    if v[0] == '<' && StartsWith(v[1..], '!') {
      CommentIsSkipped([], Escaped(v[1..], rest));
      assert "<!--" + [] + "-->" + Escaped(v[1..], rest) == Behind(v, rest);
    } else {
      assert Behind(v, rest) == [] + Escaped(v[1..], rest) == Escaped(v[1..], rest);
    }
  }

  lemma {:induction false} SpanEscaped(v: string, rest: string)
    requires v != [] && All(v, IsValueChar)
    ensures Span(v[0], Behind(v, rest), IsValueChar) == Some(Run(v, '\"', rest))
    decreases |v|
  {
    hide Get, Behind, Escaped;
    NextOfEscaped(v, rest);
    StartOfEscaped(v[1..], rest);
    assert v == [v[0]] + v[1..];
    if v[1..] == [] {
      assert Span('\"', rest, IsValueChar) == Some(Run([], '\"', rest));
    } else {
      SpanEscaped(v[1..], rest);
    }
  }

  lemma EscapedIsRead(v: string, rest: string)
    requires All(v, IsValueChar)
    ensures Reads(Escape(v) + ['\"'] + rest, AttrValue) == Some(Run(v, '\"', rest))
  {
    hide Get, Escape, Behind;
    StartOfEscaped(v, rest);
    if v != [] {
      SpanEscaped(v, rest);
    }
  }

  // ----- the opening tag

  /** "<name", behind white space. */
  lemma OpensTag(lead: string, name: string, x: char, rest: string)
    requires Blank(lead) && IsName(name) && (IsSpace(x) || x == '/' || x == '>') && x != '\n'
    ensures Machine(lead + "<" + name + [x] + rest, Initial, BLANK)
      == Machine([x] + rest, OpenTagAttr, BLANK.(name := name))
  {
    hide Machine, Reads;
    var s := name + [x] + rest;
    assert s[0] == (name + [x])[0];
    NamesAreQuiet(name, x);
    BlankStarts(lead, '<');
    assert lead + "<" + name + [x] + rest == lead + ['<'] + s;
    ReadsText(lead, '<', s, Initial);
    Steps(lead + ['<'] + s, Initial, BLANK, Run(lead, '<', s), s, OpenTagKey, BLANK);
    ReadsText(name, x, rest, OpenTagKey);
    assert BLANK.name + name == name;
    Steps(s, OpenTagKey, BLANK, Run(name, x, rest), [x] + rest, OpenTagAttr, BLANK.(name := name));
  }

  lemma BlankStarts(t: string, x: char)
    requires Blank(t) && x != '\n' && x != '\0'
    ensures Quiet(t + [x]) && (t + [x])[0] != '\0'
  {
  }

  /** `key="` behind white space, which may be missing. */
  lemma ReadsKey(space: string, key: string, s3: string, w: Work)
    requires Blank(space) && key != [] && IsAlnum(key[0]) && IsName(key) && !HasKey(w.attributes, key)
    ensures Machine(space + key + "=\"" + s3, OpenTagAttr, w) == Machine(s3, AttrValue, w.(attrKey := key))
  {
    hide Machine, Reads, HasKey;
    var s2 := key + ['='] + (['\"'] + s3);
    var s := space + key + "=\"" + s3;
    var tail := key[1..] + ['='] + (['\"'] + s3);
    assert s2 == [key[0]] + tail;
    assert s == space + [key[0]] + tail;
    BlankStarts(space, key[0]);
    ReadsText(space, key[0], tail, OpenTagAttr);
    Steps(s, OpenTagAttr, w, Run(space, key[0], tail), s2, AttrKey, w);
    NamesAreQuiet(key, '=');
    ReadsText(key, '=', ['\"'] + s3, AttrKey);
    assert (['\"'] + s3)[1..] == s3;
    Steps(s2, AttrKey, w, Run(key, '=', ['\"'] + s3), s3, AttrValue, w.(attrKey := key));
  }

  /** `key="value"` behind white space. */
  lemma ReadsAttribute(space: string, key: string, value: string, rest: string, w: Work)
    requires Blank(space) && key != [] && IsAlnum(key[0]) && IsName(key)
    requires All(value, IsValueChar) && !HasKey(w.attributes, key)
    ensures var s := space + key + "=\"" + Escape(value) + "\"" + rest;
      Machine(s, OpenTagAttr, w)
        == Machine(rest, OpenTagAttr, w.(attrKey := key, attributes := w.attributes + [(key, value)]))
  {
    hide Machine, Reads, HasKey, Escape;
    var s3 := Escape(value) + ['\"'] + rest;
    assert space + key + "=\"" + Escape(value) + "\"" + rest == space + key + "=\"" + s3;
    ReadsKey(space, key, s3, w);
    EscapedIsRead(value, rest);
    Steps(s3, AttrValue, w.(attrKey := key), Run(value, '\"', rest), rest, OpenTagAttr,
          w.(attrKey := key, attributes := w.attributes + [(key, value)]));
  }

  lemma ValuesAreQuiet(value: string)
    requires All(value, IsValueChar) && Quiet(value)
    ensures Quiet(value + ['\"']) && (value + ['\"'])[0] != '\0' && All(value, IsValueChar)
  {
  }

  /** ">" behind white space: the body follows. */
  lemma EndsTag(space: string, rest: string, w: Work)
    requires Blank(space)
    ensures Machine(space + ['>'] + rest, OpenTagAttr, w) == Machine(rest, Body, w)
  {
    hide Machine, Reads;
    BlankStarts(space, '>');
    ReadsText(space, '>', rest, OpenTagAttr);
    Steps(space + ['>'] + rest, OpenTagAttr, w, Run(space, '>', rest), rest, Body, w);
  }

  /** "/>" behind white space: there is no body. */
  lemma EndsEmptyTag(space: string, rest: string, w: Work)
    requires Blank(space)
    ensures Machine(space + "/>" + rest, OpenTagAttr, w) == Some((Node(w.name, w.attributes, [], []), rest))
  {
    hide Machine, Reads;
    BlankStarts(space, '/');
    assert space + "/>" + rest == space + ['/'] + (['>'] + rest) && (['>'] + rest)[1..] == rest;
    ReadsText(space, '/', ['>'] + rest, OpenTagAttr);
    Returns(space + ['/'] + (['>'] + rest), OpenTagAttr, w, Run(space, '/', ['>'] + rest),
            Node(w.name, w.attributes, [], []), rest);
  }

  lemma NewKey(done: seq<(string, string)>, a: seq<(string, string)>)
    requires CleanAttributes(done + a) && a != []
    ensures !HasKey(done, a[0].0)
  {
    hide IsName, All;
    forall i | 0 <= i < |done| ensures done[i].0 != a[0].0 {
      assert (done + a)[i] == done[i] && (done + a)[|done|] == a[0];
    }
  }

  // ----- the body

  lemma TextsAreQuiet(t: string)
    requires All(t, IsTextChar)
    ensures Quiet(t + ['<']) && (t + ['<'])[0] != '\0'
  {
  }

  /** Text, then a closing tag, which must have the name of the opening one. */
  lemma ClosesTag(text: string, name: string, rest: string, w: Work)
    requires All(text, IsTextChar) && IsName(name)
    ensures Machine(text + "</" + name + ">" + rest, Body, w)
         == if name != w.name then None
            else Some((Node(w.name, w.attributes, w.value + WithoutTabs(text), w.children), rest))
  {
    hide Machine, Reads, WithoutTabs;
    var s2, w' := name + ['>'] + rest, w.(value := w.value + WithoutTabs(text));
    TextsAreQuiet(text);
    assert text + "</" + name + ">" + rest == text + ['<'] + (['/'] + s2);
    ReadsText(text, '<', ['/'] + s2, Body);
    assert (['/'] + s2)[1..] == s2;
    Steps(text + ['<'] + (['/'] + s2), Body, w, Run(text, '<', ['/'] + s2), s2, CloseTag, w');
    NamesAreQuiet(name, '>');
    ReadsText(name, '>', rest, CloseTag);
    if name == w.name {
      Returns(s2, CloseTag, w', Run(name, '>', rest), Node(w.name, w.attributes, w'.value, w.children), rest);
    } else {
      Fails(s2, CloseTag, w', Run(name, '>', rest));
    }
  }

  /** Text, then a child that is read. */
  lemma ReadsChild(text: string, rest: string, after: string, child: Node, w: Work)
    requires All(text, IsTextChar) && rest != [] && rest[0] != '!' && rest[0] != '/'
    requires Machine(['<'] + rest, Initial, BLANK) == Some((child, after))
    ensures var w' := w.(value := w.value + WithoutTabs(text), children := w.children + [child]);
      Machine(text + ['<'] + rest, Body, w) == Machine(after, Body, w')
  {
    hide Machine, Reads, WithoutTabs;
    TextsAreQuiet(text);
    ReadsText(text, '<', rest, Body);
    Descends(text + ['<'] + rest, w, Run(text, '<', rest), ['<'] + rest, w.(value := w.value + WithoutTabs(text)),
             child, after);
  }
}
