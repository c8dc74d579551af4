/** `<tool_result>` frames: what `src/agent/dispatcher.rs` writes and what a reader of
    frames gets back. */
module ToolFrames {
  import opened Text
  import opened Messages

  const WORD: string := "tool_result"

  /** `(?i)` on the letters of the tag: either case, and the long s folds to `s`. */
  predicate FoldsTo(c: char, l: char) {
    c == l || ('a' <= l <= 'z' && c == l - 'a' + 'A') || (l == 's' && c == '\U{017F}')
  }

  predicate WordAt(s: string) {
    |s| >= |WORD| && forall i :: 0 <= i < |WORD| ==> FoldsTo(s[i], WORD[i])
  }

  // The length of the leading run of `\s*`.
  function Spaces(s: string): (n: nat)
    ensures n <= |s|
  {
    if s != "" && IsWhitespace(s[0]) then 1 + Spaces(s[1..]) else 0
  }

  function SkipSpaces(s: string): string {
    s[Spaces(s)..]
  }

  // `\s*tool_result`: what is left after it.
  function AfterWord(s: string): Option<string> {
    var t := SkipSpaces(s);
    if WordAt(t) then Some(t[|WORD|..]) else None
  }

  // `<\s*/?\s*tool_result`: what is left after it.
  function AfterTag(s: string): Option<string> {
    if s == "" || s[0] != '<' then None
    else
      var t := SkipSpaces(s[1..]);
      if t != "" && t[0] == '/' then AfterWord(t[1..]) else AfterWord(t)
  }

  // ---------------------------------------------------------------------------
  // The writer

  /** `neutralise_tool_output`: every match of the tag loses its `<`. */
  function Neutralise(s: string): string
    decreases |s|
  {
    match AfterTag(s)
    case Some(rest) =>
      AfterTagShortens(s);
      "&lt;" + s[1..|s| - |rest|] + Neutralise(rest)
    case None => if s == "" then "" else [s[0]] + Neutralise(s[1..])
  }

  lemma AfterTagShortens(s: string)
    ensures AfterTag(s).Some? ==> |AfterTag(s).value| < |s| && s[|s| - |AfterTag(s).value|..] == AfterTag(s).value
  {}

  function EscapeChar(c: char): string {
    if c == '&' then "&amp;"
    else if c == '<' then "&lt;"
    else if c == '>' then "&gt;"
    else if c == '"' then "&quot;"
    else [c]
  }

  function Escape(s: string): string {
    if s == "" then "" else EscapeChar(s[0]) + Escape(s[1..])
  }

  /** `escape_frame_attr`, one character at a time. */
  method EscapeFrameAttr(value: string) returns (out: string)
    ensures out == Escape(value)
  {
    out := "";
    var i := 0;
    ghost var rest := value;
    while i < |value|
      invariant i <= |value| && rest == value[i..]
      invariant out + Escape(rest) == Escape(value)
    {
      ghost var before, tail := out, Escape(rest[1..]);
      match value[i] {
        case '&' => out := out + "&amp;";
        case '<' => out := out + "&lt;";
        case '>' => out := out + "&gt;";
        case '"' => out := out + "&quot;";
        case other => out := out + [other];
      }
      Assoc(before, EscapeChar(rest[0]), tail);
      i, rest := i + 1, rest[1..];
    }
    assert out + "" == out;
  }

  /** What a tool run gave back. */
  datatype Execution = Execution(name: string, output: string, success: bool, callId: Option<string>)

  /** One frame: its attribute text and its body. */
  datatype Frame = Frame(attrs: string, body: string)

  function Status(success: bool): string {
    if success then "ok" else "error"
  }

  function ResultAttrs(name: string, success: bool): string {
    "name=\"" + Escape(name) + "\" status=\"" + Status(success) + "\""
  }

  function IdAttrs(id: string): string {
    "id=\"" + Escape(id) + "\""
  }

  function RenderFrame(attrs: string, text: string): string {
    "<tool_result " + attrs + ">\n" + text + "\n</tool_result>\n"
  }

  /** What is written for each execution: its attributes, and its output made harmless. */
  function ResultBlocks(results: seq<Execution>): (r: seq<Frame>)
    ensures |r| == |results|
  {
    if results == [] then [] else [BlockOf(results[0])] + ResultBlocks(results[1..])
  }

  function BlockOf(r: Execution): Frame {
    Frame(ResultAttrs(r.name, r.success), Neutralise(r.output))
  }

  /** The same for stored results, which carry a call id instead of a name. */
  function IdBlocks(results: seq<ToolResult>): (r: seq<Frame>)
    ensures |r| == |results|
  {
    if results == [] then []
    else [Frame(IdAttrs(results[0].toolCallId), Neutralise(results[0].content))] + IdBlocks(results[1..])
  }

  function RenderAll(blocks: seq<Frame>): string {
    if blocks == [] then "" else RenderFrame(blocks[0].attrs, blocks[0].body) + RenderAll(blocks[1..])
  }

  const HEADING: string := "[Tool results]\n"

  /** The user message this dispatcher makes of results: it opens with their heading. */
  predicate IsXmlResults(m: Messages.Message) {
    IsUser(m) && HEADING <= m.chat.content
  }

  /** The user message `format_results` builds (`src/agent/dispatcher.rs:121-134`). */
  method FormatResults(results: seq<Execution>) returns (m: Messages.Message)
    ensures m == UserMessage("[Tool results]\n" + RenderAll(ResultBlocks(results)))
  {
    var content := "";
    var i := 0;
    ghost var rest := results;
    while i < |results|
      invariant i <= |results| && rest == results[i..]
      invariant content + RenderAll(ResultBlocks(rest)) == RenderAll(ResultBlocks(results))
    {
      var status := if results[i].success then "ok" else "error";
      var name := EscapeFrameAttr(results[i].name);
      var attrs := "name=\"" + name + "\" status=\"" + status + "\"";
      var frame := RenderFrame(attrs, Neutralise(results[i].output));
      assert ResultBlocks(rest)[1..] == ResultBlocks(rest[1..]);
      Assoc(content, frame, RenderAll(ResultBlocks(rest[1..])));
      content := content + frame;
      i, rest := i + 1, rest[1..];
    }
    assert content + "" == content;
    m := UserMessage(HEADING + content);
  }

  // ---------------------------------------------------------------------------
  // The reader: `(?is)<\s*tool_result\s([^>]*)>(.*?)<\s*/\s*tool_result\s*>`

  datatype Opened = Opened(attrs: string, rest: string)

  function OpenTag(s: string): (r: Option<Opened>)
    ensures r.Some? ==> |r.value.rest| < |s|
  {
    if s == "" || s[0] != '<' then None
    else
      match AfterWord(s[1..])
      case None => None
      case Some(t) =>
        if t == "" || !IsWhitespace(t[0]) then None
        else
          match IndexOf(t[1..], '>')
          case None => None
          case Some(g) => Some(Opened(t[1..][..g], t[1..][g + 1..]))
  }

  function CloseTag(s: string): (r: Option<string>)
    ensures r.Some? ==> |r.value| < |s|
  {
    if s == "" || s[0] != '<' then None
    else
      var t := SkipSpaces(s[1..]);
      if t == "" || t[0] != '/' then None
      else
        match AfterWord(t[1..])
        case None => None
        case Some(u) =>
          var v := SkipSpaces(u);
          if v != "" && v[0] == '>' then Some(v[1..]) else None
  }

  datatype Closed = Closed(body: string, rest: string)

  /** The first closer: the lazy body ends there. */
  function FirstClose(s: string): (r: Option<Closed>)
    ensures r.Some? ==> |r.value.rest| < |s|
  {
    match CloseTag(s)
    case Some(rest) => Some(Closed("", rest))
    case None =>
      if s == "" then None
      else
        match FirstClose(s[1..])
        case None => None
        case Some(c) => Some(Closed([s[0]] + c.body, c.rest))
  }

  datatype Found = Found(frame: Frame, rest: string)

  function NextFrame(s: string): (r: Option<Found>)
    ensures r.Some? ==> |r.value.rest| < |s|
  {
    var here := FrameHere(s);
    if here.Some? then here
    else if s == "" then None
    else NextFrame(s[1..])
  }

  function FrameHere(s: string): (r: Option<Found>)
    ensures r.Some? ==> |r.value.rest| < |s|
  {
    match OpenTag(s)
    case None => None
    case Some(o) =>
      match FirstClose(o.rest)
      case None => None
      case Some(c) => Some(Found(Frame(o.attrs, c.body), c.rest))
  }

  /** Every frame in a text, in order. */
  function Frames(s: string): seq<Frame>
    decreases |s|
  {
    match NextFrame(s)
    case None => []
    case Some(f) => [f.frame] + Frames(f.rest)
  }

  // ---------------------------------------------------------------------------
  // Matches of the tag

  lemma {:induction false} SpacesAppend(a: string, b: string)
    requires Spaces(a) < |a|
    ensures Spaces(a + b) == Spaces(a)
  {
    if IsWhitespace(a[0]) {
      assert (a + b)[1..] == a[1..] + b;
      SpacesAppend(a[1..], b);
    }
  }

  lemma {:induction false} SpacesAre(s: string)
    ensures Blank(s[..Spaces(s)]) && (Spaces(s) < |s| ==> !IsWhitespace(s[Spaces(s)]))
  {
    if s != "" && IsWhitespace(s[0]) {
      SpacesAre(s[1..]);
      assert s[..Spaces(s)] == [s[0]] + s[1..][..Spaces(s[1..])];
    }
  }

  lemma {:induction false} SpacesIs(w: string, x: string)
    requires Blank(w) && (x == "" || !IsWhitespace(x[0]))
    ensures Spaces(w + x) == |w| && SkipSpaces(w + x) == x
  {
    if w == "" {
      assert w + x == x;
    } else {
      assert (w + x)[1..] == w[1..] + x;
      SpacesIs(w[1..], x);
    }
  }

  /** A character that no match of the tag holds after its `<`. */
  predicate Foreign(c: char) {
    !IsWhitespace(c) && c != '/' && forall i :: 0 <= i < |WORD| ==> !FoldsTo(c, WORD[i])
  }

  /** A whole match of the word with its leading spaces. */
  lemma AfterWordSplits(s: string) returns (m: string, rest: string)
    requires AfterWord(s).Some?
    ensures s == m + rest && AfterWord(s) == Some(rest)
    ensures |m| >= |WORD| && !IsWhitespace(m[|m| - 1])
    ensures forall i :: 0 <= i < |m| ==> !Foreign(m[i])
    ensures forall x :: AfterWord(m + x) == Some(x)
  {
    var w, word;
    w, word, rest := AfterWordParts(s);
    m := w + word;
    Assoc(w, word, rest);
    WordChars(w, word, m);
    forall x
      ensures AfterWord(m + x) == Some(x)
    {
      AfterWordOf(w, word, x);
    }
  }

  lemma AfterWordParts(s: string) returns (w: string, word: string, rest: string)
    requires AfterWord(s).Some?
    ensures s == w + (word + rest) && AfterWord(s) == Some(rest)
    ensures Blank(w) && |word| == |WORD| && WordAt(word)
  {
    var n := Spaces(s);
    var t := s[n..];
    SpacesAre(s);
    SplitAt(s, n);
    SplitAt(t, |WORD|);
    w, word, rest := s[..n], t[..|WORD|], t[|WORD|..];
    assert forall i :: 0 <= i < |WORD| ==> word[i] == t[i];
  }

  lemma WordChars(w: string, word: string, m: string)
    requires Blank(w) && |word| == |WORD| && WordAt(word) && m == w + word
    ensures |m| >= |WORD| && !IsWhitespace(m[|m| - 1])
    ensures forall i :: 0 <= i < |m| ==> !Foreign(m[i])
  {
    var last := |WORD| - 1;
    assert FoldsTo(word[last], WORD[last]) && m[|m| - 1] == word[last];
    forall i | 0 <= i < |m|
      ensures !Foreign(m[i])
    {
      if i < |w| {
        assert m[i] == w[i];
      } else {
        assert m[i] == word[i - |w|] && FoldsTo(word[i - |w|], WORD[i - |w|]);
      }
    }
  }

  lemma AfterWordOf(w: string, word: string, x: string)
    requires Blank(w) && |word| == |WORD| && WordAt(word)
    ensures AfterWord(w + word + x) == Some(x)
  {
    var y := word + x;
    assert forall i :: 0 <= i < |WORD| ==> y[i] == word[i];
    assert FoldsTo(word[0], WORD[0]);
    SpacesIs(w, y);
    assert w + word + x == w + y;
    assert y[|WORD|..] == x;
  }

  /** The parts of a match: spaces, the optional slash, and the word. */
  lemma TagParts(s: string) returns (w: string, slash: string, w': string, rest: string)
    requires AfterTag(s).Some?
    ensures s == "<" + (w + (slash + (w' + rest))) && AfterTag(s) == Some(rest)
    ensures Blank(w) && (slash == "" || slash == "/") && |w'| >= |WORD| && !IsWhitespace(w'[|w'| - 1])
    ensures slash == "" ==> !IsWhitespace(w'[0]) && w'[0] != '/'
    ensures forall i :: 0 <= i < |w'| ==> !Foreign(w'[i])
    ensures forall x :: AfterWord(w' + x) == Some(x)
  {
    var t, u;
    w, t, slash, u := TagStart(s);
    w', rest := AfterWordSplits(u);
    PartsGlue(s, w, t, slash, u, w', rest);
  }

  lemma TagStart(s: string) returns (w: string, t: string, slash: string, u: string)
    requires AfterTag(s).Some?
    ensures s != "" && s[0] == '<' && s[1..] == w + t && t == slash + u
    ensures Blank(w) && (slash == "" || slash == "/") && AfterTag(s) == AfterWord(u)
    ensures slash == "" ==> u != "" && !IsWhitespace(u[0]) && u[0] != '/'
  {
    var x := s[1..];
    var n := Spaces(x);
    w, t := x[..n], x[n..];
    SpacesAre(x);
    SplitAt(x, n);
    assert t != "" ==> t[0] == x[n];
    if t != "" && t[0] == '/' {
      slash, u := "/", t[1..];
      HeadTail(t);
    } else {
      slash, u := "", t;
      assert "" + t == t;
    }
  }

  lemma PartsGlue(s: string, w: string, t: string, slash: string, u: string, w': string, rest: string)
    requires s != "" && s[0] == '<' && s[1..] == w + t && t == slash + u && u == w' + rest
    ensures s == "<" + (w + (slash + (w' + rest)))
  {
    HeadTail(s);
  }

  /** A whole match of the tag: `<`, then no character foreign to it. */
  lemma TagSplits(s: string) returns (m: string, rest: string)
    requires AfterTag(s).Some?
    ensures s == m + rest && AfterTag(s) == Some(rest)
    ensures |m| > |WORD| && m[0] == '<' && !IsWhitespace(m[|m| - 1])
    ensures forall i :: 1 <= i < |m| ==> !Foreign(m[i])
    ensures forall x :: AfterTag(m + x) == Some(x)
  {
    var w, slash, w', r := TagParts(s);
    m, rest := "<" + (w + (slash + w')), r;
    TagGlue(w, slash, w', rest, m);
    TagChars(w, slash, w', m);
    forall x
      ensures AfterTag(m + x) == Some(x)
    {
      AfterTagOf(w, slash, w', m, x);
    }
  }

  lemma TagGlue(w: string, slash: string, w': string, x: string, m: string)
    requires m == "<" + (w + (slash + w'))
    ensures m + x == "<" + (w + (slash + (w' + x)))
  {
    Assoc("<", w + (slash + w'), x);
    Assoc(w, slash + w', x);
    Assoc(slash, w', x);
  }

  lemma TagChars(w: string, slash: string, w': string, m: string)
    requires Blank(w) && (slash == "" || slash == "/") && w' != ""
    requires m == "<" + (w + (slash + w')) && forall i :: 0 <= i < |w'| ==> !Foreign(w'[i])
    ensures forall i :: 1 <= i < |m| ==> !Foreign(m[i])
    ensures m[0] == '<' && m[|m| - 1] == w'[|w'| - 1]
  {
    forall i | 1 <= i < |m|
      ensures !Foreign(m[i])
    {
      if i <= |w| {
        assert m[i] == w[i - 1];
      } else if i > |w| + |slash| {
        assert m[i] == w'[i - 1 - |w| - |slash|];
      }
    }
  }

  lemma AfterTagOf(w: string, slash: string, w': string, m: string, x: string)
    requires Blank(w) && (slash == "" || slash == "/") && w' != ""
    requires m == "<" + (w + (slash + w')) && AfterWord(w' + x) == Some(x)
    requires slash == "" ==> !IsWhitespace(w'[0]) && w'[0] != '/'
    ensures AfterTag(m + x) == Some(x)
  {
    hide AfterWord, AfterTag, SkipSpaces, Spaces;
    TagGlue(w, slash, w', x, m);
    var v := w' + x;
    var y := slash + v;
    var s := "<" + (w + y);
    assert s[1..] == w + y;
    assert v[0] == w'[0];
    if slash == "" {
      assert y == v;
    } else {
      assert y[1..] == v;
    }
    SpacesIs(w, y);
    TagRest(s, y);
  }

  lemma TagRest(s: string, y: string)
    requires s != "" && s[0] == '<' && SkipSpaces(s[1..]) == y
    ensures AfterTag(s) == if y != "" && y[0] == '/' then AfterWord(y[1..]) else AfterWord(y)
  {
    hide AfterWord;
  }

  /** The word of the tag in any case, as `(?i)` takes it. */
  predicate AnyCase(word: string) {
    var letters := "tool_result";
    |word| == 11 && forall i :: 0 <= i < 11 ==>
      || word[i] == letters[i]
      || ('a' <= letters[i] <= 'z' && word[i] == letters[i] - 'a' + 'A')
      || (letters[i] == 's' && word[i] == '\U{017F}')
  }

  /** What a tag is: `<`, whitespace, perhaps a slash, whitespace, and the word. */
  ghost predicate TagThen(s: string, x: string) {
    exists w, slash, v, word :: TagOf(s, w, slash, v, word, x)
  }

  predicate TagOf(s: string, w: string, slash: string, v: string, word: string, x: string) {
    && s == "<" + (w + (slash + (v + (word + x))))
    && Blank(w) && (slash == "" || slash == "/") && Blank(v) && AnyCase(word)
  }

  /** The match finds exactly the tags, and what is left after one is what follows it. */
  lemma TagIs(s: string, x: string)
    ensures AfterTag(s) == Some(x) <==> TagThen(s, x)
  {
    if AfterTag(s) == Some(x) {
      var w, t, slash, u := TagStart(s);
      var v, word, rest := AfterWordParts(u);
      HeadTail(s);
      assert TagOf(s, w, slash, v, word, x);
    }
    if w, slash, v, word :| TagOf(s, w, slash, v, word, x) {
      TagIsFound(s, w, slash, v, word, x);
    }
  }

  lemma TagIsFound(s: string, w: string, slash: string, v: string, word: string, x: string)
    requires TagOf(s, w, slash, v, word, x)
    ensures AfterTag(s) == Some(x)
  {
    assert word[0] == 't' || word[0] == 'T';
    if slash == "" {
      var w2, rest := w + v, word + x;
      assert "" + (v + rest) == v + rest;
      Assoc(w, v, rest);
      assert "" + word == word;
      AfterWordOf("", word, x);
      assert "" + word + x == rest;
      var m := "<" + (w2 + ("" + word));
      TagGlue(w2, "", word, x, m);
      assert "" + rest == rest;
      AfterTagOf(w2, "", word, m, x);
    } else {
      var w', m := v + word, "<" + (w + (slash + (v + word)));
      AfterWordOf(v, word, x);
      Assoc(v, word, x);
      TagGlue(w, slash, w', x, m);
      AfterTagOf(w, slash, w', m, x);
    }
  }

  /** No tag starts anywhere in the text. */
  predicate Neutral(s: string)
    decreases |s|
  {
    s == "" || (AfterTag(s).None? && Neutral(s[1..]))
  }

  /** A match cannot run past a foreign character, nor end on the whitespace before one. */
  lemma TagShrinks(a: string, b: string)
    requires a != "" && AfterTag(a + b).Some?
    requires b == "" || Foreign(b[0]) || (|b| > 1 && IsWhitespace(b[0]) && Foreign(b[1]))
    ensures AfterTag(a).Some?
  {
    var m, rest := TagSplits(a + b);
    var x := MatchStays(a, b, m, rest);
    assert AfterTag(m + x) == Some(x);
  }

  lemma TagGrows(a: string, b: string)
    requires AfterTag(a).Some?
    ensures AfterTag(a + b).Some?
  {
    var m, r := TagSplits(a);
    Assoc(m, r, b);
    assert AfterTag(m + (r + b)).Some?;
  }

  lemma MatchStays(a: string, b: string, m: string, rest: string) returns (x: string)
    requires a != "" && a + b == m + rest && m != "" && !IsWhitespace(m[|m| - 1])
    requires forall i :: 1 <= i < |m| ==> !Foreign(m[i])
    requires b == "" || Foreign(b[0]) || (|b| > 1 && IsWhitespace(b[0]) && Foreign(b[1]))
    ensures a == m + x
  {
    var s := a + b;
    assert forall i {:trigger s[i]} :: 0 <= i < |m| ==> s[i] == m[i];
    assert b != "" ==> s[|a|] == b[0];
    assert |b| > 1 ==> s[|a| + 1] == b[1];
    x := a[|m|..];
    assert a[..|m|] == s[..|m|] == m;
  }

  /** The output part up to its first `<` is copied, and what follows never
      continues a match: neutralising later text cannot complete an earlier tag. */
  lemma {:induction false} NeutraliseHead(t: string) returns (p: string, x: string, y: string)
    ensures t == p + x && Neutralise(t) == p + y
    ensures x == "" || x[0] == '<'
    ensures y == "" || y[0] == '<' || y[0] == '&'
  {
    if t == "" {
      p, x, y := "", "", "";
    } else if AfterTag(t).Some? || t[0] == '<' {
      p, x, y := "", t, Neutralise(t);
      assert "" + t == t && "" + y == y;
      NeutraliseStarts(t);
    } else {
      var p', x', y' := NeutraliseHead(t[1..]);
      p, x, y := [t[0]] + p', x', y';
      HeadTail(t);
      Assoc([t[0]], p', x');
      Assoc([t[0]], p', y');
    }
  }

  lemma NeutraliseStarts(t: string)
    requires t != "" && t[0] == '<'
    ensures Neutralise(t) != "" && (Neutralise(t)[0] == '<' || Neutralise(t)[0] == '&')
  {}

  lemma Foreigners()
    ensures Foreign('<') && Foreign('&') && Foreign('>') && Foreign('"')
  {}

  lemma NeutraliseMatch(s: string) returns (p: string, rest: string)
    requires AfterTag(s).Some?
    ensures Neutralise(s) == p + Neutralise(rest) && |rest| < |s|
    ensures forall i :: 0 <= i < |p| ==> p[i] != '<'
  {
    hide AfterTag, Neutralise;
    var m := TagText(s);
    rest := AfterTag(s).value;
    p := "&lt;" + m;
    NeutraliseStep(s, m, rest);
    NoOpener("&lt;", m, p);
  }

  lemma NoOpener(a: string, b: string, p: string)
    requires '<' !in a && '<' !in b && p == a + b
    ensures forall i :: 0 <= i < |p| ==> p[i] != '<'
  {}

  // A match of the tag, without its `<`.
  lemma TagText(s: string) returns (m: string)
    requires AfterTag(s).Some?
    ensures |AfterTag(s).value| + |m| + 1 == |s| && s[1..1 + |m|] == m
    ensures '<' !in m && '&' !in m
  {
    var w, r := TagSplits(s);
    m := w[1..];
    Foreigners();
    TextOf(s, w, r, m);
    forall i | 0 <= i < |m|
      ensures m[i] != '<' && m[i] != '&'
    {
      assert m[i] == w[i + 1] && !Foreign(w[i + 1]);
    }
  }

  lemma TextOf(s: string, w: string, r: string, m: string)
    requires s == w + r && w != "" && m == w[1..]
    ensures s[1..1 + |m|] == m
  {}

  lemma NeutraliseStep(s: string, m: string, rest: string)
    requires AfterTag(s) == Some(rest) && |rest| + |m| + 1 == |s| && s[1..1 + |m|] == m
    ensures Neutralise(s) == "&lt;" + m + Neutralise(rest)
  {
    assert |s| - |rest| == 1 + |m|;
  }

  /** A `<` that opens no tag still opens none once the text after it is neutralised. */
  lemma NeutraliseKeepsPlain(s: string)
    requires s != "" && AfterTag(s).None?
    ensures AfterTag([s[0]] + Neutralise(s[1..])).None?
  {
    if s[0] == '<' {
      var p, x, y := NeutraliseHead(s[1..]);
      Foreigners();
      HeadTail(s);
      Assoc("<", p, x);
      Assoc("<", p, y);
      if AfterTag("<" + p).Some? {
        TagGrows("<" + p, x);
      } else if AfterTag("<" + p + y).Some? {
        TagShrinks("<" + p, y);
      }
    }
  }

  /** The neutralised text holds no tag, whatever the output was. */
  lemma {:induction false} NeutraliseNeutral(s: string)
    ensures Neutral(Neutralise(s))
    decreases |s|
  {
    if AfterTag(s).Some? {
      var p, rest := NeutraliseMatch(s);
      NeutraliseNeutral(rest);
      NeutralAppend(p, Neutralise(rest));
    } else if s != "" {
      var n := Neutralise(s[1..]);
      NeutraliseNeutral(s[1..]);
      assert ([s[0]] + n)[1..] == n;
      NeutraliseKeepsPlain(s);
    }
  }

  /** A text with every `&lt;` written out as `<`. */
  function Restored(s: string): string
    decreases |s|
  {
    if s == "" then ""
    else if "&lt;" <= s then "<" + Restored(s[4..])
    else [s[0]] + Restored(s[1..])
  }

  lemma {:induction false} RestoredPlain(m: string, x: string)
    requires '&' !in m
    ensures Restored(m + x) == m + Restored(x)
  {
    if m == "" {
      assert m + x == x && "" + Restored(x) == Restored(x);
    } else {
      assert (m + x)[0] == m[0] && (m + x)[1..] == m[1..] + x;
      RestoredPlain(m[1..], x);
      HeadTail(m);
      Assoc([m[0]], m[1..], Restored(x));
    }
  }

  lemma RestoredHead(s: string, x: string)
    requires s == "&lt;" + x
    ensures Restored(s) == "<" + Restored(x)
  {
    assert s[4..] == x;
  }

  /** Text that holds neither `<` nor `&` is where it was. */
  lemma {:induction false} PlainStays(p: string, s: string)
    requires '<' !in p && '&' !in p
    ensures p <= Neutralise(s) <==> p <= s
    ensures p <= s ==> Neutralise(s)[|p|..] == Neutralise(s[|p|..])
  {
    if p != "" && s != "" {
      if AfterTag(s).Some? {
        assert Neutralise(s)[0] == '&' && s[0] == '<';
      } else {
        var n := Neutralise(s[1..]);
        PlainStays(p[1..], s[1..]);
        PrefixTail(p, s);
        PrefixTail(p, [s[0]] + n);
        assert ([s[0]] + n)[1..] == n;
        if p <= s {
          assert s[|p|..] == s[1..][|p| - 1..];
          assert ([s[0]] + n)[|p|..] == n[|p| - 1..];
        }
      }
    }
  }

  lemma PrefixTail(p: string, s: string)
    requires p != "" && s != ""
    ensures p <= s <==> p[0] == s[0] && p[1..] <= s[1..]
  {
    HeadTail(p);
    if |p| <= |s| { assert s[..|p|] == [s[0]] + s[1..][..|p| - 1]; }
  }

  /** Nothing is lost: with every `&lt;` written out, the neutralised text and the output
      are the same. */
  lemma {:induction false} NeutraliseRestores(s: string)
    ensures Restored(Neutralise(s)) == Restored(s)
    decreases |s|
  {
    if AfterTag(s).Some? {
      var m := TagText(s);
      var rest := AfterTag(s).value;
      NeutraliseStep(s, m, rest);
      NeutraliseRestores(rest);
      TagRestores(s, m, rest, Neutralise(rest));
    } else if s != "" {
      var n := Neutralise(s[1..]);
      NeutraliseRestores(s[1..]);
      assert ([s[0]] + n)[1..] == n;
      HeadTail(s);
      PrefixTail("&lt;", s);
      PrefixTail("&lt;", [s[0]] + n);
      PlainStays("lt;", s[1..]);
      assert "&lt;"[1..] == "lt;";
      if "&lt;" <= s {
        assert s[4..] == s[1..][3..] && ([s[0]] + n)[4..] == n[3..];
        NeutraliseRestores(s[4..]);
      }
    }
  }

  lemma TagRestores(s: string, m: string, rest: string, n: string)
    requires |rest| + |m| + 1 == |s| && s[1..1 + |m|] == m && '&' !in m && AfterTag(s) == Some(rest)
    requires Restored(n) == Restored(rest)
    ensures Restored("&lt;" + m + n) == Restored(s)
  {
    AfterTagShortens(s);
    HeadTail(s);
    TagAround(s, m, rest);
    Assoc("&lt;", m, n);
    RestoredHead("&lt;" + (m + n), m + n);
    RestoredPlain(m, n);
    RestoredPlain(m, rest);
    RestoredPlain("<", m + rest);
  }

  lemma TagAround(s: string, m: string, rest: string)
    requires |rest| + |m| + 1 == |s| && s[1..1 + |m|] == m && s[|s| - |rest|..] == rest
    ensures s[1..] == m + rest
  {}

  function LessThans(s: string): nat {
    if s == "" then 0 else (if s[0] == '<' then 1 else 0) + LessThans(s[1..])
  }

  /** The `<` that open no tag, tried at every place. */
  function PlainLessThans(s: string): nat {
    if s == "" then 0 else (if s[0] == '<' && AfterTag(s).None? then 1 else 0) + PlainLessThans(s[1..])
  }

  lemma {:induction false} NoLessThans(m: string, x: string)
    requires '<' !in m
    ensures LessThans(m + x) == LessThans(x) && PlainLessThans(m + x) == PlainLessThans(x)
  {
    if m == "" {
      assert m + x == x;
    } else {
      assert (m + x)[0] == m[0] && (m + x)[1..] == m[1..] + x;
      NoLessThans(m[1..], x);
    }
  }

  lemma TakenTag(s: string, m: string, rest: string, n: string)
    requires s != "" && AfterTag(s).Some? && s[1..] == m + rest && '<' !in m && LessThans(n) == PlainLessThans(rest)
    ensures LessThans("&lt;" + m + n) == PlainLessThans(s)
  {
    hide AfterTag;
    NoLessThans("&lt;" + m, n);
    NoLessThans(m, rest);
  }

  /** Exactly the `<` that open a tag are taken out. */
  lemma {:induction false} NeutraliseTakesTags(s: string)
    ensures LessThans(Neutralise(s)) == PlainLessThans(s)
    decreases |s|
  {
    hide AfterTag;
    if AfterTag(s).Some? {
      var m := TagText(s);
      var rest := AfterTag(s).value;
      NeutraliseStep(s, m, rest);
      NeutraliseTakesTags(rest);
      AfterTagShortens(s);
      TagAround(s, m, rest);
      TakenTag(s, m, rest, Neutralise(rest));
    } else if s != "" {
      NeutraliseTakesTags(s[1..]);
      assert ([s[0]] + Neutralise(s[1..]))[1..] == Neutralise(s[1..]);
    }
  }

  /** Neutralising is the identity exactly on text without a tag, hence idempotent. */
  lemma {:induction false} NeutraliseFixpoint(s: string)
    ensures Neutralise(s) == s <==> Neutral(s)
    ensures Neutralise(Neutralise(s)) == Neutralise(s)
  {
    NeutraliseNeutral(s);
    NeutralIsFixed(Neutralise(s));
    if Neutral(s) { NeutralIsFixed(s); }
  }

  lemma {:induction false} NeutralIsFixed(s: string)
    requires Neutral(s)
    ensures Neutralise(s) == s
  {
    if s != "" {
      NeutralIsFixed(s[1..]);
      HeadTail(s);
    }
  }

  lemma NeutralAppend(p: string, n: string)
    requires Neutral(n) && forall i :: 0 <= i < |p| ==> p[i] != '<'
    ensures Neutral(p + n)
  {
    if p == "" {
      assert p + n == n;
    } else {
      assert (p + n)[1..] == p[1..] + n;
    }
  }

  // ---------------------------------------------------------------------------
  // Reading back what was written

  lemma {:induction false} SkipPlain(p: string, s: string)
    requires forall i :: 0 <= i < |p| ==> p[i] != '<'
    ensures NextFrame(p + s) == NextFrame(s)
  {
    if p == "" {
      assert p + s == s;
    } else {
      assert (p + s)[1..] == p[1..] + s;
      SkipPlain(p[1..], s);
    }
  }

  lemma FramesSkipPlain(p: string, s: string)
    requires forall i :: 0 <= i < |p| ==> p[i] != '<'
    ensures Frames(p + s) == Frames(s)
  {
    SkipPlain(p, s);
  }

  lemma CloseIsTag(s: string)
    ensures CloseTag(s).Some? ==> AfterTag(s).Some?
  {}

  /** Neutral text never closes the frame it is in, whatever closes it afterwards. */
  lemma {:induction false} NeutralNeverCloses(b: string, z: string)
    requires Neutral(b) && |z| > 1 && IsWhitespace(z[0]) && Foreign(z[1])
    ensures FirstClose(b + z) == match FirstClose(z) case None => None case Some(c) => Some(Closed(b + c.body, c.rest))
  {
    if b == "" {
      assert b + z == z;
      if FirstClose(z).Some? { assert "" + FirstClose(z).value.body == FirstClose(z).value.body; }
    } else {
      assert (b + z)[1..] == b[1..] + z;
      NeutralNeverCloses(b[1..], z);
      CloseIsTag(b + z);
      if AfterTag(b + z).Some? {
        TagShrinks(b, z);
      }
      if FirstClose(z).Some? {
        Assoc([b[0]], b[1..], FirstClose(z).value.body);
        HeadTail(b);
      }
    }
  }

  const CLOSER: string := "</tool_result>"

  lemma CloserCloses(x: string)
    ensures FirstClose("\n" + (CLOSER + x)) == Some(Closed("\n", x))
  {
    var s := CLOSER + x;
    CloserIsTag(x, ">" + x, s);
    OneBefore("\n", s, x, "\n" + s);
  }

  /** One character in front of a closer is the body. */
  lemma OneBefore(a: string, s: string, x: string, z: string)
    requires |a| == 1 && a[0] != '<' && z == a + s && CloseTag(s) == Some(x)
    ensures FirstClose(z) == Some(Closed(a, x))
  {
    hide CloseTag;
    NoOpenerNoClose(z);
    assert z[1..] == s && [z[0]] == a;
    assert FirstClose(s) == Some(Closed("", x));
    assert a + "" == a;
  }

  lemma NoOpenerNoClose(z: string)
    requires z == "" || z[0] != '<'
    ensures CloseTag(z).None?
  {}

  lemma CloserIsTag(x: string, y: string, s: string)
    requires y == ">" + x && s == CLOSER + x
    ensures CloseTag(s) == Some(x)
  {
    var u := WORD + y;
    var t := "/" + u;
    CloserShape(x, y, u, s);
    NoSpaces(t);
    NoSpaces(y);
    assert u == "" + WORD + y;
    AfterWordOf("", WORD, y);
    TagOfParts(s, t, u, y, x);
  }

  lemma CloserShape(x: string, y: string, u: string, s: string)
    requires y == ">" + x && s == CLOSER + x && u == WORD + y
    ensures s == "<" + ("/" + u)
  {
    var a, b, c := "<", "/", ">";
    assert CLOSER == a + (b + (WORD + c));
    Assoc(WORD, c, x);
    Assoc(b, WORD + c, x);
    Assoc(a, b + (WORD + c), x);
  }

  lemma NoSpaces(t: string)
    requires t == "" || !IsWhitespace(t[0])
    ensures SkipSpaces(t) == t
  {}

  lemma TagOfParts(s: string, t: string, u: string, y: string, x: string)
    requires s == "<" + t && t == "/" + u && y == ">" + x
    requires SkipSpaces(t) == t && SkipSpaces(y) == y && AfterWord(u) == Some(y)
    ensures CloseTag(s) == Some(x)
  {
    hide AfterWord, SkipSpaces;
    assert s[1..] == t && t[1..] == u && y[1..] == x;
  }

  lemma OpenerOpens(attrs: string, x: string, s: string)
    requires '>' !in attrs && s == "<tool_result " + (attrs + (">" + x))
    ensures OpenTag(s) == Some(Opened(attrs, x))
  {
    var y := attrs + (">" + x);
    assert s[1..] == "" + "tool_result" + (" " + y);
    AfterWordOf("", "tool_result", " " + y);
    assert (" " + y)[1..] == y;
    assert y[..|attrs|] == attrs && y[|attrs|] == '>';
    IndexOfFirst(y, '>', |attrs|);
    assert y[|attrs| + 1..] == x;
  }

  lemma FrameShape(attrs: string, n: string, rest: string)
    ensures RenderFrame(attrs, n) + rest == "<tool_result " + (attrs + (">" + (("\n" + n) + ("\n" + (CLOSER + ("\n" + rest))))))
  {
    var a, b := "<tool_result " + attrs, ">\n" + n;
    assert RenderFrame(attrs, n) == a + b + "\n</tool_result>\n";
    assert "\n</tool_result>\n" + rest == "\n" + (CLOSER + ("\n" + rest));
    assert a + b + "\n</tool_result>\n" + rest == a + (b + ("\n</tool_result>\n" + rest));
    assert b == ">" + ("\n" + n);
    var z := "\n" + (CLOSER + ("\n" + rest));
    Assoc(">", "\n" + n, z);
    Assoc("<tool_result ", attrs, b + z);
  }

  /** One frame with harmless attributes and neutral text is read whole. */
  lemma FrameReads(attrs: string, n: string, rest: string)
    requires '>' !in attrs && Neutral(n)
    ensures NextFrame(RenderFrame(attrs, n) + rest) == Some(Found(Frame(attrs, "\n" + n + "\n"), "\n" + rest))
  {
    var s := RenderFrame(attrs, n) + rest;
    var z := "\n" + (CLOSER + ("\n" + rest));
    FrameShape(attrs, n, rest);
    OpenerOpens(attrs, ("\n" + n) + z, s);
    NeutralAppend("\n", n);
    Foreigners();
    NeutralNeverCloses("\n" + n, z);
    CloserCloses("\n" + rest);
  }

  predicate Harmless(blocks: seq<Frame>) {
    forall i :: 0 <= i < |blocks| ==> '>' !in blocks[i].attrs && Neutral(blocks[i].body)
  }

  /** What the reader makes of written blocks: the same frames, the body on its own lines. */
  function Read(blocks: seq<Frame>): (r: seq<Frame>)
    ensures |r| == |blocks|
  {
    if blocks == [] then []
    else [Frame(blocks[0].attrs, "\n" + blocks[0].body + "\n")] + Read(blocks[1..])
  }

  lemma {:induction false} BlocksReadBack(blocks: seq<Frame>)
    requires Harmless(blocks)
    ensures Frames(RenderAll(blocks)) == Read(blocks)
  {
    if blocks != [] {
      var rest := RenderAll(blocks[1..]);
      BlocksReadBack(blocks[1..]);
      FrameReads(blocks[0].attrs, blocks[0].body, rest);
      FramesSkipPlain("\n", rest);
    } else {
      assert NextFrame("").None?;
    }
  }

  lemma EscapePlain(s: string)
    ensures forall i :: 0 <= i < |Escape(s)| ==> Escape(s)[i] != '<' && Escape(s)[i] != '>' && Escape(s)[i] != '"'
  {}

  lemma BlockHarmless(r: Execution)
    ensures '>' !in BlockOf(r).attrs && Neutral(BlockOf(r).body)
  {
    EscapePlain(r.name);
    NeutraliseNeutral(r.output);
    assert '>' !in "name=\"" && '>' !in "\" status=\"" && '>' !in Status(r.success);
  }

  lemma {:induction false} ResultBlocksHarmless(results: seq<Execution>)
    ensures Harmless(ResultBlocks(results))
  {
    if results != [] {
      BlockHarmless(results[0]);
      ResultBlocksHarmless(results[1..]);
    }
  }

  lemma {:induction false} IdBlocksHarmless(results: seq<ToolResult>)
    ensures Harmless(IdBlocks(results))
  {
    if results != [] {
      EscapePlain(results[0].toolCallId);
      NeutraliseNeutral(results[0].content);
      IdBlocksHarmless(results[1..]);
    }
  }

  lemma HeadingIsPlain(s: string)
    ensures Frames(HEADING + s) == Frames(s)
  {
    FramesSkipPlain(HEADING, s);
  }

  /** One frame per execution, in order, with its own attributes and its neutralised
      output, whatever the names and outputs contain. */
  lemma ResultsReadBack(results: seq<Execution>)
    ensures Frames(HEADING + RenderAll(ResultBlocks(results))) == Read(ResultBlocks(results))
  {
    HeadingIsPlain(RenderAll(ResultBlocks(results)));
    ResultBlocksHarmless(results);
    BlocksReadBack(ResultBlocks(results));
  }

  /** The same for stored results (`to_provider_messages`). */
  lemma StoredResultsReadBack(results: seq<ToolResult>)
    ensures Frames(HEADING + RenderAll(IdBlocks(results))) == Read(IdBlocks(results))
  {
    HeadingIsPlain(RenderAll(IdBlocks(results)));
    IdBlocksHarmless(results);
    BlocksReadBack(IdBlocks(results));
  }

  // ---------------------------------------------------------------------------
  // Reading the attributes

  function Unescape(s: string): string {
    if s == "" then ""
    else if "&amp;" <= s then "&" + Unescape(s[5..])
    else if "&lt;" <= s then "<" + Unescape(s[4..])
    else if "&gt;" <= s then ">" + Unescape(s[4..])
    else if "&quot;" <= s then "\"" + Unescape(s[6..])
    else [s[0]] + Unescape(s[1..])
  }

  /** Escaping loses nothing. */
  lemma {:induction false} UnescapeEscape(s: string)
    ensures Unescape(Escape(s)) == s
  {
    if s != "" {
      UnescapeEscape(s[1..]);
      UnescapeHead(s[0], Escape(s[1..]));
      HeadTail(s);
    }
  }

  lemma UnescapeHead(c: char, t: string)
    ensures Unescape(EscapeChar(c) + t) == [c] + Unescape(t)
  {
    var e := EscapeChar(c);
    EntityHead(e, t, e + t);
  }

  lemma EntityHead(e: string, t: string, x: string)
    requires e != "" && x == e + t
    ensures e <= x && x[|e|..] == t && x[0] == e[0] && (|e| > 1 ==> x[1] == e[1])
  {}

  datatype Attrs = Attrs(name: string, success: bool)

  const NAME: string := "name=\""

  function StatusText(success: bool): string {
    "\" status=\"" + Status(success) + "\""
  }

  /** The name and status a reader takes from the attribute text of a frame. */
  function ReadAttrs(a: string): Option<Attrs> {
    if !(NAME <= a) then None
    else
      match IndexOf(a[|NAME|..], '"')
      case None => None
      case Some(k) =>
        var name, tail := a[|NAME|..][..k], a[|NAME|..][k..];
        if tail == "\" status=\"ok\"" then Some(Attrs(Unescape(name), true))
        else if tail == "\" status=\"error\"" then Some(Attrs(Unescape(name), false))
        else None
  }

  lemma StatusTexts()
    ensures StatusText(true) == "\" status=\"ok\"" && StatusText(false) == "\" status=\"error\""
    ensures StatusText(true) != StatusText(false) && StatusText(true)[0] == '"' && StatusText(false)[0] == '"'
  {
    assert |StatusText(true)| != |StatusText(false)|;
  }

  lemma AttrsReadBack(name: string, success: bool)
    ensures ReadAttrs(ResultAttrs(name, success)) == Some(Attrs(name, success))
  {
    var e, t := Escape(name), StatusText(success);
    assert ResultAttrs(name, success) == NAME + (e + t);
    EscapePlain(name);
    UnescapeEscape(name);
    ReadAttrsOf(e, success, NAME + (e + t));
  }

  lemma ReadAttrsOf(e: string, success: bool, a: string)
    requires '"' !in e && a == NAME + (e + StatusText(success))
    ensures ReadAttrs(a) == Some(Attrs(Unescape(e), success))
  {
    var t := StatusText(success);
    var r := e + t;
    StatusTexts();
    assert a[|NAME|..] == r;
    assert r[..|e|] == e && r[|e|..] == t && r[|e|] == '"';
    IndexOfFirst(r, '"', |e|);
  }

  /** Reading the whole text gives, frame by frame, the original name, the right status
      and the neutralised output: a name or output can forge neither. */
  lemma {:induction false} ResultsDecode(results: seq<Execution>, i: nat)
    requires i < |results|
    ensures var fs := Frames("[Tool results]\n" + RenderAll(ResultBlocks(results)));
      && |fs| == |results|
      && ReadAttrs(fs[i].attrs) == Some(Attrs(results[i].name, results[i].success))
      && fs[i].body == "\n" + Neutralise(results[i].output) + "\n"
  {
    ResultsReadBack(results);
    BlockAt(results, i);
    ReadAt(ResultBlocks(results), i);
    AttrsReadBack(results[i].name, results[i].success);
  }

  lemma {:induction false} ReadAt(blocks: seq<Frame>, i: nat)
    requires i < |blocks|
    ensures Read(blocks)[i] == Frame(blocks[i].attrs, "\n" + blocks[i].body + "\n")
  {
    if i > 0 { ReadAt(blocks[1..], i - 1); }
  }

  lemma {:induction false} BlockAt(results: seq<Execution>, i: nat)
    requires i < |results|
    ensures ResultBlocks(results)[i] == BlockOf(results[i])
  {
    if i > 0 { BlockAt(results[1..], i - 1); }
  }

  const ID: string := "id=\""

  /** The call id a reader takes from the attribute text of a stored result. */
  function ReadId(a: string): Option<string> {
    if !(ID <= a) then None
    else
      match IndexOf(a[|ID|..], '"')
      case None => None
      case Some(k) => if a[|ID|..][k..] == "\"" then Some(Unescape(a[|ID|..][..k])) else None
  }

  lemma IdReadsBack(id: string)
    ensures ReadId(IdAttrs(id)) == Some(id)
  {
    var e, a := Escape(id), IdAttrs(id);
    EscapePlain(id);
    UnescapeEscape(id);
    var r := e + "\"";
    assert a == ID + r;
    assert a[|ID|..] == r && r[..|e|] == e && r[|e|..] == "\"";
    IndexOfFirst(r, '"', |e|);
  }

  /** Reading the text of stored results gives, frame by frame, the call id and the
      neutralised content. */
  lemma StoredResultsDecode(results: seq<ToolResult>, i: nat)
    requires i < |results|
    ensures var fs := Frames("[Tool results]\n" + RenderAll(IdBlocks(results)));
      && |fs| == |results|
      && ReadId(fs[i].attrs) == Some(results[i].toolCallId)
      && fs[i].body == "\n" + Neutralise(results[i].content) + "\n"
  {
    StoredResultsReadBack(results);
    IdBlockAt(results, i);
    ReadAt(IdBlocks(results), i);
    IdReadsBack(results[i].toolCallId);
  }

  lemma {:induction false} IdBlockAt(results: seq<ToolResult>, i: nat)
    requires i < |results|
    ensures IdBlocks(results)[i] == Frame(IdAttrs(results[i].toolCallId), Neutralise(results[i].content))
  {
    if i > 0 { IdBlockAt(results[1..], i - 1); }
  }
}
