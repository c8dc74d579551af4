/** Building the system prompt and replacing one of its sections in place:
    `SystemPromptBuilder::build`, `find_heading_line` and `replace_section` of
    `src/agent/prompt.rs`. */
module Prompt {
  import opened Text

  const PERSONA_SECTION_HEADING: string := "## Persona"
  const SAFETY_SECTION_HEADING: string := "## Safety + Approval Policy"

  /** What opens the next section inside a prompt. */
  const NEXT: string := "\n## "
  const SECTION: string := "## "

  // ---------------------------------------------------------------------------
  // The program

  /** The heading stands at `at` as a line of its own. */
  predicate HeadingLine(p: string, h: string, at: nat) {
    && OccursAt(p, h, at)
    && (at == 0 || p[at - 1] == '\n')
    && LineEnds(p, at + |h|)
  }

  predicate LineEnds(p: string, i: nat)
    requires i <= |p|
  {
    i == |p| || p[i] == '\n' || "\r\n" <= p[i..]
  }

  /** `match_indices` from `from` on, without overlaps, then the first that is a line. */
  function FindHeadingFrom(p: string, h: string, from: nat): (r: Option<nat>)
    requires from <= |p| && h != ""
    ensures r.Some? ==> r.value + |h| <= |p|
    decreases |p| - from
  {
    match FindFrom(p, h, from)
    case None => None
    case Some(at) => if HeadingLine(p, h, at) then Some(at) else FindHeadingFrom(p, h, at + |h|)
  }

  /** `find_heading_line`. */
  function FindHeading(p: string, h: string): (r: Option<nat>)
    requires h != ""
    ensures r.Some? ==> r.value + |h| <= |p|
  {
    FindHeadingFrom(p, h, 0)
  }

  /** `replace_section`. */
  function ReplaceSection(p: string, h: string, replacement: string): string
    requires h != ""
  {
    match FindHeading(p, h)
    case None => p
    case Some(start) =>
      var rest := p[start + |h|..];
      match Find(rest, NEXT)
      case None => p[..start] + TrimEnd(replacement)
      case Some(i) => p[..start] + TrimEnd(replacement) + "\n\n" + rest[i + 1..]
  }

  method ReplaceSectionInto(prompt: string, heading: string, replacement: string) returns (out: string)
    requires heading != ""
    ensures out == ReplaceSection(prompt, heading, replacement)
  {
    hide ReplaceSection, FindHeading, TrimEnd, OccursAt;
    var found := FindHeading(prompt, heading);
    NoSection(prompt, heading, replacement);
    if found.None? {
      return prompt;
    }
    var start := found.value;
    var rest := prompt[start + |heading|..];
    var next := Find(rest, NEXT);
    var end := match next case Some(i) => start + |heading| + i + 1 case None => |prompt|;
    out := prompt[..start];
    out := out + TrimEnd(replacement);
    if end < |prompt| {
      out := out + "\n\n";
      out := out + prompt[end..];
    }
    match next {
      case None => ReplaceLast(prompt, heading, replacement, start, prompt[..start], rest);
      case Some(i) =>
        NextCuts(prompt, start + |heading|, rest, i, end);
        ReplaceInner(prompt, heading, replacement, start, prompt[..start], rest, i, i + 1, prompt[end..]);
    }
  }

  lemma NoSection(p: string, h: string, r: string)
    requires h != ""
    ensures FindHeading(p, h).None? ==> ReplaceSection(p, h, r) == p
  {}

  lemma NextCuts(p: string, n: nat, rest: string, i: nat, end: nat)
    requires n <= |p| && rest == p[n..] && Find(rest, NEXT) == Some(i) && end == n + i + 1
    ensures end < |p| && p[end..] == rest[i + 1..]
  {}

  /** `SystemPromptBuilder::build` over the rendered sections. */
  function Build(parts: seq<string>): string {
    if parts == [] then "" else BuildPart(parts[0]) + Build(parts[1..])
  }

  function BuildPart(part: string): string {
    if Trim(part) == "" then "" else TrimEnd(part) + "\n\n"
  }

  method BuildPrompt(parts: seq<string>) returns (output: string)
    ensures output == Build(parts)
  {
    output := "";
    var i := 0;
    ghost var rest := parts;
    while i < |parts|
      invariant i <= |parts| && rest == parts[i..]
      invariant output + Build(rest) == Build(parts)
    {
      var part := parts[i];
      ghost var before := output;
      if Trim(part) != "" {
        output := output + TrimEnd(part);
        output := output + "\n\n";
        Assoc(before, TrimEnd(part), "\n\n");
        Assoc(before, BuildPart(part), Build(rest[1..]));
      } else {
        assert "" + Build(rest[1..]) == Build(rest[1..]);
      }
      i, rest := i + 1, rest[1..];
    }
    assert output + "" == output;
  }

  // ---------------------------------------------------------------------------
  // Finding a heading

  /** A section heading: `## `, then text on the same line. */
  predicate Heading(h: string) {
    SECTION <= h && |h| > |SECTION| && '\n' !in h && '\r' !in h && !IsWhitespace(h[|h| - 1])
  }

  /** `find_heading_line` returns the first line that is exactly the heading: skipping
      past a match that is not a line cannot skip one that is. */
  lemma {:induction false} FindHeadingIsFirst(p: string, h: string, from: nat)
    requires from <= |p| && h != "" && '\n' !in h
    ensures FindHeadingFrom(p, h, from).None? ==> forall j: nat :: from <= j ==> !HeadingLine(p, h, j)
    ensures FindHeadingFrom(p, h, from).Some? ==>
      var at := FindHeadingFrom(p, h, from).value;
      from <= at && HeadingLine(p, h, at) && forall j: nat :: from <= j < at ==> !HeadingLine(p, h, j)
    decreases |p| - from
  {
    hide HeadingLine, OccursAt;
    match FindFrom(p, h, from)
    case None =>
      NoLineBut(p, h, from);
    case Some(at) =>
      NoLineUpTo(p, h, from, at);
      if !HeadingLine(p, h, at) { FindHeadingIsFirst(p, h, at + |h|); }
  }

  lemma NoLineBut(p: string, h: string, from: nat)
    requires from <= |p| && FindFrom(p, h, from).None?
    ensures forall j: nat :: from <= j ==> !HeadingLine(p, h, j)
  {}

  /** Neither before the next occurrence nor inside it does another heading line start. */
  lemma NoLineUpTo(p: string, h: string, from: nat, at: nat)
    requires from <= |p| && '\n' !in h && FindFrom(p, h, from) == Some(at)
    ensures at + |h| <= |p| && forall j: nat :: from <= j < at + |h| && j != at ==> !HeadingLine(p, h, j)
  {
    forall j: nat | from <= j < at + |h| && j != at
      ensures !HeadingLine(p, h, j)
    {
      if at < j {
        NoLineInside(p, h, at, j);
      } else {
        assert !OccursAt(p, h, j);
      }
    }
  }

  /** No line starts inside an occurrence of a heading. */
  lemma NoLineInside(p: string, h: string, at: nat, j: nat)
    requires '\n' !in h && OccursAt(p, h, at) && at < j < at + |h|
    ensures !HeadingLine(p, h, j)
  {
    assert p[at..at + |h|][j - 1 - at] == p[j - 1];
  }

  /** What a heading line is: the heading, at the start or behind a newline, and at the end
      or in front of a newline of either kind. */
  lemma HeadingLineIs(p: string, h: string, a: string, b: string)
    requires p == a + h + b
    ensures HeadingLine(p, h, |a|) <==> (a == "" || a[|a| - 1] == '\n') && (b == "" || b[0] == '\n' || "\r\n" <= b)
  {
    assert p[|a|..|a| + |h|] == h;
    assert p[|a| + |h|..] == b;
    assert a != "" ==> p[|a| - 1] == a[|a| - 1];
    assert b != "" ==> p[|a| + |h|] == b[0];
  }

  lemma FindHeadingAt(p: string, h: string, at: nat)
    requires h != "" && '\n' !in h && HeadingLine(p, h, at)
    requires forall j: nat :: j < at ==> !HeadingLine(p, h, j)
    ensures FindHeading(p, h) == Some(at)
  {
    FindHeadingIsFirst(p, h, 0);
  }

  /** Text made of whole lines. */
  predicate Lines(x: string) {
    x == "" || x[|x| - 1] == '\n'
  }

  /** Heading lines of whole lines followed by more text are those of either part. */
  lemma HeadingLineAppend(x: string, y: string, h: string, at: nat)
    requires Lines(x) && h != "" && '\n' !in h
    ensures at < |x| ==> (HeadingLine(x + y, h, at) <==> HeadingLine(x, h, at))
    ensures |x| <= at ==> (HeadingLine(x + y, h, at) <==> HeadingLine(y, h, at - |x|))
  {
    var p := x + y;
    if |x| <= at {
      LineInLater(x, y, p, h, at, at - |x|, at + |h|);
    } else if at + |h| <= |p| {
      LineInEarlier(x, y, p, h, at, at + |h|);
    }
  }

  lemma LineInLater(x: string, y: string, p: string, h: string, at: nat, k: nat, end: nat)
    requires Lines(x) && p == x + y && at == |x| + k && end == at + |h|
    ensures HeadingLine(p, h, at) <==> HeadingLine(y, h, k)
  {
    if end <= |p| {
      LaterCuts(x, y, p, at, k, end, k + |h|);
    }
  }

  lemma LaterCuts(x: string, y: string, p: string, at: nat, k: nat, end: nat, e: nat)
    requires p == x + y && at == |x| + k && end == |x| + e && k <= e <= |y|
    ensures p[at..end] == y[k..e] && p[end..] == y[e..]
    ensures k > 0 ==> p[at - 1] == y[k - 1]
  {}

  lemma LineInEarlier(x: string, y: string, p: string, h: string, at: nat, end: nat)
    requires Lines(x) && p == x + y && h != "" && '\n' !in h && at < |x| && end == at + |h| && end <= |p|
    ensures HeadingLine(p, h, at) <==> HeadingLine(x, h, at)
  {
    var i := |x| - 1;
    if end <= i {
      assert p[at..end] == x[at..end];
      assert p[end] == x[end];
      PrefixAppend(x[end..], y);
      assert p[end..] == x[end..] + y;
    } else {
      assert p[at..end][i - at] == p[i] == '\n';
      assert end <= |x| ==> x[at..end][i - at] == x[i];
    }
  }

  lemma PrefixAppend(x: string, y: string)
    requires x != "" && x[|x| - 1] == '\n'
    ensures "\r\n" <= x + y <==> "\r\n" <= x
  {
    assert |x| == 1 ==> (x + y)[0] == '\n';
    assert |x| >= 2 ==> (x + y)[0] == x[0] && (x + y)[1] == x[1];
  }

  lemma FindHeadingInLines(x: string, y: string, h: string, k: nat)
    requires Lines(x) && h != "" && '\n' !in h && FindHeading(x, h) == Some(k)
    ensures FindHeading(x + y, h) == Some(k)
  {
    FindHeadingIsFirst(x, h, 0);
    HeadingLineAppend(x, y, h, k);
    forall j: nat | j < k
      ensures !HeadingLine(x + y, h, j)
    {
      HeadingLineAppend(x, y, h, j);
      assert !HeadingLine(x, h, j);
    }
    FindHeadingAt(x + y, h, k);
  }

  lemma FindHeadingPastLines(x: string, y: string, h: string)
    requires Lines(x) && h != "" && '\n' !in h && FindHeading(x, h).None?
    ensures FindHeading(x + y, h) == match FindHeading(y, h) case None => None case Some(k) => Some(|x| + k)
  {
    if FindHeading(y, h).Some? {
      FoundPastLines(x, y, h, FindHeading(y, h).value, |x| + FindHeading(y, h).value);
    } else {
      NotFoundPastLines(x, y, h);
    }
  }

  lemma FoundPastLines(x: string, y: string, h: string, k: nat, at: nat)
    requires Lines(x) && h != "" && '\n' !in h && FindHeading(x, h).None?
    requires FindHeading(y, h) == Some(k) && at == |x| + k
    ensures FindHeading(x + y, h) == Some(at)
  {
    var p := x + y;
    FindHeadingIsFirst(y, h, 0);
    hide FindHeading, HeadingLine;
    HeadingLineAppend(x, y, h, at);
    forall j: nat | j < at
      ensures !HeadingLine(p, h, j)
    {
      NoLineBefore(x, y, h, k, at, j);
    }
    FindHeadingAt(p, h, at);
  }

  lemma NoLineBefore(x: string, y: string, h: string, k: nat, at: nat, j: nat)
    requires Lines(x) && h != "" && '\n' !in h && FindHeading(x, h).None?
    requires FindHeading(y, h) == Some(k) && at == |x| + k && j < at
    ensures !HeadingLine(x + y, h, j)
  {
    FindHeadingIsFirst(x, h, 0);
    FindHeadingIsFirst(y, h, 0);
    HeadingLineAppend(x, y, h, j);
  }

  lemma NotFoundPastLines(x: string, y: string, h: string)
    requires Lines(x) && h != "" && '\n' !in h && FindHeading(x, h).None? && FindHeading(y, h).None?
    ensures FindHeading(x + y, h).None?
  {
    FindHeadingIsFirst(x, h, 0);
    FindHeadingIsFirst(y, h, 0);
    FindHeadingIsFirst(x + y, h, 0);
    if FindHeading(x + y, h).Some? {
      HeadingLineAppend(x, y, h, FindHeading(x + y, h).value);
    }
  }

  /** Searching whole lines first, then the rest. */
  lemma FindHeadingAppend(x: string, y: string, h: string)
    requires Lines(x) && h != "" && '\n' !in h
    ensures FindHeading(x, h).Some? ==> FindHeading(x + y, h) == FindHeading(x, h)
    ensures FindHeading(x, h).None? ==>
      FindHeading(x + y, h) == match FindHeading(y, h) case None => None case Some(k) => Some(|x| + k)
  {
    if FindHeading(x, h).Some? {
      FindHeadingInLines(x, y, h, FindHeading(x, h).value);
    } else {
      FindHeadingPastLines(x, y, h);
    }
  }

  // ---------------------------------------------------------------------------
  // Sections

  /** `s` is the section that `h` opens, in front of `t`: it runs to the next `## ` line. */
  predicate IsSection(h: string, s: string, t: string) {
    && h <= s && LineEnds(s, |h|) && Find(s[|h|..], NEXT).None?
    && (t == "" || (s != "" && s[|s| - 1] == '\n' && SECTION <= t))
  }

  function Sep(t: string): string {
    if t == "" then "" else "\n\n" + t
  }

  lemma NextAtEnd(body: string, t: string)
    requires Find(body, NEXT).None? && body != "" && body[|body| - 1] == '\n' && SECTION <= t
    ensures Find(body + t, NEXT) == Some(|body| - 1)
  {
    var s, n := body + t, |body| - 1;
    assert s[n..n + |NEXT|] == "\n" + t[..|SECTION|];
    forall j: nat | j < n
      ensures !OccursAt(s, NEXT, j)
    {
      if j + |NEXT| <= |body| {
        assert s[j..j + |NEXT|] == body[j..j + |NEXT|];
        assert !OccursAt(body, NEXT, j);
      } else if j + |NEXT| <= |s| {
        assert s[j..j + |NEXT|][n - j] == s[n] == '\n';
      }
    }
    FindIs(s, NEXT, n);
  }

  lemma SectionLine(h: string, s: string, t: string)
    requires Heading(h) && IsSection(h, s, t)
    ensures HeadingLine(s + t, h, 0)
  {
    var p := s + t;
    assert p[..|h|] == s[..|h|] == h;
    if |s| > |h| {
      assert p[|h|..] == s[|h|..] + t;
      assert p[|h|] == s[|h|];
    } else {
      assert s == h;
      assert t == "";
      assert p == h;
    }
  }

  /** What `replace_section` returns, from where the heading is and what follows it. */
  lemma ReplaceAt(p: string, h: string, r: string, at: nat, pre: string, rest: string, t: string)
    requires h != "" && FindHeading(p, h) == Some(at) && pre == p[..at] && rest == p[at + |h|..]
    requires match Find(rest, NEXT) case None => t == "" case Some(i) => t != "" && t == rest[i + 1..]
    ensures ReplaceSection(p, h, r) == pre + TrimEnd(r) + Sep(t)
  {
    var x := pre + TrimEnd(r);
    if t == "" {
      assert x + "" == x;
      ReplaceLast(p, h, r, at, pre, rest);
    } else {
      var i := Find(rest, NEXT).value;
      ReplaceInner(p, h, r, at, pre, rest, i, i + 1, t);
      Assoc(x, "\n\n", t);
    }
  }

  lemma ReplaceLast(p: string, h: string, r: string, at: nat, pre: string, rest: string)
    requires h != "" && FindHeading(p, h) == Some(at) && pre == p[..at] && rest == p[at + |h|..]
    requires Find(rest, NEXT).None?
    ensures ReplaceSection(p, h, r) == pre + TrimEnd(r)
  {
    hide TrimEnd, FindHeading, OccursAt;
  }

  lemma ReplaceInner(p: string, h: string, r: string, at: nat, pre: string, rest: string, i: nat, next: nat, t: string)
    requires h != "" && FindHeading(p, h) == Some(at) && pre == p[..at] && rest == p[at + |h|..]
    requires Find(rest, NEXT) == Some(i) && next == i + 1 && t == rest[next..]
    ensures ReplaceSection(p, h, r) == pre + TrimEnd(r) + "\n\n" + t
  {
    hide TrimEnd, FindHeading, OccursAt;
  }

  lemma SectionBody(h: string, s: string, t: string, body: string)
    requires Heading(h) && IsSection(h, s, t) && body == s[|h|..]
    ensures match Find(body + t, NEXT) case None => t == "" case Some(i) => t != "" && t == (body + t)[i + 1..] && i + 1 == |body|
  {
    if t == "" {
      assert body + t == body;
    } else {
      assert body == "" ==> s == h;
      assert body != "" ==> body[|body| - 1] == s[|s| - 1];
      NextAtEnd(body, t);
      var n := |body| - 1;
      assert (body + t)[n + 1..] == t;
    }
  }

  lemma SectionFound(pre: string, h: string, s: string, t: string, p: string)
    requires Heading(h) && Lines(pre) && FindHeading(pre, h).None? && IsSection(h, s, t) && p == pre + (s + t)
    ensures FindHeading(p, h) == Some(|pre|)
  {
    SectionLine(h, s, t);
    FindHeadingAt(s + t, h, 0);
    FindHeadingAppend(pre, s + t, h);
  }

  /** Replacing a section found after whole lines that do not hold its heading. */
  lemma ReplaceIs(pre: string, h: string, s: string, t: string, r: string, p: string)
    requires Heading(h) && Lines(pre) && FindHeading(pre, h).None? && IsSection(h, s, t) && p == pre + (s + t)
    ensures ReplaceSection(p, h, r) == pre + TrimEnd(r) + Sep(t)
  {
    hide ReplaceSection, FindHeading, TrimEnd, Lines, LineEnds, OccursAt;
    SectionFound(pre, h, s, t, p);
    var body := s[|h|..];
    SectionBody(h, s, t, body);
    SectionRest(pre, h, s, t, p, body);
    ReplaceAt(p, h, r, |pre|, pre, body + t, t);
  }

  lemma SectionRest(pre: string, h: string, s: string, t: string, p: string, body: string)
    requires h <= s && body == s[|h|..] && p == pre + (s + t)
    ensures |pre| + |h| <= |p| && p[|pre| + |h|..] == body + t && p[..|pre|] == pre
  {}

  /** Every prompt with the heading is: whole lines without it, its section, the rest. */
  lemma Decompose(p: string, h: string) returns (pre: string, s: string, t: string)
    requires Heading(h) && FindHeading(p, h).Some?
    ensures p == pre + (s + t) && Lines(pre) && FindHeading(pre, h).None? && IsSection(h, s, t)
  {
    var at := FirstLine(p, h);
    pre := p[..at];
    var q := p[at..];
    SplitAt(p, at);
    PreHasNone(p, pre, q, h);
    HeadingHere(p, h, at, q);
    s, t := CutSection(q, h);
  }

  lemma LineStarts(p: string, h: string, at: nat)
    requires HeadingLine(p, h, at)
    ensures at <= |p| && Lines(p[..at])
  {
    assert at > 0 ==> p[..at][at - 1] == p[at - 1];
  }

  lemma FirstLine(p: string, h: string) returns (at: nat)
    requires Heading(h) && FindHeading(p, h).Some?
    ensures at <= |p| && FindHeading(p, h) == Some(at) && HeadingLine(p, h, at) && Lines(p[..at])
    ensures forall j: nat :: j < at ==> !HeadingLine(p, h, j)
  {
    FindHeadingIsFirst(p, h, 0);
    at := FindHeading(p, h).value;
    LineStarts(p, h, at);
  }

  lemma HeadingHere(p: string, h: string, at: nat, q: string)
    requires HeadingLine(p, h, at) && q == p[at..]
    ensures h <= q && LineEnds(q, |h|)
  {
    assert q[..|h|] == p[at..at + |h|];
    assert q[|h|..] == p[at + |h|..];
  }

  /** A heading line and what follows it, cut where the next section starts. */
  lemma CutSection(q: string, h: string) returns (s: string, t: string)
    requires Heading(h) && h <= q && LineEnds(q, |h|)
    ensures q == s + t && IsSection(h, s, t)
  {
    var rest := q[|h|..];
    match Find(rest, NEXT)
    case None =>
      s, t := q, "";
      assert q + "" == q;
    case Some(i) =>
      var end := |h| + i + 1;
      s, t := q[..end], q[end..];
      SplitAt(q, end);
      var m := rest[i..i + |NEXT|];
      assert m == NEXT;
      assert s[|h|..] == rest[..i + 1];
      NoNextBefore(rest, i);
      assert q[end - 1] == rest[i] == m[0];
      assert t[..|SECTION|] == m[1..];
      LineStillEnds(q, |h|, end);
  }

  lemma LineStillEnds(q: string, n: nat, end: nat)
    requires n < end <= |q| && LineEnds(q, n) && q[end - 1] == '\n'
    ensures LineEnds(q[..end], n)
  {
    var s := q[..end];
    assert s[n] == q[n];
    if q[n] != '\n' {
      assert q[n..][0] == q[n] && q[n..][1] == q[n + 1];
      assert s[n..][0] == s[n] && s[n..][1] == s[n + 1];
    }
  }

  lemma PreHasNone(p: string, pre: string, y: string, h: string)
    requires h != "" && '\n' !in h && p == pre + y && Lines(pre)
    requires forall j: nat :: j < |pre| ==> !HeadingLine(p, h, j)
    ensures FindHeading(pre, h).None?
  {
    FindHeadingIsFirst(pre, h, 0);
    if FindHeading(pre, h).Some? {
      HeadingLineAppend(pre, y, h, FindHeading(pre, h).value);
    }
  }

  lemma NoNextBefore(rest: string, i: nat)
    requires Find(rest, NEXT) == Some(i)
    ensures Find(rest[..i + 1], NEXT).None?
  {
    var b := rest[..i + 1];
    forall j: nat
      ensures !OccursAt(b, NEXT, j)
    {
      if j + |NEXT| <= |b| {
        assert b[j..j + |NEXT|] == rest[j..j + |NEXT|];
        assert !OccursAt(rest, NEXT, j);
      }
    }
  }

  // ---------------------------------------------------------------------------
  // Update laws

  /** A replacement that is a section of its own: its heading line, then no `## ` line. */
  predicate OwnSection(h: string, r: string) {
    IsSection(h, TrimEnd(r), "")
  }

  lemma NoNextAcross(body: string)
    requires Find(body, NEXT).None?
    ensures Find(body + "\n\n", NEXT).None?
  {
    var s := body + "\n\n";
    forall j: nat
      ensures !OccursAt(s, NEXT, j)
    {
      if j + |NEXT| <= |body| {
        assert s[j..j + |NEXT|] == body[j..j + |NEXT|];
        assert !OccursAt(body, NEXT, j);
      } else if j + |NEXT| <= |s| {
        assert s[j..j + |NEXT|][|body| - j] == s[|body|] == '\n';
      }
    }
  }

  /** A section stays one with a blank line after it, in front of another section or at the end. */
  lemma SectionPadded(h: string, s: string, t: string, u: string)
    requires Heading(h) && IsSection(h, s, u) && (t == "" || SECTION <= t)
    ensures IsSection(h, s + "\n\n", t)
  {
    var q := s + "\n\n";
    assert q[..|h|] == s[..|h|];
    assert q[|h|..] == s[|h|..] + "\n\n";
    NoNextAcross(s[|h|..]);
    if |s| > |h| { assert q[|h|] == s[|h|]; }
    if "\r\n" <= s[|h|..] { assert s[|h|..][0] == '\r' && s[|h|..][1] == '\n'; }
  }

  /** A missing heading means no change. */
  lemma ReplaceMissing(p: string, h: string, r: string)
    requires h != "" && '\n' !in h && forall j: nat :: !HeadingLine(p, h, j)
    ensures ReplaceSection(p, h, r) == p
  {
    FindHeadingIsFirst(p, h, 0);
  }

  /** Replacing changes only the section: what is before its heading line and from the
      next `## ` line on is kept, for every prompt that has the heading. */
  lemma ReplaceKeepsRest(p: string, h: string, r: string) returns (pre: string, s: string, t: string)
    requires Heading(h) && FindHeading(p, h).Some?
    ensures p == pre + (s + t) && Lines(pre) && FindHeading(pre, h).None? && IsSection(h, s, t)
    ensures ReplaceSection(p, h, r) == pre + TrimEnd(r) + Sep(t)
  {
    pre, s, t := Decompose(p, h);
    ReplaceIs(pre, h, s, t, r, p);
  }

  /** A second replacement overwrites the first, when that is a section of its own. */
  lemma ReplaceTwice(p: string, h: string, r1: string, r2: string)
    requires Heading(h) && OwnSection(h, r1)
    ensures ReplaceSection(ReplaceSection(p, h, r1), h, r2) == ReplaceSection(p, h, r2)
  {
    if FindHeading(p, h).Some? {
      var pre, s, t := ReplaceKeepsRest(p, h, r1);
      ReplaceIs(pre, h, s, t, r2, p);
      ReplaceOwn(pre, h, TrimEnd(r1), t, r2, ReplaceSection(p, h, r1));
    }
  }

  lemma ReplaceOwn(pre: string, h: string, q: string, t: string, r: string, p: string)
    requires Heading(h) && Lines(pre) && FindHeading(pre, h).None? && IsSection(h, q, "")
    requires (t == "" || SECTION <= t) && p == pre + q + Sep(t)
    ensures ReplaceSection(p, h, r) == pre + TrimEnd(r) + Sep(t)
  {
    if t == "" {
      assert p == pre + (q + "");
      ReplaceIs(pre, h, q, "", r, p);
    } else {
      SectionPadded(h, q, t, "");
      PadGlue(pre, q, t);
      ReplaceIs(pre, h, q + "\n\n", t, r, p);
    }
  }

  lemma PadGlue(pre: string, q: string, t: string)
    requires t != ""
    ensures pre + q + Sep(t) == pre + ((q + "\n\n") + t)
    ensures pre + q + Sep(t) == (pre + (q + "\n\n")) + t
  {
    Assoc(pre, q, "\n\n" + t);
    Assoc(q, "\n\n", t);
    Assoc(pre, q + "\n\n", t);
  }

  /** The overwriting law, for one pair of replacements. */
  ghost predicate Overwrites(p: string, h: string, r1: string, r2: string)
    requires h != ""
  {
    ReplaceSection(ReplaceSection(p, h, r1), h, r2) == ReplaceSection(p, h, r2)
  }

  /** On a prompt that has the heading, every second replacement overwrites the first
      exactly when the first was a section of its own. */
  lemma ReplaceTwiceIff(p: string, h: string, r1: string)
    requires Heading(h) && FindHeading(p, h).Some?
    ensures (forall r2 :: Overwrites(p, h, r1, r2)) <==> OwnSection(h, r1)
  {
    if OwnSection(h, r1) {
      forall r2
        ensures Overwrites(p, h, r1, r2)
      {
        ReplaceTwice(p, h, r1, r2);
      }
    }
    if forall r2 :: Overwrites(p, h, r1, r2) {
      assert Overwrites(p, h, r1, "") && Overwrites(p, h, r1, "x") && Overwrites(p, h, r1, "y");
      OverwritesThree(p, h, r1);
    }
  }

  lemma OverwritesThree(p: string, h: string, r1: string)
    requires Heading(h) && FindHeading(p, h).Some?
    requires Overwrites(p, h, r1, "") && Overwrites(p, h, r1, "x") && Overwrites(p, h, r1, "y")
    ensures OwnSection(h, r1)
  {
    hide ReplaceSection, FindHeading, TrimEnd;
    var pre, s, t := ReplaceKeepsRest(p, h, r1);
    var second := ReplaceSection(p, h, r1);
    Assoc(pre, TrimEnd(r1), Sep(t));
    AllReplace(pre, h, s, t, p, second);
    TrimEndTwice(r1);
    OverwritesOnlyOwn(pre, h, TrimEnd(r1), t, second);
  }

  /** Three replacements that overwrite whatever `second` holds for the section. */
  lemma AllReplace(pre: string, h: string, s: string, t: string, p: string, second: string)
    requires Heading(h) && Lines(pre) && FindHeading(pre, h).None? && IsSection(h, s, t) && p == pre + (s + t)
    requires forall r :: r in ["", "x", "y"] ==> ReplaceSection(second, h, r) == ReplaceSection(p, h, r)
    ensures ReplacesLike(second, h, "", pre, t) && ReplacesLike(second, h, "x", pre, t) && ReplacesLike(second, h, "y", pre, t)
  {
    hide ReplaceSection, FindHeading, TrimEnd, IsSection, Lines;
    ReplaceIs(pre, h, s, t, "", p);
    ReplaceIs(pre, h, s, t, "x", p);
    ReplaceIs(pre, h, s, t, "y", p);
    assert "" in ["", "x", "y"] && "x" in ["", "x", "y"] && "y" in ["", "x", "y"];
  }

  lemma TrimEndTwice(r: string)
    ensures TrimEnd(r) == "" || !IsWhitespace(TrimEnd(r)[|TrimEnd(r)| - 1])
  {
    TrimEndSpec(r);
  }

  predicate ReplacesLike(second: string, h: string, r: string, pre: string, t: string)
    requires h != ""
  {
    ReplaceSection(second, h, r) == pre + TrimEnd(r) + Sep(t)
  }

  lemma OverwritesOnlyOwn(pre: string, h: string, q: string, t: string, second: string)
    requires Heading(h) && Lines(pre) && FindHeading(pre, h).None? && second == pre + (q + Sep(t))
    requires q == "" || !IsWhitespace(q[|q| - 1])
    requires t == "" || SECTION <= t
    requires ReplacesLike(second, h, "", pre, t) && ReplacesLike(second, h, "x", pre, t) && ReplacesLike(second, h, "y", pre, t)
    ensures IsSection(h, q, "")
  {
    hide ReplaceSection, FindHeading, TrimEnd, IsSection, Lines, ReplacesLike;
    SomeIsFound(pre, h, t, second);
    var pre2, s2, t2 := FoundLater(pre, h, q + Sep(t), second);
    SameReplaced(pre, t, pre2, t2, h, second);
    PrefixesAgree(pre, q + Sep(t), pre2, s2 + t2, second);
    OwnFromSection(h, q, s2, t);
  }

  /** The section that is replaced does not start before `pre` ends. */
  lemma FoundLater(pre: string, h: string, rest: string, second: string) returns (pre2: string, s2: string, t2: string)
    requires Heading(h) && Lines(pre) && FindHeading(pre, h).None? && second == pre + rest
    requires FindHeading(second, h).Some?
    ensures second == pre2 + (s2 + t2) && |pre| <= |pre2| && IsSection(h, s2, t2)
    ensures ReplacesLike(second, h, "", pre2, t2) && ReplacesLike(second, h, "x", pre2, t2) && ReplacesLike(second, h, "y", pre2, t2)
  {
    hide ReplaceSection, TrimEnd, IsSection, Lines, ReplacesLike;
    FindHeadingAppend(pre, rest, h);
    pre2, s2, t2 := Decompose(second, h);
    SectionFound(pre2, h, s2, t2, second);
    AllReplace(pre2, h, s2, t2, second, second);
  }

  lemma SameReplaced(pre: string, t: string, pre2: string, t2: string, h: string, second: string)
    requires h != "" && |pre| <= |pre2|
    requires ReplacesLike(second, h, "", pre, t) && ReplacesLike(second, h, "x", pre, t) && ReplacesLike(second, h, "y", pre, t)
    requires ReplacesLike(second, h, "", pre2, t2) && ReplacesLike(second, h, "x", pre2, t2) && ReplacesLike(second, h, "y", pre2, t2)
    ensures |pre| == |pre2| && t == t2
  {
    hide ReplaceSection, Sep;
    assert TrimEnd("x") == "x" && TrimEnd("y") == "y" && TrimEnd("") == "";
    NotLater(pre, pre2, t, t2);
    var s := ReplaceSection(second, h, "");
    assert s == pre + "" + Sep(t) && s == pre2 + "" + Sep(t2);
    assert s == pre + Sep(t) && s == pre2 + Sep(t2);
    PrefixesAgree(pre, Sep(t), pre2, Sep(t2), s);
    SameSep(pre, t, t2);
  }

  lemma SomeIsFound(pre: string, h: string, t: string, second: string)
    requires h != "" && ReplacesLike(second, h, "x", pre, t) && ReplacesLike(second, h, "y", pre, t)
    ensures FindHeading(second, h).Some?
  {
    assert TrimEnd("x") == "x" && TrimEnd("y") == "y";
    OneLetter(pre, "x", Sep(t));
    OneLetter(pre, "y", Sep(t));
  }

  lemma OneLetter(pre: string, l: string, z: string)
    requires |l| == 1
    ensures |pre + l + z| > |pre| && (pre + l + z)[|pre|] == l[0]
  {}

  lemma NotLater(pre: string, pre2: string, t: string, t2: string)
    requires |pre| <= |pre2|
    requires pre2 + "x" + Sep(t2) == pre + "x" + Sep(t) && pre2 + "y" + Sep(t2) == pre + "y" + Sep(t)
    ensures |pre| == |pre2|
  {
    var x, y := pre2 + "x" + Sep(t2), pre2 + "y" + Sep(t2);
    OneLetter(pre, "x", Sep(t));
    OneLetter(pre, "y", Sep(t));
    assert forall i :: 0 <= i < |pre2| ==> x[i] == y[i];
  }

  lemma PrefixesAgree(a: string, x: string, b: string, y: string, s: string)
    requires s == a + x && s == b + y && |a| == |b|
    ensures a == b && x == y
  {
    assert s[..|a|] == a && s[..|b|] == b && s[|a|..] == x && s[|b|..] == y;
  }

  lemma SameSep(pre: string, t: string, t2: string)
    requires pre + "" + Sep(t2) == pre + "" + Sep(t)
    ensures t == t2
  {
    var a, b := pre + "" + Sep(t), pre + "" + Sep(t2);
    assert a[|pre|..] == Sep(t) && b[|pre|..] == Sep(t2);
    if t != "" && t2 != "" {
      assert Sep(t)[2..] == t && Sep(t2)[2..] == t2;
    }
  }

  lemma OwnFromSection(h: string, q: string, s: string, t: string)
    requires Heading(h) && IsSection(h, s, t) && s + t == q + Sep(t)
    requires q == "" || !IsWhitespace(q[|q| - 1])
    ensures IsSection(h, q, "")
  {
    if t == "" {
      assert s == s + t && q == q + Sep(t);
    } else {
      Assoc(q, "\n\n", t);
      PrefixesAgree(s, t, q + "\n\n", t, s + t);
      assert forall i :: |q| <= i < |s| ==> s[i] == '\n';
      assert forall i :: 0 <= i < |h| ==> h[i] == s[i];
      assert |h| <= |q|;
      assert q[..|h|] == s[..|h|];
      var body, b := s[|h|..], q[|h|..];
      assert body == b + "\n\n";
      NextInPrefix(b, "\n\n");
      if |h| < |q| { assert q[|h|] == s[|h|] == body[0] && b[0] == body[0]; }
      if "\r\n" <= body && b != "" { assert body[1] == '\n' && |b| > 1 && b[1] == body[1]; }
    }
  }

  lemma NextInPrefix(b: string, x: string)
    requires Find(b + x, NEXT).None?
    ensures Find(b, NEXT).None?
  {
    forall j: nat
      ensures !OccursAt(b, NEXT, j)
    {
      if j + |NEXT| <= |b| {
        assert (b + x)[j..j + |NEXT|] == b[j..j + |NEXT|];
        assert !OccursAt(b + x, NEXT, j);
      }
    }
  }

  /** A section holds no other heading as a line. */
  lemma SectionHasNoOther(h: string, g: string, s: string, t: string)
    requires Heading(h) && Heading(g) && h != g && IsSection(h, s, t)
    ensures FindHeading(s, g).None?
  {
    FindHeadingIsFirst(s, g, 0);
    if FindHeading(s, g).Some? {
      var j := FindHeading(s, g).value;
      NotAlsoHeading(h, g, s, t, j);
    }
  }

  lemma NotAlsoHeading(h: string, g: string, s: string, t: string, j: nat)
    requires Heading(h) && Heading(g) && h != g && IsSection(h, s, t)
    ensures !HeadingLine(s, g, j)
  {
    assert forall i :: 0 <= i < |h| ==> s[i] == h[i];
    if j == 0 {
      if HeadingLine(s, g, 0) { SamePlace(h, g, s); }
    } else {
      NextInside(s, |h|, g, j);
    }
  }

  /** A later heading line opens a section inside the body. */
  lemma NextInside(s: string, n: nat, g: string, j: nat)
    requires n <= |s| && SECTION <= g
    ensures n < j && OccursAt(s, g, j) && s[j - 1] == '\n' ==> OccursAt(s[n..], NEXT, j - 1 - n)
  {
    if n < j && j + |g| <= |s| {
      var body, k, e := s[n..], j - 1 - n, j + |SECTION|;
      assert s[j..j + |g|][..|SECTION|] == s[j..e];
      assert body[k..k + |NEXT|] == s[j - 1..e] == [s[j - 1]] + s[j..e];
    }
  }

  lemma SamePlace(h: string, g: string, s: string)
    requires Heading(h) && Heading(g) && h <= s && LineEnds(s, |h|) && HeadingLine(s, g, 0)
    ensures h == g
  {
    assert s[..|g|] == s[0..0 + |g|] == g;
    NoEndInside(h, s);
    NoEndInside(g, s);
  }

  lemma NoEndInside(h: string, s: string)
    requires '\n' !in h && '\r' !in h && h <= s
    ensures forall n: nat :: n < |h| ==> !LineEnds(s, n)
  {
    forall n: nat | n < |h|
      ensures !LineEnds(s, n)
    {
      assert s[n] == h[n] && s[n..][0] == s[n];
    }
  }

  // ---------------------------------------------------------------------------
  // Persona and safety replacements

  /** Removed, or replaced by a section of its own. */
  predicate Replacement(h: string, r: string) {
    TrimEnd(r) == "" || OwnSection(h, r)
  }

  /** What is left after a replacement, in whole lines, still holds no other heading. */
  lemma ReplacedLines(pre: string, h: string, g: string, r: string)
    requires Heading(h) && Heading(g) && h != g && Replacement(h, r)
    requires Lines(pre) && FindHeading(pre, g).None?
    ensures Lines(pre + (TrimEnd(r) + "\n\n")) && FindHeading(pre + (TrimEnd(r) + "\n\n"), g).None?
    ensures FindHeading(pre + TrimEnd(r), g).None?
  {
    var q := TrimEnd(r);
    if q == "" {
      assert q + "\n\n" == "\n\n";
      BlankHasNone("\n\n", g);
      assert pre + q == pre;
    } else {
      SectionPadded(h, q, "", "");
      SectionHasNoOther(h, g, q, "");
      SectionHasNoOther(h, g, q + "\n\n", "");
      FindHeadingAppend(pre, q, g);
    }
    FindHeadingAppend(pre, q + "\n\n", g);
  }

  lemma BlankHasNone(b: string, g: string)
    requires Heading(g) && forall i :: 0 <= i < |b| ==> b[i] == '\n'
    ensures FindHeading(b, g).None?
  {
    FindHeadingIsFirst(b, g, 0);
    forall j: nat
      ensures !HeadingLine(b, g, j)
    {
      if j + |g| <= |b| { assert b[j..j + |g|][0] == b[j]; }
    }
  }

  /** A missing heading stays missing when another section is replaced. */
  lemma MissingStays(p: string, h: string, g: string, r: string)
    requires Heading(h) && Heading(g) && h != g && Replacement(h, r) && FindHeading(p, g).None?
    ensures FindHeading(ReplaceSection(p, h, r), g).None?
  {
    if FindHeading(p, h).Some? {
      var pre, s, t := ReplaceKeepsRest(p, h, r);
      FindHeadingAppend(pre, s + t, g);
      ReplacedLines(pre, h, g, r);
      var q := TrimEnd(r);
      if t == "" {
        assert pre + q + "" == pre + q;
      } else {
        FindHeadingAppend(s, t, g);
        PadGlue(pre, q, t);
        FindHeadingAppend(pre + (q + "\n\n"), t, g);
      }
    }
  }

  /** A prompt with both sections: `h`'s, what is between, `g`'s, and the rest. */
  predicate Layout(h: string, g: string, pre: string, s: string, m: string, u: string, v: string) {
    && Heading(h) && Heading(g) && Lines(pre) && FindHeading(pre, h).None? && FindHeading(pre, g).None?
    && IsSection(h, s, m + (u + v)) && IsSection(g, u, v)
    && Lines(m) && FindHeading(m, g).None? && (m == "" || SECTION <= m)
  }

  lemma LayoutOf(p: string, h: string, g: string) returns (pre: string, s: string, m: string, u: string, v: string)
    requires Heading(h) && Heading(g) && h != g
    requires FindHeading(p, h).Some? && FindHeading(p, g).Some? && FindHeading(p, h).value < FindHeading(p, g).value
    ensures Layout(h, g, pre, s, m, u, v) && p == pre + (s + (m + (u + v)))
    ensures FindHeading(p, h) == Some(|pre|) && FindHeading(p, g) == Some(|pre| + |s| + |m|)
  {
    hide FindHeading, LineEnds, OccursAt, IsSection, Lines;
    var t := "";
    pre, s, t := LaterInRest(p, h, g);
    m, u, v := Decompose(t, g);
    SectionFound(m, g, u, v, t);
    LinesBetween(t, m, u + v);
  }

  lemma LaterInRest(p: string, h: string, g: string) returns (pre: string, s: string, t: string)
    requires Heading(h) && Heading(g) && h != g
    requires FindHeading(p, h).Some? && FindHeading(p, g).Some? && FindHeading(p, h).value < FindHeading(p, g).value
    ensures p == pre + (s + t) && Lines(pre) && FindHeading(pre, h).None? && IsSection(h, s, t) && SECTION <= t
    ensures FindHeading(p, h) == Some(|pre|) && FindHeading(pre, g).None?
    ensures FindHeading(t, g).Some? && FindHeading(p, g) == Some(|pre| + |s| + FindHeading(t, g).value)
  {
    hide FindHeading, LineEnds, OccursAt;
    pre, s, t := Decompose(p, h);
    SectionFound(pre, h, s, t, p);
    SectionHasNoOther(h, g, s, t);
    PastSection(pre, h, g, s, t, FindHeading(p, g).value);
  }

  lemma PastSection(pre: string, h: string, g: string, s: string, t: string, at: nat)
    requires Heading(g) && Lines(pre) && IsSection(h, s, t) && FindHeading(s, g).None?
    requires FindHeading(pre + (s + t), g) == Some(at) && |pre| < at
    ensures t != "" && FindHeading(pre, g).None? && FindHeading(t, g).Some? && at == |pre| + |s| + FindHeading(t, g).value
  {
    FindHeadingAppend(pre, s + t, g);
    assert s + "" == s;
    if t != "" {
      FindHeadingAppend(s, t, g);
    }
  }

  lemma LinesBetween(t: string, m: string, rest: string)
    requires SECTION <= t && t == m + rest && Lines(m)
    ensures m == "" || SECTION <= m
  {
    assert forall i :: 0 <= i < |m| ==> m[i] == t[i];
    assert t[0] == SECTION[0] && t[1] == SECTION[1] && t[2] == SECTION[2];
    if |m| >= |SECTION| {
      assert m[..|SECTION|] == t[..|SECTION|];
    }
  }

  /** Both replacements, the earlier section's first. */
  lemma EarlierFirst(h: string, g: string, pre: string, s: string, m: string, u: string, v: string, rh: string, rg: string, p: string)
    requires h != g && Layout(h, g, pre, s, m, u, v) && Replacement(h, rh) && p == pre + (s + (m + (u + v)))
    ensures ReplaceSection(ReplaceSection(p, h, rh), g, rg) == (pre + (TrimEnd(rh) + "\n\n") + m) + TrimEnd(rg) + Sep(v)
  {
    var x := pre + (TrimEnd(rh) + "\n\n");
    ReplaceIs(pre, h, s, m + (u + v), rh, p);
    PadGlue(pre, TrimEnd(rh), m + (u + v));
    Assoc(x, m, u + v);
    ReplacedLines(pre, h, g, rh);
    FindHeadingAppend(x, m, g);
    LinesAppend(x, m);
    ReplaceIs(x + m, g, u, v, rg, (x + m) + (u + v));
  }

  lemma LinesAppend(x: string, m: string)
    requires Lines(x) && Lines(m)
    ensures Lines(x + m)
  {
    if m == "" { assert x + m == x; }
  }

  /** The later section replaced first: the rest of the prompt after the earlier one. */
  lemma LaterReplaced(h: string, g: string, pre: string, s: string, m: string, u: string, v: string, rg: string, p: string)
    requires h != g && Layout(h, g, pre, s, m, u, v) && p == pre + (s + (m + (u + v)))
    ensures ReplaceSection(p, g, rg) == pre + (s + (m + TrimEnd(rg) + Sep(v)))
  {
    var l := pre + s + m;
    Regroup(pre, s, m, u + v);
    SectionHasNoOther(h, g, s, m + (u + v));
    FindHeadingAppend(pre, s, g);
    FindHeadingAppend(pre + s, m, g);
    LinesAppend(pre, s);
    LinesAppend(pre + s, m);
    ReplaceIs(l, g, u, v, rg, p);
    Assoc(l, TrimEnd(rg), Sep(v));
    Regroup(pre, s, m, TrimEnd(rg) + Sep(v));
    Assoc(m, TrimEnd(rg), Sep(v));
  }

  lemma Regroup(a: string, b: string, c: string, d: string)
    ensures a + (b + (c + d)) == (a + b + c) + d
  {
    Assoc(b, c, d);
    Assoc(a, b + c, d);
    Assoc(a, b, c);
  }

  /** Both replacements, the later section's first. When the later section follows at once
      and is removed, the blank line between the two is removed with the earlier one. */
  lemma LaterFirst(h: string, g: string, pre: string, s: string, m: string, u: string, v: string, rh: string, rg: string, p: string)
    requires h != g && Layout(h, g, pre, s, m, u, v) && Replacement(g, rg) && p == pre + (s + (m + (u + v)))
    ensures ReplaceSection(ReplaceSection(p, g, rg), h, rh) ==
      if m == "" && TrimEnd(rg) == "" then pre + TrimEnd(rh) + Sep(v)
      else pre + TrimEnd(rh) + Sep(m + TrimEnd(rg) + Sep(v))
  {
    var q := TrimEnd(rg);
    var t := m + q + Sep(v);
    LaterReplaced(h, g, pre, s, m, u, v, rg, p);
    if m == "" && q == "" {
      assert t == Sep(v);
      if v == "" {
        ReplaceIs(pre, h, s, "", rh, pre + (s + ""));
      } else {
        SectionPadded(h, s, v, m + (u + v));
        Assoc(s, "\n\n", v);
        ReplaceIs(pre, h, s + "\n\n", v, rh, pre + ((s + "\n\n") + v));
      }
    } else {
      StartsSection(g, m, q, v, t);
      ReplaceIs(pre, h, s, t, rh, pre + (s + t));
    }
  }

  lemma StartsSection(g: string, m: string, q: string, v: string, t: string)
    requires Heading(g) && (m == "" || SECTION <= m) && (q == "" || g <= q) && (m != "" || q != "")
    requires t == m + q + Sep(v)
    ensures SECTION <= t
  {
    var x := if m != "" then m else q;
    assert SECTION <= x;
    assert t[..|SECTION|] == x[..|SECTION|];
  }

  /** Where the section of `h` ends. */
  function SectionEnd(p: string, h: string): nat
    requires h != "" && FindHeading(p, h).Some?
  {
    var n := FindHeading(p, h).value + |h|;
    match Find(p[n..], NEXT) case None => |p| case Some(i) => n + i + 1
  }

  /** The section of `g` follows that of `h` at once, and its replacement removes it. */
  predicate RemovesNeighbour(p: string, h: string, g: string, rg: string)
    requires h != "" && g != ""
  {
    && FindHeading(p, h).Some? && FindHeading(p, g) == Some(SectionEnd(p, h))
    && TrimEnd(rg) == ""
  }

  lemma SectionEndIs(pre: string, h: string, s: string, t: string, p: string)
    requires Heading(h) && Lines(pre) && FindHeading(pre, h).None? && IsSection(h, s, t) && p == pre + (s + t)
    ensures FindHeading(p, h) == Some(|pre|) && SectionEnd(p, h) == |pre| + |s|
  {
    hide SectionEnd, FindHeading, LineEnds, OccursAt;
    var body := s[|h|..];
    SectionFound(pre, h, s, t, p);
    SectionRest(pre, h, s, t, p, body);
    SectionBody(h, s, t, body);
    SectionEndAt(p, h, |pre|, body + t);
  }

  lemma SectionEndAt(p: string, h: string, at: nat, rest: string)
    requires h != "" && FindHeading(p, h) == Some(at) && rest == p[at + |h|..]
    ensures SectionEnd(p, h) == match Find(rest, NEXT) case None => |p| case Some(i) => at + |h| + i + 1
  {}

  lemma OrderedCommute(p: string, h: string, g: string, rh: string, rg: string)
    requires Heading(h) && Heading(g) && h != g && Replacement(h, rh) && Replacement(g, rg)
    requires FindHeading(p, h).Some? && FindHeading(p, g).Some? && FindHeading(p, h).value < FindHeading(p, g).value
    ensures ReplaceSection(ReplaceSection(p, h, rh), g, rg) == ReplaceSection(ReplaceSection(p, g, rg), h, rh)
      <==> !RemovesNeighbour(p, h, g, rg)
  {
    hide ReplaceSection, SectionEnd, FindHeading, IsSection, TrimEnd, Replacement;
    var pre, s, m, u, v := LayoutOf(p, h, g);
    SectionEndIs(pre, h, s, m + (u + v), p);
    LaidOutCommute(h, g, pre, s, m, u, v, rh, rg, p);
    assert RemovesNeighbour(p, h, g, rg) <==> |m| == 0 && TrimEnd(rg) == "";
  }

  lemma LaidOutCommute(h: string, g: string, pre: string, s: string, m: string, u: string, v: string, rh: string, rg: string, p: string)
    requires h != g && Layout(h, g, pre, s, m, u, v) && p == pre + (s + (m + (u + v)))
    requires Replacement(h, rh) && Replacement(g, rg)
    ensures ReplaceSection(ReplaceSection(p, h, rh), g, rg) == ReplaceSection(ReplaceSection(p, g, rg), h, rh)
      <==> !(|m| == 0 && TrimEnd(rg) == "")
  {
    EarlierFirst(h, g, pre, s, m, u, v, rh, rg, p);
    LaterFirst(h, g, pre, s, m, u, v, rh, rg, p);
    SidesAgree(pre, TrimEnd(rh), m, TrimEnd(rg), v);
  }

  lemma SidesAgree(pre: string, q: string, m: string, r: string, v: string)
    ensures m + r != "" ==> (pre + (q + "\n\n") + m) + r + Sep(v) == pre + q + Sep(m + r + Sep(v))
    ensures m == "" && r == "" ==> (pre + (q + "\n\n") + m) + r + Sep(v) != pre + q + Sep(v)
  {
    if m + r != "" {
      var t := m + r + Sep(v);
      PadGlue(pre, q, t);
      var x := pre + (q + "\n\n");
      Assoc(x + m, r, Sep(v));
      Assoc(x, m, r + Sep(v));
      Assoc(m, r, Sep(v));
    } else if m == "" {
      assert |(pre + (q + "\n\n") + m) + r + Sep(v)| == |pre + q + Sep(v)| + 2;
    }
  }

  lemma DifferentPlaces(p: string, h: string, g: string)
    requires Heading(h) && Heading(g) && h != g && FindHeading(p, h).Some? && FindHeading(p, g).Some?
    ensures FindHeading(p, h).value != FindHeading(p, g).value
  {
    if FindHeading(p, h).value == FindHeading(p, g).value {
      FindHeadingIsFirst(p, h, 0);
      FindHeadingIsFirst(p, g, 0);
      SamePlaceAt(p, h, g, FindHeading(p, h).value);
    }
  }

  lemma SamePlaceAt(p: string, h: string, g: string, at: nat)
    requires Heading(h) && Heading(g) && HeadingLine(p, h, at) && HeadingLine(p, g, at)
    ensures h == g
  {
    var q := p[at..];
    assert q[..|h|] == h && q[..|g|] == g;
    assert q[0..0 + |g|] == g;
    assert p[at + |h|..] == q[|h|..] && p[at + |g|..] == q[|g|..];
    SamePlace(h, g, q);
  }

  lemma SectionEndPast(p: string, h: string)
    requires h != "" && FindHeading(p, h).Some?
    ensures SectionEnd(p, h) > FindHeading(p, h).value
  {}

  /** Replacing two different sections in either order gives the same prompt, exactly
      unless one of them is removed while it directly follows the other. */
  lemma ReplacementsCommute(p: string, h: string, g: string, rh: string, rg: string)
    requires Heading(h) && Heading(g) && h != g && Replacement(h, rh) && Replacement(g, rg)
    ensures ReplaceSection(ReplaceSection(p, h, rh), g, rg) == ReplaceSection(ReplaceSection(p, g, rg), h, rh)
      <==> !RemovesNeighbour(p, h, g, rg) && !RemovesNeighbour(p, g, h, rh)
  {
    if FindHeading(p, h).None? {
      MissingStays(p, g, h, rg);
    } else if FindHeading(p, g).None? {
      MissingStays(p, h, g, rh);
    } else {
      DifferentPlaces(p, h, g);
      SectionEndPast(p, h);
      SectionEndPast(p, g);
      if FindHeading(p, h).value < FindHeading(p, g).value {
        OrderedCommute(p, h, g, rh, rg);
      } else {
        OrderedCommute(p, g, h, rg, rh);
      }
    }
  }

  lemma Headings()
    ensures Heading(PERSONA_SECTION_HEADING) && Heading(SAFETY_SECTION_HEADING)
    ensures PERSONA_SECTION_HEADING != SAFETY_SECTION_HEADING
  {
    assert |PERSONA_SECTION_HEADING| != |SAFETY_SECTION_HEADING|;
  }

  /** `replace_persona_section` and `replace_safety_section` commute, with that exception. */
  lemma PersonaSafetyCommute(p: string, persona: string, safety: string)
    requires Replacement(PERSONA_SECTION_HEADING, persona) && Replacement(SAFETY_SECTION_HEADING, safety)
    ensures
      var h, g := PERSONA_SECTION_HEADING, SAFETY_SECTION_HEADING;
      ReplaceSection(ReplaceSection(p, h, persona), g, safety) == ReplaceSection(ReplaceSection(p, g, safety), h, persona)
      <==> !RemovesNeighbour(p, h, g, safety) && !RemovesNeighbour(p, g, h, persona)
  {
    Headings();
    ReplacementsCommute(p, PERSONA_SECTION_HEADING, SAFETY_SECTION_HEADING, persona, safety);
  }

  /** Removing the persona that ends a prompt right after the safety section: the order shows. */
  lemma RemovalOrderShows()
    ensures
      var h, g := SAFETY_SECTION_HEADING, PERSONA_SECTION_HEADING;
      var p := h + "\n" + g;
      ReplaceSection(ReplaceSection(p, h, h), g, "") != ReplaceSection(ReplaceSection(p, g, ""), h, h)
  {
    Headings();
    var h, g := SAFETY_SECTION_HEADING, PERSONA_SECTION_HEADING;
    Neighbours(h, g, h + "\n" + g);
    assert TrimEnd(h) == h && TrimEnd("") == "";
    ReplacementsCommute(h + "\n" + g, h, g, h, "");
  }

  lemma Neighbours(h: string, g: string, p: string)
    requires Heading(h) && Heading(g) && h != g && p == h + "\n" + g
    ensures FindHeading(p, h).Some? && FindHeading(p, g) == Some(SectionEnd(p, h))
    ensures IsSection(h, h, "")
  {
    var s := h + "\n";
    HeadingAlone(h);
    HeadingAndLine(h, g);
    FirstNeighbour(h, s, g, p);
    SectionHasNoOther(h, g, s, g);
    SecondNeighbour(s, g, p);
  }

  lemma FirstNeighbour(h: string, s: string, g: string, p: string)
    requires Heading(h) && IsSection(h, s, g) && p == s + g
    ensures FindHeading(p, h).Some? && SectionEnd(p, h) == |s|
  {
    assert p == "" + (s + g);
    EmptyHasNone(h);
    SectionEndIs("", h, s, g, p);
  }

  lemma SecondNeighbour(s: string, g: string, p: string)
    requires Heading(g) && Lines(s) && FindHeading(s, g).None? && p == s + g
    ensures FindHeading(p, g) == Some(|s|)
  {
    HeadingAlone(g);
    assert p == s + (g + "");
    SectionFound(s, g, g, "", p);
  }

  lemma HeadingAlone(h: string)
    requires Heading(h)
    ensures IsSection(h, h, "")
  {
    assert h[|h|..] == "" && Find("", NEXT).None?;
  }

  lemma HeadingAndLine(h: string, g: string)
    requires Heading(h) && Heading(g)
    ensures IsSection(h, h + "\n", g)
  {
    var s := h + "\n";
    assert s[..|h|] == h && s[|h|..] == "\n" && Find("\n", NEXT).None?;
  }

  lemma EmptyHasNone(h: string)
    requires Heading(h)
    ensures FindHeading("", h).None?
  {
    BlankHasNone("", h);
  }

  /** A longer heading that only begins with this one is never taken for it. */
  lemma PersonalityIsNotPersona(p: string, at: nat)
    requires OccursAt(p, "## Personality", at)
    ensures FindHeading(p, PERSONA_SECTION_HEADING) != Some(at)
  {
    FindHeadingIsFirst(p, PERSONA_SECTION_HEADING, 0);
    var w := p[at..at + |"## Personality"|];
    var n := at + |PERSONA_SECTION_HEADING|;
    assert w[|PERSONA_SECTION_HEADING|] == 'l' == p[n];
    assert p[n..][0] == p[n];
  }

  // ---------------------------------------------------------------------------
  // Splicing into a built prompt against building it again

  lemma {:induction false} BuildAppend(a: seq<string>, b: seq<string>)
    ensures Build(a + b) == Build(a) + Build(b)
  {
    if a == [] {
      assert a + b == b;
      assert "" + Build(b) == Build(b);
    } else {
      assert (a + b)[1..] == a[1..] + b;
      BuildAppend(a[1..], b);
      Assoc(BuildPart(a[0]), Build(a[1..]), Build(b));
    }
  }

  /** A section on its own: its text without trailing whitespace and a blank line, or nothing. */
  lemma BuildOne(part: string)
    ensures Build([part]) == if Blank(part) then "" else TrimEnd(part) + "\n\n"
  {
    TrimTrims(part);
    assert [part][1..] == [];
    assert BuildPart(part) + "" == BuildPart(part);
  }

  lemma {:induction false} BuildLines(parts: seq<string>)
    ensures Lines(Build(parts))
  {
    if parts != [] {
      BuildLines(parts[1..]);
      LinesAppend(BuildPart(parts[0]), Build(parts[1..]));
    }
  }

  lemma BuildSplit(before: seq<string>, part: string, later: seq<string>)
    ensures Build(before + [part] + later) == Build(before) + (BuildPart(part) + Build(later))
  {
    BuildAppend(before + [part], later);
    BuildAppend(before, [part]);
    assert Build([part]) == BuildPart(part) + "" == BuildPart(part);
    Assoc(Build(before), BuildPart(part), Build(later));
  }

  /** Splicing a new section into a cached prompt gives the prompt a rebuild would give,
      exactly when the new section is non-blank and some later section is, or neither:
      the splice leaves no blank line at the end, and one before what follows. */
  lemma SpliceIsRebuild(h: string, before: seq<string>, cached: string, later: seq<string>, current: string)
    requires Heading(h) && FindHeading(Build(before), h).None?
    requires Trim(cached) != "" && IsSection(h, TrimEnd(cached), "")
    requires Build(later) == "" || SECTION <= Build(later)
    ensures ReplaceSection(Build(before + [cached] + later), h, current) == Build(before + [current] + later)
      <==> (Trim(current) != "" <==> Build(later) != "")
  {
    var pre, q, t := Build(before), TrimEnd(cached), Build(later);
    BuildSplit(before, cached, later);
    BuildSplit(before, current, later);
    BuildLines(before);
    SectionPadded(h, q, t, "");
    ReplaceIs(pre, h, q + "\n\n", t, current, pre + ((q + "\n\n") + t));
    TrimEndBlank(current);
    SpliceLengths(pre, current, t);
  }

  lemma TrimEndBlank(s: string)
    ensures TrimEnd(s) == "" <==> Trim(s) == ""
  {
    TrimTrims(s);
    TrimEndSpec(s);
    if TrimEnd(s) != "" {
      var n := |TrimEnd(s)| - 1;
      assert s[n] == s[..|TrimEnd(s)|][n];
    } else {
      assert s[0..] == s;
    }
  }

  lemma SpliceLengths(pre: string, current: string, t: string)
    requires TrimEnd(current) == "" <==> Trim(current) == ""
    ensures pre + TrimEnd(current) + Sep(t) == pre + (BuildPart(current) + t) <==> (Trim(current) != "" <==> t != "")
  {
    var q := TrimEnd(current);
    if Trim(current) == "" {
      assert |pre + q + Sep(t)| == |pre| + |Sep(t)| && |pre + (BuildPart(current) + t)| == |pre| + |t|;
      if t == "" { assert pre + q + "" == pre + ("" + ""); }
    } else if t == "" {
      assert |pre + q + Sep(t)| == |pre| + |q| && |pre + (BuildPart(current) + t)| == |pre| + |q| + 2;
    } else {
      PadGlue(pre, q, t);
    }
  }
}
