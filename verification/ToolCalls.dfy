/** `<tool_call>` blocks in a model's text: `parse_xml_tool_calls` of
    `src/agent/dispatcher.rs`. The JSON reader is the function `json`. */
module ToolCalls {
  import opened Text

  const OPEN: string := "<tool_call>"
  const CLOSE: string := "</tool_call>"

  /** What the JSON reader makes of a block: its string `name` (none when absent or not
      a string) and its `arguments` (none when absent), or nothing when malformed. */
  datatype Block<J> = Malformed | Parsed(name: Option<string>, arguments: Option<J>)

  datatype Call<J> = Call(name: string, arguments: J)

  /** The reader, with its empty object for missing arguments. */
  datatype Json<!J> = Json(read: string -> Block<J>, emptyObject: J)

  datatype Result<J> = Result(text: string, calls: seq<Call<J>>)

  /** The call in one block, if it is well formed and named. */
  function CallOf<J>(json: Json<J>, inner: string): seq<Call<J>> {
    match json.read(Trim(inner))
    case Malformed => []
    case Parsed(name, arguments) =>
      var n := match name case Some(x) => x case None => "";
      if n == "" then []
      else [Call(n, match arguments case Some(a) => a case None => json.emptyObject)]
  }

  function TextPart(s: string): seq<string> {
    if Trim(s) == "" then [] else [Trim(s)]
  }

  /** The next block: the text before it, its inside, and what follows. */
  datatype Cut = Cut(before: string, inner: string, rest: string)

  function NextBlock(s: string): (r: Option<Cut>)
    ensures r.Some? ==> |r.value.rest| < |s|
  {
    match Find(s, OPEN)
    case None => None
    case Some(start) =>
      match Find(s[start..], CLOSE)
      case None => None
      case Some(end) =>
        CloseAfterOpen(s, start, end);
        Some(Cut(s[..start], s[start + |OPEN|..start + end], s[start + end + |CLOSE|..]))
  }

  /** The closer is found after the opener, not inside it: the block slice is in bounds. */
  lemma CloseAfterOpen(s: string, start: nat, end: nat)
    requires Find(s, OPEN) == Some(start) && Find(s[start..], CLOSE) == Some(end)
    ensures |OPEN| <= end && start + end + |CLOSE| <= |s|
  {
    var t := s[start..];
    assert t[..|OPEN|] == OPEN;
    assert t[end..end + |CLOSE|] == CLOSE;
    assert t[..|OPEN|][1] == t[1];
    assert t[end..end + |CLOSE|][0] == t[end] && t[end..end + |CLOSE|][1] == t[end + 1];
    assert forall i :: 1 <= i < |OPEN| ==> t[..|OPEN|][i] == t[i] && OPEN[i] != '<';
  }

  /** What the loop gathers from a text, given what it has already. */
  function Scan<J>(json: Json<J>, s: string, parts: seq<string>, calls: seq<Call<J>>): (seq<string>, seq<Call<J>>)
    decreases |s|
  {
    match NextBlock(s)
    case Some(c) => Scan(json, c.rest, parts + TextPart(c.before), calls + CallOf(json, c.inner))
    case None =>
      // An opener without a closer: the text before it is taken, and then the whole again.
      match Find(s, OPEN)
      case None => (parts + TextPart(s), calls)
      case Some(start) => (parts + TextPart(s[..start]) + TextPart(s), calls)
  }

  function Parse<J>(json: Json<J>, s: string): Result<J> {
    var (parts, calls) := Scan(json, s, [], []);
    Result(Join(parts, "\n"), calls)
  }

  lemma ScanBlock<J>(json: Json<J>, s: string, parts: seq<string>, calls: seq<Call<J>>, c: Cut)
    requires NextBlock(s) == Some(c)
    ensures Scan(json, s, parts, calls) == Scan(json, c.rest, parts + TextPart(c.before), calls + CallOf(json, c.inner))
  {}

  lemma ScanUnclosed<J>(json: Json<J>, s: string, parts: seq<string>, calls: seq<Call<J>>, start: nat)
    requires Find(s, OPEN) == Some(start) && Find(s[start..], CLOSE).None?
    ensures Scan(json, s, parts, calls) == (parts + TextPart(s[..start]) + TextPart(s), calls)
  {}

  lemma ScanPlain<J>(json: Json<J>, s: string, parts: seq<string>, calls: seq<Call<J>>)
    requires Find(s, OPEN).None?
    ensures Scan(json, s, parts, calls) == (parts + TextPart(s), calls)
  {}

  lemma NextBlockIs(s: string, start: nat, end: nat, stop: nat, c: Cut)
    requires Find(s, OPEN) == Some(start) && Find(s[start..], CLOSE) == Some(end) && stop == start + end
    requires |OPEN| <= end && stop + |CLOSE| <= |s|
    requires c == Cut(s[..start], s[start + |OPEN|..stop], s[stop + |CLOSE|..])
    ensures NextBlock(s) == Some(c)
  {}

  /** The call of one block, as the loop collects it. */
  method ReadBlock<J>(json: Json<J>, inner: string, calls: seq<Call<J>>) returns (r: seq<Call<J>>)
    ensures r == calls + CallOf(json, inner)
  {
    r := calls;
    match json.read(Trim(inner)) {
      case Malformed =>
      case Parsed(name, arguments) =>
        var n := match name case Some(x) => x case None => "";
        if n != "" {
          r := r + [Call(n, match arguments case Some(a) => a case None => json.emptyObject)];
        }
    }
  }

  /** `parse_xml_tool_calls`. */
  method ParseXmlToolCalls<J>(json: Json<J>, response: string) returns (text: string, calls: seq<Call<J>>)
    ensures Result(text, calls) == Parse(json, response)
  {
    var textParts: seq<string> := [];
    calls := [];
    var remaining := response;
    var start := Find(remaining, OPEN);
    while start.Some?
      invariant start == Find(remaining, OPEN)
      invariant Scan(json, remaining, textParts, calls) == Scan(json, response, [], [])
      decreases |remaining|
    {
      var at := start.value;
      var before := remaining[..at];
      ghost var parts, known := textParts, calls;
      if Trim(before) != "" {
        textParts := textParts + [Trim(before)];
      }
      assert textParts == parts + TextPart(before);
      var end := Find(remaining[at..], CLOSE);
      if end.None? {
        ScanUnclosed(json, remaining, parts, calls, at);
        break;
      }
      CloseAfterOpen(remaining, at, end.value);
      var stop := at + end.value;
      ghost var c := Cut(before, remaining[at + |OPEN|..stop], remaining[stop + |CLOSE|..]);
      NextBlockIs(remaining, at, end.value, stop, c);
      ScanBlock(json, remaining, parts, known, c);
      calls := ReadBlock(json, remaining[at + |OPEN|..stop], calls);
      remaining := remaining[stop + |CLOSE|..];
      start := Find(remaining, OPEN);
    }
    if start.None? { ScanPlain(json, remaining, textParts, calls); }
    ghost var parts := textParts;
    if Trim(remaining) != "" {
      textParts := textParts + [Trim(remaining)];
    }
    assert textParts == parts + TextPart(remaining);
    text := Join(textParts, "\n");
  }

  // ---------------------------------------------------------------------------
  // A text as alternating segments and blocks

  /** Text, then a block: `text<tool_call>block</tool_call>`. */
  datatype Segment = Segment(text: string, block: string)

  function Assemble(segs: seq<Segment>, last: string): string {
    if segs == [] then last
    else segs[0].text + ("<tool_call>" + (segs[0].block + ("</tool_call>" + Assemble(segs[1..], last))))
  }

  /** No text holds an opener and no block holds a closer. */
  predicate WellCut(segs: seq<Segment>) {
    forall i :: 0 <= i < |segs| ==> Find(segs[i].text, OPEN).None? && Find(segs[i].block, CLOSE).None?
  }

  function Texts(segs: seq<Segment>): seq<string> {
    if segs == [] then [] else TextPart(segs[0].text) + Texts(segs[1..])
  }

  function Calls<J>(json: Json<J>, segs: seq<Segment>): seq<Call<J>> {
    if segs == [] then [] else CallOf(json, segs[0].block) + Calls(json, segs[1..])
  }

  /** A pattern whose first character is nowhere else in it is found where it is put. */
  lemma FindBorderless(a: string, pat: string, x: string, s: string)
    requires pat != "" && Find(a, pat).None? && s == a + (pat + x)
    requires forall i :: 1 <= i < |pat| ==> pat[i] != pat[0]
    ensures Find(s, pat) == Some(|a|)
  {
    assert s[|a|..|a| + |pat|] == pat;
    assert s[|a|] == pat[0];
    forall j: nat | j < |a|
      ensures !OccursAt(s, pat, j)
    {
      if j + |pat| <= |a| {
        assert s[j..j + |pat|] == a[j..j + |pat|];
        assert !OccursAt(a, pat, j);
      } else {
        assert s[j..j + |pat|][|a| - j] == s[|a|];
      }
    }
    FindIs(s, pat, |a|);
  }

  lemma NoCloseInOpen(b: string)
    requires Find(b, CLOSE).None?
    ensures Find(OPEN + b, CLOSE).None?
  {
    var s := OPEN + b;
    assert s[|OPEN|..] == b;
    forall j: nat
      ensures !OccursAt(s, CLOSE, j)
    {
      if |OPEN| <= j {
        OccursInSuffix(s, CLOSE, |OPEN|, j - |OPEN|);
        assert !OccursAt(b, CLOSE, j - |OPEN|);
      } else if j + |CLOSE| <= |s| {
        assert s[j..j + |CLOSE|][0] == OPEN[j] && s[j..j + |CLOSE|][1] == s[j + 1];
      }
    }
  }

  lemma NextBlockAssembled(t: string, b: string, rest: string, s: string)
    requires Find(t, OPEN).None? && Find(b, CLOSE).None?
    requires s == t + (OPEN + (b + (CLOSE + rest)))
    ensures NextBlock(s) == Some(Cut(t, b, rest))
  {
    FindBorderless(t, OPEN, b + (CLOSE + rest), s);
    NoCloseInOpen(b);
    var u := s[|t|..];
    assert u == OPEN + b + (CLOSE + rest);
    FindBorderless(OPEN + b, CLOSE, rest, u);
    var end := |OPEN| + |b|;
    var stop := |t| + end;
    PartsAt(t, OPEN, b, CLOSE, rest, s, |t| + |OPEN|, stop, stop + |CLOSE|);
    NextBlockIs(s, |t|, end, stop, Cut(t, b, rest));
  }

  lemma PartsAt(a: string, b: string, c: string, d: string, e: string, s: string, j: nat, k: nat, l: nat)
    requires s == a + (b + (c + (d + e))) && j == |a| + |b| && k == j + |c| && l == k + |d|
    ensures s[..|a|] == a && s[j..k] == c && s[l..] == e
  {}

  lemma {:induction false} ScanAssembled<J>(json: Json<J>, segs: seq<Segment>, last: string, parts: seq<string>, calls: seq<Call<J>>)
    requires WellCut(segs)
    ensures Scan(json, Assemble(segs, last), parts, calls) == Scan(json, last, parts + Texts(segs), calls + Calls(json, segs))
    decreases |segs|
  {
    if segs == [] {
      assert parts + [] == parts && calls + [] == calls;
    } else {
      var t, b, rest := segs[0].text, segs[0].block, Assemble(segs[1..], last);
      NextBlockAssembled(t, b, rest, Assemble(segs, last));
      ScanBlock(json, Assemble(segs, last), parts, calls, Cut(t, b, rest));
      ScanAssembled(json, segs[1..], last, parts + TextPart(t), calls + CallOf(json, b));
      Assoc(parts, TextPart(t), Texts(segs[1..]));
      Assoc(calls, CallOf(json, b), Calls(json, segs[1..]));
    }
  }

  /** Every text is segments and blocks, then a last part with no whole block in it. */
  lemma {:induction false} Segments(s: string) returns (segs: seq<Segment>, last: string)
    ensures WellCut(segs) && NextBlock(last).None? && s == Assemble(segs, last)
    decreases |s|
  {
    match NextBlock(s)
    case None =>
      segs, last := [], s;
    case Some(c) =>
      CutParts(s, c);
      var segs', last' := Segments(c.rest);
      segs, last := [Segment(c.before, c.inner)] + segs', last';
      assert segs[1..] == segs';
  }

  lemma CutParts(s: string, c: Cut)
    requires NextBlock(s) == Some(c)
    ensures Find(c.before, OPEN).None? && Find(c.inner, CLOSE).None?
    ensures s == c.before + (OPEN + (c.inner + (CLOSE + c.rest)))
  {
    var at := Find(s, OPEN).value;
    var end := Find(s[at..], CLOSE).value;
    CloseAfterOpen(s, at, end);
    var i, j, k := at + |OPEN|, at + end, at + end + |CLOSE|;
    NextBlockIs(s, at, end, j, Cut(s[..at], s[i..j], s[k..]));
    BlockParts(s, s[at..], at, i, j, k, end, s[i..j]);
  }

  /** The five runs of a text around its first block, by their positions. */
  lemma BlockParts(s: string, u: string, at: nat, i: nat, j: nat, k: nat, end: nat, inner: string)
    requires Find(s, OPEN) == Some(at) && u == s[at..] && Find(u, CLOSE) == Some(end)
    requires i == at + |OPEN| && j == at + end && k == j + |CLOSE| && i <= j && k <= |s| && inner == s[i..j]
    ensures Find(s[..at], OPEN).None? && Find(inner, CLOSE).None?
    ensures s == s[..at] + (OPEN + (inner + (CLOSE + s[k..])))
  {
    assert u[end..end + |CLOSE|] == s[j..k];
    assert u[|OPEN|..end] == s[i..j];
    FiveParts(s, at, i, j, k);
    BeforeFirst(s, OPEN, at);
    InsideFirst(u, CLOSE, |OPEN|, end);
  }

  lemma FiveParts(s: string, i: nat, j: nat, k: nat, l: nat)
    requires i <= j <= k <= l <= |s|
    ensures s == s[..i] + (s[i..j] + (s[j..k] + (s[k..l] + s[l..])))
  {}

  lemma BeforeFirst(s: string, pat: string, k: nat)
    requires Find(s, pat) == Some(k) && pat != ""
    ensures Find(s[..k], pat).None?
  {
    forall j: nat
      ensures !OccursAt(s[..k], pat, j)
    {
      if j + |pat| <= k {
        assert s[..k][j..j + |pat|] == s[j..j + |pat|];
        assert !OccursAt(s, pat, j);
      }
    }
  }

  lemma InsideFirst(s: string, pat: string, from: nat, k: nat)
    requires Find(s, pat) == Some(k) && pat != "" && from <= k
    ensures Find(s[from..k], pat).None?
  {
    BeforeFirst(s, pat, k);
    assert s[from..k] == s[..k][from..];
    forall j: nat
      ensures !OccursAt(s[from..k], pat, j)
    {
      OccursInSuffix(s[..k], pat, from, j);
    }
  }

  // ---------------------------------------------------------------------------
  // What a block and a segment give, independently of the loop

  /** A block gives the call it names, with its arguments or else the empty object; a
      malformed or unnamed one gives none. */
  predicate Gives<J(==)>(json: Json<J>, block: string, call: Option<Call<J>>) {
    match json.read(Trim(block))
    case Malformed => call.None?
    case Parsed(None, _) => call.None?
    case Parsed(Some(name), None) => call == if name == "" then None else Some(Call(name, json.emptyObject))
    case Parsed(Some(name), Some(arguments)) => call == if name == "" then None else Some(Call(name, arguments))
  }

  /** The calls that are there, in order. */
  function Present<J>(calls: seq<Option<Call<J>>>): seq<Call<J>> {
    if calls == [] then []
    else match calls[0] case None => Present(calls[1..]) case Some(c) => [c] + Present(calls[1..])
  }

  /** The lines that are not blank, trimmed, in order. */
  function NonBlank(lines: seq<string>): seq<string> {
    if lines == [] then []
    else if Blank(lines[0]) then NonBlank(lines[1..])
    else [Trim(lines[0])] + NonBlank(lines[1..])
  }

  function SegmentTexts(segs: seq<Segment>): (r: seq<string>)
    ensures |r| == |segs|
  {
    if segs == [] then [] else [segs[0].text] + SegmentTexts(segs[1..])
  }

  lemma {:induction false} CallsArePresent<J>(json: Json<J>, segs: seq<Segment>, calls: seq<Option<Call<J>>>)
    requires |calls| == |segs| && forall i :: 0 <= i < |segs| ==> Gives(json, segs[i].block, calls[i])
    ensures Calls(json, segs) == Present(calls)
  {
    if segs != [] {
      assert forall i :: 0 <= i < |segs[1..]| ==> segs[1..][i] == segs[i + 1] && calls[1..][i] == calls[i + 1];
      CallsArePresent(json, segs[1..], calls[1..]);
      assert Gives(json, segs[0].block, calls[0]);
      assert [] + Calls(json, segs[1..]) == Calls(json, segs[1..]);
    }
  }

  lemma {:induction false} TextsAreNonBlank(segs: seq<Segment>, last: string)
    ensures Texts(segs) + TextPart(last) == NonBlank(SegmentTexts(segs) + [last])
  {
    if segs == [] {
      TrimTrims(last);
      assert [] + TextPart(last) == TextPart(last);
      assert [] + [last] == [last] && [last][1..] == [];
    } else {
      TextsAreNonBlank(segs[1..], last);
      TrimTrims(segs[0].text);
      var all := SegmentTexts(segs) + [last];
      assert all[1..] == SegmentTexts(segs[1..]) + [last];
      Assoc(TextPart(segs[0].text), Texts(segs[1..]), TextPart(last));
      assert [] + NonBlank(all[1..]) == NonBlank(all[1..]);
    }
  }

  /** A text whose every opener is closed gives exactly the calls of its well-formed, named
      blocks, in order, and its non-blank segments, trimmed and joined by newlines. */
  lemma ParseClosed<J>(json: Json<J>, segs: seq<Segment>, last: string, calls: seq<Option<Call<J>>>)
    requires WellCut(segs) && Find(last, OPEN).None?
    requires |calls| == |segs| && forall i :: 0 <= i < |segs| ==> Gives(json, segs[i].block, calls[i])
    ensures Parse(json, Assemble(segs, last)) == Result(Join(NonBlank(SegmentTexts(segs) + [last]), "\n"), Present(calls))
  {
    ScanClosed(json, segs, last);
    TextsAreNonBlank(segs, last);
    CallsArePresent(json, segs, calls);
  }

  /** Calls written as blocks are read back: all of them, in order, with their arguments. */
  lemma CallsReadBack<J>(json: Json<J>, segs: seq<Segment>, last: string, calls: seq<Call<J>>)
    requires WellCut(segs) && Find(last, OPEN).None? && |calls| == |segs|
    requires forall i :: 0 <= i < |segs| ==>
      calls[i].name != "" && json.read(Trim(segs[i].block)) == Parsed(Some(calls[i].name), Some(calls[i].arguments))
    ensures Parse(json, Assemble(segs, last)).calls == calls
  {
    var some := seq(|calls|, i requires 0 <= i < |calls| => Some(calls[i]));
    ParseClosed(json, segs, last, some);
    AllPresent(calls, some);
  }

  lemma {:induction false} AllPresent<J>(calls: seq<Call<J>>, some: seq<Option<Call<J>>>)
    requires |some| == |calls| && forall i :: 0 <= i < |calls| ==> some[i] == Some(calls[i])
    ensures Present(some) == calls
  {
    if calls != [] {
      assert forall i :: 0 <= i < |calls[1..]| ==> some[1..][i] == some[i + 1] && calls[1..][i] == calls[i + 1];
      AllPresent(calls[1..], some[1..]);
      assert calls == [calls[0]] + calls[1..];
    }
  }

  lemma ScanClosed<J>(json: Json<J>, segs: seq<Segment>, last: string)
    requires WellCut(segs) && Find(last, OPEN).None?
    ensures Parse(json, Assemble(segs, last)) == Result(Join(Texts(segs) + TextPart(last), "\n"), Calls(json, segs))
  {
    ScanAssembled(json, segs, last, [], []);
    assert [] + Texts(segs) == Texts(segs) && [] + Calls(json, segs) == Calls(json, segs);
    ScanPlain(json, last, Texts(segs), Calls(json, segs));
  }

  /** An unclosed opener: its blocks count as before, and the text in front of the opener
      is emitted, then again with the rest. */
  lemma ParseUnclosed<J>(json: Json<J>, segs: seq<Segment>, last: string, start: nat, calls: seq<Option<Call<J>>>)
    requires WellCut(segs) && Find(last, OPEN) == Some(start) && Find(last[start..], CLOSE).None?
    requires |calls| == |segs| && forall i :: 0 <= i < |segs| ==> Gives(json, segs[i].block, calls[i])
    ensures Parse(json, Assemble(segs, last)) ==
      Result(Join(NonBlank(SegmentTexts(segs) + [last[..start]]) + NonBlank([last]), "\n"), Present(calls))
  {
    ScanOpen(json, segs, last, start);
    TextsAreNonBlank(segs, last[..start]);
    TextsAreNonBlank([], last);
    assert [] + TextPart(last) == TextPart(last) && [] + [last] == [last];
    CallsArePresent(json, segs, calls);
  }

  lemma ScanOpen<J>(json: Json<J>, segs: seq<Segment>, last: string, start: nat)
    requires WellCut(segs) && Find(last, OPEN) == Some(start) && Find(last[start..], CLOSE).None?
    ensures Parse(json, Assemble(segs, last)) ==
      Result(Join(Texts(segs) + TextPart(last[..start]) + TextPart(last), "\n"), Calls(json, segs))
  {
    ScanAssembled(json, segs, last, [], []);
    assert [] + Texts(segs) == Texts(segs) && [] + Calls(json, segs) == Calls(json, segs);
    ScanUnclosed(json, last, Texts(segs), Calls(json, segs), start);
  }

  lemma {:induction false} JoinLength(a: seq<string>, b: seq<string>, x: string, sep: string)
    requires b != []
    ensures |Join(a + [x] + b, sep)| == |Join(a + b, sep)| + |x| + |sep|
  {
    if a == [] {
      assert a + [x] + b == [x] + b && a + b == b;
      assert ([x] + b)[1..] == b;
    } else {
      assert (a + [x] + b)[1..] == a[1..] + [x] + b;
      assert (a + b)[1..] == a[1..] + b;
      JoinLength(a[1..], b, x, sep);
    }
  }

  /** No text is said twice exactly when the last opener is closed or only blank text
      comes before it: otherwise that text is emitted again with the unclosed rest. */
  lemma TextOnceIff<J>(json: Json<J>, segs: seq<Segment>, last: string)
    requires WellCut(segs) && NextBlock(last).None?
    ensures Parse(json, Assemble(segs, last)).text == Join(NonBlank(SegmentTexts(segs) + [last]), "\n")
      <==> (Find(last, OPEN).None? || Blank(last[..Find(last, OPEN).value]))
  {
    TextsAreNonBlank(segs, last);
    match Find(last, OPEN)
    case None =>
      ScanClosed(json, segs, last);
    case Some(start) =>
      UnclosedEnd(last, start);
      ScanOpen(json, segs, last, start);
      var before := last[..start];
      TrimTrims(before);
      TrimTrims(last);
      if Blank(before) {
        assert Texts(segs) + [] == Texts(segs);
      } else {
        assert !Blank(last) by { var i :| 0 <= i < |before| && !IsWhitespace(before[i]); assert !IsWhitespace(last[i]); }
        JoinLength(Texts(segs), TextPart(last), Trim(before), "\n");
      }
  }

  lemma UnclosedEnd(last: string, start: nat)
    requires NextBlock(last).None? && Find(last, OPEN) == Some(start)
    ensures Find(last[start..], CLOSE).None?
  {}
}
