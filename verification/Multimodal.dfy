/** Image markers in message text: `src/multimodal.rs`. */
module Multimodal {
  import opened Text

  const MARKER: string := "[IMAGE:"

  /** A run of the message that is copied to the cleaned text, or cut out as a marker. */
  datatype Piece = Copied(text: string) | Marker(text: string, reference: string)

  /** Distance to the `]` that closes the marker, skipping nested pairs. */
  function DepthScan(s: string, depth: nat): (r: Option<nat>)
    ensures r.Some? ==> r.value < |s| && s[r.value] == ']'
  {
    if s == "" then None
    else if s[0] == ']' && depth == 0 then Some(0)
    else
      var d := if s[0] == '[' then depth + 1 else if s[0] == ']' then depth - 1 else depth;
      match DepthScan(s[1..], d)
      case Some(k) => Some(k + 1)
      case None => None
  }

  /** The depth scan, else the first `]` (`src/multimodal.rs:67-88`). */
  function CloseOf(s: string): (r: Option<nat>)
    ensures r.Some? ==> r.value < |s|
  {
    match DepthScan(s, 0)
    case Some(k) => Some(k)
    case None => IndexOf(s, ']')
  }

  /** A closed marker: it spans `[start, cut)` and refers to `reference`. */
  datatype Span = Span(start: nat, cut: nat, reference: string)

  predicate IsSpan(s: string, m: Span) {
    m.start + |MARKER| < m.cut <= |s|
  }

  /** The first marker, if it is there and closed. */
  function NextMarker(s: string): (r: Option<Span>)
    ensures r.Some? ==> IsSpan(s, r.value)
  {
    match Find(s, MARKER)
    case None => None
    case Some(k) =>
      match CloseOf(s[k + |MARKER|..])
      case None => None
      case Some(e) => Some(Span(k, k + |MARKER| + e + 1, Trim(s[k + |MARKER|..][..e])))
  }

  /** What one closed marker contributes: a blank one is copied as it stands. */
  function Head(s: string, m: Span): seq<Piece>
    requires m.start <= m.cut <= |s|
  {
    if m.reference == "" then [Copied(s[..m.cut])]
    else [Copied(s[..m.start]), Marker(s[m.start..m.cut], m.reference)]
  }

  /** The message cut into pieces, in order. */
  function Pieces(s: string): seq<Piece>
    decreases |s|
  {
    match NextMarker(s)
    case None => if s == "" then [] else [Copied(s)]
    case Some(m) => Head(s, m) + Pieces(s[m.cut..])
  }

  function CopiedText(ps: seq<Piece>): string {
    if ps == [] then ""
    else (if ps[0].Copied? then ps[0].text else "") + CopiedText(ps[1..])
  }

  function References(ps: seq<Piece>): seq<string> {
    if ps == [] then []
    else (if ps[0].Marker? then [ps[0].reference] else []) + References(ps[1..])
  }

  function AllText(ps: seq<Piece>): string {
    if ps == [] then "" else ps[0].text + AllText(ps[1..])
  }

  datatype Parsed = Parsed(cleaned: string, refs: seq<string>)

  /** What `parse_image_markers` returns. */
  function Parse(content: string): Parsed {
    var ps := Pieces(content);
    Parsed(Trim(CopiedText(ps)), References(ps))
  }

  lemma PiecesAppend(a: seq<Piece>, b: seq<Piece>)
    ensures AllText(a + b) == AllText(a) + AllText(b)
    ensures CopiedText(a + b) == CopiedText(a) + CopiedText(b)
    ensures References(a + b) == References(a) + References(b)
  {
    AllTextAppend(a, b);
    CopiedTextAppend(a, b);
    ReferencesAppend(a, b);
  }

  lemma {:induction false} AllTextAppend(a: seq<Piece>, b: seq<Piece>)
    ensures AllText(a + b) == AllText(a) + AllText(b)
  {
    if a == [] {
      assert a + b == b;
    } else {
      assert (a + b)[1..] == a[1..] + b;
      AllTextAppend(a[1..], b);
    }
  }

  lemma {:induction false} CopiedTextAppend(a: seq<Piece>, b: seq<Piece>)
    ensures CopiedText(a + b) == CopiedText(a) + CopiedText(b)
  {
    if a == [] {
      assert a + b == b;
    } else {
      assert (a + b)[1..] == a[1..] + b;
      CopiedTextAppend(a[1..], b);
    }
  }

  lemma {:induction false} ReferencesAppend(a: seq<Piece>, b: seq<Piece>)
    ensures References(a + b) == References(a) + References(b)
  {
    if a == [] {
      assert a + b == b;
    } else {
      assert (a + b)[1..] == a[1..] + b;
      ReferencesAppend(a[1..], b);
      Assoc(if a[0].Marker? then [a[0].reference] else [], References(a[1..]), References(b));
    }
  }

  lemma HeadTexts(s: string, m: Span)
    requires m.start <= m.cut <= |s|
    ensures AllText(Head(s, m)) == s[..m.cut]
    ensures CopiedText(Head(s, m)) == if m.reference == "" then s[..m.cut] else s[..m.start]
    ensures References(Head(s, m)) == if m.reference == "" then [] else [m.reference]
  {
    if m.reference != "" {
      var c, k := [Copied(s[..m.start])], [Marker(s[m.start..m.cut], m.reference)];
      PiecesAppend(c, k);
      assert Head(s, m) == c + k;
      assert s[..m.start] + s[m.start..m.cut] == s[..m.cut];
    }
  }

  /** A removed piece is one whole marker, around its non-blank reference. */
  predicate WholeMarker(p: Piece) {
    p.Marker? ==>
      && |MARKER| < |p.text| && p.text[..|MARKER|] == MARKER && p.text[|p.text| - 1] == ']'
      && p.reference == Trim(p.text[|MARKER|..|p.text| - 1]) && p.reference != ""
  }

  lemma HeadIsWhole(s: string, m: Span)
    requires NextMarker(s) == Some(m)
    ensures forall p :: p in Head(s, m) ==> WholeMarker(p)
  {
    hide NextMarker, CloseOf, Trim;
    var u, e := MarkerParts(s, m);
    CloseIsBracket(u);
    SpanText(s, m.start, m.start + |MARKER|, m.cut, u, e, s[m.start..m.cut]);
    NotBlankReference(s, m, s[m.start..m.cut]);
  }

  lemma CloseIsBracket(u: string)
    ensures CloseOf(u).Some? ==> u[CloseOf(u).value] == ']'
  {}

  lemma SpanText(s: string, start: nat, n: nat, cut: nat, u: string, e: nat, t: string)
    requires start + |MARKER| == n <= |s| && u == s[n..] && e < |u| && u[e] == ']' && cut == n + e + 1
    requires t == s[start..cut] && OccursAt(s, MARKER, start)
    ensures |MARKER| < |t| && t[..|MARKER|] == MARKER && t[|t| - 1] == ']' && t[|MARKER|..|t| - 1] == u[..e]
  {
    assert t[..|MARKER|] == s[start..start + |MARKER|];
    var last := |t| - 1;
    assert last == |MARKER| + e;
    assert t[last] == s[cut - 1] == u[e];
    SliceOfSlice(s, start, cut, t, |MARKER|, last, n, cut - 1);
    SliceOfSlice(s, n, |s|, u, 0, e, n, cut - 1);
  }

  lemma SliceOfSlice(s: string, a: nat, b: nat, t: string, i: nat, j: nat, p: nat, q: nat)
    requires a <= b <= |s| && t == s[a..b] && i <= j <= |t| && p == a + i && q == a + j
    ensures t[i..j] == s[p..q]
  {
    forall k | 0 <= k < j - i
      ensures t[i..j][k] == s[p..q][k]
    {
      assert t[i + k] == s[a + (i + k)];
    }
  }

  lemma NotBlankReference(s: string, m: Span, t: string)
    requires m.start <= m.cut <= |s| && t == s[m.start..m.cut]
    requires |MARKER| < |t| && t[..|MARKER|] == MARKER && t[|t| - 1] == ']' && m.reference == Trim(t[|MARKER|..|t| - 1])
    ensures forall p :: p in Head(s, m) ==> WholeMarker(p)
  {}

  lemma {:induction false} PiecesCover(s: string)
    ensures AllText(Pieces(s)) == s
    decreases |s|
  {
    match NextMarker(s)
    case None =>
      if s != "" { SingletonText(s); }
    case Some(m) =>
      var rest := s[m.cut..];
      PiecesCover(rest);
      PiecesAppend(Head(s, m), Pieces(rest));
      HeadTexts(s, m);
      SplitAt(s, m.cut);
  }

  lemma SingletonText(s: string)
    ensures AllText([Copied(s)]) == CopiedText([Copied(s)]) == s && References([Copied(s)]) == []
  {
    assert s + "" == s;
  }

  /** Nothing is lost or reordered: the pieces are consecutive runs of the message,
      and each removed one is a whole marker holding its reference. */
  lemma {:induction false} PiecesPartition(s: string)
    ensures AllText(Pieces(s)) == s
    ensures forall p :: p in Pieces(s) ==> WholeMarker(p)
    decreases |s|
  {
    PiecesCover(s);
    match NextMarker(s)
    case None =>
    case Some(m) =>
      PiecesPartition(s[m.cut..]);
      HeadIsWhole(s, m);
  }

  /** One step of the scan, on the texts it accumulates. */
  lemma PiecesStep(s: string)
    ensures NextMarker(s).None? ==> CopiedText(Pieces(s)) == s && References(Pieces(s)) == []
    ensures NextMarker(s).Some? && NextMarker(s).value.reference == "" ==>
      var m := NextMarker(s).value;
      && CopiedText(Pieces(s)) == s[..m.cut] + CopiedText(Pieces(s[m.cut..]))
      && References(Pieces(s)) == References(Pieces(s[m.cut..]))
    ensures NextMarker(s).Some? && NextMarker(s).value.reference != "" ==>
      var m := NextMarker(s).value;
      && CopiedText(Pieces(s)) == s[..m.start] + CopiedText(Pieces(s[m.cut..]))
      && References(Pieces(s)) == [m.reference] + References(Pieces(s[m.cut..]))
  {
    match NextMarker(s)
    case None =>
      if s != "" { SingletonText(s); }
    case Some(m) =>
      HeadTexts(s, m);
      PiecesAppend(Head(s, m), Pieces(s[m.cut..]));
      assert [] + References(Pieces(s[m.cut..])) == References(Pieces(s[m.cut..]));
  }

  /** The scan with the text and references gathered so far, before the final trim. */
  function ScanFrom(s: string, cleaned: string, refs: seq<string>): Parsed
    decreases |s|
  {
    match NextMarker(s)
    case None => Parsed(cleaned + s, refs)
    case Some(m) =>
      if m.reference == "" then ScanFrom(s[m.cut..], cleaned + s[..m.cut], refs)
      else ScanFrom(s[m.cut..], cleaned + s[..m.start], refs + [m.reference])
  }

  lemma {:induction false} ScanFromPieces(s: string, cleaned: string, refs: seq<string>)
    ensures ScanFrom(s, cleaned, refs) == Parsed(cleaned + CopiedText(Pieces(s)), refs + References(Pieces(s)))
    decreases |s|
  {
    PiecesStep(s);
    match NextMarker(s)
    case None =>
      assert refs + [] == refs;
    case Some(m) =>
      var rest := s[m.cut..];
      if m.reference == "" {
        ScanFromPieces(rest, cleaned + s[..m.cut], refs);
        Assoc(cleaned, s[..m.cut], CopiedText(Pieces(rest)));
      } else {
        ScanFromPieces(rest, cleaned + s[..m.start], refs + [m.reference]);
        Assoc(cleaned, s[..m.start], CopiedText(Pieces(rest)));
        Assoc(refs, [m.reference], References(Pieces(rest)));
      }
  }

  /** The scan of the whole message yields the copied text and the references. */
  lemma ScanIsParse(content: string)
    ensures var p := ScanFrom(content, "", []); Parsed(Trim(p.cleaned), p.refs) == Parse(content)
  {
    ScanFromPieces(content, "", []);
    assert "" + CopiedText(Pieces(content)) == CopiedText(Pieces(content));
    assert [] + References(Pieces(content)) == References(Pieces(content));
  }

  /** The next marker, from where it starts, what follows its prefix, and its close. */
  lemma NextMarkerIs(s: string, k: nat, u: string, e: nat, cut: nat, c: string)
    requires Find(s, MARKER) == Some(k) && u == s[k + |MARKER|..] && CloseOf(u) == Some(e)
    requires cut == k + |MARKER| + e + 1 && c == u[..e]
    ensures NextMarker(s) == Some(Span(k, cut, Trim(c)))
  {}

  lemma ScanStep(s: string, cleaned: string, refs: seq<string>, m: Span, a: string, b: string, rest: string)
    requires NextMarker(s) == Some(m)
    requires a == s[..m.start] && a + b == s[..m.cut] && rest == s[m.cut..]
    ensures ScanFrom(s, cleaned, refs) ==
      if m.reference == "" then ScanFrom(rest, cleaned + a + b, refs) else ScanFrom(rest, cleaned + a, refs + [m.reference])
  {
    Assoc(cleaned, a, b);
  }

  lemma ScanEnd(s: string, cleaned: string, refs: seq<string>)
    requires NextMarker(s).None?
    ensures ScanFrom(s, cleaned, refs) == Parsed(cleaned + s, refs)
    ensures s == "" ==> ScanFrom(s, cleaned, refs) == Parsed(cleaned, refs)
  {
    assert s == "" ==> cleaned + s == cleaned;
  }

  /** Absolute cuts of the message are relative cuts of what is left after the cursor. */
  lemma CursorCuts(content: string, cursor: nat, start: nat, markerStart: nat, end: nat)
    requires cursor <= start <= markerStart <= end < |content|
    ensures
      var rest := content[cursor..];
      && content[markerStart..] == rest[markerStart - cursor..]
      && content[cursor..start] == rest[..start - cursor]
      && content[cursor..start] + content[start..end + 1] == rest[..end + 1 - cursor]
      && content[markerStart..end] == content[markerStart..][..end - markerStart]
      && content[end + 1..] == rest[end + 1 - cursor..]
  {}

  /** One turn of the scanning loop, in positions of the whole message. */
  lemma LoopStep(content: string, cursor: nat, cleaned: string, refs: seq<string>, start: nat, markerStart: nat, end: nat)
    requires cursor <= start <= markerStart <= end < |content| && markerStart == start + |MARKER|
    requires Find(content[cursor..], MARKER) == Some(start - cursor)
    requires CloseOf(content[markerStart..]) == Some(end - markerStart)
    ensures
      var candidate := Trim(content[markerStart..end]);
      ScanFrom(content[cursor..], cleaned, refs) ==
      if candidate == "" then ScanFrom(content[end + 1..], cleaned + content[cursor..start] + content[start..end + 1], refs)
      else ScanFrom(content[end + 1..], cleaned + content[cursor..start], refs + [candidate])
  {
    var rest, u := content[cursor..], content[markerStart..];
    CursorCuts(content, cursor, start, markerStart, end);
    var k, cut, c := start - cursor, end + 1 - cursor, content[markerStart..end];
    NextMarkerIs(rest, k, u, end - markerStart, cut, c);
    ScanStep(rest, cleaned, refs, Span(k, cut, Trim(c)), content[cursor..start], content[start..end + 1], content[end + 1..]);
  }

  /** The next marker's prefix lies inside the message. */
  lemma MarkerInside(content: string, cursor: nat, k: nat, start: nat, markerStart: nat)
    requires cursor <= |content| && Find(content[cursor..], MARKER) == Some(k)
    requires start == cursor + k && markerStart == start + |MARKER|
    ensures markerStart <= |content| && content[cursor..][k + |MARKER|..] == content[markerStart..]
    ensures content[cursor..start] + content[start..] == content[cursor..]
  {}

  /** The loop stops at an unclosed marker: what is left is copied as it stands. */
  lemma LoopUnclosed(content: string, cursor: nat, k: nat, cleaned: string, refs: seq<string>, start: nat, markerStart: nat)
    requires cursor <= |content| && Find(content[cursor..], MARKER) == Some(k)
    requires start == cursor + k && markerStart == start + |MARKER| && markerStart <= |content|
    requires CloseOf(content[markerStart..]).None?
    ensures ScanFrom(content[cursor..], cleaned, refs) == Parsed(cleaned + content[cursor..start] + content[start..], refs)
  {
    MarkerInside(content, cursor, k, start, markerStart);
    ScanEnd(content[cursor..], cleaned, refs);
    Assoc(cleaned, content[cursor..start], content[start..]);
  }

  lemma NothingLeft(cleaned: string, refs: seq<string>)
    ensures ScanFrom("", cleaned, refs) == Parsed(cleaned, refs)
  {
    ScanEnd("", cleaned, refs);
  }

  lemma MarkerFits(content: string, cursor: nat, k: nat, start: nat, markerStart: nat)
    requires cursor <= |content| && Find(content[cursor..], MARKER) == Some(k)
    requires start == cursor + k && markerStart == start + |MARKER|
    ensures markerStart <= |content|
  {}

  /** The scan has come as far as `cursor`, with this much gathered. */
  ghost predicate ScannedTo(content: string, cursor: nat, cleaned: string, refs: seq<string>) {
    cursor <= |content| && ScanFrom(content[cursor..], cleaned, refs) == ScanFrom(content, "", [])
  }

  lemma ScanStarts(content: string)
    ensures ScannedTo(content, 0, "", [])
  {
    assert content[0..] == content;
  }

  lemma ScanAdvances(content: string, cursor: nat, k: nat, e: nat, before: string, refs: seq<string>,
                     start: nat, markerStart: nat, end: nat, cleaned: string, refs': seq<string>)
    requires ScannedTo(content, cursor, before, refs) && Find(content[cursor..], MARKER) == Some(k)
    requires start == cursor + k && markerStart == start + |MARKER| && markerStart <= |content|
    requires CloseOf(content[markerStart..]) == Some(e) && end == markerStart + e && end < |content|
    requires
      var candidate := Trim(content[markerStart..end]);
      if candidate == "" then cleaned == before + content[cursor..start] + content[start..end + 1] && refs' == refs
      else cleaned == before + content[cursor..start] && refs' == refs + [candidate]
    ensures ScannedTo(content, end + 1, cleaned, refs')
  {
    LoopStep(content, cursor, before, refs, start, markerStart, end);
  }

  lemma ScanStops(content: string, cursor: nat, k: nat, cleaned: string, refs: seq<string>, start: nat, markerStart: nat)
    requires ScannedTo(content, cursor, cleaned, refs) && Find(content[cursor..], MARKER) == Some(k)
    requires start == cursor + k && markerStart == start + |MARKER| && markerStart <= |content|
    requires CloseOf(content[markerStart..]).None?
    ensures ScannedTo(content, |content|, cleaned + content[cursor..start] + content[start..], refs)
  {
    LoopUnclosed(content, cursor, k, cleaned, refs, start, markerStart);
    NothingLeft(cleaned + content[cursor..start] + content[start..], refs);
  }

  lemma ScanEnds(content: string, cursor: nat, cleaned: string, refs: seq<string>, all: string)
    requires ScannedTo(content, cursor, cleaned, refs)
    requires cursor == |content| || Find(content[cursor..], MARKER).None?
    requires all == if cursor < |content| then cleaned + content[cursor..] else cleaned
    ensures Parsed(Trim(all), refs) == Parse(content)
  {
    ScanEnd(content[cursor..], cleaned, refs);
    ScanIsParse(content);
  }

  /** `parse_image_markers`. */
  method ParseImageMarkers(content: string) returns (cleaned: string, refs: seq<string>)
    ensures Parsed(cleaned, refs) == Parse(content)
  {
    hide ScanFrom, NextMarker;
    refs, cleaned := [], "";
    var cursor := 0;
    ScanStarts(content);
    var relStart := Find(content[cursor..], MARKER);
    while relStart.Some?
      invariant ScannedTo(content, cursor, cleaned, refs)
      invariant relStart == Find(content[cursor..], MARKER)
      decreases |content| - cursor
    {
      ghost var before := cleaned;
      var start := cursor + relStart.value;
      var markerStart := start + |MARKER|;
      MarkerFits(content, cursor, relStart.value, start, markerStart);
      cleaned := cleaned + content[cursor..start];
      var relEnd := ScanClose(content, markerStart);
      if relEnd.None? {
        ScanStops(content, cursor, relStart.value, before, refs, start, markerStart);
        cleaned := cleaned + content[start..];
        cursor := |content|;
        break;
      }
      var end := markerStart + relEnd.value;
      var candidate := Trim(content[markerStart..end]);
      ghost var known := refs;
      if candidate == "" {
        cleaned := cleaned + content[start..end + 1];
      } else {
        refs := refs + [candidate];
      }
      ScanAdvances(content, cursor, relStart.value, relEnd.value, before, known, start, markerStart, end, cleaned, refs);
      cursor := end + 1;
      relStart := Find(content[cursor..], MARKER);
    }
    ghost var before := cleaned;
    if cursor < |content| {
      cleaned := cleaned + content[cursor..];
    }
    ScanEnds(content, cursor, before, refs, cleaned);
    cleaned := Trim(cleaned);
  }

  /** The bracket scan of one marker, with its running depth. */
  method ScanClose(content: string, markerStart: nat) returns (relEnd: Option<nat>)
    requires markerStart <= |content|
    ensures relEnd == CloseOf(content[markerStart..])
  {
    var depth, idx := 0, 0;
    var s := content[markerStart..];
    ghost var tail := s;
    while idx < |s|
      invariant idx <= |s| && tail == s[idx..]
      invariant DepthScan(s, 0).None? <==> DepthScan(tail, depth).None?
      invariant DepthScan(s, 0).Some? ==> DepthScan(s, 0).value == DepthScan(tail, depth).value + idx
    {
      if s[idx] == '[' {
        depth := depth + 1;
      } else if s[idx] == ']' && depth > 0 {
        depth := depth - 1;
      } else if s[idx] == ']' {
        return Some(idx);
      }
      idx, tail := idx + 1, tail[1..];
    }
    relEnd := IndexOf(s, ']');
  }

  // ---------------------------------------------------------------------------
  // Composing a message and parsing it back

  function Wrap(reference: string): string {
    MARKER + reference + "]"
  }

  /** Markers one per line, the first after `sep`. */
  function Tail(sep: string, refs: seq<string>): string
    decreases |refs|
  {
    if refs == [] then "" else sep + Wrap(refs[0]) + Tail("\n", refs[1..])
  }

  /** The message built from a text and data URIs (`compose_multimodal_message`). */
  function Compose(text: string, refs: seq<string>): string {
    var t := Trim(text);
    if t == "" then Tail("", refs)
    else if refs == [] then t + "\n\n"
    else t + Tail("\n\n", refs)
  }

  method ComposeMultimodalMessage(text: string, dataUris: seq<string>) returns (content: string)
    ensures content == Compose(text, dataUris)
  {
    hide Tail, Compose, Trim;
    content := "";
    var trimmed := Trim(text);
    if trimmed != "" {
      content := content + trimmed;
      content := content + "\n\n";
    }
    var index := 0;
    ghost var lead, rest, sep := content, dataUris, "";
    while index < |dataUris|
      invariant index <= |dataUris| && rest == dataUris[index..]
      invariant sep == if index > 0 then "\n" else ""
      invariant content + Tail(sep, rest) == lead + Tail("", dataUris)
    {
      ghost var before := content;
      if index > 0 {
        content := content + "\n";
      }
      assert content == before + sep;
      content := content + MARKER;
      content := content + dataUris[index];
      content := content + "]";
      NextInTail(before, sep, rest, content);
      index, rest, sep := index + 1, rest[1..], "\n";
    }
    ComposeIs(text, dataUris);
    TailEnds(sep, content);
  }

  lemma TailEnds(sep: string, content: string)
    ensures content + Tail(sep, []) == content
  {}

  lemma NextInTail(before: string, sep: string, refs: seq<string>, content: string)
    requires refs != [] && content == before + sep + MARKER + refs[0] + "]"
    ensures before + Tail(sep, refs) == content + Tail("\n", refs[1..])
  {
    AppendMarker(before, sep, refs[0], content);
    Assoc(before, sep + Wrap(refs[0]), Tail("\n", refs[1..]));
  }

  lemma AppendMarker(before: string, sep: string, r: string, content: string)
    requires content == before + sep + MARKER + r + "]"
    ensures content == before + (sep + Wrap(r))
  {
    var w := MARKER + r;
    Assoc(before + sep, MARKER, r);
    Assoc(before + sep, w, "]");
    Assoc(before, sep, w + "]");
  }

  lemma ComposeIs(text: string, refs: seq<string>)
    ensures Compose(text, refs) == (if Trim(text) == "" then "" else Trim(text) + "\n\n") + Tail("", refs)
  {
    var t := Trim(text);
    if t == "" || refs == [] {
      assert "" + Tail("", refs) == Tail("", refs);
      assert t + "\n\n" + "" == t + "\n\n";
    } else {
      var w, r := Wrap(refs[0]), Tail("\n", refs[1..]);
      assert "" + w == w;
      Assoc(t, "\n\n" + w, r);
      Assoc(t, "\n\n", w);
      Assoc(t + "\n\n", w, r);
    }
  }

  /** The bracket depth after `s`, or none when a bracket closes below zero. */
  function DepthAfter(s: string, depth: nat): Option<nat> {
    if s == "" then Some(depth)
    else if s[0] == ']' && depth == 0 then None
    else DepthAfter(s[1..], if s[0] == '[' then depth + 1 else if s[0] == ']' then depth - 1 else depth)
  }

  predicate Balanced(s: string) {
    DepthAfter(s, 0) == Some(0)
  }

  predicate BracketFree(s: string) {
    forall i :: 0 <= i < |s| ==> s[i] != '[' && s[i] != ']'
  }

  /** A reference that a marker can carry: not blank, trimmed, brackets balanced. */
  predicate GoodRef(r: string) {
    r != "" && Trimmed(r) && Balanced(r)
  }

  predicate GoodRefs(refs: seq<string>) {
    forall i :: 0 <= i < |refs| ==> GoodRef(refs[i])
  }

  predicate Newlines(s: string) {
    forall i :: 0 <= i < |s| ==> s[i] == '\n'
  }

  lemma DepthAfterAppend(a: string, b: string, d: nat)
    ensures DepthAfter(a + b, d) == match DepthAfter(a, d) case None => None case Some(k) => DepthAfter(b, k)
  {
    if a == "" {
      assert a + b == b;
    } else {
      assert (a + b)[1..] == a[1..] + b;
    }
  }

  lemma {:induction false} DepthAfterShift(a: string, d: nat, k: nat)
    requires DepthAfter(a, d).Some?
    ensures DepthAfter(a, d + k) == Some(DepthAfter(a, d).value + k)
  {
    if a != "" {
      DepthAfterShift(a[1..], if a[0] == '[' then d + 1 else if a[0] == ']' then d - 1 else d, k);
    }
  }

  lemma BracketFreeDepth(a: string, d: nat)
    requires BracketFree(a)
    ensures DepthAfter(a, d) == Some(d)
  {}

  lemma DepthScanNone(a: string, d: nat)
    ensures DepthScan(a, d).None? <==> DepthAfter(a, d).Some?
  {}

  /** The depth scan of a concatenation whose first part does not close. */
  lemma {:induction false} DepthScanAppend(a: string, b: string, d: nat)
    ensures DepthScan(a, d).Some? ==> DepthScan(a + b, d) == DepthScan(a, d)
    ensures DepthAfter(a, d).Some? ==>
      DepthScan(a + b, d) == match DepthScan(b, DepthAfter(a, d).value) case None => None case Some(k) => Some(|a| + k)
  {
    if a == "" {
      assert a + b == b;
    } else {
      assert (a + b)[1..] == a[1..] + b;
      if !(a[0] == ']' && d == 0) {
        DepthScanAppend(a[1..], b, if a[0] == '[' then d + 1 else if a[0] == ']' then d - 1 else d);
      }
    }
  }

  lemma WrapDepth(r: string, d: nat)
    requires Balanced(r)
    ensures DepthAfter(Wrap(r), d) == Some(d)
  {
    assert MARKER == "[" + "IMAGE:";
    DepthAfterAppend("[", "IMAGE:", d);
    BracketFreeDepth("IMAGE:", d + 1);
    DepthAfterAppend(MARKER, r, d);
    DepthAfterShift(r, 0, d + 1);
    DepthAfterAppend(MARKER + r, "]", d);
  }

  /** A run of markers never closes a bracket opened before it. */
  lemma {:induction false} TailDepth(sep: string, refs: seq<string>, d: nat)
    requires GoodRefs(refs) && Newlines(sep)
    ensures DepthAfter(Tail(sep, refs), d) == Some(d)
    decreases |refs|
  {
    if refs != [] {
      BracketFreeDepth(sep, d);
      assert GoodRef(refs[0]);
      WrapDepth(refs[0], d);
      TailDepth("\n", refs[1..], d);
      DepthAfterAppend(sep, Wrap(refs[0]), d);
      DepthAfterAppend(sep + Wrap(refs[0]), Tail("\n", refs[1..]), d);
    }
  }

  /** The close of a balanced reference is its own bracket. */
  lemma CloseOfGood(r: string, rest: string)
    requires Balanced(r)
    ensures CloseOf(r + "]" + rest) == Some(|r|)
  {
    DepthScanNone(r, 0);
    assert r + "]" + rest == r + ("]" + rest);
    DepthScanAppend(r, "]" + rest, 0);
  }

  lemma FindInPrefix(w: string, z: string)
    requires Find(w, MARKER).Some?
    ensures Find(w + z, MARKER) == Find(w, MARKER)
  {
    var k, s := Find(w, MARKER).value, w + z;
    assert s[k..k + |MARKER|] == w[k..k + |MARKER|];
    forall j: nat | j < k
      ensures !OccursAt(s, MARKER, j)
    {
      assert s[j..j + |MARKER|] == w[j..j + |MARKER|];
      assert !OccursAt(w, MARKER, j);
    }
    FindIs(s, MARKER, k);
  }

  /** No marker begins in, or runs across, a text without one and its newlines. */
  lemma FindAfterQuiet(w: string, sep: string, x: string, s: string)
    requires Find(w, MARKER).None? && Newlines(sep) && (w == "" || sep != "")
    requires s == w + sep + MARKER + x
    ensures Find(s, MARKER) == Some(|w| + |sep|)
  {
    var n := |w| + |sep|;
    assert s[n..n + |MARKER|] == MARKER;
    forall j: nat | j < n
      ensures !OccursAt(s, MARKER, j)
    {
      if j + |MARKER| <= |w| {
        assert s[j..j + |MARKER|] == w[j..j + |MARKER|];
        assert !OccursAt(w, MARKER, j);
      } else {
        var i := if j < |w| then |w| else j;
        assert s[i] == '\n';
        if j + |MARKER| <= |s| { assert s[j..j + |MARKER|][i - j] == s[i]; }
      }
    }
    FindIs(s, MARKER, n);
  }

  /** The next marker is the first of the run, when the text before it holds none. */
  lemma NextNew(w: string, sep: string, refs: seq<string>, s: string, r: string, rest: string, k: nat, cut: nat)
    requires Find(w, MARKER).None? && Newlines(sep) && (w == "" || sep != "")
    requires refs != [] && GoodRefs(refs) && r == refs[0] && rest == Tail("\n", refs[1..])
    requires s == w + Tail(sep, refs) && k == |w| + |sep| && cut == k + |MARKER| + |r| + 1
    ensures NextMarker(s) == Some(Span(k, cut, r)) && GoodRef(r)
    ensures s[..k] == w + sep && s[cut..] == rest
  {
    assert GoodRef(r);
    TailHead(sep, refs, r, rest);
    NextNewAt(w, sep, r, rest, s, k, cut);
  }

  lemma NextNewAt(w: string, sep: string, r: string, rest: string, s: string, k: nat, cut: nat)
    requires Find(w, MARKER).None? && Newlines(sep) && (w == "" || sep != "") && GoodRef(r)
    requires s == w + (sep + (MARKER + r + "]") + rest) && k == |w| + |sep| && cut == k + |MARKER| + |r| + 1
    ensures NextMarker(s) == Some(Span(k, cut, r))
    ensures s[..k] == w + sep && s[cut..] == rest
  {
    hide NextMarker, CloseOf, Find;
    var x := r + "]" + rest;
    NewParts(w, sep, r, rest, s, x);
    FindAfterQuiet(w, sep, x, s);
    assert s[k + |MARKER|..] == x;
    CloseOfGood(r, rest);
    assert x[..|r|] == r;
    NextMarkerIs(s, k, x, |r|, cut, r);
    TrimFixpoint(r);
  }

  lemma TailHead(sep: string, refs: seq<string>, r: string, rest: string)
    requires refs != [] && r == refs[0] && rest == Tail("\n", refs[1..])
    ensures Tail(sep, refs) == sep + (MARKER + r + "]") + rest
  {}

  lemma NewParts(w: string, sep: string, r: string, rest: string, s: string, x: string)
    requires s == w + (sep + (MARKER + r + "]") + rest) && x == r + "]" + rest
    ensures s == w + sep + MARKER + x
  {
    var m := MARKER;
    Assoc(m, r, "]");
    Assoc(m, r + "]", rest);
    Assoc(sep, m + r + "]", rest);
    Assoc(w, sep, m + x);
    Assoc(w + sep, m, x);
  }

  /** A closed marker of the text stays the next one when a run is appended. */
  lemma NextOld(w: string, m: Span, z: string, s: string)
    requires NextMarker(w) == Some(m) && s == w + z
    requires forall d: nat :: DepthAfter(z, d) == Some(d)
    ensures NextMarker(s) == Some(m)
    ensures s[m.cut..] == w[m.cut..] + z && s[..m.cut] == w[..m.cut] && s[..m.start] == w[..m.start]
  {
    hide NextMarker, CloseOf;
    var u, e := MarkerParts(w, m);
    FindInPrefix(w, z);
    CloseOfAppend(u, z);
    AppendedCuts(w, z, s, m.start + |MARKER|, m.start, m.cut, u, e);
    NextMarkerIs(s, m.start, u + z, e, m.cut, u[..e]);
  }

  /** What a marker is made of: its prefix, what follows it, and where that closes. */
  lemma MarkerParts(w: string, m: Span) returns (u: string, e: nat)
    requires NextMarker(w) == Some(m)
    ensures Find(w, MARKER) == Some(m.start) && u == w[m.start + |MARKER|..] && CloseOf(u) == Some(e)
    ensures m.cut == m.start + |MARKER| + e + 1 && m.reference == Trim(u[..e])
  {
    u := w[m.start + |MARKER|..];
    e := CloseOf(u).value;
  }

  lemma AppendedCuts(w: string, z: string, s: string, n: nat, start: nat, cut: nat, u: string, e: nat)
    requires s == w + z && start <= n <= |w| && cut <= |w| && u == w[n..] && e <= |u|
    ensures s[n..] == u + z && (u + z)[..e] == u[..e]
    ensures s[cut..] == w[cut..] + z && s[..cut] == w[..cut] && s[..start] == w[..start]
  {}

  lemma CloseOfAppend(u: string, z: string)
    requires CloseOf(u).Some?
    requires forall d: nat :: DepthAfter(z, d) == Some(d)
    ensures CloseOf(u + z) == CloseOf(u)
  {
    DepthScanAppend(u, z, 0);
    if DepthScan(u, 0).None? {
      DepthScanNone(u, 0);
      DepthScanNone(z, DepthAfter(u, 0).value);
      IndexOfAppend(u, z, ']');
    }
  }

  /** Positions in a text made of a prefix, a core, a `]` and a rest. */
  lemma CoreCuts(p: string, c: string, y: string, s: string, cut: nat)
    requires s == p + (c + "]" + y) && cut == |p| + |c| + 1
    ensures s[|p|..] == c + "]" + y && (c + "]" + y)[..|c|] == c && s[cut..] == y
  {}

  lemma Regroup(u: string, sep: string, r: string, f: nat, left: string, rest: string, c: string)
    requires f <= |r| && r + "]" == r[..f] + "]" + left && c == u + sep + MARKER + r[..f]
    ensures u + (sep + (MARKER + r + "]") + rest) == c + "]" + (left + rest)
  {
    assert sep + (MARKER + r + "]") == sep + MARKER + (r + "]");
    assert u + (sep + MARKER + (r[..f] + "]" + left) + rest) == u + sep + MARKER + r[..f] + "]" + (left + rest);
  }

  /** An unclosed marker of the text runs on to the first `]` of the first marker
      appended after it, and so swallows it. `f` is where that `]` is in `r + "]"`. */
  lemma NextSwallow(w: string, k: nat, u: string, sep: string, refs: seq<string>, s: string) returns (m: Span, f: nat, c: string, left: string)
    requires Find(w, MARKER) == Some(k) && u == w[k + |MARKER|..] && CloseOf(u).None?
    requires refs != [] && GoodRefs(refs) && Newlines(sep) && s == w + Tail(sep, refs)
    ensures f <= |refs[0]| && refs[0] + "]" == refs[0][..f] + "]" + left && ']' !in refs[0][..f]
    ensures c == u + sep + MARKER + refs[0][..f] && m.reference == Trim(c) && m.reference != ""
    ensures NextMarker(s) == Some(m) && s[m.cut..] == left + Tail("\n", refs[1..])
  {
    hide NextMarker, CloseOf, Tail, GoodRefs;
    var r, rest, z := refs[0], Tail("\n", refs[1..]), Tail(sep, refs);
    TailHead(sep, refs, r, rest);
    f, left := FirstBracket(r);
    c := u + sep + MARKER + r[..f];
    Regroup(u, sep, r, f, left, rest, c);
    var p, y := w[..k + |MARKER|], left + rest;
    SplitAt(w, k + |MARKER|);
    Assoc(p, u, z);
    var cut := |p| + |c| + 1;
    CoreCuts(p, c, y, s, cut);
    SwallowedCore(u, sep, r[..f], c);
    SwallowClose(u, c, y, z, sep, refs);
    FindInPrefix(w, z);
    NextMarkerIs(s, k, c + "]" + y, |c|, cut, c);
    m := Span(k, cut, Trim(c));
    TrimTrims(c);
  }

  lemma SwallowedCore(u: string, sep: string, r: string, c: string)
    requires CloseOf(u).None? && Newlines(sep) && ']' !in r && c == u + sep + MARKER + r
    ensures ']' !in c && !Blank(c)
  {
    IndexOfNone(u, ']');
    var a := u + sep + MARKER;
    assert ']' !in MARKER && ']' !in sep && ']' !in a;
    assert a[|u + sep|] == MARKER[0] == c[|u + sep|];
  }

  lemma FirstBracket(r: string) returns (f: nat, left: string)
    ensures f <= |r| && r + "]" == r[..f] + "]" + left && ']' !in r[..f]
  {
    match IndexOf(r, ']')
    case None =>
      IndexOfNone(r, ']');
      f, left := |r|, "";
    case Some(k) =>
      IndexOfBefore(r, ']');
      f, left := k, r[k + 1..] + "]";
  }

  lemma SwallowClose(u: string, c: string, y: string, z: string, sep: string, refs: seq<string>)
    requires CloseOf(u).None? && GoodRefs(refs) && Newlines(sep) && z == Tail(sep, refs)
    requires u + z == c + "]" + y && ']' !in c
    ensures CloseOf(c + "]" + y) == Some(|c|)
  {
    DepthScanAppend(u, z, 0);
    DepthScanNone(u, 0);
    TailDepth(sep, refs, DepthAfter(u, 0).value);
    DepthScanNone(z, DepthAfter(u, 0).value);
    IndexOfFirst(c + "]" + y, ']', |c|);
  }

  /** The number of references in a text. */
  function CountRefs(s: string): nat {
    |References(Pieces(s))|
  }

  lemma TailDepths(sep: string, refs: seq<string>)
    requires GoodRefs(refs) && Newlines(sep)
    ensures forall d: nat :: DepthAfter(Tail(sep, refs), d) == Some(d)
  {
    forall d: nat { TailDepth(sep, refs, d); }
  }

  predicate BracketFreeRefs(refs: seq<string>) {
    forall i :: 0 <= i < |refs| ==> BracketFree(refs[i])
  }

  lemma CountStep(s: string, m: Span, rest: string)
    requires NextMarker(s) == Some(m) && rest == s[m.cut..]
    ensures CountRefs(s) == (if m.reference == "" then 0 else 1) + CountRefs(rest)
  {
    PiecesStep(s);
  }

  lemma CountNone(s: string)
    requires NextMarker(s).None?
    ensures CountRefs(s) == 0
  {
    PiecesStep(s);
  }

  lemma CountNew(w: string, sep: string, refs: seq<string>)
    requires Find(w, MARKER).None? && Newlines(sep) && (w == "" || sep != "")
    requires refs != [] && GoodRefs(refs)
    ensures CountRefs(w + Tail(sep, refs)) == 1 + CountRefs(Tail("\n", refs[1..])) && CountRefs(w) == 0
  {
    var s, r, rest, k := w + Tail(sep, refs), refs[0], Tail("\n", refs[1..]), |w| + |sep|;
    var cut := k + |MARKER| + |r| + 1;
    NextNew(w, sep, refs, s, r, rest, k, cut);
    CountStep(s, Span(k, cut, r), rest);
    CountNone(w);
  }

  lemma CountOld(w: string, m: Span, sep: string, refs: seq<string>) returns (n: nat)
    requires NextMarker(w) == Some(m) && GoodRefs(refs) && Newlines(sep)
    ensures CountRefs(w) == n + CountRefs(w[m.cut..])
    ensures CountRefs(w + Tail(sep, refs)) == n + CountRefs(w[m.cut..] + Tail(sep, refs))
  {
    var z := Tail(sep, refs);
    TailDepths(sep, refs);
    NextOld(w, m, z, w + z);
    CountStep(w, m, w[m.cut..]);
    CountStep(w + z, m, w[m.cut..] + z);
    n := if m.reference == "" then 0 else 1;
  }

  lemma CountSwallow(w: string, k: nat, u: string, sep: string, refs: seq<string>) returns (left: string)
    requires Find(w, MARKER) == Some(k) && u == w[k + |MARKER|..] && CloseOf(u).None?
    requires refs != [] && GoodRefs(refs) && Newlines(sep)
    ensures CountRefs(w) == 0
    ensures CountRefs(w + Tail(sep, refs)) == 1 + CountRefs(left + Tail("\n", refs[1..]))
    ensures BracketFree(refs[0]) ==> left == ""
  {
    hide NextMarker, CloseOf, Tail, GoodRefs, Trim;
    var s := w + Tail(sep, refs);
    OpenIsNone(w, k, u);
    var m, f, c, left' := NextSwallow(w, k, u, sep, refs, s);
    left := left';
    CountNone(w);
    CountStep(s, m, left + Tail("\n", refs[1..]));
    if BracketFree(refs[0]) { WholeLeft(refs[0], f, left); }
  }

  lemma OpenIsNone(w: string, k: nat, u: string)
    requires Find(w, MARKER) == Some(k) && u == w[k + |MARKER|..] && CloseOf(u).None?
    ensures NextMarker(w).None?
  {}

  lemma WholeLeft(r: string, f: nat, left: string)
    requires BracketFree(r) && f <= |r| && r + "]" == r[..f] + "]" + left
    ensures left == ""
  {
    assert (r + "]")[f] == ']';
  }

  /** Appending a run of markers adds at least as many references as it has, and
      exactly as many when the references hold no brackets, as data URIs do not. */
  lemma {:induction false} CountAdds(w: string, sep: string, refs: seq<string>)
    requires GoodRefs(refs) && Newlines(sep) && (w == "" || sep != "")
    ensures CountRefs(w + Tail(sep, refs)) >= CountRefs(w) + |refs|
    ensures BracketFreeRefs(refs) ==> CountRefs(w + Tail(sep, refs)) == CountRefs(w) + |refs|
    decreases |refs|, |w|
  {
    CountNone("");
    if refs == [] {
      assert w + "" == w;
    } else if Find(w, MARKER).None? {
      CountNew(w, sep, refs);
      CountAdds("", "\n", refs[1..]);
      assert "" + Tail("\n", refs[1..]) == Tail("\n", refs[1..]);
    } else if NextMarker(w).Some? {
      var m := NextMarker(w).value;
      var n := CountOld(w, m, sep, refs);
      CountAdds(w[m.cut..], sep, refs);
    } else {
      var k := Find(w, MARKER).value;
      var left := CountSwallow(w, k, w[k + |MARKER|..], sep, refs);
      CountAdds(left, "\n", refs[1..]);
    }
  }

  /** Every marker in the text is closed and blank, so none of them is a reference. */
  predicate Quiet(s: string)
    decreases |s|
  {
    match NextMarker(s)
    case None => Find(s, MARKER).None?
    case Some(m) => m.reference == "" && Quiet(s[m.cut..])
  }

  /** What a run of markers leaves in the copied text. */
  function Seps(sep: string, refs: seq<string>): string
    decreases |refs|
  {
    if refs == [] then "" else sep + Seps("\n", refs[1..])
  }

  lemma {:induction false} SepsAreNewlines(sep: string, refs: seq<string>)
    requires Newlines(sep)
    ensures Newlines(Seps(sep, refs))
    decreases |refs|
  {
    if refs != [] { SepsAreNewlines("\n", refs[1..]); }
  }

  /** The step past a marker that is a reference, with its cuts named. */
  lemma PastReference(s: string, m: Span, a: string, rest: string)
    requires NextMarker(s) == Some(m) && m.reference != "" && a == s[..m.start] && rest == s[m.cut..]
    ensures References(Pieces(s)) == [m.reference] + References(Pieces(rest))
    ensures CopiedText(Pieces(s)) == a + CopiedText(Pieces(rest))
  {
    PiecesStep(s);
  }

  lemma QuietNew(w: string, sep: string, refs: seq<string>)
    requires Find(w, MARKER).None? && Newlines(sep) && (w == "" || sep != "")
    requires refs != [] && GoodRefs(refs)
    ensures References(Pieces(w + Tail(sep, refs))) == [refs[0]] + References(Pieces(Tail("\n", refs[1..])))
    ensures CopiedText(Pieces(w + Tail(sep, refs))) == w + sep + CopiedText(Pieces(Tail("\n", refs[1..])))
  {
    var s, r, rest, k := w + Tail(sep, refs), refs[0], Tail("\n", refs[1..]), |w| + |sep|;
    var cut := k + |MARKER| + |r| + 1;
    NextNew(w, sep, refs, s, r, rest, k, cut);
    PastReference(s, Span(k, cut, r), w + sep, rest);
  }

  lemma QuietOld(w: string, m: Span, sep: string, refs: seq<string>)
    requires NextMarker(w) == Some(m) && m.reference == "" && GoodRefs(refs) && Newlines(sep)
    ensures References(Pieces(w + Tail(sep, refs))) == References(Pieces(w[m.cut..] + Tail(sep, refs)))
    ensures CopiedText(Pieces(w + Tail(sep, refs))) == w[..m.cut] + CopiedText(Pieces(w[m.cut..] + Tail(sep, refs)))
  {
    var z := Tail(sep, refs);
    TailDepths(sep, refs);
    NextOld(w, m, z, w + z);
    PiecesStep(w + z);
  }

  lemma QuietNext(w: string)
    requires Quiet(w)
    ensures NextMarker(w).None? ==> Find(w, MARKER).None?
    ensures NextMarker(w).Some? ==> NextMarker(w).value.reference == "" && Quiet(w[NextMarker(w).value.cut..])
    ensures Quiet("")
  {
    assert Find("", MARKER).None?;
  }

  /** Markers appended to a quiet text are read back, and the text is copied. */
  lemma {:induction false} QuietParses(w: string, sep: string, refs: seq<string>)
    requires Quiet(w) && GoodRefs(refs) && Newlines(sep) && (w == "" || sep != "")
    ensures References(Pieces(w + Tail(sep, refs))) == refs
    ensures CopiedText(Pieces(w + Tail(sep, refs))) == w + Seps(sep, refs)
    decreases |refs|, |w|
  {
    hide NextMarker, Quiet, Pieces, CopiedText, References;
    QuietNext(w);
    if NextMarker(w).Some? {
      var m := NextMarker(w).value;
      QuietOld(w, m, sep, refs);
      QuietParses(w[m.cut..], sep, refs);
      Assoc(w[..m.cut], w[m.cut..], Seps(sep, refs));
      SplitAt(w, m.cut);
    } else if refs == [] {
      PiecesStep(w);
      assert w + "" == w;
    } else {
      QuietNew(w, sep, refs);
      var rest := refs[1..];
      QuietParses("", "\n", rest);
      assert "" + Tail("\n", rest) == Tail("\n", rest) && "" + Seps("\n", rest) == Seps("\n", rest);
      Assoc(w, sep, Seps("\n", rest));
      assert [refs[0]] + rest == refs;
    }
  }

  /** Markers appended to any other text are not read back as they were given. */
  lemma {:induction false} LoudMisreads(w: string, sep: string, refs: seq<string>)
    requires !Quiet(w) && refs != [] && GoodRefs(refs) && Newlines(sep) && sep != ""
    ensures References(Pieces(w + Tail(sep, refs))) != refs
    decreases |w|
  {
    if NextMarker(w).Some? {
      var m := NextMarker(w).value;
      if m.reference == "" {
        QuietOld(w, m, sep, refs);
        LoudMisreads(w[m.cut..], sep, refs);
      } else {
        CountStep(w, m, w[m.cut..]);
        CountAdds(w, sep, refs);
      }
    } else {
      var k, s := Find(w, MARKER).value, w + Tail(sep, refs);
      var u := w[k + |MARKER|..];
      var m, f, c, left := NextSwallow(w, k, u, sep, refs, s);
      IndexOfNone(u, ']');
      assert ']' !in sep;
      SwallowedDiffers(u, sep, refs[0], f, left, c);
      PastReference(s, m, s[..m.start], left + Tail("\n", refs[1..]));
      assert References(Pieces(s))[0] != refs[0];
    }
  }

  lemma SwallowedDiffers(u: string, sep: string, r: string, f: nat, left: string, c: string)
    requires f <= |r| && GoodRef(r) && r + "]" == r[..f] + "]" + left && ']' !in r[..f]
    requires c == u + sep + MARKER + r[..f] && ']' !in u + sep
    ensures Trim(c) != r
  {
    if f < |r| {
      assert r[f] == (r + "]")[f] == ']';
      assert ']' !in c;
      TrimChars(c);
    } else {
      var a := u + sep + MARKER;
      assert a[|u + sep|] == '[';
      assert r[..f] == r;
      TrimKeepsEnd(a, r);
    }
  }

  /** The round trip: parsing a composed message gives back the trimmed text and the
      references, exactly when every marker in that text is closed and blank. */
  lemma ComposeParsesBack(text: string, refs: seq<string>)
    requires refs != [] && GoodRefs(refs)
    ensures Parse(Compose(text, refs)) == Parsed(Trim(text), refs) <==> Quiet(Trim(text))
  {
    hide Compose, Quiet, Pieces, CopiedText, References, Tail, Seps, Trim;
    var t := Trim(text);
    var sep := if t == "" then "" else "\n\n";
    ComposeIsTail(text, refs, t, sep);
    TrimTrims(text);
    EmptyIsQuiet();
    if Quiet(t) {
      QuietParses(t, sep, refs);
      SepsAreNewlines(sep, refs);
      TrimDropsNewlines(t, Seps(sep, refs));
    } else {
      LoudMisreads(t, sep, refs);
    }
  }

  lemma EmptyIsQuiet()
    ensures Quiet("") && Find("", MARKER).None?
  {
    assert Find("", MARKER).None?;
  }

  lemma ComposeIsTail(text: string, refs: seq<string>, t: string, sep: string)
    requires refs != [] && t == Trim(text) && sep == if t == "" then "" else "\n\n"
    ensures Compose(text, refs) == t + Tail(sep, refs)
  {
    assert t == "" ==> t + Tail(sep, refs) == Tail(sep, refs);
  }

  lemma TrimDropsNewlines(t: string, n: string)
    requires Trimmed(t) && Newlines(n)
    ensures Trim(t + n) == t
  {
    assert Blank(n);
    if t == "" {
      TrimTrims(t + n);
    } else {
      TrimBetween("", t, n);
      assert "" + t + n == t + n;
    }
  }

  // ---------------------------------------------------------------------------
  // The scan and the composed text, by their characters

  lemma {:induction false} ScanIsBalanced(s: string, d: nat, e: nat)
    requires DepthScan(s, d) == Some(e)
    ensures DepthAfter(s[..e], d) == Some(0)
  {
    if !(s[0] == ']' && d == 0) {
      var d' := if s[0] == '[' then d + 1 else if s[0] == ']' then d - 1 else d;
      ScanIsBalanced(s[1..], d', e - 1);
      assert s[..e][1..] == s[1..][..e - 1] && s[..e][0] == s[0];
    }
  }

  /** A bracket behind balanced text is the one that closes the marker. */
  lemma CloseAtBalance(s: string, e: nat)
    requires e < |s| && s[e] == ']' && Balanced(s[..e])
    ensures CloseOf(s) == Some(e)
  {
    DepthScanNone(s[..e], 0);
    DepthScanAppend(s[..e], s[e..], 0);
    SplitAt(s, e);
    assert s[e..][0] == ']';
  }

  /** Where there is none, it is the first bracket, if there is any. */
  lemma CloseElsewhere(s: string)
    requires forall e :: 0 <= e < |s| && s[e] == ']' ==> !Balanced(s[..e])
    ensures CloseOf(s).None? <==> ']' !in s
    ensures CloseOf(s).Some? ==> s[CloseOf(s).value] == ']' && ']' !in s[..CloseOf(s).value]
  {
    if DepthScan(s, 0).Some? {
      ScanIsBalanced(s, 0, DepthScan(s, 0).value);
    }
    IndexOfNone(s, ']');
    if ']' in s { IndexOfBefore(s, ']'); }
  }

  /** Reading a message up to the end of its first marker: a reference is taken out with its
      marker, a blank marker is copied, and what follows is read on its own. */
  lemma ReadStep(s: string, k: nat, from: nat, end: nat)
    requires Find(s, "[IMAGE:") == Some(k) && from == k + 7 && from <= end < |s|
    requires CloseOf(s[from..]) == Some(end - from)
    ensures
      var reference, rest := Trim(s[from..end]), s[end + 1..];
      && References(Pieces(s)) == (if reference == "" then [] else [reference]) + References(Pieces(rest))
      && CopiedText(Pieces(s)) == (if reference == "" then s[..end + 1] else s[..k]) + CopiedText(Pieces(rest))
  {
    hide Pieces, References, CopiedText, NextMarker, CloseOf, Trim;
    assert MARKER == "[IMAGE:";
    FirstMarker(s, k, from, end);
    PiecesStep(s);
    assert [] + References(Pieces(s[end + 1..])) == References(Pieces(s[end + 1..]));
  }

  lemma FirstMarker(s: string, k: nat, from: nat, end: nat)
    requires Find(s, MARKER) == Some(k) && from == k + |MARKER| && from <= end < |s|
    requires CloseOf(s[from..]) == Some(end - from)
    ensures NextMarker(s) == Some(Span(k, end + 1, Trim(s[from..end])))
  {
    var u := s[from..];
    assert u[..end - from] == s[from..end];
    NextMarkerIs(s, k, u, end - from, end + 1, s[from..end]);
  }

  /** Without a marker prefix, or without a bracket after it, all is copied. */
  lemma ReadEnd(s: string)
    requires match Find(s, "[IMAGE:") case None => true case Some(k) => CloseOf(s[k + 7..]).None?
    ensures References(Pieces(s)) == [] && CopiedText(Pieces(s)) == s
  {
    assert MARKER == "[IMAGE:";
    PiecesStep(s);
  }

  /** One marker a line. */
  function MarkerLines(refs: seq<string>): (r: seq<string>)
    ensures |r| == |refs|
  {
    if refs == [] then [] else ["[IMAGE:" + refs[0] + "]"] + MarkerLines(refs[1..])
  }

  lemma {:induction false} TailIsLines(sep: string, refs: seq<string>)
    requires refs != []
    ensures Tail(sep, refs) == sep + Join(MarkerLines(refs), "\n")
    decreases |refs|
  {
    var w, rest := Wrap(refs[0]), refs[1..];
    var lines := MarkerLines(refs);
    assert MARKER == "[IMAGE:";
    assert lines[0] == w && lines[1..] == MarkerLines(rest);
    if rest == [] {
      assert sep + w + "" == sep + w;
    } else {
      TailIsLines("\n", rest);
      var j := Join(MarkerLines(rest), "\n");
      Assoc(sep, w, "\n" + j);
      Assoc(w, "\n", j);
    }
  }

  /** The composed message: the trimmed text and a blank line, then one marker a line. */
  lemma ComposeIsLines(text: string, refs: seq<string>)
    ensures refs == [] ==> Compose(text, refs) == if Trim(text) == "" then "" else Trim(text) + "\n\n"
    ensures
      var start := if Trim(text) == "" then "" else Trim(text) + "\n\n";
      refs != [] ==> Compose(text, refs) == start + Join(MarkerLines(refs), "\n")
  {
    ComposeIs(text, refs);
    if refs != [] {
      TailIsLines("", refs);
      assert "" + Join(MarkerLines(refs), "\n") == Join(MarkerLines(refs), "\n");
    }
  }
}
