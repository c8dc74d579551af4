/** Counting, preparing and redacting the images of a message list:
    `count_image_markers`, `prepare_messages_for_provider` and
    `redact_historic_image_markers` of `src/multimodal.rs`.
    Fetching, reading and encoding one image is the function `norm`, which gives
    a data URI or none. */
module Preparation {
  import opened Text
  import opened Messages
  import opened Multimodal
  import opened Clearing

  /** Turns a reference into a data URI, or fails. */
  type Normaliser = string -> Option<string>

  datatype Prepared =
    | Ready(messages: seq<ChatMessage>, containsImages: bool)
    | TooManyImages(maxImages: nat, found: nat)
    | ImageFailed(reference: string)

  /** Image markers in the user messages (`count_image_markers`). */
  function CountImages(messages: seq<ChatMessage>): nat {
    if messages == [] then 0
    else (if messages[0].role == User then |Parse(messages[0].content).refs| else 0) + CountImages(messages[1..])
  }

  lemma CountImagesAppend(a: seq<ChatMessage>, b: seq<ChatMessage>)
    ensures CountImages(a + b) == CountImages(a) + CountImages(b)
  {
    if a == [] {
      assert a + b == b;
    } else {
      assert (a + b)[1..] == a[1..] + b;
    }
  }

  datatype RefsResult = Uris(uris: seq<string>) | Failed(reference: string)

  function NormaliseRefs(refs: seq<string>, norm: Normaliser): (r: RefsResult)
    ensures r.Uris? ==> |r.uris| == |refs|
  {
    if refs == [] then Uris([])
    else
      match norm(refs[0])
      case None => Failed(refs[0])
      case Some(uri) =>
        match NormaliseRefs(refs[1..], norm)
        case Failed(reference) => Failed(reference)
        case Uris(rest) => Uris([uri] + rest)
  }

  datatype OneResult = One(message: ChatMessage) | Unreadable(reference: string)

  /** One message with its images as data URIs. */
  function PrepareOne(m: ChatMessage, norm: Normaliser): OneResult {
    if m.role != User then One(m)
    else
      var p := Parse(m.content);
      if p.refs == [] then One(m)
      else
        match NormaliseRefs(p.refs, norm)
        case Failed(reference) => Unreadable(reference)
        case Uris(uris) => One(ChatMessage(User, Compose(p.cleaned, uris)))
  }

  datatype ListResult = Messages(messages: seq<ChatMessage>) | Broken(reference: string)

  function PrepareAll(ms: seq<ChatMessage>, norm: Normaliser): (r: ListResult)
    ensures r.Messages? ==> |r.messages| == |ms|
  {
    if ms == [] then Messages([])
    else
      match PrepareOne(ms[0], norm)
      case Unreadable(reference) => Broken(reference)
      case One(m) =>
        match PrepareAll(ms[1..], norm)
        case Broken(reference) => Broken(reference)
        case Messages(rest) => Messages([m] + rest)
  }

  /** `prepare_messages_for_provider`. */
  function Prepare(ms: seq<ChatMessage>, maxImages: nat, norm: Normaliser): Prepared {
    var found := CountImages(ms);
    if found > maxImages then TooManyImages(maxImages, found)
    else if found == 0 then Ready(ms, false)
    else
      match PrepareAll(ms, norm)
      case Broken(reference) => ImageFailed(reference)
      case Messages(prepared) => Ready(prepared, true)
  }

  /** What `normalize_image_reference` promises of a data URI: base64 and a MIME
      type from a fixed list, so neither brackets nor surrounding whitespace. */
  predicate DataUri(uri: string) {
    uri != "" && Trimmed(uri) && BracketFree(uri)
  }

  ghost predicate GivesDataUris(norm: Normaliser) {
    forall r :: norm(r).Some? ==> DataUri(norm(r).value)
  }

  lemma {:induction false} UrisAreGood(refs: seq<string>, norm: Normaliser)
    requires GivesDataUris(norm) && NormaliseRefs(refs, norm).Uris?
    ensures GoodRefs(NormaliseRefs(refs, norm).uris) && BracketFreeRefs(NormaliseRefs(refs, norm).uris)
  {
    if refs != [] {
      UrisAreGood(refs[1..], norm);
      BracketFreeDepth(norm(refs[0]).value, 0);
    }
  }

  /** A prepared message holds the images it was given plus whatever its own
      cleaned text now reads as: cutting a marker out can close up a new one. */
  lemma PreparedCount(m: ChatMessage, norm: Normaliser)
    requires GivesDataUris(norm) && PrepareOne(m, norm).One? && m.role == User
    ensures var p, q := Parse(m.content), Parse(PrepareOne(m, norm).message.content);
      |q.refs| == |p.refs| + (if p.refs == [] then 0 else CountRefs(p.cleaned))
  {
    var p := Parse(m.content);
    if p.refs != [] {
      UrisAreGood(p.refs, norm);
      var uris := NormaliseRefs(p.refs, norm).uris;
      TrimTrims(CopiedText(Pieces(m.content)));
      var sep := if p.cleaned == "" then "" else "\n\n";
      assert p.cleaned == "" ==> p.cleaned + Tail(sep, uris) == Tail(sep, uris);
      CountAdds(p.cleaned, sep, uris);
    }
  }

  /** A prepared message asks again for exactly the data URIs it stores, if and only if
      the text beside them is quiet. */
  lemma StoredReadsBack(m: ChatMessage, norm: Normaliser)
    requires GivesDataUris(norm) && PrepareOne(m, norm).One? && m.role == User && Parse(m.content).refs != []
    ensures
      var p := Parse(m.content);
      Parse(PrepareOne(m, norm).message.content).refs == NormaliseRefs(p.refs, norm).uris <==> Quiet(p.cleaned)
  {
    var p := Parse(m.content);
    UrisAreGood(p.refs, norm);
    TrimTrims(CopiedText(Pieces(m.content)));
    ComposedReads(p.cleaned, NormaliseRefs(p.refs, norm).uris);
  }

  lemma ComposedReads(t: string, uris: seq<string>)
    requires Trim(t) == t && uris != [] && GoodRefs(uris)
    ensures Parse(Compose(t, uris)).refs == uris <==> Quiet(t)
  {
    hide Compose, Quiet, Pieces, CopiedText, References, Tail, Trim;
    var sep := if t == "" then "" else "\n\n";
    ComposeIsTail(t, uris, t, sep);
    EmptyIsQuiet();
    if Quiet(t) {
      QuietParses(t, sep, uris);
    } else {
      LoudMisreads(t, sep, uris);
    }
  }

  /** Preparing what was prepared changes nothing, when the text beside the images is
      quiet and data URIs are left as they are. */
  lemma PreparedIsStable(m: ChatMessage, norm: Normaliser)
    requires GivesDataUris(norm) && PrepareOne(m, norm).One? && m.role == User
    requires forall r :: norm(r).Some? ==> norm(norm(r).value) == norm(r)
    requires Parse(m.content).refs == [] || Quiet(Parse(m.content).cleaned)
    ensures PrepareOne(PrepareOne(m, norm).message, norm) == PrepareOne(m, norm)
  {
    var p := Parse(m.content);
    if p.refs != [] {
      UrisAreGood(p.refs, norm);
      var uris := NormaliseRefs(p.refs, norm).uris;
      TrimTrims(CopiedText(Pieces(m.content)));
      ComposeParsesBack(p.cleaned, uris);
      NormaliseTwice(p.refs, norm);
    }
  }

  /** A reader of the one image `a`, whose data URI is `u`. */
  ghost predicate ReadsOnly(norm: Normaliser, a: string, u: string) {
    norm(a) == Some(u) && norm(u) == Some(u) && forall r :: r != a && r != u ==> norm(r).None?
  }

  /** A marker that is cut out, then one that is left open. */
  const LEFT_OPEN: string := "[IMAGE:a] [IMAGE:b"

  /** A marker left open before the images takes in the first stored data URI: the message
      was prepared once and can never be prepared again. */
  lemma StoredImageIsLost(norm: Normaliser, u: string, m: ChatMessage)
    requires ReadsOnly(norm, "a", u) && DataUri(u) && m == ChatMessage(User, LEFT_OPEN)
    ensures CountRefs(m.content) == 1 && PrepareOne(m, norm).One?
    ensures
      var stored := PrepareOne(m, norm).message;
      stored == ChatMessage(User, Compose("[IMAGE:b", [u])) && CountRefs(stored.content) == 1 && PrepareOne(stored, norm).Unreadable?
  {
    LeftOpenAfter(m.content, " [IMAGE:b");
    OneRef(norm, "a", u);
    LostIsUnreadable(norm, u, "[IMAGE:b", Compose("[IMAGE:b", [u]));
  }

  lemma OneRef(norm: Normaliser, a: string, u: string)
    requires norm(a) == Some(u)
    ensures NormaliseRefs([a], norm) == Uris([u])
  {
    assert [a][1..] == [];
  }

  lemma LostIsUnreadable(norm: Normaliser, u: string, w: string, stored: string)
    requires ReadsOnly(norm, "a", u) && DataUri(u) && w == "[IMAGE:b" && stored == Compose(w, [u])
    ensures CountRefs(stored) == 1 && PrepareOne(ChatMessage(User, stored), norm).Unreadable?
  {
    hide Parse, PrepareOne, NextMarker, CloseOf;
    BracketFreeDepth(u, 0);
    TrimFixpoint(w);
    OpenAtStart(w, "b");
    var m, f, c, left := NextSwallow(w, 0, "b", "\n\n", [u], stored);
    SwallowedWhole(u, f, left);
    SwallowedText(u, c);
    LoneReference(stored, m);
    OneUnreadable(norm, c, stored);
  }

  lemma OneUnreadable(norm: Normaliser, r: string, content: string)
    requires Parse(content).refs == [r] && norm(r).None?
    ensures CountRefs(content) == 1 && PrepareOne(ChatMessage(User, content), norm).Unreadable?
  {}

  lemma OpenAtStart(w: string, u: string)
    requires w == MARKER + u && ']' !in u
    ensures Find(w, MARKER) == Some(0) && u == w[0 + |MARKER|..] && CloseOf(u).None?
  {
    assert w[0..0 + |MARKER|] == MARKER;
    FindIs(w, MARKER, 0);
    IndexOfNone(u, ']');
  }

  lemma LoneReference(s: string, m: Span)
    requires NextMarker(s) == Some(m) && m.reference != "" && s[m.cut..] == ""
    ensures Parse(s).refs == [m.reference]
  {
    PastReference(s, m, s[..m.start], "");
    assert Find("", MARKER).None?;
    PiecesStep("");
  }

  lemma SwallowedText(u: string, c: string)
    requires DataUri(u) && c == "b" + "\n\n" + MARKER + u
    ensures Trim(c) == c && c != "a" && c != u
  {
    var b := "b" + "\n\n" + MARKER;
    assert c[|c| - 1] == u[|u| - 1];
    TrimFixpoint(c);
    assert c[3] == b[3] == '[';
  }

  lemma SwallowedWhole(u: string, f: nat, left: string)
    requires BracketFree(u) && f <= |u| && u + "]" == u[..f] + "]" + left && ']' !in u[..f]
    ensures f == |u| && left == "" && u[..f] == u
  {
    assert (u + "]")[f] == ']';
  }

  lemma {:induction false} NormaliseTwice(refs: seq<string>, norm: Normaliser)
    requires NormaliseRefs(refs, norm).Uris?
    requires forall r :: norm(r).Some? ==> norm(norm(r).value) == norm(r)
    ensures NormaliseRefs(NormaliseRefs(refs, norm).uris, norm) == NormaliseRefs(refs, norm)
  {
    if refs != [] {
      NormaliseTwice(refs[1..], norm);
      var uris := NormaliseRefs(refs, norm).uris;
      assert uris[1..] == NormaliseRefs(refs[1..], norm).uris;
    }
  }

  /** The last message comes out prepared on its own. */
  lemma {:induction false} PrepareAllLast(ms: seq<ChatMessage>, m: ChatMessage, norm: Normaliser)
    requires PrepareAll(ms + [m], norm).Messages?
    ensures PrepareOne(m, norm).One?
    ensures PrepareAll(ms + [m], norm).messages[|ms|] == PrepareOne(m, norm).message
  {
    var all := ms + [m];
    if ms == [] {
      assert all == [m] && all[1..] == [];
    } else {
      assert all[1..] == ms[1..] + [m];
      PrepareAllLast(ms[1..], m, norm);
    }
  }

  /** `prepare_messages_for_provider`, message by message and reference by reference. */
  method PrepareMessagesForProvider(messages: seq<ChatMessage>, maxImages: nat, norm: Normaliser) returns (r: Prepared)
    ensures r == Prepare(messages, maxImages, norm)
  {
    var found := CountImages(messages);
    if found > maxImages {
      return TooManyImages(maxImages, found);
    }
    if found == 0 {
      return Ready(messages, false);
    }
    var normalized: seq<ChatMessage> := [];
    var i := 0;
    ghost var rest := messages;
    while i < |messages|
      invariant i <= |messages| && rest == messages[i..]
      invariant PrepareAll(messages, norm) == Prepend(normalized, PrepareAll(rest, norm))
    {
      var message := messages[i];
      ghost var before := normalized;
      if message.role != User {
        normalized := normalized + [message];
      } else {
        var cleaned, refs := ParseImageMarkers(message.content);
        if refs == [] {
          normalized := normalized + [message];
        } else {
          var uris := PrepareRefs(refs, norm);
          if uris.Failed? {
            return ImageFailed(uris.reference);
          }
          var content := ComposeMultimodalMessage(cleaned, uris.uris);
          normalized := normalized + [ChatMessage(message.role, content)];
        }
      }
      PrependOne(before, message, rest[1..], norm);
      i, rest := i + 1, rest[1..];
    }
    assert normalized + [] == normalized;
    r := Ready(normalized, true);
  }

  ghost function Prepend(done: seq<ChatMessage>, rest: ListResult): ListResult {
    match rest
    case Broken(reference) => Broken(reference)
    case Messages(ms) => Messages(done + ms)
  }

  lemma PrependOne(done: seq<ChatMessage>, m: ChatMessage, rest: seq<ChatMessage>, norm: Normaliser)
    requires PrepareOne(m, norm).One?
    ensures Prepend(done, PrepareAll([m] + rest, norm)) == Prepend(done + [PrepareOne(m, norm).message], PrepareAll(rest, norm))
  {
    assert ([m] + rest)[1..] == rest;
    if PrepareAll(rest, norm).Messages? {
      Assoc(done, [PrepareOne(m, norm).message], PrepareAll(rest, norm).messages);
    }
  }

  method PrepareRefs(refs: seq<string>, norm: Normaliser) returns (r: RefsResult)
    ensures r == NormaliseRefs(refs, norm)
  {
    var uris: seq<string> := [];
    var i := 0;
    ghost var rest := refs;
    while i < |refs|
      invariant i <= |refs| && rest == refs[i..]
      invariant NormaliseRefs(refs, norm) == (match NormaliseRefs(rest, norm) case Failed(f) => Failed(f) case Uris(us) => Uris(uris + us))
    {
      var uri := norm(refs[i]);
      if uri.None? {
        return Failed(refs[i]);
      }
      if NormaliseRefs(rest[1..], norm).Uris? {
        Assoc(uris, [uri.value], NormaliseRefs(rest[1..], norm).uris);
      }
      uris := uris + [uri.value];
      i, rest := i + 1, rest[1..];
    }
    assert uris + [] == uris;
    r := Uris(uris);
  }

  // ---------------------------------------------------------------------------
  // Providers without vision

  const NOTE_TEXT: string := "image omitted: this model cannot receive images"
  const OMITTED_NOTE: string := "[" + NOTE_TEXT + "]"

  function OmittedNote(n: nat): string {
    if n == 1 then OMITTED_NOTE else OMITTED_NOTE + (" (x" + Decimal(n) + ")")
  }

  /** A historic user message with its images replaced by a note. */
  function RedactOne(m: ChatMessage): ChatMessage {
    var p := Parse(m.content);
    if m.role != User || p.refs == [] then m
    else
      var cleaned := Trim(p.cleaned);
      var note := OmittedNote(|p.refs|);
      m.(content := if cleaned == "" then note else cleaned + "\n" + note)
  }

  /** `redact_historic_image_markers`: every message but the last. */
  function Redact(ms: seq<ChatMessage>): seq<ChatMessage> {
    if |ms| <= 1 then ms else [RedactOne(ms[0])] + Redact(ms[1..])
  }

  lemma NoteTextIsPlain()
    ensures BracketFree(NOTE_TEXT) && NOTE_TEXT != "" && NOTE_TEXT[0] == 'i'
  {
    var a, b := "image omitted: this model", " cannot receive images";
    assert NOTE_TEXT == a + b;
    PlainJoin(a, b, NOTE_TEXT);
  }

  lemma PlainJoin(a: string, b: string, s: string)
    requires BracketFree(a) && BracketFree(b) && a != "" && s == a + b
    ensures BracketFree(s) && s[0] == a[0]
  {}

  /** The note closes what was open before it, and is no marker itself. */
  lemma NoteIsPlain(n: nat, z: string)
    requires z == "\n" + OmittedNote(n)
    ensures Opens(z) && CountRefs(z) == 0 && CountRefs(OmittedNote(n)) == 0
  {
    NoteTextIsPlain();
    var tail := if n == 1 then "" else " (x" + Decimal(n) + ")";
    assert OmittedNote(n) == OMITTED_NOTE + tail;
    TailIsPlain(n, tail);
    NoteShape(NOTE_TEXT, tail, OmittedNote(n));
    NoteCloses(NOTE_TEXT, tail, OmittedNote(n), z);
  }

  lemma TailIsPlain(n: nat, tail: string)
    requires tail == if n == 1 then "" else " (x" + Decimal(n) + ")"
    ensures BracketFree(tail)
  {
    DecimalDigits(n);
  }

  lemma NoteShape(inner: string, tail: string, note: string)
    requires BracketFree(inner) && BracketFree(tail) && inner != "" && inner[0] == 'i'
    requires note == "[" + inner + "]" + tail
    ensures CountRefs(note) == 0
  {
    forall j: nat
      ensures !OccursAt(note, MARKER, j)
    {
      if j + |MARKER| <= |note| {
        assert note[j..j + |MARKER|][0] == note[j] && note[j..j + |MARKER|][1] == note[j + 1];
        assert j == 0 ==> note[1] == inner[0];
      }
    }
    CountNone(note);
  }

  lemma NoteCloses(inner: string, tail: string, note: string, z: string)
    requires BracketFree(inner) && note == "[" + inner + "]" + tail && z == "\n" + note
    ensures Opens(z) && CountRefs(z) == CountRefs(note)
  {
    assert Find("", MARKER).None?;
    assert z == "" + ['\n'] + note;
    CountPast("", '\n', note);
    var a, y := "\n" + "[" + inner, "]" + tail;
    assert z == a + y;
    assert y[0] == ']';
    LineOpens(a, y, z);
  }

  /** The promise made for providers without vision, that a historic message no
      longer counts as an image, holds exactly when the cleaned text is quiet. */
  lemma RedactedIsClear(m: ChatMessage)
    requires m.role == User && Parse(m.content).refs != []
    ensures Parse(RedactOne(m).content).refs == [] <==> Quiet(Parse(m.content).cleaned)
  {
    var p := Parse(m.content);
    TrimTrims(CopiedText(Pieces(m.content)));
    var note := OmittedNote(|p.refs|);
    var z := "\n" + note;
    NoteIsPlain(|p.refs|, z);
    if p.cleaned == "" {
      assert Quiet("");
    } else {
      ClearSplits(p.cleaned, z);
      assert p.cleaned + "\n" + note == p.cleaned + z;
    }
  }

  predicate Redactable(m: ChatMessage) {
    m.role == User ==> Parse(m.content).refs == [] || Quiet(Parse(m.content).cleaned)
  }

  /** When every earlier cleaned text is quiet, only the last message still counts,
      so a session that once held an image is not refused for ever. */
  lemma {:induction false} RedactLeavesLast(ms: seq<ChatMessage>)
    requires ms != [] && forall i :: 0 <= i < |ms| - 1 ==> Redactable(ms[i])
    ensures CountImages(Redact(ms)) == CountImages([ms[|ms| - 1]])
  {
    if |ms| == 1 {
      assert ms == [ms[0]];
    } else {
      RedactedCount(ms[0]);
      RedactLeavesLast(ms[1..]);
      CountImagesAppend([RedactOne(ms[0])], Redact(ms[1..]));
    }
  }

  lemma RedactedCount(m: ChatMessage)
    requires Redactable(m)
    ensures CountImages([RedactOne(m)]) == 0
  {
    if m.role == User && Parse(m.content).refs != [] {
      RedactedIsClear(m);
    }
    assert [RedactOne(m)][1..] == [];
  }

  /** A marker left open before one that is cut out: the note then closes it, and the
      redacted message still counts as an image. */
  lemma RedactionCanLeaveAnImage()
    ensures var m := ChatMessage(User, LEFT_OPEN);
      Parse(m.content).refs != [] && Parse(RedactOne(m).content).refs != []
  {
    var s, t := LEFT_OPEN, " [IMAGE:b";
    LeftOpenAfter(s, t);
    LeftOpen("[IMAGE:b", 0);
    RedactedIsClear(ChatMessage(User, s));
  }

  lemma LeftOpenAfter(s: string, t: string)
    requires s == "" + ("" + Wrap("a") + t) && t == " " + "[IMAGE:b"
    ensures Parse(s) == Parsed("[IMAGE:b", ["a"])
  {
    hide Pieces, CopiedText, References, Quiet, Trim;
    GoodA();
    NextNewAt("", "", "a", t, s, 0, 9);
    PastReference(s, Span(0, 9, "a"), "", t);
    LeftOpen(t, 1);
    PiecesStep(t);
    assert "" + t == t == " " + "[IMAGE:b" + "";
    TrimBetween(" ", "[IMAGE:b", "");
  }

  lemma GoodA()
    ensures GoodRef("a") && Find("", MARKER).None?
  {
    BracketFreeDepth("a", 0);
  }

  lemma LeftOpen(t: string, k: nat)
    requires k <= 1 && t == (if k == 0 then "" else " ") + "[IMAGE:b"
    ensures NextMarker(t).None? && !Quiet(t)
  {
    var w := "[IMAGE:b";
    OpenAtStart(w, "b");
    if k == 1 {
      assert Find("", MARKER).None? && ' ' !in MARKER;
      FindPast("", ' ', w, t, 1);
      assert t[1 + |MARKER|..] == "b";
    } else {
      assert t == w;
    }
  }

  // ---------------------------------------------------------------------------
  // What preparing gives, message by message

  /** Every reference is replaced by what the reader gives for it, in its place. */
  predicate ReadAll(refs: seq<string>, norm: Normaliser, uris: seq<string>) {
    |uris| == |refs| && forall i :: 0 <= i < |refs| ==> norm(refs[i]) == Some(uris[i])
  }

  /** The first reference that the reader cannot give. */
  predicate FirstUnread(refs: seq<string>, norm: Normaliser, reference: string) {
    exists i :: 0 <= i < |refs| && refs[i] == reference && norm(reference).None? && forall j :: 0 <= j < i ==> norm(refs[j]).Some?
  }

  lemma {:induction false} NormaliseIs(refs: seq<string>, norm: Normaliser)
    ensures match NormaliseRefs(refs, norm)
      case Uris(uris) => ReadAll(refs, norm, uris)
      case Failed(reference) => FirstUnread(refs, norm, reference)
  {
    if refs != [] {
      var rest := refs[1..];
      NormaliseIs(rest, norm);
      assert forall i :: 0 <= i < |rest| ==> rest[i] == refs[i + 1];
      match NormaliseRefs(refs, norm)
      case Uris(uris) =>
      case Failed(reference) =>
        if norm(refs[0]).None? {
          assert refs[0] == reference;
        } else {
          var i :| 0 <= i < |rest| && rest[i] == reference && norm(reference).None? && forall j :: 0 <= j < i ==> norm(rest[j]).Some?;
          LaterUnread(refs, norm, reference, i);
        }
    }
  }

  lemma LaterUnread(refs: seq<string>, norm: Normaliser, reference: string, i: nat)
    requires i + 1 < |refs| && norm(refs[0]).Some? && refs[i + 1] == reference && norm(reference).None?
    requires forall j :: 0 <= j < i ==> norm(refs[1..][j]).Some?
    ensures FirstUnread(refs, norm, reference)
  {
    forall j | 0 <= j < i + 1
      ensures norm(refs[j]).Some?
    {
      if j > 0 { assert refs[j] == refs[1..][j - 1]; }
    }
  }

  /** Other roles and messages without images are kept as they are; in the others every
      reference becomes its data URI, behind the same cleaned text. */
  lemma PrepareOneIs(m: ChatMessage, norm: Normaliser)
    ensures
      var p := Parse(m.content);
      if m.role != User || p.refs == [] then PrepareOne(m, norm) == One(m)
      else match PrepareOne(m, norm)
        case One(r) => exists uris :: ReadAll(p.refs, norm, uris) && r == ChatMessage(User, Compose(p.cleaned, uris))
        case Unreadable(reference) => FirstUnread(p.refs, norm, reference)
  {
    hide Parse, Compose;
    NormaliseIs(Parse(m.content).refs, norm);
  }

  /** The message at `i` is the first with an unreadable image, and this is the image. */
  predicate BrokenAt(ms: seq<ChatMessage>, norm: Normaliser, reference: string, i: nat)
    requires i < |ms|
  {
    PrepareOne(ms[i], norm) == Unreadable(reference) && forall j :: 0 <= j < i ==> PrepareOne(ms[j], norm).One?
  }

  predicate FirstBroken(ms: seq<ChatMessage>, norm: Normaliser, reference: string) {
    exists i :: 0 <= i < |ms| && BrokenAt(ms, norm, reference, i)
  }

  lemma {:induction false} PrepareAllIs(ms: seq<ChatMessage>, norm: Normaliser)
    ensures match PrepareAll(ms, norm)
      case Messages(r) => |r| == |ms| && forall i :: 0 <= i < |ms| ==> PrepareOne(ms[i], norm) == One(r[i])
      case Broken(reference) => FirstBroken(ms, norm, reference)
  {
    hide PrepareOne;
    if ms != [] {
      var rest := ms[1..];
      PrepareAllIs(rest, norm);
      assert forall i :: 0 <= i < |rest| ==> rest[i] == ms[i + 1];
      match PrepareAll(ms, norm)
      case Messages(r) =>
      case Broken(reference) =>
        if PrepareOne(ms[0], norm).Unreadable? {
          assert BrokenAt(ms, norm, reference, 0);
        } else {
          var i :| 0 <= i < |rest| && BrokenAt(rest, norm, reference, i);
          forall j | 0 <= j < i + 1
            ensures PrepareOne(ms[j], norm).One?
          {
            if j > 0 { assert ms[j] == rest[j - 1]; }
          }
          assert BrokenAt(ms, norm, reference, i + 1);
        }
    }
  }

  /** The images of a message list are those of its user messages. */
  lemma CountLast(ms: seq<ChatMessage>, m: ChatMessage)
    ensures CountImages(ms + [m]) == CountImages(ms) + (if m.role == User then |Parse(m.content).refs| else 0)
  {
    CountImagesAppend(ms, [m]);
    assert [m][1..] == [];
  }

  /** A list with more images than the limit is refused with both numbers, one without any
      is handed on, and any other is prepared whole or fails at its first unreadable image. */
  lemma PrepareIs(ms: seq<ChatMessage>, maxImages: nat, norm: Normaliser)
    ensures
      var found := CountImages(ms);
      if found > maxImages then Prepare(ms, maxImages, norm) == TooManyImages(maxImages, found)
      else if found == 0 then Prepare(ms, maxImages, norm) == Ready(ms, false)
      else match PrepareAll(ms, norm)
        case Messages(r) => Prepare(ms, maxImages, norm) == Ready(r, true)
        case Broken(reference) => Prepare(ms, maxImages, norm) == ImageFailed(reference)
  {}

  /** A redacted message keeps its role and cleaned text, and says how many images it had. */
  lemma RedactedSays(m: ChatMessage)
    ensures
      var p := Parse(m.content);
      var note := "[" + "image omitted: this model cannot receive images" + "]" + (if |p.refs| == 1 then "" else " (x" + Decimal(|p.refs|) + ")");
      RedactOne(m) == if m.role != User || p.refs == [] then m
        else ChatMessage(User, (if p.cleaned == "" then "" else p.cleaned + "\n") + note)
  {
    var p := Parse(m.content);
    TrimTrims(CopiedText(Pieces(m.content)));
    NoteLiteral(|p.refs|, if |p.refs| == 1 then "" else " (x" + Decimal(|p.refs|) + ")");
    assert "" + OmittedNote(|p.refs|) == OmittedNote(|p.refs|);
  }

  lemma NoteLiteral(n: nat, tail: string)
    requires tail == if n == 1 then "" else " (x" + Decimal(n) + ")"
    ensures OmittedNote(n) == "[" + "image omitted: this model cannot receive images" + "]" + tail
  {
    assert OMITTED_NOTE + "" == OMITTED_NOTE;
  }

  /** Every message but the last is redacted, in its place. */
  lemma {:induction false} RedactAt(ms: seq<ChatMessage>, i: nat)
    requires i < |ms|
    ensures |Redact(ms)| == |ms| && Redact(ms)[i] == if i == |ms| - 1 then ms[i] else RedactOne(ms[i])
  {
    if |ms| > 1 {
      RedactAt(ms[1..], if i > 0 then i - 1 else 0);
    }
  }
}
