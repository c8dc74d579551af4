/** The image limit of a session: `prepare_new_turn` of `src/agent/agent.rs` judges each
    message with the history, and stores it prepared. What each operation adds to the
    images of the user messages, and when they stay within the limit over whole runs. */
module ImageCap {
  import opened Text
  import opened Messages
  import opened History
  import opened Multimodal
  import opened Preparation
  import opened Clearing
  import opened ToolFrames
  import opened Turns
  import opened Runs

  /** Image markers in the user messages of a history. */
  function UserImages(h: seq<Messages.Message>): nat {
    if h == [] then 0
    else (if IsUser(h[0]) then CountRefs(h[0].chat.content) else 0) + UserImages(h[1..])
  }

  lemma {:induction false} UserImagesAppend(a: seq<Messages.Message>, b: seq<Messages.Message>)
    ensures UserImages(a + b) == UserImages(a) + UserImages(b)
  {
    if a == [] {
      assert a + b == b;
    } else {
      assert (a + b)[1..] == a[1..] + b;
      UserImagesAppend(a[1..], b);
    }
  }

  lemma ResultMessagesHoldNone(cfg: Config, results: seq<ToolResult>)
    ensures CountImages(ResultMessages(cfg, results)) == 0
  {}

  /** A provider sees the user entries as user messages; with native tool calls no others. */
  lemma {:induction false} SeenCount(cfg: Config, h: seq<Messages.Message>)
    ensures UserImages(h) <= CountImages(ProviderMessages(cfg, h))
    ensures cfg.native ==> CountImages(ProviderMessages(cfg, h)) == UserImages(h)
  {
    if h != [] {
      SeenCount(cfg, h[1..]);
      CountImagesAppend(EntryMessages(cfg, h[0]), ProviderMessages(cfg, h[1..]));
      EntryCount(cfg, h[0]);
    }
  }

  lemma EntryCount(cfg: Config, m: Messages.Message)
    ensures
      var seen, own := CountImages(EntryMessages(cfg, m)), if IsUser(m) then CountRefs(m.chat.content) else 0;
      own <= seen && (cfg.native ==> seen == own)
  {
    match m
    case Chat(chat) => assert [chat][1..] == [];
    case ToolCalls(text, calls) => assert EntryMessages(cfg, m)[1..] == [];
    case ToolResults(results) => ResultMessagesHoldNone(cfg, results);
  }

  lemma {:induction false} SplitCount(h: seq<Messages.Message>)
    ensures UserImages(Systems(h)) == 0 && UserImages(Others(h)) == UserImages(h)
  {
    if h != [] {
      SplitCount(h[1..]);
      UserImagesAppend([h[0]], Others(h[1..]));
      UserImagesAppend([h[0]], Systems(h[1..]));
      assert [h[0]][1..] == [];
      assert [] + Others(h[1..]) == Others(h[1..]) && [] + Systems(h[1..]) == Systems(h[1..]);
    }
  }

  lemma SuffixCount(h: seq<Messages.Message>, k: nat)
    requires k <= |h|
    ensures UserImages(h[k..]) <= UserImages(h)
  {
    SplitMessages(h, k);
    UserImagesAppend(h[..k], h[k..]);
  }

  lemma TrimCount(h: seq<Messages.Message>, max: nat)
    ensures UserImages(TrimTo(h, max)) <= UserImages(h)
  {
    if |h| > max {
      var others := Others(h);
      SplitCount(h);
      SuffixCount(others, |others| - |KeptOthers(others, max)|);
      assert others[|others| - |KeptOthers(others, max)|..] == KeptOthers(others, max);
      UserImagesAppend(Systems(h), KeptOthers(others, max));
    }
  }

  lemma CompactCount(h: seq<Messages.Message>, keepLast: nat, reply: Reply)
    requires CompactTo(h, keepLast, reply).Some?
    ensures UserImages(CompactTo(h, keepLast, reply).value) <= UserImages(h)
  {
    var split := SplitIndex(h, if keepLast == 0 then 1 else keepLast).value;
    SplitCount(h);
    SuffixCount(h, split);
    var sys := Systems(h) + [Envelope(reply.text)];
    UserImagesAppend(Systems(h), [Envelope(reply.text)]);
    assert [Envelope(reply.text)][1..] == [];
    UserImagesAppend(sys, h[split..]);
  }

  // ---------------------------------------------------------------------------
  // One message

  /** Images that a message would gain by its own cleaned text being read again. */
  function Closing(content: string): nat {
    if Parse(content).refs == [] then 0 else CountRefs(Parse(content).cleaned)
  }

  predicate Judged(cfg: Config) {
    cfg.vision && cfg.native
  }

  /** What a sent message adds, on a provider with vision: its own images, and those its
      cleaned text closes up. It was sent only if all that is seen fits. */
  lemma SentCount(cfg: Config, h: seq<Messages.Message>, content: string)
    requires cfg.vision && GivesDataUris(cfg.norm) && Turns.PrepareNewTurn(cfg, h, content).Sendable?
    ensures
      var sent := h + [UserMessage(Turns.PrepareNewTurn(cfg, h, content).content)];
      && UserImages(h) + CountRefs(content) <= CountImages(ProviderMessages(cfg, h)) + CountRefs(content) <= cfg.maxImages
      && UserImages(sent) == UserImages(h) + CountRefs(content) + Closing(content)
  {
    hide UserImages, Closing, CountRefs;
    SeenCount(cfg, h);
    SentHolds(cfg, h, content);
    var sent := UserMessage(Turns.PrepareNewTurn(cfg, h, content).content);
    UserImagesAppend(h, [sent]);
    SingleCount(sent);
  }

  lemma SentHolds(cfg: Config, h: seq<Messages.Message>, content: string)
    requires cfg.vision && GivesDataUris(cfg.norm) && Turns.PrepareNewTurn(cfg, h, content).Sendable?
    ensures CountImages(ProviderMessages(cfg, h)) + CountRefs(content) <= cfg.maxImages
    ensures CountRefs(Turns.PrepareNewTurn(cfg, h, content).content) == CountRefs(content) + Closing(content)
  {
    hide Pieces, References, CopiedText, Trim, Prepare, PrepareAll, PrepareOne;
    var m, pm := ChatMessage(User, content), ProviderMessages(cfg, h);
    CountOneMore(pm, m);
    SentIs(cfg, h, content, pm, m);
    if CountImages(pm + [m]) > 0 { PreparedCount(m, cfg.norm); }
  }

  /** What is sent: the message as it is when nothing names an image, else as prepared. */
  lemma SentIs(cfg: Config, h: seq<Messages.Message>, content: string, pm: seq<ChatMessage>, m: ChatMessage)
    requires cfg.vision && Turns.PrepareNewTurn(cfg, h, content).Sendable?
    requires pm == ProviderMessages(cfg, h) && m == ChatMessage(User, content)
    ensures CountImages(pm + [m]) <= cfg.maxImages
    ensures
      var sent := Turns.PrepareNewTurn(cfg, h, content).content;
      if CountImages(pm + [m]) == 0 then sent == content
      else PrepareOne(m, cfg.norm).One? && sent == PrepareOne(m, cfg.norm).message.content
  {
    hide Parse, PrepareOne, CountImages;
    if CountImages(pm + [m]) > 0 { PrepareAllLast(pm, m, cfg.norm); }
  }

  lemma CountOneMore(ms: seq<ChatMessage>, m: ChatMessage)
    requires m.role == User
    ensures CountImages(ms + [m]) == CountImages(ms) + CountRefs(m.content)
  {
    CountImagesAppend(ms, [m]);
    assert [m][1..] == [];
  }

  // ---------------------------------------------------------------------------
  // A stored turn whose images cannot be sent

  const NOT_SENT: string := "[image not sent: "

  lemma NotSentIsPlain()
    ensures Find("[image not sent:", MARKER).None? && ' ' !in MARKER
  {
    var s := "[image not sent:";
    forall j: nat
      ensures !OccursAt(s, MARKER, j)
    {
      if j + |MARKER| <= |s| {
        assert s[j..j + |MARKER|][0] == s[j] && s[j..j + |MARKER|][1] == s[j + 1];
      }
    }
  }

  /** A placeholder opens a bracket and closes it. */
  lemma LineIsOpening(r: string, z: string)
    requires z == "\n" + (NOT_SENT + r + "]")
    ensures Opens(z)
  {
    var a, y := "\n" + NOT_SENT, r + "]";
    assert z == a + y;
    assert a[1] == '[' && ']' !in a;
    assert y[|r|] == ']';
    LineOpens(a, y, z);
  }

  /** It reads as its reference does, with the bracket that closes both. */
  lemma LineReads(r: string, line: string)
    requires line == NOT_SENT + r + "]"
    ensures References(Pieces(line)) == References(Pieces(r + "]"))
    ensures References(Pieces("\n" + line)) == References(Pieces(line))
  {
    NotSentIsPlain();
    PastLine("[image not sent:", r + "]", line);
  }

  lemma PastLine(a: string, y: string, line: string)
    requires Find(a, MARKER).None? && ' ' !in MARKER && line == a + " " + y
    ensures References(Pieces(line)) == References(Pieces(y))
    ensures References(Pieces("\n" + line)) == References(Pieces(line))
  {
    hide Pieces, References, AllClosed;
    assert line == a + [' '] + y;
    ReferencesPast(a, ' ', y);
    EmptyIsQuiet();
    assert "\n" + line == "" + ['\n'] + line;
    ReferencesPast("", '\n', line);
  }

  lemma OnePlaceholder(text: string, r: string, line: string, head: string, good: string -> bool)
    requires line == NOT_SENT + r + "]" && head == (if text == "" then line else text + ("\n" + line)) && NoBracket(good)
    ensures AllGood(head, good) <==> Fine(text, good) && Fine(r + "]", good)
    ensures AllClosed(head)
  {
    LineReads(r, line);
    ClosedEnd(head);
    ClosedEnd(r + "]");
    if text == "" {
      EmptyIsQuiet();
      GoodNone("", good);
    } else {
      LineIsOpening(r, "\n" + line);
      GoodSplits(text, "\n" + line, good);
    }
  }

  /** In the placeholder, where its bracket closes it, every reference is fine. */
  predicate FineRefs(refs: seq<string>, good: string -> bool) {
    forall i :: 0 <= i < |refs| ==> Fine(refs[i] + "]", good)
  }

  /** All that placeholders read as passes, exactly when the text and every reference,
      closed by its bracket, are fine. */
  lemma {:induction false} PlaceholdersRead(text: string, refs: seq<string>, good: string -> bool)
    requires NoBracket(good)
    ensures refs == [] ==> Placeholders(text, refs) == text
    ensures refs != [] ==> (AllGood(Placeholders(text, refs), good) <==> Fine(text, good) && FineRefs(refs, good))
    decreases |refs|
  {
    if refs != [] {
      var r, rest := refs[0], refs[1..];
      var line := NOT_SENT + r + "]";
      var head := if text == "" then line else text + ("\n" + line);
      NextPlaceholder(text, refs, line, head);
      OnePlaceholder(text, r, line, head, good);
      PlaceholdersRead(head, rest, good);
      FineRefsSplit(refs, good);
    }
  }

  predicate QuietRefs(refs: seq<string>) {
    forall i :: 0 <= i < |refs| ==> Quiet(refs[i] + "]")
  }

  /** Placeholders hold no image exactly when the text and every reference, closed by its
      bracket, hold no marker but closed blank ones. */
  lemma PlaceholdersHoldNone(text: string, refs: seq<string>)
    ensures refs == [] ==> Placeholders(text, refs) == text
    ensures refs != [] ==> (CountRefs(Placeholders(text, refs)) == 0 <==> Quiet(text) && QuietRefs(refs))
  {
    NeverGood(Placeholders(text, refs));
    PlaceholdersRead(text, refs, Never());
    QuietIff(text);
    QuietRefsFine(refs);
  }

  lemma QuietRefsFine(refs: seq<string>)
    ensures QuietRefs(refs) <==> FineRefs(refs, Never())
  {
    forall i | 0 <= i < |refs| { QuietIff(refs[i] + "]"); }
  }

  lemma NextPlaceholder(text: string, refs: seq<string>, line: string, head: string)
    requires refs != [] && line == NOT_SENT + refs[0] + "]"
    requires head == if text == "" then line else text + ("\n" + line)
    ensures Placeholders(text, refs) == Placeholders(head, refs[1..])
  {
    var r, before := refs[0], if text == "" then "" else text + "\n";
    Assoc(before, NOT_SENT, r);
    Assoc(before, NOT_SENT + r, "]");
    Assoc(text, "\n", line);
    assert before + NOT_SENT + r + "]" == before + line;
    assert "" + line == line;
  }

  lemma FineRefsSplit(refs: seq<string>, good: string -> bool)
    requires refs != []
    ensures FineRefs(refs, good) <==> Fine(refs[0] + "]", good) && FineRefs(refs[1..], good)
  {
    assert forall i :: 1 <= i < |refs| ==> refs[i] == refs[1..][i - 1];
    assert forall i :: 0 <= i < |refs| - 1 ==> refs[1..][i] == refs[i + 1];
  }

  // ---------------------------------------------------------------------------
  // Whole runs

  /** What is put back for a stored turn holds no image but those that were judged: its
      cleaned text and, for a placeholder, its references hold none themselves. */
  predicate Tame(content: string) {
    var p := Parse(content);
    p.refs == [] || (Quiet(p.cleaned) && QuietRefs(p.refs))
  }

  /** Without vision nothing is judged and the text is stored as it is. */
  predicate TamePrior(cfg: Config, p: Prior) {
    p.role == "system" || p.role == "assistant" || (if cfg.vision then Tame(p.content) else CountRefs(p.content) == 0)
  }

  predicate TameTurns(cfg: Config, prior: seq<Prior>) {
    forall i :: 0 <= i < |prior| ==> TamePrior(cfg, prior[i])
  }

  predicate TameTurn(cfg: Config, content: string) {
    if cfg.vision then Closing(content) == 0 else CountRefs(content) == 0
  }

  /** What the loop appends as user messages names no image: the nudge that asks for a
      summary and, with the XML dispatcher, the results. */
  predicate TameLoop(cfg: Config, run: LoopRun) {
    && (forall i :: 0 <= i < |run.rounds| ==> TameResults(cfg, run.rounds[i].results))
    && match run.ending
      case Nudged(nudge) => CountRefs(nudge) == 0
      case Summarised(nudge, _) => CountRefs(nudge) == 0
      case _ => true
  }

  predicate TameResults(cfg: Config, results: seq<Execution>) {
    cfg.native || CountRefs(HEADING + RenderAll(ResultBlocks(results))) == 0
  }

  /** The condition on one operation. An adopted session must fit the new limit. */
  ghost predicate TameOp(cfg: Config, op: Op) {
    match op
    case Turn(enriched, _, run, norm) => GivesDataUris(norm) && TameTurn(cfg, enriched) && TameLoop(cfg, run)
    case Compact(_, _) => true
    case Clear => true
    case Restore(prior, _, norm) => GivesDataUris(norm) && TameTurns(cfg, prior)
    case Reseed(turns, _, norm) => GivesDataUris(norm) && TameTurns(cfg, turns)
    case Adopt(previous, previousCfg, prompt) => prompt.Some? ==> UserImages(Run(previousCfg, previous)) <= cfg.maxImages
  }

  ghost predicate TameRun(cfg: Config, ops: seq<Op>) {
    forall i :: 0 <= i < |ops| ==> TameOp(cfg, ops[i])
  }

  lemma {:induction false} RoundsHoldNone(cfg: Config, rounds: seq<Round>)
    requires forall i :: 0 <= i < |rounds| ==> TameResults(cfg, rounds[i].results)
    ensures UserImages(RoundEntries(cfg, rounds)) == 0
  {
    if rounds != [] {
      var call, result := ToolCalls(Some(rounds[0].text), rounds[0].calls), ResultEntry(cfg, rounds[0].results);
      assert forall i :: 0 <= i < |rounds[1..]| ==> rounds[1..][i] == rounds[i + 1];
      assert TameResults(cfg, rounds[0].results);
      RoundsHoldNone(cfg, rounds[1..]);
      TwoHoldNone(call, result);
      UserImagesAppend([call, result], RoundEntries(cfg, rounds[1..]));
    }
  }

  lemma TwoHoldNone(a: Messages.Message, b: Messages.Message)
    requires UserImages([a]) == 0 && UserImages([b]) == 0
    ensures UserImages([a, b]) == 0
  {
    UserImagesAppend([a], [b]);
    assert [a] + [b] == [a, b];
  }

  lemma LoopHoldsNone(cfg: Config, run: LoopRun)
    requires TameLoop(cfg, run)
    ensures UserImages(LoopEntries(cfg, run)) == 0
  {
    RoundsHoldNone(cfg, run.rounds);
    var e := EndingEntries(run.ending);
    UserImagesAppend(RoundEntries(cfg, run.rounds), e);
    match run.ending
    case Stopped =>
    case Replied(text) => SingleCount(e[0]);
    case Nudged(nudge) => SingleCount(e[0]);
    case Summarised(nudge, text) =>
      SingleCount(e[0]);
      SingleCount(e[1]);
      UserImagesAppend([e[0]], [e[1]]);
  }

  lemma SingleCount(m: Messages.Message)
    ensures UserImages([m]) == if IsUser(m) then CountRefs(m.chat.content) else 0
  {
    assert [m][1..] == [];
  }

  lemma TurnCap(cfg: Config, h: seq<Messages.Message>, enriched: string, prompt: Option<string>, run: LoopRun)
    requires GivesDataUris(cfg.norm) && UserImages(h) <= cfg.maxImages
    requires TameTurn(cfg, enriched) && TameLoop(cfg, run)
    ensures UserImages(TurnTo(cfg, h, enriched, prompt, run)) <= cfg.maxImages
  {
    if h != [] || prompt.Some? {
      var h0 := if h == [] then [SystemMessage(prompt.value)] else h;
      assert h == [] ==> UserImages(h0) == 0;
      var t := Turns.PrepareNewTurn(cfg, h0, enriched);
      if t.Sendable? {
        SentCap(cfg, h0, enriched);
        var sent := h0 + [UserMessage(t.content)];
        LoopHoldsNone(cfg, run);
        UserImagesAppend(sent, LoopEntries(cfg, run));
        TrimCount(sent + LoopEntries(cfg, run), cfg.maxHistory);
      }
    }
  }

  lemma SentCap(cfg: Config, h: seq<Messages.Message>, content: string)
    requires GivesDataUris(cfg.norm) && UserImages(h) <= cfg.maxImages && TameTurn(cfg, content)
    requires Turns.PrepareNewTurn(cfg, h, content).Sendable?
    ensures UserImages(h + [UserMessage(Turns.PrepareNewTurn(cfg, h, content).content)]) <= cfg.maxImages
  {
    if cfg.vision {
      SentCount(cfg, h, content);
    } else {
      SingleCount(UserMessage(content));
      UserImagesAppend(h, [UserMessage(content)]);
    }
  }

  lemma TameCloses(content: string)
    requires Tame(content)
    ensures Closing(content) == 0
  {
    if Parse(content).refs != [] { QuietIsClear(Parse(content).cleaned); }
  }

  /** What a refused stored turn is put back as holds no image, exactly when it is tame. */
  lemma TameIsClear(content: string)
    ensures var p := Parse(content); CountRefs(Placeholders(p.cleaned, p.refs)) == 0 <==> Tame(content)
  {
    var p := Parse(content);
    PlaceholdersHoldNone(p.cleaned, p.refs);
    if p.refs == [] { NoReferencesStay(content); }
  }

  lemma PriorCap(cfg: Config, h: seq<Messages.Message>, p: Prior)
    requires GivesDataUris(cfg.norm) && UserImages(h) <= cfg.maxImages && TamePrior(cfg, p)
    ensures UserImages(h + [PriorMessage(cfg, h, p)]) <= cfg.maxImages
  {
    var m := PriorMessage(cfg, h, p);
    SingleCount(m);
    UserImagesAppend(h, [m]);
    if IsUser(m) {
      if Turns.PrepareNewTurn(cfg, h, p.content).Sendable? {
        if cfg.vision { TameCloses(p.content); }
        SentCap(cfg, h, p.content);
      } else {
        TameIsClear(p.content);
      }
    }
  }

  lemma {:induction false} PushPriorCap(cfg: Config, h: seq<Messages.Message>, prior: seq<Prior>)
    requires GivesDataUris(cfg.norm) && UserImages(h) <= cfg.maxImages && TameTurns(cfg, prior)
    ensures UserImages(PushPrior(cfg, h, prior)) <= cfg.maxImages
    decreases |prior|
  {
    if prior != [] {
      assert TamePrior(cfg, prior[0]) && TameTurns(cfg, prior[1..]);
      PriorCap(cfg, h, prior[0]);
      PushPriorCap(cfg, h + [PriorMessage(cfg, h, prior[0])], prior[1..]);
    }
  }

  /** Adoption carries every image over, whatever the old limit was. */
  lemma AdoptCount(h: seq<Messages.Message>, previous: seq<Messages.Message>, prompt: string)
    ensures UserImages(AdoptTo(h, previous, Some(prompt))) == UserImages(previous)
  {
    var s := SystemMessage(prompt);
    SingleCount(s);
    UserImagesAppend([s], previous);
    if previous != [] && IsSystem(previous[0]) {
      UserImagesAppend([s], previous[1..]);
    }
  }

  lemma {:induction false} StepCap(cfg: Config, h: seq<Messages.Message>, op: Op)
    requires UserImages(h) <= cfg.maxImages && TameOp(cfg, op)
    ensures UserImages(Step(cfg, h, op)) <= cfg.maxImages
  {
    hide TurnTo, PushPrior, CompactTo;
    match op
    case Turn(enriched, prompt, run, norm) => TurnCap(cfg.(norm := norm), h, enriched, prompt, run);
    case Compact(keepLast, reply) =>
      if CompactTo(h, keepLast, reply).Some? { CompactCount(h, keepLast, reply); }
    case Clear =>
    case Restore(prior, prompt, norm) => SeedCap(cfg.(norm := norm), prior, prompt);
    case Reseed(turns, prompt, norm) => SeedCap(cfg.(norm := norm), turns, prompt);
    case Adopt(previous, previousCfg, prompt) =>
      if prompt.Some? { AdoptCount(h, Run(previousCfg, previous), prompt.value); }
  }

  lemma SeedCap(cfg: Config, prior: seq<Prior>, prompt: Option<string>)
    requires GivesDataUris(cfg.norm) && TameTurns(cfg, prior)
    ensures UserImages(PushPrior(cfg, [], prior)) <= cfg.maxImages
    ensures prompt.Some? ==> UserImages(PushPrior(cfg, [SystemMessage(prompt.value)], prior)) <= cfg.maxImages
  {
    PushPriorCap(cfg, [], prior);
    if prompt.Some? {
      SingleCount(SystemMessage(prompt.value));
      PushPriorCap(cfg, [SystemMessage(prompt.value)], prior);
    }
  }

  /** In every state any run reaches, the session holds at most `maxImages` images. */
  lemma {:induction false} RunCap(cfg: Config, ops: seq<Op>)
    requires TameRun(cfg, ops)
    ensures UserImages(Run(cfg, ops)) <= cfg.maxImages
    decreases |ops|
  {
    hide TameOp, Step;
    if ops != [] {
      var n := |ops| - 1;
      assert forall i :: 0 <= i < n ==> ops[..n][i] == ops[i];
      RunCap(cfg, ops[..n]);
      StepCap(cfg, Run(cfg, ops[..n]), ops[n]);
    }
  }

  /** A text whose cleaned form closes up a new marker: counted once when it is judged,
      read twice once it is stored. */
  lemma ClosingExample()
    ensures var s := "[IMA[IMAGE:x]GE:y]"; CountRefs(s) == 1 && Closing(s) == 1
  {
    var s, t := "[IMA[IMAGE:x]GE:y]", "GE:y]";
    assert s == "[IMA" + (MARKER + ("x]" + t));
    ClosingCounts(s, t, "[IMAGE:y]");
  }

  lemma ClosingCounts(s: string, t: string, joined: string)
    requires s == "[IMA" + (MARKER + ("x]" + t)) && t == "GE:y]" && joined == MARKER + "y" + "]"
    ensures CountRefs(s) == 1 && Closing(s) == 1
  {
    CutExample(s, t);
    ShortTail(t);
    Rejoined("y", t, joined);
    OneCut(s, Span(4, 13, "x"), "[IMA", t, joined);
    OneMarker(joined);
  }

  lemma Rejoined(y: string, t: string, joined: string)
    requires t == "GE:" + y + "]" && joined == MARKER + y + "]"
    ensures joined == "[IMA" + t
  {
    var a, b := "[IMA", "GE:";
    assert MARKER == a + b;
    Assoc(a, b, y);
    Assoc(a, b + y, "]");
  }

  lemma OneCut(s: string, m: Span, a: string, t: string, joined: string)
    requires NextMarker(s) == Some(m) && m.reference != "" && a == s[..m.start] && t == s[m.cut..]
    requires NextMarker(t).None? && joined == a + t && Trimmed(joined)
    ensures Parse(s) == Parsed(joined, [m.reference])
  {
    PastReference(s, m, a, t);
    PiecesStep(t);
    TrimFixpoint(joined);
  }

  lemma CutExample(s: string, t: string)
    requires s == "[IMA" + (MARKER + ("x]" + t)) && t == "GE:y]"
    ensures NextMarker(s) == Some(Span(4, 13, "x")) && s[..4] == "[IMA" && s[13..] == t
  {
    var u := "x" + "]" + t;
    assert "x]" + t == u;
    FindAfterStart(s, u);
    BracketFreeDepth("x", 0);
    CloseOfGood("x", t);
    assert u[..1] == "x" && u[2..] == t;
    TrimFixpoint("x");
    NextMarkerIs(s, 4, u, 1, 13, "x");
  }

  /** The start of a marker prefix before a whole one is no marker. */
  lemma FindAfterStart(s: string, u: string)
    requires s == "[IMA" + (MARKER + u)
    ensures Find(s, MARKER) == Some(4) && s[4 + |MARKER|..] == u && s[..4] == "[IMA"
  {
    assert s[4..4 + |MARKER|] == MARKER;
    assert s[1] == 'I' && s[2] == 'M' && s[3] == 'A' && s[4] == '[';
    forall j: nat | j < 4
      ensures !OccursAt(s, MARKER, j)
    {
      var v := s[j..j + |MARKER|];
      assert v[0] == s[j] && v[4] == s[j + 4];
    }
    FindIs(s, MARKER, 4);
  }

  lemma ShortTail(t: string)
    requires |t| < |MARKER|
    ensures NextMarker(t).None?
  {}

  /** A stored turn that cannot be prepared can bring an image back: its reference is read
      out by the fallback to the first bracket, holds a marker prefix itself, and is closed
      again by the bracket of its placeholder. A full session is then over its limit. */
  lemma PlaceholderExample(cfg: Config, h: seq<Messages.Message>)
    requires Judged(cfg) && UserImages(h) == cfg.maxImages
    ensures UserImages(h + [PriorMessage(cfg, h, Prior("user", "[IMAGE:x[IMAGE:y]"))]) == cfg.maxImages + 1
  {
    ExampleRefused(cfg, h, "[IMAGE:x[IMAGE:y]", "x[IMAGE:y", "[IMAGE:y]");
  }

  lemma ExampleRefused(cfg: Config, h: seq<Messages.Message>, s: string, r: string, y: string)
    requires Judged(cfg) && UserImages(h) == cfg.maxImages
    requires r == "x[IMAGE:y" && y == MARKER + "y" + "]" && r + "]" == "x" + y && s == MARKER + (r + "]")
    ensures UserImages(h + [PriorMessage(cfg, h, Prior("user", s))]) == cfg.maxImages + 1
  {
    NestedParses(s, r, y);
    FullRefuses(cfg, h, s);
    var back := Placeholders("", [r]);
    PlaceholderCounts(r, y, back);
    SingleCount(UserMessage(back));
    UserImagesAppend(h, [UserMessage(back)]);
  }

  lemma PlaceholderCounts(r: string, y: string, back: string)
    requires y == MARKER + "y" + "]" && r + "]" == "x" + y && back == Placeholders("", [r])
    ensures CountRefs(back) == 1
  {
    var line := NOT_SENT + r + "]";
    NextPlaceholder("", [r], line, line);
    LineReads(r, line);
    assert Find("", MARKER).None?;
    assert r + "]" == "" + ['x'] + y;
    CountPast("", 'x', y);
    OneMarker(y);
  }

  /** A full session refuses any message with an image. */
  lemma FullRefuses(cfg: Config, h: seq<Messages.Message>, content: string)
    requires Judged(cfg) && UserImages(h) == cfg.maxImages && CountRefs(content) > 0
    ensures Turns.PrepareNewTurn(cfg, h, content).Refused?
  {
    var m := ChatMessage(User, content);
    SeenCount(cfg, h);
    CountOneMore(ProviderMessages(cfg, h), m);
  }

  lemma NestedParses(s: string, r: string, y: string)
    requires y == MARKER + "y" + "]" && r + "]" == "x" + y && s == MARKER + (r + "]") && r == "x[IMAGE:y"
    ensures Parse(s) == Parsed("", [r]) && CountRefs(s) == 1
  {
    var u, cut := r + "]", |s|;
    assert s[0..0 + |MARKER|] == MARKER;
    FindIs(s, MARKER, 0);
    assert s[0 + |MARKER|..] == u && u[..|r|] == r;
    NestedClose(r, y);
    NextMarkerIs(s, 0, u, |r|, cut, r);
    TrimFixpoint(r);
    PastReference(s, Span(0, cut, r), "", "");
    assert Find("", MARKER).None?;
    PiecesStep("");
  }

  lemma NestedClose(r: string, y: string)
    requires y == MARKER + "y" + "]" && r + "]" == "x" + y && ']' !in r
    ensures CloseOf(r + "]") == Some(|r|)
  {
    BracketFreeDepth("x", 0);
    BracketFreeDepth("y", 0);
    assert y == Wrap("y");
    WrapDepth("y", 0);
    DepthAfterAppend("x", y, 0);
    DepthScanNone(r + "]", 0);
    assert (r + "]")[..|r|] == r;
    IndexOfFirst(r + "]", ']', |r|);
  }

  lemma OneMarker(s: string)
    requires s == MARKER + "y" + "]"
    ensures CountRefs(s) == 1
  {
    BracketFreeDepth("y", 0);
    assert s == Tail("", ["y"]);
    CountAdds("", "", ["y"]);
    assert "" + Tail("", ["y"]) == s;
    CountNone("");
  }
}
