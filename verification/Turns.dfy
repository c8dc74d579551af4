/** What each operation of the agent does to its history, as functions: `turn_inner`,
    `restore_history`, `reseed_history`, `adopt_history_from`, `push_prior_turns` and
    `prepare_new_turn` of `src/agent/agent.rs`, and the entries that
    `run_structured_loop` of `src/agent/loop_.rs` appends. Calls to the model, to tools
    and to memory are outside: what they answered is part of each operation. */
module Turns {
  import opened Text
  import opened Messages
  import opened History
  import opened Multimodal
  import opened Preparation
  import opened ToolFrames

  /** The parts of an agent's configuration that its history depends on. The two JSON
      encoders and the image reader are functions of their input. */
  datatype Config = Config(
    maxHistory: nat,
    native: bool,
    vision: bool,
    maxImages: nat,
    norm: Normaliser,
    refAllowed: string -> bool,
    encodeCalls: (Option<string>, seq<ToolCall>) -> string,
    encodeResult: ToolResult -> string)

  // ---------------------------------------------------------------------------
  // The messages a provider sees (`to_provider_messages`)

  function ResultMessages(cfg: Config, results: seq<ToolResult>): seq<ChatMessage> {
    if results == [] then []
    else [ChatMessage(Tool, cfg.encodeResult(results[0]))] + ResultMessages(cfg, results[1..])
  }

  function EntryMessages(cfg: Config, m: Message): seq<ChatMessage> {
    match m
    case Chat(chat) => [chat]
    case ToolCalls(text, calls) =>
      if cfg.native then [ChatMessage(Assistant, cfg.encodeCalls(text, calls))]
      else [ChatMessage(Assistant, match text case Some(t) => t case None => "")]
    case ToolResults(results) =>
      if cfg.native then ResultMessages(cfg, results)
      else [ChatMessage(User, HEADING + RenderAll(IdBlocks(results)))]
  }

  function ProviderMessages(cfg: Config, h: seq<Message>): seq<ChatMessage> {
    if h == [] then [] else EntryMessages(cfg, h[0]) + ProviderMessages(cfg, h[1..])
  }

  // ---------------------------------------------------------------------------
  // A new user message

  datatype NewTurn = Sendable(content: string) | Refused(cause: Prepared) | BadMime(content: string)

  /** No image of the prepared message has a type that the provider refuses. */
  predicate MimesAllowed(cfg: Config, content: string) {
    forall i :: 0 <= i < |Parse(content).refs| ==> cfg.refAllowed(Parse(content).refs[i])
  }

  /** `prepare_new_turn`: the images of the history and of the message are judged together. */
  function PrepareNewTurn(cfg: Config, h: seq<Message>, content: string): NewTurn {
    if !cfg.vision then Sendable(content)
    else
      var ms := ProviderMessages(cfg, h) + [ChatMessage(User, content)];
      match Prepare(ms, cfg.maxImages, cfg.norm)
      case Ready(prepared, _) =>
        var last := if prepared == [] then "" else prepared[|prepared| - 1].content;
        if MimesAllowed(cfg, last) then Sendable(last) else BadMime(last)
      case other => Refused(other)
  }

  /** One placeholder line per reference, for a stored turn whose images cannot be sent. */
  function Placeholders(text: string, refs: seq<string>): string
    decreases |refs|
  {
    if refs == [] then text
    else Placeholders((if text == "" then "" else text + "\n") + "[image not sent: " + refs[0] + "]", refs[1..])
  }

  /** `prepare_prior_user_turn`. */
  function PriorContent(cfg: Config, h: seq<Message>, content: string): string {
    match PrepareNewTurn(cfg, h, content)
    case Sendable(prepared) => prepared
    case _ => var p := Parse(content); Placeholders(p.cleaned, p.refs)
  }

  /** A stored turn: its role as text, and its content. */
  datatype Prior = Prior(role: string, content: string)

  function PriorMessage(cfg: Config, h: seq<Message>, p: Prior): Message {
    if p.role == "system" then SystemMessage(p.content)
    else if p.role == "assistant" then AssistantMessage(p.content)
    else UserMessage(PriorContent(cfg, h, p.content))
  }

  /** `push_prior_turns`: each turn is judged against the ones before it. */
  function PushPrior(cfg: Config, h: seq<Message>, prior: seq<Prior>): seq<Message>
    decreases |prior|
  {
    if prior == [] then h else PushPrior(cfg, h + [PriorMessage(cfg, h, prior[0])], prior[1..])
  }

  // ---------------------------------------------------------------------------
  // What the tool loop appends

  /** One iteration with calls: the model's text and calls, and what the tools gave. */
  datatype Round = Round(text: string, calls: seq<ToolCall>, results: seq<Execution>)

  /** How the loop ends: it stops with an error or a cancellation, the model answers, or
      a nudge asks for a summary, which comes or does not. */
  datatype Ending = Stopped | Replied(text: string) | Nudged(nudge: string) | Summarised(nudge: string, text: string)

  datatype LoopRun = LoopRun(rounds: seq<Round>, ending: Ending)

  function NativeResults(results: seq<Execution>): seq<ToolResult> {
    if results == [] then []
    else
      var id := match results[0].callId case Some(i) => i case None => "unknown";
      [ToolResult(id, results[0].output)] + NativeResults(results[1..])
  }

  /** `format_results` of either dispatcher. */
  function ResultEntry(cfg: Config, results: seq<Execution>): Message {
    if cfg.native then ToolResults(NativeResults(results))
    else UserMessage(HEADING + RenderAll(ResultBlocks(results)))
  }

  function RoundEntries(cfg: Config, rounds: seq<Round>): seq<Message> {
    if rounds == [] then []
    else [ToolCalls(Some(rounds[0].text), rounds[0].calls), ResultEntry(cfg, rounds[0].results)] + RoundEntries(cfg, rounds[1..])
  }

  function EndingEntries(e: Ending): seq<Message> {
    match e
    case Stopped => []
    case Replied(text) => [AssistantMessage(text)]
    case Nudged(nudge) => [UserMessage(nudge)]
    case Summarised(nudge, text) => [UserMessage(nudge), AssistantMessage(text)]
  }

  function LoopEntries(cfg: Config, run: LoopRun): seq<Message> {
    RoundEntries(cfg, run.rounds) + EndingEntries(run.ending)
  }

  // ---------------------------------------------------------------------------
  // The operations

  /** `turn_inner` on a message already enriched with memory; `prompt` is what building
      the system prompt gave, if it was needed. */
  function TurnTo(cfg: Config, h: seq<Message>, enriched: string, prompt: Option<string>, run: LoopRun): seq<Message> {
    if h == [] && prompt.None? then h
    else
      var h0 := if h == [] then [SystemMessage(prompt.value)] else h;
      match PrepareNewTurn(cfg, h0, enriched)
      case Sendable(content) => TrimTo(h0 + [UserMessage(content)] + LoopEntries(cfg, run), cfg.maxHistory)
      case _ => h0
  }

  /** `restore_history`: the history is cleared before the prompt is built. */
  function RestoreTo(cfg: Config, prior: seq<Prior>, prompt: Option<string>): seq<Message> {
    if prior == [] then []
    else if exists i :: 0 <= i < |prior| && prior[i].role == "system" then PushPrior(cfg, [], prior)
    else if prompt.None? then []
    else PushPrior(cfg, [SystemMessage(prompt.value)], prior)
  }

  /** `reseed_history`: nothing changes when the prompt cannot be built. */
  function ReseedTo(cfg: Config, h: seq<Message>, turns: seq<Prior>, prompt: Option<string>): seq<Message> {
    if prompt.None? then h else PushPrior(cfg, [SystemMessage(prompt.value)], turns)
  }

  /** `adopt_history_from`: the other agent's history behind this agent's prompt. */
  function AdoptTo(h: seq<Message>, previous: seq<Message>, prompt: Option<string>): seq<Message> {
    if prompt.None? then h
    else [SystemMessage(prompt.value)] + (if previous != [] && IsSystem(previous[0]) then previous[1..] else previous)
  }

  // ---------------------------------------------------------------------------
  // Placeholders

  function NotSentLines(refs: seq<string>): (r: seq<string>)
    ensures |r| == |refs|
  {
    if refs == [] then [] else ["[image not sent: " + refs[0] + "]"] + NotSentLines(refs[1..])
  }

  /** The text, unless it is empty, then one line per reference, in order. */
  lemma {:induction false} PlaceholdersAreLines(text: string, refs: seq<string>)
    ensures Placeholders(text, refs) == Join((if text == "" then [] else [text]) + NotSentLines(refs), "\n")
    decreases |refs|
  {
    if refs == [] {
      assert text != "" ==> [text] + [] == [text];
    } else {
      var head := (if text == "" then "" else text + "\n") + "[image not sent: " + refs[0] + "]";
      PlaceholdersAreLines(head, refs[1..]);
      OneMoreLine(text, refs[0], "[image not sent: " + refs[0] + "]", head, NotSentLines(refs[1..]));
    }
  }

  lemma OneMoreLine(text: string, r: string, line: string, head: string, later: seq<string>)
    requires line == "[image not sent: " + r + "]"
    requires head == (if text == "" then "" else text + "\n") + "[image not sent: " + r + "]"
    ensures head != "" && Join([head] + later, "\n") == Join((if text == "" then [] else [text]) + ([line] + later), "\n")
  {
    var open := "[image not sent: ";
    var before := if text == "" then "" else text + "\n";
    Assoc(before, open, r);
    Assoc(before, open + r, "]");
    assert head == before + line;
    if text == "" {
      assert head == line && [] + ([line] + later) == [line] + later;
    } else {
      JoinTwo(text, line, later, "\n");
      assert [text] + ([line] + later) == [text, line] + later;
    }
  }

  lemma JoinTwo(a: string, b: string, rest: seq<string>, sep: string)
    ensures Join([a, b] + rest, sep) == Join([a + sep + b] + rest, sep)
  {
    assert ([a, b] + rest)[1..] == [b] + rest;
    assert ([a + sep + b] + rest)[1..] == rest == ([b] + rest)[1..];
    if rest != [] {
      Assoc(a + sep, b + sep, Join(rest, sep));
      Assoc(a + sep, b, sep);
    }
  }

  // ---------------------------------------------------------------------------
  // What they keep

  lemma PairedAppend(a: seq<Message>, b: seq<Message>)
    requires Paired(a) && Paired(b)
    ensures Paired(a + b)
  {
    var r := a + b;
    forall i | 0 <= i < |r| && r[i].ToolResults?
      ensures i > 0 && r[i - 1].ToolCalls?
    {
      if |a| <= i { assert b[i - |a|].ToolResults?; } else { assert a[i].ToolResults?; }
    }
  }

  lemma AnsweredAppend(a: seq<Message>, b: seq<Message>)
    requires Answered(a) && Answered(b)
    ensures Answered(a + b)
  {
    var r := a + b;
    forall i | 0 <= i < |r| && r[i].ToolCalls?
      ensures i + 1 < |r| && (r[i + 1].ToolResults? || IsXmlResults(r[i + 1]))
    {
      if |a| <= i {
        assert b[i - |a|].ToolCalls? && r[i + 1] == b[i - |a| + 1];
      } else {
        assert a[i].ToolCalls? && r[i + 1] == a[i + 1];
      }
    }
  }

  lemma SystemFirstAppend(h: seq<Message>, b: seq<Message>)
    requires SystemFirst(h) && NoSystem(b)
    ensures SystemFirst(h + b) && Systems(h + b) == Systems(h)
  {
    SelectAppend(h, b);
    SelectAll(b);
    assert Systems(h) + [] == Systems(h);
  }

  /** What can follow in a conversation: no system message, calls and results paired. */
  predicate Continuation(b: seq<Message>) {
    NoSystem(b) && Paired(b) && Answered(b)
  }

  lemma ContinuationAppend(a: seq<Message>, b: seq<Message>)
    requires Continuation(a) && Continuation(b)
    ensures Continuation(a + b)
  {
    PairedAppend(a, b);
    AnsweredAppend(a, b);
  }

  lemma {:induction false} RoundsContinue(cfg: Config, rounds: seq<Round>)
    ensures Continuation(RoundEntries(cfg, rounds))
  {
    if rounds != [] {
      RoundsContinue(cfg, rounds[1..]);
      ContinuationAppend([ToolCalls(Some(rounds[0].text), rounds[0].calls), ResultEntry(cfg, rounds[0].results)], RoundEntries(cfg, rounds[1..]));
    }
  }

  /** The loop, however it ends, appends only entries that can follow. */
  lemma LoopContinues(cfg: Config, run: LoopRun)
    ensures Continuation(LoopEntries(cfg, run))
  {
    RoundsContinue(cfg, run.rounds);
    ContinuationAppend(RoundEntries(cfg, run.rounds), EndingEntries(run.ending));
  }

  // ---------------------------------------------------------------------------
  // Results as the XML dispatcher writes them

  /** Every results message directly follows the calls it answers. */
  predicate XmlPaired(h: seq<Message>) {
    forall i :: 0 <= i < |h| && IsXmlResults(h[i]) ==> i > 0 && h[i - 1].ToolCalls?
  }

  /** Text that does not open as results do. */
  predicate PlainNudge(e: Ending) {
    match e
    case Nudged(nudge) => !(HEADING <= nudge)
    case Summarised(nudge, _) => !(HEADING <= nudge)
    case _ => true
  }

  lemma XmlPairedAppend(a: seq<Message>, b: seq<Message>)
    requires XmlPaired(a) && XmlPaired(b)
    ensures XmlPaired(a + b)
  {
    var r := a + b;
    forall i | 0 <= i < |r| && IsXmlResults(r[i])
      ensures i > 0 && r[i - 1].ToolCalls?
    {
      if |a| <= i { assert IsXmlResults(b[i - |a|]); } else { assert IsXmlResults(a[i]); }
    }
  }

  lemma {:induction false} XmlRounds(cfg: Config, rounds: seq<Round>)
    ensures XmlPaired(RoundEntries(cfg, rounds))
  {
    if rounds != [] {
      XmlRounds(cfg, rounds[1..]);
      XmlPairedAppend([ToolCalls(Some(rounds[0].text), rounds[0].calls), ResultEntry(cfg, rounds[0].results)], RoundEntries(cfg, rounds[1..]));
    }
  }

  /** With the XML dispatcher, what the loop appends is paired too: each results message
      is known by its heading, and follows its calls. */
  lemma LoopPairsXml(cfg: Config, run: LoopRun)
    requires !cfg.native && PlainNudge(run.ending)
    ensures XmlPaired(LoopEntries(cfg, run))
    ensures forall results :: IsXmlResults(ResultEntry(cfg, results))
  {
    XmlRounds(cfg, run.rounds);
    XmlPairedAppend(RoundEntries(cfg, run.rounds), EndingEntries(run.ending));
    forall results
      ensures IsXmlResults(ResultEntry(cfg, results))
    {
      var body := RenderAll(ResultBlocks(results));
      assert (HEADING + body)[..|HEADING|] == HEADING;
    }
  }

  /** A suffix behind system messages keeps the pairs exactly when it does not open with results. */
  lemma XmlSuffix(sys: seq<Message>, h: seq<Message>, k: nat)
    requires XmlPaired(h) && k <= |h| && AllSystem(sys)
    ensures XmlPaired(sys + h[k..]) <==> k == |h| || !IsXmlResults(h[k])
  {
    var r, n := sys + h[k..], |sys|;
    assert forall i {:trigger r[i]} :: n <= i < |r| ==> r[i] == h[k + i - n];
    assert forall i {:trigger r[i]} :: 0 <= i < n ==> r[i] == sys[i];
    if k == |h| || !IsXmlResults(h[k]) {
      forall i | 0 <= i < |r| && IsXmlResults(r[i])
        ensures i > 0 && r[i - 1].ToolCalls?
      {
        assert IsXmlResults(h[k + i - n]);
        assert r[i - 1] == h[k + i - n - 1];
      }
    } else {
      assert IsXmlResults(r[n]);
      assert n > 0 ==> IsSystem(r[n - 1]);
    }
  }

  /** Trimming moves its cut past orphaned result entries, but not past results written
      as a user message: with the XML dispatcher it keeps calls and results together
      exactly when all others fit, or the cut does not end at results. */
  lemma XmlTrimPairs(h: seq<Message>, max: nat)
    requires WellFormed(h) && XmlPaired(h)
    ensures
      var o := Others(h);
      XmlPaired(TrimTo(h, max)) <==> |o| <= max || var k := SafeCut(o, |o| - max); k == |o| || !IsXmlResults(o[k])
  {
    hide KeptOthers, XmlPaired, TrimTo, SafeCut, Paired, Answered, IsXmlResults;
    SystemFirstSplits(h);
    SelectKinds(h);
    var sys, others := Systems(h), Others(h);
    TrimIs(h, max);
    KeptIs(others, max);
    if |others| > max {
      var k := SafeCut(others, |others| - max);
      CutLength(others, k, others[k..]);
      XmlKept(h, sys, others, others[k..]);
    }
  }

  lemma CutLength(others: seq<Message>, k: nat, kept: seq<Message>)
    requires k <= |others| && kept == others[k..]
    ensures |kept| == |others| - k && kept == others[|others| - |kept|..]
    ensures k < |others| ==> kept[0] == others[k]
  {}

  lemma XmlKept(h: seq<Message>, sys: seq<Message>, others: seq<Message>, kept: seq<Message>)
    requires XmlPaired(h) && h == sys + others && AllSystem(sys)
    requires |kept| <= |others| && kept == others[|others| - |kept|..]
    ensures XmlPaired(sys + kept) <==> kept == [] || !IsXmlResults(kept[0])
  {
    var k := |h| - |kept|;
    SuffixOf(h, sys, others, kept, k);
    XmlSuffix(sys, h, k);
    assert k < |h| ==> h[k] == kept[0];
  }

  /** A turn with one call, cut at its results by a cap of two. */
  lemma XmlTrimSplits(cfg: Config, prompt: string, text: string, round: Round, answer: string)
    requires !cfg.native
    ensures
      var h := [SystemMessage(prompt), UserMessage(text)] + LoopEntries(cfg, LoopRun([round], Replied(answer)));
      !XmlPaired(TrimTo(h, 2))
  {
    var result := ResultEntry(cfg, round.results);
    LoopPairsXml(cfg, LoopRun([], Stopped));
    assert IsXmlResults(result);
    var call := ToolCalls(Some(round.text), round.calls);
    OneRound(cfg, round, answer, call, result);
    CutsAtResults(SystemMessage(prompt), UserMessage(text), call, result, AssistantMessage(answer));
  }

  lemma CutsAtResults(s: Message, u: Message, call: Message, result: Message, a: Message)
    requires IsSystem(s) && IsUser(u) && call.ToolCalls? && IsXmlResults(result) && a.Chat? && a.chat.role == Assistant
    ensures !XmlPaired(TrimTo([s, u] + [call, result, a], 2))
  {
    var h, o := [s, u] + [call, result, a], [u, call, result, a];
    assert h == [s] + o;
    SystemFirstJoin([s], o);
    assert SafeCut(o, 2) == 2;
    KeptIs(o, 2);
    TrimIs(h, 2);
    assert o[2..] == [result, a];
    var r := [s] + [result, a];
    assert r[1] == result && r[0] == s;
  }

  /** The same for compaction, whose split at a user message can be at results. */
  lemma XmlCompactPairs(h: seq<Message>, keepLast: nat, reply: Reply)
    requires WellFormed(h) && XmlPaired(h) && CompactTo(h, keepLast, reply).Some?
    ensures
      var split := SplitIndex(h, if keepLast == 0 then 1 else keepLast).value;
      XmlPaired(CompactTo(h, keepLast, reply).value) <==> !IsXmlResults(h[split])
  {
    SelectKinds(h);
    XmlSuffix(Systems(h) + [Envelope(reply.text)], h, SplitIndex(h, if keepLast == 0 then 1 else keepLast).value);
  }

  /** Keeping one user message of a turn with a call cuts the call from its results. */
  lemma XmlCompactionSplits(cfg: Config, prompt: string, text: string, round: Round, answer: string, summary: string)
    requires !cfg.native && !Blank(summary)
    ensures
      var h := [SystemMessage(prompt), UserMessage(text)] + LoopEntries(cfg, LoopRun([round], Replied(answer)));
      var c := CompactTo(h, 1, Summary(summary));
      c.Some? && !XmlPaired(c.value)
  {
    var result := ResultEntry(cfg, round.results);
    LoopPairsXml(cfg, LoopRun([], Stopped));
    assert IsXmlResults(result);
    var call := ToolCalls(Some(round.text), round.calls);
    OneRound(cfg, round, answer, call, result);
    SplitsAtResults(SystemMessage(prompt), UserMessage(text), call, result, AssistantMessage(answer), summary);
  }

  lemma OneRound(cfg: Config, round: Round, answer: string, call: Message, result: Message)
    requires call == ToolCalls(Some(round.text), round.calls) && result == ResultEntry(cfg, round.results)
    ensures LoopEntries(cfg, LoopRun([round], Replied(answer))) == [call, result, AssistantMessage(answer)]
  {
    assert [round][1..] == [];
    assert RoundEntries(cfg, [round]) == [call, result];
  }

  lemma SplitsAtResults(s: Message, u: Message, call: Message, result: Message, a: Message, summary: string)
    requires IsSystem(s) && IsUser(u) && call.ToolCalls? && IsXmlResults(result) && a.Chat? && a.chat.role == Assistant
    requires !Blank(summary)
    ensures var c := CompactTo([s, u] + [call, result, a], 1, Summary(summary)); c.Some? && !XmlPaired(c.value)
  {
    var h := [s, u] + [call, result, a];
    assert h == [s, u, call, result, a];
    assert h[..4][3] == result;
    assert SplitIndex(h[..4], 1) == Some(3);
    assert SplitIndex(h, 1) == Some(3);
    TrimTrims(summary);
    var sys := Systems(h) + [Envelope(summary)];
    var c := sys + h[3..];
    assert c[|sys|] == result && c[|sys| - 1] == Envelope(summary);
  }

  lemma ContinuationWellFormed(h: seq<Message>, b: seq<Message>)
    requires WellFormed(h) && h != [] && Continuation(b)
    ensures WellFormed(h + b) && Systems(h + b) == Systems(h)
  {
    PairedAppend(h, b);
    AnsweredAppend(h, b);
    SystemFirstAppend(h, b);
  }

  /** A turn keeps the history well formed, and adds no system message but the first. */
  lemma TurnKeeps(cfg: Config, h: seq<Message>, enriched: string, prompt: Option<string>, run: LoopRun)
    requires WellFormed(h)
    ensures var r := TurnTo(cfg, h, enriched, prompt, run);
      && WellFormed(r)
      && Systems(r) == (if h == [] && prompt.Some? then [SystemMessage(prompt.value)] else Systems(h))
      && (r == [] ==> h == [])
  {
    if h != [] || prompt.Some? {
      var h0 := if h == [] then [SystemMessage(prompt.value)] else h;
      assert Systems(h0) == if h == [] then [SystemMessage(prompt.value)] else Systems(h);
      var t := PrepareNewTurn(cfg, h0, enriched);
      if t.Sendable? {
        SentKeeps(cfg, h0, t.content, run);
      }
    }
  }

  lemma SentKeeps(cfg: Config, h: seq<Message>, content: string, run: LoopRun)
    requires WellFormed(h) && h != []
    ensures var r := TrimTo(h + [UserMessage(content)] + LoopEntries(cfg, run), cfg.maxHistory);
      WellFormed(r) && Systems(r) == Systems(h) && r != []
  {
    var h1 := h + [UserMessage(content)];
    ContinuationWellFormed(h, [UserMessage(content)]);
    LoopContinues(cfg, run);
    ContinuationWellFormed(h1, LoopEntries(cfg, run));
    TrimWellFormed(h1 + LoopEntries(cfg, run), cfg.maxHistory);
    HasSystem(h);
  }

  lemma HasSystem(h: seq<Message>)
    requires h != [] && IsSystem(h[0])
    ensures Systems(h) != []
  {}

  /** A refused turn adds no user message; it leaves the history as it was exactly when
      that was not empty, for an empty one has got its system prompt by then. */
  lemma RefusedTurn(cfg: Config, h: seq<Message>, enriched: string, prompt: string, run: LoopRun)
    requires !PrepareNewTurn(cfg, if h == [] then [SystemMessage(prompt)] else h, enriched).Sendable?
    ensures var r := TurnTo(cfg, h, enriched, Some(prompt), run);
      Users(r) == Users(h) && (r == h <==> h != [])
  {
    assert Users([SystemMessage(prompt)]) == 0;
  }

  // ---------------------------------------------------------------------------
  // Restoring, reseeding, adopting

  predicate IsSystemTurn(p: Prior) {
    p.role == "system"
  }

  /** The system turns come before all others. */
  predicate SystemTurnsFirst(prior: seq<Prior>) {
    forall i, j :: 0 <= i < j < |prior| && IsSystemTurn(prior[j]) ==> IsSystemTurn(prior[i])
  }

  /** The pushed turns: one chat entry each, in order, with the role of its turn. */
  lemma {:induction false} PushPriorShape(cfg: Config, h: seq<Message>, prior: seq<Prior>)
    ensures var r := PushPrior(cfg, h, prior);
      && |r| == |h| + |prior| && r[..|h|] == h
      && forall k {:trigger r[k]} :: |h| <= k < |r| ==> r[k] == PriorMessage(cfg, r[..k], prior[k - |h|])
    decreases |prior|
  {
    if prior == [] {
      assert h[..|h|] == h;
    } else {
      var m := PriorMessage(cfg, h, prior[0]);
      var g, rest := h + [m], prior[1..];
      PushPriorShape(cfg, g, rest);
      var r := PushPrior(cfg, h, prior);
      assert r[..|h|] == r[..|g|][..|h|] == h;
      assert r[|h|] == r[..|g|][|h|] == m;
    }
  }

  /** So each pushed entry is a chat entry, a system message exactly for a system turn. */
  lemma PushPriorKinds(cfg: Config, h: seq<Message>, prior: seq<Prior>)
    ensures var r := PushPrior(cfg, h, prior);
      && |r| == |h| + |prior|
      && forall k {:trigger r[k]} :: |h| <= k < |r| ==> r[k].Chat? && (IsSystem(r[k]) <==> IsSystemTurn(prior[k - |h|]))
  {
    PushPriorShape(cfg, h, prior);
  }

  /** Pushing turns behind system messages leaves a well-formed history exactly when the
      system turns come first. */
  lemma PushPriorWellFormed(cfg: Config, h: seq<Message>, prior: seq<Prior>)
    requires AllSystem(h) && (h != [] || exists i :: 0 <= i < |prior| && IsSystemTurn(prior[i]))
    ensures WellFormed(PushPrior(cfg, h, prior)) <==> SystemTurnsFirst(prior)
  {
    var r := PushPrior(cfg, h, prior);
    PushPriorShape(cfg, h, prior);
    PushPriorKinds(cfg, h, prior);
    assert forall i {:trigger r[i]} :: 0 <= i < |h| ==> r[i] == r[..|h|][i];
    assert forall i {:trigger r[i]} :: 0 <= i < |r| ==> r[i].Chat?;
    if SystemTurnsFirst(prior) {
      if h == [] { FirstIsSystem(prior); }
      assert IsSystem(r[0]);
      forall i, j | 0 <= i < j < |r| && IsSystem(r[j])
        ensures IsSystem(r[i])
      {
        assert |h| <= i ==> IsSystemTurn(prior[j - |h|]) && IsSystemTurn(prior[i - |h|]);
      }
    } else {
      var i, j :| 0 <= i < j < |prior| && IsSystemTurn(prior[j]) && !IsSystemTurn(prior[i]);
      assert IsSystem(r[|h| + j]) && !IsSystem(r[|h| + i]);
    }
  }

  lemma FirstIsSystem(prior: seq<Prior>)
    requires SystemTurnsFirst(prior) && exists i :: 0 <= i < |prior| && IsSystemTurn(prior[i])
    ensures IsSystemTurn(prior[0])
  {
    var i :| 0 <= i < |prior| && IsSystemTurn(prior[i]);
    assert i > 0 ==> IsSystemTurn(prior[0]);
  }

  /** A restore keeps the history well formed exactly when its system turns come first. */
  lemma RestoreWellFormed(cfg: Config, prior: seq<Prior>, prompt: Option<string>)
    ensures WellFormed(RestoreTo(cfg, prior, prompt)) <==> SystemTurnsFirst(prior)
  {
    if prior != [] {
      if exists i :: 0 <= i < |prior| && IsSystemTurn(prior[i]) {
        PushPriorWellFormed(cfg, [], prior);
      } else if prompt.Some? {
        PushPriorWellFormed(cfg, [SystemMessage(prompt.value)], prior);
      }
    }
  }

  lemma ReseedWellFormed(cfg: Config, h: seq<Message>, turns: seq<Prior>, prompt: string)
    ensures WellFormed(ReseedTo(cfg, h, turns, Some(prompt))) <==> SystemTurnsFirst(turns)
  {
    PushPriorWellFormed(cfg, [SystemMessage(prompt)], turns);
  }

  /** Without system turns there is exactly one system message after the turns are pushed. */
  lemma PushPriorSystems(cfg: Config, h: seq<Message>, prior: seq<Prior>)
    requires forall i :: 0 <= i < |prior| ==> !IsSystemTurn(prior[i])
    ensures Systems(PushPrior(cfg, h, prior)) == Systems(h)
  {
    var r := PushPrior(cfg, h, prior);
    PushPriorShape(cfg, h, prior);
    PushPriorKinds(cfg, h, prior);
    var tail := r[|h|..];
    assert r == h + tail;
    assert forall i {:trigger tail[i]} :: 0 <= i < |tail| ==> tail[i] == r[|h| + i] && !IsSystemTurn(prior[i]);
    SelectAppend(h, tail);
    SelectAll(tail);
    assert Systems(h) + [] == Systems(h);
  }

  /** The adopted conversation is the other one behind the new prompt: its own prompt is
      dropped, the rest kept in order, so well-formedness and the number of system messages carry over. */
  lemma AdoptKeeps(h: seq<Message>, previous: seq<Message>, prompt: string)
    requires WellFormed(previous)
    ensures var r := AdoptTo(h, previous, Some(prompt));
      && WellFormed(r)
      && |Systems(r)| == (if previous == [] then 1 else |Systems(previous)|)
      && Others(r) == Others(previous)
  {
    var s := SystemMessage(prompt);
    if previous == [] {
      assert [s] + previous == [s];
      SelectAll([s]);
    } else {
      var rest := previous[1..];
      assert previous == [previous[0]] + rest;
      var r := [s] + rest;
      assert forall i :: 1 <= i < |r| ==> r[i] == previous[i];
      assert AdoptTo(h, previous, Some(prompt)) == r;
      assert r[1..] == rest;
      SwapFirst(previous, r);
    }
  }

  lemma SwapFirst(h: seq<Message>, r: seq<Message>)
    requires WellFormed(h) && h != [] && |r| == |h| && IsSystem(r[0])
    requires forall i :: 1 <= i < |r| ==> r[i] == h[i]
    ensures WellFormed(r)
  {
    forall i | 0 <= i < |r| && r[i].ToolResults?
      ensures i > 0 && r[i - 1].ToolCalls?
    {
      assert h[i].ToolResults? && i > 1;
    }
  }
}
