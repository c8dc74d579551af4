/** What the operations of `src/agent/agent.rs` put into a history, and what the dispatchers
    of `src/agent/dispatcher.rs` make of it for a provider, entry by entry. */
module Entries {
  import opened Text
  import opened Messages
  import opened History
  import opened Multimodal
  import opened Preparation
  import opened Clearing
  import opened ToolFrames
  import opened Turns

  // ---------------------------------------------------------------------------
  // What a provider sees

  lemma {:induction false} SeenInOrder(cfg: Config, a: seq<Message>, b: seq<Message>)
    ensures ProviderMessages(cfg, a + b) == ProviderMessages(cfg, a) + ProviderMessages(cfg, b)
  {
    if a == [] {
      assert a + b == b;
      assert [] + ProviderMessages(cfg, b) == ProviderMessages(cfg, b);
    } else {
      assert (a + b)[1..] == a[1..] + b;
      SeenInOrder(cfg, a[1..], b);
      Assoc(EntryMessages(cfg, a[0]), ProviderMessages(cfg, a[1..]), ProviderMessages(cfg, b));
    }
  }

  /** The XML text of stored results holds one frame per result, with its call id and its
      neutralised content. */
  predicate ShowsResults(content: string, results: seq<ToolResult>) {
    var frames := Frames(content);
    && "[Tool results]\n" <= content && |frames| == |results|
    && forall i :: 0 <= i < |results| ==>
      ReadId(frames[i].attrs) == Some(results[i].toolCallId) && frames[i].body == "\n" + Neutralise(results[i].content) + "\n"
  }

  /** An entry on its own: chat as it is, calls as an assistant message, results as tool
      messages, or as one user message that shows them. */
  lemma SeenAlone(cfg: Config, m: Message)
    ensures
      var seen := ProviderMessages(cfg, [m]);
      match m
      case Chat(chat) => seen == [chat]
      case ToolCalls(text, calls) =>
        seen == [ChatMessage(Assistant, if cfg.native then cfg.encodeCalls(text, calls) else match text case Some(t) => t case None => "")]
      case ToolResults(results) =>
        if cfg.native then |seen| == |results| && forall i :: 0 <= i < |results| ==> seen[i] == ChatMessage(Tool, cfg.encodeResult(results[i]))
        else |seen| == 1 && seen[0].role == User && ShowsResults(seen[0].content, results)
  {
    assert [m][1..] == [];
    assert ProviderMessages(cfg, [m]) == EntryMessages(cfg, m);
    if m.ToolResults? {
      if cfg.native {
        forall i | 0 <= i < |m.results| { ResultMessageAt(cfg, m.results, i); }
        ResultMessagesLength(cfg, m.results);
      } else {
        ResultsShown(m.results);
      }
    }
  }

  lemma {:induction false} ResultMessagesLength(cfg: Config, results: seq<ToolResult>)
    ensures |ResultMessages(cfg, results)| == |results|
  {
    if results != [] { ResultMessagesLength(cfg, results[1..]); }
  }

  lemma {:induction false} ResultMessageAt(cfg: Config, results: seq<ToolResult>, i: nat)
    requires i < |results|
    ensures |ResultMessages(cfg, results)| == |results|
    ensures ResultMessages(cfg, results)[i] == ChatMessage(Tool, cfg.encodeResult(results[i]))
  {
    ResultMessagesLength(cfg, results[1..]);
    if i > 0 { ResultMessageAt(cfg, results[1..], i - 1); }
  }

  lemma OpensWith(a: string, b: string)
    ensures a <= a + b
  {
    assert (a + b)[..|a|] == a;
  }

  lemma ResultsShown(results: seq<ToolResult>)
    ensures ShowsResults(HEADING + RenderAll(IdBlocks(results)), results)
  {
    StoredResultsReadBack(results);
    OpensWith(HEADING, RenderAll(IdBlocks(results)));
    forall i | 0 <= i < |results| { StoredResultsDecode(results, i); }
  }

  // ---------------------------------------------------------------------------
  // What the tool loop appends

  /** A results entry of either dispatcher carries every result: its call id and output, or
      its name, status and neutralised output. */
  predicate CarriesResults(native: bool, m: Message, results: seq<Execution>) {
    if native then
      && m.ToolResults? && |m.results| == |results|
      && forall i :: 0 <= i < |results| ==>
        m.results[i] == ToolResult(match results[i].callId case Some(id) => id case None => "unknown", results[i].output)
    else
      && m.Chat? && m.chat.role == User && "[Tool results]\n" <= m.chat.content && var frames := Frames(m.chat.content);
        && |frames| == |results|
        && forall i :: 0 <= i < |results| ==>
          && ReadAttrs(frames[i].attrs) == Some(Attrs(results[i].name, results[i].success))
          && frames[i].body == "\n" + Neutralise(results[i].output) + "\n"
  }

  lemma ResultsCarried(cfg: Config, results: seq<Execution>)
    ensures CarriesResults(cfg.native, ResultEntry(cfg, results), results)
  {
    if cfg.native {
      NativeResultsLength(results);
      forall i | 0 <= i < |results| { NativeResultAt(results, i); }
    } else {
      ResultsReadBack(results);
      OpensWith(HEADING, RenderAll(ResultBlocks(results)));
      forall i | 0 <= i < |results| { ResultsDecode(results, i); }
    }
  }

  lemma {:induction false} NativeResultsLength(results: seq<Execution>)
    ensures |NativeResults(results)| == |results|
  {
    if results != [] { NativeResultsLength(results[1..]); }
  }

  lemma {:induction false} NativeResultAt(results: seq<Execution>, i: nat)
    requires i < |results|
    ensures |NativeResults(results)| == |results|
    ensures NativeResults(results)[i] == ToolResult(match results[i].callId case Some(id) => id case None => "unknown", results[i].output)
  {
    NativeResultsLength(results[1..]);
    if i > 0 { NativeResultAt(results[1..], i - 1); }
  }

  /** The entries at `2 * i` are the round's: the model's text with its calls, then an entry
      that carries what the tools gave. */
  predicate RoundAt(cfg: Config, r: seq<Message>, i: nat, round: Round) {
    && 2 * i + 1 < |r| && r[2 * i] == ToolCalls(Some(round.text), round.calls)
    && CarriesResults(cfg.native, r[2 * i + 1], round.results)
  }

  lemma {:induction false} RoundsInOrder(cfg: Config, rounds: seq<Round>, i: nat)
    requires i < |rounds|
    ensures RoundAt(cfg, RoundEntries(cfg, rounds), i, rounds[i])
  {
    var a, b := ToolCalls(Some(rounds[0].text), rounds[0].calls), ResultEntry(cfg, rounds[0].results);
    var later := RoundEntries(cfg, rounds[1..]);
    if i > 0 {
      RoundsInOrder(cfg, rounds[1..], i - 1);
      LaterRound(cfg, [a, b] + later, a, b, later, i - 1, rounds[i]);
    } else {
      ResultsCarried(cfg, rounds[0].results);
      assert ([a, b] + later)[0] == a && ([a, b] + later)[1] == b;
    }
  }

  lemma LaterRound(cfg: Config, r: seq<Message>, a: Message, b: Message, later: seq<Message>, i: nat, round: Round)
    requires r == [a, b] + later && RoundAt(cfg, later, i, round)
    ensures RoundAt(cfg, r, i + 1, round)
  {
    hide CarriesResults;
    var n := 2 * i;
    assert r[n + 2] == later[n] && r[n + 3] == later[n + 1];
  }

  lemma RoundStays(cfg: Config, r: seq<Message>, ending: seq<Message>, i: nat, round: Round)
    requires RoundAt(cfg, r, i, round)
    ensures RoundAt(cfg, r + ending, i, round)
  {
    hide CarriesResults;
  }

  lemma {:induction false} RoundsLength(cfg: Config, rounds: seq<Round>)
    ensures |RoundEntries(cfg, rounds)| == 2 * |rounds|
  {
    if rounds != [] { RoundsLength(cfg, rounds[1..]); }
  }

  /** The whole of what a loop appends: its rounds in order, then its ending. */
  lemma LoopInOrder(cfg: Config, run: LoopRun)
    ensures
      var r, n := LoopEntries(cfg, run), 2 * |run.rounds|;
      && n <= |r|
      && (forall i :: 0 <= i < |run.rounds| ==> RoundAt(cfg, r, i, run.rounds[i]))
      && r[n..] == match run.ending
        case Stopped => []
        case Replied(text) => [Chat(ChatMessage(Assistant, text))]
        case Nudged(nudge) => [Chat(ChatMessage(User, nudge))]
        case Summarised(nudge, text) => [Chat(ChatMessage(User, nudge)), Chat(ChatMessage(Assistant, text))]
  {
    var rounds, ending := RoundEntries(cfg, run.rounds), EndingEntries(run.ending);
    RoundsLength(cfg, run.rounds);
    assert (rounds + ending)[|rounds|..] == ending;
    forall i | 0 <= i < |run.rounds|
      ensures RoundAt(cfg, rounds + ending, i, run.rounds[i])
    {
      RoundsInOrder(cfg, run.rounds, i);
      RoundStays(cfg, rounds, ending, i, run.rounds[i]);
    }
  }

  // ---------------------------------------------------------------------------
  // A turn

  /** What is sent without images is the message itself; with images, the cleaned text and
      what the reader gives for each, and no image of a type that the provider refuses. */
  lemma SentContent(cfg: Config, h: seq<Message>, content: string)
    requires Turns.PrepareNewTurn(cfg, h, content).Sendable?
    ensures
      var sent, p := Turns.PrepareNewTurn(cfg, h, content).content, Parse(content);
      if !cfg.vision || p.refs == [] then sent == content
      else exists uris :: ReadAll(p.refs, cfg.norm, uris) && sent == Compose(p.cleaned, uris)
    ensures cfg.vision ==>
      var refs := Parse(Turns.PrepareNewTurn(cfg, h, content).content).refs;
      forall i :: 0 <= i < |refs| ==> cfg.refAllowed(refs[i])
  {
    hide Parse, Compose, PrepareOne, PrepareAll, ProviderMessages, CountImages;
    if cfg.vision {
      var m, pm := ChatMessage(User, content), ProviderMessages(cfg, h);
      CountLast(pm, m);
      if CountImages(pm + [m]) > 0 { PrepareAllLast(pm, m, cfg.norm); }
      PrepareOneIs(m, cfg.norm);
    }
  }

  /** A message whose prepared form names an image of a refused type is not sent. */
  lemma RefusedType(cfg: Config, h: seq<Message>, content: string)
    requires Turns.PrepareNewTurn(cfg, h, content).BadMime?
    ensures
      var refs := Parse(Turns.PrepareNewTurn(cfg, h, content).content).refs;
      cfg.vision && exists i :: 0 <= i < |refs| && !cfg.refAllowed(refs[i])
  {}

  /** With a quiet text it reads as that text and those images. */
  lemma SentReads(cfg: Config, h: seq<Message>, content: string)
    requires cfg.vision && GivesDataUris(cfg.norm) && Turns.PrepareNewTurn(cfg, h, content).Sendable?
    requires Parse(content).refs != [] && Quiet(Parse(content).cleaned)
    ensures
      var sent, p := Parse(Turns.PrepareNewTurn(cfg, h, content).content), Parse(content);
      sent.cleaned == p.cleaned && ReadAll(p.refs, cfg.norm, sent.refs)
  {
    SentContent(cfg, h, content);
    var p, sent := Parse(content), Turns.PrepareNewTurn(cfg, h, content).content;
    var uris :| ReadAll(p.refs, cfg.norm, uris) && sent == Compose(p.cleaned, uris);
    ComposedReadsBack(content, uris, p, cfg.norm);
  }

  lemma ComposedReadsBack(content: string, uris: seq<string>, p: Parsed, norm: Normaliser)
    requires p == Parse(content) && p.refs != [] && Quiet(p.cleaned) && GivesDataUris(norm) && ReadAll(p.refs, norm, uris)
    ensures Parse(Compose(p.cleaned, uris)) == Parsed(p.cleaned, uris)
  {
    forall i | 0 <= i < |uris|
      ensures GoodRef(uris[i])
    {
      assert norm(p.refs[i]) == Some(uris[i]);
      BracketFreeDepth(uris[i], 0);
    }
    TrimTrims(CopiedText(Pieces(content)));
    ComposeParsesBack(p.cleaned, uris);
  }

  /** What is left of a history `all` after a trim: every system message, and of the other
      entries a suffix; all of it when the cap allows. */
  predicate LeftOf(all: seq<Message>, max: nat, r: seq<Message>) {
    && Systems(r) == Systems(all) && (|all| <= max ==> r == all)
    && |Others(r)| <= |Others(all)| && Others(r) == Others(all)[|Others(all)| - |Others(r)|..]
  }

  /** A sent turn leaves the old history, the message and what the loop appended, trimmed. */
  lemma TurnShape(cfg: Config, h: seq<Message>, enriched: string, prompt: Option<string>, run: LoopRun)
    requires h != [] || prompt.Some?
    ensures
      var h0 := if h == [] then [Chat(ChatMessage(System, prompt.value))] else h;
      var t, r := Turns.PrepareNewTurn(cfg, h0, enriched), TurnTo(cfg, h, enriched, prompt, run);
      if !t.Sendable? then r == h0
      else LeftOf(h0 + [Chat(ChatMessage(User, t.content))] + LoopEntries(cfg, run), cfg.maxHistory, r) && Systems(r) == Systems(h0)
  {
    hide Turns.PrepareNewTurn, LoopEntries, TrimTo, Systems, Others;
    var h0 := if h == [] then [SystemMessage(prompt.value)] else h;
    var t := Turns.PrepareNewTurn(cfg, h0, enriched);
    if t.Sendable? {
      LoopContinues(cfg, run);
      AddsNoSystem(h0, UserMessage(t.content), LoopEntries(cfg, run));
      TrimKeepsSystems(h0 + [UserMessage(t.content)] + LoopEntries(cfg, run), cfg.maxHistory);
    }
  }

  /** Nothing changes for a first turn without its prompt. */
  lemma TurnWithoutPrompt(cfg: Config, enriched: string, run: LoopRun)
    ensures TurnTo(cfg, [], enriched, None, run) == []
  {}

  lemma AddsNoSystem(h: seq<Message>, m: Message, entries: seq<Message>)
    requires !IsSystem(m) && NoSystem(entries)
    ensures Systems(h + [m] + entries) == Systems(h)
  {
    SystemsAppend(h + [m], entries);
    SystemsAppend(h, [m]);
    SelectAll([m]);
    SelectAll(entries);
    assert Systems(h) + [] + [] == Systems(h);
  }

  lemma TrimKeepsSystems(all: seq<Message>, max: nat)
    ensures LeftOf(all, max, TrimTo(all, max))
  {
    SelectKinds(all);
    if |all| > max {
      KeptIsSuffix(Others(all), max);
      SystemFirstJoin(Systems(all), KeptOthers(Others(all), max));
    }
  }

  // ---------------------------------------------------------------------------
  // Restoring, reseeding, adopting

  /** A stored turn, by its role: system and assistant text as it is; a user message as it
      would be sent now, or else its text with a placeholder for each image. */
  lemma PriorIs(cfg: Config, h: seq<Message>, p: Prior)
    ensures p.role == "system" ==> PriorMessage(cfg, h, p) == Chat(ChatMessage(System, p.content))
    ensures p.role == "assistant" ==> PriorMessage(cfg, h, p) == Chat(ChatMessage(Assistant, p.content))
    ensures p.role != "system" && p.role != "assistant" ==>
      var t, parsed := Turns.PrepareNewTurn(cfg, h, p.content), Parse(p.content);
      var text := if parsed.cleaned == "" then [] else [parsed.cleaned];
      PriorMessage(cfg, h, p) == Chat(ChatMessage(User, if t.Sendable? then t.content else Join(text + NotSentLines(parsed.refs), "\n")))
  {
    if p.role != "system" && p.role != "assistant" {
      var parsed := Parse(p.content);
      PlaceholdersAreLines(parsed.cleaned, parsed.refs);
    }
  }

  /** The turns are put back in order behind `start`, each judged against those before it. */
  ghost predicate PutBack(cfg: Config, start: seq<Message>, prior: seq<Prior>, r: seq<Message>) {
    && |r| == |start| + |prior| && start <= r
    && forall i :: 0 <= i < |prior| ==> r[|start| + i] == PriorMessage(cfg, r[..|start| + i], prior[i])
  }

  lemma PushedIsPutBack(cfg: Config, start: seq<Message>, prior: seq<Prior>)
    ensures PutBack(cfg, start, prior, PushPrior(cfg, start, prior))
  {
    PushPriorShape(cfg, start, prior);
  }

  /** A restore: nothing from nothing, the turns alone when one is a system turn, else the
      new prompt and the turns, and nothing at all when the prompt cannot be built. */
  lemma RestoreIs(cfg: Config, prior: seq<Prior>, prompt: Option<string>)
    ensures
      var r := RestoreTo(cfg, prior, prompt);
      if prior == [] then r == []
      else if exists i :: 0 <= i < |prior| && prior[i].role == "system" then PutBack(cfg, [], prior, r)
      else match prompt
        case None => r == []
        case Some(text) => PutBack(cfg, [Chat(ChatMessage(System, text))], prior, r)
  {
    PushedIsPutBack(cfg, [], prior);
    if prompt.Some? { PushedIsPutBack(cfg, [SystemMessage(prompt.value)], prior); }
  }

  /** A reseed: the new prompt and the turns, or the old history without a prompt. */
  lemma ReseedIs(cfg: Config, h: seq<Message>, turns: seq<Prior>, prompt: Option<string>)
    ensures
      var r := ReseedTo(cfg, h, turns, prompt);
      match prompt
      case None => r == h
      case Some(text) => PutBack(cfg, [Chat(ChatMessage(System, text))], turns, r)
  {
    if prompt.Some? { PushedIsPutBack(cfg, [SystemMessage(prompt.value)], turns); }
  }

  /** Adoption: this agent's prompt in front, and the other history behind it, less its
      leading system message. */
  lemma AdoptIs(h: seq<Message>, previous: seq<Message>, prompt: Option<string>)
    ensures
      var r := AdoptTo(h, previous, prompt);
      match prompt
      case None => r == h
      case Some(text) =>
        && r != [] && r[0] == Chat(ChatMessage(System, text))
        && (previous != [] && IsSystem(previous[0]) ==> r[1..] == previous[1..])
        && (previous == [] || !IsSystem(previous[0]) ==> r[1..] == previous)
  {}

  /** In a well-formed session only the prompt is exchanged: the summaries stay. */
  lemma AdoptKeepsSummaries(h: seq<Message>, previous: seq<Message>, prompt: string)
    requires WellFormed(previous) && previous != []
    ensures Systems(AdoptTo(h, previous, Some(prompt))) == [SystemMessage(prompt)] + Systems(previous)[1..]
    ensures Others(AdoptTo(h, previous, Some(prompt))) == Others(previous)
  {
    var s, rest := SystemMessage(prompt), previous[1..];
    assert previous == [previous[0]] + rest;
    SystemsAppend([previous[0]], rest);
    SystemsAppend([s], rest);
    OthersAppend([previous[0]], rest);
    OthersAppend([s], rest);
    SelectAll([previous[0]]);
    SelectAll([s]);
  }
}
